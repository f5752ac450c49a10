/**
 * The escalation record as the frontend receives it from the backend
 * (`Escalation` and `EscalationStatus` in backend.d.ts).
 */
module Escalations {

  /** The five values of the `EscalationStatus` enum. */
  datatype Status = Red | Yellow | Assessment | Green | Resolved

  /** The enum's string value, which is what filters and summaries compare. */
  function StatusName(s: Status): string
  {
    match s
    case Red => "Red"
    case Yellow => "Yellow"
    case Assessment => "Assessment"
    case Green => "Green"
    case Resolved => "Resolved"
  }

  /**
   * One escalation record. `createdDate` is the backend's creation instant in
   * nanoseconds (0 while the record has not been saved).
   */
  datatype Escalation = Escalation(
    escalationId: nat,
    title: string,
    reason: string,
    deEscalationCriteria: string,
    currentStatus: string,
    escalationManager: string,
    functionalArea: string,
    escalationTrend: string,
    escalationStatus: Status,
    createdDate: int,
    escalationType: string,
    mainContact: string,
    customerName: string,
    projectName: string,
    referenceNumber: string,
    escalationNumber: string,
    businessGroup: string,
    product: string)

  /** The fifteen text fields of a record, as `keyof Escalation` names them. */
  datatype TextField =
    | Title | Reason | DeEscalationCriteria | CurrentStatus | EscalationManager
    | FunctionalArea | EscalationTrend | EscalationType | MainContact | CustomerName
    | ProjectName | ReferenceNumber | EscalationNumber | BusinessGroup | Product

  function TextOf(e: Escalation, f: TextField): string
  {
    match f
    case Title => e.title
    case Reason => e.reason
    case DeEscalationCriteria => e.deEscalationCriteria
    case CurrentStatus => e.currentStatus
    case EscalationManager => e.escalationManager
    case FunctionalArea => e.functionalArea
    case EscalationTrend => e.escalationTrend
    case EscalationType => e.escalationType
    case MainContact => e.mainContact
    case CustomerName => e.customerName
    case ProjectName => e.projectName
    case ReferenceNumber => e.referenceNumber
    case EscalationNumber => e.escalationNumber
    case BusinessGroup => e.businessGroup
    case Product => e.product
  }

  /** `{ ...e, [f]: v }` for a text field. */
  function WithText(e: Escalation, f: TextField, v: string): (r: Escalation)
    ensures TextOf(r, f) == v
    ensures forall g :: g != f ==> TextOf(r, g) == TextOf(e, g)
    ensures r.escalationId == e.escalationId && r.escalationStatus == e.escalationStatus
    ensures r.createdDate == e.createdDate
  {
    match f
    case Title => e.(title := v)
    case Reason => e.(reason := v)
    case DeEscalationCriteria => e.(deEscalationCriteria := v)
    case CurrentStatus => e.(currentStatus := v)
    case EscalationManager => e.(escalationManager := v)
    case FunctionalArea => e.(functionalArea := v)
    case EscalationTrend => e.(escalationTrend := v)
    case EscalationType => e.(escalationType := v)
    case MainContact => e.(mainContact := v)
    case CustomerName => e.(customerName := v)
    case ProjectName => e.(projectName := v)
    case ReferenceNumber => e.(referenceNumber := v)
    case EscalationNumber => e.(escalationNumber := v)
    case BusinessGroup => e.(businessGroup := v)
    case Product => e.(product := v)
  }

  /** `{ ...e, escalationStatus: s }`. */
  function WithStatus(e: Escalation, s: Status): (r: Escalation)
    ensures r.escalationStatus == s
    ensures forall g :: TextOf(r, g) == TextOf(e, g)
    ensures r.escalationId == e.escalationId && r.createdDate == e.createdDate
  {
    e.(escalationStatus := s)
  }
}
