/**
 * The create/edit form (components/escalations/EscalationForm.tsx): the
 * draft record held as component state, its field updates, and the
 * read-only displays for the creation date, the escalation's length and the
 * escalation number. `now` is the current time in milliseconds.
 */
module EscalationForm {
  import opened Wrappers
  import opened Text
  import opened Escalations
  import opened EscalationLength

  /** The draft a create-mode form starts from. */
  const DefaultDraft: Escalation :=
    Escalation(0, "", "", "", "", "", "", "", Assessment, 0, "", "", "", "", "", "", "", "")

  /** A fresh draft has id 0, no creation instant, status Assessment and every text field empty. */
  lemma DefaultDraftIsBlank()
    ensures DefaultDraft.escalationId == 0 && DefaultDraft.createdDate == 0
    ensures DefaultDraft.escalationStatus == Assessment
    ensures forall f :: TextOf(DefaultDraft, f) == ""
  {
  }

  /** What `formatCreatedDate` shows: a fixed text, or the locale rendering of an instant in milliseconds. */
  datatype DateText = Literal(text: string) | Localized(millis: int)

  /** `formatCreatedDate`: "Not yet created" for the unsaved sentinel 0; otherwise the instant in milliseconds. */
  function FormatCreatedDate(timestamp: int): (d: DateText)
    ensures timestamp == 0 <==> d == Literal("Not yet created")
    ensures timestamp != 0 ==> d == Localized(CreatedMillis(timestamp))
  {
    if timestamp == 0 then Literal("Not yet created")
    else Localized(CreatedMillis(timestamp))
  }

  /** `getLengthOfEscalationDisplay`. */
  function LengthDisplay(isEditMode: bool, createdDate: int, now: int): (s: string)
    ensures !isEditMode || createdDate == 0 ==> s == "Calculated after save"
    ensures isEditMode && createdDate != 0 && DaysSinceCreation(createdDate, now).None? ==>
              s == "Not yet created"
    ensures isEditMode && createdDate != 0 && DaysSinceCreation(createdDate, now).Some? ==>
              s == Decimal(DaysSinceCreation(createdDate, now).value)
  {
    if !isEditMode || createdDate == 0 then "Calculated after save"
    else
      match DaysSinceCreation(createdDate, now)
      case None => "Not yet created"
      case Some(days) => Decimal(days)
  }

  /**
   * A day count in the form is the bare number: reading it back gives the
   * age, and it is the list's display without its " days" suffix.
   */
  lemma LengthDisplayIsBareDayCount(createdDate: int, now: int)
    requires createdDate != 0 && DaysSinceCreation(createdDate, now).Some?
    ensures var s := LengthDisplay(true, createdDate, now);
            && (forall i :: 0 <= i < |s| ==> IsDigit(s[i]))
            && DecimalValue(s) == DaysSinceCreation(createdDate, now).value
    ensures DaysSinceCreation(createdDate, now).value != 1 ==>
              FormatEscalationLength(createdDate, now) == LengthDisplay(true, createdDate, now) + " days"
  {
    var n := DaysSinceCreation(createdDate, now).value;
    DecimalRoundTrip(n);
    if n == 0 {
      assert Decimal(0) == "0";
    }
  }

  /** The escalation-number field: a placeholder in create mode, the stored number in edit mode. */
  function EscalationNumberDisplay(isEditMode: bool, draft: Escalation): (s: string)
    ensures !isEditMode ==> s == "Auto-generated on save"
    ensures isEditMode ==> s == draft.escalationNumber
  {
    if isEditMode then draft.escalationNumber else "Auto-generated on save"
  }

  /** The form's `formData` state and its `initialData` prop. */
  class EscalationFormState {
    const initialData: Option<Escalation>
    var formData: Escalation

    constructor (initialData: Option<Escalation>)
      ensures this.initialData == initialData
      ensures formData == DefaultDraft
    {
      this.initialData := initialData;
      formData := DefaultDraft;
    }

    /** `isEditMode = !!initialData`. */
    predicate IsEditMode()
    {
      initialData.Some?
    }

    /** The effect on `initialData`: a loaded record replaces the whole draft, write-once fields included. */
    method LoadInitialData()
      modifies this
      ensures initialData.Some? ==> formData == initialData.value
      ensures initialData.None? ==> formData == old(formData)
    {
      if initialData.Some? {
        formData := initialData.value;
      }
    }

    /** `handleChange` on a text field. */
    method HandleChange(field: TextField, value: string)
      modifies this
      ensures formData == WithText(old(formData), field, value)
    {
      formData := WithText(formData, field, value);
    }

    /** `handleChange('escalationStatus', ...)` from the status drop-down. */
    method HandleStatusChange(status: Status)
      modifies this
      ensures formData == WithStatus(old(formData), status)
    {
      formData := WithStatus(formData, status);
    }

    /** `getLengthOfEscalationDisplay` on the current draft. */
    function LengthOfEscalationDisplay(now: int): (s: string)
      reads this
      ensures !IsEditMode() || formData.createdDate == 0 ==> s == "Calculated after save"
      ensures IsEditMode() ==> s == LengthDisplay(true, formData.createdDate, now)
    {
      LengthDisplay(IsEditMode(), formData.createdDate, now)
    }

    function EscalationNumberShown(): (s: string)
      reads this
      ensures IsEditMode() ==> s == formData.escalationNumber
    {
      EscalationNumberDisplay(IsEditMode(), formData)
    }
  }

  /**
   * A create-mode form shows the placeholder displays whatever is typed; an
   * edit-mode form, once loaded, shows the loaded record's number and age.
   */
  method FormDisplays(initialData: Option<Escalation>, field: TextField, value: string, now: int)
    returns (length: string, number: string)
    ensures initialData.None? ==> length == "Calculated after save" && number == "Auto-generated on save"
    ensures initialData.Some? && field != EscalationNumber ==>
              number == initialData.value.escalationNumber &&
              length == LengthDisplay(true, initialData.value.createdDate, now)
  {
    var form := new EscalationFormState(initialData);
    form.LoadInitialData();
    form.HandleChange(field, value);
    length := form.LengthOfEscalationDisplay(now);
    number := form.EscalationNumberShown();
  }
}
