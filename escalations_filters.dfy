/**
 * The filter panel's logic (components/escalations/EscalationsFilters.tsx):
 * one-field updates of the criteria, the "All" sentinels of the three
 * drop-downs, whether any criterion is active, and the status labels.
 */
module EscalationsFilters {
  import opened Wrappers
  import opened Text
  import opened Escalations
  import opened EscalationsFilterHook

  /** The five text criteria of `EscalationFilters`. */
  datatype Criterion = StatusCriterion | CustomerCriterion | ManagerCriterion | AreaCriterion | GroupCriterion

  /** The two date bounds of `EscalationFilters`. */
  datatype DateBound = FromBound | ToBound

  function CriterionText(f: Filters, c: Criterion): string
  {
    match c
    case StatusCriterion => f.escalationStatus
    case CustomerCriterion => f.customerName
    case ManagerCriterion => f.escalationManager
    case AreaCriterion => f.functionalArea
    case GroupCriterion => f.businessGroup
  }

  function BoundOf(f: Filters, b: DateBound): Option<int>
  {
    match b
    case FromBound => f.createdDateFrom
    case ToBound => f.createdDateTo
  }

  /** Two criteria records agree when every criterion and every bound agrees. */
  lemma FiltersExtensional(f: Filters, g: Filters)
    requires forall c :: CriterionText(f, c) == CriterionText(g, c)
    requires forall b :: BoundOf(f, b) == BoundOf(g, b)
    ensures f == g
  {
    assert CriterionText(f, StatusCriterion) == CriterionText(g, StatusCriterion);
    assert CriterionText(f, CustomerCriterion) == CriterionText(g, CustomerCriterion);
    assert CriterionText(f, ManagerCriterion) == CriterionText(g, ManagerCriterion);
    assert CriterionText(f, AreaCriterion) == CriterionText(g, AreaCriterion);
    assert CriterionText(f, GroupCriterion) == CriterionText(g, GroupCriterion);
    assert BoundOf(f, FromBound) == BoundOf(g, FromBound);
    assert BoundOf(f, ToBound) == BoundOf(g, ToBound);
  }

  /** `handleChange` on a text criterion: `{ ...filters, [field]: value }`. */
  function WithCriterion(f: Filters, c: Criterion, v: string): (r: Filters)
    ensures CriterionText(r, c) == v
    ensures forall c' :: c' != c ==> CriterionText(r, c') == CriterionText(f, c')
    ensures forall b :: BoundOf(r, b) == BoundOf(f, b)
  {
    match c
    case StatusCriterion => f.(escalationStatus := v)
    case CustomerCriterion => f.(customerName := v)
    case ManagerCriterion => f.(escalationManager := v)
    case AreaCriterion => f.(functionalArea := v)
    case GroupCriterion => f.(businessGroup := v)
  }

  /** `handleChange` on a date input; the bound is the instant its input denotes, `None` when emptied. */
  function WithBound(f: Filters, b: DateBound, v: Option<int>): (r: Filters)
    ensures BoundOf(r, b) == v
    ensures forall b' :: b' != b ==> BoundOf(r, b') == BoundOf(f, b')
    ensures forall c :: CriterionText(r, c) == CriterionText(f, c)
  {
    match b
    case FromBound => f.(createdDateFrom := v)
    case ToBound => f.(createdDateTo := v)
  }

  /** Setting a criterion to the value it already has changes nothing. */
  lemma WithCriterionUnchanged(f: Filters, c: Criterion)
    ensures WithCriterion(f, c, CriterionText(f, c)) == f
  {
    FiltersExtensional(WithCriterion(f, c, CriterionText(f, c)), f);
  }

  /** The three drop-downs, each controlling one criterion. */
  datatype SelectControl = StatusSelect | AreaSelect | GroupSelect

  /** The "All" option's value: never `''`, so it is not confused with an unset criterion. */
  function Sentinel(s: SelectControl): (v: string)
    ensures v != ""
  {
    match s
    case StatusSelect => "__all_statuses__"
    case AreaSelect => "__all_areas__"
    case GroupSelect => "__all_groups__"
  }

  function ControlledCriterion(s: SelectControl): Criterion
  {
    match s
    case StatusSelect => StatusCriterion
    case AreaSelect => AreaCriterion
    case GroupSelect => GroupCriterion
  }

  /** The value shown by a drop-down: `filters.x || SENTINEL`. Never empty, so the control always has a selection. */
  function SelectValue(f: Filters, s: SelectControl): (v: string)
    ensures v != ""
    ensures v == Sentinel(s) || v == CriterionText(f, ControlledCriterion(s))
  {
    var x := CriterionText(f, ControlledCriterion(s));
    if x != "" then x else Sentinel(s)
  }

  /** `handleSelectChange`: the sentinel becomes `''`, every other value is stored as it is. */
  function HandleSelectChange(f: Filters, s: SelectControl, value: string): (r: Filters)
    ensures value == Sentinel(s) ==> CriterionText(r, ControlledCriterion(s)) == ""
    ensures value != Sentinel(s) ==> CriterionText(r, ControlledCriterion(s)) == value
    ensures forall c :: c != ControlledCriterion(s) ==> CriterionText(r, c) == CriterionText(f, c)
    ensures forall b :: BoundOf(r, b) == BoundOf(f, b)
  {
    var actualValue := if value == Sentinel(s) then "" else value;
    WithCriterion(f, ControlledCriterion(s), actualValue)
  }

  /** Feeding the displayed value back through the change handler restores the criteria. */
  lemma SelectRoundTrip(f: Filters, s: SelectControl)
    requires CriterionText(f, ControlledCriterion(s)) != Sentinel(s)
    ensures HandleSelectChange(f, s, SelectValue(f, s)) == f
  {
    FiltersExtensional(HandleSelectChange(f, s, SelectValue(f, s)), f);
  }

  /** Choosing "All" clears the criterion, and the drop-down then shows "All" again. */
  lemma SelectAllClears(f: Filters, s: SelectControl)
    ensures CriterionText(HandleSelectChange(f, s, Sentinel(s)), ControlledCriterion(s)) == ""
    ensures SelectValue(HandleSelectChange(f, s, Sentinel(s)), s) == Sentinel(s)
  {
  }

  /** Choosing an option then reading the drop-down shows that option. */
  lemma SelectShowsChoice(f: Filters, s: SelectControl, value: string)
    requires value != ""
    ensures SelectValue(HandleSelectChange(f, s, value), s) == value
  {
  }

  /** The values of the criteria: `Object.values(filters)`, each date bound as set or unset. */
  function FieldsSet(f: Filters): seq<bool>
  {
    [f.escalationStatus != "", f.customerName != "", f.escalationManager != "",
     f.functionalArea != "", f.businessGroup != "",
     f.createdDateFrom.Some?, f.createdDateTo.Some?]
  }

  /** `hasActiveFilters`: `Object.values(filters).some((v) => v !== '')`. */
  predicate HasActiveFilters(f: Filters)
  {
    exists i | 0 <= i < |FieldsSet(f)| :: FieldsSet(f)[i]
  }

  /** Active exactly when the criteria differ from the empty ones, that is, when some criterion or bound is set. */
  lemma HasActiveFiltersMeaning(f: Filters)
    ensures HasActiveFilters(f) <==> f != EmptyFilters
    ensures HasActiveFilters(f) <==>
              (exists c :: CriterionText(f, c) != "") || (exists b :: BoundOf(f, b).Some?)
  {
    var fields := FieldsSet(f);
    if f != EmptyFilters {
      if f.escalationStatus != "" {
        assert fields[0] && CriterionText(f, StatusCriterion) != "";
      } else if f.customerName != "" {
        assert fields[1] && CriterionText(f, CustomerCriterion) != "";
      } else if f.escalationManager != "" {
        assert fields[2] && CriterionText(f, ManagerCriterion) != "";
      } else if f.functionalArea != "" {
        assert fields[3] && CriterionText(f, AreaCriterion) != "";
      } else if f.businessGroup != "" {
        assert fields[4] && CriterionText(f, GroupCriterion) != "";
      } else if f.createdDateFrom.Some? {
        assert fields[5] && BoundOf(f, FromBound).Some?;
      } else {
        assert fields[6] && BoundOf(f, ToBound).Some?;
      }
    }
  }

  /** The Clear button is shown after any criterion is set, and is hidden again by a reset. */
  lemma ClearButtonVisibility(f: Filters, c: Criterion, v: string)
    requires v != ""
    ensures HasActiveFilters(WithCriterion(f, c, v))
    ensures !HasActiveFilters(EmptyFilters)
  {
    HasActiveFiltersMeaning(WithCriterion(f, c, v));
    HasActiveFiltersMeaning(EmptyFilters);
  }

  /** `getStatusLabel`: the three colour statuses in capitals, every other string unchanged. */
  function GetStatusLabel(status: string): (shown: string)
    ensures status == "Red" ==> shown == "RED"
    ensures status == "Yellow" ==> shown == "YELLOW"
    ensures status == "Green" ==> shown == "GREEN"
    ensures status != "Red" && status != "Yellow" && status != "Green" ==> shown == status
  {
    if status == "Red" then "RED"
    else if status == "Yellow" then "YELLOW"
    else if status == "Green" then "GREEN"
    else status
  }

  /** Against an independent definition: the colour statuses are upper-cased, the rest kept. */
  lemma StatusLabelIsUpperForColours(status: string)
    ensures GetStatusLabel(status) ==
              if status in ["Red", "Yellow", "Green"] then Upper(status) else status
  {
    if status == "Red" {
      assert Upper(status) == "RED";
    } else if status == "Yellow" {
      assert Upper(status) == "YELLOW";
    } else if status == "Green" {
      assert Upper(status) == "GREEN";
    }
  }

  /** The five statuses of the enum get five different labels. */
  lemma StatusLabelsDistinct(s: Status, t: Status)
    requires s != t
    ensures GetStatusLabel(StatusName(s)) != GetStatusLabel(StatusName(t))
  {
  }

  /** Setting a criterion that was empty can only narrow the filtered list, keeping its order. */
  lemma SettingCriterionNarrows(xs: seq<Escalation>, f: Filters, c: Criterion, v: string)
    requires CriterionText(f, c) == ""
    ensures SubsequenceOf(FilterEscalations(xs, WithCriterion(f, c, v)), FilterEscalations(xs, f))
  {
    FilterMonotone(xs, f, WithCriterion(f, c, v));
  }

  /** Likewise for a date bound that was unset. */
  lemma SettingBoundNarrows(xs: seq<Escalation>, f: Filters, b: DateBound, v: Option<int>)
    requires BoundOf(f, b).None?
    ensures SubsequenceOf(FilterEscalations(xs, WithBound(f, b, v)), FilterEscalations(xs, f))
  {
    FilterMonotone(xs, f, WithBound(f, b, v));
  }
}
