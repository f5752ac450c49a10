/**
 * The table's sorting (components/escalations/EscalationsTable.tsx): the
 * comparator over one column's key, the stable sort of a copy of the list,
 * and the column-header toggle of the sort state.
 */
module EscalationsTable {
  import opened Wrappers
  import opened Text
  import opened Escalations
  import Sorting

  datatype SortField = ByTitle | ByCustomerName | ByEscalationStatus | ByCreatedDate | ByEscalationNumber

  datatype SortDirection = Asc | Desc

  /** The value the comparator extracts: a lower-cased string, or the creation instant. */
  datatype SortKey = TextKey(text: string) | InstantKey(instant: int)

  /** The key of one record: the creation instant for that column, otherwise a text with no upper-case letter. */
  function KeyOf(field: SortField, e: Escalation): (k: SortKey)
    ensures k.InstantKey? <==> field == ByCreatedDate
    ensures k.TextKey? ==> NoUpper(k.text)
  {
    match field
    case ByTitle => TextKey(Lower(e.title))
    case ByCustomerName => TextKey(Lower(e.customerName))
    case ByEscalationStatus => TextKey(Lower(StatusName(e.escalationStatus)))
    case ByCreatedDate => InstantKey(e.createdDate)
    case ByEscalationNumber => TextKey(Lower(e.escalationNumber))
  }

  /** The text columns sort without regard to case. */
  lemma KeyIgnoresCase(e: Escalation)
    ensures KeyOf(ByTitle, e.(title := Upper(e.title))) == KeyOf(ByTitle, e)
    ensures KeyOf(ByCustomerName, e.(customerName := Upper(e.customerName))) == KeyOf(ByCustomerName, e)
    ensures KeyOf(ByEscalationNumber, e.(escalationNumber := Upper(e.escalationNumber))) == KeyOf(ByEscalationNumber, e)
  {
    LowerIgnoresCase(e.title);
    LowerIgnoresCase(e.customerName);
    LowerIgnoresCase(e.escalationNumber);
  }

  function KeyFn(field: SortField): Escalation -> SortKey
  {
    e => KeyOf(field, e)
  }

  /** JavaScript's `<` on two keys of the same kind. */
  predicate KeyLess(a: SortKey, b: SortKey)
  {
    if a.TextKey? && b.TextKey? then Below(a.text, b.text)
    else if a.InstantKey? && b.InstantKey? then a.instant < b.instant
    else false
  }

  /** Keys of one column are always of one kind, so any two are equal or ordered one way. */
  lemma KeyTotal(field: SortField, x: Escalation, y: Escalation)
    ensures var a, b := KeyOf(field, x), KeyOf(field, y);
            a == b || KeyLess(a, b) || KeyLess(b, a)
  {
    var a, b := KeyOf(field, x), KeyOf(field, y);
    if a.TextKey? {
      BelowTotal(a.text, b.text);
    }
  }

  lemma KeyLessAsymmetric(a: SortKey, b: SortKey)
    ensures KeyLess(a, b) ==> !KeyLess(b, a)
  {
    if a.TextKey? && b.TextKey? {
      BelowAsymmetric(a.text, b.text);
    }
  }

  /** The order in which the sort places keys: `<` ascending, `>` descending. */
  function Precedes(dir: SortDirection): (SortKey, SortKey) -> bool
  {
    if dir == Asc then (a, b) => KeyLess(a, b) else (a, b) => KeyLess(b, a)
  }

  lemma PrecedesAsymmetric(dir: SortDirection)
    ensures Sorting.Asymmetric(Precedes(dir))
  {
    forall a, b
      ensures Precedes(dir)(a, b) ==> !Precedes(dir)(b, a)
    {
      KeyLessAsymmetric(a, b);
    }
  }

  /** The comparator passed to `sort`: negative, positive or zero. */
  function Compare(field: SortField, dir: SortDirection, x: Escalation, y: Escalation): int
  {
    var aVal, bVal := KeyOf(field, x), KeyOf(field, y);
    if KeyLess(aVal, bVal) then (if dir == Asc then -1 else 1)
    else if KeyLess(bVal, aVal) then (if dir == Asc then 1 else -1)
    else 0
  }

  /**
   * The comparator agrees with `Precedes`: negative exactly when the first
   * record's key precedes, zero exactly when the keys are equal.
   */
  lemma CompareMeaning(field: SortField, dir: SortDirection, x: Escalation, y: Escalation)
    ensures Compare(field, dir, x, y) < 0 <==> Precedes(dir)(KeyOf(field, x), KeyOf(field, y))
    ensures Compare(field, dir, x, y) > 0 <==> Precedes(dir)(KeyOf(field, y), KeyOf(field, x))
    ensures Compare(field, dir, x, y) == 0 <==> KeyOf(field, x) == KeyOf(field, y)
  {
    var a, b := KeyOf(field, x), KeyOf(field, y);
    KeyTotal(field, x, y);
    KeyLessAsymmetric(a, b);
    if a == b && a.TextKey? {
      BelowIrreflexive(a.text);
    }
  }

  /**
   * The comparator as written. For the creation-date column it evaluates
   * `new Date(a.createdDate)` on the `bigint` instant, and the `Date`
   * constructor throws a `TypeError` for a `bigint`; `None` is that throw.
   * `Compare` is the intended comparator, used everywhere else.
   */
  function CompareAsWritten(field: SortField, dir: SortDirection, x: Escalation, y: Escalation): (r: Option<int>)
    ensures field != ByCreatedDate ==> r == Some(Compare(field, dir, x, y))
  {
    if field == ByCreatedDate then None else Some(Compare(field, dir, x, y))
  }

  /** `sortedEscalations`: the records in the comparator's order, ties in their original order. */
  function SortEscalations(xs: seq<Escalation>, field: SortField, dir: SortDirection): seq<Escalation>
  {
    Sorting.Sort(xs, KeyFn(field), Precedes(dir))
  }

  /** `x`'s key is at most `y`'s in the direction `dir`. */
  predicate InOrder(field: SortField, dir: SortDirection, x: Escalation, y: Escalation)
  {
    KeyOf(field, x) == KeyOf(field, y) || Precedes(dir)(KeyOf(field, x), KeyOf(field, y))
  }

  /** The sorted list holds the same records, each as often as before. */
  lemma SortIsPermutation(xs: seq<Escalation>, field: SortField, dir: SortDirection)
    ensures multiset(SortEscalations(xs, field, dir)) == multiset(xs)
    ensures |SortEscalations(xs, field, dir)| == |xs|
  {
    Sorting.SortPermutation(xs, KeyFn(field), Precedes(dir));
  }

  /** Adjacent keys are non-decreasing ascending and non-increasing descending. */
  lemma SortIsOrdered(xs: seq<Escalation>, field: SortField, dir: SortDirection)
    ensures var r := SortEscalations(xs, field, dir);
            forall i :: 0 < i < |r| ==> InOrder(field, dir, r[i - 1], r[i])
  {
    PrecedesAsymmetric(dir);
    Sorting.SortOrdered(xs, KeyFn(field), Precedes(dir));
    var r := SortEscalations(xs, field, dir);
    forall i | 0 < i < |r|
      ensures InOrder(field, dir, r[i - 1], r[i])
    {
      KeyTotal(field, r[i - 1], r[i]);
    }
  }

  /** Records with equal keys keep their original relative order. */
  lemma SortIsStable(xs: seq<Escalation>, field: SortField, dir: SortDirection, k: SortKey)
    ensures Sorting.WithKey(SortEscalations(xs, field, dir), KeyFn(field), k) == Sorting.WithKey(xs, KeyFn(field), k)
  {
    PrecedesAsymmetric(dir);
    Sorting.SortStable(xs, KeyFn(field), Precedes(dir), k);
  }

  /** A list already in order is returned unchanged; in particular sorting twice is sorting once. */
  lemma SortIsIdempotent(xs: seq<Escalation>, field: SortField, dir: SortDirection)
    ensures (forall i :: 0 < i < |xs| ==> InOrder(field, dir, xs[i - 1], xs[i])) ==>
              SortEscalations(xs, field, dir) == xs
    ensures SortEscalations(SortEscalations(xs, field, dir), field, dir) == SortEscalations(xs, field, dir)
  {
    PrecedesAsymmetric(dir);
    if forall i :: 0 < i < |xs| ==> InOrder(field, dir, xs[i - 1], xs[i]) {
      InOrderIsOrdered(xs, field, dir);
      Sorting.SortOfOrdered(xs, KeyFn(field), Precedes(dir));
    }
    Sorting.SortIdempotent(xs, KeyFn(field), Precedes(dir));
  }

  lemma KeyIrreflexive(a: SortKey)
    ensures !KeyLess(a, a)
  {
    if a.TextKey? {
      BelowIrreflexive(a.text);
    }
  }

  lemma PrecedesTransitive(dir: SortDirection)
    ensures Sorting.Transitive(Precedes(dir))
  {
    forall a, b, c | Precedes(dir)(a, b) && Precedes(dir)(b, c)
      ensures Precedes(dir)(a, c)
    {
      if a.TextKey? {
        if dir == Asc {
          BelowTransitive(a.text, b.text, c.text);
        } else {
          BelowTransitive(c.text, b.text, a.text);
        }
      }
    }
  }

  /** Adjacent order in `dir` is `Sorting.Ordered` for the key order `Precedes(dir)`. */
  lemma InOrderIsOrdered(xs: seq<Escalation>, field: SortField, dir: SortDirection)
    requires forall i :: 0 < i < |xs| ==> InOrder(field, dir, xs[i - 1], xs[i])
    ensures Sorting.Ordered(xs, KeyFn(field), Precedes(dir))
  {
    forall i | 0 < i < |xs|
      ensures !Precedes(dir)(KeyFn(field)(xs[i]), KeyFn(field)(xs[i - 1]))
    {
      KeyLessAsymmetric(KeyOf(field, xs[i]), KeyOf(field, xs[i - 1]));
      KeyIrreflexive(KeyOf(field, xs[i]));
    }
  }

  /**
   * Any stable sort with this comparator, such as the engine's
   * `Array.prototype.sort`, computes `SortEscalations`: a permutation that is
   * in order and keeps equal keys in their original order is that sequence.
   */
  lemma AnyStableSortAgrees(xs: seq<Escalation>, field: SortField, dir: SortDirection, r: seq<Escalation>)
    requires multiset(r) == multiset(xs)
    requires forall i :: 0 < i < |r| ==> InOrder(field, dir, r[i - 1], r[i])
    requires forall k :: Sorting.WithKey(r, KeyFn(field), k) == Sorting.WithKey(xs, KeyFn(field), k)
    ensures r == SortEscalations(xs, field, dir)
  {
    PrecedesAsymmetric(dir);
    PrecedesTransitive(dir);
    InOrderIsOrdered(r, field, dir);
    forall x, y | x in xs && y in xs
      ensures var a, b := KeyFn(field)(x), KeyFn(field)(y);
              a == b || Precedes(dir)(a, b) || Precedes(dir)(b, a)
    {
      KeyTotal(field, x, y);
    }
    Sorting.SortUnique(xs, r, KeyFn(field), Precedes(dir));
  }

  /** The column and direction the table sorts by. */
  datatype SortState = SortState(field: SortField, direction: SortDirection)

  /** Newest first until a header is clicked. */
  const DefaultSort: SortState := SortState(ByCreatedDate, Desc)

  /**
   * As written, every comparison under the initial sort state throws, so the
   * first render of two or more records fails; the intended comparator
   * orders by creation instant.
   */
  lemma DefaultSortThrowsAsWritten(x: Escalation, y: Escalation)
    ensures CompareAsWritten(DefaultSort.field, DefaultSort.direction, x, y).None?
    ensures Compare(DefaultSort.field, DefaultSort.direction, x, y) < 0 <==> x.createdDate > y.createdDate
    ensures Compare(DefaultSort.field, DefaultSort.direction, x, y) == 0 <==> x.createdDate == y.createdDate
  {
    CompareMeaning(DefaultSort.field, DefaultSort.direction, x, y);
  }

  /** Under the initial sort state the list is newest first. */
  lemma DefaultSortIsNewestFirst(xs: seq<Escalation>)
    ensures var r := SortEscalations(xs, DefaultSort.field, DefaultSort.direction);
            forall i :: 0 < i < |r| ==> r[i - 1].createdDate >= r[i].createdDate
  {
    SortIsOrdered(xs, DefaultSort.field, DefaultSort.direction);
  }

  function Flip(d: SortDirection): (e: SortDirection)
    ensures e != d
  {
    if d == Asc then Desc else Asc
  }

  /** `handleSort`: the current column flips direction; another column becomes the ascending sort. */
  function NextSortState(s: SortState, field: SortField): (r: SortState)
    ensures field == s.field ==> r.field == s.field && r.direction != s.direction
    ensures field != s.field ==> r == SortState(field, Asc)
  {
    if s.field == field then SortState(s.field, Flip(s.direction))
    else SortState(field, Asc)
  }

  /** Clicking the current column twice restores the sort. */
  lemma ToggleTwiceRestores(s: SortState)
    ensures NextSortState(NextSortState(s, s.field), s.field) == s
  {
  }

  /** Clicking another column then clicking it again sorts it descending. */
  lemma NewColumnThenToggle(s: SortState, field: SortField)
    requires field != s.field
    ensures NextSortState(NextSortState(s, field), field) == SortState(field, Desc)
  {
  }

  /** The table's two `useState` variables and the memoised sort over them. */
  class SortableTable {
    var sortField: SortField
    var sortDirection: SortDirection

    constructor ()
      ensures SortState(sortField, sortDirection) == DefaultSort
    {
      sortField := ByCreatedDate;
      sortDirection := Desc;
    }

    method HandleSort(field: SortField)
      modifies this
      ensures SortState(sortField, sortDirection) == NextSortState(old(SortState(sortField, sortDirection)), field)
    {
      if sortField == field {
        sortDirection := Flip(sortDirection);
      } else {
        sortField := field;
        sortDirection := Asc;
      }
    }

    /** `[...escalations].sort(...)`: sorts a fresh copy; `escalations` itself is not modified. */
    method SortedEscalations(escalations: array<Escalation>) returns (sorted: seq<Escalation>)
      ensures sorted == SortEscalations(escalations[..], sortField, sortDirection)
    {
      var copy := new Escalation[escalations.Length];
      for i := 0 to escalations.Length
        invariant copy[..i] == escalations[..i]
      {
        copy[i] := escalations[i];
      }
      assert copy[..] == escalations[..];
      Sorting.SortInPlace(copy, KeyFn(sortField), Precedes(sortDirection));
      sorted := copy[..];
    }
  }
}
