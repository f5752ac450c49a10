/**
 * The dashboard's derived data (hooks/useEscalationsFilters.ts): the filter
 * criteria, the filtered list, the three count dictionaries over it, and the
 * sorted distinct values offered by the filter drop-downs.
 */
module EscalationsFilterHook {
  import opened Wrappers
  import opened Text
  import opened Escalations

  /**
   * `EscalationFilters`. The five text criteria are `""` when unset; the two
   * date bounds are `None` when their input is empty, else the instant the
   * date input denotes.
   */
  datatype Filters = Filters(
    escalationStatus: string,
    customerName: string,
    escalationManager: string,
    functionalArea: string,
    businessGroup: string,
    createdDateFrom: Option<int>,
    createdDateTo: Option<int>)

  const EmptyFilters: Filters := Filters("", "", "", "", "", None, None)

  /** A record passes when it meets every criterion that is set; with no criterion set every record passes. */
  predicate Matches(e: Escalation, f: Filters)
    ensures f == EmptyFilters ==> Matches(e, f)
  {
    && (f.escalationStatus == "" || StatusName(e.escalationStatus) == f.escalationStatus)
    && (f.customerName == "" || Contains(Lower(e.customerName), Lower(f.customerName)))
    && (f.escalationManager == "" || Contains(Lower(e.escalationManager), Lower(f.escalationManager)))
    && (f.functionalArea == "" || e.functionalArea == f.functionalArea)
    && (f.businessGroup == "" || e.businessGroup == f.businessGroup)
    && (f.createdDateFrom.None? || !(e.createdDate < f.createdDateFrom.value))
    && (f.createdDateTo.None? || !(e.createdDate > f.createdDateTo.value))
  }

  /** `Matches` as a function value, for the generic list lemmas below. */
  function MatcherOf(f: Filters): Escalation -> bool
  {
    e => Matches(e, f)
  }

  /** `filteredEscalations`: `escalations.filter(...)` with the predicate above. */
  function FilterEscalations(xs: seq<Escalation>, f: Filters): (r: seq<Escalation>)
    ensures |r| <= |xs|
    ensures forall e :: e in r ==> e in xs && Matches(e, f)
  {
    KeepCounts(xs, MatcherOf(f));
    Keep(xs, MatcherOf(f))
  }

  /** `Array.filter`: the elements of `xs` satisfying `p`, in order. */
  function Keep<T>(xs: seq<T>, p: T -> bool): seq<T>
  {
    if |xs| == 0 then []
    else Keep(xs[..|xs| - 1], p) + (if p(xs[|xs| - 1]) then [xs[|xs| - 1]] else [])
  }

  /** `a` is `b` with some elements left out and the rest kept in order. */
  ghost predicate SubsequenceOf<T>(a: seq<T>, b: seq<T>)
    decreases |b|
  {
    if |a| == 0 then true
    else if |b| == 0 then false
    else (a[|a| - 1] == b[|b| - 1] && SubsequenceOf(a[..|a| - 1], b[..|b| - 1]))
         || SubsequenceOf(a, b[..|b| - 1])
  }

  /** `Keep` keeps every element satisfying `p`, as often as it occurs, and nothing else. */
  lemma {:induction false} KeepCounts<T>(xs: seq<T>, p: T -> bool)
    ensures |Keep(xs, p)| <= |xs|
    ensures forall x :: x in Keep(xs, p) ==> x in xs && p(x)
    ensures forall x :: multiset(Keep(xs, p))[x] == if p(x) then multiset(xs)[x] else 0
  {
    if |xs| > 0 {
      var init := xs[..|xs| - 1];
      KeepCounts(init, p);
      assert xs == init + [xs[|xs| - 1]];
    }
  }

  /** `Keep` with a stronger predicate yields a subsequence of `Keep` with a weaker one. */
  lemma {:induction false} KeepMonotone<T>(xs: seq<T>, p: T -> bool, q: T -> bool)
    requires forall x :: q(x) ==> p(x)
    ensures SubsequenceOf(Keep(xs, q), Keep(xs, p))
  {
    if |xs| > 0 {
      var init, x := xs[..|xs| - 1], xs[|xs| - 1];
      KeepMonotone(init, p, q);
      var a, b := Keep(xs, q), Keep(xs, p);
      if q(x) {
        assert a[..|a| - 1] == Keep(init, q);
        assert b[..|b| - 1] == Keep(init, p);
        assert a[|a| - 1] == b[|b| - 1];
      } else if p(x) {
        assert a == Keep(init, q);
        assert b[..|b| - 1] == Keep(init, p);
      } else {
        assert a == Keep(init, q) && b == Keep(init, p);
      }
    }
  }

  lemma {:induction false} KeepAll<T>(xs: seq<T>, p: T -> bool)
    requires forall x :: p(x)
    ensures Keep(xs, p) == xs
  {
    if |xs| > 0 {
      KeepAll(xs[..|xs| - 1], p);
      assert xs == xs[..|xs| - 1] + [xs[|xs| - 1]];
    }
  }

  /** Filtering never reorders records or adds new ones. */
  lemma FilterIsSubsequence(xs: seq<Escalation>, f: Filters)
    ensures SubsequenceOf(FilterEscalations(xs, f), xs)
  {
    KeepAll(xs, (e: Escalation) => true);
    KeepMonotone(xs, (e: Escalation) => true, MatcherOf(f));
  }

  /** The filter keeps every matching record, as often as it occurs, and nothing else. */
  lemma FilterCounts(xs: seq<Escalation>, f: Filters, e: Escalation)
    ensures multiset(FilterEscalations(xs, f))[e] == if Matches(e, f) then multiset(xs)[e] else 0
  {
    KeepCounts(xs, MatcherOf(f));
  }

  lemma EmptyFiltersKeepAll(xs: seq<Escalation>)
    ensures FilterEscalations(xs, EmptyFilters) == xs
  {
    KeepAll(xs, MatcherOf(EmptyFilters));
  }

  /** What each set criterion demands of a record that passes. */
  lemma MatchesMeaning(e: Escalation, f: Filters)
    requires Matches(e, f)
    ensures f.escalationStatus != "" ==> StatusName(e.escalationStatus) == f.escalationStatus
    ensures f.functionalArea != "" ==> e.functionalArea == f.functionalArea
    ensures f.businessGroup != "" ==> e.businessGroup == f.businessGroup
    ensures f.customerName != "" ==>
              e.customerName != "" && Contains(Lower(e.customerName), Lower(f.customerName))
    ensures f.escalationManager != "" ==>
              e.escalationManager != "" && Contains(Lower(e.escalationManager), Lower(f.escalationManager))
    ensures f.createdDateFrom.Some? ==> f.createdDateFrom.value <= e.createdDate
    ensures f.createdDateTo.Some? ==> e.createdDate <= f.createdDateTo.value
  {
    if f.customerName != "" && e.customerName == "" {
      EmptyContainsOnlyEmpty(Lower(f.customerName));
    }
    if f.escalationManager != "" && e.escalationManager == "" {
      EmptyContainsOnlyEmpty(Lower(f.escalationManager));
    }
  }

  /** With no text criterion set, a record passes exactly when it lies in the inclusive date range. */
  lemma DateRangeIsInclusive(e: Escalation, f: Filters)
    requires f.escalationStatus == "" && f.customerName == "" && f.escalationManager == ""
    requires f.functionalArea == "" && f.businessGroup == ""
    ensures Matches(e, f) <==>
              (f.createdDateFrom.None? || f.createdDateFrom.value <= e.createdDate) &&
              (f.createdDateTo.None? || e.createdDate <= f.createdDateTo.value)
  {
  }

  /**
   * The two searches ignore case on both sides: upper-casing the search text
   * or the record's field does not change whether the record passes.
   */
  lemma SearchIgnoresCase(e: Escalation, f: Filters)
    ensures Matches(e, f.(customerName := Upper(f.customerName))) == Matches(e, f)
    ensures Matches(e, f.(escalationManager := Upper(f.escalationManager))) == Matches(e, f)
    ensures Matches(e.(customerName := Upper(e.customerName)), f) == Matches(e, f)
    ensures Matches(e.(escalationManager := Upper(e.escalationManager)), f) == Matches(e, f)
  {
    LowerIgnoresCase(f.customerName);
    LowerIgnoresCase(f.escalationManager);
    LowerIgnoresCase(e.customerName);
    LowerIgnoresCase(e.escalationManager);
  }

  /**
   * The filter callback as written. Once a date bound is set it evaluates
   * `new Date(esc.createdDate)` on the `bigint` instant, and the `Date`
   * constructor throws a `TypeError` for a `bigint`; `None` is that throw.
   * `Matches` is the intended behaviour, used everywhere else.
   */
  function MatchesAsWritten(e: Escalation, f: Filters): (r: Option<bool>)
    ensures f.createdDateFrom.None? && f.createdDateTo.None? ==> r == Some(Matches(e, f))
  {
    if f.escalationStatus != "" && StatusName(e.escalationStatus) != f.escalationStatus then Some(false)
    else if f.customerName != "" && !Contains(Lower(e.customerName), Lower(f.customerName)) then Some(false)
    else if f.escalationManager != "" && !Contains(Lower(e.escalationManager), Lower(f.escalationManager)) then Some(false)
    else if f.functionalArea != "" && e.functionalArea != f.functionalArea then Some(false)
    else if f.businessGroup != "" && e.businessGroup != f.businessGroup then Some(false)
    else if f.createdDateFrom.Some? || f.createdDateTo.Some? then None
    else Some(true)
  }

  /** As written, every record that passes the text criteria makes a set date bound throw. */
  lemma DateFilterThrowsAsWritten(e: Escalation, f: Filters)
    requires f.createdDateFrom.Some? || f.createdDateTo.Some?
    requires Matches(e, f.(createdDateFrom := None, createdDateTo := None))
    ensures MatchesAsWritten(e, f).None?
  {
  }

  /** The smallest case: the empty criteria with only a start date, on any record. */
  lemma DateFilterThrowsOnAnyRecord(e: Escalation, from: int)
    ensures MatchesAsWritten(e, EmptyFilters.(createdDateFrom := Some(from))).None?
    ensures Matches(e, EmptyFilters.(createdDateFrom := Some(from))) <==> from <= e.createdDate
  {
    DateFilterThrowsAsWritten(e, EmptyFilters.(createdDateFrom := Some(from)));
  }

  /** `g` is `f` with some unset criteria set; the criteria already set are unchanged. */
  predicate Tightens(g: Filters, f: Filters)
  {
    && (f.escalationStatus == "" || g.escalationStatus == f.escalationStatus)
    && (f.customerName == "" || g.customerName == f.customerName)
    && (f.escalationManager == "" || g.escalationManager == f.escalationManager)
    && (f.functionalArea == "" || g.functionalArea == f.functionalArea)
    && (f.businessGroup == "" || g.businessGroup == f.businessGroup)
    && (f.createdDateFrom.None? || g.createdDateFrom == f.createdDateFrom)
    && (f.createdDateTo.None? || g.createdDateTo == f.createdDateTo)
  }

  /** Setting more criteria can only drop records from the filtered list, never add or reorder. */
  lemma FilterMonotone(xs: seq<Escalation>, f: Filters, g: Filters)
    requires Tightens(g, f)
    ensures SubsequenceOf(FilterEscalations(xs, g), FilterEscalations(xs, f))
  {
    forall e | MatcherOf(g)(e)
      ensures MatcherOf(f)(e)
    {
    }
    KeepMonotone(xs, MatcherOf(f), MatcherOf(g));
  }

  // ---------------------------------------------------------------------
  // Summaries

  /** The three attributes the dashboard counts and offers as drop-downs. */
  datatype Dimension = StatusDim | AreaDim | GroupDim

  function DimensionKey(e: Escalation, d: Dimension): string
  {
    match d
    case StatusDim => StatusName(e.escalationStatus)
    case AreaDim => e.functionalArea
    case GroupDim => e.businessGroup
  }

  function KeysOf(xs: seq<Escalation>, d: Dimension): (ks: seq<string>)
    ensures |ks| == |xs|
    ensures forall i :: 0 <= i < |xs| ==> ks[i] == DimensionKey(xs[i], d)
  {
    seq(|xs|, i requires 0 <= i < |xs| => DimensionKey(xs[i], d))
  }

  /**
   * The dictionary `m[k] = (m[k] || 0) + 1` builds over `keys` in order, for a
   * dictionary that owns no key in advance (a `Map`, or `Object.create(null)`).
   * `TallyCounts` and `TallyTotal` state what it holds; `TallyAsWritten`
   * below is the plain `{}` the source uses.
   */
  function Tally(keys: seq<string>): map<string, nat>
  {
    if |keys| == 0 then map[]
    else
      Increment(Tally(keys[..|keys| - 1]), keys[|keys| - 1])
  }

  /** `m[k] = (m[k] || 0) + 1`. */
  function Increment(m: map<string, nat>, k: string): map<string, nat>
  {
    m[k := (if k in m then m[k] else 0) + 1]
  }

  /** `k` becomes a key, counted once more than before (1 when it is new), and no other key changes. */
  lemma IncrementMeaning(m: map<string, nat>, k: string)
    ensures Increment(m, k).Keys == m.Keys + {k}
    ensures Increment(m, k)[k] == if k in m then m[k] + 1 else 1
    ensures forall j :: j in m && j != k ==> Increment(m, k)[j] == m[j]
  {
  }

  /** Each key present in the dictionary maps to its number of occurrences, and only occurring keys are present. */
  lemma {:induction false} TallyCounts(keys: seq<string>, k: string)
    ensures k in Tally(keys) <==> k in keys
    ensures k in Tally(keys) ==> Tally(keys)[k] == multiset(keys)[k] >= 1
  {
    if |keys| > 0 {
      var init := keys[..|keys| - 1];
      TallyCounts(init, k);
      assert keys == init + [keys[|keys| - 1]];
    }
  }

  /** The sum of a dictionary's counts. */
  ghost function Total(m: map<string, nat>): nat
    decreases m.Keys
  {
    if m == map[] then 0
    else
      var k := AnyKey(m);
      m[k] + Total(m - {k})
  }

  ghost function AnyKey(m: map<string, nat>): (k: string)
    requires m != map[]
    ensures k in m
  {
    assert exists k :: k in m.Keys;
    var k :| k in m; k
  }

  /** The sum does not depend on which key is taken out first. */
  lemma {:induction false} TotalRemove(m: map<string, nat>, k: string)
    requires k in m
    ensures Total(m) == m[k] + Total(m - {k})
    decreases m.Keys
  {
    var j := AnyKey(m);
    if j != k {
      var mj, mk := m - {j}, m - {k};
      assert k in mj && j in mk;
      assert mj.Keys < m.Keys && mk.Keys < m.Keys;
      TotalRemove(mj, k);
      TotalRemove(mk, j);
      assert mj - {k} == mk - {j};
    }
  }

  lemma TotalIncrement(m: map<string, nat>, k: string)
    ensures Total(Increment(m, k)) == Total(m) + 1
  {
    var m' := Increment(m, k);
    TotalRemove(m', k);
    assert m' - {k} == m - {k};
    if k in m {
      TotalRemove(m, k);
    } else {
      assert m - {k} == m;
    }
  }

  /** Count closure: the counts add up to the number of keys counted. */
  lemma {:induction false} TallyTotal(keys: seq<string>)
    ensures Total(Tally(keys)) == |keys|
  {
    if |keys| > 0 {
      TallyTotal(keys[..|keys| - 1]);
      TotalIncrement(Tally(keys[..|keys| - 1]), keys[|keys| - 1]);
    }
  }

  /** `summaries`: record count per status, per functional area and per business group. */
  datatype Summaries = Summaries(
    byStatus: map<string, nat>,
    byFunctionalArea: map<string, nat>,
    byBusinessGroup: map<string, nat>)

  function SummaryOf(s: Summaries, d: Dimension): map<string, nat>
  {
    match d
    case StatusDim => s.byStatus
    case AreaDim => s.byFunctionalArea
    case GroupDim => s.byBusinessGroup
  }

  /** The three dictionaries counted over `xs`. */
  function SummariesOf(xs: seq<Escalation>): (s: Summaries)
    ensures forall d :: SummaryOf(s, d) == Tally(KeysOf(xs, d))
  {
    var s := Summaries(Tally(KeysOf(xs, StatusDim)), Tally(KeysOf(xs, AreaDim)), Tally(KeysOf(xs, GroupDim)));
    assert forall d {:trigger SummaryOf(s, d)} :: d == StatusDim || d == AreaDim || d == GroupDim;
    s
  }

  /** Counting one more record bumps its key in each of the three dictionaries. */
  function CountRecord(s: Summaries, e: Escalation): Summaries
  {
    Summaries(
      Increment(s.byStatus, StatusName(e.escalationStatus)),
      Increment(s.byFunctionalArea, e.functionalArea),
      Increment(s.byBusinessGroup, e.businessGroup))
  }

  lemma TallyStep(xs: seq<Escalation>, i: nat, d: Dimension)
    requires i < |xs|
    ensures Tally(KeysOf(xs[..i + 1], d)) == Increment(Tally(KeysOf(xs[..i], d)), DimensionKey(xs[i], d))
  {
    var ks := KeysOf(xs[..i + 1], d);
    assert ks[i] == DimensionKey(xs[i], d);
    assert ks[..i] == KeysOf(xs[..i], d);
  }

  lemma SummariesStep(xs: seq<Escalation>, i: nat)
    requires i < |xs|
    ensures SummariesOf(xs[..i + 1]) == CountRecord(SummariesOf(xs[..i]), xs[i])
  {
    TallyStep(xs, i, StatusDim);
    TallyStep(xs, i, AreaDim);
    TallyStep(xs, i, GroupDim);
  }

  /** The `forEach` loop over the filtered list that fills the three dictionaries. */
  method ComputeSummaries(filtered: seq<Escalation>) returns (s: Summaries)
    ensures forall d :: SummaryOf(s, d) == Tally(KeysOf(filtered, d))
  {
    s := Summaries(map[], map[], map[]);
    for i := 0 to |filtered|
      invariant s == SummariesOf(filtered[..i])
    {
      SummariesStep(filtered, i);
      var esc := filtered[i];
      var status := StatusName(esc.escalationStatus);
      s := s.(byStatus := Increment(s.byStatus, status));
      s := s.(byFunctionalArea := Increment(s.byFunctionalArea, esc.functionalArea));
      s := s.(byBusinessGroup := Increment(s.byBusinessGroup, esc.businessGroup));
    }
    assert filtered[..|filtered|] == filtered;
  }

  /**
   * Count closure for each dictionary over any list: the counts sum to the
   * list's length, every count is at least 1, every key is some record's
   * value, and every record's value is a key.
   */
  lemma SummaryClosure(filtered: seq<Escalation>, d: Dimension)
    ensures Total(Tally(KeysOf(filtered, d))) == |filtered|
    ensures forall k :: k in Tally(KeysOf(filtered, d)) ==>
              Tally(KeysOf(filtered, d))[k] >= 1 && exists e :: e in filtered && DimensionKey(e, d) == k
    ensures forall e :: e in filtered ==> DimensionKey(e, d) in Tally(KeysOf(filtered, d))
  {
    var keys := KeysOf(filtered, d);
    TallyTotal(keys);
    forall k | k in Tally(keys)
      ensures Tally(keys)[k] >= 1 && exists e :: e in filtered && DimensionKey(e, d) == k
    {
      TallyCounts(keys, k);
      var i :| 0 <= i < |keys| && keys[i] == k;
      assert filtered[i] in filtered;
    }
    forall e | e in filtered
      ensures DimensionKey(e, d) in Tally(keys)
    {
      var i :| 0 <= i < |filtered| && filtered[i] == e;
      assert keys[i] == DimensionKey(e, d);
      TallyCounts(keys, DimensionKey(e, d));
    }
  }

  // ---------------------------------------------------------------------
  // The dictionaries as written: plain `{}` objects

  /** A value a plain object holds under a key it owns: a number, or a string once `+` has concatenated. */
  datatype JsValue = JsNumber(n: nat) | JsString(s: string)

  /** The methods every plain object inherits from `Object.prototype`; `m[k]` reads them for a key `m` does not own. */
  const InheritedMethods: set<string> := {
    "constructor", "hasOwnProperty", "isPrototypeOf", "propertyIsEnumerable",
    "toLocaleString", "toString", "valueOf",
    "__defineGetter__", "__defineSetter__", "__lookupGetter__", "__lookupSetter__"}

  /** The keys a fresh `{}` does not read as `undefined`. */
  predicate Inherited(k: string)
  {
    k == "__proto__" || k in InheritedMethods
  }

  /** The text an inherited method converts to under `+`. */
  function NativeSource(k: string): string
  {
    "function " + (if k == "constructor" then "Object" else k) + "() { [native code] }"
  }

  /** `v + 1` on a stored value: numbers add, strings concatenate. */
  function PlusOne(v: JsValue): JsValue
  {
    match v
    case JsNumber(n) => JsNumber(n + 1)
    case JsString(t) => JsString(t + "1")
  }

  /**
   * `m[k] = (m[k] || 0) + 1` on a plain object. For `"__proto__"` the read
   * is `Object.prototype` and the write goes to the prototype setter, which
   * ignores a string, so nothing is stored. For an inherited method name the
   * read is a function, and `+ 1` concatenates its source text.
   */
  function IncrementAsWritten(m: map<string, JsValue>, k: string): map<string, JsValue>
  {
    if k == "__proto__" then m
    else if k in m then m[k := PlusOne(m[k])]
    else if k in InheritedMethods then m[k := JsString(NativeSource(k) + "1")]
    else m[k := JsNumber(1)]
  }

  /** The own properties of the plain object the source fills over `keys`. */
  function TallyAsWritten(keys: seq<string>): map<string, JsValue>
  {
    if |keys| == 0 then map[]
    else IncrementAsWritten(TallyAsWritten(keys[..|keys| - 1]), keys[|keys| - 1])
  }

  /** The counts of a dictionary as numbers stored in a plain object. */
  function AsNumbers(m: map<string, nat>): map<string, JsValue>
  {
    map k | k in m :: JsNumber(m[k])
  }

  lemma IncrementAgrees(t: map<string, nat>, k: string)
    requires !Inherited(k)
    ensures IncrementAsWritten(AsNumbers(t), k) == AsNumbers(Increment(t, k))
  {
    var lhs, rhs := IncrementAsWritten(AsNumbers(t), k), AsNumbers(Increment(t, k));
    assert lhs.Keys == rhs.Keys;
    forall j | j in lhs
      ensures lhs[j] == rhs[j]
    {
    }
  }

  /** Away from the inherited keys the plain object holds exactly the intended counts. */
  lemma {:induction false} AsWrittenAgreesOffPrototype(keys: seq<string>)
    requires forall i :: 0 <= i < |keys| ==> !Inherited(keys[i])
    ensures TallyAsWritten(keys) == AsNumbers(Tally(keys))
  {
    if |keys| > 0 {
      var init, k := keys[..|keys| - 1], keys[|keys| - 1];
      assert forall i :: 0 <= i < |init| ==> init[i] == keys[i];
      AsWrittenAgreesOffPrototype(init);
      IncrementAgrees(Tally(init), k);
    }
  }

  /** One record whose key is `"__proto__"`: the intended count is 1, the plain object stays empty. */
  lemma ProtoKeyIsDropped()
    ensures Tally(["__proto__"]) == map["__proto__" := 1]
    ensures Total(Tally(["__proto__"])) == 1
    ensures TallyAsWritten(["__proto__"]) == map[]
  {
    TallyTotal(["__proto__"]);
    assert ["__proto__"][..0] == [];
  }

  /** One record whose key is `"constructor"`: the plain object stores a string, not the count 1. */
  lemma ConstructorKeyIsNotACount()
    ensures Tally(["constructor"]) == map["constructor" := 1]
    ensures TallyAsWritten(["constructor"]) ==
              map["constructor" := JsString("function Object() { [native code] }1")]
  {
    assert ["constructor"][..0] == [];
    assert "constructor" != "__proto__" && "constructor" in InheritedMethods;
    assert NativeSource("constructor") + "1" == "function Object() { [native code] }1";
  }

  // ---------------------------------------------------------------------
  // Distinct values

  /** The non-empty values of dimension `d` across `xs`: what the source adds to its `Set`. */
  function DistinctValues(xs: seq<Escalation>, d: Dimension): set<string>
  {
    if |xs| == 0 then {}
    else
      AddNonEmpty(DistinctValues(xs[..|xs| - 1], d), DimensionKey(xs[|xs| - 1], d))
  }

  /** `if (v) set.add(v)`. */
  function AddNonEmpty(s: set<string>, v: string): set<string>
  {
    if v != "" then s + {v} else s
  }

  lemma {:induction false} DistinctValuesMeaning(xs: seq<Escalation>, d: Dimension, v: string)
    ensures v in DistinctValues(xs, d) <==> v != "" && exists e :: e in xs && DimensionKey(e, d) == v
  {
    if |xs| > 0 {
      var init := xs[..|xs| - 1];
      DistinctValuesMeaning(init, d, v);
      assert xs == init + [xs[|xs| - 1]];
    }
  }

  lemma DistinctValuesStep(xs: seq<Escalation>, i: nat, d: Dimension)
    requires i < |xs|
    ensures DistinctValues(xs[..i + 1], d) == AddNonEmpty(DistinctValues(xs[..i], d), DimensionKey(xs[i], d))
  {
    assert xs[..i + 1][..i] == xs[..i];
  }

  ghost predicate StrictlyAscending(s: seq<string>)
  {
    forall i, j :: 0 <= i < j < |s| ==> Below(s[i], s[j])
  }

  lemma StrictlyAscendingHasNoDuplicates(s: seq<string>, i: nat, j: nat)
    requires StrictlyAscending(s)
    requires i < j < |s|
    ensures s[i] != s[j]
  {
    BelowIrreflexive(s[i]);
  }

  /** `m` is the least element of `s` under `<`. */
  predicate IsLeast(m: string, s: set<string>)
  {
    m in s && forall v :: v in s ==> m == v || Below(m, v)
  }

  lemma LeastOfInsert(x: string, m: string, rest: set<string>)
    requires IsLeast(m, rest)
    ensures IsLeast(if Below(x, m) then x else m, rest + {x})
  {
    BelowTotal(x, m);
    if Below(x, m) {
      forall v | v in rest + {x}
        ensures x == v || Below(x, v)
      {
        if v != x && v != m {
          BelowTransitive(x, m, v);
        }
      }
    }
  }

  lemma {:induction false} MinimumExists(s: set<string>)
    requires s != {}
    ensures exists m :: IsLeast(m, s)
  {
    var x :| x in s;
    if s == {x} {
      assert IsLeast(x, s);
    } else {
      var rest := s - {x};
      MinimumExists(rest);
      var m :| IsLeast(m, rest);
      LeastOfInsert(x, m, rest);
      assert rest + {x} == s;
    }
  }

  /** `Array.from(set).sort()`: the elements of `s` in ascending order, each once. */
  method SortedFromSet(s: set<string>) returns (r: seq<string>)
    ensures StrictlyAscending(r)
    ensures forall v :: v in r <==> v in s
  {
    r := [];
    var rest := s;
    while rest != {}
      invariant rest <= s
      invariant forall v :: v in s <==> v in rest || v in r
      invariant StrictlyAscending(r)
      invariant forall i, v :: 0 <= i < |r| && v in rest ==> Below(r[i], v)
      decreases |rest|
    {
      MinimumExists(rest);
      var m :| IsLeast(m, rest);
      r := r + [m];
      rest := rest - {m};
    }
  }

  /** `uniqueValues`: the drop-down options, computed over the unfiltered list. */
  datatype UniqueValues = UniqueValues(
    statuses: seq<string>,
    functionalAreas: seq<string>,
    businessGroups: seq<string>)

  function ValuesOf(u: UniqueValues, d: Dimension): seq<string>
  {
    match d
    case StatusDim => u.statuses
    case AreaDim => u.functionalAreas
    case GroupDim => u.businessGroups
  }

  /** The `forEach` over the unfiltered list that fills the three `Set`s. */
  method CollectValues(escalations: seq<Escalation>)
    returns (statuses: set<string>, functionalAreas: set<string>, businessGroups: set<string>)
    ensures statuses == DistinctValues(escalations, StatusDim)
    ensures functionalAreas == DistinctValues(escalations, AreaDim)
    ensures businessGroups == DistinctValues(escalations, GroupDim)
  {
    statuses, functionalAreas, businessGroups := {}, {}, {};
    for i := 0 to |escalations|
      invariant statuses == DistinctValues(escalations[..i], StatusDim)
      invariant functionalAreas == DistinctValues(escalations[..i], AreaDim)
      invariant businessGroups == DistinctValues(escalations[..i], GroupDim)
    {
      var esc := escalations[i];
      var status := StatusName(esc.escalationStatus);
      assert AddNonEmpty(statuses, status) == DistinctValues(escalations[..i + 1], StatusDim) by {
        DistinctValuesStep(escalations, i, StatusDim);
      }
      assert AddNonEmpty(functionalAreas, esc.functionalArea) == DistinctValues(escalations[..i + 1], AreaDim) by {
        DistinctValuesStep(escalations, i, AreaDim);
      }
      assert AddNonEmpty(businessGroups, esc.businessGroup) == DistinctValues(escalations[..i + 1], GroupDim) by {
        DistinctValuesStep(escalations, i, GroupDim);
      }
      statuses := AddNonEmpty(statuses, status);
      functionalAreas := AddNonEmpty(functionalAreas, esc.functionalArea);
      businessGroups := AddNonEmpty(businessGroups, esc.businessGroup);
    }
    assert escalations[..|escalations|] == escalations;
  }

  /** `uniqueValues`: the three sets collected, each listed in ascending order. */
  method ComputeUniqueValues(escalations: seq<Escalation>) returns (u: UniqueValues)
    ensures forall d :: StrictlyAscending(ValuesOf(u, d))
    ensures forall d, v :: v in ValuesOf(u, d) <==> v in DistinctValues(escalations, d)
  {
    var statuses, functionalAreas, businessGroups := CollectValues(escalations);
    var sortedStatuses := SortedFromSet(statuses);
    var sortedAreas := SortedFromSet(functionalAreas);
    var sortedGroups := SortedFromSet(businessGroups);
    u := UniqueValues(sortedStatuses, sortedAreas, sortedGroups);
    assert forall d {:trigger ValuesOf(u, d)} :: d == StatusDim || d == AreaDim || d == GroupDim;
  }

  /** The filter criteria as `useState` state: replaced by `setFilters`, cleared by `resetFilters`. */
  class FiltersState {
    var filters: Filters

    constructor ()
      ensures filters == EmptyFilters
    {
      filters := EmptyFilters;
    }

    method SetFilters(f: Filters)
      modifies this
      ensures filters == f
    {
      filters := f;
    }

    method ResetFilters()
      modifies this
      ensures filters == EmptyFilters
      ensures forall e :: Matches(e, filters)
    {
      filters := EmptyFilters;
    }
  }
}
