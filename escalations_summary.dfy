/**
 * The summary cards (components/escalations/EscalationsSummary.tsx): each
 * count dictionary is listed as rows ordered by descending count, with the
 * empty key labelled "Unspecified", or as "No data available" when empty.
 */
module EscalationsSummary {
  import opened Escalations
  import opened EscalationsFilterHook
  import Sorting

  /** One `[key, count]` pair of `Object.entries(data)`. */
  type Entry = (string, nat)

  /** One rendered line: the label and its count badge. */
  datatype Row = Row(caption: string, count: nat)

  datatype GroupView = NoData | Rows(rows: seq<Row>)

  /**
   * `entries` is an enumeration of the dictionary `m`: one pair per key, with
   * that key's count. The order is the engine's `Object.entries` order, which
   * the model takes as given.
   */
  ghost predicate EntriesOf(entries: seq<Entry>, m: map<string, nat>)
  {
    && (forall i :: 0 <= i < |entries| ==> entries[i].0 in m && m[entries[i].0] == entries[i].1)
    && (forall k :: k in m ==> exists i :: 0 <= i < |entries| && entries[i].0 == k)
    && (forall i, j :: 0 <= i < j < |entries| ==> entries[i].0 != entries[j].0)
  }

  /** `key || 'Unspecified'`. */
  function Label(key: string): (l: string)
    ensures key == "" ==> l == "Unspecified"
    ensures key != "" ==> l == key
  {
    if key != "" then key else "Unspecified"
  }

  /** Two keys share a label only when they are `""` and `"Unspecified"`. */
  lemma LabelNearlyInjective(a: string, b: string)
    requires a != b && Label(a) == Label(b)
    ensures {a, b} == {"", "Unspecified"}
  {
  }

  function CountOf(e: Entry): nat
  {
    e.1
  }

  /** The comparator `(a, b) => b[1] - a[1]`. */
  function CountComparator(a: Entry, b: Entry): int
  {
    b.1 - a.1
  }

  /** The order the comparator encodes on counts: greater counts come first. */
  const MoreThan: (nat, nat) -> bool := (x: nat, y: nat) => x > y

  lemma CountComparatorMeaning(a: Entry, b: Entry)
    ensures CountComparator(a, b) < 0 <==> MoreThan(a.1, b.1)
    ensures CountComparator(a, b) == 0 <==> a.1 == b.1
  {
  }

  function SortByCount(entries: seq<Entry>): seq<Entry>
  {
    Sorting.Sort(entries, (e: Entry) => CountOf(e), MoreThan)
  }

  function ToRow(e: Entry): Row
  {
    Row(Label(e.0), e.1)
  }

  /** `entries.map(...)`: one row per entry, in the same order. */
  function ToRows(entries: seq<Entry>): (rows: seq<Row>)
    ensures |rows| == |entries|
    ensures forall i :: 0 <= i < |entries| ==> rows[i] == ToRow(entries[i])
  {
    seq(|entries|, i requires 0 <= i < |entries| => ToRow(entries[i]))
  }

  /** `renderSummaryGroup` without the markup. */
  function RenderGroup(entries: seq<Entry>): GroupView
  {
    var sorted := SortByCount(entries);
    if |sorted| == 0 then NoData
    else Rows(ToRows(sorted))
  }

  lemma MoreThanAsymmetric()
    ensures Sorting.Asymmetric(MoreThan)
  {
  }

  lemma ToRowsAppend(s: seq<Entry>, y: Entry)
    ensures ToRows(s + [y]) == ToRows(s) + [ToRow(y)]
  {
  }

  lemma {:induction false} RowsInsert(s: seq<Entry>, x: Entry)
    ensures multiset(ToRows(Sorting.Insert(s, x, (e: Entry) => CountOf(e), MoreThan))) ==
            multiset(ToRows(s)) + multiset{ToRow(x)}
  {
    if |s| > 0 && MoreThan(CountOf(x), CountOf(s[|s| - 1])) {
      var init := s[..|s| - 1];
      RowsInsert(init, x);
      ToRowsAppend(Sorting.Insert(init, x, (e: Entry) => CountOf(e), MoreThan), s[|s| - 1]);
      ToRowsAppend(init, s[|s| - 1]);
      assert s == init + [s[|s| - 1]];
    } else {
      ToRowsAppend(s, x);
    }
  }

  /** Sorting the entries reorders their rows: each row occurs as often as before. */
  lemma {:induction false} RowsSort(entries: seq<Entry>)
    ensures multiset(ToRows(SortByCount(entries))) == multiset(ToRows(entries))
  {
    if |entries| > 0 {
      var init, last := entries[..|entries| - 1], entries[|entries| - 1];
      RowsSort(init);
      RowsInsert(SortByCount(init), last);
      ToRowsAppend(init, last);
      assert entries == init + [last];
    }
  }

  /**
   * The rendered rows are the entries' rows reordered: each entry's row
   * occurs exactly as often as the entry, and no other row occurs.
   */
  lemma RenderShowsEntries(entries: seq<Entry>)
    ensures RenderGroup(entries).NoData? <==> |entries| == 0
    ensures RenderGroup(entries).Rows? ==>
              var rows := RenderGroup(entries).rows;
              && multiset(rows) == multiset(ToRows(entries))
              && |rows| == |entries|
              && (forall r :: r in rows ==> exists e :: e in entries && r == ToRow(e))
              && (forall e :: e in entries ==> ToRow(e) in rows)
  {
    var sorted := SortByCount(entries);
    Sorting.SortPermutation(entries, (e: Entry) => CountOf(e), MoreThan);
    RowsSort(entries);
    if |sorted| > 0 {
      var rows := RenderGroup(entries).rows;
      forall r | r in rows
        ensures exists e :: e in entries && r == ToRow(e)
      {
        var i :| 0 <= i < |rows| && rows[i] == r;
        assert sorted[i] in multiset(entries);
      }
      forall e | e in entries
        ensures ToRow(e) in rows
      {
        assert e in multiset(sorted);
        var i :| 0 <= i < |sorted| && sorted[i] == e;
        assert rows[i] == ToRow(e);
      }
    }
  }

  /** Rows appear in non-increasing order of count. */
  lemma RowsByDescendingCount(entries: seq<Entry>)
    ensures RenderGroup(entries).Rows? ==>
              var rows := RenderGroup(entries).rows;
              forall i :: 0 < i < |rows| ==> rows[i - 1].count >= rows[i].count
  {
    MoreThanAsymmetric();
    Sorting.SortOrdered(entries, (e: Entry) => CountOf(e), MoreThan);
  }

  /** Entries with equal counts keep their enumeration order. */
  lemma EqualCountsKeepOrder(entries: seq<Entry>, c: nat)
    ensures Sorting.WithKey(SortByCount(entries), (e: Entry) => CountOf(e), c) ==
            Sorting.WithKey(entries, (e: Entry) => CountOf(e), c)
  {
    MoreThanAsymmetric();
    Sorting.SortStable(entries, (e: Entry) => CountOf(e), MoreThan, c);
  }

  /** For a dictionary: "No data available" exactly when it is empty; otherwise one row per key with its count. */
  lemma RenderShowsDictionary(entries: seq<Entry>, m: map<string, nat>)
    requires EntriesOf(entries, m)
    ensures RenderGroup(entries).NoData? <==> m == map[]
    ensures RenderGroup(entries).Rows? ==>
              var rows := RenderGroup(entries).rows;
              && (forall r :: r in rows ==> exists k :: k in m && r == Row(Label(k), m[k]))
              && (forall k :: k in m ==> Row(Label(k), m[k]) in rows)
  {
    RenderShowsEntries(entries);
    if m != map[] {
      var k :| k in m;
      assert |entries| > 0;
    }
    if |entries| > 0 {
      assert entries[0].0 in m;
      var rows := RenderGroup(entries).rows;
      forall k | k in m
        ensures Row(Label(k), m[k]) in rows
      {
        var i :| 0 <= i < |entries| && entries[i].0 == k;
        assert entries[i] in entries;
      }
    }
  }

  /** The sum of the counts of some entries. */
  function SumCounts(entries: seq<Entry>): nat
  {
    if |entries| == 0 then 0 else SumCounts(entries[..|entries| - 1]) + entries[|entries| - 1].1
  }

  lemma {:induction false} SumCountsAppend(s: seq<Entry>, y: Entry)
    ensures SumCounts(s + [y]) == SumCounts(s) + y.1
  {
    assert (s + [y])[..|s|] == s;
  }

  lemma {:induction false} SumCountsInsert(s: seq<Entry>, x: Entry)
    ensures SumCounts(Sorting.Insert(s, x, (e: Entry) => CountOf(e), MoreThan)) == SumCounts(s) + x.1
  {
    if |s| > 0 && MoreThan(CountOf(x), CountOf(s[|s| - 1])) {
      var init := s[..|s| - 1];
      SumCountsInsert(init, x);
      SumCountsAppend(Sorting.Insert(init, x, (e: Entry) => CountOf(e), MoreThan), s[|s| - 1]);
    } else {
      SumCountsAppend(s, x);
    }
  }

  lemma {:induction false} SumCountsSort(entries: seq<Entry>)
    ensures SumCounts(SortByCount(entries)) == SumCounts(entries)
  {
    if |entries| > 0 {
      var init := entries[..|entries| - 1];
      SumCountsSort(init);
      SumCountsInsert(SortByCount(init), entries[|entries| - 1]);
    }
  }

  /** Summing an enumeration of a dictionary gives the dictionary's total. */
  lemma {:induction false} SumCountsOfEntries(entries: seq<Entry>, m: map<string, nat>)
    requires EntriesOf(entries, m)
    ensures SumCounts(entries) == Total(m)
  {
    if |entries| == 0 {
      assert m.Keys == {};
    } else {
      var init, last := entries[..|entries| - 1], entries[|entries| - 1];
      var m' := m - {last.0};
      assert EntriesOf(init, m') by {
        forall k | k in m'
          ensures exists i :: 0 <= i < |init| && init[i].0 == k
        {
          var i :| 0 <= i < |entries| && entries[i].0 == k;
          assert i != |entries| - 1;
          assert init[i].0 == k;
        }
      }
      SumCountsOfEntries(init, m');
      TotalRemove(m, last.0);
    }
  }

  /** The count badges of one group add up to the dictionary's total. */
  lemma RowsSumToTotal(entries: seq<Entry>, m: map<string, nat>)
    requires EntriesOf(entries, m)
    ensures SumCounts(SortByCount(entries)) == Total(m)
  {
    SumCountsSort(entries);
    SumCountsOfEntries(entries, m);
  }

  /**
   * In each of the three cards the count badges add up to `totalCount`, the
   * filtered list's length the list page passes in
   * (pages/EscalationsListPage.tsx, line 50); the component receives it but
   * does not display it.
   */
  lemma CardsAddUpToTotalCount(filtered: seq<Escalation>, d: Dimension, entries: seq<Entry>)
    requires EntriesOf(entries, Tally(KeysOf(filtered, d)))
    ensures SumCounts(SortByCount(entries)) == |filtered|
  {
    RowsSumToTotal(entries, Tally(KeysOf(filtered, d)));
    SummaryClosure(filtered, d);
  }

  /**
   * As written, the dictionaries are plain `{}` objects: one record whose
   * business group is `"__proto__"` leaves that card with no entry at all,
   * so it shows "No data available" while `totalCount` is 1. The intended
   * dictionary shows one row with count 1.
   */
  lemma ProtoGroupCardIsEmptyAsWritten(e: Escalation)
    requires e.businessGroup == "__proto__"
    ensures TallyAsWritten(KeysOf([e], GroupDim)) == map[]
    ensures RenderGroup([]) == NoData
    ensures Tally(KeysOf([e], GroupDim)) == map["__proto__" := 1]
    ensures RenderGroup([("__proto__", 1)]) == Rows([Row("__proto__", 1)])
  {
    assert KeysOf([e], GroupDim) == ["__proto__"];
    ProtoKeyIsDropped();
  }
}
