/** One node's history as a value: a sequence of rows kept in ascending time
    order and bounded by a capacity. `Appended` is what one call of `push_history`
    makes of a series; the lemmas state what it guarantees. */
module Series {
  import opened Wrappers
  import opened Snapshots

  ghost predicate Sorted(s: seq<Row>) {
    forall i, j :: 0 <= i < j < |s| ==> s[i].time <= s[j].time
  }

  /** Places `x` after every row of the sorted `s` whose time is not later than
      its own. */
  function Insert(s: seq<Row>, x: Row): (r: seq<Row>)
    requires Sorted(s)
    ensures Sorted(r)
    ensures multiset(r) == multiset(s) + multiset{x}
    ensures |r| == |s| + 1
    ensures forall y :: y in r ==> y in s || y == x
  {
    if s == [] || s[|s| - 1].time <= x.time then s + [x]
    else
      var init, last := s[..|s| - 1], s[|s| - 1];
      assert s == init + [last];
      var front := Insert(init, x);
      assert forall y :: y in front ==> y.time <= last.time by {
        forall y | y in front ensures y.time <= last.time {
          if y in init {
            var i :| 0 <= i < |init| && init[i] == y;
            assert s[i] == y;
          }
        }
      }
      assert forall i :: 0 <= i < |front| ==> front[i] in front;
      front + [last]
  }

  /** Re-sorting by time (`sort_values("time")`): a sorted permutation of `s`. */
  function SortByTime(s: seq<Row>): (r: seq<Row>)
    ensures Sorted(r)
    ensures multiset(r) == multiset(s)
    ensures |r| == |s|
  {
    if s == [] then []
    else
      var init, last := s[..|s| - 1], s[|s| - 1];
      assert s == init + [last];
      Insert(SortByTime(init), last)
  }

  /** Keeps the last `cap` rows of `s` when it holds more than `cap`. */
  function Trim(s: seq<Row>, cap: nat): (r: seq<Row>)
    ensures |r| == Min(|s|, cap)
  {
    if |s| > cap then s[|s| - cap..] else s
  }

  /** `if len(df) > HISTORY_POINTS: df = df.iloc[-HISTORY_POINTS:]` as written,
      for any integer setting: `iloc[-0:]` is the whole frame, and a negative
      setting drops that many rows from the front. */
  function TrimAsWritten(s: seq<Row>, h: int): (r: seq<Row>) {
    if |s| > h then
      (if h > 0 then s[|s| - h..] else if h == 0 then s else s[Min(-h, |s|)..])
    else s
  }

  /** One push: append the row, re-sort by time, trim to the capacity. */
  function Appended(s: seq<Row>, row: Row, cap: nat): (r: seq<Row>) {
    Trim(SortByTime(s + [row]), cap)
  }

  /** One push with the trimming exactly as written. */
  function AppendedAsWritten(s: seq<Row>, row: Row, h: int): (r: seq<Row>) {
    TrimAsWritten(SortByTime(s + [row]), h)
  }

  /** Successive pushes of `rows`, first to last, onto `s`. */
  function PushAll(s: seq<Row>, rows: seq<Row>, cap: nat): (r: seq<Row>)
    decreases |rows|
  {
    if rows == [] then s else PushAll(Appended(s, rows[0], cap), rows[1..], cap)
  }

  /** After a push the series is in ascending time order. */
  lemma AppendedSorted(s: seq<Row>, row: Row, cap: nat)
    ensures Sorted(Appended(s, row, cap))
  {
  }

  /** After a push the series holds `min(|s| + 1, cap)` rows: never more than the
      capacity. */
  lemma AppendedLength(s: seq<Row>, row: Row, cap: nat)
    ensures |Appended(s, row, cap)| == Min(|s| + 1, cap)
  {
  }

  /** While the capacity is not exceeded nothing is dropped: the new series is a
      permutation of the old one plus the new row. */
  lemma AppendedKeepsAll(s: seq<Row>, row: Row, cap: nat)
    requires |s| + 1 <= cap
    ensures multiset(Appended(s, row, cap)) == multiset(s) + multiset{row}
  {
  }

  /** When the capacity is exceeded exactly `cap` rows remain, taken from the old
      rows and the new one, and every row that was dropped is no later than every
      row that was kept: the oldest by time are evicted, whatever the order of
      insertion. */
  lemma AppendedEvictsOldest(s: seq<Row>, row: Row, cap: nat)
    requires |s| + 1 > cap
    ensures var r := Appended(s, row, cap);
      && |r| == cap
      && multiset(r) <= multiset(s) + multiset{row}
      && forall d, k :: d in multiset(s) + multiset{row} - multiset(r) && k in r ==> d.time <= k.time
  {
    var t := SortByTime(s + [row]);
    assert multiset(t) == multiset(s) + multiset{row};
    assert |t| == |s| + 1;
    assert Appended(s, row, cap) == t[|t| - cap..];
    SuffixKeepsLatest(t, |t| - cap);
  }

  /** Cutting a sorted series after position `k` keeps rows of it and drops
      only rows no later than those kept. */
  lemma SuffixKeepsLatest(t: seq<Row>, k: nat)
    requires Sorted(t) && k <= |t|
    ensures multiset(t[k..]) <= multiset(t)
    ensures forall d, x :: d in multiset(t) - multiset(t[k..]) && x in t[k..] ==> d.time <= x.time
  {
    var dropped, kept := t[..k], t[k..];
    assert t == dropped + kept;
    assert multiset(t) == multiset(dropped) + multiset(kept);
    forall d, x | d in multiset(t) - multiset(kept) && x in kept
      ensures d.time <= x.time
    {
      assert d in multiset(dropped);
      var i :| 0 <= i < |dropped| && dropped[i] == d;
      var j :| 0 <= j < |kept| && kept[j] == x;
      assert t[i] == d && t[k + j] == x;
    }
  }

  lemma InsertAtEnd(s: seq<Row>, x: Row)
    requires Sorted(s)
    requires forall y :: y in s ==> y.time <= x.time
    ensures Insert(s, x) == s + [x]
  {
  }

  /** Sorting a sorted series changes nothing. */
  lemma {:induction false} SortSortedUnchanged(s: seq<Row>)
    requires Sorted(s)
    ensures SortByTime(s) == s
  {
    if s != [] {
      var init, last := s[..|s| - 1], s[|s| - 1];
      assert s == init + [last];
      SortSortedUnchanged(init);
      InsertAtEnd(init, last);
    }
  }

  /** The common case: when the new row is no earlier than the rows of a sorted
      series (the series with the row at its end is sorted), the push is a plain
      append followed by the trim. */
  lemma AppendedInOrder(s: seq<Row>, row: Row, cap: nat)
    requires Sorted(s + [row])
    ensures Appended(s, row, cap) == Trim(s + [row], cap)
  {
    SortSortedUnchanged(s + [row]);
  }

  /** Starting from a series of at most `cap` rows, pushes leave `min(|s| + |rows|, cap)` rows. */
  lemma {:induction false} PushAllLength(s: seq<Row>, rows: seq<Row>, cap: nat)
    requires |s| <= cap
    ensures |PushAll(s, rows, cap)| == Min(|s| + |rows|, cap)
    decreases |rows|
  {
    if rows != [] {
      AppendedLength(s, rows[0], cap);
      PushAllLength(Appended(s, rows[0], cap), rows[1..], cap);
    }
  }

  /** Rows that arrive in time order onto a series that they all follow end up as
      the last `cap` rows of the series followed by the arrivals: with an empty
      start and 130 arrivals for a capacity of 120, exactly the first 10 arrivals
      are evicted. */
  lemma {:induction false} PushAllInOrder(s: seq<Row>, rows: seq<Row>, cap: nat)
    requires |s| <= cap
    requires Sorted(s + rows)
    ensures PushAll(s, rows, cap) == Trim(s + rows, cap)
    decreases |rows|
  {
    if rows == [] {
      assert s + rows == s;
    } else {
      var row := rows[0];
      assert (s + rows)[..|s| + 1] == s + [row];
      SortedPrefix(s + rows, |s| + 1);
      AppendedInOrder(s, row, cap);
      assert s + rows == (s + [row]) + rows[1..];
      TrimSuffixSorted(s + [row], rows[1..], cap);
      PushAllInOrder(Trim(s + [row], cap), rows[1..], cap);
      TrimAppendTrim(s + [row], rows[1..], cap);
    }
  }

  lemma SortedPrefix(s: seq<Row>, k: nat)
    requires Sorted(s) && k <= |s|
    ensures Sorted(s[..k])
  {
  }

  lemma TrimSuffixSorted(a: seq<Row>, b: seq<Row>, cap: nat)
    requires Sorted(a + b)
    ensures Sorted(Trim(a, cap) + b)
  {
    var k := |a| - |Trim(a, cap)|;
    assert Trim(a, cap) + b == (a + b)[k..];
  }

  lemma TrimAppendTrim(a: seq<Row>, b: seq<Row>, cap: nat)
    ensures Trim(Trim(a, cap) + b, cap) == Trim(a + b, cap)
  {
    var k := |a| - |Trim(a, cap)|;
    assert Trim(a, cap) + b == (a + b)[k..];
  }

  /** A push onto a full series keeps only rows no earlier than a bound that
      every row of the series already met. */
  lemma AppendedAboveFloor(s: seq<Row>, row: Row, cap: nat, floor: int)
    requires |s| == cap >= 1
    requires forall y :: y in s ==> floor <= y.time
    ensures forall k :: k in Appended(s, row, cap) ==> floor <= k.time
  {
    var t := SortByTime(s + [row]);
    assert multiset(t) == multiset(s) + multiset{row};
    assert Appended(s, row, cap) == t[1..];
    forall k | k in t[1..] ensures floor <= k.time {
      var j :| 1 <= j < |t| && t[j] == k;
      assert t[0] in multiset(t) && t[j] in multiset(t);
      assert t[0].time <= k.time;
      if t[0] == row && k == row {
        // the sorted copy holds the new row twice, so the old series holds it once
        assert t == [t[0]] + t[1..];
        assert multiset(t) == multiset{t[0]} + multiset(t[1..]);
        assert row in multiset(t[1..]);
        assert multiset(t)[row] >= 2;
        assert row in s;
      } else if t[0] != row {
        assert t[0] in multiset(s) + multiset{row};
        assert t[0] in s;
      } else {
        assert k in multiset(s) + multiset{row};
        assert k in s;
      }
    }
  }

  /** Once a series is full, no later push keeps a row earlier than a bound that
      every row of the full series met: the oldest kept time never goes back. */
  lemma {:induction false} PushAllAboveFloor(s: seq<Row>, rows: seq<Row>, cap: nat, floor: int)
    requires |s| == cap >= 1
    requires forall y :: y in s ==> floor <= y.time
    ensures forall k :: k in PushAll(s, rows, cap) ==> floor <= k.time
    decreases |rows|
  {
    if rows != [] {
      AppendedAboveFloor(s, rows[0], cap, floor);
      AppendedLength(s, rows[0], cap);
      PushAllAboveFloor(Appended(s, rows[0], cap), rows[1..], cap, floor);
    }
  }

  /** What two successive steps drop together: the first step keeps `a` out of
      `m1`, the second keeps `r` out of `a + x`. */
  lemma DroppedSplit(m1: multiset<Row>, a: multiset<Row>, x: multiset<Row>, r: multiset<Row>)
    requires a <= m1 && r <= a + x
    ensures r <= m1 + x
    ensures forall d :: d in (m1 + x) - r ==> d in m1 - a || d in (a + x) - r
  {
  }

  /** Over any number of pushes, in any time order, onto a series within
      capacity: the rows that remain are taken from the start series and the
      arrivals; every row evicted on the way is no later than every row that
      remains; and rows are evicted only once the series is full. */
  lemma {:induction false} PushAllEvictsOldest(s: seq<Row>, rows: seq<Row>, cap: nat)
    requires |s| <= cap
    ensures var r := PushAll(s, rows, cap);
      && multiset(r) <= multiset(s + rows)
      && (forall d, k :: d in multiset(s + rows) - multiset(r) && k in r ==> d.time <= k.time)
      && (multiset(s + rows) - multiset(r) != multiset{} ==> |r| == cap)
    decreases |rows|
  {
    if rows == [] {
      assert s + rows == s;
    } else {
      var row, rest := rows[0], rows[1..];
      var a := Appended(s, row, cap);
      var r := PushAll(a, rest, cap);
      assert PushAll(s, rows, cap) == r;
      assert s + rows == (s + [row]) + rest;
      assert multiset(s + rows) == (multiset(s) + multiset{row}) + multiset(rest);
      assert multiset(a + rest) == multiset(a) + multiset(rest);
      AppendedLength(s, row, cap);
      PushAllLength(a, rest, cap);
      PushAllEvictsOldest(a, rest, cap);
      if |s| + 1 <= cap {
        AppendedKeepsAll(s, row, cap);
      } else {
        PushFullEvicts(s, row, rest, cap);
      }
    }
  }

  /** The step of `PushAllEvictsOldest` where the first push overflows. */
  lemma PushFullEvicts(s: seq<Row>, row: Row, rest: seq<Row>, cap: nat)
    requires |s| == cap
    requires var a := Appended(s, row, cap); var r := PushAll(a, rest, cap);
      && multiset(r) <= multiset(a + rest)
      && (forall d, k :: d in multiset(a + rest) - multiset(r) && k in r ==> d.time <= k.time)
    ensures var a := Appended(s, row, cap); var r := PushAll(a, rest, cap);
      var all := multiset(s) + multiset{row} + multiset(rest);
      && multiset(r) <= all
      && (forall d, k :: d in all - multiset(r) && k in r ==> d.time <= k.time)
      && |r| == cap
  {
    var a := Appended(s, row, cap);
    var r := PushAll(a, rest, cap);
    var m1 := multiset(s) + multiset{row};
    AppendedEvictsOldest(s, row, cap);
    AppendedLength(s, row, cap);
    PushAllLength(a, rest, cap);
    assert multiset(a + rest) == multiset(a) + multiset(rest);
    DroppedSplit(m1, multiset(a), multiset(rest), multiset(r));
    if cap >= 1 {
      forall d | d in m1 - multiset(a)
        ensures forall k :: k in r ==> d.time <= k.time
      {
        PushAllAboveFloor(a, rest, cap, d.time);
      }
    }
  }

  /** Nothing removes duplicates: the same reading pushed twice onto a series
      with room for both is stored twice. */
  lemma RepeatedReadingKept(s: seq<Row>, r: Row, cap: nat)
    requires |s| + 1 < cap
    ensures multiset(Appended(Appended(s, r, cap), r, cap)) == multiset(s) + multiset{r, r}
  {
    AppendedKeepsAll(s, r, cap);
    AppendedLength(s, r, cap);
    AppendedKeepsAll(Appended(s, r, cap), r, cap);
  }

  /** With a positive setting the trim as written and `Trim` agree. */
  lemma TrimAsWrittenAgrees(s: seq<Row>, h: int)
    requires h >= 1
    ensures TrimAsWritten(s, h) == Trim(s, h)
  {
  }

  /** As written, a setting of 0 bounds nothing: every push grows the series by a
      row, so it exceeds its capacity after the first push. */
  lemma ZeroCapacityGrows(s: seq<Row>, row: Row)
    ensures |AppendedAsWritten(s, row, 0)| == |s| + 1
    ensures |AppendedAsWritten(s, row, 0)| > 0
  {
  }

  /** The corrected trim keeps the bound for a setting of 0 too: nothing is kept. */
  lemma ZeroCapacityEmpty(s: seq<Row>, row: Row)
    ensures Appended(s, row, 0) == []
  {
  }
}
