/** The per-node history table held in the session (`st.session_state["hist"]`)
    and the two places that change it: `push_history` and the live-fetch gate. */
module History {
  import opened Wrappers
  import opened Snapshots
  import opened Series

  /** `HISTORY_POINTS` when the environment does not set it. */
  const DefaultHistoryPoints: nat := 120

  /** `NODES`: the known node names. */
  const Nodes: seq<string> := ["node1", "node2"]

  class HistoryTable {
    /** `HISTORY_POINTS`, the most rows a series keeps. */
    const capacity: nat
    /** One series per known node. */
    var series: map<string, seq<Row>>

    ghost predicate Valid()
      reads this
    {
      && capacity >= 1
      && forall n :: n in series ==> Sorted(series[n]) && |series[n]| <= capacity
    }

    /** The table as first created for a session: an empty series per node. */
    constructor (nodes: seq<string>, capacity: nat)
      requires capacity >= 1
      ensures Valid()
      ensures this.capacity == capacity
      ensures series.Keys == set n | n in nodes
      ensures forall n :: n in series ==> series[n] == []
    {
      this.capacity := capacity;
      series := map n | n in nodes :: [];
    }

    /** `push_history(node, last)`: builds the row for `last` (with `now` as the
        fallback time), appends it, re-sorts the series by time, trims it to the
        capacity and stores it back for `node` only. */
    method Push(node: string, last: Snapshot, now: int)
      requires Valid()
      requires node in series
      modifies this
      ensures Valid()
      ensures series == old(series)[node := Appended(old(series)[node], MakeRow(last, now), capacity)]
      ensures Sorted(series[node]) && |series[node]| <= capacity
      ensures forall n :: n in old(series) && n != node ==> n in series && series[n] == old(series)[n]
    {
      var df := series[node];
      var t := ResolveTime(last.ts, now);
      var row := Row(t, last.temperature, last.humidity, last.luminosity, last.sound, last.fanState);
      df := df + [row];
      df := SortByTime(df);
      if |df| > capacity {
        df := df[|df| - capacity..];
      }
      AppendedSorted(old(series)[node], row, capacity);
      AppendedLength(old(series)[node], row, capacity);
      series := series[node := df];
    }

    /** One live-fetch step: `last = fb_get_last(node) or {}` then
        `if last: push_history(node, last)`, with `fetched` standing for what the
        database returned. A missing or empty reading leaves every series as it was. */
    method Refresh(node: string, fetched: Option<Snapshot>, now: int)
      requires Valid()
      requires node in series
      modifies this
      ensures Valid()
      ensures !ShouldPush(fetched) ==> series == old(series)
      ensures ShouldPush(fetched) ==>
        series == old(series)[node := Appended(old(series)[node], MakeRow(fetched.value, now), capacity)]
    {
      if ShouldPush(fetched) {
        Push(node, fetched.value, now);
      }
    }
  }

  /** The session start: one empty series for each of `NODES`, holding up to
      `HISTORY_POINTS` rows. */
  method NewSession() returns (table: HistoryTable)
    ensures fresh(table) && table.Valid()
    ensures table.capacity == DefaultHistoryPoints
    ensures table.series == map["node1" := [], "node2" := []]
  {
    table := new HistoryTable(Nodes, DefaultHistoryPoints);
    assert table.series.Keys == {"node1", "node2"};
  }
}

/** Concrete readings pushed onto the table of a new session. */
module HistoryScenarios {
  import opened Wrappers
  import opened Snapshots
  import opened Series

  /** The reading `{temperature: 24.5, humidity: 55, ts: 1700000000000}` becomes a
      single row at its own timestamp, whatever the clock says. */
  lemma FirstReading(now: int)
    ensures Appended([], MakeRow(Snapshot(Some(Millis(1700000000000)), Some(24.5), Some(55.0), None, None, None, {}), now), 120)
      == [Row(1700000000000, Some(24.5), Some(55.0), None, None, None)]
  {
  }
}
