/** The latest sensor snapshot of a node, the history row built from it, timestamp
    resolution (`ms_to_datetime` and its "now" fallback), the fetch gate and the
    fan-state label. Times are integer milliseconds since the epoch. */
module Snapshots {
  import opened Wrappers

  /** A `ts` value as the database returns it: a number of milliseconds, or a
      value that `float()` cannot turn into a finite number. */
  datatype RawTs = Millis(ms: int) | NotANumber

  /** The record read from `/iot/<node>/last`. A field is `None` when its key is
      absent; `otherKeys` names any further keys, which no one reads but which make
      the record non-empty. */
  datatype Snapshot = Snapshot(
    ts: Option<RawTs>,
    temperature: Option<real>,
    humidity: Option<real>,
    luminosity: Option<real>,
    sound: Option<real>,
    fanState: Option<real>,
    otherKeys: set<string>)

  /** One row of a node's history: the resolved time and the five metrics. */
  datatype Row = Row(
    time: int,
    temperature: Option<real>,
    humidity: Option<real>,
    luminosity: Option<real>,
    sound: Option<real>,
    fanState: Option<real>)

  /** The span of Python's `datetime` (years 1 to 9999), in milliseconds since the
      epoch: 0001-01-01T00:00:00 and 9999-12-31T23:59:59.999 UTC. This is where
      `fromtimestamp` succeeds on a 64-bit Linux or macOS build; other platforms
      accept less. */
  const MinMs: int := -62135596800000
  const MaxMs: int := 253402300799999

  predicate Representable(ms: int) {
    MinMs <= ms <= MaxMs
  }

  /** `ms_to_datetime`: `None` for an absent or unconvertible value, the time
      otherwise. */
  function MsToTime(ts: Option<RawTs>): (t: Option<int>)
    ensures t.Some? <==> ts.Some? && ts.value.Millis? && Representable(ts.value.ms)
    ensures t.Some? ==> t.value == ts.value.ms
  {
    match ts
    case None => None
    case Some(NotANumber) => None
    case Some(Millis(ms)) => if Representable(ms) then Some(ms) else None
  }

  /** `ms_to_datetime(last.get("ts")) or dt.datetime.now()`: a datetime is never
      falsy, so `now` is used exactly when the conversion gives `None`. */
  function ResolveTime(ts: Option<RawTs>, now: int): (t: int)
    ensures MsToTime(ts) == Some(t) || (MsToTime(ts) == None && t == now)
  {
    MsToTime(ts).GetOr(now)
  }

  /** The row `push_history` appends for snapshot `last`. */
  function MakeRow(last: Snapshot, now: int): (r: Row) {
    Row(ResolveTime(last.ts, now), last.temperature, last.humidity,
        last.luminosity, last.sound, last.fanState)
  }

  /** The new row's time is the snapshot's own timestamp when it is present and
      representable, and `now` otherwise; every metric is copied unchanged, an
      absent one staying absent. */
  lemma MakeRowFields(last: Snapshot, now: int)
    ensures var r := MakeRow(last, now);
      && (last.ts.Some? && last.ts.value.Millis? && Representable(last.ts.value.ms) ==> r.time == last.ts.value.ms)
      && (last.ts.None? || last.ts.value.NotANumber? || !Representable(last.ts.value.ms) ==> r.time == now)
      && r.temperature == last.temperature && r.humidity == last.humidity
      && r.luminosity == last.luminosity && r.sound == last.sound
      && r.fanState == last.fanState
  {
  }

  /** Python's truth value of the snapshot dict: empty when it has no key at all. */
  predicate IsEmpty(s: Snapshot) {
    s.ts.None? && s.temperature.None? && s.humidity.None? && s.luminosity.None?
    && s.sound.None? && s.fanState.None? && s.otherKeys == {}
  }

  /** `last = fb_get_last(node) or {}` followed by `if last:`. */
  function ShouldPush(fetched: Option<Snapshot>): (push: bool)
    ensures push ==> fetched.Some?
  {
    match fetched
    case None => false
    case Some(s) => !IsEmpty(s)
  }

  /** A reading with any key at all is pushed; a missing or empty one is not. */
  lemma ShouldPushExactly(fetched: Option<Snapshot>)
    ensures ShouldPush(fetched) <==>
      (fetched.Some? &&
       (fetched.value.ts.Some? || fetched.value.temperature.Some? ||
        fetched.value.humidity.Some? || fetched.value.luminosity.Some? ||
        fetched.value.sound.Some? || fetched.value.fanState.Some? ||
        fetched.value.otherKeys != {}))
  {
  }

  const FanOn: string := "ON"
  const FanOff: string := "OFF"
  const NoValue: string := "—"

  /** The fan tile: "ON" for 1, "OFF" for 0, a dash for anything else or nothing. */
  function FanLabel(fan: Option<real>): (tile: string)
    ensures tile == FanOn <==> fan == Some(1.0)
    ensures tile == FanOff <==> fan == Some(0.0)
    ensures tile == NoValue <==> fan.None? || (fan.value != 1.0 && fan.value != 0.0)
  {
    if fan == Some(1.0) then FanOn
    else if fan == Some(0.0) then FanOff
    else NoValue
  }
}
