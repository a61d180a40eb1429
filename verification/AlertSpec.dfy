/** What one alert fingerprint goes through, evaluation by evaluation.
    Times and durations are nanoseconds, as in Go's time package. */
module AlertSpec {
  import opened Wrappers

  type Time = int
  type Fingerprint = nat

  /** How long a resolved alert is kept so that it is still reported as resolved. */
  const RESOLVED_RETENTION: int := 15 * 60 * 1_000_000_000

  datatype AlertState = Inactive | Pending | Firing | NoData

  /** One entry of the query's result vector, after its labels were built and hashed. */
  datatype Sample = Sample(fp: Fingerprint, labelsHash: nat, value: real, annotations: string, missing: bool)

  /** The value of an alert object; a Go time that may be zero is an option. */
  datatype AlertView = AlertView(
    labelsHash: nat, missing: bool, activeAt: Time,
    annotations: string, value: real, state: AlertState,
    firedAt: Option<Time>, resolvedAt: Option<Time>)

  datatype StateChange = StateChange(state: AlertState, unixMilli: int, fingerprint: nat, value: real)

  /** One successful evaluation: its time and the samples by map key. */
  datatype Evaluation = Evaluation(ts: Time, samples: map<Fingerprint, Sample>)

  function Put<K, V>(m: map<K, V>, k: K, v: Option<V>): map<K, V> {
    if v.Some? then m[k := v.value] else m - {k}
  }

  function NewAlertView(s: Sample, ts: Time): AlertView {
    AlertView(s.labelsHash, s.missing, ts, s.annotations, s.value, Pending, None, None)
  }

  /** First pass of an evaluation: refresh a live alert or start a new one. */
  function Observe(cur: Option<AlertView>, obs: Option<Sample>, ts: Time): Option<AlertView> {
    match obs
    case None => cur
    case Some(s) =>
      if cur.Some? && cur.value.state != Inactive
      then Some(cur.value.(value := s.value, annotations := s.annotations))
      else Some(NewAlertView(s, ts))
  }

  predicate Expired(a: AlertView, ts: Time) {
    a.state == Pending || (a.resolvedAt.Some? && ts - a.resolvedAt.value > RESOLVED_RETENTION)
  }

  function Change(a: AlertView, state: AlertState, ts: Time): StateChange {
    StateChange(state, ts / 1_000_000, a.labelsHash, a.value)
  }

  /** Second pass: resolve, drop or fire, and the record written for it. */
  function Sweep(cur: Option<AlertView>, present: bool, ts: Time, hold: int)
    : (Option<AlertView>, seq<StateChange>)
  {
    match cur
    case None => (None, [])
    case Some(a) =>
      if !present then
        var a' := if a.state != Inactive then a.(state := Inactive, resolvedAt := Some(ts)) else a;
        (if Expired(a, ts) then None else Some(a'),
         if a.state != Inactive then [Change(a, Inactive, ts)] else [])
      else if a.state == Pending && ts - a.activeAt >= hold then
        (Some(a.(state := Firing, firedAt := Some(ts))),
         [Change(a, if a.missing then NoData else Firing, ts)])
      else
        (Some(a), [])
  }

  function Step(cur: Option<AlertView>, e: Evaluation, k: Fingerprint, hold: int)
    : (Option<AlertView>, seq<StateChange>)
  {
    Sweep(Observe(cur, Lookup(e.samples, k), e.ts), k in e.samples, e.ts, hold)
  }

  /** The alert stored under k after the evaluations h, starting from an empty map. */
  ghost function AlertAfter(h: seq<Evaluation>, hold: int, k: Fingerprint): Option<AlertView> {
    if h == [] then None
    else Step(AlertAfter(h[..|h| - 1], hold, k), h[|h| - 1], k, hold).0
  }

  /** The records written for k over the evaluations h. */
  ghost function ChangesAfter(h: seq<Evaluation>, hold: int, k: Fingerprint): seq<StateChange> {
    if h == [] then []
    else
      ChangesAfter(h[..|h| - 1], hold, k)
      + Step(AlertAfter(h[..|h| - 1], hold, k), h[|h| - 1], k, hold).1
  }
}
