/** ee/query-service/rules/anomaly.go: the stateful part of AnomalyRule.Eval. */
module AnomalyRules {
  import opened Wrappers
  import opened AlertSpec

  /** A record for the rule's state history. `key` is the map key it was written for. */
  datatype RuleStateHistory = RuleStateHistory(
    key: Fingerprint, change: StateChange, overallState: AlertState, overallStateChanged: bool)

  datatype EvalError = QueryFailed | DuplicateAlert

  datatype Report = Report(active: nat, items: seq<RuleStateHistory>)

  class Alert {
    const fp: Fingerprint  // the hash of the alert's labels
    const labelsHash: nat
    const missing: bool
    const activeAt: Time
    var annotations: string
    var value: real
    var state: AlertState
    var firedAt: Option<Time>
    var resolvedAt: Option<Time>

    ghost function View(): AlertView reads this {
      AlertView(labelsHash, missing, activeAt, annotations, value, state, firedAt, resolvedAt)
    }

    constructor (s: Sample, ts: Time)
      ensures fp == s.fp && View() == NewAlertView(s, ts)
    {
      fp := s.fp;
      labelsHash, missing, activeAt := s.labelsHash, s.missing, ts;
      annotations, value, state := s.annotations, s.value, Pending;
      firedAt, resolvedAt := None, None;
    }

    method Refresh(value: real, annotations: string)
      modifies this
      ensures View() == old(View()).(value := value, annotations := annotations)
    {
      this.value, this.annotations := value, annotations;
    }

    method Resolve(ts: Time)
      modifies this
      ensures View() == old(View()).(state := Inactive, resolvedAt := Some(ts))
    {
      state, resolvedAt := Inactive, Some(ts);
    }

    method Fire(ts: Time)
      modifies this
      ensures View() == old(View()).(state := Firing, firedAt := Some(ts))
    {
      state, firedAt := Firing, Some(ts);
    }
  }

  /** The records of `items` written for key k, in order. */
  ghost function ChangesOf(items: seq<RuleStateHistory>, k: Fingerprint): seq<StateChange> {
    if items == [] then []
    else
      ChangesOf(items[..|items| - 1], k)
      + (if items[|items| - 1].key == k then [items[|items| - 1].change] else [])
  }

  lemma {:induction false} ChangesOfConcat(a: seq<RuleStateHistory>, b: seq<RuleStateHistory>, k: Fingerprint)
    ensures ChangesOf(a + b, k) == ChangesOf(a, k) + ChangesOf(b, k)
  {
    if b == [] {
      assert a + b == a;
    } else {
      assert (a + b)[..|a + b| - 1] == a + b[..|b| - 1];
      ChangesOfConcat(a, b[..|b| - 1], k);
    }
  }

  /** The number of a state, in the order in which the states are declared. */
  function Rank(s: AlertState): nat {
    match s case Inactive => 0 case Pending => 1 case Firing => 2 case NoData => 3
  }

  ghost predicate HasState(views: map<Fingerprint, AlertView>, s: AlertState) {
    exists k :: k in views && views[k].state == s
  }

  /** NoData if some alert has it, else Firing if some alert fires, else Pending if some alert is pending. */
  ghost predicate IsMaxState(s: AlertState, views: map<Fingerprint, AlertView>) {
    match s
    case NoData => HasState(views, NoData)
    case Firing => HasState(views, Firing) && !HasState(views, NoData)
    case Pending => HasState(views, Pending) && !HasState(views, Firing) && !HasState(views, NoData)
    case Inactive => !HasState(views, Pending) && !HasState(views, Firing) && !HasState(views, NoData)
  }

  predicate Distinct(v: seq<Sample>) {
    forall i, j :: 0 <= i < j < |v| ==> v[i].fp != v[j].fp
  }

  ghost predicate IsIndex(m: map<Fingerprint, Sample>, v: seq<Sample>) {
    && (forall i :: 0 <= i < |v| ==> v[i].fp in m && m[v[i].fp] == v[i])
    && (forall k :: k in m ==> m[k] in v && m[k].fp == k)
  }

  lemma IndexOneMore(m: map<Fingerprint, Sample>, v: seq<Sample>, n: nat)
    requires n < |v| && Distinct(v[..n]) && IsIndex(m, v[..n]) && v[n].fp !in m
    ensures Distinct(v[..n + 1]) && IsIndex(m[v[n].fp := v[n]], v[..n + 1])
  {
    var w := v[..n + 1];
    assert w == v[..n] + [v[n]];
    assert forall i :: 0 <= i < n ==> w[i] == v[..n][i];
    assert forall s :: s in w <==> s in v[..n] || s == v[n];
  }

  /** v is v0 after the first pass over all samples whose key is not in todo. */
  ghost predicate Observed(v0: map<Fingerprint, AlertView>, v: map<Fingerprint, AlertView>,
                           samples: map<Fingerprint, Sample>, todo: set<Fingerprint>, ts: Time)
  {
    forall k {:trigger Lookup(v, k)} :: Lookup(v, k) ==
      if k in todo then Lookup(v0, k) else Observe(Lookup(v0, k), Lookup(samples, k), ts)
  }

  lemma ObservedOneMore(v0: map<Fingerprint, AlertView>, v: map<Fingerprint, AlertView>, h: Fingerprint,
                        samples: map<Fingerprint, Sample>, todo: set<Fingerprint>, ts: Time)
    requires Observed(v0, v, samples, todo, ts) && h in todo && h in samples
    ensures Observed(v0, Put(v, h, Observe(Lookup(v, h), Some(samples[h]), ts)), samples, todo - {h}, ts)
  {
    var v' := Put(v, h, Observe(Lookup(v, h), Some(samples[h]), ts));
    assert Lookup(v, h) == Lookup(v0, h);
    forall k
      ensures Lookup(v', k) ==
        if k in todo - {h} then Lookup(v0, k) else Observe(Lookup(v0, k), Lookup(samples, k), ts)
    {
      assert k != h ==> Lookup(v', k) == Lookup(v, k);
    }
  }

  /** v and items are what the second pass over the keys of v0 outside todo made of v0. */
  ghost predicate Swept(v0: map<Fingerprint, AlertView>, v: map<Fingerprint, AlertView>, items: seq<RuleStateHistory>,
                        present: set<Fingerprint>, todo: set<Fingerprint>, ts: Time, hold: int)
  {
    && (forall k {:trigger Lookup(v, k)} :: Lookup(v, k) ==
          (if k in todo then Lookup(v0, k) else Sweep(Lookup(v0, k), k in present, ts, hold).0))
    && (forall k {:trigger ChangesOf(items, k)} :: ChangesOf(items, k) ==
          (if k in todo then [] else Sweep(Lookup(v0, k), k in present, ts, hold).1))
  }

  /** items is at most one record, written for fp, and holds exactly the given changes. */
  predicate IsRecordOf(items: seq<RuleStateHistory>, fp: Fingerprint, changes: seq<StateChange>) {
    |items| == |changes| <= 1 && (items != [] ==> items[0] == RuleStateHistory(fp, changes[0], Inactive, false))
  }

  lemma SweptOneMore(v0: map<Fingerprint, AlertView>, v: map<Fingerprint, AlertView>, items: seq<RuleStateHistory>,
                     fp: Fingerprint, v': map<Fingerprint, AlertView>, more: seq<RuleStateHistory>,
                     present: set<Fingerprint>, todo: set<Fingerprint>, ts: Time, hold: int)
    requires Swept(v0, v, items, present, todo, ts, hold) && fp in todo && fp in v
    requires v' == Put(v, fp, Sweep(Some(v[fp]), fp in present, ts, hold).0)
    requires IsRecordOf(more, fp, Sweep(Some(v[fp]), fp in present, ts, hold).1)
    ensures Swept(v0, v', items + more, present, todo - {fp}, ts, hold)
  {
    assert Lookup(v, fp) == Lookup(v0, fp);
    var changes := Sweep(Some(v[fp]), fp in present, ts, hold).1;
    forall k ensures ChangesOf(items + more, k) == ChangesOf(items, k) + (if k == fp then changes else []) {
      ChangesOfConcat(items, more, k);
      assert |more| == 1 ==> ChangesOf(more[..0], k) == [];
    }
    forall k
      ensures Lookup(v', k) ==
        (if k in todo - {fp} then Lookup(v0, k) else Sweep(Lookup(v0, k), k in present, ts, hold).0)
    {
      assert k != fp ==> Lookup(v', k) == Lookup(v, k);
    }
  }

  /** The final loop: put the rule's overall state on every record. */
  method StampOverall(items: seq<RuleStateHistory>, cur: AlertState, changed: bool)
    returns (out: seq<RuleStateHistory>)
    ensures forall k :: ChangesOf(out, k) == ChangesOf(items, k)
    ensures forall i :: 0 <= i < |out| ==> out[i].overallState == cur && out[i].overallStateChanged == changed
  {
    out := [];
    for idx := 0 to |items|
      invariant |out| == idx
      invariant forall k :: ChangesOf(out, k) == ChangesOf(items[..idx], k)
      invariant forall i :: 0 <= i < idx ==> out[i].overallState == cur && out[i].overallStateChanged == changed
    {
      out := out + [items[idx].(overallState := cur, overallStateChanged := changed)];
      assert items[..idx + 1][..idx] == items[..idx];
      assert out[..idx] == out[..|out| - 1];
    }
    assert items[..|items|] == items;
  }

  /** The stored alerts and the records so far are those of the evaluations h, key by key. */
  ghost predicate Tracks(v: map<Fingerprint, AlertView>, log: seq<RuleStateHistory>, h: seq<Evaluation>, hold: int) {
    && (forall k {:trigger Lookup(v, k)} :: Lookup(v, k) == AlertAfter(h, hold, k))
    && (forall k {:trigger ChangesOf(log, k)} :: ChangesOf(log, k) == ChangesAfter(h, hold, k))
  }

  lemma OneMoreEvaluation(v0: map<Fingerprint, AlertView>, v1: map<Fingerprint, AlertView>,
                          v2: map<Fingerprint, AlertView>, log: seq<RuleStateHistory>, items: seq<RuleStateHistory>,
                          h: seq<Evaluation>, e: Evaluation, hold: int)
    requires Tracks(v0, log, h, hold)
    requires Observed(v0, v1, e.samples, {}, e.ts)
    requires Swept(v1, v2, items, e.samples.Keys, {}, e.ts, hold)
    ensures Tracks(v2, log + items, h + [e], hold)
  {
    assert (h + [e])[..|h|] == h;
    forall k
      ensures Lookup(v2, k) == AlertAfter(h + [e], hold, k)
      ensures ChangesOf(log + items, k) == ChangesAfter(h + [e], hold, k)
    {
      ChangesOfConcat(log, items, k);
      assert Lookup(v1, k) == Observe(AlertAfter(h, hold, k), Lookup(e.samples, k), e.ts);
      assert Lookup(v2, k) == Sweep(Lookup(v1, k), k in e.samples, e.ts, hold).0;
    }
  }

  /** Every record carries the overall state after the evaluation and whether it changed. */
  ghost predicate Stamped(items: seq<RuleStateHistory>, before: map<Fingerprint, AlertView>,
                          after: map<Fingerprint, AlertView>)
  {
    exists prev, cur :: IsMaxState(prev, before) && IsMaxState(cur, after)
      && forall i :: 0 <= i < |items| ==> items[i].overallState == cur && items[i].overallStateChanged == (cur != prev)
  }

  lemma StampedAll(items: seq<RuleStateHistory>, prev: AlertState, cur: AlertState, before: map<Fingerprint, AlertView>,
                   after: map<Fingerprint, AlertView>)
    requires IsMaxState(prev, before) && IsMaxState(cur, after)
    requires forall i :: 0 <= i < |items| ==>
      items[i].overallState == cur && items[i].overallStateChanged == (cur != prev)
    ensures Stamped(items, before, after)
  {
  }

  lemma SameChangesSwept(v0: map<Fingerprint, AlertView>, v: map<Fingerprint, AlertView>, items: seq<RuleStateHistory>,
                         items': seq<RuleStateHistory>, present: set<Fingerprint>, ts: Time, hold: int)
    requires Swept(v0, v, items, present, {}, ts, hold) && forall k :: ChangesOf(items', k) == ChangesOf(items, k)
    ensures Swept(v0, v, items', present, {}, ts, hold)
  {
  }

  // ---- the overall state, evaluation by evaluation ----

  ghost predicate HasStateAfter(h: seq<Evaluation>, hold: int, s: AlertState) {
    exists k :: InState(AlertAfter(h, hold, k), s)
  }

  predicate InState(a: Option<AlertView>, s: AlertState) {
    a.Some? && a.value.state == s
  }

  /** s is the overall state after the evaluations h. */
  ghost predicate IsOverall(s: AlertState, h: seq<Evaluation>, hold: int) {
    match s
    case NoData => HasStateAfter(h, hold, NoData)
    case Firing => HasStateAfter(h, hold, Firing) && !HasStateAfter(h, hold, NoData)
    case Pending =>
      HasStateAfter(h, hold, Pending) && !HasStateAfter(h, hold, Firing) && !HasStateAfter(h, hold, NoData)
    case Inactive =>
      !HasStateAfter(h, hold, Pending) && !HasStateAfter(h, hold, Firing) && !HasStateAfter(h, hold, NoData)
  }

  lemma OverallIsMax(v: map<Fingerprint, AlertView>, log: seq<RuleStateHistory>, h: seq<Evaluation>, hold: int,
                     s: AlertState)
    requires Tracks(v, log, h, hold)
    ensures IsMaxState(s, v) <==> IsOverall(s, h, hold)
  {
    hide AlertAfter;
    forall t ensures HasState(v, t) <==> HasStateAfter(h, hold, t) {
      if HasState(v, t) {
        var k :| k in v && v[k].state == t;
        assert Lookup(v, k) == AlertAfter(h, hold, k);
        assert InState(AlertAfter(h, hold, k), t);
      }
      if HasStateAfter(h, hold, t) {
        var k :| InState(AlertAfter(h, hold, k), t);
        assert Lookup(v, k) == AlertAfter(h, hold, k);
      }
    }
  }

  /** The records i..j were stamped at the evaluation that made `after` of `before`. */
  ghost predicate StampedAt(log: seq<RuleStateHistory>, i: int, j: int, before: seq<Evaluation>, after: seq<Evaluation>,
                            hold: int)
  {
    && 0 <= i <= j <= |log|
    && exists prev, cur :: IsOverall(prev, before, hold) && IsOverall(cur, after, hold)
         && forall r :: i <= r < j ==> log[r].overallState == cur && log[r].overallStateChanged == (cur != prev)
  }

  function StartOf(ends: seq<nat>, n: nat): nat
    requires n <= |ends|
  {
    if n == 0 then 0 else ends[n - 1]
  }

  /** ends tells how many records there were after each evaluation; each evaluation stamped its own. */
  ghost predicate AllStamped(log: seq<RuleStateHistory>, ends: seq<nat>, h: seq<Evaluation>, hold: int) {
    && |ends| == |h| && StartOf(ends, |ends|) == |log|
    && forall n :: 0 <= n < |h| ==> StampedAt(log, StartOf(ends, n), ends[n], h[..n], h[..n + 1], hold)
  }

  lemma StampedOneMore(log: seq<RuleStateHistory>, items: seq<RuleStateHistory>, ends: seq<nat>, h: seq<Evaluation>,
                       e: Evaluation, hold: int, v0: map<Fingerprint, AlertView>, v2: map<Fingerprint, AlertView>)
    requires AllStamped(log, ends, h, hold) && Stamped(items, v0, v2)
    requires Tracks(v0, log, h, hold) && Tracks(v2, log + items, h + [e], hold)
    ensures AllStamped(log + items, ends + [|log + items|], h + [e], hold)
  {
    hide IsMaxState, IsOverall, Tracks, AlertAfter;
    var log', ends', h' := log + items, ends + [|log + items|], h + [e];
    forall s ensures IsMaxState(s, v0) <==> IsOverall(s, h, hold) {
      OverallIsMax(v0, log, h, hold, s);
    }
    forall s ensures IsMaxState(s, v2) <==> IsOverall(s, h', hold) {
      OverallIsMax(v2, log', h', hold, s);
    }
    forall n | 0 <= n < |h'| ensures StampedAt(log', StartOf(ends', n), ends'[n], h'[..n], h'[..n + 1], hold) {
      if n < |h| {
        assert h'[..n] == h[..n] && h'[..n + 1] == h[..n + 1];
        assert StampedAt(log, StartOf(ends, n), ends[n], h[..n], h[..n + 1], hold);
        StampedStays(log, items, StartOf(ends, n), ends[n], h[..n], h[..n + 1], hold);
      } else {
        assert h'[..n] == h && h'[..n + 1] == h';
        StampedNow(log, items, h, h', hold, v0, v2);
      }
    }
  }

  lemma StampedStays(log: seq<RuleStateHistory>, items: seq<RuleStateHistory>, i: int, j: int, before: seq<Evaluation>,
                     after: seq<Evaluation>, hold: int)
    requires StampedAt(log, i, j, before, after, hold)
    ensures StampedAt(log + items, i, j, before, after, hold)
  {
  }

  lemma StampedNow(log: seq<RuleStateHistory>, items: seq<RuleStateHistory>, h: seq<Evaluation>, h': seq<Evaluation>,
                   hold: int, v0: map<Fingerprint, AlertView>, v2: map<Fingerprint, AlertView>)
    requires Stamped(items, v0, v2)
    requires forall s :: IsMaxState(s, v0) <==> IsOverall(s, h, hold)
    requires forall s :: IsMaxState(s, v2) <==> IsOverall(s, h', hold)
    ensures StampedAt(log + items, |log|, |log + items|, h, h', hold)
  {
    hide IsMaxState, IsOverall;
    var prev, cur :| IsMaxState(prev, v0) && IsMaxState(cur, v2)
      && forall i :: 0 <= i < |items| ==> items[i].overallState == cur && items[i].overallStateChanged == (cur != prev);
    assert IsOverall(prev, h, hold) && IsOverall(cur, h', hold);
    assert forall r :: |log| <= r < |log + items| ==> (log + items)[r] == items[r - |log|];
  }

  /** One alert object per sample, stored under its own hash, as the pass over the vector created it. */
  ghost predicate FreshAlerts(alerts: map<Fingerprint, Alert>, made: set<Alert>,
                              samples: map<Fingerprint, Sample>, ts: Time)
    reads made
  {
    && alerts.Keys == samples.Keys
    && (forall k :: k in alerts ==>
          alerts[k] in made && alerts[k].fp == k && alerts[k].View() == NewAlertView(samples[k], ts))
  }

  class AnomalyRule {
    const hold: int
    var active: map<Fingerprint, Alert>
    ghost var evals: seq<Evaluation>       // the successful evaluations so far
    ghost var log: seq<RuleStateHistory>   // the records handed on so far
    ghost var ends: seq<nat>               // how many records there were after each evaluation
    ghost var repr: set<Alert>             // the alert objects the map may hold

    /** Every alert is stored under its own label hash, so no two entries share an object. */
    ghost predicate Keyed()
      reads `active, `repr
    {
      forall k :: k in active ==> active[k].fp == k && active[k] in repr
    }

    ghost function Views(): map<Fingerprint, AlertView>
      requires Keyed()
      reads `active, `repr, repr
    {
      map k | k in active :: active[k].View()
    }

    /** The map and the records are those of the evaluations so far, key by key. */
    ghost predicate Valid()
      reads this, repr
    {
      Keyed() && Tracks(Views(), log, evals, hold) && AllStamped(log, ends, evals, hold)
    }

    constructor (hold: int)
      ensures Valid() && active == map[] && evals == [] && log == [] && repr == {} && this.hold == hold
    {
      this.hold := hold;
      active, evals, log, ends, repr := map[], [], [], [], {};
    }

    method State() returns (maxState: AlertState)
      requires Keyed()
      ensures IsMaxState(maxState, Views())
      ensures maxState == NoData <==> HasState(Views(), NoData)
      ensures maxState == Firing <==> HasState(Views(), Firing) && !HasState(Views(), NoData)
      ensures maxState == Pending <==>
        HasState(Views(), Pending) && !HasState(Views(), Firing) && !HasState(Views(), NoData)
    {
      maxState := Inactive;
      var todo := active.Keys;
      while todo != {}
        invariant todo <= active.Keys
        invariant forall k :: k in active && k !in todo ==> Rank(active[k].state) <= Rank(maxState)
        invariant maxState == Inactive || exists k :: k in active && active[k].state == maxState
        decreases todo
      {
        var k :| k in todo;
        if Rank(active[k].state) > Rank(maxState) {
          maxState := active[k].state;
        }
        todo := todo - {k};
      }
      assert maxState != Inactive ==> HasState(Views(), maxState) by {
        if maxState != Inactive {
          var k :| k in active && active[k].state == maxState;
          assert k in Views() && Views()[k].state == maxState;
        }
      }
      forall s | HasState(Views(), s) ensures Rank(s) <= Rank(maxState) {
        var k :| k in Views() && Views()[k].state == s;
        assert Rank(active[k].state) <= Rank(maxState);
      }
    }

    /** Body of the first loop: refresh the live alert under h, or store a. */
    method AddOrUpdate(h: Fingerprint, a: Alert, ghost s: Sample, ghost ts: Time)
      requires Keyed() && a.fp == h && a in repr && a.View() == NewAlertView(s, ts)
      requires h in active ==> active[h] != a
      modifies this`active, if h in active then {active[h]} else {}
      ensures Keyed() && repr == old(repr)
      ensures forall x :: x in repr && (h in old(active) ==> x != old(active[h])) ==> x.View() == old(x.View())
      ensures active == old(active)[h := a] || (h in old(active) && active == old(active))
      ensures Views() == Put(old(Views()), h, Observe(Lookup(old(Views()), h), Some(s), ts))
    {
      if h in active && active[h].state != Inactive {
        active[h].Refresh(a.value, a.annotations);
      } else {
        active := active[h := a];
      }
    }

    /** Body of the second loop, for a fingerprint this evaluation did not return. */
    method SweepAbsent(fp: Fingerprint, ts: Time) returns (items: seq<RuleStateHistory>)
      requires Keyed() && fp in active
      modifies this`active, active[fp]
      ensures Keyed() && repr == old(repr) && active.Keys <= old(active.Keys)
      ensures forall k :: k in old(active) && k != fp ==> k in active
      ensures forall k :: k in active ==> active[k] == old(active[k])
      ensures Views() == Put(old(Views()), fp, Sweep(Some(old(Views())[fp]), false, ts, hold).0)
      ensures IsRecordOf(items, fp, Sweep(Some(old(Views())[fp]), false, ts, hold).1)
    {
      items := [];
      var a := active[fp];
      if a.state == Pending || (a.resolvedAt.Some? && ts - a.resolvedAt.value > RESOLVED_RETENTION) {
        active := active - {fp};
      }
      if a.state != Inactive {
        a.Resolve(ts);
        items := [RuleStateHistory(fp, StateChange(Inactive, ts / 1_000_000, a.labelsHash, a.value), Inactive, false)];
      }
    }

    /** Body of the second loop: what happens to the alert under fp. */
    method SweepOne(fp: Fingerprint, present: bool, ts: Time) returns (items: seq<RuleStateHistory>)
      requires Keyed() && fp in active
      modifies this`active, active[fp]
      ensures Keyed() && repr == old(repr) && active.Keys <= old(active.Keys)
      ensures forall k :: k in old(active) && k != fp ==> k in active
      ensures forall k :: k in active ==> active[k] == old(active[k])
      ensures Views() == Put(old(Views()), fp, Sweep(Some(old(Views())[fp]), present, ts, hold).0)
      ensures IsRecordOf(items, fp, Sweep(Some(old(Views())[fp]), present, ts, hold).1)
    {
      if !present {
        items := SweepAbsent(fp, ts);
        return;
      }
      items := [];
      var a := active[fp];
      if a.state == Pending && ts - a.activeAt >= hold {
        a.Fire(ts);
        var state := if a.missing then NoData else Firing;
        items := [RuleStateHistory(fp, StateChange(state, ts / 1_000_000, a.labelsHash, a.value), Inactive, false)];
      }
    }

    /** The pass over the result vector: one fresh pending alert per sample, or a duplicate. */
    method BuildAlerts(res: seq<Sample>, ts: Time)
      returns (alerts: map<Fingerprint, Alert>, ghost made: set<Alert>,
               ghost samples: map<Fingerprint, Sample>, duplicate: bool)
      ensures duplicate <==> !Distinct(res)
      ensures !duplicate ==> IsIndex(samples, res)
      ensures fresh(made) && FreshAlerts(alerts, made, samples, ts)
    {
      alerts, made, samples, duplicate := map[], {}, map[], false;
      for n := 0 to |res|
        invariant Distinct(res[..n]) && IsIndex(samples, res[..n])
        invariant fresh(made) && FreshAlerts(alerts, made, samples, ts)
      {
        var smpl := res[n];
        if smpl.fp in alerts {
          assert samples[smpl.fp] in res[..n];
          return alerts, made, samples, true;
        }
        IndexOneMore(samples, res, n);
        var a := new Alert(smpl, ts);
        made := made + {a};
        alerts := alerts[smpl.fp := a];
        samples := samples[smpl.fp := smpl];
      }
      assert res[..|res|] == res;
    }

    /** The first loop: fold the alerts of this evaluation into the map, in any order. */
    method AddOrUpdateAll(alerts: map<Fingerprint, Alert>, ghost made: set<Alert>,
                          ghost samples: map<Fingerprint, Sample>, ghost ts: Time)
      requires Keyed() && FreshAlerts(alerts, made, samples, ts) && made !! repr
      modifies this`active, this`repr, repr
      ensures Keyed() && repr == old(repr) + made && evals == old(evals) && log == old(log) && ends == old(ends)
      ensures Observed(old(Views()), Views(), samples, {}, ts)
    {
      ghost var v0, repr0 := Views(), repr;
      repr := repr + made;
      var todo := alerts.Keys;
      while todo != {}
        invariant todo <= alerts.Keys && Keyed() && repr == repr0 + made
        invariant forall k :: k in todo && k in active ==> active[k] in repr0
        invariant forall k :: k in todo ==> alerts[k].View() == NewAlertView(samples[k], ts)
        invariant Observed(v0, Views(), samples, todo, ts)
        decreases todo
      {
        var h :| h in todo;
        ghost var v := Views();
        assert alerts[h] in made && (h in active ==> active[h] in repr0);
        AddOrUpdate(h, alerts[h], samples[h], ts);
        ObservedOneMore(v0, v, h, samples, todo, ts);
        todo := todo - {h};
      }
    }

    /** The second loop: visit every stored alert once, in any order. */
    method SweepAll(present: set<Fingerprint>, ts: Time) returns (items: seq<RuleStateHistory>)
      requires Keyed()
      modifies this`active, repr
      ensures Keyed() && repr == old(repr) && evals == old(evals) && log == old(log) && ends == old(ends)
      ensures Swept(old(Views()), Views(), items, present, {}, ts, hold)
    {
      ghost var v0 := Views();
      items := [];
      var todo := active.Keys;
      while todo != {}
        invariant todo <= active.Keys <= old(active.Keys) && Keyed()
        invariant forall k :: k in active ==> active[k] == old(active[k])
        invariant Swept(v0, Views(), items, present, todo, ts, hold)
        decreases todo
      {
        var fp :| fp in todo;
        ghost var v := Views();
        var more := SweepOne(fp, fp in present, ts);
        SweptOneMore(v0, v, items, fp, Views(), more, present, todo, ts, hold);
        items := items + more;
        todo := todo - {fp};
      }
    }

    /** Everything Eval does once the alerts of this evaluation are built. */
    method Apply(alerts: map<Fingerprint, Alert>, ghost made: set<Alert>, ghost samples: map<Fingerprint, Sample>,
                 ts: Time, prevState: AlertState)
      returns (items: seq<RuleStateHistory>)
      requires Valid() && FreshAlerts(alerts, made, samples, ts) && made !! repr
      requires IsMaxState(prevState, Views())
      modifies this, repr, made
      ensures Valid() && repr == old(repr) + made
      ensures evals == old(evals) + [Evaluation(ts, samples)] && log == old(log) + items
      ensures ends == old(ends) + [|log|]
      ensures Stamped(items, old(Views()), Views())
    {
      hide Tracks, Observed, Swept, IsMaxState, HasState, Stamped, AllStamped, ChangesOf;
      ghost var v0 := Views();
      AddOrUpdateAll(alerts, made, samples, ts);
      ghost var v1 := Views();
      var swept := SweepAll(alerts.Keys, ts);
      var currentState := State();
      items := StampOverall(swept, currentState, currentState != prevState);
      ghost var v2 := Views();
      StampedAll(items, prevState, currentState, v0, v2);
      SameChangesSwept(v1, v2, swept, items, alerts.Keys, ts, hold);
      OneMoreEvaluation(v0, v1, v2, log, items, evals, Evaluation(ts, samples), hold);
      StampedOneMore(log, items, ends, evals, Evaluation(ts, samples), hold, v0, v2);
      evals := evals + [Evaluation(ts, samples)];
      ends := ends + [|log + items|];
      log := log + items;
      assert Views() == v2;
    }

    /** One evaluation at time ts; `query` is what the query returned, or None when it failed. */
    method Eval(query: Option<seq<Sample>>, ts: Time) returns (r: Result<Report, EvalError>)
      requires Valid()
      modifies this, repr
      ensures Valid() && fresh(repr - old(repr))
      ensures r == Err(QueryFailed) <==> query.None?
      ensures r == Err(DuplicateAlert) <==> query.Some? && !Distinct(query.value)
      ensures r.Err? ==>
        && evals == old(evals) && log == old(log) && ends == old(ends)
        && active == old(active) && Views() == old(Views())
      ensures r.Ok? ==>
        && |evals| == |old(evals)| + 1 && evals[..|old(evals)|] == old(evals)
        && evals[|old(evals)|].ts == ts && IsIndex(evals[|old(evals)|].samples, query.value)
      ensures r.Ok? ==>
        && r.value.active == |active| && log == old(log) + r.value.items && ends == old(ends) + [|log|]
        && Stamped(r.value.items, old(Views()), Views())
    {
      hide Tracks, IsMaxState, HasState, Stamped, AllStamped, IsIndex, Distinct;
      var prevState := State();
      if query.None? {
        return Err(QueryFailed);
      }
      var alerts, made, samples, duplicate := BuildAlerts(query.value, ts);
      if duplicate {
        return Err(DuplicateAlert);
      }
      var items := Apply(alerts, made, samples, ts, prevState);
      r := Ok(Report(|active|, items));
    }
  }
}
