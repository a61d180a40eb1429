/** What the stored alerts and the history records mean in terms of the evaluations alone. */
module AlertTheorems {
  import opened Wrappers
  import opened AlertSpec
  import opened AnomalyRules

  /** In nanoseconds. */
  const MINUTE: int := 60_000_000_000

  ghost predicate Present(h: seq<Evaluation>, k: Fingerprint, m: int) {
    0 <= m < |h| && k in h[m].samples
  }

  /** k is present in exactly the evaluations i..j around i: a maximal presence run. */
  ghost predicate IsRun(h: seq<Evaluation>, k: Fingerprint, i: int, j: int) {
    && 0 <= i < j <= |h|
    && (forall m :: i <= m < j ==> Present(h, k, m))
    && !Present(h, k, i - 1)
    && !Present(h, k, j)
  }

  ghost predicate AbsentFrom(h: seq<Evaluation>, k: Fingerprint, j: int) {
    forall m :: j <= m < |h| ==> !Present(h, k, m)
  }

  /** Evaluation m is the first from i on that is at least `hold` after it. */
  ghost predicate FirstHeld(h: seq<Evaluation>, hold: int, i: nat, m: int) {
    && i <= m < |h| && h[m].ts - h[i].ts >= hold
    && forall n :: i <= n < m ==> h[n].ts - h[i].ts < hold
  }

  /** The first time in i..j at least `hold` after evaluation i. */
  ghost function HeldAt(h: seq<Evaluation>, hold: int, i: nat, j: nat): (t: Option<Time>)
    requires i < j <= |h|
    ensures t.Some? <==> exists m :: i <= m < j && h[m].ts - h[i].ts >= hold
  {
    var sofar := if j == i + 1 then None else HeldAt(h, hold, i, j - 1);
    if sofar.Some? then sofar
    else if h[j - 1].ts - h[i].ts >= hold then Some(h[j - 1].ts)
    else None
  }

  lemma {:induction false} HeldAtIsFirst(h: seq<Evaluation>, hold: int, i: nat, j: nat) returns (m: int)
    requires i < j <= |h| && HeldAt(h, hold, i, j).Some?
    ensures FirstHeld(h, hold, i, m) && m < j && HeldAt(h, hold, i, j).value == h[m].ts
  {
    if j > i + 1 && HeldAt(h, hold, i, j - 1).Some? {
      m := HeldAtIsFirst(h, hold, i, j - 1);
    } else {
      m := j - 1;
    }
  }

  /** A firing alert carries the time of the evaluation at which its run first reached the hold duration. */
  lemma FiredWhenHeld(h: seq<Evaluation>, hold: int, k: Fingerprint, i: nat) returns (m: int)
    requires IsRun(h, k, i, |h|) && InState(AlertAfter(h, hold, k), Firing)
    ensures FirstHeld(h, hold, i, m) && AlertAfter(h, hold, k).value.firedAt == Some(h[m].ts)
  {
    AlertInRun(h, hold, k, i);
    m := HeldAtIsFirst(h, hold, i, |h|);
  }

  ghost predicate RetentionOver(h: seq<Evaluation>, j: nat) {
    exists m :: j < m < |h| && h[m].ts - h[j].ts > 15 * MINUTE
  }

  ghost predicate Chronological(h: seq<Evaluation>) {
    forall i, j :: 0 <= i <= j < |h| ==> h[i].ts <= h[j].ts
  }

  /** The alert of a run i..j: created by its first sample, last refreshed by its last one. */
  ghost function RunAlert(h: seq<Evaluation>, hold: int, k: Fingerprint, i: nat, j: nat): AlertView
    requires IsRun(h, k, i, j)
  {
    assert Present(h, k, i) && Present(h, k, j - 1);
    var first, last := h[i].samples[k], h[j - 1].samples[k];
    var fired := HeldAt(h, hold, i, j);
    AlertView(first.labelsHash, first.missing, h[i].ts, last.annotations, last.value,
              if fired.Some? then Firing else Pending, fired, None)
  }

  lemma {:induction false} HeldAtPrefix(h: seq<Evaluation>, hold: int, i: nat, j: nat, n: nat)
    requires i < j <= n <= |h|
    ensures HeldAt(h[..n], hold, i, j) == HeldAt(h, hold, i, j)
  {
    if j > i + 1 {
      HeldAtPrefix(h, hold, i, j - 1, n);
    }
  }

  lemma AbsentIsResolved(h: seq<Evaluation>, hold: int, k: Fingerprint)
    requires !Present(h, k, |h| - 1)
    ensures var a := AlertAfter(h, hold, k); a.None? || a.value.state == Inactive
  {
  }

  /** While k is present its alert depends only on the current run. */
  lemma {:induction false} AlertInRun(h: seq<Evaluation>, hold: int, k: Fingerprint, i: nat)
    requires IsRun(h, k, i, |h|)
    ensures AlertAfter(h, hold, k) == Some(RunAlert(h, hold, k, i, |h|))
  {
    var n := |h| - 1;
    var before := h[..n];
    assert Present(h, k, n);
    if i == n {
      AbsentIsResolved(before, hold, k);
    } else {
      assert forall m :: 0 <= m < n ==> Present(before, k, m) == Present(h, k, m);
      AlertInRun(before, hold, k, i);
      HeldAtPrefix(h, hold, i, n, n);
    }
  }

  /** After a run i..j the alert is kept, resolved at evaluation j, iff it had fired and the retention is not over. */
  lemma {:induction false} AlertAfterRun(h: seq<Evaluation>, hold: int, k: Fingerprint, i: nat, j: nat)
    requires IsRun(h, k, i, j) && j < |h| && AbsentFrom(h, k, j)
    ensures AlertAfter(h, hold, k) ==
      if HeldAt(h, hold, i, j).Some? && !RetentionOver(h, j)
      then Some(RunAlert(h, hold, k, i, j).(state := Inactive, resolvedAt := Some(h[j].ts)))
      else None
  {
    var n := |h| - 1;
    var before := h[..n];
    assert !Present(h, k, n);
    assert forall m :: 0 <= m < n ==> Present(before, k, m) == Present(h, k, m);
    HeldAtPrefix(h, hold, i, j, n);
    if j == n {
      AlertInRun(before, hold, k, i);
    } else {
      AlertAfterRun(before, hold, k, i, j);
      assert RetentionOver(h, j) <==> RetentionOver(before, j) || h[n].ts - h[j].ts > 15 * MINUTE;
    }
  }

  lemma {:induction false} NoAlertWithoutRun(h: seq<Evaluation>, hold: int, k: Fingerprint)
    requires AbsentFrom(h, k, 0)
    ensures AlertAfter(h, hold, k) == None
  {
    if h != [] {
      var before := h[..|h| - 1];
      assert !Present(h, k, |h| - 1);
      forall m | 0 <= m < |before| ensures !Present(before, k, m) {
        assert !Present(h, k, m);
      }
      NoAlertWithoutRun(h[..|h| - 1], hold, k);
    }
  }

  /** The last presence run of k, if k was ever present. */
  lemma {:induction false} LastRun(h: seq<Evaluation>, k: Fingerprint) returns (i: nat, j: nat)
    requires !AbsentFrom(h, k, 0)
    ensures IsRun(h, k, i, j) && AbsentFrom(h, k, j)
  {
    var n := |h| - 1;
    var before := h[..n];
    assert forall m :: 0 <= m < n ==> Present(before, k, m) == Present(h, k, m);
    if !Present(h, k, n) {
      i, j := LastRun(before, k);
    } else if !Present(h, k, n - 1) {
      i, j := n, n + 1;
    } else {
      assert Present(before, k, n - 1);
      i, j := LastRun(before, k);
      assert j == n;
      j := n + 1;
    }
  }

  /** The last run is unique, and an absent fingerprint has none. */
  lemma LastRunIsUnique(h: seq<Evaluation>, k: Fingerprint, i: nat, j: nat, i': nat, j': nat)
    requires IsRun(h, k, i, j) && AbsentFrom(h, k, j)
    requires IsRun(h, k, i', j') && AbsentFrom(h, k, j')
    ensures i == i' && j == j'
  {
    assert Present(h, k, j - 1) && Present(h, k, j' - 1);
    assert i < i' ==> Present(h, k, i' - 1);
    assert i' < i ==> Present(h, k, i - 1);
  }

  lemma AbsentHasNoRun(h: seq<Evaluation>, k: Fingerprint)
    requires AbsentFrom(h, k, 0)
    ensures forall i, j :: !IsRun(h, k, i, j)
  {
    assert forall i, j :: IsRun(h, k, i, j) ==> Present(h, k, i);
  }

  /** k has been present without a break from evaluation i to the last one, over a time d. */
  ghost predicate PresentFor(h: seq<Evaluation>, k: Fingerprint, i: int, d: int) {
    IsRun(h, k, i, |h|) && h[|h| - 1].ts - h[i].ts == d
  }

  /** Firing means present for an unbroken stretch of at least the hold duration, Pending means a shorter one. */
  lemma StateWhilePresent(h: seq<Evaluation>, hold: int, k: Fingerprint)
    requires Chronological(h)
    ensures InState(AlertAfter(h, hold, k), Firing) <==> exists i, d :: PresentFor(h, k, i, d) && d >= hold
    ensures InState(AlertAfter(h, hold, k), Pending) <==> exists i, d :: PresentFor(h, k, i, d) && d < hold
  {
    if AbsentFrom(h, k, 0) {
      NoAlertWithoutRun(h, hold, k);
      AbsentHasNoRun(h, k);
    } else {
      var i, j := LastRun(h, k);
      if j == |h| {
        AlertInRun(h, hold, k, i);
        assert PresentFor(h, k, i, h[|h| - 1].ts - h[i].ts);
        forall i', d | PresentFor(h, k, i', d) ensures i' == i {
          LastRunIsUnique(h, k, i, j, i', |h|);
        }
      } else {
        AlertAfterRun(h, hold, k, i, j);
        forall i', d | PresentFor(h, k, i', d) ensures false {
          LastRunIsUnique(h, k, i, j, i', |h|);
        }
      }
    }
  }

  /** The last run of k was i..j, evaluation j being the first one without k. */
  ghost predicate EndedRun(h: seq<Evaluation>, k: Fingerprint, i: int, j: int) {
    IsRun(h, k, i, j) && j < |h| && AbsentFrom(h, k, j)
  }

  /** The last run of k was i..j, it lasted the hold duration, and the retention since evaluation j is not over. */
  ghost predicate Retained(h: seq<Evaluation>, hold: int, k: Fingerprint, i: int, j: int) {
    && EndedRun(h, k, i, j)
    && h[j - 1].ts - h[i].ts >= hold
    && h[|h| - 1].ts - h[j].ts <= 15 * MINUTE
  }

  /** With times that do not go back, the ends of a run and of the history decide. */
  lemma EndsDecide(h: seq<Evaluation>, hold: int, k: Fingerprint, i: nat, j: nat)
    requires Chronological(h) && EndedRun(h, k, i, j)
    ensures Retained(h, hold, k, i, j) <==> HeldAt(h, hold, i, j).Some? && !RetentionOver(h, j)
  {
    assert RetentionOver(h, j) <==> h[|h| - 1].ts - h[j].ts > 15 * MINUTE;
  }

  /** A resolved alert is stored exactly while its last run had lasted the hold duration and the
      retention since the first evaluation without it is not over; its resolution time is that evaluation's. */
  lemma StateWhileAbsent(h: seq<Evaluation>, hold: int, k: Fingerprint)
    requires Chronological(h)
    ensures InState(AlertAfter(h, hold, k), Inactive) <==> exists i, j :: Retained(h, hold, k, i, j)
    ensures InState(AlertAfter(h, hold, k), Inactive) ==>
      exists i, j :: EndedRun(h, k, i, j) && AlertAfter(h, hold, k).value.resolvedAt == Some(h[j].ts)
  {
    hide AlertAfter, HeldAt, RetentionOver, IsRun, AbsentFrom, Chronological, RunAlert;
    if AbsentFrom(h, k, 0) {
      NoAlertWithoutRun(h, hold, k);
      AbsentHasNoRun(h, k);
    } else {
      var i, j := LastRun(h, k);
      RunBounds(h, k, i, j);
      forall i', j' | Retained(h, hold, k, i', j') ensures i' == i && j' == j {
        RunBounds(h, k, i', j');
        LastRunIsUnique(h, k, i, j, i', j');
      }
      if j == |h| {
        AlertInRun(h, hold, k, i);
        LiveInRun(h, hold, k, i, j);
      } else {
        AlertAfterRun(h, hold, k, i, j);
        EndsDecide(h, hold, k, i, j);
      }
    }
  }

  lemma RunBounds(h: seq<Evaluation>, k: Fingerprint, i: int, j: int)
    requires IsRun(h, k, i, j)
    ensures 0 <= i < j <= |h|
  {
  }

  lemma LiveInRun(h: seq<Evaluation>, hold: int, k: Fingerprint, i: nat, j: nat)
    requires IsRun(h, k, i, j)
    ensures RunAlert(h, hold, k, i, j).state != Inactive
  {
  }

  /** A firing alert survives the evaluation that resolves it. */
  lemma FiringIsNeverDropped(h: seq<Evaluation>, e: Evaluation, hold: int, k: Fingerprint)
    requires InState(AlertAfter(h, hold, k), Firing)
    ensures AlertAfter(h + [e], hold, k).Some?
    ensures !InState(AlertAfter(h + [e], hold, k), Pending)
  {
    assert (h + [e])[..|h|] == h;
    ResolvedAtOnlyOnceInactive(h, hold, k);
  }

  lemma ResolvedAtOnlyOnceInactive(h: seq<Evaluation>, hold: int, k: Fingerprint)
    ensures var a := AlertAfter(h, hold, k); a.Some? ==> (a.value.resolvedAt.Some? <==> a.value.state == Inactive)
  {
    if h != [] {
      ResolvedAtOnlyOnceInactive(h[..|h| - 1], hold, k);
    }
  }

  // ---- The history records ----

  function CountState(cs: seq<StateChange>, s: set<AlertState>): nat {
    if cs == [] then 0
    else CountState(cs[..|cs| - 1], s) + (if cs[|cs| - 1].state in s then 1 else 0)
  }

  /** The evaluations at which a presence run of k ended. */
  ghost function RunEnds(h: seq<Evaluation>, k: Fingerprint): set<int> {
    set j | 0 <= j < |h| && EndsAt(h, k, j)
  }

  ghost predicate EndsAt(h: seq<Evaluation>, k: Fingerprint, j: int) {
    Present(h, k, j - 1) && !Present(h, k, j)
  }

  /** The first evaluations of the presence runs of k that lasted the hold duration. */
  ghost function HeldRuns(h: seq<Evaluation>, hold: int, k: Fingerprint): set<int> {
    set i | 0 <= i < |h| && RunHeld(h, hold, k, i)
  }

  ghost predicate RunHeld(h: seq<Evaluation>, hold: int, k: Fingerprint, i: int) {
    exists j :: IsRun(h, k, i, j) && HeldAt(h, hold, i, j).Some?
  }

  /** The record, if any, that the last evaluation of h wrote for k. */
  ghost function LastChange(h: seq<Evaluation>, hold: int, k: Fingerprint): seq<StateChange>
    requires h != []
  {
    Step(AlertAfter(h[..|h| - 1], hold, k), h[|h| - 1], k, hold).1
  }

  lemma InactiveRecordEndsRun(h: seq<Evaluation>, hold: int, k: Fingerprint)
    requires h != []
    ensures |LastChange(h, hold, k)| <= 1
    ensures CountState(LastChange(h, hold, k), {Inactive})
      == if Present(h, k, |h| - 2) && !Present(h, k, |h| - 1) then 1 else 0
  {
    var n := |h| - 1;
    var before := h[..n];
    assert forall m :: m < n ==> Present(before, k, m) == Present(h, k, m);
    if Present(h, k, n - 1) {
      AlertIsLive(before, hold, k);
    } else {
      AbsentIsResolved(before, hold, k);
    }
  }

  lemma AlertIsLive(h: seq<Evaluation>, hold: int, k: Fingerprint)
    requires Present(h, k, |h| - 1)
    ensures AlertAfter(h, hold, k).Some? && AlertAfter(h, hold, k).value.state != Inactive
  {
    var i, j := LastRun(h, k);
    assert j == |h|;
    AlertInRun(h, hold, k, i);
  }

  /** A firing record is written exactly when a run first reaches the hold duration. It says NoData iff
      the run's first sample was missing, and carries that sample's labels and the newest value. */
  lemma FiringRecordStartsHold(h: seq<Evaluation>, hold: int, k: Fingerprint, i: nat)
    requires h != [] && IsRun(h, k, i, |h|)
    ensures Present(h, k, i) && Present(h, k, |h| - 1)
    ensures var first, last := h[i].samples[k], h[|h| - 1];
      LastChange(h, hold, k)
      == if HeldAt(h, hold, i, |h|).Some? && !(i < |h| - 1 && HeldAt(h, hold, i, |h| - 1).Some?)
         then [StateChange(if first.missing then NoData else Firing,
                           last.ts / 1_000_000, first.labelsHash, last.samples[k].value)]
         else []
  {
    var n := |h| - 1;
    var before := h[..n];
    assert Present(h, k, n) && Present(h, k, i);
    assert forall m :: m < n ==> Present(before, k, m) == Present(h, k, m);
    if i == n {
      AbsentIsResolved(before, hold, k);
    } else {
      AlertInRun(before, hold, k, i);
      HeldAtPrefix(h, hold, i, n, n);
    }
  }

  /** The record of an ended run carries the labels of its first sample and the value of its last one. */
  lemma InactiveRecordOfRun(h: seq<Evaluation>, hold: int, k: Fingerprint, i: nat)
    requires |h| > 1 && IsRun(h, k, i, |h| - 1)
    ensures Present(h, k, i) && Present(h, k, |h| - 2)
    ensures LastChange(h, hold, k)
      == [StateChange(Inactive, h[|h| - 1].ts / 1_000_000, h[i].samples[k].labelsHash, h[|h| - 2].samples[k].value)]
  {
    var n := |h| - 1;
    assert Present(h, k, i) && Present(h, k, n - 1);
    assert forall m :: m < n ==> Present(h[..n], k, m) == Present(h, k, m);
    AlertInRun(h[..n], hold, k, i);
  }

  lemma RunHeldPrefix(h: seq<Evaluation>, hold: int, k: Fingerprint, i: int)
    requires h != []
    ensures RunHeld(h, hold, k, i) <==>
      || RunHeld(h[..|h| - 1], hold, k, i)
      || (IsRun(h, k, i, |h|) && HeldAt(h, hold, i, |h|).Some?)
  {
    var n := |h| - 1;
    var before := h[..n];
    assert forall m :: m < n ==> Present(before, k, m) == Present(h, k, m);
    if RunHeld(h, hold, k, i) {
      var j :| IsRun(h, k, i, j) && HeldAt(h, hold, i, j).Some?;
      if j < |h| {
        HeldAtPrefix(h, hold, i, j, n);
        assert IsRun(before, k, i, j);
      }
    }
    if RunHeld(before, hold, k, i) {
      var j :| IsRun(before, k, i, j) && HeldAt(before, hold, i, j).Some?;
      HeldAtPrefix(h, hold, i, j, n);
      if j == n && Present(h, k, n) {
        assert IsRun(h, k, i, |h|);
        assert HeldAt(h, hold, i, n).Some?;
      } else {
        assert IsRun(h, k, i, j);
      }
    }
  }

  lemma {:induction false} CountStateConcat(a: seq<StateChange>, b: seq<StateChange>, s: set<AlertState>)
    ensures CountState(a + b, s) == CountState(a, s) + CountState(b, s)
  {
    if b == [] {
      assert a + b == a;
    } else {
      assert (a + b)[..|a + b| - 1] == a + b[..|b| - 1];
      CountStateConcat(a, b[..|b| - 1], s);
    }
  }

  lemma NoPendingRecord(h: seq<Evaluation>, hold: int, k: Fingerprint)
    requires h != []
    ensures CountState(LastChange(h, hold, k), {Pending}) == 0
  {
  }

  /** One Inactive record per ended run, one firing record per run that lasted the hold duration, and no other. */
  lemma {:induction false} RecordsCountRuns(h: seq<Evaluation>, hold: int, k: Fingerprint)
    ensures CountState(ChangesAfter(h, hold, k), {Inactive}) == |RunEnds(h, k)|
    ensures CountState(ChangesAfter(h, hold, k), {Firing, NoData}) == |HeldRuns(h, hold, k)|
    ensures CountState(ChangesAfter(h, hold, k), {Pending}) == 0
  {
    if h != [] {
      var n := |h| - 1;
      var before := h[..n];
      RecordsCountRuns(before, hold, k);
      CountStateConcat(ChangesAfter(before, hold, k), LastChange(h, hold, k), {Inactive});
      CountStateConcat(ChangesAfter(before, hold, k), LastChange(h, hold, k), {Firing, NoData});
      CountStateConcat(ChangesAfter(before, hold, k), LastChange(h, hold, k), {Pending});
      NoPendingRecord(h, hold, k);
      InactiveRecordEndsRun(h, hold, k);
      RunEndsGrow(h, k);
      HeldRunsGrow(h, hold, k);
    }
  }

  lemma RunEndsGrow(h: seq<Evaluation>, k: Fingerprint)
    requires h != []
    ensures |RunEnds(h, k)| == |RunEnds(h[..|h| - 1], k)|
      + if Present(h, k, |h| - 2) && !Present(h, k, |h| - 1) then 1 else 0
  {
    var n := |h| - 1;
    assert forall m :: m < n ==> Present(h[..n], k, m) == Present(h, k, m);
    assert forall j :: j < n ==> EndsAt(h[..n], k, j) == EndsAt(h, k, j);
    assert RunEnds(h, k) == RunEnds(h[..n], k) + if Present(h, k, n - 1) && !Present(h, k, n) then {n} else {};
  }

  lemma AbsentWritesNoFiring(h: seq<Evaluation>, hold: int, k: Fingerprint)
    requires h != [] && !Present(h, k, |h| - 1)
    ensures CountState(LastChange(h, hold, k), {Firing, NoData}) == 0
  {
  }

  lemma FiringCount(h: seq<Evaluation>, hold: int, k: Fingerprint, i: nat)
    requires h != [] && IsRun(h, k, i, |h|)
    ensures CountState(LastChange(h, hold, k), {Firing, NoData}) ==
      if HeldAt(h, hold, i, |h|).Some? && !(i < |h| - 1 && HeldAt(h, hold, i, |h| - 1).Some?) then 1 else 0
  {
    hide AlertAfter, HeldAt, IsRun, LastChange;
    FiringRecordStartsHold(h, hold, k, i);
  }

  /** Only the run that is still on can be added. */
  lemma HeldRunsAdd(h: seq<Evaluation>, hold: int, k: Fingerprint, added: set<int>)
    requires h != [] && forall i :: i in added <==> IsRun(h, k, i, |h|) && HeldAt(h, hold, i, |h|).Some?
    ensures HeldRuns(h, hold, k) == HeldRuns(h[..|h| - 1], hold, k) + added
  {
    hide RunHeld, HeldAt;
    forall i ensures i in HeldRuns(h, hold, k) <==> i in HeldRuns(h[..|h| - 1], hold, k) || i in added {
      RunHeldPrefix(h, hold, k, i);
      HeldInside(h[..|h| - 1], hold, k, i);
    }
  }

  lemma HeldInside(h: seq<Evaluation>, hold: int, k: Fingerprint, i: int)
    ensures RunHeld(h, hold, k, i) ==> 0 <= i < |h|
  {
  }

  lemma HeldRunsGrow(h: seq<Evaluation>, hold: int, k: Fingerprint)
    requires h != []
    ensures |HeldRuns(h, hold, k)|
      == |HeldRuns(h[..|h| - 1], hold, k)| + CountState(LastChange(h, hold, k), {Firing, NoData})
  {
    hide AlertAfter, HeldAt, RunHeld, LastChange, CountState;
    var before := h[..|h| - 1];
    if Present(h, k, |h| - 1) {
      var i, j := LastRun(h, k);
      assert j == |h|;
      OneRunPerEnd(h, k, i, |h|);
      FiringCount(h, hold, k, i);
      RunHeldInTail(h, hold, k, i);
      HeldRunsAdd(h, hold, k, if HeldAt(h, hold, i, |h|).Some? then {i} else {});
      if i < |h| - 1 {
        HeldLonger(h, hold, i);
      }
      HeldInside(before, hold, k, i);
      AddOne(HeldRuns(before, hold, k), i);
    } else {
      HeldRunsAdd(h, hold, k, {});
      AbsentWritesNoFiring(h, hold, k);
      AddOne(HeldRuns(before, hold, k), 0);
    }
  }

  lemma HeldLonger(h: seq<Evaluation>, hold: int, i: nat)
    requires i < |h| - 1
    ensures HeldAt(h, hold, i, |h| - 1).Some? ==> HeldAt(h, hold, i, |h|).Some?
  {
  }

  lemma AddOne(s: set<int>, i: int)
    ensures |s + {i}| == |s| + (if i in s then 0 else 1) && s + {} == s
  {
    assert i in s ==> s + {i} == s;
  }

  lemma RunHeldInTail(h: seq<Evaluation>, hold: int, k: Fingerprint, i: nat)
    requires h != [] && IsRun(h, k, i, |h|)
    ensures RunHeld(h[..|h| - 1], hold, k, i) <==> i < |h| - 1 && HeldAt(h, hold, i, |h| - 1).Some?
  {
    var n := |h| - 1;
    var before := h[..n];
    assert forall m :: m < n ==> Present(before, k, m) == Present(h, k, m);
    if i < n {
      assert IsRun(before, k, i, n);
      HeldAtPrefix(h, hold, i, n, n);
      forall j | IsRun(before, k, i, j) ensures j == n {
        assert j < n ==> Present(h, k, j);
      }
    }
  }

  lemma OneRunPerEnd(h: seq<Evaluation>, k: Fingerprint, i: nat, j: nat)
    requires IsRun(h, k, i, j)
    ensures forall i' :: IsRun(h, k, i', j) ==> i' == i
  {
    forall i' | IsRun(h, k, i', j) ensures i' == i {
      assert i < i' ==> Present(h, k, i' - 1);
      assert i' < i ==> Present(h, k, i - 1);
    }
  }

  ghost predicate IsFiringRecord(cs: seq<StateChange>, p: int) {
    0 <= p < |cs| && (cs[p].state == Firing || cs[p].state == NoData)
  }

  ghost predicate InactiveBetween(cs: seq<StateChange>, p: int, q: int) {
    exists r :: p < r < q && 0 <= r < |cs| && cs[r].state == Inactive
  }

  /** Between two firing records of one fingerprint there is always an Inactive one, and after the
      last firing record there is one unless the alert is still firing. */
  lemma {:induction false} NoFiringTwice(h: seq<Evaluation>, hold: int, k: Fingerprint)
    ensures forall p, q ::
      IsFiringRecord(ChangesAfter(h, hold, k), p) && IsFiringRecord(ChangesAfter(h, hold, k), q) && p < q
      ==> InactiveBetween(ChangesAfter(h, hold, k), p, q)
    ensures forall p ::
      IsFiringRecord(ChangesAfter(h, hold, k), p) && !InState(AlertAfter(h, hold, k), Firing)
      ==> InactiveBetween(ChangesAfter(h, hold, k), p, |ChangesAfter(h, hold, k)|)
  {
    if h != [] {
      var before := h[..|h| - 1];
      NoFiringTwice(before, hold, k);
      InactiveRecordEndsRun(h, hold, k);
      var cs, last := ChangesAfter(before, hold, k), LastChange(h, hold, k);
      var all := ChangesAfter(h, hold, k);
      assert all == cs + last;
      forall p, q | IsFiringRecord(all, p) && p < q <= |cs| && InactiveBetween(cs, p, q)
        ensures InactiveBetween(all, p, q)
      {
        var r :| p < r < q && 0 <= r < |cs| && cs[r].state == Inactive;
        assert all[r] == cs[r];
      }
      forall p, q | IsFiringRecord(all, p) && IsFiringRecord(all, q) && p < q ensures InactiveBetween(all, p, q) {
        assert IsFiringRecord(cs, p);
        if q == |cs| {
          assert all[q] == last[0];
          assert !InState(AlertAfter(before, hold, k), Firing);
        } else {
          assert IsFiringRecord(cs, q);
        }
      }
      forall p | IsFiringRecord(all, p) && !InState(AlertAfter(h, hold, k), Firing)
        ensures InactiveBetween(all, p, |all|)
      {
        if InState(AlertAfter(before, hold, k), Firing) {
          assert last != [] && last[0].state == Inactive;
          assert all[|cs|] == last[0];
        } else {
          assert IsFiringRecord(cs, p);
        }
      }
    }
  }

  // ---- On the rule object ----

  ghost predicate StoredAs(r: AnomalyRule, k: Fingerprint, s: AlertState)
    reads r, r.repr
    requires r.Keyed()
  {
    k in r.active && r.active[k].state == s
  }

  ghost predicate ResolvedAt(r: AnomalyRule, k: Fingerprint, ts: Time)
    reads r, r.repr
    requires r.Keyed()
  {
    k in r.active && r.active[k].resolvedAt == Some(ts)
  }

  lemma RuleTracks(r: AnomalyRule, k: Fingerprint, s: AlertState)
    requires r.Valid()
    ensures StoredAs(r, k, s) <==> InState(AlertAfter(r.evals, r.hold, k), s)
    ensures forall ts :: ResolvedAt(r, k, ts) <==>
      AlertAfter(r.evals, r.hold, k).Some? && AlertAfter(r.evals, r.hold, k).value.resolvedAt == Some(ts)
    ensures ChangesOf(r.log, k) == ChangesAfter(r.evals, r.hold, k)
  {
    assert Lookup(r.Views(), k) == AlertAfter(r.evals, r.hold, k);
  }

  ghost predicate NeverFiringTwice(cs: seq<StateChange>) {
    forall p, q :: IsFiringRecord(cs, p) && IsFiringRecord(cs, q) && p < q ==> InactiveBetween(cs, p, q)
  }

  /** What a rule stores and has recorded after any run of successful and failed evaluations, told from the successful
      ones alone. */
  lemma RuleMeetsHistory(r: AnomalyRule, k: Fingerprint)
    requires r.Valid() && Chronological(r.evals)
    ensures StoredAs(r, k, Firing) <==> exists i, d :: PresentFor(r.evals, k, i, d) && d >= r.hold
    ensures StoredAs(r, k, Pending) <==> exists i, d :: PresentFor(r.evals, k, i, d) && d < r.hold
    ensures StoredAs(r, k, Inactive) <==> exists i, j :: Retained(r.evals, r.hold, k, i, j)
    ensures StoredAs(r, k, Inactive) ==>
      exists i, j :: EndedRun(r.evals, k, i, j) && ResolvedAt(r, k, r.evals[j].ts)
    ensures CountState(ChangesOf(r.log, k), {Inactive}) == |RunEnds(r.evals, k)|
    ensures CountState(ChangesOf(r.log, k), {Firing, NoData}) == |HeldRuns(r.evals, r.hold, k)|
    ensures CountState(ChangesOf(r.log, k), {Pending}) == 0
    ensures NeverFiringTwice(ChangesOf(r.log, k))
  {
    hide AlertAfter, ChangesAfter, ChangesOf, Chronological, PresentFor, RunEnds, HeldRuns, CountState, StoredAs,
         Retained, IsFiringRecord, InactiveBetween, ResolvedAt, IsRun, AbsentFrom;
    RuleTracks(r, k, Firing);
    RuleTracks(r, k, Pending);
    RuleTracks(r, k, Inactive);
    StateWhileAbsent(r.evals, r.hold, k);
    StateWhilePresent(r.evals, r.hold, k);
    RecordsCountRuns(r.evals, r.hold, k);
    NoFiringTwice(r.evals, r.hold, k);
  }

  // ---- The overall state ----

  /** Some fingerprint has been present for the hold duration. */
  ghost predicate SomeHeld(h: seq<Evaluation>, hold: int) {
    exists k, i, d :: PresentFor(h, k, i, d) && d >= hold
  }

  ghost predicate SomePresent(h: seq<Evaluation>) {
    exists k, i, d :: PresentFor(h, k, i, d)
  }

  lemma OverallMeetsHistory(h: seq<Evaluation>, hold: int, s: AlertState)
    requires Chronological(h) && IsOverall(s, h, hold)
    ensures s == Firing <==> SomeHeld(h, hold)
    ensures s == Pending <==> SomePresent(h) && !SomeHeld(h, hold)
    ensures s == Inactive <==> !SomePresent(h)
  {
    hide AlertAfter, Chronological;
    assert !HasStateAfter(h, hold, NoData) by {
      forall k ensures !InState(AlertAfter(h, hold, k), NoData) {
        NeverStoredAsNoData(h, hold, k);
      }
    }
    HeldIsFiring(h, hold);
    PresentIsStored(h, hold);
  }

  lemma HeldIsFiring(h: seq<Evaluation>, hold: int)
    requires Chronological(h)
    ensures SomeHeld(h, hold) <==> HasStateAfter(h, hold, Firing)
  {
    hide AlertAfter, PresentFor, Chronological;
    if SomeHeld(h, hold) {
      var k, i, d :| PresentFor(h, k, i, d) && d >= hold;
      StateWhilePresent(h, hold, k);
    }
    if HasStateAfter(h, hold, Firing) {
      var k :| InState(AlertAfter(h, hold, k), Firing);
      StateWhilePresent(h, hold, k);
    }
  }

  lemma PresentIsStored(h: seq<Evaluation>, hold: int)
    requires Chronological(h)
    ensures SomePresent(h) <==> HasStateAfter(h, hold, Firing) || HasStateAfter(h, hold, Pending)
  {
    hide AlertAfter, PresentFor, Chronological;
    if SomePresent(h) {
      var k, i, d :| PresentFor(h, k, i, d);
      StateWhilePresent(h, hold, k);
    }
    if k :| InState(AlertAfter(h, hold, k), Firing) || InState(AlertAfter(h, hold, k), Pending) {
      StateWhilePresent(h, hold, k);
    }
  }

  lemma {:induction false} NeverStoredAsNoData(h: seq<Evaluation>, hold: int, k: Fingerprint)
    ensures !InState(AlertAfter(h, hold, k), NoData)
  {
    if h != [] {
      NeverStoredAsNoData(h[..|h| - 1], hold, k);
    }
  }

  lemma ChronologicalPrefix(h: seq<Evaluation>, n: nat)
    requires Chronological(h) && n <= |h|
    ensures Chronological(h[..n])
  {
  }

  /** What a rule answers for its state, told from the evaluations: firing while some fingerprint has been present for
      the hold duration, pending while one has been present for less and none for as long, inactive otherwise. */
  lemma RuleStateMeetsHistory(r: AnomalyRule, state: AlertState)
    requires r.Valid() && Chronological(r.evals) && IsMaxState(state, r.Views())
    ensures state == Firing <==> SomeHeld(r.evals, r.hold)
    ensures state == Pending <==> SomePresent(r.evals) && !SomeHeld(r.evals, r.hold)
    ensures state == Inactive <==> !SomePresent(r.evals)
  {
    hide IsMaxState, IsOverall, Tracks, AllStamped, Chronological;
    OverallIsMax(r.Views(), r.log, r.evals, r.hold, state);
    OverallMeetsHistory(r.evals, r.hold, state);
  }

  /** The same of what is stamped on record p, one of those of evaluation n. */
  lemma RecordsMeetHistory(r: AnomalyRule, n: nat, p: nat)
    requires r.Valid() && Chronological(r.evals) && n < |r.evals| == |r.ends| && StartOf(r.ends, n) <= p < r.ends[n]
    ensures p < |r.log|
    ensures var before, after, record := r.evals[..n], r.evals[..n + 1], r.log[p];
      && (record.overallState == Firing <==> SomeHeld(after, r.hold))
      && (record.overallState == Pending <==> SomePresent(after) && !SomeHeld(after, r.hold))
      && (record.overallState == Inactive <==> !SomePresent(after))
      && (record.overallStateChanged <==>
            SomeHeld(before, r.hold) != SomeHeld(after, r.hold) || SomePresent(before) != SomePresent(after))
  {
    hide Chronological, IsOverall, SomeHeld, SomePresent, Tracks;
    assert StampedAt(r.log, StartOf(r.ends, n), r.ends[n], r.evals[..n], r.evals[..n + 1], r.hold);
    ChronologicalPrefix(r.evals, n);
    ChronologicalPrefix(r.evals, n + 1);
    StampsMeanHistory(r.log, StartOf(r.ends, n), r.ends[n], r.evals[..n], r.evals[..n + 1], r.hold, p);
  }

  lemma StampsMeanHistory(log: seq<RuleStateHistory>, i: int, j: int, before: seq<Evaluation>, after: seq<Evaluation>,
                          hold: int, p: int)
    requires StampedAt(log, i, j, before, after, hold) && i <= p < j && Chronological(before) && Chronological(after)
    ensures var record := log[p];
      && (record.overallState == Firing <==> SomeHeld(after, hold))
      && (record.overallState == Pending <==> SomePresent(after) && !SomeHeld(after, hold))
      && (record.overallState == Inactive <==> !SomePresent(after))
      && (record.overallStateChanged <==>
            SomeHeld(before, hold) != SomeHeld(after, hold) || SomePresent(before) != SomePresent(after))
  {
    hide Chronological, IsOverall, SomeHeld, SomePresent;
    var prev, cur :| IsOverall(prev, before, hold) && IsOverall(cur, after, hold)
      && forall q :: i <= q < j ==> log[q].overallState == cur && log[q].overallStateChanged == (cur != prev);
    OverallMeetsHistory(before, hold, prev);
    OverallMeetsHistory(after, hold, cur);
    HeldIsPresent(before, hold);
    HeldIsPresent(after, hold);
    NeverNoData(before, hold, prev);
    NeverNoData(after, hold, cur);
  }

  lemma NeverNoData(h: seq<Evaluation>, hold: int, s: AlertState)
    requires IsOverall(s, h, hold)
    ensures s != NoData
  {
    if k :| InState(AlertAfter(h, hold, k), NoData) {
      NeverStoredAsNoData(h, hold, k);
    }
  }

  lemma HeldIsPresent(h: seq<Evaluation>, hold: int)
    ensures SomeHeld(h, hold) ==> SomePresent(h)
  {
  }
}
