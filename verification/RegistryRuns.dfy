/** What holds of every run of Registry.Stop: it never waits to send, ends, and joins all errors. */
module RegistryRuns {
  import opened Wrappers
  import opened Registry

  lemma {:induction false} FewerThanAll(phase: seq<Phase>, i: nat)
    requires i < |phase| && phase[i] != Sent
    ensures CountSent(phase) < |phase|
  {
    AtMostAll(phase[..|phase| - 1]);
    if i < |phase| - 1 {
      FewerThanAll(phase[..|phase| - 1], i);
    }
  }

  lemma {:induction false} AtMostAll(phase: seq<Phase>)
    ensures CountSent(phase) <= |phase| <= PhaseWork(phase)
    ensures CountSent(phase) == |phase| ==> PhaseWork(phase) == |phase|
    ensures CountSent(phase) == |phase| ==> forall i :: 0 <= i < |phase| ==> phase[i] == Sent
  {
    if phase != [] {
      AtMostAll(phase[..|phase| - 1]);
      assert forall i :: 0 <= i < |phase| - 1 ==> phase[i] == phase[..|phase| - 1][i];
    }
  }

  /** With room for every result no goroutine ever waits to send. */
  lemma SendNeverBlocks(c: Config, steps: seq<Step>, i: nat)
    requires Run(c, steps).Some? && c.capacity >= |c.outcome|
    requires i < |c.outcome| && Run(c, steps).value.phase[i] == HasResult
    ensures Enabled(c, Run(c, steps).value, Send(i))
  {
    var s := Run(c, steps).value;
    FewerThanAll(s.phase, i);
    assert |s.channel| <= |Received(s)|;
  }

  /** Until Stop returns some step can be taken. */
  lemma NoDeadlock(c: Config, steps: seq<Step>)
    requires Run(c, steps).Some? && (c.capacity > 0 || |c.outcome| == 0)
    ensures Done(c, Run(c, steps).value) || exists step :: Enabled(c, Run(c, steps).value, step)
  {
    var s := Run(c, steps).value;
    if s.spawned < |c.outcome| {
      assert Enabled(c, s, Spawn);
    } else if s.channel != [] {
      AtMostAll(s.phase);
      assert |Received(s)| == |s.got| + |s.channel|;
      assert Enabled(c, s, Receive);
    } else if i :| 0 <= i < |s.phase| && s.phase[i] != Sent {
      assert Enabled(c, s, StopReturns(i)) || Enabled(c, s, Send(i));
    } else {
      AllSent(s.phase);
      assert Received(s) == s.got;
    }
  }

  lemma {:induction false} AllSent(phase: seq<Phase>)
    requires forall i :: 0 <= i < |phase| ==> phase[i] == Sent
    ensures CountSent(phase) == |phase| == PhaseWork(phase)
  {
    if phase != [] {
      AllSent(phase[..|phase| - 1]);
    }
  }

  /** No run is longer than four steps a service, and the runs of that length are those after which Stop has returned
      and no goroutine is left behind. */
  lemma RunsEnd(c: Config, steps: seq<Step>)
    requires Run(c, steps).Some?
    ensures |steps| <= 4 * |c.outcome|
    ensures |steps| == 4 * |c.outcome| <==> Done(c, Run(c, steps).value)
    ensures Done(c, Run(c, steps).value) ==>
      forall i :: 0 <= i < |c.outcome| ==> Run(c, steps).value.phase[i] == Sent
  {
    var s := Run(c, steps).value;
    AtMostAll(s.phase);
    assert |Received(s)| == |s.got| + |s.channel|;
  }

  // ---- the returned error ----

  function NonNil(errs: seq<Option<Error>>): seq<Error> {
    if errs == [] then []
    else
      var init, last := NonNil(errs[..|errs| - 1]), errs[|errs| - 1];
      if last.Some? then init + [last.value] else init
  }

  /** errors.Join: nil values are dropped, and with none left the result is nil. */
  function Join(errs: seq<Option<Error>>): Option<seq<Error>> {
    if NonNil(errs) == [] then None else Some(NonNil(errs))
  }

  function AllServices(n: nat): (all: seq<nat>)
    ensures |all| == n
  {
    seq(n, i => i)
  }

  lemma {:induction false} NonNilOfSeeded(n: nat, errors: seq<Error>)
    ensures NonNil(Nils(n) + Somes(errors)) == errors
  {
    var all := Nils(n) + Somes(errors);
    if errors != [] {
      var init := errors[..|errors| - 1];
      NonNilOfSeeded(n, init);
      assert all[..|all| - 1] == Nils(n) + Somes(init);
    } else if n > 0 {
      NonNilOfSeeded(n - 1, []);
      assert all[..|all| - 1] == Nils(n - 1) + Somes([]);
    }
  }

  lemma {:induction false} ErrorsOfAppend(outcome: seq<Option<Error>>, a: seq<nat>, b: seq<nat>)
    ensures ErrorsOf(outcome, a + b) == ErrorsOf(outcome, a) + ErrorsOf(outcome, b)
  {
    if b == [] {
      assert a + b == a;
    } else {
      ErrorsOfAppend(outcome, a, b[..|b| - 1]);
      assert (a + b)[..|a + b| - 1] == a + b[..|b| - 1];
    }
  }

  /** The errors of a permutation of services are a permutation of their errors. */
  lemma {:induction false} ErrorsOfPermutation(outcome: seq<Option<Error>>, a: seq<nat>, b: seq<nat>)
    requires multiset(a) == multiset(b)
    ensures multiset(ErrorsOf(outcome, a)) == multiset(ErrorsOf(outcome, b))
    decreases |a|
  {
    if a == [] {
      assert |multiset(b)| == 0;
    } else {
      var init, x := a[..|a| - 1], a[|a| - 1];
      assert a == init + [x];
      assert x in multiset(b);
      var j :| 0 <= j < |b| && b[j] == x;
      var b1, b2 := b[..j], b[j + 1..];
      assert b == b1 + [x] + b2;
      SameRest(init, x, b1, b2);
      ErrorsOfPermutation(outcome, init, b1 + b2);
      ErrorsOfMoved(outcome, init, x, b1, b2);
    }
  }

  lemma SameRest(a: seq<nat>, x: nat, b1: seq<nat>, b2: seq<nat>)
    requires multiset(a + [x]) == multiset(b1 + [x] + b2)
    ensures multiset(a) == multiset(b1 + b2)
  {
    assert multiset(a) == multiset(a + [x]) - multiset{x};
    assert multiset(b1 + b2) == multiset(b1 + [x] + b2) - multiset{x};
  }

  lemma ErrorsOfMoved(outcome: seq<Option<Error>>, a: seq<nat>, x: nat, b1: seq<nat>, b2: seq<nat>)
    requires multiset(ErrorsOf(outcome, a)) == multiset(ErrorsOf(outcome, b1 + b2))
    ensures multiset(ErrorsOf(outcome, a + [x])) == multiset(ErrorsOf(outcome, b1 + [x] + b2))
  {
    hide ErrorsOf;
    ErrorsOfAppend(outcome, a, [x]);
    ErrorsOfAppend(outcome, b1, b2);
    ErrorsOfAppend(outcome, b1, [x]);
    ErrorsOfAppend(outcome, b1 + [x], b2);
  }

  lemma {:induction false} DistinctCoversAll(a: seq<nat>, n: nat)
    requires Distinct(a) && forall i: nat :: i in a <==> i < n
    ensures multiset(a) == multiset(AllServices(n))
  {
    var all := AllServices(n);
    forall i: nat ensures multiset(a)[i] == multiset(all)[i] {
      assert i < n ==> all[i] == i;
      DistinctCount(a, i);
      DistinctCount(all, i);
    }
  }

  lemma {:induction false} DistinctCount(a: seq<nat>, x: nat)
    requires Distinct(a)
    ensures multiset(a)[x] == if x in a then 1 else 0
  {
    if a != [] {
      assert a == a[..|a| - 1] + [a[|a| - 1]];
      DistinctCount(a[..|a| - 1], x);
    }
  }

  lemma {:induction false} NoErrorsIff(outcome: seq<Option<Error>>, n: nat)
    requires n <= |outcome|
    ensures ErrorsOf(outcome, AllServices(n)) == [] <==> forall i :: 0 <= i < n ==> outcome[i].None?
  {
    if n > 0 {
      NoErrorsIff(outcome, n - 1);
      assert AllServices(n)[..n - 1] == AllServices(n - 1);
    }
  }

  ghost function ServicesWith(outcome: seq<Option<Error>>, n: nat, x: Error): set<nat>
    requires n <= |outcome|
  {
    set i: nat | i < n && outcome[i] == Some(x)
  }

  lemma {:induction false} ErrorsCount(outcome: seq<Option<Error>>, n: nat, x: Error)
    requires n <= |outcome|
    ensures multiset(ErrorsOf(outcome, AllServices(n)))[x] == |ServicesWith(outcome, n, x)|
  {
    if n > 0 {
      hide ServicesWith;
      ErrorsCount(outcome, n - 1, x);
      ServicesGrow(outcome, n, x);
      assert AllServices(n)[..n - 1] == AllServices(n - 1);
    }
  }

  lemma ServicesGrow(outcome: seq<Option<Error>>, n: nat, x: Error)
    requires 0 < n <= |outcome|
    ensures |ServicesWith(outcome, n, x)|
      == |ServicesWith(outcome, n - 1, x)| + if outcome[n - 1] == Some(x) then 1 else 0
    ensures ServicesWith(outcome, 0, x) == {}
  {
    assert ServicesWith(outcome, n, x)
      == ServicesWith(outcome, n - 1, x) + if outcome[n - 1] == Some(x) then {n - 1} else {};
  }

  /** When Stop returns, in whatever order the goroutines ran, one result of every service was received, and the error
      holds the non-nil ones and nothing else, each as often as services returned it: it is nil exactly when every
      service stopped without error. */
  lemma StopJoinsAllErrors(c: Config, steps: seq<Step>)
    requires Run(c, steps).Some? && Done(c, Run(c, steps).value)
    ensures multiset(Run(c, steps).value.got) == multiset(AllServices(|c.outcome|))
    ensures multiset(NonNil(Run(c, steps).value.errs)) == multiset(ErrorsOf(c.outcome, AllServices(|c.outcome|)))
    ensures Join(Run(c, steps).value.errs).None? <==> forall i :: 0 <= i < |c.outcome| ==> c.outcome[i].None?
    ensures var joined := Join(Run(c, steps).value.errs);
      joined.Some? ==>
        forall x :: multiset(joined.value)[x] == |set i: nat | i < |c.outcome| && c.outcome[i] == Some(x)|
  {
    var s, n := Run(c, steps).value, |c.outcome|;
    RunsEnd(c, steps);
    AtMostAll(s.phase);
    assert s.channel == [] && Received(s) == s.got;
    assert forall i: nat :: i in s.got <==> i < n by {
      assert forall i: nat :: IsSent(s.phase, i) <==> i < n;
    }
    DistinctCoversAll(s.got, n);
    ErrorsOfPermutation(c.outcome, s.got, AllServices(n));
    NonNilOfSeeded(n, ErrorsOf(c.outcome, s.got));
    NoErrorsIff(c.outcome, n);
    assert |multiset(NonNil(s.errs))| == |multiset(ErrorsOf(c.outcome, AllServices(n)))|;
    forall x
      ensures multiset(ErrorsOf(c.outcome, AllServices(n)))[x]
        == |set i: nat | i < |c.outcome| && c.outcome[i] == Some(x)|
    {
      ErrorsCount(c.outcome, n, x);
      assert ServicesWith(c.outcome, n, x) == set i: nat | i < |c.outcome| && c.outcome[i] == Some(x);
    }
  }

  // ---- the room in the channel ----

  ghost predicate SendsAtOnce(c: Config, steps: seq<Step>) {
    Run(c, steps).Some? ==>
      forall i :: 0 <= i < |c.outcome| && Run(c, steps).value.phase[i] == HasResult ==>
        Enabled(c, Run(c, steps).value, Send(i))
  }

  function Mixed(n: nat, k: nat, done: Phase, rest: Phase): (phase: seq<Phase>)
    ensures |phase| == n
  {
    seq(n, i => if i < k then done else rest)
  }

  lemma MixedStep(n: nat, k: nat, done: Phase, rest: Phase)
    requires 0 < k <= n
    ensures Mixed(n, k - 1, done, rest)[k - 1] == rest
    ensures Mixed(n, k - 1, done, rest)[k - 1 := done] == Mixed(n, k, done, rest)
    ensures AllServices(k) == AllServices(k - 1) + [k - 1]
  {
  }

  lemma OneMoreStep(c: Config, steps: seq<Step>, step: Step)
    requires Run(c, steps).Some? && Enabled(c, Run(c, steps).value, step)
    ensures Run(c, steps + [step]) == Some(Apply(c, Run(c, steps).value, step))
  {
    assert (steps + [step])[..|steps|] == steps;
  }

  lemma {:induction false} AfterSpawning(c: Config, k: nat) returns (steps: seq<Step>)
    requires k <= |c.outcome|
    ensures Run(c, steps) == Some(State(Mixed(|c.outcome|, k, Stopping, NotStarted), k, [], [], Nils(|c.outcome|)))
  {
    if k == 0 {
      steps := [];
      assert Init(c).phase == Mixed(|c.outcome|, k, Stopping, NotStarted);
    } else {
      hide Mixed, Inv, Run;
      steps := AfterSpawning(c, k - 1);
      MixedStep(|c.outcome|, k, Stopping, NotStarted);
      OneMoreStep(c, steps, Spawn);
      steps := steps + [Spawn];
    }
  }

  lemma {:induction false} AfterStopping(c: Config, k: nat) returns (steps: seq<Step>)
    requires k <= |c.outcome|
    ensures var n := |c.outcome|; Run(c, steps) == Some(State(Mixed(n, k, HasResult, Stopping), n, [], [], Nils(n)))
  {
    var n := |c.outcome|;
    if k == 0 {
      steps := AfterSpawning(c, n);
      assert Mixed(n, n, Stopping, NotStarted) == Mixed(n, 0, HasResult, Stopping);
    } else {
      hide Mixed, Inv, Run;
      steps := AfterStopping(c, k - 1);
      MixedStep(n, k, HasResult, Stopping);
      OneMoreStep(c, steps, StopReturns(k - 1));
      steps := steps + [StopReturns(k - 1)];
    }
  }

  lemma {:induction false} AfterSending(c: Config, k: nat) returns (steps: seq<Step>)
    requires k <= |c.outcome| && k <= c.capacity
    ensures var n := |c.outcome|;
      Run(c, steps) == Some(State(Mixed(n, k, Sent, HasResult), n, AllServices(k), [], Nils(n)))
  {
    var n := |c.outcome|;
    if k == 0 {
      steps := AfterStopping(c, n);
      assert Mixed(n, n, HasResult, Stopping) == Mixed(n, 0, Sent, HasResult);
    } else {
      hide Mixed, Inv, Run, AllServices;
      steps := AfterSending(c, k - 1);
      MixedStep(n, k, Sent, HasResult);
      OneMoreStep(c, steps, Send(k - 1));
      steps := steps + [Send(k - 1)];
    }
  }

  /** Room for every service is exactly what it takes for no goroutine ever to wait. */
  lemma NeverBlocksIff(c: Config)
    ensures (forall steps :: SendsAtOnce(c, steps)) <==> c.capacity >= |c.outcome|
  {
    if c.capacity >= |c.outcome| {
      forall steps ensures SendsAtOnce(c, steps) {
        if Run(c, steps).Some? {
          forall i | 0 <= i < |c.outcome| && Run(c, steps).value.phase[i] == HasResult
            ensures Enabled(c, Run(c, steps).value, Send(i))
          {
            SendNeverBlocks(c, steps, i);
          }
        }
      }
    } else {
      var steps := AfterSending(c, c.capacity);
      assert Run(c, steps).value.phase[c.capacity] == HasResult;
      assert !SendsAtOnce(c, steps);
    }
  }
}
