/** Registry.Stop in pkg/registry/registry.go: one goroutine per service sends its result on a channel with room for
    len(services) results, and the caller receives len(services) of them. Any interleaving is a run of steps. */
module Registry {
  import opened Wrappers

  type Error = string

  /** What stopping each service returns, and the room in the channel. */
  datatype Config = Config(outcome: seq<Option<Error>>, capacity: nat)

  datatype Phase = NotStarted | Stopping | HasResult | Sent

  /** spawned: goroutines started by the first loop; channel and got: services whose results were sent and received;
      errs: the slice the second loop appends to. */
  datatype State = State(phase: seq<Phase>, spawned: nat, channel: seq<nat>, got: seq<nat>, errs: seq<Option<Error>>)

  datatype Step = Spawn | StopReturns(i: nat) | Send(i: nat) | Receive

  function Nils(n: nat): seq<Option<Error>> {
    seq(n, i => None)
  }

  function Init(c: Config): State {
    State(seq(|c.outcome|, i => NotStarted), 0, [], [], Nils(|c.outcome|))
  }

  predicate Enabled(c: Config, s: State, step: Step) {
    match step
    case Spawn => s.spawned < |c.outcome|
    case StopReturns(i) => i < |s.phase| && s.phase[i] == Stopping
    case Send(i) => i < |s.phase| && s.phase[i] == HasResult && |s.channel| < c.capacity
    case Receive => s.spawned == |c.outcome| && |s.got| < |c.outcome| && s.channel != []
  }

  function Apply(c: Config, s: State, step: Step): State
    requires Inv(c, s) && Enabled(c, s, step)
  {
    match step
    case Spawn => s.(phase := s.phase[s.spawned := Stopping], spawned := s.spawned + 1)
    case StopReturns(i) => s.(phase := s.phase[i := HasResult])
    case Send(i) => s.(phase := s.phase[i := Sent], channel := s.channel + [i])
    case Receive =>
      var i := s.channel[0];
      FirstIsSent(s);
      var err := c.outcome[i];
      s.(channel := s.channel[1..], got := s.got + [i], errs := if err.Some? then s.errs + [err] else s.errs)
  }

  // ---- the invariant ----

  function Received(s: State): seq<nat> {
    s.got + s.channel
  }

  predicate Distinct(a: seq<nat>) {
    forall i, j :: 0 <= i < j < |a| ==> a[i] != a[j]
  }

  /** The non-nil results of the services received, in the order received. */
  function ErrorsOf(outcome: seq<Option<Error>>, got: seq<nat>): seq<Error> {
    if got == [] then []
    else
      var init, i := ErrorsOf(outcome, got[..|got| - 1]), got[|got| - 1];
      if i < |outcome| && outcome[i].Some? then init + [outcome[i].value] else init
  }

  function Somes(errors: seq<Error>): seq<Option<Error>> {
    seq(|errors|, i requires 0 <= i < |errors| => Some(errors[i]))
  }

  function CountSent(phase: seq<Phase>): nat {
    if phase == [] then 0 else CountSent(phase[..|phase| - 1]) + (if phase[|phase| - 1] == Sent then 1 else 0)
  }

  predicate IsSent(phase: seq<Phase>, i: nat) {
    i < |phase| && phase[i] == Sent
  }

  /** A result is in the channel or received exactly when its goroutine has sent it, and then once. */
  ghost predicate SentOnce(phase: seq<Phase>, received: seq<nat>) {
    && Distinct(received)
    && (forall i: nat :: i in received <==> IsSent(phase, i))
    && |received| == CountSent(phase)
  }

  ghost predicate SpawnedInOrder(phase: seq<Phase>, spawned: nat) {
    spawned <= |phase| && forall i :: 0 <= i < |phase| ==> (phase[i] == NotStarted <==> i >= spawned)
  }

  ghost predicate Inv(c: Config, s: State) {
    && |s.phase| == |c.outcome|
    && SpawnedInOrder(s.phase, s.spawned)
    && SentOnce(s.phase, Received(s))
    && s.errs == Nils(|c.outcome|) + Somes(ErrorsOf(c.outcome, s.got))
  }

  lemma FirstIsSent(s: State)
    requires SentOnce(s.phase, Received(s)) && s.channel != []
    ensures s.channel[0] < |s.phase|
  {
    assert Received(s)[|s.got|] == s.channel[0];
    assert IsSent(s.phase, s.channel[0]);
  }

  lemma {:induction false} InitInv(c: Config)
    ensures Inv(c, Init(c)) && Work(Init(c)) == 4 * |c.outcome|
  {
    NoneSent(|c.outcome|);
  }

  lemma {:induction false} NoneSent(n: nat)
    ensures var phase := seq(n, i => NotStarted); CountSent(phase) == 0 && PhaseWork(phase) == 4 * n
  {
    if n > 0 {
      NoneSent(n - 1);
      assert seq(n, i => NotStarted)[..n - 1] == seq(n - 1, i => NotStarted);
    }
  }

  lemma {:induction false} SetPhase(phase: seq<Phase>, i: nat, p: Phase)
    requires i < |phase|
    ensures CountSent(phase[i := p]) ==
      CountSent(phase) + (if p == Sent then 1 else 0) - (if phase[i] == Sent then 1 else 0)
    ensures PhaseWork(phase[i := p]) == PhaseWork(phase) + Left(p) - Left(phase[i])
  {
    var init := phase[..|phase| - 1];
    if i < |phase| - 1 {
      SetPhase(init, i, p);
      assert phase[i := p][..|phase| - 1] == init[i := p];
    } else {
      assert phase[i := p][..|phase| - 1] == init;
    }
  }

  lemma OneMoreSent(phase: seq<Phase>, received: seq<nat>, i: nat)
    requires SentOnce(phase, received) && i < |phase| && phase[i] != Sent
    ensures SentOnce(phase[i := Sent], received + [i])
  {
    SetPhase(phase, i, Sent);
    assert !IsSent(phase, i);
  }

  lemma NoneMoreSent(phase: seq<Phase>, received: seq<nat>, i: nat, p: Phase)
    requires SentOnce(phase, received) && i < |phase| && phase[i] != Sent && p != Sent
    ensures SentOnce(phase[i := p], received)
  {
    SetPhase(phase, i, p);
    assert forall k: nat :: IsSent(phase[i := p], k) <==> IsSent(phase, k);
  }

  lemma ErrorsOneMore(outcome: seq<Option<Error>>, got: seq<nat>, i: nat)
    requires i < |outcome|
    ensures Somes(ErrorsOf(outcome, got + [i])) ==
      Somes(ErrorsOf(outcome, got)) + (if outcome[i].Some? then [outcome[i]] else [])
  {
    assert (got + [i])[..|got|] == got;
  }

  /** Every step keeps the invariant, and takes one unit of work. */
  lemma StepKeepsInv(c: Config, s: State, step: Step)
    requires Inv(c, s) && Enabled(c, s, step)
    ensures Inv(c, Apply(c, s, step)) && Work(Apply(c, s, step)) == Work(s) - 1
  {
    hide SentOnce, Nils, Somes, ErrorsOf, CountSent, PhaseWork;
    match step
    case Spawn =>
      SetPhase(s.phase, s.spawned, Stopping);
      NoneMoreSent(s.phase, Received(s), s.spawned, Stopping);
    case StopReturns(i) =>
      SetPhase(s.phase, i, HasResult);
      NoneMoreSent(s.phase, Received(s), i, HasResult);
    case Send(i) =>
      SetPhase(s.phase, i, Sent);
      OneMoreSent(s.phase, Received(s), i);
      assert s.got + (s.channel + [i]) == Received(s) + [i];
    case Receive =>
      FirstIsSent(s);
      assert s.got + [s.channel[0]] + s.channel[1..] == Received(s);
      ErrorsOneMore(c.outcome, s.got, s.channel[0]);
  }

  // ---- runs ----

  /** The work left: spawning, stopping, sending and receiving, for every service. */
  function Left(p: Phase): nat {
    match p case NotStarted => 4 case Stopping => 3 case HasResult => 2 case Sent => 1
  }

  function PhaseWork(phase: seq<Phase>): nat {
    if phase == [] then 0 else PhaseWork(phase[..|phase| - 1]) + Left(phase[|phase| - 1])
  }

  function Work(s: State): int {
    PhaseWork(s.phase) - |s.got|
  }

  /** The state a sequence of steps leads to, if each is enabled in its turn. */
  ghost function Run(c: Config, steps: seq<Step>): (r: Option<State>)
    ensures r.Some? ==> Inv(c, r.value) && |steps| + Work(r.value) == 4 * |c.outcome|
  {
    if steps == [] then
      InitInv(c);
      Some(Init(c))
    else
      var before := Run(c, steps[..|steps| - 1]);
      var step := steps[|steps| - 1];
      if before.Some? && Enabled(c, before.value, step) then
        StepKeepsInv(c, before.value, step);
        Some(Apply(c, before.value, step))
      else None
  }

  /** Stop returns when as many results as services were received. */
  predicate Done(c: Config, s: State) {
    s.spawned == |c.outcome| && |s.got| == |c.outcome|
  }
}
