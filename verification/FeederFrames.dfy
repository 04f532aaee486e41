/** Whose frame is shown: what a read gives is told by the steps of the run alone,
    by which copy ended last in the mapping and with what it was begun. */
module FeederFrames {
  import opened Wrappers
  import opened Octets
  import opened SharedHeap
  import opened FeederProtocol
  import opened FeederInvariants
  import opened FeederTheorems
  import opened FeederCounter

  // -------------------------------------------------------- the copy under way

  predicate Begins(step: Step, p: nat) {
    step.BeginWrite? && step.p == p
  }

  /** The step with which a process began its last copy. */
  function LastBegin(steps: seq<Step>, p: nat): (last: Option<nat>)
    ensures last.Some? ==> last.value < |steps| && Begins(steps[last.value], p)
    ensures forall i :: 0 <= i < |steps| && Begins(steps[i], p) ==> last.Some? && i <= last.value
  {
    if steps == [] then None
    else
      var n := |steps| - 1;
      if Begins(steps[n], p) then Some(n) else LastBegin(steps[..n], p)
  }

  /** What the last copy of the process carries. */
  function Carried(steps: seq<Step>, p: nat): Option<Payload> {
    match LastBegin(steps, p)
    case None => None
    case Some(i) => Some(steps[i].payload)
  }

  lemma CarriedNext(steps: seq<Step>, n: nat, p: nat)
    requires n < |steps|
    ensures Carried(steps[..n + 1], p)
         == if Begins(steps[n], p) then Some(steps[n].payload) else Carried(steps[..n], p)
  {
    assert steps[..n + 1][..n] == steps[..n];
  }

  /** A process in the middle of a copy copies what it began it with. */
  predicate CarriesRight(a: Agent, carried: Option<Payload>) {
    a.duty.Writing? ==> |a.duty.frame| == HEAP_LEN && carried == Some(a.duty.frame[4..])
  }

  predicate CarriesOf(agents: map<nat, Agent>, steps: seq<Step>, p: nat) {
    p in agents ==> CarriesRight(agents[p], Carried(steps, p))
  }

  ghost predicate AllCarry(s: State, steps: seq<Step>) {
    forall p :: CarriesOf(s.agents, steps, p)
  }

  lemma StillWriting(s: State, step: Step)
    requires Enabled(s, step) && !step.Spawn? && !step.Exit? && !step.BeginWrite?
    requires NextAgent(s, step).duty.Writing?
    ensures s.agents[step.p].duty.Writing?
    ensures NextAgent(s, step).duty.frame == s.agents[step.p].duty.frame
  {
  }

  lemma ActorCarries(s: State, step: Step, carried: Option<Payload>)
    requires Enabled(s, step) && !step.Exit?
    requires step.Spawn? || CarriesRight(s.agents[step.p], carried)
    ensures CarriesRight(NextAgent(s, step), if step.BeginWrite? then Some(step.payload) else carried)
  {
    if !step.Spawn? && !step.BeginWrite? && NextAgent(s, step).duty.Writing? {
      StillWriting(s, step);
    }
  }

  lemma CarryOn(s: State, s1: State, steps: seq<Step>, n: nat)
    requires n < |steps| && Enabled(s, steps[n]) && AllCarry(s, steps[..n])
    requires s1 == Act(s, steps[n])
    ensures AllCarry(s1, steps[..n + 1])
  {
    var step, more := steps[n], steps[..n + 1];
    forall p ensures CarriesOf(s1.agents, more, p) {
      CarriedNext(steps, n, p);
      assert CarriesOf(s.agents, steps[..n], p);
      if p != Actor(s, step) {
        OthersLive(s, step, p);
        if p in s.agents {
          OthersStay(s, step, p);
        }
      } else if !step.Exit? {
        ActorCarries(s, step, Carried(steps[..n], p));
      }
    }
  }

  lemma {:induction false} AllCarryOn(states: seq<State>, steps: seq<Step>, n: nat)
    requires IsRun(states, steps) && n < |states|
    ensures AllCarry(states[n], steps[..n])
  {
    if n > 0 {
      AllCarryOn(states, steps, n - 1);
      var s1 := Act(states[n - 1], steps[n - 1]);
      CarryOn(states[n - 1], s1, steps, n - 1);
      assert states[n] == Collected(s1);
    }
  }

  // ------------------------------------------------------- the last frame of all

  /** Step `i` ends a copy into mapping `x`. */
  predicate EndsInto(states: seq<State>, steps: seq<Step>, i: nat, x: nat) {
    && i < |steps| && i < |states| && steps[i].EndWrite? && steps[i].p in states[i].agents
    && DutySection(states[i].agents[steps[i].p]) == Some(x)
  }

  /** The last of the first `n` steps that does. */
  function LastEnd(states: seq<State>, steps: seq<Step>, n: nat, x: nat): (last: Option<nat>)
    ensures last.Some? ==> last.value < n && EndsInto(states, steps, last.value, x)
    ensures forall i: nat :: i < n && EndsInto(states, steps, i, x) ==> last.Some? && i <= last.value
  {
    if n == 0 then None
    else if EndsInto(states, steps, n - 1, x) then Some(n - 1)
    else LastEnd(states, steps, n - 1, x)
  }

  /** These are the bytes the copy ended at step `i` was begun with, under a counter
      for how often its process had called `publish`. */
  predicate PublishedAt(steps: seq<Step>, i: nat, bytes: Bytes)
    requires i < |steps| && steps[i].EndWrite?
  {
    && |bytes| == HEAP_LEN && Carried(steps[..i], steps[i].p) == Some(bytes[4..])
    && DataId(bytes) == IdAfter(Calls(steps[..i], steps[i].p))
  }

  /** `frame` is what the last copy into `x` brought; nothing, if none ended. */
  ghost predicate LastFrame(states: seq<State>, steps: seq<Step>, n: nat, x: nat, frame: Option<Bytes>) {
    match LastEnd(states, steps, n, x)
    case None => frame == None
    case Some(i) => frame.Some? && PublishedAt(steps, i, frame.value)
  }

  function LatestIn(s: State, x: nat): Option<Bytes> {
    if x in s.sections then s.sections[x].latest else None
  }

  lemma ExitKeepsLatest(s: State, p: nat, x: nat)
    requires p in s.agents
    ensures LatestIn(DoExit(s, p), x) == LatestIn(s, x)
  {
  }

  lemma AroundKeepsLatest(s: State, step: Step, x: nat)
    requires Inv(s) && Enabled(s, step) && !step.EndWrite?
    ensures LatestIn(Around(s, step), x) == LatestIn(s, x)
  {
    if step.CreateMapping? {
      MoreMade(s);
    } else if !step.WriteByte? {
      AroundLeavesSections(s, step);
    }
  }

  lemma LatestNext(s: State, step: Step, x: nat)
    requires Inv(s) && Enabled(s, step)
    ensures LatestIn(Act(s, step), x)
         == if step.EndWrite? && s.agents[step.p].duty.section == x
            then Some(s.agents[step.p].duty.frame) else LatestIn(s, x)
  {
    if step.Exit? {
      ExitKeepsLatest(s, step.p, x);
    } else if !step.EndWrite? {
      AroundKeepsLatest(s, step, x);
    }
  }

  lemma LatestCollected(s: State, x: nat)
    ensures LatestIn(Collected(s), x) == LatestIn(s, x)
  {
  }

  lemma EndPublishes(states: seq<State>, steps: seq<Step>, i: nat)
    requires IsRun(states, steps) && i < |steps| && steps[i].EndWrite?
    ensures PublishedAt(steps, i, states[i].agents[steps[i].p].duty.frame)
  {
    var p := steps[i].p;
    AllCarryOn(states, steps, i);
    CountersRightOn(states, steps, i);
    assert CarriesOf(states[i].agents, steps[..i], p);
    assert CounterOf(states[i].agents, steps[..i], p);
  }

  lemma LatestNow(states: seq<State>, steps: seq<Step>, n: nat, x: nat)
    requires IsRun(states, steps) && n < |steps|
    ensures LatestIn(states[n + 1], x)
         == if EndsInto(states, steps, n, x) then Some(states[n].agents[steps[n].p].duty.frame)
            else LatestIn(states[n], x)
  {
    RunsKeep(states, steps, n);
    var s1 := Act(states[n], steps[n]);
    LatestNext(states[n], steps[n], x);
    LatestCollected(s1, x);
    assert states[n + 1] == Collected(s1);
  }

  /** What step `n` makes of the last frame. */
  ghost predicate Advances(states: seq<State>, steps: seq<Step>, n: nat, x: nat) {
    && n + 1 < |states|
    && var after := LatestIn(states[n + 1], x);
       if EndsInto(states, steps, n, x) then after.Some? && PublishedAt(steps, n, after.value)
       else after == LatestIn(states[n], x)
  }

  lemma FrameAdvances(states: seq<State>, steps: seq<Step>, n: nat, x: nat)
    requires IsRun(states, steps) && n < |steps|
    ensures Advances(states, steps, n, x)
  {
    LatestNow(states, steps, n, x);
    if EndsInto(states, steps, n, x) {
      EndPublishes(states, steps, n);
    }
  }

  lemma {:induction false} AdvancedTo(states: seq<State>, steps: seq<Step>, n: nat, x: nat)
    requires n < |states| && LatestIn(states[0], x) == None
    requires forall k: nat :: k < n ==> Advances(states, steps, k, x)
    ensures LastFrame(states, steps, n, x, LatestIn(states[n], x))
  {
    if n > 0 {
      var m: nat := n - 1;
      AdvancedTo(states, steps, m, x);
      assert Advances(states, steps, m, x);
    }
  }

  lemma LatestIsLastFrame(states: seq<State>, steps: seq<Step>, n: nat, x: nat)
    requires IsRun(states, steps) && n < |states|
    ensures LastFrame(states, steps, n, x, LatestIn(states[n], x))
  {
    forall k: nat | k < n ensures Advances(states, steps, k, x) {
      FrameAdvances(states, steps, k, x);
    }
    AdvancedTo(states, steps, n, x);
  }

  /** Of a run told by its steps alone: where no writer dies half way, a read with
      the mutex gives the bytes with which the copy was begun that ended last in
      the mapping, after a counter for how often its process had published; and
      nothing where none ended. */
  lemma HeldReadShowsLastFrame(states: seq<State>, steps: seq<Step>, n: nat, p: nat)
    requires IsRun(states, steps) && n < |states| && WritersSurvive(states, steps)
    requires p in states[n].agents && ReadWhole(states[n].agents[p], true)
    ensures LastFrame(states, steps, n, states[n].agents[p].cache.section,
                      Published(states[n].agents[p].reader.out))
  {
    HeldReadsAreWhole(states, steps, n, p);
    LatestIsLastFrame(states, steps, n, states[n].agents[p].cache.section);
  }

  /** And after a takeover in a session, the consumers there that opened the mapping
      before it find in it what the new provider's copy was begun with. */
  lemma TakeoverShowsItsFrame(states: seq<State>, steps: seq<Step>, i: nat, j: nat, p: nat)
    requires IsRun(states, steps) && i <= j < |steps| && steps[j].EndWrite?
    requires p in states[i].agents && states[i].agents[p].cache.Opened? && p in states[j].agents
    requires states[j].agents[steps[j].p].session == states[i].agents[p].session
    ensures var x := states[i].agents[p].cache.section;
      x in states[j + 1].sections && PublishedAt(steps, j, states[j + 1].sections[x].bytes)
  {
    TakeoverReachesCache(states, steps, i, j, p);
    EndPublishes(states, steps, j);
  }
}
