/** The counter that consumers watch, over runs of the protocol: what it shows
    after each published frame, and when two frames show the same. */
module FeederCounter {
  import opened Wrappers
  import opened Octets
  import opened SharedHeap
  import opened FeederProtocol
  import opened FeederInvariants
  import opened FeederTheorems

  /** A call of `publish`, whether or not its wait for the mutex succeeds. */
  predicate IsCall(step: Step, p: nat) {
    (step.BeginWrite? || step.SkipWrite?) && step.p == p
  }

  /** How many times a process called it. */
  function Calls(steps: seq<Step>, p: nat): nat {
    if steps == [] then 0
    else Calls(steps[..|steps| - 1], p) + if IsCall(steps[|steps| - 1], p) then 1 else 0
  }

  lemma CallsNext(steps: seq<Step>, n: nat, p: nat)
    requires n < |steps|
    ensures Calls(steps[..n + 1], p) == Calls(steps[..n], p) + if IsCall(steps[n], p) then 1 else 0
  {
    assert steps[..n + 1][..n] == steps[..n];
  }

  /** The counter of a process tells its calls; one that cannot publish made none. */
  predicate CounterRight(a: Agent, calls: nat) {
    if CanPublish(a) then
      && a.duty.id == IdAfter(calls)
      && (a.duty.Writing? ==> |a.duty.frame| == HEAP_LEN && DataId(a.duty.frame) == a.duty.id)
    else calls == 0
  }

  predicate CounterOf(agents: map<nat, Agent>, steps: seq<Step>, p: nat) {
    p in agents ==> CounterRight(agents[p], Calls(steps, p))
  }

  predicate NotYet(spawned: nat, steps: seq<Step>, p: nat) {
    p >= spawned ==> Calls(steps, p) == 0
  }

  ghost predicate CountersRight(s: State, steps: seq<Step>) {
    && (forall p :: CounterOf(s.agents, steps, p))
    && forall p :: NotYet(s.spawned, steps, p)
  }

  lemma BeginCounts(s: State, p: nat, payload: Payload, calls: nat)
    requires Inv(s) && Enabled(s, BeginWrite(p, payload)) && CounterRight(s.agents[p], calls)
    ensures CounterRight(NextAgent(s, BeginWrite(p, payload)), calls + 1)
  {
    DataIdReadsBack(NextDataId(IdAfter(calls)), payload);
  }

  /** What a call makes of the counter, and every other step leaves it. */
  lemma CallCounts(s: State, step: Step, calls: nat)
    requires Inv(s) && Enabled(s, step) && OfWriting(step)
    requires CounterRight(s.agents[step.p], calls)
    ensures CounterRight(NextAgent(s, step), calls + if IsCall(step, step.p) then 1 else 0)
  {
    if step.BeginWrite? {
      BeginCounts(s, step.p, step.payload, calls);
    }
  }

  lemma CreatingCounts(s: State, step: Step, calls: nat)
    requires Inv(s) && Enabled(s, step) && OfCreating(step)
    requires CounterRight(s.agents[step.p], calls)
    ensures CounterRight(NextAgent(s, step), calls)
  {
    AgentIsRight(s, step.p);
  }

  lemma FeederCounts(s: State, step: Step, calls: nat)
    requires Inv(s) && Enabled(s, step) && OfFeeder(step) && !step.Spawn? && !step.Exit?
    requires CounterRight(s.agents[step.p], calls)
    ensures CounterRight(NextAgent(s, step), calls)
  {
    AgentIsRight(s, step.p);
  }

  lemma ReaderCounts(s: State, step: Step, calls: nat)
    requires Inv(s) && Enabled(s, step)
    requires !OfFeeder(step) && !OfCreating(step) && !OfWriting(step)
    requires CounterRight(s.agents[step.p], calls)
    ensures CounterRight(NextAgent(s, step), calls)
  {
  }

  lemma SpawnedCounts(s: State, step: Step)
    requires Enabled(s, step) && step.Spawn?
    ensures CounterRight(NextAgent(s, step), 0)
  {
  }

  /** The process that takes the step, its call counted if that is what it is. */
  lemma ActorCounts(s: State, step: Step, calls: nat)
    requires Inv(s) && Enabled(s, step) && !step.Exit? && !step.Spawn?
    requires CounterRight(s.agents[step.p], calls)
    ensures CounterRight(NextAgent(s, step), calls + if IsCall(step, step.p) then 1 else 0)
  {
    if OfFeeder(step) {
      FeederCounts(s, step, calls);
    } else if OfCreating(step) {
      CreatingCounts(s, step, calls);
    } else if OfWriting(step) {
      CallCounts(s, step, calls);
    } else {
      ReaderCounts(s, step, calls);
    }
  }

  lemma ActorStays(s: State, steps: seq<Step>, n: nat)
    requires n < |steps| && Inv(s) && Enabled(s, steps[n]) && CountersRight(s, steps[..n])
    requires !steps[n].Exit?
    ensures CounterRight(NextAgent(s, steps[n]), Calls(steps[..n + 1], Actor(s, steps[n])))
  {
    var step := steps[n];
    CallsNext(steps, n, Actor(s, step));
    if step.Spawn? {
      assert NotYet(s.spawned, steps[..n], s.spawned);
      SpawnedCounts(s, step);
    } else {
      assert CounterOf(s.agents, steps[..n], step.p);
      ActorCounts(s, step, Calls(steps[..n], step.p));
    }
  }

  lemma OtherStays(s: State, steps: seq<Step>, n: nat, p: nat)
    requires n < |steps| && Inv(s) && Enabled(s, steps[n]) && CountersRight(s, steps[..n])
    requires p != Actor(s, steps[n])
    ensures CounterOf(Act(s, steps[n]).agents, steps[..n + 1], p)
    ensures NotYet(Act(s, steps[n]).spawned, steps[..n + 1], p)
  {
    CallsNext(steps, n, p);
    OthersLive(s, steps[n], p);
    if p in s.agents {
      OthersStay(s, steps[n], p);
    }
    SpawnedAfter(s, steps[n]);
    assert CounterOf(s.agents, steps[..n], p) && NotYet(s.spawned, steps[..n], p);
  }

  lemma CountersStay(s: State, s1: State, steps: seq<Step>, n: nat)
    requires n < |steps| && Inv(s) && Enabled(s, steps[n]) && CountersRight(s, steps[..n])
    requires s1 == Act(s, steps[n])
    ensures CountersRight(s1, steps[..n + 1])
  {
    var step, more := steps[n], steps[..n + 1];
    ActorIsNamed(s, step);
    if !step.Exit? {
      ActorStays(s, steps, n);
    }
    forall p ensures CounterOf(s1.agents, more, p) {
      if p != Actor(s, step) {
        OtherStays(s, steps, n, p);
      }
    }
    forall p ensures NotYet(s1.spawned, more, p) {
      if p != Actor(s, step) {
        OtherStays(s, steps, n, p);
      }
    }
  }

  lemma NothingCalled(steps: seq<Step>)
    requires steps == []
    ensures CountersRight(INITIAL, steps)
  {
  }

  lemma {:induction false} CountersRightOn(states: seq<State>, steps: seq<Step>, n: nat)
    requires IsRun(states, steps) && n < |states|
    ensures CountersRight(states[n], steps[..n])
  {
    if n > 0 {
      CountersRightOn(states, steps, n - 1);
      RunsKeep(states, steps, n - 1);
      var s1 := Act(states[n - 1], steps[n - 1]);
      CountersStay(states[n - 1], s1, steps, n - 1);
      assert states[n] == Collected(s1);
    } else {
      NothingCalled(steps[..0]);
    }
  }

  // --------------------------------------------------------- what a frame shows

  /** A frame has been copied in to its end: the counter a consumer then finds. */
  function ShownId(s: State, x: nat): Option<nat> {
    if x in s.sections && |s.sections[x].bytes| == HEAP_LEN then Some(DataId(s.sections[x].bytes))
    else None
  }

  /** The calls of the process that ends a copy, up to then. */
  function CallsAt(steps: seq<Step>, i: nat): nat
    requires i < |steps| && steps[i].EndWrite?
  {
    Calls(steps[..i], steps[i].p)
  }

  /** The mapping a copy ends in. */
  function EndsIn(states: seq<State>, steps: seq<Step>, i: nat): nat
    requires i < |steps| && i < |states| && steps[i].EndWrite? && Enabled(states[i], steps[i])
  {
    states[i].agents[steps[i].p].duty.section
  }

  lemma EndShows(s: State, p: nat)
    requires Inv(s) && Enabled(s, EndWrite(p))
    ensures var duty := s.agents[p].duty;
      ShownId(Next(s, EndWrite(p)), duty.section) == Some(DataId(duty.frame))
  {
    FrameIsWhole(s, p);
  }

  lemma FrameShows(states: seq<State>, steps: seq<Step>, i: nat)
    requires IsRun(states, steps) && i < |steps| && steps[i].EndWrite?
    ensures ShownId(states[i + 1], EndsIn(states, steps, i)) == Some(IdAfter(CallsAt(steps, i)))
    ensures CallsAt(steps, i) > 0
  {
    var s, p := states[i], steps[i].p;
    RunsKeep(states, steps, i);
    CountersRightOn(states, steps, i);
    EndShows(s, p);
    assert CounterOf(s.agents, steps[..i], p);
    assert states[i + 1] == Next(s, EndWrite(p));
  }

  /** Two frames, of whichever processes and into whichever mappings, show the
      same counter if and only if their processes had called `publish` equally
      often by then, up to whole turns of the counter. */
  lemma CounterRepeatsExactly(states: seq<State>, steps: seq<Step>, i: nat, j: nat)
    requires IsRun(states, steps) && i < |steps| && j < |steps|
    requires steps[i].EndWrite? && steps[j].EndWrite?
    ensures ShownId(states[i + 1], EndsIn(states, steps, i))
         == ShownId(states[j + 1], EndsIn(states, steps, j))
       <==> (CallsAt(steps, i) - CallsAt(steps, j)) % (DATA_ID_WRAP - 1) == 0
  {
    FrameShows(states, steps, i);
    FrameShows(states, steps, j);
    SameId(CallsAt(steps, i), CallsAt(steps, j));
  }

  // ---------------------------------------------------------------- one process

  lemma {:induction false} CallsGrow(steps: seq<Step>, i: nat, j: nat, p: nat)
    requires i <= j <= |steps|
    ensures Calls(steps[..i], p) <= Calls(steps[..j], p) <= Calls(steps[..i], p) + (j - i)
    decreases j
  {
    if i < j {
      CallsGrow(steps, i, j - 1, p);
      CallsNext(steps, j - 1, p);
    }
  }

  /** A process that is not writing can only end a copy after it called. */
  lemma {:induction false} CallBefore(states: seq<State>, steps: seq<Step>, i: nat, j: nat, p: nat)
    requires IsRun(states, steps) && i <= j < |states|
    requires p in states[i].agents && !states[i].agents[p].duty.Writing?
    requires p in states[j].agents && states[j].agents[p].duty.Writing?
    ensures Calls(steps[..j], p) > Calls(steps[..i], p)
    decreases j
  {
    var s, step := states[j - 1], steps[j - 1];
    assert states[j] == Next(s, step);
    RunsKeep(states, steps, i);
    RunsKeep(states, steps, j - 1);
    MoreNames(states, steps, i, j - 1);
    AgentIsRight(states[i], p);
    WasThere(s, step, p);
    CallsNext(steps, j - 1, p);
    if s.agents[p].duty.Writing? {
      CallBefore(states, steps, i, j - 1, p);
    } else {
      CallsGrow(steps, i, j - 1, p);
      if p != Actor(s, step) {
        OthersStay(s, step, p);
      }
      BecomesWriting(s, step);
    }
  }

  lemma BecomesWriting(s: State, step: Step)
    requires Enabled(s, step) && !step.Spawn? && !step.Exit?
    requires NextAgent(s, step).duty.Writing? && !s.agents[step.p].duty.Writing?
    ensures step.BeginWrite?
  {
  }

  /** One process shows the same counter again only once it has called `publish`
      as often as takes the counter round, and then exactly at whole turns. */
  lemma OneProcessRepeats(states: seq<State>, steps: seq<Step>, i: nat, j: nat)
    requires IsRun(states, steps) && i < j < |steps|
    requires steps[i].EndWrite? && steps[j] == steps[i]
    ensures var calls := CallsAt(steps, j) - CallsAt(steps, i);
      && calls > 0
      && (ShownId(states[i + 1], EndsIn(states, steps, i))
          == ShownId(states[j + 1], EndsIn(states, steps, j))
          <==> calls % (DATA_ID_WRAP - 1) == 0)
  {
    var p := steps[i].p;
    assert states[i + 1] == Next(states[i], steps[i]);
    CallsNext(steps, i, p);
    CallBefore(states, steps, i + 1, j, p);
    CounterRepeatsExactly(states, steps, j, i);
  }

  // ---------------------------------------------------------- one takeover, told

  datatype Trace = Trace(states: seq<State>, steps: seq<Step>)

  ghost predicate Runs(t: Trace) {
    IsRun(t.states, t.steps)
  }

  function Last(t: Trace): State
    requires t.states != []
  {
    t.states[|t.states| - 1]
  }

  /** A run that goes on from another, ending no copy. */
  predicate GoesOn(t: Trace, t1: Trace) {
    && t.states <= t1.states && t.steps <= t1.steps
    && forall i :: |t.steps| <= i < |t1.steps| ==> !t1.steps[i].EndWrite?
  }

  lemma GoesOnOn(t: Trace, t1: Trace, t2: Trace)
    requires GoesOn(t, t1) && GoesOn(t1, t2)
    ensures GoesOn(t, t2)
  {
    forall i | |t.steps| <= i < |t2.steps| ensures !t2.steps[i].EndWrite? {
      assert i < |t1.steps| ==> t2.steps[i] == t1.steps[i];
    }
  }

  /** What is known of the state a run has come to. */
  ghost predicate At(t: Trace, agents: map<nat, Agent>, port: Option<nat>, spawned: nat) {
    && Runs(t)
    && Last(t).agents == agents && Last(t).port == port && Last(t).spawned == spawned
  }

  function AgentsAfter(s: State, step: Step): map<nat, Agent>
    requires Enabled(s, step)
  {
    if step.Exit? then s.agents - {step.p} else s.agents[Actor(s, step) := NextAgent(s, step)]
  }

  lemma GoOn(t: Trace, step: Step) returns (t1: Trace)
    requires Runs(t) && Enabled(Last(t), step)
    ensures At(t1, AgentsAfter(Last(t), step), Act(Last(t), step).port, Act(Last(t), step).spawned)
    ensures t1.steps == t.steps + [step] && t.states <= t1.states
    ensures !step.EndWrite? ==> GoesOn(t, t1)
  {
    OneStepMore(t.states, t.steps, step);
    t1 := Trace(t.states + [Next(Last(t), step)], t.steps + [step]);
  }

  lemma RunIsRight(t: Trace)
    requires Runs(t)
    ensures Inv(Last(t)) && OwnersLive(Last(t))
  {
    RunsKeep(t.states, t.steps, |t.steps|);
    OwnersLiveOn(t.states, t.steps, |t.steps|);
  }

  lemma SetTwice(agents: map<nat, Agent>, p: nat, a: Agent, b: Agent)
    ensures agents[p := a][p := b] == agents[p := b]
  {
  }

  function Copied(a: Agent, done: nat): Agent
    requires a.duty.Writing?
  {
    a.(duty := a.duty.(done := done))
  }

  lemma ByteMore(t: Trace, agents: map<nat, Agent>, port: Option<nat>, spawned: nat, p: nat)
    returns (t1: Trace)
    requires At(t, agents, port, spawned) && p in agents && agents[p].duty.Writing?
    requires agents[p].duty.done < HEAP_LEN
    ensures At(t1, agents[p := Copied(agents[p], agents[p].duty.done + 1)], port, spawned)
    ensures GoesOn(t, t1)
  {
    RunIsRight(t);
    AgentIsRight(Last(t), p);
    t1 := GoOn(t, WriteByte(p));
  }

  /** A copy goes on to its end, and nothing else happens. */
  lemma CopyThrough(t: Trace, agents: map<nat, Agent>, port: Option<nat>, spawned: nat, p: nat)
    returns (t1: Trace)
    requires At(t, agents, port, spawned) && p in agents && agents[p].duty.Writing?
    requires agents[p].duty.done <= HEAP_LEN
    ensures At(t1, agents[p := Copied(agents[p], HEAP_LEN)], port, spawned) && GoesOn(t, t1)
    decreases HEAP_LEN - agents[p].duty.done
  {
    if agents[p].duty.done == HEAP_LEN {
      t1 := t;
      assert agents[p := agents[p]] == agents;
    } else {
      var more := agents[p := Copied(agents[p], agents[p].duty.done + 1)];
      var next := ByteMore(t, agents, port, spawned, p);
      t1 := CopyThrough(next, more, port, spawned, p);
      GoesOnOn(t, next, t1);
      SetTwice(agents, p, more[p], Copied(more[p], HEAP_LEN));
    }
  }

  function Idling(session: nat, duty: Duty, said: Option<Started>, cache: Cache): Agent {
    Agent(session, false, duty, said, cache, Idle)
  }

  lemma Binds(t: Trace, agents: map<nat, Agent>, spawned: nat, p: nat) returns (t1: Trace)
    requires At(t, agents, None, spawned) && p in agents && agents[p].duty == Trying
    ensures At(t1, agents[p := agents[p].(duty := Bound)], Some(p), spawned) && GoesOn(t, t1)
  {
    t1 := GoOn(t, Bind(p));
  }

  lemma Maps(t: Trace, agents: map<nat, Agent>, a: Agent, spawned: nat, p: nat)
    returns (t1: Trace, x: nat)
    requires At(t, agents[p := a], Some(p), spawned) && a.duty == Bound && !a.standalone
    ensures At(t1, agents[p := a.(duty := Mapped(x))], Some(p), spawned) && GoesOn(t, t1)
    ensures CacheSection(a).Some? ==> CacheSection(a) == Some(x)
  {
    RunIsRight(t);
    AgentIsRight(Last(t), p);
    x := Named(Last(t).sectionOf, a.session, Last(t).made);
    t1 := GoOn(t, CreateMapping(p));
    SetTwice(agents, p, a, a.(duty := Mapped(x)));
  }

  lemma Locks(t: Trace, agents: map<nat, Agent>, a: Agent, spawned: nat, p: nat, x: nat)
    returns (t1: Trace, m: nat)
    requires At(t, agents[p := a], Some(p), spawned) && a.duty == Mapped(x) && !a.standalone
    ensures At(t1, agents[p := a.(duty := Publishing(x, m, 0), said := Some(Feeding))],
               Some(p), spawned)
    ensures GoesOn(t, t1)
  {
    m := Named(Last(t).mutexOf, a.session, Last(t).made);
    t1 := GoOn(t, CreateMutex(p));
    SetTwice(agents, p, a, a.(duty := Publishing(x, m, 0), said := Some(Feeding)));
  }

  /** A feeder takes the port, nobody having it, and makes what it needs. */
  lemma MakesItsOwn(t: Trace, agents: map<nat, Agent>, spawned: nat, p: nat)
    returns (t1: Trace, x: nat, m: nat)
    requires At(t, agents, None, spawned) && p in agents
    requires agents[p].duty == Trying && !agents[p].standalone
    ensures At(t1, agents[p := agents[p].(duty := Publishing(x, m, 0), said := Some(Feeding))],
               Some(p), spawned)
    ensures GoesOn(t, t1)
    ensures CacheSection(agents[p]).Some? ==> CacheSection(agents[p]) == Some(x)
  {
    var a := agents[p];
    var bound := Binds(t, agents, spawned, p);
    var mapped: Trace;
    mapped, x := Maps(bound, agents, a.(duty := Bound), spawned, p);
    t1, m := Locks(mapped, agents, a.(duty := Mapped(x)), spawned, p, x);
    GoesOnOn(t, bound, mapped);
    GoesOnOn(t, mapped, t1);
  }

  lemma SoloMutexIsFree(s: State, p: nat)
    requires Inv(s) && OwnersLive(s) && p in s.agents && s.agents[p].duty.Publishing?
    requires s.agents.Keys == {p} && s.agents[p].reader.Idle?
    ensures Enabled(s, BeginWrite(p, Zeros(HEAP_LEN - 4)))
  {
    AgentIsRight(s, p);
    var m := s.agents[p].duty.mutex;
    assert OwnerLives(s.agents, m, s.mutexes[m].owner);
  }

  /** The only process there is publishes its first frame. */
  lemma PublishesFirst(t: Trace, a: Agent, spawned: nat, p: nat, x: nat, m: nat) returns (t1: Trace)
    requires At(t, map[p := a], Some(p), spawned)
    requires a.duty == Publishing(x, m, 0) && a.reader.Idle?
    ensures At(t1, map[p := a.(duty := Publishing(x, m, 1))], Some(p), spawned)
    ensures t1.steps != [] && t1.steps[|t1.steps| - 1] == EndWrite(p)
    ensures t.states <= t1.states && t.steps <= t1.steps
    ensures GoesOn(t, Trace(t1.states, t1.steps[..|t1.steps| - 1]))
    ensures |t1.states| == |t1.steps| + 1
    ensures EndsAt(t1, x) && ShownId(Last(t1), x) == Some(1)
  {
    var payload := Zeros(HEAP_LEN - 4);
    var begun := Begins(t, a, spawned, p, x, m);
    var writing := a.(duty := Writing(x, m, 1, HeapBytes(1, payload), 0));
    var copied := CopyThrough(begun, map[p := writing], Some(p), spawned, p);
    GoesOnOn(t, begun, copied);
    t1 := Ends(copied, writing, spawned, p, x, m);
    assert t1.steps[..|t1.steps| - 1] == copied.steps;
    assert forall i :: |t.steps| <= i < |t1.steps| - 1 ==> t1.steps[i] == copied.steps[i];
  }

  /** The last step ended a copy into this mapping. */
  ghost predicate EndsAt(t: Trace, x: nat) {
    && t.steps != [] && Runs(t) && t.steps[|t.steps| - 1].EndWrite?
    && EndsIn(t.states, t.steps, |t.steps| - 1) == x
  }

  lemma Begins(t: Trace, a: Agent, spawned: nat, p: nat, x: nat, m: nat) returns (t1: Trace)
    requires At(t, map[p := a], Some(p), spawned)
    requires a.duty == Publishing(x, m, 0) && a.reader.Idle?
    ensures At(t1, map[p := a.(duty := Writing(x, m, 1, HeapBytes(1, Zeros(HEAP_LEN - 4)), 0))],
               Some(p), spawned)
    ensures GoesOn(t, t1)
  {
    RunIsRight(t);
    SoloMutexIsFree(Last(t), p);
    t1 := GoOn(t, BeginWrite(p, Zeros(HEAP_LEN - 4)));
  }

  /** A run that ends a copy shows the frame's counter where it copied it. */
  lemma EndedHere(t: Trace, t1: Trace, p: nat)
    requires Runs(t) && Runs(t1) && t.states <= t1.states && t1.steps == t.steps + [EndWrite(p)]
    ensures Enabled(Last(t), EndWrite(p)) && |Last(t).agents[p].duty.frame| == HEAP_LEN
    ensures var duty := Last(t).agents[p].duty;
      EndsAt(t1, duty.section) && ShownId(Last(t1), duty.section) == Some(DataId(duty.frame))
  {
    var n := |t.steps|;
    RunIsRight(t);
    assert t1.states[n] == Last(t) && t1.steps[n] == EndWrite(p);
    assert t1.states[n + 1] == Next(Last(t), EndWrite(p));
    FrameIsWhole(Last(t), p);
    EndShows(Last(t), p);
  }

  lemma EndLeaves(s: State, p: nat)
    requires Inv(s) && Enabled(s, EndWrite(p))
    ensures var duty := s.agents[p].duty;
      NextAgent(s, EndWrite(p)) == s.agents[p].(duty := Publishing(duty.section, duty.mutex, duty.id))
  {
  }

  lemma EndMore(t: Trace, a: Agent, port: Option<nat>, spawned: nat, p: nat) returns (t1: Trace)
    requires At(t, map[p := a], port, spawned) && a.duty.Writing? && a.duty.done == HEAP_LEN
    ensures At(t1, map[p := a.(duty := Publishing(a.duty.section, a.duty.mutex, a.duty.id))],
               port, spawned)
    ensures t1.steps == t.steps + [EndWrite(p)] && t.states <= t1.states
  {
    RunIsRight(t);
    AgentIsRight(Last(t), p);
    t1 := GoOn(t, EndWrite(p));
    EndLeaves(Last(t), p);
  }

  lemma Ends(t: Trace, writing: Agent, spawned: nat, p: nat, x: nat, m: nat) returns (t1: Trace)
    requires writing.duty.Writing? && writing.duty.section == x && writing.duty.mutex == m
    requires writing.duty.id == 1 && writing.duty.frame == HeapBytes(1, Zeros(HEAP_LEN - 4))
    requires At(t, map[p := writing][p := Copied(writing, HEAP_LEN)], Some(p), spawned)
    ensures At(t1, map[p := writing.(duty := Publishing(x, m, 1))], Some(p), spawned)
    ensures t1.steps == t.steps + [EndWrite(p)] && t.states <= t1.states
    ensures EndsAt(t1, x) && ShownId(Last(t1), x) == Some(1)
  {
    var copied := Copied(writing, HEAP_LEN);
    assert map[p := writing][p := copied] == map[p := copied];
    t1 := EndMore(t, copied, Some(p), spawned, p);
    EndedHere(t, t1, p);
    DataIdReadsBack(1, Zeros(HEAP_LEN - 4));
  }

  lemma Alone() returns (t: Trace)
    ensures At(t, map[0 := Idling(1, Trying, None, Unasked)], None, 1)
  {
    t := Trace([INITIAL], []);
    t := GoOn(t, Spawn(1, false));
    assert Last(t).agents == map[0 := Idling(1, Resting, None, Unasked)];
    t := GoOn(t, Start(0));
    assert Last(t).agents == map[0 := Idling(1, Trying, None, Unasked)];
  }

  /** A feeder alone, its first frame published. */
  lemma FirstFrame() returns (t: Trace, x: nat, m: nat)
    ensures At(t, map[0 := Idling(1, Publishing(x, m, 1), Some(Feeding), Unasked)], Some(0), 1)
    ensures EndsAt(t, x) && t.steps[|t.steps| - 1] == EndWrite(0)
    ensures ShownId(Last(t), x) == Some(1)
  {
    var alone := Alone();
    var agents := map[0 := Idling(1, Trying, None, Unasked)];
    t, x, m := MakesItsOwn(alone, agents, 1, 0);
    var a := Idling(1, Publishing(x, m, 0), Some(Feeding), Unasked);
    assert agents[0 := a] == map[0 := a];
    t := PublishesFirst(t, a, 1, 0, x, m);
  }

  /** Another process of the session comes. */
  lemma AnotherComes(t: Trace, a: Agent) returns (t1: Trace)
    requires At(t, map[0 := a], Some(0), 1)
    ensures At(t1, map[0 := a, 1 := Idling(1, Trying, None, Unasked)], Some(0), 2) && GoesOn(t, t1)
  {
    t1 := GoOn(t, Spawn(1, false));
    assert Last(t1).agents == map[0 := a, 1 := Idling(1, Resting, None, Unasked)];
    var spawned := t1;
    t1 := GoOn(t1, Start(1));
    assert Last(t1).agents == map[0 := a, 1 := Idling(1, Trying, None, Unasked)];
    GoesOnOn(t, spawned, t1);
  }

  /** It opens the mapping, and so keeps it when the first is gone. */
  lemma FirstGoes(t: Trace, a: Agent, x: nat, m: nat) returns (t1: Trace)
    requires At(t, map[0 := a, 1 := Idling(1, Trying, None, Unasked)], Some(0), 2)
    requires a.session == 1 && a.duty == Publishing(x, m, 1)
    ensures At(t1, map[1 := Idling(1, Trying, None, Opening(x))], None, 2) && GoesOn(t, t1)
  {
    RunIsRight(t);
    AgentIsRight(Last(t), 0);
    t1 := GoOn(t, OpenMapping(1, true));
    assert Last(t1).agents == map[0 := a, 1 := Idling(1, Trying, None, Opening(x))];
    var caching := t1;
    t1 := GoOn(t1, Exit(0));
    assert Last(t1).agents == map[1 := Idling(1, Trying, None, Opening(x))];
    GoesOnOn(t, caching, t1);
  }

  /** The other takes over, and publishes its first frame into the same mapping. */
  lemma TakesOver(t: Trace, x: nat, m: nat) returns (t1: Trace)
    requires At(t, map[0 := Idling(1, Publishing(x, m, 1), Some(Feeding), Unasked)], Some(0), 1)
    ensures Runs(t1) && EndsAt(t1, x) && t1.steps[|t1.steps| - 1] == EndWrite(1)
    ensures ShownId(Last(t1), x) == Some(1)
    ensures t.states <= t1.states && t.steps <= t1.steps && |t.steps| < |t1.steps|
    ensures forall i :: |t.steps| <= i < |t1.steps| - 1 ==> !t1.steps[i].EndWrite?
  {
    var first := Idling(1, Publishing(x, m, 1), Some(Feeding), Unasked);
    var two := AnotherComes(t, first);
    var gone := FirstGoes(two, first, x, m);
    var a := Idling(1, Trying, None, Opening(x));
    var made, x2, m2 := MakesItsOwn(gone, map[1 := a], 2, 1);
    var feeding := Idling(1, Publishing(x, m2, 0), Some(Feeding), Opening(x));
    assert map[1 := a][1 := feeding] == map[1 := feeding];
    t1 := PublishesFirst(made, feeding, 2, 1, x, m2);
    GoesOnOn(t, two, gone);
    GoesOnOn(t, gone, made);
    forall i | |t.steps| <= i < |t1.steps| - 1 ensures !t1.steps[i].EndWrite? {
      assert i < |made.steps| ==> t1.steps[i] == made.steps[i];
      assert t1.steps[..|t1.steps| - 1][i] == t1.steps[i];
    }
  }

  /** A run in which the counter stands still although a new frame came: two
      frames in turn in one mapping, a takeover in between, show the same. */
  lemma TakeoverRepeats() returns (states: seq<State>, steps: seq<Step>, i: nat, j: nat)
    ensures IsRun(states, steps) && i < j < |steps|
    ensures steps[i] == EndWrite(0) && steps[j] == EndWrite(1)
    ensures forall k :: i < k < j ==> !steps[k].EndWrite?
    ensures EndsIn(states, steps, i) == EndsIn(states, steps, j)
    ensures ShownId(states[i + 1], EndsIn(states, steps, i))
         == ShownId(states[j + 1], EndsIn(states, steps, j)) == Some(1)
  {
    var t, x, m := FirstFrame();
    var t1 := TakesOver(t, x, m);
    states, steps, i, j := t1.states, t1.steps, |t.steps| - 1, |t1.steps| - 1;
    assert steps[i] == t.steps[i] && states[i] == t.states[i] && states[i + 1] == Last(t);
    assert states[j + 1] == Last(t1);
  }
}
