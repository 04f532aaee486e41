/** What the shared-heap protocol gives, over all its runs. */
module FeederTheorems {
  import opened Wrappers
  import opened Octets
  import opened SharedHeap
  import opened FeederProtocol
  import opened FeederInvariants

  // ---------------------------------------------------------- one publisher

  /** In every state a run reaches, one process at most, over all sessions, holds
      the port, and none other is able to publish. */
  lemma OnePublisher(states: seq<State>, steps: seq<Step>, n: nat, p: nat, q: nat)
    requires IsRun(states, steps) && n < |states|
    requires p in states[n].agents && HoldsPort(states[n].agents[p])
    requires q in states[n].agents && (HoldsPort(states[n].agents[q]) || CanPublish(states[n].agents[q]))
    ensures p == q
  {
    RunsKeep(states, steps, n);
    if p != q {
      OneWriter(states[n], p, q);
    }
  }

  // ------------------------------------------------------ what a step leaves

  lemma HoldersAfter(s: State, step: Step)
    requires Enabled(s, step)
    ensures var holders := Act(s, step).holders;
      holders == s.holders || holders == s.holders + {Actor(s, step)}
  {
  }

  lemma SpawnedAfter(s: State, step: Step)
    requires Enabled(s, step)
    ensures s.spawned <= Act(s, step).spawned <= s.spawned + 1
  {
  }

  lemma OthersLive(s: State, step: Step, q: nat)
    requires Enabled(s, step) && q != Actor(s, step)
    ensures q in Act(s, step).agents <==> q in s.agents
  {
  }

  lemma OthersStay(s: State, step: Step, q: nat)
    requires Enabled(s, step) && q != Actor(s, step) && q in s.agents
    ensures q in Act(s, step).agents && Act(s, step).agents[q] == s.agents[q]
  {
  }

  predicate Grew(s: State, s1: State) {
    s.holders <= s1.holders && s.spawned <= s1.spawned
  }

  lemma GrewOn(a: State, b: State, c: State)
    requires Grew(a, b) && Grew(b, c)
    ensures Grew(a, c)
  {
  }

  lemma NextGrows(s: State, s1: State, step: Step)
    requires Enabled(s, step) && s1 == Next(s, step)
    ensures Grew(s, s1)
  {
    HoldersAfter(s, step);
    SpawnedAfter(s, step);
  }

  lemma {:induction false} MoreNames(states: seq<State>, steps: seq<Step>, i: nat, j: nat)
    requires IsRun(states, steps) && i <= j < |states|
    ensures Grew(states[i], states[j])
    decreases j
  {
    if i < j {
      MoreNames(states, steps, i, j - 1);
      NextGrows(states[j - 1], states[j], steps[j - 1]);
      GrewOn(states[i], states[j - 1], states[j]);
    }
  }

  // ------------------------------------------------------- who changes a byte

  lemma ExitLeavesBytes(s: State, p: nat, x: nat)
    requires p in s.agents && x in s.sections
    ensures x in DoExit(s, p).sections && DoExit(s, p).sections[x].bytes == s.sections[x].bytes
  {
  }

  lemma AroundLeavesBytes(s: State, step: Step, x: nat)
    requires Inv(s) && Enabled(s, step) && x in s.sections && !step.WriteByte?
    ensures x in Around(s, step).sections
    ensures Around(s, step).sections[x].bytes == s.sections[x].bytes
  {
    if step.CreateMapping? {
      MoreMade(s);
    } else if !step.EndWrite? {
      AroundLeavesSections(s, step);
    }
  }

  lemma AroundLeavesSections(s: State, step: Step)
    requires Enabled(s, step) && !step.WriteByte? && !step.EndWrite? && !step.CreateMapping?
    ensures Around(s, step).sections == s.sections
  {
  }

  /** A byte of a mapping changes in one way only, and no mapping is forgotten. */
  lemma OnlyWriteByteWrites(s: State, step: Step, x: nat)
    requires Inv(s) && Enabled(s, step) && x in s.sections
    ensures x in Act(s, step).sections
    ensures Act(s, step).sections[x].bytes != s.sections[x].bytes ==>
      step.WriteByte? && s.agents[step.p].duty.section == x
  {
    if step.Exit? {
      ExitLeavesBytes(s, step.p, x);
    } else if !step.WriteByte? {
      AroundLeavesBytes(s, step, x);
    }
  }

  lemma WritersHoldThePort(s: State, p: nat)
    requires Inv(s) && Enabled(s, WriteByte(p))
    ensures s.port == Some(p) && p in s.holders
  {
    AgentIsRight(s, p);
  }

  /** Over a run, whoever changes a byte holds the port as it does. */
  lemma OnlyTheHolderWrites(states: seq<State>, steps: seq<Step>, n: nat, x: nat)
    requires IsRun(states, steps) && n < |steps| && x in states[n].sections
    ensures x in states[n + 1].sections
    ensures states[n + 1].sections[x].bytes != states[n].sections[x].bytes ==>
      && steps[n].WriteByte? && states[n].port == Some(steps[n].p)
      && states[n].agents[steps[n].p].duty.section == x
  {
    var s, step := states[n], steps[n];
    RunsKeep(states, steps, n);
    OnlyWriteByteWrites(s, step, x);
    if step.WriteByte? {
      WritersHoldThePort(s, step.p);
    }
    var s1 := Act(s, step);
    assert states[n + 1] == Collected(s1);
  }

  /** A standalone provider that ever held the port holds it still. */
  predicate LoserRight(holders: set<nat>, p: nat, a: Agent) {
    a.standalone && p in holders ==> CanPublish(a)
  }

  predicate LosersRight(s: State) {
    && (forall p :: p in s.holders ==> p < s.spawned)
    && forall p :: p in s.agents ==> LoserRight(s.holders, p, s.agents[p])
  }

  lemma PublishersStay(s: State, step: Step)
    requires Enabled(s, step) && !step.Spawn? && CanPublish(s.agents[step.p])
    ensures CanPublish(NextAgent(s, step)) || step.Exit?
  {
  }

  lemma HolderMade(s: State, step: Step)
    requires Enabled(s, step) && !step.Spawn? && step.p !in s.holders
    requires step.p in Around(s, step).holders
    ensures step.Bind? || (step.BindLast? && s.port.None?)
  {
  }

  lemma LoserActs(s: State, step: Step)
    requires Inv(s) && Enabled(s, step) && LosersRight(s) && !step.Exit?
    ensures LoserRight(Around(s, step).holders, Actor(s, step), NextAgent(s, step))
  {
    if !step.Spawn? {
      var p := step.p;
      AgentIsRight(s, p);
      assert LoserRight(s.holders, p, s.agents[p]);
      if p in s.holders && s.agents[p].standalone {
        PublishersStay(s, step);
      } else if p in Around(s, step).holders && p !in s.holders {
        HolderMade(s, step);
      }
      SameKind(s, step);
    }
  }

  lemma SameKind(s: State, step: Step)
    requires Enabled(s, step) && !step.Spawn?
    ensures NextAgent(s, step).standalone == s.agents[step.p].standalone
  {
  }

  lemma ActorIsNamed(s: State, step: Step)
    requires Inv(s) && Enabled(s, step)
    ensures Actor(s, step) < Act(s, step).spawned
  {
    if !step.Spawn? {
      AgentIsRight(s, step.p);
      SpawnedAfter(s, step);
    }
  }

  lemma LosersKept(s: State, step: Step)
    requires Inv(s) && Enabled(s, step) && LosersRight(s)
    ensures LosersRight(Act(s, step))
  {
    var s1 := Act(s, step);
    HoldersAfter(s, step);
    SpawnedAfter(s, step);
    ActorIsNamed(s, step);
    if !step.Exit? {
      LoserActs(s, step);
    }
    forall q | q in s1.agents && q != Actor(s, step) ensures LoserRight(s1.holders, q, s1.agents[q]) {
      OthersLive(s, step, q);
      OthersStay(s, step, q);
    }
  }

  lemma {:induction false} LosersRightOn(states: seq<State>, steps: seq<Step>, n: nat)
    requires IsRun(states, steps) && n < |states|
    ensures LosersRight(states[n])
  {
    if n > 0 {
      LosersRightOn(states, steps, n - 1);
      RunsKeep(states, steps, n - 1);
      var s1 := Act(states[n - 1], steps[n - 1]);
      LosersKept(states[n - 1], steps[n - 1]);
      assert states[n] == Collected(s1);
    }
  }

  /** The process has no writing side any more. */
  predicate Finished(s: State, p: nat) {
    p < s.spawned && (p in s.agents ==> s.agents[p].duty.Stopped?)
  }

  lemma FinishedStays(s: State, step: Step, p: nat)
    requires Enabled(s, step) && Finished(s, p)
    ensures Finished(Act(s, step), p)
  {
    SpawnedAfter(s, step);
    if p != Actor(s, step) && p in Act(s, step).agents {
      OthersLive(s, step, p);
      OthersStay(s, step, p);
    }
  }

  lemma {:induction false} FinishedStaysOn(states: seq<State>, steps: seq<Step>, i: nat, j: nat, p: nat)
    requires IsRun(states, steps) && i <= j < |states| && Finished(states[i], p)
    ensures Finished(states[j], p)
    decreases j
  {
    if i < j {
      FinishedStaysOn(states, steps, i, j - 1, p);
      FinishedStays(states[j - 1], steps[j - 1], p);
      var s1 := Act(states[j - 1], steps[j - 1]);
      assert states[j] == Collected(s1);
    }
  }

  /** The port is refused to a standalone provider that has made its objects. */
  predicate Refusal(s: State, step: Step) {
    step.BindLast? && s.port.Some?
  }

  /** It never held the port before. */
  lemma LoserNeverHeld(s: State, p: nat)
    requires Inv(s) && LosersRight(s) && p in s.agents && s.agents[p].duty.Prepared?
    ensures p !in s.holders
  {
    AgentIsRight(s, p);
    assert LoserRight(s.holders, p, s.agents[p]);
  }

  lemma LoserIsFinished(s: State, p: nat)
    requires Inv(s) && Enabled(s, BindLast(p)) && s.port.Some?
    ensures Finished(Act(s, BindLast(p)), p)
  {
    AgentIsRight(s, p);
  }

  /** A standalone provider that makes its objects and then finds the port taken
      copies no byte into any mapping, before or after. */
  lemma LoserNeverWrites(states: seq<State>, steps: seq<Step>, j: nat, i: nat)
    requires IsRun(states, steps) && j < |steps| && i < |steps| && Refusal(states[j], steps[j])
    ensures steps[i] != WriteByte(steps[j].p)
  {
    var p := steps[j].p;
    RunsKeep(states, steps, i);
    RunsKeep(states, steps, j);
    if steps[i] == WriteByte(p) {
      WritersHoldThePort(states[i], p);
      if i <= j {
        LosersRightOn(states, steps, j);
        LoserNeverHeld(states[j], p);
        MoreNames(states, steps, i, j);
      } else {
        LoserIsFinished(states[j], p);
        var s1 := Act(states[j], steps[j]);
        assert states[j + 1] == Collected(s1);
        FinishedStaysOn(states, steps, j + 1, i, p);
      }
    }
  }

  // -------------------------------------------------------- what is cached

  /** A consumer that asked once does not ask again. */
  predicate Settled(cache: Cache) {
    cache.Opened? || cache.NothingThere?
  }

  lemma ActorKeepsCache(s: State, step: Step)
    requires Enabled(s, step) && !step.Spawn? && !step.Exit?
    ensures NextAgent(s, step).session == s.agents[step.p].session
    ensures Settled(s.agents[step.p].cache) ==> NextAgent(s, step).cache == s.agents[step.p].cache
  {
  }

  lemma WasThere(s: State, step: Step, p: nat)
    requires Enabled(s, step) && p in Act(s, step).agents && p < s.spawned
    ensures p in s.agents
  {
    if p != Actor(s, step) {
      OthersLive(s, step, p);
    }
  }

  lemma CacheStays(s: State, step: Step, p: nat)
    requires Inv(s) && Enabled(s, step) && p in s.agents && p in Act(s, step).agents
    requires Settled(s.agents[p].cache)
    ensures Act(s, step).agents[p].cache == s.agents[p].cache
    ensures Act(s, step).agents[p].session == s.agents[p].session
  {
    AgentIsRight(s, p);
    if p != Actor(s, step) {
      OthersStay(s, step, p);
    } else {
      ActorKeepsCache(s, step);
    }
  }

  predicate SameCache(a: Agent, b: Agent) {
    a.cache == b.cache && a.session == b.session
  }

  lemma CacheStaysNext(s: State, s1: State, step: Step, p: nat)
    requires Inv(s) && Enabled(s, step) && s1 == Next(s, step)
    requires p in s1.agents && p < s.spawned
    ensures p in s.agents
    ensures Settled(s.agents[p].cache) ==> SameCache(s.agents[p], s1.agents[p])
  {
    WasThere(s, step, p);
    if Settled(s.agents[p].cache) {
      CacheStays(s, step, p);
    }
  }

  lemma NamedBefore(states: seq<State>, steps: seq<Step>, i: nat, j: nat, p: nat)
    requires IsRun(states, steps) && i <= j < |states| && p in states[i].agents
    ensures p < states[j].spawned
  {
    RunsKeep(states, steps, i);
    AgentIsRight(states[i], p);
    MoreNames(states, steps, i, j);
  }

  /** What a process once cached, be it a mapping or that there is none, it keeps
      for as long as it lives. */
  lemma {:induction false} CachedForLife(states: seq<State>, steps: seq<Step>, i: nat, j: nat, p: nat)
    requires IsRun(states, steps) && i <= j < |states|
    requires p in states[i].agents && Settled(states[i].agents[p].cache) && p in states[j].agents
    ensures SameCache(states[i].agents[p], states[j].agents[p])
    decreases j
  {
    if i < j {
      NamedBefore(states, steps, i, j - 1, p);
      RunsKeep(states, steps, j - 1);
      CacheStaysNext(states[j - 1], states[j], steps[j - 1], p);
      CachedForLife(states, steps, i, j - 1, p);
    }
  }

  /** A mapping a consumer opened stays the mapping of its session, whoever exits
      and whoever takes the port: every provider of that session, now or later,
      is attached to that very mapping. */
  lemma MappingStaysPinned(states: seq<State>, steps: seq<Step>, i: nat, j: nat, p: nat, q: nat)
    requires IsRun(states, steps) && i <= j < |states|
    requires p in states[i].agents && states[i].agents[p].cache.Opened? && p in states[j].agents
    requires q in states[j].agents && states[j].agents[q].session == states[i].agents[p].session
    ensures var x := states[i].agents[p].cache.section;
      && states[j].agents[p].cache == states[i].agents[p].cache
      && Lookup(states[j].sectionOf, states[i].agents[p].session) == Some(x)
      && (DutySection(states[j].agents[q]).Some? ==> DutySection(states[j].agents[q]) == Some(x))
  {
    CachedForLife(states, steps, i, j, p);
    RunsKeep(states, steps, j);
    AgentIsRight(states[j], p);
    AgentIsRight(states[j], q);
  }

  /** So a frame published in a session after a takeover is what the consumers
      find that opened the mapping before it. */
  lemma TakeoverReachesCache(states: seq<State>, steps: seq<Step>, i: nat, j: nat, p: nat)
    requires IsRun(states, steps) && i <= j < |steps| && steps[j].EndWrite?
    requires p in states[i].agents && states[i].agents[p].cache.Opened? && p in states[j].agents
    requires states[j].agents[steps[j].p].session == states[i].agents[p].session
    ensures var x := states[i].agents[p].cache.section;
      && x in states[j + 1].sections
      && states[j + 1].sections[x].latest == Some(states[j].agents[steps[j].p].duty.frame)
      && states[j + 1].sections[x].bytes == states[j].agents[steps[j].p].duty.frame
  {
    var q := steps[j].p;
    MappingStaysPinned(states, steps, i, j, p, q);
    RunsKeep(states, steps, j);
    FrameIsWhole(states[j], q);
    assert states[j + 1] == Next(states[j], EndWrite(q));
  }

  // -------------------------------------------------------------- what is read

  /** A read with the mutex, come to its end. */
  predicate ReadWhole(a: Agent, held: bool) {
    a.cache.Opened? && a.reader.Reading? && |a.reader.out| == HEAP_LEN && (held ==> a.reader.held)
  }

  lemma NotBusyWhileHeld(s: State, p: nat)
    requires Inv(s) && p in s.agents && HoldsToRead(s.agents[p])
    ensures Busy(s.agents, s.port) != Some(s.agents[p].cache.section)
  {
    if Busy(s.agents, s.port) == Some(s.agents[p].cache.section) {
      OneMutex(s, s.port.value, p);
    }
  }

  /** What a read with the mutex gives, of a mapping over which no writer died
      since its last frame: that frame whole, or zeros if there was none. */
  lemma HeldReadIsWhole(s: State, p: nat)
    requires Inv(s) && p in s.agents && ReadWhole(s.agents[p], true)
    requires s.agents[p].cache.section in s.sections
    requires !s.sections[s.agents[p].cache.section].torn
    ensures s.agents[p].reader.out == Whole(s.sections[s.agents[p].cache.section])
  {
    var x := s.agents[p].cache.section;
    AgentIsRight(s, p);
    SectionRightNow(s, x);
    NotBusyWhileHeld(s, p);
    assert s.sections[x].bytes[..HEAP_LEN] == s.sections[x].bytes;
  }

  lemma ZerosHaveNoId()
    ensures DataId(Zeros(HEAP_LEN)) == 0
  {
  }

  /** No process exits half way through a copy. */
  ghost predicate WritersSurvive(states: seq<State>, steps: seq<Step>) {
    |states| == |steps| + 1
    && forall i {:trigger steps[i]} ::
         0 <= i < |steps| && steps[i].Exit? && steps[i].p in states[i].agents ==>
         !states[i].agents[steps[i].p].duty.Writing?
  }

  predicate NoneTorn(s: State) {
    forall x :: x in s.sections ==> !s.sections[x].torn
  }

  lemma NoneTornNext(s: State, step: Step)
    requires Enabled(s, step) && NoneTorn(s)
    requires step.Exit? ==> !s.agents[step.p].duty.Writing?
    ensures NoneTorn(Act(s, step))
  {
  }

  lemma {:induction false} NoDeathNoTear(states: seq<State>, steps: seq<Step>, n: nat)
    requires IsRun(states, steps) && n < |states| && WritersSurvive(states, steps)
    ensures NoneTorn(states[n])
  {
    if n > 0 {
      NoDeathNoTear(states, steps, n - 1);
      var s, step := states[n - 1], steps[n - 1];
      NoneTornNext(s, step);
      assert states[n] == Next(s, step);
    }
  }

  /** In every interleaving where no writer dies between taking the mutex and
      giving it back, a read with the mutex gives exactly the last frame
      published into that mapping, and a game is shown nothing exactly when
      there is none. */
  lemma HeldReadsAreWhole(states: seq<State>, steps: seq<Step>, n: nat, p: nat)
    requires IsRun(states, steps) && n < |states| && WritersSurvive(states, steps)
    requires p in states[n].agents && ReadWhole(states[n].agents[p], true)
    ensures var x := states[n].agents[p].cache.section;
      x in states[n].sections
      && Published(states[n].agents[p].reader.out) == states[n].sections[x].latest
  {
    var x := states[n].agents[p].cache.section;
    RunsKeep(states, steps, n);
    NoDeathNoTear(states, steps, n);
    AgentIsRight(states[n], p);
    SectionRightNow(states[n], x);
    HeldReadIsWhole(states[n], p);
    ZerosHaveNoId();
  }

  /** With the mutex or without, and whoever died: a game is shown a frame only
      of a mapping into which a holder of the port has copied. */
  lemma SomeMeansAHolderWrote(states: seq<State>, steps: seq<Step>, n: nat, p: nat)
    requires IsRun(states, steps) && n < |states|
    requires p in states[n].agents && ReadWhole(states[n].agents[p], false)
    requires Published(states[n].agents[p].reader.out).Some?
    ensures var x := states[n].agents[p].cache.section;
      x in states[n].sections && states[n].sections[x].writer.Some?
      && states[n].sections[x].writer.value in states[n].holders
  {
    var x, out := states[n].agents[p].cache.section, states[n].agents[p].reader.out;
    RunsKeep(states, steps, n);
    AgentIsRight(states[n], p);
    SectionRightNow(states[n], x);
    FrameIsNotZero(out);
  }

  // ------------------------------------------------------ nobody is locked out

  /** The process is in the middle of the copy for which the thread owns `m`. */
  predicate Copying(agents: map<nat, Agent>, m: nat, thread: Thread) {
    && thread.agent in agents
    && var a := agents[thread.agent];
       match thread
       case WriterOf(_) => a.duty.Writing? && a.duty.mutex == m
       case ReaderOf(_) => HoldsToRead(a) && a.cache.mutex.value == m
  }

  predicate OwnerLives(agents: map<nat, Agent>, m: nat, owner: Option<Thread>) {
    owner.Some? ==> Copying(agents, m, owner.value)
  }

  predicate OwnersLive(s: State) {
    forall m :: m in s.mutexes ==> OwnerLives(s.agents, m, s.mutexes[m].owner)
  }

  lemma ExitFreesMutexes(s: State, p: nat)
    requires Inv(s) && p in s.agents && OwnersLive(s)
    ensures OwnersLive(DoExit(s, p))
  {
    var s1 := DoExit(s, p);
    assert s1.agents == s.agents - {p} && s1.mutexes == Abandoned(s.mutexes, p);
    forall m | m in s.mutexes
      ensures OwnerLives(s.agents - {p}, m, Abandoned(s.mutexes, p)[m].owner)
    {
      AbandonedOwner(s.agents, m, s.mutexes[m].owner, p);
    }
  }

  lemma AbandonedOwner(agents: map<nat, Agent>, m: nat, owner: Option<Thread>, p: nat)
    requires OwnerLives(agents, m, owner)
    ensures OwnerLives(agents - {p}, m, Abandon(owner, p))
  {
  }

  /** The mutex a step takes or gives back. */
  function Touched(s: State, step: Step): Option<nat>
    requires Enabled(s, step)
  {
    match step
    case BeginWrite(p, _) => Some(s.agents[p].duty.mutex)
    case EndWrite(p) => Some(s.agents[p].duty.mutex)
    case BeginRead(p, held) => if held then s.agents[p].cache.mutex else None
    case EndRead(p) => if s.agents[p].reader.held then s.agents[p].cache.mutex else None
    case _ => None
  }

  lemma UntouchedMutex(s: State, step: Step, m: nat)
    requires Inv(s) && Enabled(s, step) && Touched(s, step) != Some(m)
    requires m in Around(s, step).mutexes
    ensures Around(s, step).mutexes[m].owner.Some? ==>
      m in s.mutexes && Around(s, step).mutexes[m] == s.mutexes[m]
  {
  }

  /** A process in the middle of a copy is there still unless it ends it. */
  lemma CopyingGoesOn(s: State, step: Step, m: nat, thread: Thread)
    requires Inv(s) && Enabled(s, step) && !step.Exit? && Copying(s.agents, m, thread)
    requires Touched(s, step) != Some(m)
    ensures Copying(s.agents[Actor(s, step) := NextAgent(s, step)], m, thread)
  {
    AgentIsRight(s, thread.agent);
  }

  lemma TouchedMutex(s: State, step: Step, m: nat)
    requires Inv(s) && Enabled(s, step) && Touched(s, step) == Some(m)
    requires m in Around(s, step).mutexes
    ensures OwnerLives(s.agents[Actor(s, step) := NextAgent(s, step)], m,
                       Around(s, step).mutexes[m].owner)
  {
  }

  lemma OwnersStayAlive(s: State, step: Step)
    requires Inv(s) && Enabled(s, step) && OwnersLive(s)
    ensures OwnersLive(Act(s, step))
  {
    if step.Exit? {
      ExitFreesMutexes(s, step.p);
    } else {
      var s1 := Act(s, step);
      forall m | m in s1.mutexes ensures OwnerLives(s1.agents, m, s1.mutexes[m].owner) {
        if Touched(s, step) == Some(m) {
          TouchedMutex(s, step, m);
        } else {
          UntouchedMutex(s, step, m);
          if s1.mutexes[m].owner.Some? {
            CopyingGoesOn(s, step, m, s1.mutexes[m].owner.value);
          }
        }
      }
    }
  }

  lemma {:induction false} OwnersLiveOn(states: seq<State>, steps: seq<Step>, n: nat)
    requires IsRun(states, steps) && n < |states|
    ensures OwnersLive(states[n])
  {
    if n > 0 {
      OwnersLiveOn(states, steps, n - 1);
      RunsKeep(states, steps, n - 1);
      var s1 := Act(states[n - 1], steps[n - 1]);
      OwnersStayAlive(states[n - 1], steps[n - 1]);
      assert states[n] == Collected(s1);
    }
  }

  /** The next step of the copy a thread is in. */
  function NextOfCopy(a: Agent, thread: Thread): Step {
    match thread
    case WriterOf(p) =>
      if a.duty.Writing? && a.duty.done == HEAP_LEN then EndWrite(p) else WriteByte(p)
    case ReaderOf(p) =>
      if a.reader.Reading? && |a.reader.out| == HEAP_LEN then EndRead(p) else ReadByte(p)
  }

  /** Whoever died: a mutex is free, or its owner is alive and can go on with the
      copy it holds it for, to the end. */
  lemma NobodyIsLockedOut(states: seq<State>, steps: seq<Step>, n: nat, m: nat)
    requires IsRun(states, steps) && n < |states|
    requires m in states[n].mutexes && states[n].mutexes[m].owner.Some?
    ensures var s, thread := states[n], states[n].mutexes[m].owner.value;
      thread.agent in s.agents && Enabled(s, NextOfCopy(s.agents[thread.agent], thread))
  {
    var s, thread := states[n], states[n].mutexes[m].owner.value;
    RunsKeep(states, steps, n);
    OwnersLiveOn(states, steps, n);
    assert OwnerLives(s.agents, m, s.mutexes[m].owner);
    AgentIsRight(s, thread.agent);
    match thread {
      case WriterOf(p) => SectionRightNow(s, s.agents[p].duty.section);
      case ReaderOf(p) => SectionRightNow(s, s.agents[p].cache.section);
    }
  }

  // ------------------------------------------------------ what a feeder reports

  ghost predicate NamesHeld(s: State) {
    forall k :: k in s.sectionOf ==> SectionHeld(s.agents, s.sectionOf[k])
  }

  lemma NamesAreHeld(states: seq<State>, steps: seq<Step>, n: nat)
    requires IsRun(states, steps) && n < |states|
    ensures NamesHeld(states[n])
  {
    if n > 0 {
      var s1 := Act(states[n - 1], steps[n - 1]);
      assert states[n] == Collected(s1);
    }
  }

  /** Some process of the session has a handle on its mapping. */
  ghost predicate AnyHandle(s: State, session: nat) {
    exists q :: q in s.agents && HandleIn(s.agents[q], session)
  }

  predicate HandleIn(a: Agent, session: nat) {
    a.session == session && (DutySection(a).Some? || CacheSection(a).Some?)
  }

  lemma NamedIffHandle(s: State, session: nat)
    requires Inv(s) && NamesHeld(s)
    ensures session in s.sectionOf <==> AnyHandle(s, session)
  {
    if session in s.sectionOf {
      var x := s.sectionOf[session];
      assert SectionHeld(s.agents, x);
      var q :| q in s.agents && HasSection(s.agents[q], x);
      AgentIsRight(s, q);
      assert HandleIn(s.agents[q], session);
    }
    if q :| q in s.agents && HandleIn(s.agents[q], session) {
      AgentIsRight(s, q);
    }
  }

  /** What a feeder refused the port reports tells exactly whether some process
      of its session has the mapping open. That it reports to be waiting means
      that nobody in its session is publishing; that it reports the port taken
      does not mean that anybody is. */
  lemma ProbeSays(states: seq<State>, steps: seq<Step>, n: nat, q: nat)
    requires IsRun(states, steps) && n < |steps| && steps[n].ProbeOpen?
    ensures steps[n].p in states[n + 1].agents
    ensures var s, p := states[n], steps[n].p;
      && states[n + 1].agents[p].said
         == Some(if AnyHandle(s, s.agents[p].session) then AlreadyTaken else Waiting)
      && (states[n + 1].agents[p].said == Some(Waiting) ==>
            q in s.agents && CanPublish(s.agents[q]) ==> s.agents[q].session != s.agents[p].session)
  {
    var s, p := states[n], steps[n].p;
    RunsKeep(states, steps, n);
    NamesAreHeld(states, steps, n);
    NamedIffHandle(s, s.agents[p].session);
    assert states[n + 1] == Next(s, steps[n]);
    if q in s.agents && CanPublish(s.agents[q]) && s.agents[q].session == s.agents[p].session {
      assert HandleIn(s.agents[q], s.agents[p].session);
    }
  }

  /** A client library that once opened the mapping reports the port taken ever
      after, whatever session holds it: the handle it finds is its own. */
  lemma OwnCacheLooksTaken(states: seq<State>, steps: seq<Step>, n: nat)
    requires IsRun(states, steps) && n < |steps| && steps[n].ProbeOpen?
    requires states[n].agents[steps[n].p].cache.Opened?
    ensures steps[n].p in states[n + 1].agents
    ensures states[n + 1].agents[steps[n].p].said == Some(AlreadyTaken)
  {
    ProbeSays(states, steps, n, steps[n].p);
    assert HandleIn(states[n].agents[steps[n].p], states[n].agents[steps[n].p].session);
  }

  /** A consumer's one look finds the mapping exactly when the look works and some
      process of its session has it open. */
  lemma LookFinds(states: seq<State>, steps: seq<Step>, n: nat)
    requires IsRun(states, steps) && n < |steps| && steps[n].OpenMapping?
    ensures steps[n].p in states[n + 1].agents
    ensures var s, p := states[n], steps[n].p;
      if steps[n].works && AnyHandle(s, s.agents[p].session)
      then states[n + 1].agents[p].cache.Opening?
      else states[n + 1].agents[p].cache == NothingThere
  {
    var s, p := states[n], steps[n].p;
    RunsKeep(states, steps, n);
    NamesAreHeld(states, steps, n);
    NamedIffHandle(s, s.agents[p].session);
    assert states[n + 1] == Next(s, steps[n]);
  }

  // -------------------------------------------------------- the port comes free

  /** The port is never lost: whoever is said to have it is alive, and in a part of
      its life in which it gives it back when it stops or exits. */
  lemma PortIsNeverLost(states: seq<State>, steps: seq<Step>, n: nat)
    requires IsRun(states, steps) && n < |states| && states[n].port.Some?
    ensures var s, p := states[n], states[n].port.value;
      && p in s.agents
      && var duty := s.agents[p].duty;
         duty.Bound? || (duty.Mapped? && !s.agents[p].standalone) || duty.Publishing? || duty.Writing?
  {
    RunsKeep(states, steps, n);
    AgentIsRight(states[n], states[n].port.value);
  }

  /** Nobody alive holds the port. */
  ghost predicate PortUnheld(s: State) {
    forall q :: q in s.agents ==> !HoldsPort(s.agents[q])
  }

  lemma FreeIsUnheld(states: seq<State>, steps: seq<Step>, n: nat)
    requires IsRun(states, steps) && n < |states|
    ensures states[n].port.None? <==> PortUnheld(states[n])
  {
    var s := states[n];
    RunsKeep(states, steps, n);
    if s.port.Some? {
      PortIsNeverLost(states, steps, n);
      assert HoldsPort(s.agents[s.port.value]);
    } else {
      forall q | q in s.agents ensures !HoldsPort(s.agents[q]) {
        AgentIsRight(s, q);
      }
    }
  }

  /** So a feeder that tries gets it exactly when nobody alive has it, and so does a
      standalone provider, which then publishes and otherwise stops. */
  lemma FreePortIsTaken(states: seq<State>, steps: seq<Step>, n: nat)
    requires IsRun(states, steps) && n < |steps| && (steps[n].Bind? || steps[n].BindLast?)
    ensures steps[n].p in states[n + 1].agents
    ensures var duty := states[n + 1].agents[steps[n].p].duty;
      && (PortUnheld(states[n]) ==>
            states[n + 1].port == Some(steps[n].p) && (duty.Bound? || duty.Publishing?))
      && (!PortUnheld(states[n]) ==>
            states[n + 1].port == states[n].port && (duty.Refused? || duty.Stopped?))
  {
    FreeIsUnheld(states, steps, n);
    assert states[n + 1] == Next(states[n], steps[n]);
  }

  // ------------------------------------------------------------ one such run

  lemma OneStepMore(states: seq<State>, steps: seq<Step>, step: Step)
    requires IsRun(states, steps) && Enabled(states[|steps|], step)
    ensures IsRun(states + [Next(states[|steps|], step)], steps + [step])
  {
    var longer, more := states + [Next(states[|steps|], step)], steps + [step];
    forall i {:trigger more[i]} | 0 <= i < |more|
      ensures Enabled(longer[i], more[i]) && longer[i + 1] == Next(longer[i], more[i])
    {
      if i < |steps| {
        assert more[i] == steps[i] && longer[i] == states[i] && longer[i + 1] == states[i + 1];
      }
    }
  }

  /** A state some run ends in. */
  ghost predicate Reached(s: State) {
    exists states, steps :: IsRun(states, steps) && states[|steps|] == s
  }

  lemma ReachedNext(s: State, step: Step) returns (s1: State)
    requires Reached(s) && Enabled(s, step)
    ensures s1 == Collected(Act(s, step)) && Reached(s1)
    ensures s1.agents == Act(s, step).agents && s1.port == Act(s, step).port
  {
    var states: seq<State>, steps: seq<Step> :| IsRun(states, steps) && states[|steps|] == s;
    OneStepMore(states, steps, step);
    s1 := Next(s, step);
    var longer := states + [s1];
    assert IsRun(longer, steps + [step]) && longer[|steps + [step]|] == s1;
  }

  lemma InitialReached()
    ensures Reached(INITIAL)
  {
    var states, steps: seq<Step> := [INITIAL], [];
    assert IsRun(states, steps) && states[|steps|] == INITIAL;
  }

  function Rested(session: nat, standalone: bool): Agent {
    Agent(session, standalone, Resting, None, Unasked, Idle)
  }

  lemma PortTakenElsewhere() returns (s: State)
    ensures Reached(s) && s.port == Some(0) && s.spawned == 1 && s.sectionOf == map[]
    ensures s.agents == map[0 := Rested(2, false).(duty := Bound)]
  {
    InitialReached();
    s := ReachedNext(INITIAL, Spawn(2, false));
    assert s.agents[0] == Rested(2, false);
    s := ReachedNext(s, Start(0));
    assert s.agents[0] == Rested(2, false).(duty := Trying);
    s := ReachedNext(s, Bind(0));
  }

  lemma MappingMadeHere() returns (s: State)
    ensures Reached(s) && s.port == Some(0) && s.spawned == 2
    ensures s.agents.Keys == {0, 1} && s.agents[0].session == 2
    ensures s.agents[1].session == 1 && s.agents[1].duty.Mapped?
  {
    s := PortTakenElsewhere();
    s := ReachedNext(s, Spawn(1, true));
    assert s.agents[1] == Rested(1, true);
    s := ReachedNext(s, CreateMapping(1));
  }

  lemma ReachedIsRight(s: State)
    requires Reached(s)
    ensures Inv(s)
  {
    var states: seq<State>, steps: seq<Step> :| IsRun(states, steps) && states[|steps|] == s;
    RunsKeep(states, steps, |steps|);
  }

  lemma FeederComesHere() returns (s: State)
    ensures Reached(s) && s.port == Some(0) && s.agents.Keys == {0, 1, 2}
    ensures s.agents[0].session == 2
    ensures s.agents[1].session == 1 && s.agents[1].duty.Mapped?
    ensures s.agents[2] == Rested(1, false)
  {
    s := MappingMadeHere();
    s := ReachedNext(s, Spawn(1, false));
  }

  lemma TryingHere() returns (s: State)
    ensures Reached(s) && s.port == Some(0) && s.agents.Keys == {0, 1, 2}
    ensures s.agents[0].session == 2
    ensures s.agents[1].session == 1 && s.agents[1].duty.Mapped?
    ensures s.agents[2] == Rested(1, false).(duty := Trying)
  {
    s := FeederComesHere();
    s := ReachedNext(s, Start(2));
  }

  lemma RefusedHere() returns (s: State)
    ensures Reached(s) && s.port == Some(0) && s.agents.Keys == {0, 1, 2}
    ensures s.agents[0].session == 2
    ensures s.agents[1].session == 1 && s.agents[1].duty.Mapped?
    ensures s.agents[2] == Rested(1, false).(duty := Refused)
  {
    s := TryingHere();
    s := ReachedNext(s, Bind(2));
  }

  lemma MappingIsNamed(s: State, q: nat)
    requires Reached(s) && q in s.agents && s.agents[q].duty.Mapped?
    ensures s.agents[q].session in s.sectionOf
  {
    ReachedIsRight(s);
    AgentIsRight(s, q);
  }

  /** The port can be reported taken by a feeder in whose session nobody holds it
      and nobody can publish: a standalone provider there has only made its
      mapping so far, and the holder is in another session. */
  lemma TakenIsNoProof() returns (s: State, p: nat, holder: nat)
    ensures Reached(s) && p in s.agents && s.agents[p].said == Some(AlreadyTaken)
    ensures s.port == Some(holder) && holder in s.agents
    ensures s.agents[holder].session != s.agents[p].session
    ensures forall q :: q in s.agents && s.agents[q].session == s.agents[p].session ==>
      !CanPublish(s.agents[q])
  {
    p, holder := 2, 0;
    var before := RefusedHere();
    MappingIsNamed(before, 1);
    s := ReachedNext(before, ProbeOpen(2));
    assert s.agents == before.agents[2 := NextAgent(before, ProbeOpen(2))];
  }
}
