/** What every step of the shared-heap protocol keeps. */
module FeederInvariants {
  import opened Wrappers
  import opened Octets
  import opened SharedHeap
  import opened FeederProtocol

  // ------------------------------------------------------- of one process

  predicate IsFrame(frame: Bytes) {
    |frame| == HEAP_LEN && DataId(frame) != 0
  }

  predicate Shaped(a: Agent) {
    && (a.duty.Writing? ==> IsFrame(a.duty.frame) && a.duty.done <= HEAP_LEN)
    && (a.duty.Prepared? ==> a.standalone)
    && (a.duty.Trying? || a.duty.Refused? || a.duty.Probing? || a.duty.Probed? || a.duty.Bound? ==>
          !a.standalone)
    && (a.reader.Reading? ==>
          a.cache.Opened? && |a.reader.out| <= HEAP_LEN
          && (a.reader.held ==> a.cache.mutex.Some?))
  }

  predicate NamedSo(names: map<nat, nat>, session: nat, o: Option<nat>) {
    o.Some? ==> session in names && names[session] == o.value
  }

  /** Every handle is on the object of that name in the process's own session. */
  predicate HandlesRight(sectionOf: map<nat, nat>, mutexOf: map<nat, nat>, a: Agent) {
    && NamedSo(sectionOf, a.session, DutySection(a))
    && NamedSo(sectionOf, a.session, CacheSection(a))
    && NamedSo(mutexOf, a.session, DutyMutex(a))
    && NamedSo(mutexOf, a.session, CacheMutex(a))
  }

  predicate PortRight(port: Option<nat>, p: nat, a: Agent) {
    HoldsPort(a) <==> port == Some(p)
  }

  predicate Owns(mutexes: map<nat, Mutex>, m: nat, thread: Thread) {
    m in mutexes && mutexes[m].owner == Some(thread)
  }

  predicate HoldsToRead(a: Agent) {
    a.reader.Reading? && a.reader.held && a.cache.Opened? && a.cache.mutex.Some?
  }

  predicate OwnsRight(mutexes: map<nat, Mutex>, p: nat, a: Agent) {
    && (a.duty.Writing? ==> Owns(mutexes, a.duty.mutex, WriterOf(p)))
    && (HoldsToRead(a) ==> Owns(mutexes, a.cache.mutex.value, ReaderOf(p)))
  }

  /** A copy in is right as far as it got. */
  predicate WritesRight(sections: map<nat, Section>, a: Agent) {
    a.duty.Writing? ==>
      && a.duty.section in sections
      && |sections[a.duty.section].bytes| == HEAP_LEN
      && a.duty.done <= HEAP_LEN == |a.duty.frame|
      && sections[a.duty.section].bytes[..a.duty.done] == a.duty.frame[..a.duty.done]
  }

  /** A copy out under the mutex is right as far as it got, and no copy out holds
      anything but zeros of a mapping nobody wrote. */
  predicate ReadsRight(sections: map<nat, Section>, a: Agent) {
    a.reader.Reading? && a.cache.Opened? ==>
      && a.cache.section in sections
      && CopyRight(sections[a.cache.section], a.reader.held, a.reader.out)
  }

  predicate CopyRight(section: Section, held: bool, out: Bytes) {
    && |out| <= |section.bytes|
    && (held ==> out == section.bytes[..|out|])
    && (section.writer.None? ==> AllZero(out))
  }

  predicate AllZero(bs: Bytes) {
    forall i :: 0 <= i < |bs| ==> bs[i] == 0
  }

  // -------------------------------------------------------- of all processes

  predicate AllShaped(agents: map<nat, Agent>) {
    forall p :: p in agents ==> Shaped(agents[p])
  }

  predicate AllHandles(agents: map<nat, Agent>, sectionOf: map<nat, nat>, mutexOf: map<nat, nat>) {
    forall p :: p in agents ==> HandlesRight(sectionOf, mutexOf, agents[p])
  }

  predicate AllPort(agents: map<nat, Agent>, port: Option<nat>) {
    && (port.Some? ==> port.value in agents)
    && forall p :: p in agents ==> PortRight(port, p, agents[p])
  }

  predicate AllOwn(agents: map<nat, Agent>, mutexes: map<nat, Mutex>) {
    forall p :: p in agents ==> OwnsRight(mutexes, p, agents[p])
  }

  predicate AllWrites(agents: map<nat, Agent>, sections: map<nat, Section>) {
    forall p :: p in agents ==> WritesRight(sections, agents[p])
  }

  predicate AllReads(agents: map<nat, Agent>, sections: map<nat, Section>) {
    forall p :: p in agents ==> ReadsRight(sections, agents[p])
  }

  // ------------------------------------------------------------ of the rest

  /** The bytes of a mapping nobody is writing and no writer died over. */
  function Whole(section: Section): Bytes {
    if section.latest.Some? then section.latest.value else Zeros(HEAP_LEN)
  }

  /** The mapping being written: only the holder of the port could be writing. */
  function Busy(agents: map<nat, Agent>, port: Option<nat>): Option<nat> {
    if port.Some? && port.value in agents && agents[port.value].duty.Writing?
    then Some(agents[port.value].duty.section) else None
  }

  predicate SectionRight(busy: Option<nat>, holders: set<nat>, x: nat, section: Section) {
    && |section.bytes| == HEAP_LEN
    && (section.latest.Some? ==> IsFrame(section.latest.value))
    && (section.writer.None? ==> AllZero(section.bytes) && section.latest.None?)
    && (section.writer.Some? ==> section.writer.value in holders)
    && (busy != Some(x) && !section.torn ==> section.bytes == Whole(section))
  }

  predicate AllSections(sections: map<nat, Section>, busy: Option<nat>, holders: set<nat>) {
    forall x :: x in sections ==> SectionRight(busy, holders, x, sections[x])
  }

  predicate SectionNames(sectionOf: map<nat, nat>, sections: map<nat, Section>, made: nat) {
    && (forall k :: k in sectionOf ==>
          sectionOf[k] in sections && sections[sectionOf[k]].session == k)
    && forall x :: x in sections ==> x < made
  }

  predicate MutexNames(mutexOf: map<nat, nat>, mutexes: map<nat, Mutex>, made: nat) {
    && (forall k :: k in mutexOf ==> mutexOf[k] in mutexes && mutexes[mutexOf[k]].session == k)
    && forall m :: m in mutexes ==> m < made
  }

  predicate AllSpawned(agents: map<nat, Agent>, spawned: nat) {
    forall p :: p in agents ==> p < spawned
  }

  predicate PortRemembered(port: Option<nat>, holders: set<nat>) {
    port.Some? ==> port.value in holders
  }

  predicate Inv(s: State) {
    && SectionNames(s.sectionOf, s.sections, s.made) && MutexNames(s.mutexOf, s.mutexes, s.made)
    && AllSpawned(s.agents, s.spawned) && PortRemembered(s.port, s.holders)
    && AllShaped(s.agents) && AllHandles(s.agents, s.sectionOf, s.mutexOf)
    && AllPort(s.agents, s.port) && AllOwn(s.agents, s.mutexes)
    && AllWrites(s.agents, s.sections) && AllReads(s.agents, s.sections)
    && AllSections(s.sections, Busy(s.agents, s.port), s.holders)
  }

  // -------------------------------------------------------------- collecting

  lemma CollectedKeeps(s: State)
    requires Inv(s)
    ensures Inv(Collected(s))
  {
    var s1 := Collected(s);
    forall p | p in s.agents ensures HandlesRight(s1.sectionOf, s1.mutexOf, s.agents[p]) {
      var a := s.agents[p];
      assert HandlesRight(s.sectionOf, s.mutexOf, a);
      assert forall x :: HasSection(a, x) ==> SectionHeld(s.agents, x);
      assert forall m :: HasMutex(a, m) ==> MutexHeld(s.agents, m);
    }
  }

  // ------------------------------------------------ steps of one agent alone

  /** What is asked of a process for its handles, its mutexes and its copies. */
  predicate AgentRight(s: State, p: nat, a: Agent) {
    && Shaped(a) && HandlesRight(s.sectionOf, s.mutexOf, a) && OwnsRight(s.mutexes, p, a)
    && WritesRight(s.sections, a) && ReadsRight(s.sections, a)
  }

  predicate AgentsRight(s: State) {
    && AllShaped(s.agents) && AllHandles(s.agents, s.sectionOf, s.mutexOf)
    && AllOwn(s.agents, s.mutexes) && AllWrites(s.agents, s.sections)
    && AllReads(s.agents, s.sections)
  }

  lemma AgentIsRight(s: State, p: nat)
    requires Inv(s) && p in s.agents
    ensures AgentRight(s, p, s.agents[p]) && PortRight(s.port, p, s.agents[p])
    ensures p < s.spawned
  {
  }

  lemma AgentReplaced(s: State, p: nat, a: Agent)
    requires AgentsRight(s) && AgentRight(s, p, a)
    ensures AgentsRight(With(s, p, a))
  {
  }

  /** Nothing but process `p` changes, and its part in the port and in writing
      stays what it was. */
  lemma AgentStep(s: State, p: nat, a: Agent)
    requires Inv(s) && p in s.agents && AgentRight(s, p, a) && PortRight(s.port, p, a)
    requires a.duty.Writing? <==> s.agents[p].duty.Writing?
    requires a.duty.Writing? ==> a.duty.section == s.agents[p].duty.section
    ensures Inv(With(s, p, a))
  {
    AgentReplaced(s, p, a);
    AgentIsRight(s, p);
    PortUntouched(s.agents, s.port, p, a);
    assert Busy(s.agents[p := a], s.port) == Busy(s.agents, s.port);
  }

  lemma PortUntouched(agents: map<nat, Agent>, port: Option<nat>, p: nat, a: Agent)
    requires AllPort(agents, port) && PortRight(port, p, a)
    ensures AllPort(agents[p := a], port)
  {
  }

  lemma SpawnKeeps(s: State, session: nat, standalone: bool)
    requires Inv(s)
    ensures Inv(Act(s, Spawn(session, standalone)))
  {
    var a := Agent(session, standalone, Resting, None, Unasked, Idle);
    AgentReplaced(s, s.spawned, a);
    PortUntouched(s.agents, s.port, s.spawned, a);
    assert Busy(s.agents[s.spawned := a], s.port) == Busy(s.agents, s.port);
  }

  lemma StartKeeps(s: State, p: nat)
    requires Inv(s) && Enabled(s, Start(p))
    ensures Inv(Act(s, Start(p)))
  {
    AgentIsRight(s, p);
    AgentStep(s, p, s.agents[p].(duty := Trying));
  }

  lemma ProbeOpenKeeps(s: State, p: nat)
    requires Inv(s) && Enabled(s, ProbeOpen(p))
    ensures Inv(Act(s, ProbeOpen(p)))
  {
    AgentIsRight(s, p);
    AgentStep(s, p, Act(s, ProbeOpen(p)).agents[p]);
  }

  lemma ProbeMutexKeeps(s: State, p: nat)
    requires Inv(s) && Enabled(s, ProbeMutex(p))
    ensures Inv(Act(s, ProbeMutex(p)))
  {
    AgentIsRight(s, p);
    AgentStep(s, p, Act(s, ProbeMutex(p)).agents[p]);
  }

  lemma ProbeCloseKeeps(s: State, p: nat)
    requires Inv(s) && Enabled(s, ProbeClose(p))
    ensures Inv(Act(s, ProbeClose(p)))
  {
    AgentIsRight(s, p);
    AgentStep(s, p, s.agents[p].(duty := Trying));
  }

  lemma SkipWriteKeeps(s: State, p: nat)
    requires Inv(s) && Enabled(s, SkipWrite(p))
    ensures Inv(Act(s, SkipWrite(p)))
  {
    AgentIsRight(s, p);
    AgentStep(s, p, Act(s, SkipWrite(p)).agents[p]);
  }

  lemma OpenMappingKeeps(s: State, p: nat, works: bool)
    requires Inv(s) && Enabled(s, OpenMapping(p, works))
    ensures Inv(Act(s, OpenMapping(p, works)))
  {
    AgentIsRight(s, p);
    AgentStep(s, p, Act(s, OpenMapping(p, works)).agents[p]);
  }

  lemma OpenMutexKeeps(s: State, p: nat)
    requires Inv(s) && Enabled(s, OpenMutex(p))
    ensures Inv(Act(s, OpenMutex(p)))
  {
    AgentIsRight(s, p);
    AgentStep(s, p, Act(s, OpenMutex(p)).agents[p]);
  }

  // -------------------------------------------------------------- the port

  /** A process that is not writing takes the port, nobody having it. */
  lemma PortTaken(s: State, p: nat, duty: Duty)
    requires Inv(s) && p in s.agents && s.port.None?
    requires var a := s.agents[p].(duty := duty);
      AgentRight(s, p, a) && HoldsPort(a) && !duty.Writing?
    ensures Inv(TakePort(WithDuty(s, p, duty), p))
  {
    AgentReplaced(s, p, s.agents[p].(duty := duty));
  }

  lemma BindKeeps(s: State, p: nat)
    requires Inv(s) && Enabled(s, Bind(p))
    ensures Inv(Act(s, Bind(p)))
  {
    AgentIsRight(s, p);
    if s.port.None? {
      PortTaken(s, p, Bound);
    } else {
      AgentStep(s, p, s.agents[p].(duty := Refused));
    }
  }

  lemma BindLastKeeps(s: State, p: nat)
    requires Inv(s) && Enabled(s, BindLast(p))
    ensures Inv(Act(s, BindLast(p)))
  {
    AgentIsRight(s, p);
    if s.port.None? {
      PortTaken(s, p, Publishing(s.agents[p].duty.section, s.agents[p].duty.mutex, 0));
    } else {
      AgentStep(s, p, s.agents[p].(duty := Stopped));
    }
  }

  lemma PortLeft(agents: map<nat, Agent>, p: nat, a: Agent)
    requires AllPort(agents, Some(p)) && !HoldsPort(a)
    ensures AllPort(agents[p := a], None)
  {
  }

  lemma CreateFailsKeeps(s: State, p: nat)
    requires Inv(s) && Enabled(s, CreateFails(p))
    ensures Inv(Act(s, CreateFails(p)))
  {
    var a := s.agents[p].(duty := Stopped, said := Some(Failed));
    AgentIsRight(s, p);
    if s.port != Some(p) {
      AgentStep(s, p, a);
    } else {
      AgentReplaced(s, p, a);
      PortLeft(s.agents, p, a);
      assert Busy(s.agents[p := a], None) == Busy(s.agents, s.port);
    }
  }

  // ------------------------------------------------------------- the objects

  lemma NamesAdded(agents: map<nat, Agent>, sectionOf: map<nat, nat>, mutexOf: map<nat, nat>,
                   k: nat, x: nat)
    requires AllHandles(agents, sectionOf, mutexOf)
    ensures k !in sectionOf ==> AllHandles(agents, sectionOf[k := x], mutexOf)
    ensures k !in mutexOf ==> AllHandles(agents, sectionOf, mutexOf[k := x])
  {
  }

  lemma CopiesUntouched(agents: map<nat, Agent>, sections: map<nat, Section>, x: nat,
                        section: Section)
    requires AllWrites(agents, sections) && AllReads(agents, sections) && x !in sections
    ensures AllWrites(agents, sections[x := section]) && AllReads(agents, sections[x := section])
  {
  }

  lemma OwnersUntouched(agents: map<nat, Agent>, mutexes: map<nat, Mutex>, m: nat, mutex: Mutex)
    requires AllOwn(agents, mutexes) && m !in mutexes
    ensures AllOwn(agents, mutexes[m := mutex])
  {
  }

  /** A mapping no one has a handle on yet is named. */
  lemma SectionMade(s: State, k: nat)
    requires Inv(s) && k !in s.sectionOf
    ensures Inv(NewSection(s, k))
  {
    NamesAdded(s.agents, s.sectionOf, s.mutexOf, k, s.made);
    CopiesUntouched(s.agents, s.sections, s.made, Section(k, Zeros(HEAP_LEN), None, false, None));
    MoreMade(s);
  }

  lemma MoreMade(s: State)
    requires Inv(s)
    ensures MutexNames(s.mutexOf, s.mutexes, s.made + 1)
    ensures SectionNames(s.sectionOf, s.sections, s.made + 1)
    ensures s.made !in s.sections && s.made !in s.mutexes
  {
  }

  lemma MutexMade(s: State, k: nat)
    requires Inv(s) && k !in s.mutexOf
    ensures Inv(NewMutex(s, k))
  {
    NamesAdded(s.agents, s.sectionOf, s.mutexOf, k, s.made);
    OwnersUntouched(s.agents, s.mutexes, s.made, Mutex(k, None));
    MoreMade(s);
  }

  lemma CreateMappingKeeps(s: State, p: nat)
    requires Inv(s) && Enabled(s, CreateMapping(p))
    ensures Inv(Act(s, CreateMapping(p)))
  {
    var k := s.agents[p].session;
    if k in s.sectionOf {
      MappingAttached(s, p);
    } else {
      SectionMade(s, k);
      MappingAttached(NewSection(s, k), p);
    }
  }

  lemma MappingAttached(s: State, p: nat)
    requires Inv(s) && p in s.agents && ToCreate(s.agents[p]) && s.agents[p].session in s.sectionOf
    ensures Inv(WithDuty(s, p, Mapped(s.sectionOf[s.agents[p].session])))
  {
    AgentIsRight(s, p);
    AgentStep(s, p, s.agents[p].(duty := Mapped(s.sectionOf[s.agents[p].session])));
  }

  lemma CreateMutexKeeps(s: State, p: nat)
    requires Inv(s) && Enabled(s, CreateMutex(p))
    ensures Inv(Act(s, CreateMutex(p)))
  {
    var k := s.agents[p].session;
    if k in s.mutexOf {
      MutexAttached(s, p);
    } else {
      MutexMade(s, k);
      MutexAttached(NewMutex(s, k), p);
    }
  }

  lemma MutexAttached(s: State, p: nat)
    requires Inv(s) && p in s.agents && s.agents[p].duty.Mapped?
    requires s.agents[p].session in s.mutexOf
    ensures var a := s.agents[p]; Inv(With(s, p, Created(a, a.duty.section, s.mutexOf[a.session])))
  {
    var a := s.agents[p];
    AgentIsRight(s, p);
    AgentStep(s, p, Created(a, a.duty.section, s.mutexOf[a.session]));
  }

  // -------------------------------------------------------------- the mutex

  function Owned(mutexes: map<nat, Mutex>, m: nat, owner: Option<Thread>): map<nat, Mutex>
    requires m in mutexes
  {
    mutexes[m := mutexes[m].(owner := owner)]
  }

  /** What `p` may do with a mutex nobody else owns is nobody else's matter. */
  lemma OwnerChanged(agents: map<nat, Agent>, mutexes: map<nat, Mutex>, m: nat,
                     owner: Option<Thread>, p: nat, a: Agent)
    requires AllOwn(agents, mutexes) && m in mutexes
    requires mutexes[m].owner.Some? ==> mutexes[m].owner.value.agent == p
    requires OwnsRight(Owned(mutexes, m, owner), p, a)
    ensures AllOwn(agents[p := a], Owned(mutexes, m, owner))
  {
  }

  lemma NamesKept(mutexOf: map<nat, nat>, mutexes: map<nat, Mutex>, made: nat, m: nat,
                  owner: Option<Thread>)
    requires MutexNames(mutexOf, mutexes, made) && m in mutexes
    ensures MutexNames(mutexOf, Owned(mutexes, m, owner), made)
  {
  }

  /** The state with process `p` replaced, a mutex given or taken by it. */
  lemma OwnerStep(s: State, p: nat, a: Agent, m: nat, owner: Option<Thread>)
    requires Inv(s) && p in s.agents && m in s.mutexes
    requires s.mutexes[m].owner.Some? ==> s.mutexes[m].owner.value.agent == p
    requires Shaped(a) && HandlesRight(s.sectionOf, s.mutexOf, a) && PortRight(s.port, p, a)
    requires WritesRight(s.sections, a) && ReadsRight(s.sections, a)
    requires OwnsRight(Owned(s.mutexes, m, owner), p, a)
    requires AllSections(s.sections, Busy(s.agents[p := a], s.port), s.holders)
    ensures Inv(WithOwner(With(s, p, a), m, owner))
  {
    OwnerChanged(s.agents, s.mutexes, m, owner, p, a);
    NamesKept(s.mutexOf, s.mutexes, s.made, m, owner);
    PortUntouched(s.agents, s.port, p, a);
    AgentIsRight(s, p);
  }

  // ---------------------------------------------------------------- writing

  lemma NonZeroFrame(id: nat, payload: Payload)
    requires 0 < id < DATA_ID_WRAP
    ensures IsFrame(HeapBytes(id, payload))
  {
    DataIdReadsBack(id, payload);
  }

  lemma BeginWriteKeeps(s: State, p: nat, payload: Payload)
    requires Inv(s) && Enabled(s, BeginWrite(p, payload))
    ensures Inv(Act(s, BeginWrite(p, payload)))
  {
    var duty := s.agents[p].duty;
    var id := NextDataId(duty.id);
    NonZeroFrame(id, payload);
    AgentIsRight(s, p);
    var a := s.agents[p].(duty :=
      Writing(duty.section, duty.mutex, id, HeapBytes(id, payload), 0));
    assert s.port == Some(p);
    SectionRightNow(s, duty.section);
    OwnerStep(s, p, a, duty.mutex, Some(WriterOf(p)));
  }

  lemma SectionRightNow(s: State, x: nat)
    requires Inv(s)
    ensures x in s.sections ==>
      SectionRight(Busy(s.agents, s.port), s.holders, x, s.sections[x])
    ensures (exists k :: k in s.sectionOf && s.sectionOf[k] == x) ==> x in s.sections
  {
  }

  /** Two handles on one mapping are of one session, and so of one mutex. */
  lemma OneMutex(s: State, p: nat, q: nat)
    requires Inv(s) && p in s.agents && q in s.agents
    requires s.agents[p].duty.Writing?
    requires CacheSection(s.agents[q]) == Some(s.agents[p].duty.section)
    ensures !HoldsToRead(s.agents[q])
  {
    AgentIsRight(s, p);
    AgentIsRight(s, q);
    var x := s.agents[p].duty.section;
    assert s.sections[x].session == s.agents[p].session == s.agents[q].session;
  }

  lemma OneWriter(s: State, p: nat, q: nat)
    requires Inv(s) && p in s.agents && q in s.agents && p != q
    requires HoldsPort(s.agents[p])
    ensures !HoldsPort(s.agents[q])
  {
    AgentIsRight(s, p);
    AgentIsRight(s, q);
  }

  lemma OneMoreByte(bytes: Bytes, frame: Bytes, n: nat)
    requires |bytes| == |frame| == HEAP_LEN && n < HEAP_LEN && bytes[..n] == frame[..n]
    ensures bytes[n := frame[n]][..n + 1] == frame[..n + 1]
  {
    var after := bytes[n := frame[n]];
    assert after[..n + 1] == after[..n] + [after[n]] && frame[..n + 1] == frame[..n] + [frame[n]];
    assert after[..n] == bytes[..n];
  }

  lemma CopiesUnderWriter(s: State, p: nat, section: Section)
    requires Inv(s) && p in s.agents && s.agents[p].duty.Writing?
    requires |section.bytes| == HEAP_LEN && section.writer.Some?
    ensures AllReads(s.agents, s.sections[s.agents[p].duty.section := section])
  {
    var x := s.agents[p].duty.section;
    forall q | q in s.agents ensures ReadsRight(s.sections[x := section], s.agents[q]) {
      AgentIsRight(s, q);
      if CacheSection(s.agents[q]) == Some(x) {
        OneMutex(s, p, q);
      }
    }
  }

  /** Nobody else is copying in. */
  lemma CopyGoesOn(s: State, p: nat, after: Section)
    requires Inv(s) && p in s.agents && s.agents[p].duty.Writing?
    requires var duty := s.agents[p].duty;
      |after.bytes| == HEAP_LEN == |duty.frame| && duty.done <= HEAP_LEN
      && after.bytes[..duty.done] == duty.frame[..duty.done]
    ensures AllWrites(s.agents, s.sections[s.agents[p].duty.section := after])
  {
    forall q | q in s.agents
      ensures WritesRight(s.sections[s.agents[p].duty.section := after], s.agents[q])
    {
      if q != p {
        OneWriter(s, p, q);
      }
    }
  }

  lemma ByteLands(s: State, p: nat)
    requires Inv(s) && Enabled(s, WriteByte(p))
    ensures var x := s.agents[p].duty.section;
      Inv(WithSection(s, x, OneByteIn(s.sections[x], s.agents[p].duty, p)))
  {
    var duty := s.agents[p].duty;
    var x := duty.section;
    var after := OneByteIn(s.sections[x], duty, p);
    AgentIsRight(s, p);
    SectionRightNow(s, x);
    assert after.bytes[..duty.done] == s.sections[x].bytes[..duty.done];
    CopiesUnderWriter(s, p, after);
    CopyGoesOn(s, p, after);
    assert s.port == Some(p) && p in s.holders;
    WrittenSection(s.sections, Busy(s.agents, s.port), s.holders, x, after);
    SectionNamesKept(s.sectionOf, s.sections, s.made, x, after);
  }

  lemma WriteByteKeeps(s: State, p: nat)
    requires Inv(s) && Enabled(s, WriteByte(p))
    ensures Inv(Act(s, WriteByte(p)))
  {
    var duty := s.agents[p].duty;
    var s1 := WithSection(s, duty.section, OneByteIn(s.sections[duty.section], duty, p));
    AgentIsRight(s, p);
    OneMoreByte(s.sections[duty.section].bytes, duty.frame, duty.done);
    ByteLands(s, p);
    ByteCounted(s1, p);
    assert Act(s, WriteByte(p)) == WithDuty(s1, p, duty.(done := duty.done + 1));
  }

  lemma ByteCounted(s: State, p: nat)
    requires Inv(s) && p in s.agents && s.agents[p].duty.Writing?
    requires var duty := s.agents[p].duty;
      && duty.section in s.sections && duty.done < HEAP_LEN
      && |s.sections[duty.section].bytes| == HEAP_LEN == |duty.frame|
      && s.sections[duty.section].bytes[..duty.done + 1] == duty.frame[..duty.done + 1]
    ensures var duty := s.agents[p].duty; Inv(WithDuty(s, p, duty.(done := duty.done + 1)))
  {
    var duty := s.agents[p].duty;
    AgentIsRight(s, p);
    AgentStep(s, p, s.agents[p].(duty := duty.(done := duty.done + 1)));
  }

  lemma WrittenSection(sections: map<nat, Section>, busy: Option<nat>, holders: set<nat>, x: nat,
                       after: Section)
    requires AllSections(sections, busy, holders) && SectionRight(busy, holders, x, after)
    ensures AllSections(sections[x := after], busy, holders)
  {
  }

  lemma SectionNamesKept(sectionOf: map<nat, nat>, sections: map<nat, Section>, made: nat, x: nat,
                         after: Section)
    requires SectionNames(sectionOf, sections, made) && x in sections
    requires after.session == sections[x].session
    ensures SectionNames(sectionOf, sections[x := after], made)
  {
  }

  lemma FrameIsNotZero(frame: Bytes)
    requires IsFrame(frame)
    ensures !AllZero(frame)
  {
  }

  /** A copy that went to the end is the frame. */
  lemma FrameIsWhole(s: State, p: nat)
    requires Inv(s) && Enabled(s, EndWrite(p))
    ensures var duty := s.agents[p].duty;
      s.sections[duty.section].bytes == duty.frame && IsFrame(duty.frame)
      && s.sections[duty.section].writer.Some?
  {
    var duty := s.agents[p].duty;
    var bytes := s.sections[duty.section].bytes;
    AgentIsRight(s, p);
    assert bytes[..HEAP_LEN] == bytes && duty.frame[..HEAP_LEN] == duty.frame;
    FrameIsNotZero(duty.frame);
    SectionRightNow(s, duty.section);
  }

  /** The mapping once the copy is known to be whole. */
  lemma FrameLands(s: State, p: nat)
    requires Inv(s) && Enabled(s, EndWrite(p))
    ensures var duty := s.agents[p].duty;
      var after := s.sections[duty.section].(latest := Some(duty.frame), torn := false);
      Inv(WithSection(s, duty.section, after)) && after.bytes == Whole(after)
  {
    var duty := s.agents[p].duty;
    var x := duty.section;
    var after := s.sections[x].(latest := Some(duty.frame), torn := false);
    FrameIsWhole(s, p);
    AgentIsRight(s, p);
    SectionRightNow(s, x);
    CopiesUnderWriter(s, p, after);
    CopyGoesOn(s, p, after);
    WrittenSection(s.sections, Busy(s.agents, s.port), s.holders, x, after);
    SectionNamesKept(s.sectionOf, s.sections, s.made, x, after);
  }

  lemma NoLongerBusy(sections: map<nat, Section>, x: nat, holders: set<nat>)
    requires AllSections(sections, Some(x), holders)
    requires x in sections && sections[x].bytes == Whole(sections[x])
    ensures AllSections(sections, None, holders)
  {
  }

  lemma EndWriteKeeps(s: State, p: nat)
    requires Inv(s) && Enabled(s, EndWrite(p))
    ensures Inv(Act(s, EndWrite(p)))
  {
    var duty := s.agents[p].duty;
    var x := duty.section;
    var s1 := WithSection(s, x, s.sections[x].(latest := Some(duty.frame), torn := false));
    FrameLands(s, p);
    WriterLeaves(s1, p);
  }

  lemma WriterLeaves(s: State, p: nat)
    requires Inv(s) && p in s.agents && s.agents[p].duty.Writing?
    requires var x := s.agents[p].duty.section;
      x in s.sections && s.sections[x].bytes == Whole(s.sections[x])
    requires s.agents[p].duty.mutex in s.mutexes
    ensures var duty := s.agents[p].duty;
      Inv(WithOwner(WithDuty(s, p, Publishing(duty.section, duty.mutex, duty.id)), duty.mutex, None))
  {
    var duty := s.agents[p].duty;
    var a := s.agents[p].(duty := Publishing(duty.section, duty.mutex, duty.id));
    AgentIsRight(s, p);
    NoLongerBusy(s.sections, duty.section, s.holders);
    OwnerStep(s, p, a, duty.mutex, None);
  }

  // ---------------------------------------------------------------- reading

  lemma BeginReadKeeps(s: State, p: nat, held: bool)
    requires Inv(s) && Enabled(s, BeginRead(p, held))
    ensures Inv(Act(s, BeginRead(p, held)))
  {
    var a := s.agents[p].(reader := Reading(held, []));
    AgentIsRight(s, p);
    CacheIsThere(s, p);
    if held {
      OwnerStep(s, p, a, a.cache.mutex.value, Some(ReaderOf(p)));
    } else {
      AgentStep(s, p, a);
    }
  }

  lemma CacheIsThere(s: State, p: nat)
    requires Inv(s) && p in s.agents && s.agents[p].cache.Opened?
    ensures s.agents[p].cache.section in s.sections
    ensures s.agents[p].duty.Writing? && s.agents[p].cache.mutex.Some? ==>
      s.agents[p].duty.mutex == s.agents[p].cache.mutex.value
    ensures Busy(s.agents[p := s.agents[p].(reader := Reading(true, []))], s.port)
         == Busy(s.agents, s.port) == Busy(s.agents[p := s.agents[p].(reader := Idle)], s.port)
  {
    AgentIsRight(s, p);
  }

  lemma ReadByteKeeps(s: State, p: nat)
    requires Inv(s) && Enabled(s, ReadByte(p))
    ensures Inv(Act(s, ReadByte(p)))
  {
    var a := s.agents[p];
    var out, bytes := a.reader.out, s.sections[a.cache.section].bytes;
    AgentIsRight(s, p);
    SectionRightNow(s, a.cache.section);
    assert bytes[..|out| + 1] == bytes[..|out|] + [bytes[|out|]];
    AgentStep(s, p, a.(reader := Reading(a.reader.held, out + [bytes[|out|]])));
  }

  lemma EndReadKeeps(s: State, p: nat)
    requires Inv(s) && Enabled(s, EndRead(p))
    ensures Inv(Act(s, EndRead(p)))
  {
    var a := s.agents[p].(reader := Idle);
    AgentIsRight(s, p);
    CacheIsThere(s, p);
    if s.agents[p].reader.held {
      OwnerStep(s, p, a, a.cache.mutex.value, None);
    } else {
      AgentStep(s, p, a);
    }
  }

  // ------------------------------------------------------------------- exits

  lemma AgentRemoved(agents: map<nat, Agent>, s: State, p: nat)
    requires agents == s.agents && Inv(s)
    ensures AllSpawned(agents - {p}, s.spawned) && AllShaped(agents - {p})
    ensures AllHandles(agents - {p}, s.sectionOf, s.mutexOf)
    ensures AllWrites(agents - {p}, s.sections) && AllReads(agents - {p}, s.sections)
  {
  }

  lemma OwnersAbandoned(agents: map<nat, Agent>, mutexes: map<nat, Mutex>, p: nat)
    requires AllOwn(agents, mutexes)
    ensures AllOwn(agents - {p}, Abandoned(mutexes, p))
  {
    forall q | q in agents && q != p ensures OwnsRight(Abandoned(mutexes, p), q, agents[q]) {
      assert OwnsRight(mutexes, q, agents[q]);
    }
  }

  function PortAfter(port: Option<nat>, p: nat): Option<nat> {
    if port == Some(p) then None else port
  }

  lemma PortAbandoned(agents: map<nat, Agent>, port: Option<nat>, p: nat)
    requires AllPort(agents, port) && p in agents
    ensures AllPort(agents - {p}, PortAfter(port, p))
    ensures !agents[p].duty.Writing? ==>
      Busy(agents - {p}, PortAfter(port, p)) == Busy(agents, port)
    ensures agents[p].duty.Writing? ==>
      port == Some(p) && Busy(agents, port) == Some(agents[p].duty.section)
  {
    assert PortRight(port, p, agents[p]);
  }

  /** A process that is not writing is gone. */
  lemma GoneKeeps(s: State, p: nat)
    requires Inv(s) && p in s.agents
    requires AllSections(s.sections, Busy(s.agents - {p}, PortAfter(s.port, p)), s.holders)
    ensures Inv(s.(agents := s.agents - {p}, mutexes := Abandoned(s.mutexes, p),
                   port := PortAfter(s.port, p)))
  {
    AgentRemoved(s.agents, s, p);
    OwnersAbandoned(s.agents, s.mutexes, p);
    PortAbandoned(s.agents, s.port, p);
  }

  /** A mapping over which a writer died is given up. */
  lemma TornKeeps(s: State, p: nat)
    requires Inv(s) && p in s.agents && s.agents[p].duty.Writing?
    ensures var x := s.agents[p].duty.section; x in s.sections
    ensures var x := s.agents[p].duty.section;
      var s1 := WithSection(s, x, s.sections[x].(torn := true));
      Inv(s1) && AllSections(s1.sections, None, s1.holders)
  {
    var x := s.agents[p].duty.section;
    AgentIsRight(s, p);
    SectionRightNow(s, x);
    var after := s.sections[x].(torn := true);
    TornSections(s.sections, s.holders, x, after);
    TornCopies(s.agents, s.sections, x, after);
    WrittenSection(s.sections, Busy(s.agents, s.port), s.holders, x, after);
    SectionNamesKept(s.sectionOf, s.sections, s.made, x, after);
  }

  lemma TornSections(sections: map<nat, Section>, holders: set<nat>, x: nat, after: Section)
    requires AllSections(sections, Some(x), holders) && x in sections
    requires after == sections[x].(torn := true)
    ensures AllSections(sections[x := after], None, holders)
  {
  }

  lemma TornCopies(agents: map<nat, Agent>, sections: map<nat, Section>, x: nat, after: Section)
    requires AllWrites(agents, sections) && AllReads(agents, sections) && x in sections
    requires after == sections[x].(torn := true)
    ensures AllWrites(agents, sections[x := after]) && AllReads(agents, sections[x := after])
  {
  }

  lemma ExitKeeps(s: State, p: nat)
    requires Inv(s) && Enabled(s, Exit(p))
    ensures Inv(Act(s, Exit(p)))
  {
    PortAbandoned(s.agents, s.port, p);
    if s.agents[p].duty.Writing? {
      TornKeeps(s, p);
      var x := s.agents[p].duty.section;
      GoneKeeps(WithSection(s, x, s.sections[x].(torn := true)), p);
    } else {
      GoneKeeps(s, p);
    }
  }

  // ---------------------------------------------------------------- all steps

  predicate OfFeeder(step: Step) {
    || step.Spawn? || step.Exit? || step.Start? || step.Bind?
    || step.ProbeOpen? || step.ProbeMutex? || step.ProbeClose?
  }

  predicate OfCreating(step: Step) {
    step.CreateMapping? || step.CreateMutex? || step.CreateFails? || step.BindLast?
  }

  predicate OfWriting(step: Step) {
    step.BeginWrite? || step.SkipWrite? || step.WriteByte? || step.EndWrite?
  }

  lemma FeederActs(s: State, step: Step)
    requires Inv(s) && Enabled(s, step) && OfFeeder(step)
    ensures Inv(Act(s, step))
  {
    match step {
      case Spawn(session, standalone) => SpawnKeeps(s, session, standalone);
      case Exit(p) => ExitKeeps(s, p);
      case Start(p) => StartKeeps(s, p);
      case Bind(p) => BindKeeps(s, p);
      case ProbeOpen(p) => ProbeOpenKeeps(s, p);
      case ProbeMutex(p) => ProbeMutexKeeps(s, p);
      case ProbeClose(p) => ProbeCloseKeeps(s, p);
    }
  }

  lemma CreatorActs(s: State, step: Step)
    requires Inv(s) && Enabled(s, step) && OfCreating(step)
    ensures Inv(Act(s, step))
  {
    match step {
      case CreateMapping(p) => CreateMappingKeeps(s, p);
      case CreateMutex(p) => CreateMutexKeeps(s, p);
      case CreateFails(p) => CreateFailsKeeps(s, p);
      case BindLast(p) => BindLastKeeps(s, p);
    }
  }

  lemma WriterActs(s: State, step: Step)
    requires Inv(s) && Enabled(s, step) && OfWriting(step)
    ensures Inv(Act(s, step))
  {
    match step {
      case BeginWrite(p, payload) => BeginWriteKeeps(s, p, payload);
      case SkipWrite(p) => SkipWriteKeeps(s, p);
      case WriteByte(p) => WriteByteKeeps(s, p);
      case EndWrite(p) => EndWriteKeeps(s, p);
    }
  }

  lemma ReaderActs(s: State, step: Step)
    requires Inv(s) && Enabled(s, step)
    requires !OfFeeder(step) && !OfCreating(step) && !OfWriting(step)
    ensures Inv(Act(s, step))
  {
    match step {
      case OpenMapping(p, works) => OpenMappingKeeps(s, p, works);
      case OpenMutex(p) => OpenMutexKeeps(s, p);
      case BeginRead(p, held) => BeginReadKeeps(s, p, held);
      case ReadByte(p) => ReadByteKeeps(s, p);
      case EndRead(p) => EndReadKeeps(s, p);
    }
  }

  lemma ActKeeps(s: State, step: Step)
    requires Inv(s) && Enabled(s, step)
    ensures Inv(Act(s, step))
  {
    if OfFeeder(step) {
      FeederActs(s, step);
    } else if OfCreating(step) {
      CreatorActs(s, step);
    } else if OfWriting(step) {
      WriterActs(s, step);
    } else {
      ReaderActs(s, step);
    }
  }

  lemma {:induction false} RunsKeep(states: seq<State>, steps: seq<Step>, n: nat)
    requires IsRun(states, steps) && n < |states|
    ensures Inv(states[n])
  {
    if n > 0 {
      RunsKeep(states, steps, n - 1);
      ActKeeps(states[n - 1], steps[n - 1]);
      CollectedKeeps(Act(states[n - 1], steps[n - 1]));
    }
  }
}
