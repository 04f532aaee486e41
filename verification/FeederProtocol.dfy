/** Who may write the shared heap. A UDP port is one for the whole host; the
    mapping and the mutex are one each for every wineserver session, and live as
    long as somebody holds a handle on them. Any number of game processes, each
    with a feeder that retries the port and a reader that opens the mapping
    once, and of standalone providers, take their steps in any order and exit
    at any of them. */
module FeederProtocol {
  import opened Wrappers
  import opened Octets
  import opened SharedHeap

  // -------------------------------------------------------------- processes

  /** What the writing side of a process is at. A feeder asks for the port and
      then makes the mapping; a standalone provider does it the other way. */
  datatype Duty =
    | Resting
    | Trying
    | Refused
    | Probing(seen: Option<nat>)
    | Probed(section: nat, lock: Option<nat>)
    | Bound
    | Mapped(section: nat)
    | Prepared(section: nat, mutex: nat)
    | Publishing(section: nat, mutex: nat, id: nat)
    | Writing(section: nat, mutex: nat, id: nat, frame: Bytes, done: nat)
    | Stopped

  /** The consumer a client library opens once and keeps. */
  datatype Cache =
    | Unasked
    | NothingThere
    | Opening(section: nat)
    | Opened(section: nat, mutex: Option<nat>)

  /** A read under way, with the mutex or, after a wait that failed, without. */
  datatype Reader = Idle | Reading(held: bool, out: Bytes)

  /** What a feeder last reported of its attempts. */
  datatype Started = AlreadyTaken | Waiting | Feeding | Failed

  datatype Agent = Agent(
    session: nat,
    standalone: bool,
    duty: Duty,
    said: Option<Started>,
    cache: Cache,
    reader: Reader)

  /** A process has two threads here, and a mutex is owned by one of them. */
  datatype Thread = WriterOf(agent: nat) | ReaderOf(agent: nat)

  /** A mapping that was ever made: its session and its bytes; and, told after
      the fact, the last frame copied in whole, whether a writer died half way
      through one since, and who last changed a byte of it. */
  datatype Section = Section(
    session: nat, bytes: Bytes, latest: Option<Bytes>, torn: bool, writer: Option<nat>)

  datatype Mutex = Mutex(session: nat, owner: Option<Thread>)

  /** `spawned` and `made` are the next names for a process and for an object;
      `holders` are the processes that ever held the port. */
  datatype State = State(
    agents: map<nat, Agent>,
    spawned: nat,
    port: Option<nat>,
    sectionOf: map<nat, nat>,
    mutexOf: map<nat, nat>,
    sections: map<nat, Section>,
    mutexes: map<nat, Mutex>,
    made: nat,
    holders: set<nat>)

  const INITIAL := State(map[], 0, None, map[], map[], map[], map[], 0, {})

  // ---------------------------------------------------------------- handles

  function DutySection(a: Agent): Option<nat> {
    match a.duty
    case Probing(seen) => seen
    case Probed(x, _) => Some(x)
    case Mapped(x) => Some(x)
    case Prepared(x, _) => Some(x)
    case Publishing(x, _, _) => Some(x)
    case Writing(x, _, _, _, _) => Some(x)
    case _ => None
  }

  function DutyMutex(a: Agent): Option<nat> {
    match a.duty
    case Probed(_, lock) => lock
    case Prepared(_, m) => Some(m)
    case Publishing(_, m, _) => Some(m)
    case Writing(_, m, _, _, _) => Some(m)
    case _ => None
  }

  function CacheSection(a: Agent): Option<nat> {
    match a.cache
    case Opening(x) => Some(x)
    case Opened(x, _) => Some(x)
    case _ => None
  }

  function CacheMutex(a: Agent): Option<nat> {
    match a.cache
    case Opened(_, m) => m
    case _ => None
  }

  predicate HasSection(a: Agent, x: nat) {
    DutySection(a) == Some(x) || CacheSection(a) == Some(x)
  }

  predicate HasMutex(a: Agent, m: nat) {
    DutyMutex(a) == Some(m) || CacheMutex(a) == Some(m)
  }

  predicate HoldsPort(a: Agent) {
    match a.duty
    case Bound => true
    case Mapped(_) => !a.standalone
    case Publishing(_, _, _) => true
    case Writing(_, _, _, _, _) => true
    case _ => false
  }

  predicate CanPublish(a: Agent) {
    a.duty.Publishing? || a.duty.Writing?
  }

  ghost predicate SectionHeld(agents: map<nat, Agent>, x: nat) {
    exists p :: p in agents && HasSection(agents[p], x)
  }

  ghost predicate MutexHeld(agents: map<nat, Agent>, m: nat) {
    exists p :: p in agents && HasMutex(agents[p], m)
  }

  function Lookup(names: map<nat, nat>, session: nat): Option<nat> {
    if session in names then Some(names[session]) else None
  }

  /** A name goes with the last handle on what it names. */
  ghost function Collected(s: State): State {
    s.(sectionOf := map k | k in s.sectionOf && SectionHeld(s.agents, s.sectionOf[k]) :: s.sectionOf[k],
       mutexOf := map k | k in s.mutexOf && MutexHeld(s.agents, s.mutexOf[k]) :: s.mutexOf[k])
  }

  // ------------------------------------------------------------------ steps

  datatype Step =
    | Spawn(session: nat, standalone: bool)
    | Exit(p: nat)
    // a feeder
    | Start(p: nat)
    | Bind(p: nat)
    | ProbeOpen(p: nat)
    | ProbeMutex(p: nat)
    | ProbeClose(p: nat)
    // either kind of provider
    | CreateMapping(p: nat)
    | CreateMutex(p: nat)
    | CreateFails(p: nat)
    | BindLast(p: nat)
    | BeginWrite(p: nat, payload: Payload)
    | SkipWrite(p: nat)
    | WriteByte(p: nat)
    | EndWrite(p: nat)
    // a consumer
    | OpenMapping(p: nat, works: bool)
    | OpenMutex(p: nat)
    | BeginRead(p: nat, held: bool)
    | ReadByte(p: nat)
    | EndRead(p: nat)

  predicate Free(s: State, m: nat) {
    m in s.mutexes && s.mutexes[m].owner.None?
  }

  predicate Enabled(s: State, step: Step) {
    match step
    case Spawn(_, _) => true
    case Exit(p) => p in s.agents
    case Start(p) => p in s.agents && s.agents[p].duty.Resting? && !s.agents[p].standalone
    case Bind(p) => p in s.agents && s.agents[p].duty.Trying?
    case ProbeOpen(p) => p in s.agents && s.agents[p].duty.Refused?
    case ProbeMutex(p) =>
      p in s.agents && s.agents[p].duty.Probing? && s.agents[p].duty.seen.Some?
    case ProbeClose(p) =>
      && p in s.agents
      && (s.agents[p].duty.Probed? || (s.agents[p].duty.Probing? && s.agents[p].duty.seen.None?))
    case CreateMapping(p) => p in s.agents && ToCreate(s.agents[p])
    case CreateMutex(p) => p in s.agents && s.agents[p].duty.Mapped?
    case CreateFails(p) =>
      p in s.agents && (ToCreate(s.agents[p]) || s.agents[p].duty.Mapped?)
    case BindLast(p) => p in s.agents && s.agents[p].duty.Prepared?
    case BeginWrite(p, _) =>
      p in s.agents && s.agents[p].duty.Publishing? && Free(s, s.agents[p].duty.mutex)
    case SkipWrite(p) => p in s.agents && s.agents[p].duty.Publishing?
    case WriteByte(p) =>
      && p in s.agents && s.agents[p].duty.Writing? && s.agents[p].duty.done < HEAP_LEN
      && s.agents[p].duty.section in s.sections
      && |s.agents[p].duty.frame| == HEAP_LEN
      && |s.sections[s.agents[p].duty.section].bytes| == HEAP_LEN
    case EndWrite(p) =>
      && p in s.agents && s.agents[p].duty.Writing? && s.agents[p].duty.done == HEAP_LEN
      && s.agents[p].duty.section in s.sections && s.agents[p].duty.mutex in s.mutexes
    case OpenMapping(p, _) =>
      && p in s.agents && s.agents[p].cache.Unasked?
      && !s.agents[p].duty.Resting? && !s.agents[p].standalone
    case OpenMutex(p) => p in s.agents && s.agents[p].cache.Opening?
    case BeginRead(p, held) =>
      && p in s.agents && s.agents[p].cache.Opened? && s.agents[p].reader.Idle?
      && (held ==> s.agents[p].cache.mutex.Some? && Free(s, s.agents[p].cache.mutex.value))
    case ReadByte(p) =>
      && p in s.agents && s.agents[p].cache.Opened? && s.agents[p].reader.Reading?
      && s.agents[p].cache.section in s.sections
      && |s.agents[p].reader.out| < |s.sections[s.agents[p].cache.section].bytes|
    case EndRead(p) =>
      && p in s.agents && s.agents[p].cache.Opened? && s.agents[p].reader.Reading?
      && |s.agents[p].reader.out| == HEAP_LEN
      && (s.agents[p].reader.held ==>
            s.agents[p].cache.mutex.Some? && s.agents[p].cache.mutex.value in s.mutexes)
  }

  /** `Provider::create` comes next: after the port, or first of all. */
  predicate ToCreate(a: Agent) {
    if a.standalone then a.duty.Resting? else a.duty.Bound?
  }

  function With(s: State, p: nat, a: Agent): State {
    s.(agents := s.agents[p := a])
  }

  function WithDuty(s: State, p: nat, duty: Duty): State
    requires p in s.agents
  {
    With(s, p, s.agents[p].(duty := duty))
  }

  function WithOwner(s: State, m: nat, owner: Option<Thread>): State
    requires m in s.mutexes
  {
    s.(mutexes := s.mutexes[m := s.mutexes[m].(owner := owner)])
  }

  function WithSection(s: State, x: nat, section: Section): State {
    s.(sections := s.sections[x := section])
  }

  function TakePort(s: State, p: nat): State {
    s.(port := Some(p), holders := s.holders + {p})
  }

  function LeavePort(s: State, p: nat): State {
    if s.port == Some(p) then s.(port := None) else s
  }

  /** The threads of a process that is gone own nothing. */
  function Abandon(owner: Option<Thread>, p: nat): Option<Thread> {
    if owner.Some? && owner.value.agent == p then None else owner
  }

  function Abandoned(mutexes: map<nat, Mutex>, p: nat): map<nat, Mutex> {
    map m | m in mutexes :: mutexes[m].(owner := Abandon(mutexes[m].owner, p))
  }

  /** A mapping of zeros, under the name in its session. */
  function NewSection(s: State, k: nat): State {
    WithSection(s, s.made, Section(k, Zeros(HEAP_LEN), None, false, None))
      .(sectionOf := s.sectionOf[k := s.made], made := s.made + 1)
  }

  function NewMutex(s: State, k: nat): State {
    s.(mutexes := s.mutexes[s.made := Mutex(k, None)], mutexOf := s.mutexOf[k := s.made],
       made := s.made + 1)
  }

  /** What a name stands for, once it is made sure that there is such an object. */
  function Named(names: map<nat, nat>, session: nat, made: nat): nat {
    if session in names then names[session] else made
  }

  /** What `Provider::create` ends in: a feeder, which has the port, can publish. */
  function Created(a: Agent, x: nat, m: nat): Agent {
    if a.standalone then a.(duty := Prepared(x, m))
    else a.(duty := Publishing(x, m, 0), said := Some(Feeding))
  }

  /** What the mapping becomes with one more byte copied in. */
  function OneByteIn(section: Section, duty: Duty, p: nat): Section
    requires duty.Writing? && duty.done < HEAP_LEN == |duty.frame| && |section.bytes| == HEAP_LEN
  {
    section.(bytes := section.bytes[duty.done := duty.frame[duty.done]], writer := Some(p))
  }

  /** A process ends: its port is free, its mutexes are abandoned, and a mapping
      it was writing stays as far as it got. */
  function DoExit(s: State, p: nat): State
    requires p in s.agents
  {
    var a := s.agents[p];
    var s1 := LeavePort(s.(agents := s.agents - {p}, mutexes := Abandoned(s.mutexes, p)), p);
    if a.duty.Writing? && a.duty.section in s.sections then
      WithSection(s1, a.duty.section, s.sections[a.duty.section].(torn := true))
    else s1
  }

  /** The process that takes the step. */
  function Actor(s: State, step: Step): nat {
    if step.Spawn? then s.spawned else step.p
  }

  /** What becomes of the process itself. */
  function NextAgent(s: State, step: Step): Agent
    requires Enabled(s, step)
  {
    if step.Spawn? then Agent(step.session, step.standalone, Resting, None, Unasked, Idle)
    else
      var a := s.agents[step.p];
      var duty := a.duty;
      match step
      case Start(_) => a.(duty := Trying)
      case Bind(_) => a.(duty := if s.port.None? then Bound else Refused)
      case ProbeOpen(_) =>
        var seen := Lookup(s.sectionOf, a.session);
        a.(duty := Probing(seen), said := Some(if seen.Some? then AlreadyTaken else Waiting))
      case ProbeMutex(_) => a.(duty := Probed(duty.seen.value, Lookup(s.mutexOf, a.session)))
      case ProbeClose(_) => a.(duty := Trying)
      case CreateMapping(_) => a.(duty := Mapped(Named(s.sectionOf, a.session, s.made)))
      case CreateMutex(_) => Created(a, duty.section, Named(s.mutexOf, a.session, s.made))
      case CreateFails(_) => a.(duty := Stopped, said := Some(Failed))
      case BindLast(_) =>
        a.(duty := if s.port.None? then Publishing(duty.section, duty.mutex, 0) else Stopped)
      case BeginWrite(_, payload) =>
        var id := NextDataId(duty.id);
        a.(duty := Writing(duty.section, duty.mutex, id, HeapBytes(id, payload), 0))
      case SkipWrite(_) => a.(duty := Publishing(duty.section, duty.mutex, NextDataId(duty.id)))
      case WriteByte(_) => a.(duty := duty.(done := duty.done + 1))
      case EndWrite(_) => a.(duty := Publishing(duty.section, duty.mutex, duty.id))
      case OpenMapping(_, works) =>
        var seen := Lookup(s.sectionOf, a.session);
        a.(cache := if works && seen.Some? then Opening(seen.value) else NothingThere)
      case OpenMutex(_) => a.(cache := Opened(a.cache.section, Lookup(s.mutexOf, a.session)))
      case BeginRead(_, held) => a.(reader := Reading(held, []))
      case ReadByte(_) =>
        var out := a.reader.out;
        a.(reader := Reading(a.reader.held, out + [s.sections[a.cache.section].bytes[|out|]]))
      case EndRead(_) => a.(reader := Idle)
      case _ => a
  }

  /** What becomes of the port, the objects and the names. */
  function Around(s: State, step: Step): (s1: State)
    requires Enabled(s, step)
    ensures s1.agents == s.agents
  {
    match step
    case Spawn(_, _) => s.(spawned := s.spawned + 1)
    case Bind(p) => if s.port.None? then TakePort(s, p) else s
    case BindLast(p) => if s.port.None? then TakePort(s, p) else s
    case CreateMapping(p) =>
      var k := s.agents[p].session;
      if k in s.sectionOf then s else NewSection(s, k)
    case CreateMutex(p) =>
      var k := s.agents[p].session;
      if k in s.mutexOf then s else NewMutex(s, k)
    case CreateFails(p) => LeavePort(s, p)
    case BeginWrite(p, _) => WithOwner(s, s.agents[p].duty.mutex, Some(WriterOf(p)))
    case WriteByte(p) =>
      var duty := s.agents[p].duty;
      WithSection(s, duty.section, OneByteIn(s.sections[duty.section], duty, p))
    case EndWrite(p) =>
      var duty := s.agents[p].duty;
      var whole := s.sections[duty.section].(latest := Some(duty.frame), torn := false);
      WithOwner(WithSection(s, duty.section, whole), duty.mutex, None)
    case BeginRead(p, held) =>
      if held then WithOwner(s, s.agents[p].cache.mutex.value, Some(ReaderOf(p))) else s
    case EndRead(p) =>
      var a := s.agents[p];
      if a.reader.held then WithOwner(s, a.cache.mutex.value, None) else s
    case _ => s
  }

  function Act(s: State, step: Step): State
    requires Enabled(s, step)
  {
    if step.Exit? then DoExit(s, step.p)
    else With(Around(s, step), Actor(s, step), NextAgent(s, step))
  }

  ghost function Next(s: State, step: Step): State
    requires Enabled(s, step)
  {
    Collected(Act(s, step))
  }

  /** The states of a run, and the steps between them. */
  ghost predicate IsRun(states: seq<State>, steps: seq<Step>) {
    && |states| == |steps| + 1 && states[0] == INITIAL
    && forall i {:trigger steps[i]} :: 0 <= i < |steps| ==>
         Enabled(states[i], steps[i]) && states[i + 1] == Next(states[i], steps[i])
  }
}
