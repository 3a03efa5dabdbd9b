/**
 * The two lock levels of the relay: the manager's RWMutex over the map, and one Mutex per Room. Handlers, Waiting,
 * the cleanup loop, deletions and Shutdown are programs of lock operations, run by any number of threads.
 */
module Locks {
  import opened Bytes

  type Room = nat
  type Thread = nat

  datatype Op = Lock | Unlock | RLock | RUnlock | LockRoom(room: Room) | UnlockRoom(room: Room)

  // ---- What each operation does with the locks ----

  function OnRoom(r: Room): seq<Op> { [LockRoom(r), UnlockRoom(r)] }

  function OnRooms(rooms: seq<Room>): seq<Op> {
    if rooms == [] then [] else OnRoom(rooms[0]) + OnRooms(rooms[1..])
  }

  /** GetOrCreateRoom and DeleteRoom. */
  const ON_MAP := [Lock, Unlock]

  /** `calls`: how often each operation on its room was made after AddClient: the broadcasts and the emptiness check. */
  datatype Program =
    | Handler(room: Room, joined: bool, calls: nat, foundEmpty: bool)
    | Waiting(found: Option<Room>)
    | ActiveRooms
    | CleanupTick(rooms: seq<Room>)
    | Shutdown(rooms: seq<Room>)

  function Repeat(r: Room, n: nat): seq<Room> {
    if n == 0 then [] else [r] + Repeat(r, n - 1)
  }

  function Ops(p: Program): seq<Op> {
    match p
    case Handler(r, joined, calls, foundEmpty) =>
      // GetOrCreateRoom, AddClient; the rest is not reached when the room is full.
      ON_MAP + (OnRoom(r) + if !joined then []
                          else OnRooms(Repeat(r, calls)) + ((if foundEmpty then ON_MAP else []) + OnRoom(r)))
    case Waiting(found) => [RLock, RUnlock] + match found { case Some(r) => OnRoom(r) case None => [] }
    case ActiveRooms => [RLock, RUnlock]
    case CleanupTick(rooms) => [Lock] + (OnRooms(rooms) + [Unlock])
    case Shutdown(rooms) => [Lock] + (OnRooms(rooms) + [Unlock])
  }

  // ---- The discipline ----

  datatype Mode = Free | Reads | Writes

  /**
   * The rest of a program, for a thread that has the manager's lock in `mode` and perhaps one room's: no lock is asked
   * for with a room's lock in hand, none with the manager's read lock, and the manager's never twice.
   */
  predicate Disciplined(ops: seq<Op>, mode: Mode, room: Option<Room>) {
    if ops == [] then mode.Free? && room.None?
    else match ops[0]
      case Lock => mode.Free? && room.None? && Disciplined(ops[1..], Writes, room)
      case Unlock => mode.Writes? && room.None? && Disciplined(ops[1..], Free, room)
      case RLock => mode.Free? && room.None? && Disciplined(ops[1..], Reads, room)
      case RUnlock => mode.Reads? && room.None? && Disciplined(ops[1..], Free, room)
      case LockRoom(r) => !mode.Reads? && room.None? && Disciplined(ops[1..], mode, Some(r))
      case UnlockRoom(r) => room == Some(r) && Disciplined(ops[1..], mode, None)
  }

  lemma OneOpMore(op: Op, rest: seq<Op>)
    ensures ([op] + rest)[0] == op && ([op] + rest)[1..] == rest
  {
  }

  lemma RoomThen(r: Room, rest: seq<Op>, mode: Mode)
    requires Disciplined(rest, mode, None) && !mode.Reads?
    ensures Disciplined(OnRoom(r) + rest, mode, None)
  {
    OneOpMore(UnlockRoom(r), rest);
    OneOpMore(LockRoom(r), [UnlockRoom(r)] + rest);
    assert OnRoom(r) + rest == [LockRoom(r)] + ([UnlockRoom(r)] + rest);
  }

  lemma {:induction false} RoomsThen(rooms: seq<Room>, rest: seq<Op>, mode: Mode)
    requires Disciplined(rest, mode, None) && !mode.Reads?
    ensures Disciplined(OnRooms(rooms) + rest, mode, None)
  {
    if rooms == [] {
      assert OnRooms(rooms) + rest == rest;
    } else {
      RoomsThen(rooms[1..], rest, mode);
      RoomThen(rooms[0], OnRooms(rooms[1..]) + rest, mode);
      assert OnRooms(rooms) + rest == OnRoom(rooms[0]) + (OnRooms(rooms[1..]) + rest);
    }
  }

  lemma MapThen(rest: seq<Op>)
    requires Disciplined(rest, Free, None)
    ensures Disciplined(ON_MAP + rest, Free, None)
  {
    OneOpMore(Unlock, rest);
    OneOpMore(Lock, [Unlock] + rest);
    assert ON_MAP + rest == [Lock] + ([Unlock] + rest);
  }

  lemma ReadThen(rest: seq<Op>)
    requires Disciplined(rest, Free, None)
    ensures Disciplined([RLock, RUnlock] + rest, Free, None)
  {
    OneOpMore(RUnlock, rest);
    OneOpMore(RLock, [RUnlock] + rest);
    assert [RLock, RUnlock] + rest == [RLock] + ([RUnlock] + rest);
  }

  lemma AllUnderTheMap(rooms: seq<Room>)
    ensures Disciplined([Lock] + (OnRooms(rooms) + [Unlock]), Free, None)
  {
    RoomsThen(rooms, [Unlock], Writes);
    OneOpMore(Lock, OnRooms(rooms) + [Unlock]);
  }

  lemma JoinedHandler(r: Room, calls: nat, foundEmpty: bool)
    ensures Disciplined(OnRooms(Repeat(r, calls)) + ((if foundEmpty then ON_MAP else []) + OnRoom(r)), Free, None)
  {
    RoomThen(r, [], Free);
    assert OnRoom(r) + [] == OnRoom(r);
    var tail := (if foundEmpty then ON_MAP else []) + OnRoom(r);
    if foundEmpty {
      MapThen(OnRoom(r));
    } else {
      assert tail == OnRoom(r);
    }
    RoomsThen(Repeat(r, calls), tail, Free);
  }

  /** Every operation keeps the discipline, whatever rooms it meets. */
  lemma ProgramsAreDisciplined(p: Program)
    ensures Disciplined(Ops(p), Free, None)
  {
    match p
    case Handler(r, joined, calls, foundEmpty) =>
      var rest := if !joined then [] else OnRooms(Repeat(r, calls)) + ((if foundEmpty then ON_MAP else []) + OnRoom(r));
      if joined { JoinedHandler(r, calls, foundEmpty); }
      RoomThen(r, rest, Free);
      MapThen(OnRoom(r) + rest);
    case Waiting(found) =>
      var rest := match found { case Some(r) => OnRoom(r) case None => [] };
      if found.Some? {
        RoomThen(found.value, [], Free);
        assert OnRoom(found.value) + [] == OnRoom(found.value);
      }
      ReadThen(rest);
    case ActiveRooms =>
      ReadThen([]);
      assert [RLock, RUnlock] + [] == [RLock, RUnlock];
    case CleanupTick(rooms) => AllUnderTheMap(rooms);
    case Shutdown(rooms) => AllUnderTheMap(rooms);
  }

  // ---- Threads ----

  /** `announced`: has called Lock on the manager's mutex, which keeps new readers out. */
  datatype Task = Task(ops: seq<Op>, mode: Mode, room: Option<Room>, announced: bool)

  type State = map<Thread, Task>

  datatype Step = Starts(thread: Thread, program: Program) | Goes(thread: Thread)

  /** What the next operation of `t` waits for: somebody who has the lock, or has announced to write. */
  predicate WaitsFor(s: State, t: Thread, u: Thread) {
    && t in s && u in s && t != u && s[t].ops != []
    && match s[t].ops[0]
       case Lock => s[t].announced && !s[u].mode.Free?
       case RLock => s[u].mode.Writes? || s[u].announced
       case LockRoom(r) => s[u].room == Some(r)
       case _ => false
  }

  ghost predicate CanGo(s: State, t: Thread) {
    t in s && s[t].ops != [] && forall u :: u in s ==> !WaitsFor(s, t, u)
  }

  ghost predicate Enabled(s: State, step: Step) {
    match step
    case Starts(t, _) => t !in s
    case Goes(t) => CanGo(s, t)
  }

  function Next(task: Task): Task
    requires task.ops != []
  {
    var rest := task.ops[1..];
    match task.ops[0]
    case Lock => if task.announced then Task(rest, Writes, task.room, false) else task.(announced := true)
    case Unlock => Task(rest, Free, task.room, false)
    case RLock => Task(rest, Reads, task.room, false)
    case RUnlock => Task(rest, Free, task.room, false)
    case LockRoom(r) => Task(rest, task.mode, Some(r), false)
    case UnlockRoom(_) => Task(rest, task.mode, None, false)
  }

  ghost function Apply(s: State, step: Step): State
    requires Enabled(s, step)
  {
    match step
    case Starts(t, program) => s[t := Task(Ops(program), Free, None, false)]
    case Goes(t) => s[t := Next(s[t])]
  }

  ghost predicate TaskOk(task: Task) {
    Disciplined(task.ops, task.mode, task.room) && (task.announced ==> task.ops != [] && task.ops[0].Lock?)
  }

  /** One writer and then no readers; one thread per room. */
  ghost predicate Exclusive(s: State) {
    forall t, u :: t in s && u in s && t != u ==>
      (s[t].mode.Writes? ==> s[u].mode.Free?) && (s[t].room.Some? ==> s[u].room != s[t].room)
  }

  ghost predicate Inv(s: State) {
    (forall t :: t in s ==> TaskOk(s[t])) && Exclusive(s)
  }

  lemma NextIsOk(task: Task)
    requires TaskOk(task) && task.ops != []
    ensures TaskOk(Next(task))
  {
  }

  lemma GoingKeepsExclusive(s: State, t: Thread)
    requires Inv(s) && CanGo(s, t)
    ensures Exclusive(s[t := Next(s[t])])
  {
    var next := Next(s[t]);
    forall u | u in s && u != t
      ensures next.mode.Writes? ==> s[u].mode.Free?
      ensures s[u].mode.Writes? ==> next.mode.Free?
      ensures next.room.Some? ==> s[u].room != next.room
    {
      assert !WaitsFor(s, t, u) && TaskOk(s[t]);
    }
  }

  /** Mutual exclusion and the discipline hold in every state of every run. */
  lemma StepKeepsInv(s: State, step: Step)
    requires Inv(s) && Enabled(s, step)
    ensures Inv(Apply(s, step))
  {
    match step
    case Starts(t, program) => ProgramsAreDisciplined(program);
    case Goes(t) =>
      NextIsOk(s[t]);
      GoingKeepsExclusive(s, t);
  }

  // ---- No deadlock ----

  /** How far a thread is from waiting for nobody. */
  function Rank(task: Task): nat {
    if task.room.Some? then 0
    else if !task.mode.Free? then 1
    else if task.announced then 2
    else 3
  }

  /** Whoever is waited for is closer to going: waiting never turns round. */
  lemma WaitingDescends(s: State, t: Thread, u: Thread)
    requires Inv(s) && WaitsFor(s, t, u)
    ensures Rank(s[u]) < Rank(s[t])
  {
    assert TaskOk(s[t]) && TaskOk(s[u]);
  }

  ghost predicate WaitChain(s: State, chain: seq<Thread>) {
    forall i :: 0 <= i < |chain| - 1 ==> WaitsFor(s, chain[i], chain[i + 1])
  }

  lemma {:induction false} ChainDescends(s: State, chain: seq<Thread>)
    requires Inv(s) && |chain| >= 2 && WaitChain(s, chain)
    ensures chain[0] in s && chain[|chain| - 1] in s && Rank(s[chain[|chain| - 1]]) < Rank(s[chain[0]])
  {
    assert WaitsFor(s, chain[0], chain[1]);
    WaitingDescends(s, chain[0], chain[1]);
    if |chain| > 2 {
      forall i | 0 <= i < |chain| - 2
        ensures WaitsFor(s, chain[1..][i], chain[1..][i + 1])
      {
        assert WaitsFor(s, chain[i + 1], chain[i + 2]);
      }
      ChainDescends(s, chain[1..]);
    }
  }

  /** No cyclic wait, of any length, through either level of locks. */
  lemma NoCyclicWait(s: State, chain: seq<Thread>)
    requires Inv(s) && |chain| >= 2 && WaitChain(s, chain)
    ensures chain[0] != chain[|chain| - 1]
  {
    ChainDescends(s, chain);
  }

  /** While any thread has work left, one can go on. */
  lemma {:induction false} SomebodyCanGo(s: State, t: Thread) returns (u: Thread)
    requires Inv(s) && t in s && s[t].ops != []
    ensures CanGo(s, u)
    decreases Rank(s[t])
  {
    if CanGo(s, t) {
      u := t;
    } else {
      var v :| v in s && WaitsFor(s, t, v);
      WaitingDescends(s, t, v);
      assert TaskOk(s[v]) && Rank(s[v]) < 3;
      u := SomebodyCanGo(s, v);
    }
  }

  // ---- Every run ----

  ghost predicate Legal(s: State, steps: seq<Step>)
    decreases |steps|
  {
    steps == [] || (Enabled(s, steps[0]) && Legal(Apply(s, steps[0]), steps[1..]))
  }

  ghost function Run(s: State, steps: seq<Step>): State
    requires Legal(s, steps)
    decreases |steps|
  {
    if steps == [] then s else Run(Apply(s, steps[0]), steps[1..])
  }

  lemma {:induction false} RunKeepsInv(s: State, steps: seq<Step>)
    requires Inv(s) && Legal(s, steps)
    ensures Inv(Run(s, steps))
    decreases |steps|
  {
    if steps != [] {
      StepKeepsInv(s, steps[0]);
      RunKeepsInv(Apply(s, steps[0]), steps[1..]);
    }
  }

  /** However the threads interleave: either all are done, or one can go on; and nobody waits in a circle. */
  lemma NoDeadlock(steps: seq<Step>)
    requires Legal(map[], steps)
    ensures var s := Run(map[], steps);
            && ((exists t :: CanGo(s, t)) <==> exists t :: t in s && s[t].ops != [])
            && forall chain :: |chain| >= 2 && WaitChain(s, chain) ==> chain[0] != chain[|chain| - 1]
  {
    RunKeepsInv(map[], steps);
    var s := Run(map[], steps);
    if t :| t in s && s[t].ops != [] {
      var u := SomebodyCanGo(s, t);
    }
    forall chain | |chain| >= 2 && WaitChain(s, chain)
      ensures chain[0] != chain[|chain| - 1]
    {
      NoCyclicWait(s, chain);
    }
  }
}
