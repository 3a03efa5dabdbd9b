/**
 * All handlers, the cleanup loop and the deletions of the relay, interleaved: each step is what one of them does under
 * a lock. A connection may fail at any time, so no step waits for one to be closed.
 */
module RelayRuns {
  import opened Bytes
  import opened Rooms

  /** Where the handler of a connection stands; with the room it holds. */
  datatype Phase =
    | Upgraded
    | Got(room: nat)
    | Reading(room: nat)
    | ReadFailed(room: nat)
    | FoundEmpty(room: nat)
    | Leaving(room: nat)
    | Returned

  datatype Handler = Handler(token: string, phase: Phase)

  /** A message handed to Broadcast, with the members of the room then. */
  datatype Said = Said(sender: Conn, message: seq<Byte>, members: seq<Conn>)

  /**
   * `objects`: every Room ever made, by number; `rooms`: the manager's map. The rest is history: `met`, who has been in
   * one room with whom; `said`, all broadcasts in order; `inbox`, what was written to each connection; `closed`, the
   * connections that the relay has closed.
   */
  datatype State = State(rooms: map<string, nat>, objects: seq<RoomState>, handlers: map<Conn, Handler>,
                         met: set<(Conn, Conn)>, said: seq<Said>, inbox: map<Conn, seq<seq<Byte>>>,
                         closed: set<Conn>)

  datatype Step =
    | Connect(conn: Conn, token: string)
    | Get(conn: Conn, now: int)
    | Join(conn: Conn, now: int)
    | Say(conn: Conn, message: seq<Byte>, now: int)
    | Fail(conn: Conn)
    | Check(conn: Conn)
    | Delete(conn: Conn)
    | Remove(conn: Conn)
    | Sweep(token: string, now: int)

  const INITIAL := State(map[], [], map[], {}, [], map[], {})

  function TokenOf(s: State, c: Conn): string
    requires c in s.handlers
  {
    s.handlers[c].token
  }

  predicate HasRoom(p: Phase) { !p.Upgraded? && !p.Returned? }

  /** Its Room is joined, or was before someone else left it. */
  predicate Attached(p: Phase) { HasRoom(p) && !p.Got? }

  predicate Enabled(s: State, step: Step) {
    match step
    case Connect(c, _) => c !in s.handlers
    case Get(c, _) => c in s.handlers && s.handlers[c].phase.Upgraded?
    case Join(c, _) => c in s.handlers && s.handlers[c].phase.Got?
    case Say(c, _, _) => c in s.handlers && s.handlers[c].phase.Reading?
    case Fail(c) => c in s.handlers && s.handlers[c].phase.Reading?
    case Check(c) => c in s.handlers && s.handlers[c].phase.ReadFailed?
    case Delete(c) => c in s.handlers && s.handlers[c].phase.FoundEmpty?
    case Remove(c) => c in s.handlers && s.handlers[c].phase.Leaving?
    case Sweep(token, now) => token in s.rooms && s.rooms[token] < |s.objects| && s.objects[s.rooms[token]].Idle(now)
  }

  function Move(s: State, c: Conn, phase: Phase): State
    requires c in s.handlers
  {
    s.(handlers := s.handlers[c := s.handlers[c].(phase := phase)])
  }

  function Pairs(c: Conn, clients: seq<Conn>): set<(Conn, Conn)> {
    (set d | d in clients :: (c, d)) + (set d | d in clients :: (d, c))
  }

  /** A handler that returns closes its own connection, and its partner's if it leaves one. */
  function Closes(room: RoomState, c: Conn): set<Conn> {
    {c} + set d | d in room.Kicked(c)
  }

  function JoinRoom(s: State, c: Conn, r: nat, now: int): State
    requires c in s.handlers && r < |s.objects|
  {
    var room := s.objects[r];
    if room.Full() then Move(s, c, Returned).(closed := s.closed + {c})
    else Move(s, c, Reading(r)).(objects := s.objects[r := room.Added(c, now)], met := s.met + Pairs(c, room.clients))
  }

  /** Broadcast's writes, one by one. */
  function Written(inbox: map<Conn, seq<seq<Byte>>>, to: seq<Conn>, message: seq<Byte>): map<Conn, seq<seq<Byte>>>
    decreases |to|
  {
    if to == [] then inbox
    else
      var had := if to[0] in inbox then inbox[to[0]] else [];
      Written(inbox[to[0] := had + [message]], to[1..], message)
  }

  function SayIn(s: State, c: Conn, r: nat, message: seq<Byte>, now: int): State
    requires r < |s.objects|
  {
    var room := s.objects[r];
    s.(objects := s.objects[r := room.(lastActivity := now)],
       said := s.said + [Said(c, message, room.clients)],
       inbox := Written(s.inbox, Others(room.clients, c), message))
  }

  function Apply(s: State, step: Step): State
    requires Wf(s) && Enabled(s, step)
  {
    match step
    case Connect(c, token) =>
      s.(handlers := s.handlers[c := Handler(token, Upgraded)], inbox := s.inbox[c := []])
    case Get(c, now) =>
      var token := s.handlers[c].token;
      if token in s.rooms then Move(s, c, Got(s.rooms[token]))
      else
        Move(s, c, Got(|s.objects|)).(rooms := s.rooms[token := |s.objects|],
                                      objects := s.objects + [RoomState(token, [], now)])
    case Join(c, now) => JoinRoom(s, c, s.handlers[c].phase.room, now)
    case Say(c, message, now) => SayIn(s, c, s.handlers[c].phase.room, message, now)
    case Fail(c) => Move(s, c, ReadFailed(s.handlers[c].phase.room))
    case Check(c) =>
      var r := s.handlers[c].phase.room;
      Move(s, c, if s.objects[r].clients == [] then FoundEmpty(r) else Leaving(r))
    case Delete(c) =>
      Move(s, c, Leaving(s.handlers[c].phase.room)).(rooms := s.rooms - {s.handlers[c].token})
    case Remove(c) =>
      var r := s.handlers[c].phase.room;
      Move(s, c, Returned).(objects := s.objects[r := s.objects[r].Removed(c)],
                            closed := s.closed + Closes(s.objects[r], c))
    case Sweep(token, _) =>
      s.(rooms := s.rooms - {token}, closed := s.closed + set d | d in s.objects[s.rooms[token]].clients)
  }

  // ---- Invariants ----

  /** Rooms and handlers refer to rooms that exist and carry their token. */
  ghost predicate Wf(s: State) {
    && (forall t :: t in s.rooms ==> s.rooms[t] < |s.objects| && s.objects[s.rooms[t]].token == t)
    && (forall c :: c in s.handlers && HasRoom(s.handlers[c].phase) ==>
          s.handlers[c].phase.room < |s.objects| && s.objects[s.handlers[c].phase.room].token == s.handlers[c].token)
    && s.inbox.Keys == s.handlers.Keys
  }

  predicate PairOrLess(clients: seq<Conn>) {
    |clients| <= 2 && (|clients| == 2 ==> clients[0] != clients[1])
  }

  /** Members of a room are connections whose handlers joined it and have not removed them yet. */
  ghost predicate MembersOk(objects: seq<RoomState>, handlers: map<Conn, Handler>) {
    forall r :: 0 <= r < |objects| ==>
      PairOrLess(objects[r].clients)
      && forall c :: c in objects[r].clients ==>
           c in handlers && Attached(handlers[c].phase) && handlers[c].phase.room == r
  }

  ghost predicate HasMet(met: set<(Conn, Conn)>, c: Conn) {
    exists d :: (c, d) in met
  }

  predicate Arrived(p: Phase) { !p.Upgraded? && !p.Got? }

  /** Two connections that have met are in one room, or neither is in any; and nobody has met two others. */
  ghost predicate MetOk(met: set<(Conn, Conn)>, objects: seq<RoomState>, handlers: map<Conn, Handler>) {
    && (forall p :: p in met ==>
          && p.0 != p.1 && (p.1, p.0) in met && p.0 in handlers && p.1 in handlers
          && Arrived(handlers[p.0].phase) && handlers[p.0].token == handlers[p.1].token)
    && (forall p, q :: p in met && q in met && p.0 == q.0 ==> p == q)
    && (forall p, r :: p in met && 0 <= r < |objects| && p.0 in objects[r].clients ==> p.1 in objects[r].clients)
    && (forall r :: 0 <= r < |objects| && |objects[r].clients| == 2 ==>
          (objects[r].clients[0], objects[r].clients[1]) in met)
  }

  /** Whoever is out of the room its handler still holds was sent away by a partner. */
  ghost predicate KickedHaveMet(met: set<(Conn, Conn)>, objects: seq<RoomState>, handlers: map<Conn, Handler>) {
    forall c :: c in handlers && Attached(handlers[c].phase) && handlers[c].phase.room < |objects| ==>
      c in objects[handlers[c].phase.room].clients || HasMet(met, c)
  }

  ghost predicate SocialOk(met: set<(Conn, Conn)>, objects: seq<RoomState>, handlers: map<Conn, Handler>) {
    MembersOk(objects, handlers) && MetOk(met, objects, handlers) && KickedHaveMet(met, objects, handlers)
  }

  /** Nothing that the social invariants look at has changed for anybody. */
  ghost predicate SameStanding(h: map<Conn, Handler>, k: map<Conn, Handler>) {
    && (forall c :: c in h ==> c in k && k[c].token == h[c].token)
    && (forall c :: c in h && Attached(h[c].phase) ==> Attached(k[c].phase) && k[c].phase.room == h[c].phase.room)
    && (forall c :: c in h && Arrived(h[c].phase) ==> Arrived(k[c].phase))
    && (forall c :: c in k && Attached(k[c].phase) ==> c in h && Attached(h[c].phase))
  }

  lemma StandingKeepsSocial(met: set<(Conn, Conn)>, objects: seq<RoomState>, h: map<Conn, Handler>,
                            k: map<Conn, Handler>)
    requires SocialOk(met, objects, h) && SameStanding(h, k)
    ensures SocialOk(met, objects, k)
  {
  }

  ghost predicate SameClients(a: seq<RoomState>, b: seq<RoomState>) {
    |a| <= |b|
    && (forall r :: 0 <= r < |a| ==> a[r].clients == b[r].clients)
    && (forall r :: |a| <= r < |b| ==> b[r].clients == [])
  }

  lemma ClientsKeepSocial(met: set<(Conn, Conn)>, a: seq<RoomState>, b: seq<RoomState>, h: map<Conn, Handler>)
    requires SocialOk(met, a, h) && SameClients(a, b)
    requires forall c :: c in h && HasRoom(h[c].phase) ==> h[c].phase.room < |a|
    ensures SocialOk(met, b, h)
  {
  }

  /** The first to join. */
  lemma JoinAlone(met: set<(Conn, Conn)>, objects: seq<RoomState>, h: map<Conn, Handler>, c: Conn, r: nat,
                  room: RoomState)
    requires SocialOk(met, objects, h) && r < |objects| && objects[r].clients == [] && room.clients == [c]
    requires c in h && h[c].phase == Got(r)
    ensures SocialOk(met, objects[r := room], h[c := h[c].(phase := Reading(r))])
  {
  }

  lemma PairsOf(c: Conn, d: Conn)
    ensures Pairs(c, [d]) == {(c, d), (d, c)}
  {
  }

  /** The second to join meets the first, and neither has met anybody yet. */
  lemma JoinPair(met: set<(Conn, Conn)>, objects: seq<RoomState>, h: map<Conn, Handler>, c: Conn, d: Conn, r: nat,
                 room: RoomState)
    requires SocialOk(met, objects, h) && r < |objects| && objects[r].clients == [d] && room.clients == [d, c]
    requires c in h && h[c].phase == Got(r) && h[d].token == h[c].token
    ensures SocialOk(met + {(c, d), (d, c)}, objects[r := room], h[c := h[c].(phase := Reading(r))])
  {
    assert d in objects[r].clients && c != d;
    BothUnmet(met, objects, h, c, d, r);
    PairMet(met, objects, h, c, d, r, room);
    PairHasMet(met, c, d);
  }

  lemma BothUnmet(met: set<(Conn, Conn)>, objects: seq<RoomState>, h: map<Conn, Handler>, c: Conn, d: Conn, r: nat)
    requires MetOk(met, objects, h) && r < |objects| && objects[r].clients == [d] && c in h && h[c].phase == Got(r)
    ensures forall p :: p in met ==> p.0 != c && p.1 != c && p.0 != d && p.1 != d
  {
    forall p | p in met
      ensures p.0 != c && p.1 != c && p.0 != d && p.1 != d
    {
      assert (p.1, p.0) in met;
      assert d in objects[r].clients;
    }
  }

  lemma PairMet(met: set<(Conn, Conn)>, objects: seq<RoomState>, h: map<Conn, Handler>, c: Conn, d: Conn, r: nat,
                room: RoomState)
    requires MetOk(met, objects, h) && MembersOk(objects, h) && r < |objects|
    requires objects[r].clients == [d] && room.clients == [d, c] && c != d
    requires c in h && h[c].phase == Got(r) && d in h && Attached(h[d].phase) && h[d].token == h[c].token
    requires forall p :: p in met ==> p.0 != c && p.1 != c && p.0 != d && p.1 != d
    ensures MetOk(met + {(c, d), (d, c)}, objects[r := room], h[c := h[c].(phase := Reading(r))])
  {
    var m, o, k := met + {(c, d), (d, c)}, objects[r := room], h[c := h[c].(phase := Reading(r))];
    forall p, q | p in m && 0 <= q < |o| && p.0 in o[q].clients
      ensures p.1 in o[q].clients
    {
      if q != r {
        assert o[q] == objects[q];
      }
    }
  }

  lemma PairHasMet(met: set<(Conn, Conn)>, c: Conn, d: Conn)
    ensures var m := met + {(c, d), (d, c)};
            HasMet(m, c) && HasMet(m, d) && forall x: Conn :: HasMet(met, x) ==> HasMet(m, x)
  {
    var m := met + {(c, d), (d, c)};
    assert (c, d) in m && (d, c) in m;
    forall x: Conn | HasMet(met, x)
      ensures HasMet(m, x)
    {
      var y :| (x, y) in met;
      assert (x, y) in m;
    }
  }

  /** Whoever removes itself leaves an empty room, or was no member and changes nothing. */
  lemma RemovedEmpties(room: RoomState, c: Conn)
    requires PairOrLess(room.clients)
    ensures room.Removed(c).clients == if c in room.clients then [] else room.clients
  {
    if |room.clients| == 1 { assert room.clients[1..] == []; }
  }

  lemma RemoveKeepsMembers(objects: seq<RoomState>, h: map<Conn, Handler>, c: Conn, r: nat)
    requires MembersOk(objects, h) && r < |objects| && c in h && h[c].phase == Leaving(r)
    ensures MembersOk(objects[r := objects[r].Removed(c)], h[c := h[c].(phase := Returned)])
  {
    RemovedEmpties(objects[r], c);
  }

  lemma RemoveKeepsMet(met: set<(Conn, Conn)>, objects: seq<RoomState>, h: map<Conn, Handler>, c: Conn, r: nat)
    requires MembersOk(objects, h) && MetOk(met, objects, h) && r < |objects| && c in h && h[c].phase == Leaving(r)
    ensures MetOk(met, objects[r := objects[r].Removed(c)], h[c := h[c].(phase := Returned)])
  {
    RemovedEmpties(objects[r], c);
  }

  lemma RemoveKeepsSocial(met: set<(Conn, Conn)>, objects: seq<RoomState>, h: map<Conn, Handler>, c: Conn, r: nat)
    requires SocialOk(met, objects, h) && r < |objects| && c in h && h[c].phase == Leaving(r)
    ensures SocialOk(met, objects[r := objects[r].Removed(c)], h[c := h[c].(phase := Returned)])
  {
    var clients := objects[r].clients;
    RemoveKeepsMembers(objects, h, c, r);
    RemoveKeepsMet(met, objects, h, c, r);
    RemovedEmpties(objects[r], c);
    if |clients| == 2 {
      assert (clients[0], clients[1]) in met && (clients[1], clients[0]) in met;
      assert HasMet(met, clients[0]) && HasMet(met, clients[1]);
    }
  }

  // ---- What was said and written ----

  /** What the broadcasts so far sent to `c`. */
  function Heard(said: seq<Said>, c: Conn): seq<seq<Byte>> {
    if said == [] then []
    else
      var e := said[|said| - 1];
      Heard(said[..|said| - 1], c) + if c in e.members && c != e.sender then [e.message] else []
  }

  ghost predicate EntryOk(e: Said, handlers: map<Conn, Handler>, met: set<(Conn, Conn)>) {
    && e.sender in handlers && Arrived(handlers[e.sender].phase)
    && PairOrLess(e.members)
    && (forall m :: m in e.members ==>
          m in handlers && Arrived(handlers[m].phase) && handlers[m].token == handlers[e.sender].token)
    // A member's message goes to its partner; anybody else's goes to strangers.
    && (forall m :: m in e.members && m != e.sender ==> ((e.sender, m) in met <==> e.sender in e.members))
  }

  ghost predicate SaidOk(said: seq<Said>, handlers: map<Conn, Handler>, met: set<(Conn, Conn)>) {
    forall i :: 0 <= i < |said| ==> EntryOk(said[i], handlers, met)
  }

  ghost predicate InboxOk(said: seq<Said>, inbox: map<Conn, seq<seq<Byte>>>) {
    forall c :: c in inbox ==> inbox[c] == Heard(said, c)
  }

  /** What the relay has closed had joined, or was turned away. */
  ghost predicate ClosedOk(closed: set<Conn>, handlers: map<Conn, Handler>) {
    forall c :: c in closed ==> c in handlers && Arrived(handlers[c].phase)
  }

  ghost predicate Inv(s: State) {
    ClosedOk(s.closed, s.handlers) && Wf(s) && SocialOk(s.met, s.objects, s.handlers)
      && SaidOk(s.said, s.handlers, s.met) && InboxOk(s.said, s.inbox)
  }

  lemma InitialInv()
    ensures Inv(INITIAL)
  {
  }

  /** Handlers move on, and new ones arrive: what was said stays well-formed. */
  lemma SaidStays(said: seq<Said>, h: map<Conn, Handler>, k: map<Conn, Handler>, met: set<(Conn, Conn)>,
                  more: set<(Conn, Conn)>)
    requires SaidOk(said, h, met)
    requires forall c :: c in h ==> c in k && k[c].token == h[c].token && (Arrived(h[c].phase) ==> Arrived(k[c].phase))
    requires met <= more
    requires forall p :: p in more && p !in met ==>
               !(p.0 in h && p.1 in h && Arrived(h[p.0].phase) && Arrived(h[p.1].phase))
    ensures SaidOk(said, k, more)
  {
    forall i | 0 <= i < |said|
      ensures EntryOk(said[i], k, more)
    {
      assert EntryOk(said[i], h, met);
    }
  }

  lemma {:induction false} NothingHeard(said: seq<Said>, c: Conn)
    requires forall i :: 0 <= i < |said| ==> c !in said[i].members
    ensures Heard(said, c) == []
  {
    if said != [] {
      NothingHeard(said[..|said| - 1], c);
    }
  }

  /** The writes of one broadcast: each recipient gets the message once, nobody else gets anything. */
  lemma {:induction false} WrittenOnce(inbox: map<Conn, seq<seq<Byte>>>, clients: seq<Conn>, sender: Conn,
                                       message: seq<Byte>)
    requires PairOrLess(clients) && forall c :: c in clients ==> c in inbox
    ensures var after := Written(inbox, Others(clients, sender), message);
            after.Keys == inbox.Keys
            && forall c :: c in inbox ==>
                 after[c] == inbox[c] + if c in clients && c != sender then [message] else []
  {
    if clients == [] {
    } else if |clients| == 1 {
      assert Others(clients[1..], sender) == [];
    } else {
      assert clients[1..] == [clients[1]] && clients[1..][1..] == [];
      assert Others(clients, sender)
             == (if clients[0] != sender then [clients[0]] else [])
             + (if clients[1] != sender then [clients[1]] else []);
      WrittenTwice(inbox, Others(clients, sender), message);
    }
  }

  lemma WrittenTwice(inbox: map<Conn, seq<seq<Byte>>>, to: seq<Conn>, message: seq<Byte>)
    requires |to| <= 2 && (|to| == 2 ==> to[0] != to[1]) && forall c :: c in to ==> c in inbox
    ensures var after := Written(inbox, to, message);
            after.Keys == inbox.Keys
            && forall c :: c in inbox ==> after[c] == inbox[c] + if c in to then [message] else []
  {
    if |to| == 2 {
      assert to[1..] == [to[1]] && to[1..][1..] == [];
    }
  }

  // ---- Every step keeps the invariant ----

  ghost predicate Evolves(h: map<Conn, Handler>, k: map<Conn, Handler>) {
    forall c :: c in h ==> c in k && k[c].token == h[c].token && (Arrived(h[c].phase) ==> Arrived(k[c].phase))
  }

  lemma StepEvolves(s: State, step: Step)
    requires Wf(s) && Enabled(s, step)
    ensures Evolves(s.handlers, Apply(s, step).handlers)
  {
    match step
    case Connect(_, _) =>
    case Say(_, _, _) =>
    case Sweep(_, _) =>
    case _ => MoveEvolves(s.handlers, step.conn, Apply(s, step).handlers[step.conn].phase);
  }

  lemma MoveEvolves(h: map<Conn, Handler>, c: Conn, phase: Phase)
    requires c in h && (Arrived(h[c].phase) ==> Arrived(phase))
    ensures Evolves(h, h[c := h[c].(phase := phase)])
  {
  }

  lemma MapsKeepWf(s: State, rooms: map<string, nat>, objects: seq<RoomState>, handlers: map<Conn, Handler>)
    requires Wf(s) && Evolves(s.handlers, handlers) && handlers.Keys == s.handlers.Keys
    requires |s.objects| <= |objects| && forall r :: 0 <= r < |s.objects| ==> objects[r].token == s.objects[r].token
    requires forall t :: t in rooms ==> rooms[t] < |objects| && objects[rooms[t]].token == t
    requires forall c :: c in handlers && HasRoom(handlers[c].phase) ==>
               handlers[c].phase.room < |objects| && objects[handlers[c].phase.room].token == handlers[c].token
    ensures Wf(s.(rooms := rooms, objects := objects, handlers := handlers))
  {
  }

  lemma JoinKeepsWf(s: State, c: Conn, now: int)
    requires Wf(s) && Enabled(s, Join(c, now))
    ensures Wf(Apply(s, Join(c, now)))
  {
    var t := Apply(s, Join(c, now));
    MapsKeepWf(s, s.rooms, t.objects, t.handlers);
  }

  lemma GetKeepsWf(s: State, c: Conn, now: int)
    requires Wf(s) && Enabled(s, Get(c, now))
    ensures Wf(Apply(s, Get(c, now)))
  {
    var t := Apply(s, Get(c, now));
    MapsKeepWf(s, t.rooms, t.objects, t.handlers);
  }

  lemma RemoveKeepsWf(s: State, c: Conn)
    requires Wf(s) && Enabled(s, Remove(c))
    ensures Wf(Apply(s, Remove(c)))
  {
    var t := Apply(s, Remove(c));
    MapsKeepWf(s, s.rooms, t.objects, t.handlers);
  }

  lemma SayKeepsWf(s: State, c: Conn, message: seq<Byte>, now: int)
    requires Wf(s) && SocialOk(s.met, s.objects, s.handlers) && Enabled(s, Say(c, message, now))
    ensures Wf(Apply(s, Say(c, message, now)))
  {
    WrittenOnce(s.inbox, s.objects[s.handlers[c].phase.room].clients, c, message);
  }

  lemma MoveKeepsWf(s: State, c: Conn, phase: Phase)
    requires Wf(s) && c in s.handlers && Attached(s.handlers[c].phase)
    requires Attached(phase) && phase.room == s.handlers[c].phase.room
    ensures Wf(Move(s, c, phase))
  {
  }

  lemma StepKeepsWf(s: State, step: Step)
    requires Wf(s) && SocialOk(s.met, s.objects, s.handlers) && Enabled(s, step)
    ensures Wf(Apply(s, step))
  {
    match step
    case Connect(c, token) =>
    case Get(c, now) => GetKeepsWf(s, c, now);
    case Join(c, now) => JoinKeepsWf(s, c, now);
    case Say(c, message, now) => SayKeepsWf(s, c, message, now);
    case Fail(c) => MoveKeepsWf(s, c, ReadFailed(s.handlers[c].phase.room));
    case Check(c) =>
      MoveKeepsWf(s, c, FoundEmpty(s.handlers[c].phase.room));
      MoveKeepsWf(s, c, Leaving(s.handlers[c].phase.room));
    case Delete(c) =>
      MoveKeepsWf(s, c, Leaving(s.handlers[c].phase.room));
    case Remove(c) => RemoveKeepsWf(s, c);
    case Sweep(token, _) =>
  }

  ghost predicate Social(s: State) {
    SocialOk(s.met, s.objects, s.handlers)
  }

  lemma MoveKeepsSocial(s: State, c: Conn, phase: Phase)
    requires Social(s) && c in s.handlers && Attached(s.handlers[c].phase)
    requires Attached(phase) && phase.room == s.handlers[c].phase.room
    ensures Social(Move(s, c, phase))
  {
    StandingKeepsSocial(s.met, s.objects, s.handlers, s.handlers[c := s.handlers[c].(phase := phase)]);
  }

  lemma GetKeepsSocial(s: State, c: Conn, now: int)
    requires Wf(s) && Social(s) && Enabled(s, Get(c, now))
    ensures Social(Apply(s, Get(c, now)))
  {
    var t := Apply(s, Get(c, now));
    ClientsKeepSocial(s.met, s.objects, t.objects, s.handlers);
    StandingKeepsSocial(s.met, t.objects, s.handlers, t.handlers);
  }

  lemma JoinKeepsSocial(s: State, c: Conn, now: int)
    requires Wf(s) && Social(s) && Enabled(s, Join(c, now))
    ensures Social(Apply(s, Join(c, now)))
  {
    var r := s.handlers[c].phase.room;
    var t := Apply(s, Join(c, now));
    var clients := s.objects[r].clients;
    if |clients| >= 2 {
      StandingKeepsSocial(s.met, s.objects, s.handlers, t.handlers);
    } else if |clients| == 0 {
      assert t.met == s.met;
      JoinAlone(s.met, s.objects, s.handlers, c, r, t.objects[r]);
    } else {
      var d := clients[0];
      assert clients == [d] && d in clients;
      PairsOf(c, d);
      JoinPair(s.met, s.objects, s.handlers, c, d, r, t.objects[r]);
    }
  }

  lemma StepKeepsSocial(s: State, step: Step)
    requires Wf(s) && Social(s) && Enabled(s, step)
    ensures Social(Apply(s, step))
  {
    match step
    case Connect(c, token) => StandingKeepsSocial(s.met, s.objects, s.handlers, Apply(s, step).handlers);
    case Get(c, now) => GetKeepsSocial(s, c, now);
    case Join(c, now) => JoinKeepsSocial(s, c, now);
    case Say(c, message, now) => ClientsKeepSocial(s.met, s.objects, Apply(s, step).objects, s.handlers);
    case Fail(c) => MoveKeepsSocial(s, c, ReadFailed(s.handlers[c].phase.room));
    case Check(c) =>
      MoveKeepsSocial(s, c, FoundEmpty(s.handlers[c].phase.room));
      MoveKeepsSocial(s, c, Leaving(s.handlers[c].phase.room));
    case Delete(c) => MoveKeepsSocial(s, c, Leaving(s.handlers[c].phase.room));
    case Remove(c) => RemoveKeepsSocial(s.met, s.objects, s.handlers, c, s.handlers[c].phase.room);
    case Sweep(token, _) =>
  }

  /** Only those who have not arrived yet meet anybody. */
  lemma MetGrows(s: State, step: Step)
    requires Wf(s) && Social(s) && Enabled(s, step)
    ensures s.met <= Apply(s, step).met
    ensures forall p :: p in Apply(s, step).met && p !in s.met ==>
              p.0 in s.handlers && p.1 in s.handlers
                && !(Arrived(s.handlers[p.0].phase) && Arrived(s.handlers[p.1].phase))
  {
    if step.Join? {
      var r := s.handlers[step.conn].phase.room;
      assert forall d :: d in s.objects[r].clients ==> d in s.handlers;
    }
  }

  lemma EntryIsOk(s: State, c: Conn, message: seq<Byte>)
    requires Wf(s) && Social(s) && c in s.handlers && s.handlers[c].phase.Reading?
    ensures EntryOk(Said(c, message, s.objects[s.handlers[c].phase.room].clients), s.handlers, s.met)
  {
    var clients := s.objects[s.handlers[c].phase.room].clients;
    forall m | m in clients && m != c
      ensures (c, m) in s.met <==> c in clients
    {
      PartnersTogether(s.met, s.objects, s.handlers, s.handlers[c].phase.room, c, m);
    }
  }

  lemma PartnersTogether(met: set<(Conn, Conn)>, objects: seq<RoomState>, h: map<Conn, Handler>, r: nat, c: Conn,
                         m: Conn)
    requires SocialOk(met, objects, h) && r < |objects| && m in objects[r].clients && m != c
    ensures (c, m) in met <==> c in objects[r].clients
  {
    var clients := objects[r].clients;
    if c in clients {
      assert (clients[0], clients[1]) in met;
    }
  }

  lemma StepKeepsSaid(s: State, step: Step)
    requires Wf(s) && Social(s) && SaidOk(s.said, s.handlers, s.met) && Enabled(s, step)
    ensures var t := Apply(s, step); SaidOk(t.said, t.handlers, t.met)
  {
    var t := Apply(s, step);
    StepEvolves(s, step);
    MetGrows(s, step);
    SaidStays(s.said, s.handlers, t.handlers, s.met, t.met);
    if step.Say? {
      EntryIsOk(s, step.conn, step.message);
    }
  }

  lemma SayKeepsInbox(s: State, c: Conn, message: seq<Byte>, now: int)
    requires Wf(s) && Social(s) && InboxOk(s.said, s.inbox) && Enabled(s, Say(c, message, now))
    ensures var t := Apply(s, Say(c, message, now)); InboxOk(t.said, t.inbox)
  {
    var clients := s.objects[s.handlers[c].phase.room].clients;
    WrittenOnce(s.inbox, clients, c, message);
    var said := s.said + [Said(c, message, clients)];
    assert said[..|s.said|] == s.said;
  }

  lemma StepKeepsInbox(s: State, step: Step)
    requires Wf(s) && Social(s) && SaidOk(s.said, s.handlers, s.met) && InboxOk(s.said, s.inbox) && Enabled(s, step)
    ensures var t := Apply(s, step); InboxOk(t.said, t.inbox)
  {
    match step
    case Say(c, message, now) => SayKeepsInbox(s, c, message, now);
    case Connect(c, _) =>
      forall i | 0 <= i < |s.said|
        ensures c !in s.said[i].members
      {
        assert EntryOk(s.said[i], s.handlers, s.met);
      }
      NothingHeard(s.said, c);
    case _ =>
  }

  lemma {:induction false} WithoutIsSubset(s: seq<Conn>, c: Conn)
    ensures forall d :: d in Without(s, c) ==> d in s
  {
    if s != [] {
      WithoutIsSubset(s[1..], c);
    }
  }

  /** What a step closes is the connection of its own handler, which returns, or a member of a room. */
  lemma StepCloses(s: State, step: Step, c: Conn)
    requires Wf(s) && Enabled(s, step) && c in Apply(s, step).closed && c !in s.closed
    ensures (exists r: nat :: r < |s.objects| && c in s.objects[r].clients)
         || (c in Apply(s, step).handlers && Arrived(Apply(s, step).handlers[c].phase))
  {
    match step
    case Remove(d) => WithoutIsSubset(s.objects[s.handlers[d].phase.room].clients, d);
    case _ =>
  }

  lemma StepKeepsClosed(s: State, step: Step)
    requires ClosedOk(s.closed, s.handlers) && Wf(s) && Social(s) && Enabled(s, step)
    ensures ClosedOk(Apply(s, step).closed, Apply(s, step).handlers)
  {
    var t := Apply(s, step);
    StepEvolves(s, step);
    forall c | c in t.closed
      ensures c in t.handlers && Arrived(t.handlers[c].phase)
    {
      if c !in s.closed {
        StepCloses(s, step, c);
        hide Apply;
      }
    }
  }

  lemma StepKeepsInv(s: State, step: Step)
    requires Inv(s) && Enabled(s, step)
    ensures Inv(Apply(s, step))
  {
    StepKeepsClosed(s, step);
    StepKeepsWf(s, step);
    StepKeepsSocial(s, step);
    StepKeepsSaid(s, step);
    StepKeepsInbox(s, step);
  }
}
