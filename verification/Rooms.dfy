/**
 * The relay's rooms: the objects that handlers share, and one handler's program over them. Locks, the connections
 * themselves and the clock are outside; what is written to a connection or closed is returned.
 */
module Rooms {
  import opened Bytes

  /** A WebSocket connection, by identity. */
  type Conn = nat

  const IDLE_LIMIT := 600 // seconds

  /** The fields of a Room. */
  datatype RoomState = RoomState(token: string, clients: seq<Conn>, lastActivity: int) {
    predicate Full() { |clients| >= 2 }

    function Added(conn: Conn, now: int): RoomState {
      if Full() then this else this.(clients := clients + [conn], lastActivity := now)
    }

    /** A pair goes together: whoever leaves takes the other along. */
    function Removed(conn: Conn): RoomState {
      if conn !in clients then this
      else if |clients| == 2 then this.(clients := [])
      else this.(clients := Without(clients, conn))
    }

    /** Who is sent away when `conn` leaves. */
    function Kicked(conn: Conn): seq<Conn> {
      if conn in clients && |clients| == 2 then Without(clients, conn) else []
    }

    predicate Idle(now: int) { now - lastActivity > IDLE_LIMIT }
  }

  /** Without the first occurrence. */
  function Without(s: seq<Conn>, conn: Conn): (r: seq<Conn>)
    ensures conn in s ==> |r| == |s| - 1
    ensures conn !in s ==> r == s
  {
    if s == [] then [] else if s[0] == conn then s[1..] else [s[0]] + Without(s[1..], conn)
  }

  /** Of a pair, the one who stays behind is sent away, whichever leaves. */
  lemma PartnerIsKicked(room: RoomState, c: Conn, d: Conn)
    requires c != d && (room.clients == [c, d] || room.clients == [d, c])
    ensures room.Kicked(c) == [d] && room.Removed(c).clients == []
  {
    assert Without([d, c], c) == [d] + Without([c], c);
  }

  /** Nobody is sent away by one who was alone, or no member any more. */
  lemma NobodyElseIsKicked(room: RoomState, c: Conn)
    requires room.clients == [c] || room.clients == [] || c !in room.clients
    ensures room.Kicked(c) == []
  {
  }

  function Others(clients: seq<Conn>, sender: Conn): seq<Conn> {
    if clients == [] then []
    else (if clients[0] != sender then [clients[0]] else []) + Others(clients[1..], sender)
  }

  lemma {:induction false} WithoutAt(s: seq<Conn>, conn: Conn, i: nat)
    requires i < |s| && s[i] == conn && conn !in s[..i]
    ensures Without(s, conn) == s[..i] + s[i + 1..]
  {
    if i > 0 {
      assert s[0] in s[..i];
      assert conn !in s[1..][..i - 1] by {
        assert forall x :: x in s[1..][..i - 1] ==> x in s[..i];
      }
      WithoutAt(s[1..], conn, i - 1);
      assert s[..i] == [s[0]] + s[1..][..i - 1];
    }
  }

  lemma {:induction false} OthersSnoc(clients: seq<Conn>, c: Conn, sender: Conn)
    ensures Others(clients + [c], sender) == Others(clients, sender) + (if c != sender then [c] else [])
  {
    if clients == [] {
    } else {
      assert (clients + [c])[1..] == clients[1..] + [c];
      OthersSnoc(clients[1..], c, sender);
    }
  }

  class Room {
    const token: string
    var clients: seq<Conn>
    var lastActivity: int

    constructor (token: string, now: int)
      ensures Value() == RoomState(token, [], now)
    {
      this.token, clients, lastActivity := token, [], now;
    }

    function Value(): RoomState
      reads this
    {
      RoomState(token, clients, lastActivity)
    }

    method AddClient(conn: Conn, now: int) returns (ok: bool)
      modifies this
      ensures Value() == old(Value()).Added(conn, now) && ok == !old(Value()).Full()
    {
      if |clients| >= 2 {
        return false;
      }
      clients := clients + [conn];
      lastActivity := now;
      return true;
    }

    /** Returns the connections to send away. */
    method RemoveClient(conn: Conn) returns (toKick: seq<Conn>)
      modifies this
      ensures Value() == old(Value()).Removed(conn) && toKick == old(Value()).Kicked(conn)
      ensures forall d :: d != conn && (old(clients) == [conn, d] || old(clients) == [d, conn]) ==> toKick == [d]
    {
      forall d | d != conn && (clients == [conn, d] || clients == [d, conn])
        ensures Value().Kicked(conn) == [d]
      {
        PartnerIsKicked(Value(), conn, d);
      }
      var nBefore, idx := |clients|, -1;
      for i := 0 to |clients|
        invariant idx == -1 && conn !in clients[..i]
      {
        if clients[i] == conn {
          idx := i;
          break;
        }
      }
      if idx < 0 {
        return [];
      }
      WithoutAt(clients, conn, idx);
      clients := clients[..idx] + clients[idx + 1..];
      toKick := [];
      if nBefore == 2 && |clients| == 1 {
        toKick := toKick + [clients[0]];
        clients := clients[..0];
      }
    }

    /** Returns who was written the message, in order, and who was closed because that failed. */
    method Broadcast(sender: Conn, now: int, broken: set<Conn>) returns (written: seq<Conn>, closed: set<Conn>)
      modifies this
      ensures Value() == old(Value()).(lastActivity := now)
      ensures written == Others(clients, sender)
      ensures closed == broken * (set c | c in clients && c != sender)
    {
      lastActivity := now;
      written, closed := [], {};
      for i := 0 to |clients|
        invariant clients == old(clients) && lastActivity == now
        invariant written == Others(clients[..i], sender)
        invariant closed == broken * (set c | c in clients[..i] && c != sender)
      {
        OthersSnoc(clients[..i], clients[i], sender);
        assert clients[..i + 1] == clients[..i] + [clients[i]];
        if clients[i] != sender {
          written := written + [clients[i]];
          if clients[i] in broken {
            closed := closed + {clients[i]};
          }
        }
      }
      assert clients[..|clients|] == clients;
    }
  }

  ghost function Members(rooms: map<string, Room>, tokens: set<string>): set<Conn>
    reads rooms.Values
  {
    set t, c | t in tokens && t in rooms && c in rooms[t].clients :: c
  }

  lemma MembersGrow(rooms: map<string, Room>, tokens: set<string>, token: string)
    requires token in rooms
    ensures Members(rooms, tokens + {token}) == Members(rooms, tokens) + set c | c in rooms[token].clients
  {
  }

  /** The cleanup loop with `todo` still to look at. */
  ghost predicate Swept(was: map<string, Room>, idle: set<string>, todo: set<string>, rooms: map<string, Room>,
                        closed: set<Conn>)
    reads was.Values
  {
    todo <= was.Keys && rooms == was - (idle - todo) && closed == Members(was, idle - todo)
  }

  lemma SweptStart(rooms: map<string, Room>, idle: set<string>)
    requires idle <= rooms.Keys
    ensures Swept(rooms, idle, rooms.Keys, rooms, {})
  {
    assert idle - rooms.Keys == {} && rooms - {} == rooms;
  }

  lemma SweptOne(was: map<string, Room>, idle: set<string>, todo: set<string>, rooms: map<string, Room>,
                 closed: set<Conn>, token: string)
    requires Swept(was, idle, todo, rooms, closed) && token in todo
    ensures token in rooms && rooms[token] == was[token]
    ensures if token in idle
            then Swept(was, idle, todo - {token}, rooms - {token}, closed + set c | c in was[token].clients)
            else Swept(was, idle, todo - {token}, rooms, closed)
  {
    if token in idle {
      MembersGrow(was, idle - todo, token);
      assert idle - (todo - {token}) == idle - todo + {token};
    } else {
      assert idle - (todo - {token}) == idle - todo;
    }
  }

  class RoomManager {
    var rooms: map<string, Room>

    constructor ()
      ensures rooms == map[]
    {
      rooms := map[];
    }

    method GetOrCreateRoom(token: string, now: int) returns (room: Room)
      modifies this
      ensures if token in old(rooms) then room == old(rooms)[token] && rooms == old(rooms)
              else fresh(room) && room.Value() == RoomState(token, [], now) && rooms == old(rooms)[token := room]
    {
      if token in rooms {
        return rooms[token];
      }
      room := new Room(token, now);
      rooms := rooms[token := room];
    }

    method Waiting(token: string) returns (waiting: bool)
      ensures waiting <==> token in rooms && |rooms[token].clients| == 1
    {
      if token !in rooms {
        return false;
      }
      return |rooms[token].clients| == 1;
    }

    method DeleteRoom(token: string)
      modifies this
      ensures rooms == old(rooms) - {token}
    {
      rooms := rooms - {token};
    }

    ghost function IdleTokens(now: int): set<string>
      reads this, rooms.Values
    {
      set t | t in rooms && rooms[t].Value().Idle(now)
    }

    /** What the cleanup loop does about one entry. */
    method Sweep(token: string, now: int, ghost was: map<string, Room>, ghost idle: set<string>,
                 ghost todo: set<string>, closed: set<Conn>)
      returns (closed': set<Conn>)
      requires Swept(was, idle, todo, rooms, closed) && token in todo
      requires token in idle <==> was[token].Value().Idle(now)
      modifies this
      ensures Swept(was, idle, todo - {token}, rooms, closed')
    {
      SweptOne(was, idle, todo, rooms, closed, token);
      var room := rooms[token];
      closed' := closed;
      if now - room.lastActivity > IDLE_LIMIT {
        closed' := closed + set c | c in room.clients;
        rooms := rooms - {token};
      }
    }

    method SweepAll(now: int, ghost was: map<string, Room>, ghost idle: set<string>) returns (closed: set<Conn>)
      requires rooms == was && idle <= was.Keys
      requires forall t :: t in was ==> (t in idle <==> was[t].Value().Idle(now))
      modifies this
      ensures Swept(was, idle, {}, rooms, closed)
    {
      var todo := rooms.Keys;
      closed := {};
      SweptStart(was, idle);
      while todo != {}
        invariant Swept(was, idle, todo, rooms, closed)
        decreases |todo|
      {
        var token :| token in todo;
        closed := Sweep(token, now, was, idle, todo, closed);
        todo := todo - {token};
      }
    }

    /** One tick of cleanupLoop: exactly the idle rooms go, and exactly their connections are closed. */
    method CleanupTick(now: int) returns (closed: set<Conn>)
      modifies this
      ensures rooms == old(rooms) - old(IdleTokens(now))
      ensures forall t :: t in old(rooms) ==> (t in rooms <==> now <= old(rooms[t].lastActivity) + 600)
      ensures closed == Members(old(rooms), old(IdleTokens(now)))
    {
      ghost var idle := IdleTokens(now);
      closed := SweepAll(now, rooms, idle);
      assert idle - {} == idle;
    }

    method Shutdown() returns (closed: set<Conn>)
      ensures closed == Members(rooms, rooms.Keys)
    {
      var todo := rooms.Keys;
      closed := {};
      while todo != {}
        invariant todo <= rooms.Keys
        invariant closed == Members(rooms, rooms.Keys - todo)
        decreases |todo|
      {
        var token :| token in todo;
        MembersGrow(rooms, rooms.Keys - todo, token);
        assert rooms.Keys - (todo - {token}) == rooms.Keys - todo + {token};
        todo := todo - {token};
        closed := closed + set c | c in rooms[token].clients;
      }
      assert rooms.Keys - todo == rooms.Keys;
    }

    /** What one handler wrote, message by message, and to whom. */
    static ghost function Relayed(frames: seq<(bool, seq<Byte>)>, to: seq<Conn>): seq<(seq<Conn>, seq<Byte>)> {
      if frames == [] then []
      else
        var n := |frames| - 1;
        Relayed(frames[..n], to) + if frames[n].0 then [(to, frames[n].1)] else []
    }

    static lemma RelayedNext(frames: seq<(bool, seq<Byte>)>, i: nat, to: seq<Conn>)
      requires i < |frames|
      ensures Relayed(frames[..i + 1], to) == Relayed(frames[..i], to) + if frames[i].0 then [(to, frames[i].1)] else []
    {
      assert frames[..i + 1][..i] == frames[..i];
    }

    /** The read loop of a handler, while nobody else joins or leaves. */
    static method RelayAll(room: Room, conn: Conn, frames: seq<(bool, seq<Byte>)>, now: int)
      returns (relayed: seq<(seq<Conn>, seq<Byte>)>)
      modifies room
      ensures room.clients == old(room.clients)
      ensures relayed == Relayed(frames, Others(room.clients, conn))
    {
      ghost var to := Others(room.clients, conn);
      relayed := [];
      for i := 0 to |frames|
        invariant room.clients == old(room.clients)
        invariant relayed == Relayed(frames[..i], to)
      {
        RelayedNext(frames, i, to);
        if frames[i].0 {
          var written, closed := room.Broadcast(conn, now, {});
          relayed := relayed + [(written, frames[i].1)];
        }
      }
      assert frames[..|frames|] == frames;
    }

    /**
     * How a handler ends, whatever others did to its room meanwhile: the emptiness check, then the deferred removal.
     */
    method Finish(room: Room, conn: Conn) returns (kicked: seq<Conn>)
      modifies this, room
      ensures rooms == if old(room.clients) == [] then old(rooms) - {room.token} else old(rooms)
      ensures room.Value() == old(room.Value()).Removed(conn) && kicked == old(room.Value()).Kicked(conn)
    {
      var isEmpty := |room.clients| == 0;
      if isEmpty {
        DeleteRoom(room.token);
      }
      kicked := room.RemoveClient(conn);
    }

    /**
     * handleWebSocket, with nobody else at work: `frames` is what its connection yields before the read fails, each
     * with whether it is binary. It finds itself in the room, so it leaves the entry in the map.
     */
    method HandleWebSocket(conn: Conn, token: string, frames: seq<(bool, seq<Byte>)>, now: int)
      returns (joined: bool, relayed: seq<(seq<Conn>, seq<Byte>)>, kicked: seq<Conn>)
      requires token in rooms ==> conn !in rooms[token].clients && rooms[token].token == token
      modifies this, rooms.Values
      ensures token in rooms && rooms == old(rooms)[token := rooms[token]]
      ensures if token in old(rooms) then rooms == old(rooms) else fresh(rooms[token])
      ensures forall r :: r in old(rooms).Values && r != rooms[token] ==> r.Value() == old(r.Value())
      ensures var before := if token in old(rooms) then old(rooms[token].clients) else [];
              && joined == (|before| < 2)
              && (!joined ==> rooms[token].clients == before && relayed == [] && kicked == [])
              && (joined ==> rooms[token].clients == [] && relayed == Relayed(frames, before) && kicked == before)
    {
      var room := GetOrCreateRoom(token, now);
      ghost var before := room.clients;
      relayed, kicked := [], [];
      joined := room.AddClient(conn, now);
      if !joined {
        return;
      }
      assert Others(before + [conn], conn) == before && Without(before + [conn], conn) == before by {
        assert |before| == 1 ==> before == [before[0]];
        assert Without([conn], conn) == [] && Others([conn], conn) == [];
      }
      relayed := RelayAll(room, conn, frames, now);
      kicked := Finish(room, conn);
    }
  }
}
