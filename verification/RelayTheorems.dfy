/** What the relay guarantees in every run of its handlers and its cleanup loop, and what it does not. */
module RelayTheorems {
  import opened Bytes
  import opened Rooms
  import opened RelayRuns

  // ---- Runs ----

  ghost predicate Legal(s: State, steps: seq<Step>)
    requires Inv(s)
    decreases |steps|
  {
    steps == [] || (Enabled(s, steps[0]) && (StepKeepsInv(s, steps[0]); Legal(Apply(s, steps[0]), steps[1..])))
  }

  ghost function Run(s: State, steps: seq<Step>): (t: State)
    requires Inv(s) && Legal(s, steps)
    ensures Inv(t)
    decreases |steps|
  {
    if steps == [] then s
    else
      StepKeepsInv(s, steps[0]);
      Run(Apply(s, steps[0]), steps[1..])
  }

  ghost predicate Reaches(s: State, steps: seq<Step>, t: State) {
    Inv(s) && Legal(s, steps) && Run(s, steps) == t
  }

  lemma NoSteps(s: State)
    requires Inv(s)
    ensures Reaches(s, [], s)
  {
  }

  lemma OneStep(s: State, step: Step, rest: seq<Step>, t: State)
    requires Inv(s) && Enabled(s, step) && Reaches(Apply(s, step), rest, t)
    ensures Reaches(s, [step] + rest, t)
  {
    assert ([step] + rest)[1..] == rest;
  }

  lemma {:induction false} Onward(s: State, a: seq<Step>, t: State, b: seq<Step>, u: State)
    requires Reaches(s, a, t) && Reaches(t, b, u)
    ensures Reaches(s, a + b, u)
    decreases |a|
  {
    if a == [] {
      assert a + b == b;
    } else {
      var rest := FirstStep(s, a, t);
      Onward(rest, a[1..], t, b, u);
      OneStep(s, a[0], a[1..] + b, u);
      FirstApart(a, b);
    }
  }

  lemma FirstApart(a: seq<Step>, b: seq<Step>)
    requires a != []
    ensures [a[0]] + (a[1..] + b) == a + b
  {
  }

  lemma FirstStep(s: State, steps: seq<Step>, t: State) returns (next: State)
    requires Reaches(s, steps, t) && steps != []
    ensures Enabled(s, steps[0]) && next == Apply(s, steps[0]) && Reaches(next, steps[1..], t)
  {
    StepKeepsInv(s, steps[0]);
    next := Apply(s, steps[0]);
  }

  ghost predicate Reachable(t: State) {
    exists steps :: Reaches(INITIAL, steps, t)
  }

  lemma StillReachable(s: State, steps: seq<Step>, t: State)
    requires Reachable(s) && Reaches(s, steps, t)
    ensures Reachable(t)
  {
    var before :| Reaches(INITIAL, before, s);
    Onward(INITIAL, before, s, steps, t);
  }

  lemma NextReachable(s: State, step: Step)
    requires Reachable(s) && Inv(s) && Enabled(s, step)
    ensures Reachable(Apply(s, step))
  {
    StepKeepsInv(s, step);
    var t := Apply(s, step);
    OneStep(s, step, [], t);
    StillReachable(s, [step] + [], t);
  }

  lemma InitiallyReachable()
    ensures Reachable(INITIAL)
  {
    InitialInv();
    assert Reaches(INITIAL, [], INITIAL);
  }

  // ---- One partner for life ----

  predicate Together(s: State, c: Conn, d: Conn) {
    c != d && exists r :: 0 <= r < |s.objects| && c in s.objects[r].clients && d in s.objects[r].clients
  }

  lemma TogetherMeansMet(s: State, c: Conn, d: Conn)
    requires Inv(s) && Together(s, c, d)
    ensures (c, d) in s.met
  {
    var r :| 0 <= r < |s.objects| && c in s.objects[r].clients && d in s.objects[r].clients;
    PartnersTogether(s.met, s.objects, s.handlers, r, c, d);
  }

  lemma {:induction false} RunKeepsMet(s: State, steps: seq<Step>)
    requires Inv(s) && Legal(s, steps)
    ensures s.met <= Run(s, steps).met
    decreases |steps|
  {
    if steps == [] {
    } else {
      StepKeepsInv(s, steps[0]);
      MetGrows(s, steps[0]);
      RunKeepsMet(Apply(s, steps[0]), steps[1..]);
    }
  }

  /** No connection is ever in a room with two different others, however far apart in the run. */
  lemma OnePartnerForLife(s: State, steps: seq<Step>, c: Conn, d: Conn, e: Conn)
    requires Inv(s) && Legal(s, steps)
    requires Together(s, c, d) && Together(Run(s, steps), c, e)
    ensures d == e
  {
    TogetherMeansMet(s, c, d);
    TogetherMeansMet(Run(s, steps), c, e);
    RunKeepsMet(s, steps);
    var met := Run(s, steps).met;
    assert (c, d) in met && (c, e) in met;
  }

  /** A room has at most two members, which are two; and a pair goes at once or stays. */
  lemma TwoStraightToZero(s: State, step: Step, r: nat)
    requires Inv(s) && Enabled(s, step) && r < |s.objects|
    ensures PairOrLess(s.objects[r].clients)
    ensures var after := Apply(s, step).objects;
            r < |after|
            && (|s.objects[r].clients| == 2 ==> after[r].clients == s.objects[r].clients || after[r].clients == [])
  {
    if step.Remove? {
      RemovedEmpties(s.objects[s.handlers[step.conn].phase.room], step.conn);
    }
  }

  /**
   * What a handler's deferred removal does: its own room becomes empty if it is still in it; if it was sent away
   * before, no room changes, whoever is in them by now.
   */
  lemma LateRemovalDisturbsNobody(s: State, c: Conn)
    requires Inv(s) && Enabled(s, Remove(c))
    ensures var r := s.handlers[c].phase.room;
            var after := Apply(s, Remove(c)).objects;
            && (forall q :: 0 <= q < |s.objects| && q != r ==> after[q] == s.objects[q])
            && (c in s.objects[r].clients ==> after[r].clients == [])
            && (HasMet(s.met, c) && c !in s.objects[r].clients ==> after == s.objects)
            && (c !in s.objects[r].clients ==> HasMet(s.met, c))
  {
    RemovedEmpties(s.objects[s.handlers[c].phase.room], c);
  }

  ghost predicate Out(s: State, c: Conn) {
    && c in s.handlers && Arrived(s.handlers[c].phase)
    && forall r :: 0 <= r < |s.objects| ==> c !in s.objects[r].clients
  }

  /** Out of its room, a connection is never in one again. */
  lemma {:induction false} OutForGood(s: State, steps: seq<Step>, t: State, c: Conn)
    requires Reaches(s, steps, t) && Out(s, c)
    ensures Out(t, c)
    decreases |steps|
  {
    if steps == [] {
    } else {
      var next := FirstStep(s, steps, t);
      OutAfterStep(s, steps[0], c);
      OutForGood(next, steps[1..], t, c);
    }
  }

  /** Members of rooms were members before, or join now. */
  lemma MembersJoin(s: State, step: Step, r: nat, c: Conn)
    requires Wf(s) && Social(s) && Enabled(s, step)
    requires r < |Apply(s, step).objects| && c in Apply(s, step).objects[r].clients
    ensures (r < |s.objects| && c in s.objects[r].clients) || (step.Join? && step.conn == c && s.handlers[c].phase.Got?)
  {
    if step.Remove? {
      RemovedEmpties(s.objects[s.handlers[step.conn].phase.room], step.conn);
    }
  }

  lemma OutAfterStep(s: State, step: Step, c: Conn)
    requires Wf(s) && Social(s) && Enabled(s, step) && Out(s, c)
    ensures Out(Apply(s, step), c)
  {
    var t := Apply(s, step);
    StepEvolves(s, step);
    forall r: nat | r < |t.objects|
      ensures c !in t.objects[r].clients
    {
      if c in t.objects[r].clients {
        MembersJoin(s, step, r, c);
      }
    }
  }

  // ---- Delivery ----

  /** A member's message is written once, to its partner for life, and to nobody else. */
  lemma MemberReachesPartner(s: State, c: Conn, message: seq<Byte>, now: int)
    requires Inv(s) && Enabled(s, Say(c, message, now))
    requires c in s.objects[s.handlers[c].phase.room].clients
    ensures var after := Apply(s, Say(c, message, now)).inbox;
            after.Keys == s.inbox.Keys
            && forall d :: d in s.inbox ==> after[d] == s.inbox[d] + if (c, d) in s.met then [message] else []
  {
    var r := s.handlers[c].phase.room;
    var clients := s.objects[r].clients;
    WrittenOnce(s.inbox, clients, c, message);
    forall d | d in s.inbox
      ensures (c, d) in s.met <==> d in clients && d != c
    {
      assert (c, d) in s.met ==> d in clients && d != c;
      if d in clients && d != c {
        PartnersTogether(s.met, s.objects, s.handlers, r, c, d);
      }
    }
  }

  /** A message reaches only its sender's partner, unless the sender was sent away and others have come to its room. */
  lemma StrangersHearExactlyTheKicked(s: State, c: Conn, message: seq<Byte>, now: int)
    requires Inv(s) && Enabled(s, Say(c, message, now))
    ensures var clients := s.objects[s.handlers[c].phase.room].clients;
            var after := Apply(s, Say(c, message, now)).inbox;
            after.Keys == s.inbox.Keys
            && ((forall d :: d in s.inbox && after[d] != s.inbox[d] ==> (c, d) in s.met)
                <==> c in clients || clients == [])
  {
    var r := s.handlers[c].phase.room;
    var clients := s.objects[r].clients;
    WrittenOnce(s.inbox, clients, c, message);
    forall d | d in clients && d != c
      ensures (c, d) in s.met <==> c in clients
    {
      PartnersTogether(s.met, s.objects, s.handlers, r, c, d);
    }
    if c !in clients && clients != [] {
      var d := clients[0];
      assert d in clients && d in s.inbox && (c, d) !in s.met;
      var after := Apply(s, Say(c, message, now)).inbox;
      assert after[d] == s.inbox[d] + [message];
    }
  }

  /** What `sender` said while `c` was in the room. */
  function SaidTo(said: seq<Said>, sender: Conn, c: Conn): seq<seq<Byte>> {
    if said == [] then []
    else
      var e := said[|said| - 1];
      SaidTo(said[..|said| - 1], sender, c) + if c in e.members && e.sender == sender then [e.message] else []
  }

  ghost predicate OnlyMembersHeard(said: seq<Said>, c: Conn) {
    forall i :: 0 <= i < |said| && c in said[i].members && said[i].sender != c ==> said[i].sender in said[i].members
  }

  lemma PartnerOrStranger(s: State, e: Said, c: Conn, p: Conn)
    requires Inv(s) && (c, p) in s.met && EntryOk(e, s.handlers, s.met) && c in e.members && e.sender != c
    ensures e.sender == p <==> e.sender in e.members
  {
    assert (p, c) in s.met;
    if (e.sender, c) in s.met {
      assert (c, e.sender) in s.met;
    }
  }

  lemma {:induction false} HeardIsSaidTo(s: State, said: seq<Said>, c: Conn, p: Conn)
    requires Inv(s) && (c, p) in s.met && SaidOk(said, s.handlers, s.met)
    ensures |SaidTo(said, p, c)| <= |Heard(said, c)|
    ensures Heard(said, c) == SaidTo(said, p, c) <==> OnlyMembersHeard(said, c)
    ensures |SaidTo(said, p, c)| == |Heard(said, c)| ==> OnlyMembersHeard(said, c)
  {
    if said == [] {
    } else {
      var n := |said| - 1;
      var e := said[n];
      HeardIsSaidTo(s, said[..n], c, p);
      assert EntryOk(e, s.handlers, s.met) && p != c;
      if c in e.members && e.sender != c {
        PartnerOrStranger(s, e, c, p);
      }
      OnlyMembersSnoc(said, c);
    }
  }

  lemma OnlyMembersSnoc(said: seq<Said>, c: Conn)
    requires said != []
    ensures var e := said[|said| - 1];
            OnlyMembersHeard(said, c) <==>
            OnlyMembersHeard(said[..|said| - 1], c) && (c in e.members && e.sender != c ==> e.sender in e.members)
  {
    var n := |said| - 1;
    assert forall i :: 0 <= i < n ==> said[..n][i] == said[i];
    if OnlyMembersHeard(said, c) {
      assert OnlyMembersHeard(said[..n], c);
    }
    if OnlyMembersHeard(said[..n], c) {
      forall i | 0 <= i < n && c in said[i].members && said[i].sender != c
        ensures said[i].sender in said[i].members
      {
        assert said[..n][i] == said[i];
      }
    }
  }

  /**
   * In any run: what was written to a connection is exactly what its partner said while both were there, in order,
   * each message once, if and only if whoever spoke to its room was a member of it.
   */
  lemma Delivery(s: State, c: Conn, p: Conn)
    requires Inv(s) && (c, p) in s.met
    ensures c in s.inbox && (s.inbox[c] == SaidTo(s.said, p, c) <==> OnlyMembersHeard(s.said, c))
  {
    HeardIsSaidTo(s, s.said, c, p);
  }

  /** The broadcasts that were written to `c`, in order. */
  function WrittenTo(said: seq<Said>, c: Conn): seq<Said> {
    if said == [] then []
    else
      var e := said[|said| - 1];
      WrittenTo(said[..|said| - 1], c) + if c in e.members && c != e.sender then [e] else []
  }

  function MessagesOf(said: seq<Said>): seq<seq<Byte>> {
    seq(|said|, i requires 0 <= i < |said| => said[i].message)
  }

  function From(said: seq<Said>, p: Conn): seq<Said> {
    if said == [] then []
    else From(said[..|said| - 1], p) + if said[|said| - 1].sender == p then [said[|said| - 1]] else []
  }

  lemma MessagesSnoc(said: seq<Said>, e: Said)
    ensures MessagesOf(said + [e]) == MessagesOf(said) + [e.message]
  {
  }

  lemma FromSnoc(said: seq<Said>, e: Said, p: Conn)
    ensures From(said + [e], p) == From(said, p) + if e.sender == p then [e] else []
  {
    assert (said + [e])[..|said|] == said;
  }

  lemma {:induction false} WrittenIsHeard(said: seq<Said>, c: Conn, p: Conn)
    requires p != c
    ensures MessagesOf(WrittenTo(said, c)) == Heard(said, c)
    ensures MessagesOf(From(WrittenTo(said, c), p)) == SaidTo(said, p, c)
  {
    if said == [] {
    } else {
      var front, e := said[..|said| - 1], said[|said| - 1];
      WrittenIsHeard(front, c, p);
      if c in e.members && c != e.sender {
        MessagesSnoc(WrittenTo(front, c), e);
        FromSnoc(WrittenTo(front, c), e, p);
        MessagesSnoc(From(WrittenTo(front, c), p), e);
      } else {
        assert WrittenTo(said, c) == WrittenTo(front, c) && Heard(said, c) == Heard(front, c);
        assert SaidTo(said, p, c) == SaidTo(front, p, c);
      }
    }
  }

  /**
   * With or without strangers: what was written to a connection is a sequence of broadcasts, and those of them that its
   * partner made are exactly what the partner said while both were there, in order, each once.
   */
  lemma PartnerIsHeardInOrder(s: State, c: Conn, p: Conn)
    requires Inv(s) && (c, p) in s.met
    ensures c in s.inbox && s.inbox[c] == MessagesOf(WrittenTo(s.said, c))
    ensures MessagesOf(From(WrittenTo(s.said, c), p)) == SaidTo(s.said, p, c)
  {
    WrittenIsHeard(s.said, c, p);
  }

  /** No message crosses tokens or comes back, whatever was deleted and made again. */
  lemma MessagesStayWithTheToken(s: State, step: Step, d: Conn)
    requires Inv(s) && Enabled(s, step) && d in s.handlers
    ensures var t := Apply(s, step);
            && d in t.inbox && d in s.inbox
            && (t.inbox[d] != s.inbox[d] ==>
                  step.Say? && step.conn != d && TokenOf(s, step.conn) == TokenOf(s, d)
                  && t.inbox[d] == s.inbox[d] + [step.message])
  {
    if step.Say? {
      var clients := s.objects[s.handlers[step.conn].phase.room].clients;
      WrittenOnce(s.inbox, clients, step.conn, step.message);
    }
  }

  // ---- Runs made on purpose ----

  lemma ThreeSteps(s: State, a: Step, b: Step, c: Step) returns (steps: seq<Step>, t: State)
    requires Inv(s) && Enabled(s, a)
    requires Inv(Apply(s, a)) && Enabled(Apply(s, a), b)
    requires Inv(Apply(Apply(s, a), b)) && Enabled(Apply(Apply(s, a), b), c)
    ensures t == Apply(Apply(Apply(s, a), b), c) && Reaches(s, steps, t)
  {
    hide Run, Legal, Reaches, Social, SocialOk, SaidOk, InboxOk, ClosedOk, Enabled, Apply;
    var s1, s2 := Apply(s, a), Apply(Apply(s, a), b);
    t := Apply(s2, c);
    StepKeepsInv(s2, c);
    NoSteps(t);
    OneStep(s2, c, [], t);
    OneStep(s1, b, [c] + [], t);
    steps := [a] + ([b] + ([c] + []));
    OneStep(s, a, [b] + ([c] + []), t);
  }

  /** The room a newcomer gets, and the rooms then. */
  function RoomFor(s: State, token: string): nat {
    if token in s.rooms then s.rooms[token] else |s.objects|
  }

  function ObjectsFor(s: State, token: string): seq<RoomState> {
    if token in s.rooms then s.objects else s.objects + [RoomState(token, [], 0)]
  }

  function Welcomed(s: State, c: Conn, token: string): State
    requires Wf(s)
  {
    var r, objects := RoomFor(s, token), ObjectsFor(s, token);
    s.(rooms := s.rooms[token := r], objects := objects[r := objects[r].Added(c, 0)],
       handlers := s.handlers[c := Handler(token, Reading(r))],
       met := s.met + Pairs(c, objects[r].clients), inbox := s.inbox[c := []])
  }

  /** A new connection makes its way into its room. */
  lemma Arrives(s: State, c: Conn, token: string) returns (steps: seq<Step>)
    requires Inv(s) && c !in s.handlers && (token in s.rooms ==> !s.objects[s.rooms[token]].Full())
    ensures Reaches(s, steps, Welcomed(s, c, token))
  {
    var s1 := Apply(s, Connect(c, token));
    StepKeepsInv(s, Connect(c, token));
    var s2 := Apply(s1, Get(c, 0));
    StepKeepsInv(s1, Get(c, 0));
    var t: State;
    steps, t := ThreeSteps(s, Connect(c, token), Get(c, 0), Join(c, 0));
    ArrivedState(s, c, token);
  }

  lemma GotState(s: State, c: Conn, token: string)
    requires Wf(s) && c !in s.handlers && Wf(Apply(s, Connect(c, token)))
    ensures Apply(Apply(s, Connect(c, token)), Get(c, 0))
         == s.(rooms := s.rooms[token := RoomFor(s, token)], objects := ObjectsFor(s, token),
               handlers := s.handlers[c := Handler(token, Got(RoomFor(s, token)))], inbox := s.inbox[c := []])
  {
    var got := Handler(token, Got(RoomFor(s, token)));
    assert s.handlers[c := Handler(token, Upgraded)][c := got] == s.handlers[c := got];
    assert token in s.rooms ==> s.rooms[token := s.rooms[token]] == s.rooms;
  }

  lemma ArrivedState(s: State, c: Conn, token: string)
    requires Wf(s) && c !in s.handlers && (token in s.rooms ==> !s.objects[s.rooms[token]].Full())
    requires Wf(Apply(s, Connect(c, token))) && Wf(Apply(Apply(s, Connect(c, token)), Get(c, 0)))
    ensures Apply(Apply(Apply(s, Connect(c, token)), Get(c, 0)), Join(c, 0)) == Welcomed(s, c, token)
  {
    GotState(s, c, token);
    var got, reading := Handler(token, Got(RoomFor(s, token))), Handler(token, Reading(RoomFor(s, token)));
    assert s.handlers[c := got][c := reading] == s.handlers[c := reading];
  }

  function Emptied(s: State, c: Conn, r: nat): State
    requires c in s.handlers && r < |s.objects|
  {
    Move(s, c, Returned).(objects := s.objects[r := s.objects[r].(clients := [])],
                          closed := s.closed + Closes(s.objects[r], c))
  }

  /** One of a pair goes: its read fails, it is not alone, it removes itself and the other. */
  lemma Leaves(s: State, c: Conn, r: nat) returns (steps: seq<Step>)
    requires Inv(s) && c in s.handlers && s.handlers[c].phase == Reading(r) && r < |s.objects|
             && c in s.objects[r].clients
    ensures Reaches(s, steps, Emptied(s, c, r))
  {
    FailedState(s, c, r);
    var s1 := Move(s, c, ReadFailed(r));
    CheckedState(s1, c, r);
    var s2 := Move(s1, c, Leaving(r));
    MayRemove(s2, c, r);
    hide Run, Legal, Reaches, Inv, Apply, Enabled, Move, Emptied;
    StepKeepsInv(s, Fail(c));
    StepKeepsInv(s1, Check(c));
    var t: State;
    steps, t := ThreeSteps(s, Fail(c), Check(c), Remove(c));
    LeftState(s, c, r);
  }

  lemma FailedState(s: State, c: Conn, r: nat)
    requires Wf(s) && c in s.handlers && s.handlers[c].phase == Reading(r)
    ensures Enabled(s, Fail(c)) && Apply(s, Fail(c)) == Move(s, c, ReadFailed(r))
  {
  }

  lemma MayRemove(s: State, c: Conn, r: nat)
    requires c in s.handlers && s.handlers[c].phase == Leaving(r)
    ensures Enabled(s, Remove(c))
  {
  }

  lemma LeftState(s: State, c: Conn, r: nat)
    requires Wf(s) && Social(s) && c in s.handlers && s.handlers[c].phase == Reading(r) && c in s.objects[r].clients
    requires Wf(Apply(s, Fail(c))) && Wf(Apply(Apply(s, Fail(c)), Check(c)))
    ensures Apply(Apply(Apply(s, Fail(c)), Check(c)), Remove(c)) == Emptied(s, c, r)
  {
    FailedState(s, c, r);
    CheckedState(Move(s, c, ReadFailed(r)), c, r);
    MoveTwice(s, c, ReadFailed(r), Leaving(r));
    PairsOnly(s, r);
    hide Apply, Enabled, Wf, Social;
    RemovedState(Move(s, c, Leaving(r)), c, r);
    MoveTwice(s, c, Leaving(r), Returned);
  }

  lemma PairsOnly(s: State, r: nat)
    requires Social(s) && r < |s.objects|
    ensures PairOrLess(s.objects[r].clients)
  {
  }

  lemma CheckedState(s: State, c: Conn, r: nat)
    requires Wf(s) && c in s.handlers && s.handlers[c].phase == ReadFailed(r) && c in s.objects[r].clients
    ensures Enabled(s, Check(c)) && Apply(s, Check(c)) == Move(s, c, Leaving(r))
  {
  }

  lemma RemovedState(s: State, c: Conn, r: nat)
    requires Wf(s) && c in s.handlers && s.handlers[c].phase == Leaving(r) && c in s.objects[r].clients
    requires PairOrLess(s.objects[r].clients)
    ensures Apply(s, Remove(c)) == Emptied(s, c, r)
  {
    RemovedEmpties(s.objects[r], c);
  }

  lemma MoveTwice(s: State, c: Conn, a: Phase, b: Phase)
    requires c in s.handlers
    ensures Move(Move(s, c, a), c, b) == Move(s, c, b)
  {
    var h := s.handlers[c];
    assert s.handlers[c := h.(phase := a)][c := h.(phase := b)] == s.handlers[c := h.(phase := b)];
  }

  /** `c` was sent away from the room of `token`, is still reading, and the room is free for others. */
  ghost predicate KickedReader(s: State, c: Conn, token: string) {
    && c in s.handlers && s.handlers[c].phase.Reading? && TokenOf(s, c) == token
    && token in s.rooms && s.rooms[token] == s.handlers[c].phase.room
    && s.rooms[token] < |s.objects| && s.objects[s.rooms[token]].clients == []
  }

  lemma FirstIn(token: string)
    ensures Welcomed(INITIAL, 0, token)
         == State(map[token := 0], [RoomState(token, [0], 0)], map[0 := Handler(token, Reading(0))], {}, [],
                  map[0 := []], {})
  {
    var none: seq<Conn> := [];
    assert none + [0] == [0] && Pairs(0, none) == {};
    assert INITIAL.objects + [RoomState(token, [], 0)] == [RoomState(token, [], 0)];
    assert [RoomState(token, [], 0)][0 := RoomState(token, [0], 0)] == [RoomState(token, [0], 0)];
  }

  lemma SecondIn(s: State, token: string)
    requires Wf(s) && s.rooms == map[token := 0] && s.objects == [RoomState(token, [0], 0)] && s.said == []
    requires s.handlers == map[0 := Handler(token, Reading(0))]
    ensures var t := Welcomed(s, 1, token);
            && t.rooms == map[token := 0] && t.objects == [RoomState(token, [0, 1], 0)] && t.said == []
            && t.handlers == map[0 := Handler(token, Reading(0)), 1 := Handler(token, Reading(0))]
  {
    assert [0] + [1] == [0, 1];
    assert [RoomState(token, [0], 0)][0 := RoomState(token, [0] + [1], 0)] == [RoomState(token, [0, 1], 0)];
  }

  lemma PairUp(token: string) returns (s: State)
    ensures Reachable(s) && Inv(s) && s.rooms == map[token := 0] && s.objects == [RoomState(token, [0, 1], 0)]
            && s.said == []
    ensures s.handlers == map[0 := Handler(token, Reading(0)), 1 := Handler(token, Reading(0))]
  {
    InitialInv();
    InitiallyReachable();
    var a := Arrives(INITIAL, 0, token);
    FirstIn(token);
    var s1 := Welcomed(INITIAL, 0, token);
    StillReachable(INITIAL, a, s1);
    s := SecondArrives(s1, token);
  }

  lemma SecondArrives(s1: State, token: string) returns (s: State)
    requires Reachable(s1) && Inv(s1) && s1.rooms == map[token := 0] && s1.objects == [RoomState(token, [0], 0)]
             && s1.said == []
    requires s1.handlers == map[0 := Handler(token, Reading(0))]
    ensures Reachable(s) && Inv(s) && s.rooms == map[token := 0] && s.objects == [RoomState(token, [0, 1], 0)]
            && s.said == []
    ensures s.handlers == map[0 := Handler(token, Reading(0)), 1 := Handler(token, Reading(0))]
  {
    var b := Arrives(s1, 1, token);
    s := Welcomed(s1, 1, token);
    SecondIn(s1, token);
    StillReachable(s1, b, s);
  }

  lemma KickedReaderIsReachable(token: string) returns (s: State)
    ensures Reachable(s) && Inv(s) && KickedReader(s, 1, token) && s.handlers.Keys == {0, 1}
  {
    var pair := PairUp(token);
    var b := Leaves(pair, 0, 0);
    s := Emptied(pair, 0, 0);
    StillReachable(pair, b, s);
  }

  ghost predicate HeardByStranger(t: State, c: Conn, d: Conn, message: seq<Byte>) {
    (c, d) !in t.met && t.said != [] && t.said[|t.said| - 1] == Said(c, message, [d]) && d in t.inbox
      && t.inbox[d] == [message]
  }

  /** Then the next to come hears it. */
  lemma StrangerHears(s: State, c: Conn, d: Conn, token: string, message: seq<Byte>) returns (t: State)
    requires Reachable(s) && Inv(s) && KickedReader(s, c, token) && d !in s.handlers
    ensures Reachable(t) && HeardByStranger(t, c, d, message)
  {
    var arrive := Arrives(s, d, token);
    var full := Welcomed(s, d, token);
    StillReachable(s, arrive, full);
    WelcomedAlone(s, d, token);
    t := SayToStranger(full, c, d, s.rooms[token], message);
    NextReachable(full, Say(c, message, 0));
  }

  lemma WelcomedAlone(s: State, d: Conn, token: string)
    requires Wf(s) && d !in s.handlers && token in s.rooms && s.objects[s.rooms[token]].clients == []
    ensures var t := Welcomed(s, d, token);
            && |t.objects| == |s.objects| && t.objects[s.rooms[token]].clients == [d] && d in t.inbox
            && t.inbox[d] == []
            && (forall c :: c in s.handlers ==> c in t.handlers && t.handlers[c] == s.handlers[c])
  {
  }

  lemma SayToStranger(s: State, c: Conn, d: Conn, r: nat, message: seq<Byte>) returns (t: State)
    requires Inv(s) && c in s.handlers && s.handlers[c].phase == Reading(r) && r < |s.objects| && c != d
    requires s.objects[r].clients == [d] && d in s.inbox && s.inbox[d] == []
    ensures Inv(t) && t == Apply(s, Say(c, message, 0)) && HeardByStranger(t, c, d, message)
  {
    StepKeepsInv(s, Say(c, message, 0));
    t := Apply(s, Say(c, message, 0));
    WrittenOnce(s.inbox, [d], c, message);
    PartnersTogether(s.met, s.objects, s.handlers, r, c, d);
  }

  /** The counterexample to "a message reaches only its sender's partner": a kicked peer is still reading. */
  lemma AStrangerHearsAKickedPeer(token: string, message: seq<Byte>)
    ensures exists t, c, d :: Reachable(t) && HeardByStranger(t, c, d, message)
  {
    var s := KickedReaderIsReachable(token);
    var t := StrangerHears(s, 1, 2, token, message);
  }

  // ---- Same token, same room? ----

  /** A member whose connection the relay has not closed. */
  ghost predicate Live(objects: seq<RoomState>, closed: set<Conn>, r: nat, c: Conn) {
    r < |objects| && c in objects[r].clients && c !in closed
  }

  /** Two live members of different rooms with one token. */
  ghost predicate Split(s: State) {
    exists r: nat, q: nat, c, d :: Live(s.objects, s.closed, r, c) && Live(s.objects, s.closed, q, d)
                                   && r != q && s.objects[r].token == s.objects[q].token
  }

  /** Nobody is about to join the token's room. */
  ghost predicate NobodyComes(s: State, token: string) {
    token in s.rooms ==> forall c :: c in s.handlers ==> s.handlers[c].phase != Got(s.rooms[token])
  }

  /** Nobody is in it either, but for those whose connections are closed. */
  ghost predicate Quiet(s: State, token: string) {
    NobodyComes(s, token) && (token in s.rooms ==> forall c :: !Live(s.objects, s.closed, s.rooms[token], c))
  }

  /**
   * The step takes an entry out of the map only while its room is quiet; the cleanup loop closes the members itself.
   */
  ghost predicate QuietStep(s: State, step: Step)
    requires Enabled(s, step)
  {
    match step
    case Delete(c) => Quiet(s, TokenOf(s, c))
    case Sweep(token, _) => NobodyComes(s, token)
    case _ => true
  }

  ghost predicate Mapped(rooms: map<string, nat>, objects: seq<RoomState>, r: nat) {
    r < |objects| && objects[r].token in rooms && rooms[objects[r].token] == r
  }

  /** Rooms with live members, or soon to have some, are the ones in the map. */
  ghost predicate GatheredIn(rooms: map<string, nat>, objects: seq<RoomState>, handlers: map<Conn, Handler>,
                             closed: set<Conn>) {
    && (forall r: nat, c :: Live(objects, closed, r, c) ==> Mapped(rooms, objects, r))
    && (forall c :: c in handlers && handlers[c].phase.Got? ==> Mapped(rooms, objects, handlers[c].phase.room))
  }

  ghost predicate Gathered(s: State) {
    GatheredIn(s.rooms, s.objects, s.handlers, s.closed)
  }

  lemma GatheredIsNotSplit(s: State)
    requires Gathered(s)
    ensures !Split(s)
  {
    forall r: nat, q: nat, c, d | Live(s.objects, s.closed, r, c) && Live(s.objects, s.closed, q, d)
                                        && s.objects[r].token == s.objects[q].token
      ensures r == q
    {
      assert Mapped(s.rooms, s.objects, r) && Mapped(s.rooms, s.objects, q);
    }
  }

  lemma GetGathers(s: State, c: Conn, now: int)
    requires Wf(s) && Gathered(s) && Enabled(s, Get(c, now))
    ensures Gathered(Apply(s, Get(c, now)))
  {
    var t := Apply(s, Get(c, now));
    forall r: nat | Mapped(s.rooms, s.objects, r)
      ensures Mapped(t.rooms, t.objects, r)
    {
    }
    forall r: nat, d | Live(t.objects, t.closed, r, d)
      ensures Live(s.objects, s.closed, r, d)
    {
    }
    assert Mapped(t.rooms, t.objects, t.handlers[c].phase.room);
  }

  lemma UpdateGathers(s: State, r: nat, room: RoomState, handlers: map<Conn, Handler>, closed: set<Conn>)
    requires Gathered(s) && r < |s.objects| && room.token == s.objects[r].token && s.closed <= closed
    requires forall c :: c in room.clients && c !in closed ==> Mapped(s.rooms, s.objects, r)
    requires forall c :: c in handlers && handlers[c].phase.Got? ==>
               c in s.handlers && s.handlers[c].phase == handlers[c].phase
    ensures GatheredIn(s.rooms, s.objects[r := room], handlers, closed)
  {
    var objects := s.objects[r := room];
    forall q: nat | Mapped(s.rooms, s.objects, q)
      ensures Mapped(s.rooms, objects, q)
    {
    }
    forall q: nat, c | Live(objects, closed, q, c)
      ensures Mapped(s.rooms, s.objects, q)
    {
      if q != r { assert Live(s.objects, s.closed, q, c); }
    }
  }

  lemma UnmapGathers(s: State, token: string, handlers: map<Conn, Handler>, closed: set<Conn>)
    requires Wf(s) && Gathered(s) && NobodyComes(s, token) && s.closed <= closed
    requires token in s.rooms ==> forall c :: !Live(s.objects, closed, s.rooms[token], c)
    requires forall c :: c in handlers && handlers[c].phase.Got? ==>
               c in s.handlers && s.handlers[c].phase == handlers[c].phase
    ensures GatheredIn(s.rooms - {token}, s.objects, handlers, closed)
  {
    forall q: nat | Mapped(s.rooms, s.objects, q) && s.objects[q].token != token
      ensures Mapped(s.rooms - {token}, s.objects, q)
    {
    }
    forall q: nat, c | Live(s.objects, closed, q, c)
      ensures Mapped(s.rooms, s.objects, q) && s.objects[q].token != token
    {
      assert Live(s.objects, s.closed, q, c);
    }
  }

  lemma JoinGathers(s: State, c: Conn, now: int)
    requires Wf(s) && Gathered(s) && Enabled(s, Join(c, now))
    ensures Gathered(Apply(s, Join(c, now)))
  {
    var t, r := Apply(s, Join(c, now)), s.handlers[c].phase.room;
    assert t.objects == s.objects[r := t.objects[r]];
    UpdateGathers(s, r, t.objects[r], t.handlers, t.closed);
  }

  lemma SayGathers(s: State, c: Conn, message: seq<Byte>, now: int)
    requires Wf(s) && Gathered(s) && Enabled(s, Say(c, message, now))
    ensures Gathered(Apply(s, Say(c, message, now)))
  {
    var t, r := Apply(s, Say(c, message, now)), s.handlers[c].phase.room;
    assert forall d :: d in t.objects[r].clients && d !in t.closed ==> Live(s.objects, s.closed, r, d);
    UpdateGathers(s, r, t.objects[r], t.handlers, t.closed);
  }

  lemma RemoveGathers(s: State, c: Conn)
    requires Wf(s) && Social(s) && Gathered(s) && Enabled(s, Remove(c))
    ensures Gathered(Apply(s, Remove(c)))
  {
    var t, r := Apply(s, Remove(c)), s.handlers[c].phase.room;
    RemovedEmpties(s.objects[r], c);
    assert forall d :: d in t.objects[r].clients && d !in t.closed ==> Live(s.objects, s.closed, r, d);
    UpdateGathers(s, r, t.objects[r], t.handlers, t.closed);
  }

  lemma QuietStepGathers(s: State, step: Step)
    requires Wf(s) && Social(s) && Gathered(s) && Enabled(s, step) && QuietStep(s, step)
    ensures Gathered(Apply(s, step))
  {
    var t := Apply(s, step);
    match step
    case Get(c, now) => GetGathers(s, c, now);
    case Join(c, now) => JoinGathers(s, c, now);
    case Say(c, message, now) => SayGathers(s, c, message, now);
    case Remove(c) => RemoveGathers(s, c);
    case Delete(c) => UnmapGathers(s, TokenOf(s, c), t.handlers, t.closed);
    case Sweep(token, _) => UnmapGathers(s, token, t.handlers, t.closed);
    case _ =>
  }

  ghost predicate QuietRun(s: State, steps: seq<Step>)
    requires Inv(s) && Legal(s, steps)
    decreases |steps|
  {
    steps == [] || (QuietStep(s, steps[0]) && (StepKeepsInv(s, steps[0]); QuietRun(Apply(s, steps[0]), steps[1..])))
  }

  /** While entries go only when their rooms are quiet, live members with one token share one room. */
  lemma {:induction false} QuietRunsGather(s: State, steps: seq<Step>, t: State)
    requires Reaches(s, steps, t) && QuietRun(s, steps) && Gathered(s)
    ensures !Split(t)
    decreases |steps|
  {
    if steps == [] {
      GatheredIsNotSplit(s);
    } else {
      var next := FirstStep(s, steps, t);
      QuietStepGathers(s, steps[0]);
      QuietRunsGather(next, steps[1..], t);
    }
  }

  lemma Newcomer(handlers: map<Conn, Handler>) returns (c: Conn)
    ensures c !in handlers
  {
    c := Above(handlers.Keys);
  }

  lemma {:induction false} Above(s: set<Conn>) returns (n: Conn)
    ensures forall c :: c in s ==> c < n
    decreases |s|
  {
    if s == {} {
      n := 0;
    } else {
      var c :| c in s;
      var m := Above(s - {c});
      n := if m > c then m else c + 1;
      assert forall d :: d in s ==> d == c || d in s - {c};
    }
  }

  /** A live member of a room that is not in the map: the next to come with its token is alone in another. */
  lemma NewcomerSplits(s: State, r: nat, c: Conn) returns (steps: seq<Step>, t: State)
    requires Inv(s) && Live(s.objects, s.closed, r, c) && s.objects[r].token !in s.rooms
    ensures Reaches(s, steps, t) && Split(t)
  {
    var token := s.objects[r].token;
    var d := Newcomer(s.handlers);
    steps := Arrives(s, d, token);
    t := Welcomed(s, d, token);
    var q := |s.objects|;
    assert t.objects[r] == s.objects[r] && t.objects[q].clients == [d] && t.objects[q].token == token;
    assert Live(t.objects, t.closed, r, c) && Live(t.objects, t.closed, q, d);
  }

  /** `c` has got a room that is not in the map, and has yet to join it. */
  ghost predicate LateJoiner(s: State, c: Conn, r: nat) {
    c in s.handlers && s.handlers[c].phase == Got(r) && r < |s.objects| && s.objects[r].token !in s.rooms
  }

  lemma JoinsAndSplits(s: State, c: Conn, r: nat) returns (steps: seq<Step>, t: State)
    requires Inv(s) && LateJoiner(s, c, r) && !s.objects[r].Full()
    ensures Reaches(s, steps, t) && Split(t)
  {
    StepKeepsInv(s, Join(c, 0));
    var joined := Apply(s, Join(c, 0));
    assert joined.objects[r].clients == s.objects[r].clients + [c];
    assert Live(joined.objects, joined.closed, r, c);
    var more: seq<Step>;
    more, t := NewcomerSplits(joined, r, c);
    steps := [Join(c, 0)] + more;
    OneStep(s, Join(c, 0), more, t);
  }

  function StepsToGo(p: Phase): nat {
    match p
    case Reading(_) => 3
    case ReadFailed(_) => 2
    case FoundEmpty(_) => 1
    case _ => 0
  }

  /** The next step of a handler whose read fails. */
  function Exit(c: Conn, p: Phase): Step {
    match p
    case Reading(_) => Fail(c)
    case ReadFailed(_) => Check(c)
    case FoundEmpty(_) => Delete(c)
    case _ => Remove(c)
  }

  lemma ExitStep(s: State, m: Conn, c: Conn, r: nat)
    requires Wf(s) && LateJoiner(s, c, r) && m in s.objects[r].clients && PairOrLess(s.objects[r].clients)
    requires m in s.handlers && Attached(s.handlers[m].phase) && s.handlers[m].phase.room == r
    ensures var p := s.handlers[m].phase;
            && Enabled(s, Exit(m, p))
            && var t := Apply(s, Exit(m, p));
               && LateJoiner(t, c, r)
               && if p.Leaving? then t.objects[r].clients == []
                  else m in t.handlers && StepsToGo(t.handlers[m].phase) < StepsToGo(p) && t.objects == s.objects
  {
    RemovedEmpties(s.objects[r], m);
  }

  /** A member's read fails; its handler goes, and the room is empty. */
  lemma {:induction false} Evict(s: State, m: Conn, c: Conn, r: nat) returns (steps: seq<Step>, t: State)
    requires Inv(s) && LateJoiner(s, c, r) && m in s.objects[r].clients
    ensures Reaches(s, steps, t) && LateJoiner(t, c, r) && t.objects[r].clients == []
    decreases StepsToGo(s.handlers[m].phase)
  {
    var step := Exit(m, s.handlers[m].phase);
    ExitStep(s, m, c, r);
    StepKeepsInv(s, step);
    var next := Apply(s, step);
    var more: seq<Step>;
    if next.objects[r].clients == [] {
      more, t := [], next;
    } else {
      more, t := Evict(next, m, c, r);
    }
    steps := [step] + more;
    OneStep(s, step, more, t);
  }

  lemma JoinerSplits(s: State, c: Conn, r: nat) returns (steps: seq<Step>, t: State)
    requires Inv(s) && LateJoiner(s, c, r)
    ensures Reaches(s, steps, t) && Split(t)
  {
    if s.objects[r].Full() {
      var first, emptied := Evict(s, s.objects[r].clients[0], c, r);
      var second;
      second, t := JoinsAndSplits(emptied, c, r);
      steps := first + second;
      Onward(s, first, emptied, second, t);
    } else {
      steps, t := JoinsAndSplits(s, c, r);
    }
  }

  function Unmapped(s: State, step: Step): string
    requires Enabled(s, step) && (step.Delete? || step.Sweep?)
  {
    if step.Delete? then TokenOf(s, step.conn) else step.token
  }

  lemma UnmappedState(s: State, step: Step)
    requires Wf(s) && Enabled(s, step) && (step.Delete? || step.Sweep?)
    ensures var t := Apply(s, step);
            && t.objects == s.objects && t.rooms == s.rooms - {Unmapped(s, step)}
            && (step.Delete? ==> t.closed == s.closed)
            && forall c :: c in s.handlers && s.handlers[c].phase.Got? ==>
                 c in t.handlers && t.handlers[c].phase == s.handlers[c].phase
  {
  }

  /** And once one entry goes too early, live members with one token can be apart. */
  lemma LoudStepsCanSplit(s: State, step: Step)
    requires Inv(s) && Enabled(s, step) && !QuietStep(s, step)
    ensures exists more, t :: Reaches(s, [step] + more, t) && Split(t)
  {
    var r := s.rooms[Unmapped(s, step)];
    StepKeepsInv(s, step);
    UnmappedState(s, step);
    var next := Apply(s, step);
    if c :| c in s.handlers && s.handlers[c].phase == Got(r) {
      var more, t := JoinerSplits(next, c, r);
      OneStep(s, step, more, t);
    } else {
      var c :| Live(s.objects, s.closed, r, c);
      var more, t := NewcomerSplits(next, r, c);
      OneStep(s, step, more, t);
    }
  }

  /**
   * The race as it happens: a kicked peer finds its room empty, a newcomer joins it, the kicked peer deletes the entry.
   */
  lemma RacingDelete(s: State, c: Conn, d: Conn, token: string) returns (t: State)
    requires Reachable(s) && Inv(s) && KickedReader(s, c, token) && d !in s.handlers
    ensures Reachable(t) && Inv(t) && Enabled(t, Delete(c)) && !QuietStep(t, Delete(c))
  {
    NextReachable(s, Fail(c));
    StepKeepsInv(s, Fail(c));
    var s1 := Apply(s, Fail(c));
    NextReachable(s1, Check(c));
    StepKeepsInv(s1, Check(c));
    var s2 := Apply(s1, Check(c));
    var steps := Arrives(s2, d, token);
    t := Welcomed(s2, d, token);
    StillReachable(s2, steps, t);
    WelcomedAlone(s2, d, token);
    assert Live(t.objects, t.closed, t.rooms[token], d);
  }

  /** So "same token, same room" fails in a run that happens. */
  lemma SplitIsReachable(token: string)
    ensures exists t :: Reachable(t) && Split(t)
  {
    var s := KickedReaderIsReachable(token);
    var t := RacingDelete(s, 1, 2, token);
    LoudStepsCanSplit(t, Delete(1));
    var more, u :| Reaches(t, [Delete(1)] + more, u) && Split(u);
    StillReachable(t, [Delete(1)] + more, u);
  }

  // ---- Who deletes rooms ----

  ghost predicate DeletersOut(s: State) {
    forall c: Conn, r: nat :: c in s.handlers && s.handlers[c].phase == FoundEmpty(r) && r < |s.objects|
      ==> c !in s.objects[r].clients
  }

  lemma StepKeepsDeletersOut(s: State, step: Step)
    requires Wf(s) && Social(s) && DeletersOut(s) && Enabled(s, step)
    ensures DeletersOut(Apply(s, step))
  {
    var t := Apply(s, step);
    forall c: Conn, r: nat | c in t.handlers && t.handlers[c].phase == FoundEmpty(r) && r < |t.objects|
      ensures c !in t.objects[r].clients
    {
      if c in t.objects[r].clients {
        MembersJoin(s, step, r, c);
      }
    }
  }

  lemma {:induction false} RunKeepsDeletersOut(s: State, steps: seq<Step>, t: State)
    requires Reaches(s, steps, t) && DeletersOut(s)
    ensures DeletersOut(t)
    decreases |steps|
  {
    if steps == [] {
    } else {
      var next := FirstStep(s, steps, t);
      StepKeepsDeletersOut(s, steps[0]);
      RunKeepsDeletersOut(next, steps[1..], t);
    }
  }

  /**
   * Since a handler looks before it removes itself, only one that was sent away by its partner finds its room empty.
   */
  lemma OnlyTheKickedDelete(s: State, c: Conn)
    requires Reachable(s) && Enabled(s, Delete(c))
    ensures c in s.handlers && HasMet(s.met, c)
  {
    var steps :| Reaches(INITIAL, steps, s);
    RunKeepsDeletersOut(INITIAL, steps, s);
    var r := s.handlers[c].phase.room;
    assert s.handlers[c].phase == FoundEmpty(r) && c !in s.objects[r].clients;
  }

  /** So the room of somebody who waited in vain stays in the map until the cleanup loop finds it idle. */
  lemma LoneRoomsStay(s: State, step: Step, token: string)
    requires Reachable(s) && Inv(s) && Enabled(s, step) && token in s.rooms
    requires forall c :: c in s.handlers && TokenOf(s, c) == token ==> !HasMet(s.met, c)
    ensures var t := Apply(s, step);
            if token in t.rooms then t.rooms[token] == s.rooms[token]
            else step.Sweep? && step.token == token && s.objects[s.rooms[token]].Idle(step.now)
  {
    if step.Delete? {
      OnlyTheKickedDelete(s, step.conn);
    }
  }
}
