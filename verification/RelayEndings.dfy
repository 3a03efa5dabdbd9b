/** How it ends on the relay: whom a departure closes, and when an idle room goes. */
module RelayEndings {
  import opened Bytes
  import opened Rooms
  import opened RelayRuns
  import opened RelayTheorems

  // ---- Nobody is left behind ----

  ghost predicate Together(objects: seq<RoomState>, c: Conn, d: Conn) {
    exists r :: 0 <= r < |objects| && c in objects[r].clients && d in objects[r].clients
  }

  /** Two that have met are together still, or the relay has closed both. */
  ghost predicate Accompanied(s: State) {
    forall p :: p in s.met ==> Together(s.objects, p.0, p.1) || (p.0 in s.closed && p.1 in s.closed)
  }

  /** No member is lost from any room. */
  ghost predicate MembersStay(a: seq<RoomState>, b: seq<RoomState>) {
    |a| <= |b| && forall r :: 0 <= r < |a| ==> forall c :: c in a[r].clients ==> c in b[r].clients
  }

  lemma StayTogether(a: seq<RoomState>, b: seq<RoomState>, c: Conn, d: Conn)
    requires MembersStay(a, b) && Together(a, c, d)
    ensures Together(b, c, d)
  {
    var r :| 0 <= r < |a| && c in a[r].clients && d in a[r].clients;
    assert c in b[r].clients && d in b[r].clients;
  }

  lemma OthersKeepMembers(s: State, step: Step)
    requires Wf(s) && Enabled(s, step) && !step.Remove?
    ensures MembersStay(s.objects, Apply(s, step).objects) && s.closed <= Apply(s, step).closed
    ensures !step.Join? ==> Apply(s, step).met == s.met
  {
  }

  lemma JoinAccompanies(s: State, c: Conn, now: int)
    requires Wf(s) && Accompanied(s) && Enabled(s, Join(c, now))
    ensures Accompanied(Apply(s, Join(c, now)))
  {
    var t, r := Apply(s, Join(c, now)), s.handlers[c].phase.room;
    OthersKeepMembers(s, Join(c, now));
    forall p | p in t.met
      ensures Together(t.objects, p.0, p.1) || (p.0 in t.closed && p.1 in t.closed)
    {
      if p in s.met {
        if Together(s.objects, p.0, p.1) { StayTogether(s.objects, t.objects, p.0, p.1); }
      } else {
        assert t.objects[r].clients == s.objects[r].clients + [c];
        assert p.0 in t.objects[r].clients && p.1 in t.objects[r].clients;
      }
    }
  }

  /** Of two who have met, none leaves a room but with the other. */
  lemma PartnersLeaveTogether(s: State, c: Conn, p: (Conn, Conn))
    requires Inv(s) && Enabled(s, Remove(c)) && p in s.met && Together(s.objects, p.0, p.1)
    ensures var t := Apply(s, Remove(c)); Together(t.objects, p.0, p.1) || (p.0 in t.closed && p.1 in t.closed)
  {
    var r, t := s.handlers[c].phase.room, Apply(s, Remove(c));
    var q :| 0 <= q < |s.objects| && p.0 in s.objects[q].clients && p.1 in s.objects[q].clients;
    if q == r && c in s.objects[r].clients {
      var room := s.objects[r];
      var d := if p.0 == c then p.1 else p.0;
      BothMembers(room.clients, p.0, p.1, c);
      PartnerIsKicked(room, c, d);
      assert t.closed == s.closed + Closes(room, c);
    } else {
      RemovedEmpties(s.objects[r], c);
      assert p.0 in t.objects[q].clients && p.1 in t.objects[q].clients;
    }
  }

  lemma BothMembers(clients: seq<Conn>, a: Conn, b: Conn, c: Conn)
    requires PairOrLess(clients) && a != b && a in clients && b in clients && c in clients
    ensures c == a || c == b
    ensures var d := if a == c then b else a; d != c && (clients == [c, d] || clients == [d, c])
  {
  }

  lemma StepAccompanies(s: State, step: Step)
    requires Inv(s) && Enabled(s, step) && Accompanied(s)
    ensures Accompanied(Apply(s, step))
  {
    var t := Apply(s, step);
    if step.Join? {
      JoinAccompanies(s, step.conn, step.now);
    } else {
      forall p | p in t.met
        ensures Together(t.objects, p.0, p.1) || (p.0 in t.closed && p.1 in t.closed)
      {
        Accompanies(s, step, p);
      }
    }
  }

  lemma Accompanies(s: State, step: Step, p: (Conn, Conn))
    requires Inv(s) && Enabled(s, step) && !step.Join? && Accompanied(s) && p in Apply(s, step).met
    ensures var t := Apply(s, step); Together(t.objects, p.0, p.1) || (p.0 in t.closed && p.1 in t.closed)
  {
    if step.Remove? {
      if Together(s.objects, p.0, p.1) { PartnersLeaveTogether(s, step.conn, p); }
    } else {
      OthersKeepMembers(s, step);
      if Together(s.objects, p.0, p.1) { StayTogether(s.objects, Apply(s, step).objects, p.0, p.1); }
    }
  }

  lemma {:induction false} RunAccompanies(s: State, steps: seq<Step>, t: State)
    requires Reaches(s, steps, t) && Accompanied(s)
    ensures Accompanied(t)
    decreases |steps|
  {
    if steps != [] {
      var next := FirstStep(s, steps, t);
      StepAccompanies(s, steps[0]);
      RunAccompanies(next, steps[1..], t);
    }
  }

  /**
   * In every run: whoever has met somebody is in one room with that one, or the relay has closed both. Nobody stays
   * connected to a room that the other has left.
   */
  lemma NobodyIsLeftBehind(s: State)
    requires Reachable(s)
    ensures Accompanied(s)
  {
    var steps :| Reaches(INITIAL, steps, s);
    RunAccompanies(INITIAL, steps, s);
  }

  /** Every handler that has returned has closed its connection, joined or turned away. */
  ghost predicate ReturnedAreClosed(s: State) {
    forall c :: c in s.handlers && s.handlers[c].phase == Returned ==> c in s.closed
  }

  lemma StepClosesReturned(s: State, step: Step)
    requires Wf(s) && Enabled(s, step) && ReturnedAreClosed(s)
    ensures ReturnedAreClosed(Apply(s, step))
  {
  }

  lemma {:induction false} RunClosesReturned(s: State, steps: seq<Step>, t: State)
    requires Reaches(s, steps, t) && ReturnedAreClosed(s)
    ensures ReturnedAreClosed(t)
    decreases |steps|
  {
    if steps != [] {
      var next := FirstStep(s, steps, t);
      StepClosesReturned(s, steps[0]);
      RunClosesReturned(next, steps[1..], t);
    }
  }

  lemma EveryReturnCloses(s: State)
    requires Reachable(s)
    ensures ReturnedAreClosed(s)
  {
    var steps :| Reaches(INITIAL, steps, s);
    RunClosesReturned(INITIAL, steps, s);
  }

  // ---- Idle rooms ----

  /** Somebody joins room `r`, or speaks in it. */
  ghost predicate Touches(s: State, step: Step, r: nat) {
    match step
    case Join(c, _) =>
      c in s.handlers && s.handlers[c].phase == Got(r) && r < |s.objects| && |s.objects[r].clients| < 2
    case Say(c, _, _) => c in s.handlers && s.handlers[c].phase == Reading(r)
    case _ => false
  }

  /** When room `r` was last touched in a run, if it was at `at` before. */
  ghost function LastTouch(s: State, steps: seq<Step>, r: nat, at: int): int
    requires Inv(s) && Legal(s, steps)
    decreases |steps|
  {
    if steps == [] then at
    else
      StepKeepsInv(s, steps[0]);
      LastTouch(Apply(s, steps[0]), steps[1..], r, if Touches(s, steps[0], r) then steps[0].now else at)
  }

  lemma TouchStamps(s: State, step: Step, r: nat)
    requires Wf(s) && Enabled(s, step) && r < |s.objects|
    ensures var t := Apply(s, step);
            && r < |t.objects|
            && t.objects[r].lastActivity == (if Touches(s, step, r) then step.now else s.objects[r].lastActivity)
  {
  }

  /**
   * A room's clock stands at its last join or broadcast, whatever else happens; so the cleanup loop may take its entry
   * more than 600 seconds after that, and not before.
   */
  lemma {:induction false} IdleExactly(s: State, steps: seq<Step>, u: State, r: nat)
    requires Reaches(s, steps, u) && r < |s.objects|
    ensures r < |u.objects|
    ensures var last := LastTouch(s, steps, r, s.objects[r].lastActivity);
            && u.objects[r].lastActivity == last
            && forall token, now :: token in u.rooms && u.rooms[token] == r ==>
                 (Enabled(u, Sweep(token, now)) <==> now > last + 600)
    decreases |steps|
  {
    if steps != [] {
      var next := FirstStep(s, steps, u);
      TouchStamps(s, steps[0], r);
      IdleExactly(next, steps[1..], u, r);
    }
  }

  /** No handler deletes the entry of `token`; nobody joins or speaks before `from`, and no sweep is after `to`. */
  ghost predicate Within(s: State, steps: seq<Step>, token: string, from: int, to: int)
    requires Inv(s) && Legal(s, steps)
    decreases |steps|
  {
    steps == [] ||
    var step := steps[0];
    StepKeepsInv(s, step);
    && (step.Delete? ==> TokenOf(s, step.conn) != token)
    && (step.Join? || step.Say? ==> step.now >= from)
    && (step.Sweep? ==> step.now <= to)
    && Within(Apply(s, step), steps[1..], token, from, to)
  }

  lemma EntryStays(s: State, step: Step, token: string, at: int)
    requires Wf(s) && Enabled(s, step) && token in s.rooms && s.objects[s.rooms[token]].lastActivity >= at
    requires step.Delete? ==> TokenOf(s, step.conn) != token
    requires (step.Join? || step.Say? ==> step.now >= at) && (step.Sweep? ==> step.now <= at + 600)
    ensures var t := Apply(s, step);
            && token in t.rooms && t.rooms[token] == s.rooms[token]
            && s.rooms[token] < |t.objects| && t.objects[s.rooms[token]].lastActivity >= at
  {
    TouchStamps(s, step, s.rooms[token]);
  }

  /** So an entry whose room was touched at `at` outlives every sweep up to 600 seconds later. */
  lemma {:induction false} EntryOutlivesSweeps(s: State, steps: seq<Step>, u: State, token: string, at: int)
    requires Reaches(s, steps, u) && token in s.rooms && s.objects[s.rooms[token]].lastActivity >= at
    requires Within(s, steps, token, at, at + 600)
    ensures token in u.rooms && u.rooms[token] == s.rooms[token]
    decreases |steps|
  {
    if steps != [] {
      EntryStays(s, steps[0], token, at);
      var next := FirstStep(s, steps, u);
      EntryOutlivesSweeps(next, steps[1..], u, token, at);
    }
  }

  /** And a sweep after that finds it, unless the room was touched again, and takes it out for good. */
  lemma SweepTakes(s: State, steps: seq<Step>, u: State, token: string, now: int)
    requires Reaches(s, steps, u) && token in s.rooms && token in u.rooms && u.rooms[token] == s.rooms[token]
    requires now > LastTouch(s, steps, s.rooms[token], s.objects[s.rooms[token]].lastActivity) + 600
    ensures Enabled(u, Sweep(token, now)) && token !in Apply(u, Sweep(token, now)).rooms
    ensures forall c :: c in u.objects[u.rooms[token]].clients ==> c in Apply(u, Sweep(token, now)).closed
  {
    IdleExactly(s, steps, u, s.rooms[token]);
  }
}
