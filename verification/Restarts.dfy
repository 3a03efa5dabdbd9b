/** Senders that restart: what a receive session on one stream of messages makes of it, and what it reports. */
module Restarts {
  import opened Bytes
  import opened Protocol
  import opened Receiving
  import opened Wire
  import opened Sessions
  import opened Kept
  import opened SessionTheorems

  /** One run of the sender program: how it opens, what it would send, and how many messages of that it gets out. */
  datatype Life = Life(greeting: seq<Message>, items: seq<Item>, cut: nat)

  const ANNOUNCE: seq<Message> := [Version([PROTOCOL_VERSION])]

  function LifeWire(l: Life): seq<Message> {
    var w := ItemsWire(l.items);
    l.greeting + if l.cut <= |w| then w[..l.cut] else w
  }

  /** A negotiation that is not refused may begin the last of them: no restart follows it. */
  ghost predicate GoodLife(cfg: Config, d: Dir, l: Life, last: bool) {
    && (l.greeting == [] || l.greeting == [P2PFail] || (last && IsGreeting(cfg, l.greeting)))
    && l.cut <= |ItemsWire(l.items)|
    && GoodItems(cfg, d, l.items, true)
  }

  ghost predicate GoodLives(cfg: Config, d: Dir, lives: seq<Life>)
    decreases |lives|
  {
    && lives != [] && GoodLife(cfg, d, lives[0], |lives| == 1)
    && (|lives| == 1 || GoodLives(cfg, Interrupted(d, lives[0]), lives[1..]))
  }

  /** Each later sender announces its version first. */
  function LivesWire(lives: seq<Life>): seq<Message>
    requires lives != []
    decreases |lives|
  {
    if |lives| == 1 then LifeWire(lives[0]) else LifeWire(lives[0]) + ANNOUNCE + LivesWire(lives[1..])
  }

  function LifeDone(l: Life): seq<FileTx> {
    Completed(l.items, l.cut)
  }

  /** The directory once the receiver has noticed that the sender restarted. */
  function Interrupted(d: Dir, l: Life): Dir {
    var whole := PublishAll(d, LifeDone(l));
    match InFlight(l.items, l.cut)
    case None => whole
    case Some((tx, _)) => Discard(whole, tx.name)
  }

  function LivesDir(d: Dir, lives: seq<Life>): Dir
    requires lives != []
    decreases |lives|
  {
    if |lives| == 1 then CutDir(d, lives[0].items, lives[0].cut) else LivesDir(Interrupted(d, lives[0]), lives[1..])
  }

  /** The paths of all files completed in any life; ReceiveFiles keeps only those since the last restart. */
  function LivesPaths(single: bool, d: Dir, lives: seq<Life>): seq<string>
    requires lives != []
    decreases |lives|
  {
    var ps := Dests(d, LifeDone(lives[0]));
    if |lives| == 1 then ps
    else (if single then [] else ps) + LivesPaths(single, Interrupted(d, lives[0]), lives[1..])
  }

  lemma RunLife(cfg: Config, s: State, l: Life, last: bool) returns (t: State)
    requires s.control == Opening && s.paths == [] && !Trouble(cfg) && GoodLife(cfg, s.dir, l, last)
    ensures t == Run(cfg, s, LifeWire(l)) && CutAt(s, t, l.items, l.cut)
    ensures cfg.single ==> t.reports == s.reports
  {
    var g := Greeted(cfg, s, l.greeting);
    RunAppend(cfg, s, l.greeting, ItemsWire(l.items)[..l.cut]);
    RunCut(cfg, g, l.items, l.cut);
    t := Run(cfg, g, ItemsWire(l.items)[..l.cut]);
  }

  ghost predicate Reopened(cfg: Config, t: State, u: State) {
    && u.control == Opening && u.paths == [] && u.replies == t.replies + 1
    && AllPaths(u) == (if cfg.single then Flatten(t.reports) else AllPaths(t))
    && (cfg.single ==> u.reports == t.reports)
  }

  lemma RestartReopens(cfg: Config, t: State)
    requires !Trouble(cfg)
    ensures Reopened(cfg, t, OnVersion(cfg, t, [PROTOCOL_VERSION]))
            && OnVersion(cfg, t, [PROTOCOL_VERSION]).dir == t.dir
  {
    ReportKeepsPaths(t.reports, t.paths);
    assert Flatten(t.reports) + [] == Flatten(t.reports);
  }

  lemma AnnounceStep(cfg: Config, t: State) returns (u: State)
    requires !Trouble(cfg) && (Ready(t) || (t.control.InFile? && t.control.frame.Open?))
    ensures u == Run(cfg, t, ANNOUNCE) && Reopened(cfg, t, u)
    ensures u.dir == if t.control.InFile? && t.control.frame.Open? then t.dir - {Part(t.control.frame.dest)} else t.dir
  {
    var announce := Version([PROTOCOL_VERSION]);
    RunOne(cfg, t, announce);
    u := Step(cfg, t, announce);
    RestartReopens(cfg, t);
    if t.control.InFile? && t.control.frame.Open? {
      RestartReopens(cfg, t.(dir := t.dir - {Part(t.control.frame.dest)}));
    }
  }

  /** The announce of a restarted sender, at whatever point of the stream it arrives. */
  lemma RunAnnounce(cfg: Config, s: State, t: State, l: Life) returns (u: State)
    requires s.paths == [] && !Trouble(cfg) && CutAt(s, t, l.items, l.cut)
    requires cfg.single ==> t.reports == s.reports
    ensures u == Run(cfg, t, ANNOUNCE)
    ensures u.control == Opening && u.paths == [] && u.dir == Interrupted(s.dir, l) && u.replies == s.replies + 1
    ensures AllPaths(u) == if cfg.single then Flatten(s.reports) else AllPaths(s) + Dests(s.dir, LifeDone(l))
    ensures cfg.single ==> u.reports == s.reports
  {
    CutWhere(s, t, l);
    hide Run, CutAt, Interrupted, AllPaths;
    u := AnnounceStep(cfg, t);
  }

  /** Where a cut leaves the session, and the directory without the file in flight. */
  lemma CutWhere(s: State, t: State, l: Life)
    requires CutAt(s, t, l.items, l.cut)
    ensures Ready(t) || (t.control.InFile? && t.control.frame.Open?)
    ensures (if t.control.InFile? && t.control.frame.Open? then t.dir - {Part(t.control.frame.dest)} else t.dir)
         == Interrupted(s.dir, l)
    ensures t.replies == s.replies && AllPaths(t) == AllPaths(s) + Dests(s.dir, LifeDone(l))
  {
    var whole := PublishAll(s.dir, LifeDone(l));
    match InFlight(l.items, l.cut)
    case None =>
    case Some((tx, j)) =>
      var part := Part(Dest(whole, tx.name));
      assert whole[part := Received(tx, j)] - {part} == whole - {part};
  }

  ghost predicate LivesRan(single: bool, s: State, t: State, lives: seq<Life>)
    requires lives != []
  {
    var cut := InFlight(Last(lives).items, Last(lives).cut);
    && t.dir == LivesDir(s.dir, lives)
    && AllPaths(t) == Flatten(s.reports) + LivesPaths(single, s.dir, lives)
    && t.replies == s.replies + |lives| - 1
    && (t.paths != [] <==> Pending(Last(lives).items, Last(lives).cut, false))
    && (single ==> t.reports == s.reports)
    && (if cut.None? then Ready(t) else t.control.InFile? && t.control.frame.Open?)
  }

  lemma LivesRanOne(single: bool, s: State, t: State, lives: seq<Life>)
    requires |lives| == 1 && s.paths == [] && CutAt(s, t, lives[0].items, lives[0].cut)
    requires single ==> t.reports == s.reports
    ensures LivesRan(single, s, t, lives)
  {
    assert Flatten(s.reports) + [] == Flatten(s.reports);
  }

  lemma LivesRanCons(single: bool, s: State, u: State, t: State, lives: seq<Life>)
    requires |lives| > 1 && s.paths == [] && u.paths == []
    requires u.dir == Interrupted(s.dir, lives[0]) && u.replies == s.replies + 1
    requires AllPaths(u) == if single then Flatten(s.reports) else AllPaths(s) + Dests(s.dir, LifeDone(lives[0]))
    requires single ==> u.reports == s.reports
    requires LivesRan(single, u, t, lives[1..])
    ensures LivesRan(single, s, t, lives)
  {
    var rest := lives[1..];
    assert Last(rest) == Last(lives);
    assert Flatten(u.reports) + [] == Flatten(u.reports) && Flatten(s.reports) + [] == Flatten(s.reports);
    PathsJoin(Flatten(s.reports), Dests(s.dir, LifeDone(lives[0])), LivesPaths(single, u.dir, rest));
  }

  /**
   * Restarts at any message boundary, any number of times: the receiver answers each announce, carries on, and has
   * recorded every file completed before or after each restart, exactly once and in order. ReceiveFiles instead
   * forgets what was completed before the last restart.
   */
  lemma {:induction false} RestartedSession(cfg: Config, s: State, lives: seq<Life>)
    requires s.control == Opening && s.paths == [] && !Trouble(cfg) && GoodLives(cfg, s.dir, lives)
    ensures LivesRan(cfg.single, s, Run(cfg, s, LivesWire(lives)), lives)
    decreases |lives|
  {
    var t := RunLife(cfg, s, lives[0], |lives| == 1);
    if |lives| == 1 {
      LivesRanOne(cfg.single, s, t, lives);
    } else {
      RestartedTail(cfg, s, t, lives);
    }
  }

  lemma {:induction false} RestartedTail(cfg: Config, s: State, t: State, lives: seq<Life>)
    requires s.control == Opening && s.paths == [] && !Trouble(cfg) && GoodLives(cfg, s.dir, lives) && |lives| > 1
    requires t == Run(cfg, s, LifeWire(lives[0]))
    requires CutAt(s, t, lives[0].items, lives[0].cut) && (cfg.single ==> t.reports == s.reports)
    ensures LivesRan(cfg.single, s, Run(cfg, s, LivesWire(lives)), lives)
    decreases |lives|, 0
  {
    var l, rest := lives[0], lives[1..];
    var u := RunAnnounce(cfg, s, t, l);
    RunAppend(cfg, s, LifeWire(l), ANNOUNCE);
    RunAppend(cfg, s, LifeWire(l) + ANNOUNCE, LivesWire(rest));
    RestartedSession(cfg, u, rest);
    LivesRanCons(cfg.single, s, u, Run(cfg, u, LivesWire(rest)), lives);
  }

  function Last(lives: seq<Life>): Life
    requires lives != []
  {
    lives[|lives| - 1]
  }

  function LivesDone(lives: seq<Life>): seq<FileTx> {
    if lives == [] then [] else LifeDone(lives[0]) + LivesDone(lives[1..])
  }

  lemma InterruptedAdds(d: Dir, l: Life)
    requires FinalNames(LifeDone(l))
    ensures Added(d, Interrupted(d, l), Dests(d, LifeDone(l)), LifeDone(l))
  {
    var txs := LifeDone(l);
    var whole := PublishAll(d, txs);
    PublishAllAdds(d, txs);
    match InFlight(l.items, l.cut)
    case None =>
    case Some((tx, _)) =>
      PartIsPartial(Dest(whole, tx.name));
      AddedNothing(whole, Interrupted(d, l));
      AddedThen(d, whole, Interrupted(d, l), Dests(d, txs), txs, [], []);
      assert Dests(d, txs) + [] == Dests(d, txs) && txs + [] == txs;
  }

  lemma FinalNamesParts(a: seq<FileTx>, b: seq<FileTx>)
    requires FinalNames(a + b)
    ensures FinalNames(a) && FinalNames(b)
  {
    assert forall tx :: tx in a || tx in b ==> tx in a + b;
  }

  /** The directory with every completed file, and without what the last sender left unfinished. */
  function LivesWhole(d: Dir, lives: seq<Life>): Dir
    requires lives != []
    decreases |lives|
  {
    if |lives| == 1 then PublishAll(d, LifeDone(lives[0])) else LivesWhole(Interrupted(d, lives[0]), lives[1..])
  }

  /** The directory has gained exactly the completed files; no partial file of an earlier sender is left. */
  lemma {:induction false} CompletedAreAdded(d: Dir, lives: seq<Life>)
    requires lives != [] && FinalNames(LivesDone(lives))
    ensures Added(d, LivesWhole(d, lives), LivesPaths(false, d, lives), LivesDone(lives))
    decreases |lives|
  {
    FinalNamesParts(LifeDone(lives[0]), LivesDone(lives[1..]));
    if |lives| == 1 {
      LastLifeAdds(d, lives);
    } else {
      CompletedAreAdded(Interrupted(d, lives[0]), lives[1..]);
      EarlierLifeAdds(d, lives);
    }
  }

  lemma LastLifeAdds(d: Dir, lives: seq<Life>)
    requires |lives| == 1 && FinalNames(LifeDone(lives[0]))
    ensures Added(d, LivesWhole(d, lives), LivesPaths(false, d, lives), LivesDone(lives))
  {
    PublishAllAdds(d, LifeDone(lives[0]));
    assert LivesDone(lives[1..]) == [] && LifeDone(lives[0]) + [] == LifeDone(lives[0]);
  }

  lemma EarlierLifeAdds(d: Dir, lives: seq<Life>)
    requires |lives| > 1 && FinalNames(LifeDone(lives[0]))
    requires var m, rest := Interrupted(d, lives[0]), lives[1..];
             Added(m, LivesWhole(m, rest), LivesPaths(false, m, rest), LivesDone(rest))
    ensures Added(d, LivesWhole(d, lives), LivesPaths(false, d, lives), LivesDone(lives))
  {
    var l, rest := lives[0], lives[1..];
    var m := Interrupted(d, l);
    InterruptedAdds(d, l);
    AddedThen(d, m, LivesWhole(m, rest), Dests(d, LifeDone(l)), LifeDone(l), LivesPaths(false, m, rest),
              LivesDone(rest));
  }

  lemma {:induction false} LastPartial(cfg: Config, d: Dir, lives: seq<Life>)
    requires GoodLives(cfg, d, lives)
    ensures match InFlight(Last(lives).items, Last(lives).cut)
            case None => LivesDir(d, lives) == LivesWhole(d, lives)
            case Some((tx, j)) =>
              Received(tx, j) <= tx.content
                && LivesDir(d, lives) == WithPartial(LivesWhole(d, lives), tx.name, Received(tx, j))
    decreases |lives|
  {
    if |lives| == 1 {
      if InFlight(lives[0].items, lives[0].cut).Some? {
        InFlightIsPrefix(cfg, d, lives[0].items, lives[0].cut);
      }
    } else {
      SameLast(lives);
      LastPartial(cfg, Interrupted(d, lives[0]), lives[1..]);
    }
  }

  lemma SameLast(lives: seq<Life>)
    requires |lives| > 1
    ensures Last(lives[1..]) == Last(lives)
  {
  }

  /**
   * However often the sender restarts and wherever the last one stops: the directory has gained exactly the files
   * completed before or after each restart, with their contents. No partial file of an interrupted transfer is left but
   * that of the very last one, which holds a prefix of its file.
   */
  lemma RestartedDirectory(cfg: Config, dir: Dir, lives: seq<Life>, end: CloseKind)
    requires !Trouble(cfg) && GoodLives(cfg, dir, lives) && FinalNames(LivesDone(lives))
    ensures var t, whole := Outcome(cfg, Start(dir), LivesWire(lives), end), LivesWhole(dir, lives);
            && Added(dir, whole, LivesPaths(false, dir, lives), LivesDone(lives))
            && match InFlight(Last(lives).items, Last(lives).cut)
               case None => t.dir == whole
               case Some((tx, j)) =>
                 Received(tx, j) <= tx.content && t.dir == whole[Part(Dest(whole, tx.name)) := Received(tx, j)]
  {
    RestartedSession(cfg, Start(dir), lives);
    CloseKeeps(cfg, Run(cfg, Start(dir), LivesWire(lives)), end);
    CompletedAreAdded(dir, lives);
    LastPartial(cfg, dir, lives);
  }

  // ---- What is reported ----

  /**
   * ReceiveBatches reports every completed file unless the stream breaks off inside a batch: the last sender has
   * completed a file after its last SessionEnd, and then either is cut inside another file or does not close cleanly.
   */
  lemma ReportedExactly(cfg: Config, dir: Dir, lives: seq<Life>, end: CloseKind)
    requires !cfg.single && !Trouble(cfg) && GoodLives(cfg, dir, lives)
    ensures var t, l := Outcome(cfg, Start(dir), LivesWire(lives), end), Last(lives);
            Flatten(t.reports) == LivesPaths(false, dir, lives) <==>
            !Pending(l.items, l.cut, false) || (end.Clean? && InFlight(l.items, l.cut).None?)
  {
    hide Run, LivesWire, LivesPaths, LivesDir, Pending, InFlight;
    var u := Run(cfg, Start(dir), LivesWire(lives));
    var t := Close(cfg, u, end);
    RestartedSession(cfg, Start(dir), lives);
    assert [] + LivesPaths(false, dir, lives) == LivesPaths(false, dir, lives);
    CloseKeeps(cfg, u, end);
    assert |AllPaths(t)| == |Flatten(t.reports)| + |t.paths|;
    if t.paths == [] { assert Flatten(t.reports) + [] == Flatten(t.reports); }
  }

  /** Such a stream: a file, then a read error. The file is saved, and nobody is told. */
  lemma SavedButUnreported(cfg: Config, dir: Dir, tx: FileTx)
    requires !cfg.single && !Trouble(cfg) && Arriving(cfg, dir, tx)
    ensures var t := Outcome(cfg, Start(dir), FileWire(tx), Broken);
            t.control == Stopped(Err(Read)) && t.reports == [] && t.dir == Publish(dir, tx.name, tx.content)
  {
    var t := RunFileItem(cfg, Start(dir), tx);
  }

  lemma {:induction false} PathsForgotten(d: Dir, lives: seq<Life>)
    requires lives != []
    ensures |LivesPaths(true, d, lives)| <= |LivesPaths(false, d, lives)|
    ensures LivesPaths(true, d, lives) == LivesPaths(false, d, lives)
            <==> forall i :: 0 <= i < |lives| - 1 ==> LifeDone(lives[i]) == []
    decreases |lives|
  {
    if |lives| == 1 {
    } else {
      var rest := lives[1..];
      PathsForgotten(Interrupted(d, lives[0]), rest);
      DestsLength(d, LifeDone(lives[0]));
      EarlierDone(lives);
      assert [] + LivesPaths(true, Interrupted(d, lives[0]), rest) == LivesPaths(true, Interrupted(d, lives[0]), rest);
      if LifeDone(lives[0]) == [] {
        assert Dests(d, LifeDone(lives[0])) == [];
      }
    }
  }

  lemma EarlierDone(lives: seq<Life>)
    requires |lives| > 1
    ensures var rest := lives[1..];
            (forall i :: 0 <= i < |lives| - 1 ==> LifeDone(lives[i]) == []) <==>
            LifeDone(lives[0]) == [] && forall i :: 0 <= i < |rest| - 1 ==> LifeDone(rest[i]) == []
  {
    var rest := lives[1..];
    if LifeDone(lives[0]) == [] && forall i :: 0 <= i < |rest| - 1 ==> LifeDone(rest[i]) == [] {
      forall i | 0 <= i < |lives| - 1
        ensures LifeDone(lives[i]) == []
      {
        if i > 0 { assert lives[i] == rest[i - 1]; }
      }
    }
    if forall i :: 0 <= i < |lives| - 1 ==> LifeDone(lives[i]) == [] {
      forall i | 0 <= i < |rest| - 1
        ensures LifeDone(rest[i]) == []
      {
        assert rest[i] == lives[i + 1];
      }
    }
  }

  /** ReceiveFiles returns all completed files exactly when no sender but the last completed one. */
  lemma ReceiveFilesForgetsExactly(cfg: Config, dir: Dir, lives: seq<Life>, end: CloseKind)
    requires cfg.single && !Trouble(cfg) && GoodLives(cfg, dir, lives)
    ensures var t := Outcome(cfg, Start(dir), LivesWire(lives), end);
            t.paths == LivesPaths(false, dir, lives) <==> forall i :: 0 <= i < |lives| - 1 ==> LifeDone(lives[i]) == []
  {
    hide Run, Outcome, LivesWire, LivesPaths, LivesDir;
    ReturnedPaths(cfg, dir, lives, end);
    PathsForgotten(dir, lives);
  }

  /** What is returned is what remains on record. */
  lemma ReturnedPaths(cfg: Config, dir: Dir, lives: seq<Life>, end: CloseKind)
    requires cfg.single && !Trouble(cfg) && GoodLives(cfg, dir, lives)
    ensures Outcome(cfg, Start(dir), LivesWire(lives), end).paths == LivesPaths(true, dir, lives)
  {
    hide Run, LivesWire, LivesPaths, LivesDir, Pending, InFlight, Completed;
    var u := Run(cfg, Start(dir), LivesWire(lives));
    RestartedSession(cfg, Start(dir), lives);
    assert [] + LivesPaths(true, dir, lives) == LivesPaths(true, dir, lives) && [] + u.paths == u.paths;
  }

  /** It does forget: one file, a restart, another file; both are saved, only the second is returned. */
  lemma SavedButForgotten(cfg: Config, dir: Dir, a: FileTx, b: FileTx)
    requires cfg.single && !Trouble(cfg) && AllArriving(cfg, dir, [a, b])
    ensures var t := Outcome(cfg, Start(dir), FileWire(a) + ANNOUNCE + FileWire(b), Clean);
            && t.control == Stopped(Ok(()))
            && t.paths == [Dest(Publish(dir, a.name, a.content), b.name)]
            && t.dir == PublishAll(dir, [a, b])
  {
    TwoFiles(cfg, dir, a, b);
    RunAppend(cfg, Start(dir), FileWire(a) + ANNOUNCE, FileWire(b));
    RunAppend(cfg, Start(dir), FileWire(a), ANNOUNCE);
    var s := RunFileItem(cfg, Start(dir), a);
    var u := AnnounceStep(cfg, s);
    var t := RunFileItem(cfg, u, b);
    assert [] + [Dest(u.dir, b.name)] == [Dest(u.dir, b.name)];
  }

  lemma TwoFiles(cfg: Config, d: Dir, a: FileTx, b: FileTx)
    ensures AllArriving(cfg, d, [a, b]) <==> Arriving(cfg, d, a) && Arriving(cfg, Publish(d, a.name, a.content), b)
    ensures PublishAll(d, [a, b]) == Publish(Publish(d, a.name, a.content), b.name, b.content)
  {
    var d1 := Publish(d, a.name, a.content);
    assert [a, b][1..] == [b] && [b][1..] == [];
    assert PublishAll(Publish(d1, b.name, b.content), []) == Publish(d1, b.name, b.content);
    assert AllArriving(cfg, d1, [b]) <==> Arriving(cfg, d1, b);
    assert PublishAll(d1, [b]) == Publish(d1, b.name, b.content);
  }
}
