/** The guarantees of a receive session, whole and cut short at any message. */
module SessionTheorems {
  import opened Bytes
  import opened Names
  import opened Protocol
  import opened Receiving
  import opened Wire
  import opened Sessions
  import opened Kept

  // ---- What a stretch of a session adds ----

  /**
   * `e` is `d` plus the files `txs` under the paths `ps`, which are new, distinct and final; nothing else is new,
   * and no final file of `d` is changed.
   */
  ghost predicate Added(d: Dir, e: Dir, ps: seq<string>, txs: seq<FileTx>) {
    && AllKept(e, ps, txs)
    && (forall n :: n in d && !IsPartial(n) ==> n in e && e[n] == d[n])
    && (forall n :: n in e ==> n in d || n in ps)
    && (forall p :: p in ps ==> p !in d && !IsPartial(p))
  }

  lemma AddedNothing(d: Dir, e: Dir)
    requires forall n :: n in e ==> n in d
    requires forall n :: n in d && !IsPartial(n) ==> n in e && e[n] == d[n]
    ensures Added(d, e, [], [])
  {
  }

  lemma AllKeptJoin(d: Dir, m: Dir, e: Dir, ps1: seq<string>, txs1: seq<FileTx>, ps2: seq<string>, txs2: seq<FileTx>)
    requires AllKept(m, ps1, txs1) && AllKept(e, ps2, txs2)
    requires forall p :: p in ps1 ==> p in e && e[p] == m[p]
    requires forall p :: p in ps2 ==> p !in m
    ensures AllKept(e, ps1 + ps2, txs1 + txs2)
  {
    var ps, txs, k := ps1 + ps2, txs1 + txs2, |ps1|;
    forall i | 0 <= i < |ps|
      ensures ps[i] in e && e[ps[i]] == txs[i].content
    {
      if i < k { assert ps1[i] in ps1; } else { assert ps[i] == ps2[i - k]; }
    }
    forall i, j | 0 <= i < j < |ps|
      ensures ps[i] != ps[j]
    {
      if j < k {
        assert ps1[i] != ps1[j];
      } else if i < k {
        assert ps1[i] in m && ps2[j - k] in ps2;
      } else {
        assert ps2[i - k] != ps2[j - k];
      }
    }
  }

  lemma AddedThen(d: Dir, m: Dir, e: Dir, ps1: seq<string>, txs1: seq<FileTx>, ps2: seq<string>, txs2: seq<FileTx>)
    requires Added(d, m, ps1, txs1) && Added(m, e, ps2, txs2)
    ensures Added(d, e, ps1 + ps2, txs1 + txs2)
  {
    assert forall p :: p in ps1 ==> p in m;
    AllKeptJoin(d, m, e, ps1, txs1, ps2, txs2);
    assert forall p :: p in ps1 + ps2 <==> p in ps1 || p in ps2;
    assert forall p :: p in ps2 && p in d ==> p in m;
  }

  lemma PartIsPartial(p: string)
    ensures IsPartial(Part(p))
  {
    assert Part(p)[|Part(p)| - 5..] == PART;
  }

  lemma PublishAdds(d: Dir, tx: FileTx)
    requires !IsPartial(tx.name)
    ensures Added(d, Publish(d, tx.name, tx.content), [Dest(d, tx.name)], [tx])
  {
    var p := Dest(d, tx.name);
    DestIsFree(d, tx.name);
    UniquePathKeepsPartial(d.Keys, tx.name);
    PartIsPartial(p);
  }

  ghost predicate FinalNames(txs: seq<FileTx>) {
    forall tx :: tx in txs ==> !IsPartial(tx.name)
  }

  lemma {:induction false} PublishAllAdds(d: Dir, txs: seq<FileTx>)
    requires FinalNames(txs)
    ensures Added(d, PublishAll(d, txs), Dests(d, txs), txs)
    decreases |txs|
  {
    if txs != [] {
      var d1 := Publish(d, txs[0].name, txs[0].content);
      assert txs[0] in txs && forall tx :: tx in txs[1..] ==> tx in txs;
      PublishAdds(d, txs[0]);
      PublishAllAdds(d1, txs[1..]);
      AddedThen(d, d1, PublishAll(d1, txs[1..]), [Dest(d, txs[0].name)], [txs[0]], Dests(d1, txs[1..]), txs[1..]);
      assert [txs[0]] + txs[1..] == txs;
    }
  }

  // ---- Whole sessions ----

  ghost predicate IsGreeting(cfg: Config, greeting: seq<Message>) {
    greeting == [] || greeting == [P2PFail] || (greeting == [SDPOffer] && !cfg.negotiationFails)
  }

  /** How a session begins: the sender's first message decides the transport, or already is a file. */
  lemma Greeted(cfg: Config, s: State, greeting: seq<Message>) returns (t: State)
    requires s.control == Opening && s.paths == [] && IsGreeting(cfg, greeting)
    ensures t == Run(cfg, s, greeting) && Ready(t)
    ensures t == s.(control := t.control) && (greeting == [] ==> t == s)
  {
    t := Run(cfg, s, greeting);
    RunOne(cfg, s, P2PFail);
    RunOne(cfg, s, SDPOffer);
  }

  function SessionItems(batches: seq<seq<FileTx>>): seq<Item> {
    if batches == [] then [] else Batch(batches[0]) + SessionItems(batches[1..])
  }

  function GroupedDests(d: Dir, batches: seq<seq<FileTx>>): seq<seq<string>>
    decreases |batches|
  {
    if batches == [] then [] else [Dests(d, batches[0])] + GroupedDests(PublishAll(d, batches[0]), batches[1..])
  }

  ghost predicate FilesRan(s: State, t: State, txs: seq<FileTx>) {
    && t.dir == PublishAll(s.dir, txs)
    && t.paths == s.paths + Dests(s.dir, txs)
    && t.reports == s.reports
    && t.replies == s.replies
    && (txs != [] ==> t.control == Between)
  }

  lemma FilesRanCons(s: State, m: State, t: State, txs: seq<FileTx>)
    requires txs != []
    requires m.dir == Publish(s.dir, txs[0].name, txs[0].content) && m.paths == s.paths + [Dest(s.dir, txs[0].name)]
    requires m.reports == s.reports && m.replies == s.replies && m.control == Between
    requires FilesRan(m, t, txs[1..]) && (txs[1..] == [] ==> t == m)
    ensures FilesRan(s, t, txs)
  {
    var p, ps := [Dest(s.dir, txs[0].name)], Dests(m.dir, txs[1..]);
    assert s.paths + p + ps == s.paths + (p + ps);
  }

  lemma {:induction false} RunFiles(cfg: Config, s: State, txs: seq<FileTx>)
    requires Ready(s) && AllArriving(cfg, s.dir, txs)
    ensures FilesRan(s, Run(cfg, s, ItemsWire(Files(txs))), txs)
    decreases |txs|
  {
    if txs == [] {
      assert s.paths + [] == s.paths;
    } else {
      var rest := txs[1..];
      assert Files(txs)[0] == File(txs[0]) && Files(txs)[1..] == Files(rest);
      var m := RunFileItem(cfg, s, txs[0]);
      RunAppend(cfg, s, FileWire(txs[0]), ItemsWire(Files(rest)));
      RunFiles(cfg, m, rest);
      FilesRanCons(s, m, Run(cfg, m, ItemsWire(Files(rest))), txs);
    }
  }

  lemma RunBatch(cfg: Config, s: State, txs: seq<FileTx>)
    requires Ready(s) && s.paths == [] && !Trouble(cfg) && !cfg.single
    requires txs != [] && AllArriving(cfg, s.dir, txs)
    ensures var t := Run(cfg, s, ItemsWire(Batch(txs)));
            && t.dir == PublishAll(s.dir, txs) && t.reports == s.reports + [Dests(s.dir, txs)]
            && t.paths == [] && t.control == Idle
  {
    var w := ItemsWire(Files(txs));
    BatchWire(txs);
    RunFiles(cfg, s, txs);
    RunAppend(cfg, s, w, [SessionEnd]);
    var t := RunEndItem(cfg, Run(cfg, s, w));
    assert [] + Dests(s.dir, txs) == Dests(s.dir, txs);
  }

  ghost predicate GoodBatches(cfg: Config, d: Dir, batches: seq<seq<FileTx>>) {
    (forall b :: b in batches ==> b != []) && AllArriving(cfg, d, Flatten(batches))
  }

  ghost predicate SessionRan(s: State, t: State, batches: seq<seq<FileTx>>) {
    && t.dir == PublishAll(s.dir, Flatten(batches))
    && t.reports == s.reports + GroupedDests(s.dir, batches)
    && t.paths == []
    && (batches != [] ==> t.control == Idle)
  }

  lemma SessionRanCons(s: State, m: State, t: State, batches: seq<seq<FileTx>>)
    requires batches != []
    requires m.dir == PublishAll(s.dir, batches[0]) && m.reports == s.reports + [Dests(s.dir, batches[0])]
    requires m.paths == [] && m.control == Idle
    requires SessionRan(m, t, batches[1..]) && (batches[1..] == [] ==> t == m)
    ensures SessionRan(s, t, batches)
  {
    PublishAllAppend(s.dir, batches[0], Flatten(batches[1..]));
    var p, ps := [Dests(s.dir, batches[0])], GroupedDests(m.dir, batches[1..]);
    assert s.reports + p + ps == s.reports + (p + ps);
  }

  lemma {:induction false} RunSession(cfg: Config, s: State, batches: seq<seq<FileTx>>)
    requires Ready(s) && s.paths == [] && !Trouble(cfg) && !cfg.single && GoodBatches(cfg, s.dir, batches)
    ensures SessionRan(s, Run(cfg, s, ItemsWire(SessionItems(batches))), batches)
    decreases |batches|
  {
    if batches == [] {
      assert s.reports + [] == s.reports;
    } else {
      var b, rest := batches[0], batches[1..];
      assert b in batches && forall x :: x in rest ==> x in batches;
      AllArrivingAppend(cfg, s.dir, b, Flatten(rest));
      RunBatch(cfg, s, b);
      ItemsWireAppend(Batch(b), SessionItems(rest));
      RunAppend(cfg, s, ItemsWire(Batch(b)), ItemsWire(SessionItems(rest)));
      var m := Run(cfg, s, ItemsWire(Batch(b)));
      RunSession(cfg, m, rest);
      SessionRanCons(s, m, Run(cfg, m, ItemsWire(SessionItems(rest))), batches);
    }
  }

  /**
   * A session of any non-empty batches of safely named files, resumed or not, closed cleanly, ends without error;
   * onBatch saw batches 0 to n-1 with exactly the paths of their files, in order; the directory is the one that saving
   * the files one after another gives.
   */
  lemma WholeSession(cfg: Config, dir: Dir, greeting: seq<Message>, batches: seq<seq<FileTx>>)
    requires !Trouble(cfg) && !cfg.single && IsGreeting(cfg, greeting)
    requires batches != [] && GoodBatches(cfg, dir, batches)
    ensures var t := Outcome(cfg, Start(dir), greeting + ItemsWire(SessionItems(batches)), Clean);
            && t.control == Stopped(Ok(()))
            && t.reports == GroupedDests(dir, batches)
            && t.dir == PublishAll(dir, Flatten(batches))
            && Flatten(t.reports) == Dests(dir, Flatten(batches))
  {
    var w := ItemsWire(SessionItems(batches));
    var s := Greeted(cfg, Start(dir), greeting);
    RunAppend(cfg, Start(dir), greeting, w);
    RunSession(cfg, s, batches);
    ClosedIdle(cfg, dir, s, Run(cfg, s, w), batches);
  }

  lemma ClosedIdle(cfg: Config, dir: Dir, s: State, u: State, batches: seq<seq<FileTx>>)
    requires SessionRan(s, u, batches) && batches != [] && s.dir == dir && s.reports == []
    ensures var t := Close(cfg, u, Clean);
            && t.control == Stopped(Ok(()))
            && t.reports == GroupedDests(dir, batches)
            && t.dir == PublishAll(dir, Flatten(batches))
            && Flatten(t.reports) == Dests(dir, Flatten(batches))
  {
    hide GroupedDests, PublishAll, Dests, Flatten;
    assert [] + GroupedDests(dir, batches) == GroupedDests(dir, batches);
    FlattenGrouped(dir, batches);
  }

  /**
   * So the directory ends up with every file sent, byte for byte, under a path of its own that onBatch was told,
   * exactly when none of the paths that the names and the directory lead to is the ".part" name of another.
   */
  lemma FaithfulExactly(cfg: Config, dir: Dir, greeting: seq<Message>, batches: seq<seq<FileTx>>)
    requires !Trouble(cfg) && !cfg.single && IsGreeting(cfg, greeting)
    requires batches != [] && GoodBatches(cfg, dir, batches)
    ensures var t := Outcome(cfg, Start(dir), greeting + ItemsWire(SessionItems(batches)), Clean);
            AllKept(t.dir, Flatten(t.reports), Flatten(batches)) <==> NoClash(Dests(dir, Flatten(batches)))
  {
    WholeSession(cfg, dir, greeting, batches);
    KeptExactlyWithoutClash(dir, Flatten(batches));
  }

  lemma {:induction false} FlattenGrouped(d: Dir, batches: seq<seq<FileTx>>)
    ensures Flatten(GroupedDests(d, batches)) == Dests(d, Flatten(batches))
    decreases |batches|
  {
    if batches != [] {
      var rest := batches[1..];
      FlattenGrouped(PublishAll(d, batches[0]), rest);
      PublishAllAppend(d, batches[0], Flatten(rest));
      assert GroupedDests(d, batches)[1..] == GroupedDests(PublishAll(d, batches[0]), rest);
    }
  }

  /** ReceiveFiles returns the paths of one batch, which ends with its SessionEnd whatever comes after. */
  lemma WholeBatch(cfg: Config, dir: Dir, greeting: seq<Message>, txs: seq<FileTx>, after: seq<Message>, end: CloseKind)
    requires !Trouble(cfg) && cfg.single && IsGreeting(cfg, greeting)
    requires txs != [] && AllArriving(cfg, dir, txs)
    ensures var t := Outcome(cfg, Start(dir), greeting + ItemsWire(Batch(txs)) + after, end);
            t.control == Stopped(Ok(())) && t.paths == Dests(dir, txs) && t.dir == PublishAll(dir, txs)
  {
    hide Run, ItemsWire, Dests, PublishAll, AllArriving;
    var s := Greeted(cfg, Start(dir), greeting);
    RunAppend(cfg, Start(dir), greeting + ItemsWire(Batch(txs)), after);
    RunAppend(cfg, Start(dir), greeting, ItemsWire(Batch(txs)));
    var t := RunSingleBatch(cfg, s, txs);
    RunStopped(cfg, t, after);
  }

  lemma RunSingleBatch(cfg: Config, s: State, txs: seq<FileTx>) returns (t: State)
    requires Ready(s) && s.paths == [] && cfg.single && txs != [] && AllArriving(cfg, s.dir, txs)
    ensures t == Run(cfg, s, ItemsWire(Batch(txs)))
    ensures t.control == Stopped(Ok(())) && t.paths == Dests(s.dir, txs) && t.dir == PublishAll(s.dir, txs)
  {
    var w := ItemsWire(Files(txs));
    t := Run(cfg, s, ItemsWire(Batch(txs)));
    RunFiles(cfg, s, txs);
    BatchWire(txs);
    RunAppend(cfg, s, w, [SessionEnd]);
    RunOne(cfg, Run(cfg, s, w), SessionEnd);
    assert [] + Dests(s.dir, txs) == Dests(s.dir, txs);
  }

  lemma BatchWire(txs: seq<FileTx>)
    ensures ItemsWire(Batch(txs)) == ItemsWire(Files(txs)) + [SessionEnd]
  {
    ItemsWireAppend(Files(txs), [End]);
    assert [End][1..] == [] && ItemsWire([End]) == [SessionEnd];
  }

  /** Reporting the current batch keeps the list of all paths. */
  lemma ReportKeepsPaths(reports: seq<seq<string>>, paths: seq<string>)
    ensures Flatten(reports + [paths]) + [] == Flatten(reports) + paths
  {
    FlattenAppend(reports, [paths]);
    assert [paths][1..] == [] && Flatten([paths]) == paths;
  }

  lemma CloseKeeps(cfg: Config, s: State, end: CloseKind)
    ensures Close(cfg, s, end).dir == s.dir && AllPaths(Close(cfg, s, end)) == AllPaths(s)
  {
    ReportKeepsPaths(s.reports, s.paths);
  }

  // ---- Cut sessions ----

  lemma {:induction false} AllReading(cfg: Config, d: Dir, txs: seq<FileTx>)
    requires AllArriving(cfg, d, txs)
    ensures forall tx :: tx in txs ==> IsSafe(tx.name) && IsReading(tx)
    decreases |txs|
  {
    if txs != [] {
      AllReading(cfg, Publish(d, txs[0].name, txs[0].content), txs[1..]);
      assert forall tx :: tx in txs ==> tx == txs[0] || tx in txs[1..];
    }
  }

  lemma {:induction false} ItemIsFile(items: seq<Item>, tx: FileTx)
    requires File(tx) in items
    ensures tx in FilesOf(items)
  {
    if items[0] != File(tx) {
      assert File(tx) in items[1..];
      ItemIsFile(items[1..], tx);
    }
  }

  /** What is there of a file in flight is a prefix of it. */
  lemma ReceivedIsPrefix(tx: FileTx, j: nat)
    requires IsReading(tx) && j <= |tx.chunks|
    ensures Received(tx, j) <= tx.content
  {
    FlattenPrefix(tx.chunks, j);
    assert tx.content == tx.content[..tx.offset] + tx.content[tx.offset..];
  }

  lemma InFlightIsPrefix(cfg: Config, d: Dir, items: seq<Item>, k: nat)
    requires AllArriving(cfg, d, FilesOf(items)) && InFlight(items, k).Some?
    ensures var (tx, j) := InFlight(items, k).value; Received(tx, j) <= tx.content
  {
    var (tx, j) := InFlight(items, k).value;
    ItemIsFile(items, tx);
    AllReading(cfg, d, FilesOf(items));
    ReceivedIsPrefix(tx, j);
  }

  /**
   * Cut after any number of messages, however the stream then ends: the new final files are exactly those whose
   * Complete was delivered, byte for byte, under the paths recorded for them, and at most one more entry is new,
   * the ".part" file of the file in flight, which holds a prefix of that file.
   */
  lemma CutAnywhere(cfg: Config, dir: Dir, greeting: seq<Message>, items: seq<Item>, k: nat, end: CloseKind)
    requires !Trouble(cfg) && IsGreeting(cfg, greeting) && GoodItems(cfg, dir, items, true) && k <= |ItemsWire(items)|
    requires forall tx :: File(tx) in items ==> !IsPartial(tx.name)
    ensures var t, done := Outcome(cfg, Start(dir), greeting + ItemsWire(items)[..k], end), Completed(items, k);
            var ps, whole := Dests(dir, done), PublishAll(dir, done);
            && AllPaths(t) == ps
            && Added(dir, whole, ps, done)
            && match InFlight(items, k)
               case None => t.dir == whole
               case Some((tx, j)) =>
                 Received(tx, j) <= tx.content && t.dir == whole[Part(Dest(whole, tx.name)) := Received(tx, j)]
  {
    var w := ItemsWire(items)[..k];
    var s := Greeted(cfg, Start(dir), greeting);
    RunAppend(cfg, Start(dir), greeting, w);
    RunCut(cfg, s, items, k);
    CutIsKept(cfg, dir, s, Run(cfg, s, w), items, k, end);
  }

  lemma CutIsKept(cfg: Config, dir: Dir, s: State, u: State, items: seq<Item>, k: nat, end: CloseKind)
    requires GoodItems(cfg, dir, items, true) && s.dir == dir && s.reports == [] && s.paths == []
             && CutAt(s, u, items, k)
    requires forall tx :: File(tx) in items ==> !IsPartial(tx.name)
    ensures var t, done := Close(cfg, u, end), Completed(items, k);
            var ps, whole := Dests(dir, done), PublishAll(dir, done);
            && AllPaths(t) == ps
            && Added(dir, whole, ps, done)
            && match InFlight(items, k)
               case None => t.dir == whole
               case Some((tx, j)) =>
                 Received(tx, j) <= tx.content && t.dir == whole[Part(Dest(whole, tx.name)) := Received(tx, j)]
  {
    assert [] + Dests(dir, Completed(items, k)) == Dests(dir, Completed(items, k));
    CloseKeeps(cfg, u, end);
    CompletedAreItems(items, k);
    PublishAllAdds(dir, Completed(items, k));
    if InFlight(items, k).Some? {
      InFlightIsPrefix(cfg, dir, items, k);
    }
  }

  lemma {:induction false} CompletedAreItems(items: seq<Item>, k: nat)
    ensures forall tx :: tx in Completed(items, k) ==> File(tx) in items
  {
    if items != [] && k >= |ItemWire(items[0])| {
      var rest, k' := items[1..], k - |ItemWire(items[0])|;
      CompletedAreItems(rest, k');
      FilesOfOne(items[0]);
      forall tx | tx in Completed(items, k)
        ensures File(tx) in items
      {
        if tx in Completed(rest, k') {
          assert File(tx) in rest;
        } else {
          assert tx in FilesOf([items[0]]);
          assert items[0] == File(tx);
        }
      }
    }
  }
}
