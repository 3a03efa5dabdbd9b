/** From a negotiation that fell back to the files that arrive: what tailReader yields, received. */
module Fallback {
  import opened Bytes
  import opened Protocol
  import opened Wire
  import opened Sessions
  import opened Signaling
  import opened Noise
  import N = Negotiation
  import R = Receiving

  /** Everything tailReader has yielded or still will. */
  ghost function Tail(s: N.State): seq<Message>
    requires N.Inv(s)
  {
    s.delivered + s.wire[s.consumed..]
  }

  lemma {:induction false} SignalsDoNotMatter(ms: seq<Message>)
    ensures Denoise(N.FileMessages(ms)) == Denoise(ms)
  {
    if ms != [] {
      SignalsDoNotMatter(ms[1..]);
      var rest := N.FileMessages(ms[1..]);
      if !IsSignal(ms[0]) {
        assert ([ms[0]] + rest)[0] == ms[0] && ([ms[0]] + rest)[1..] == rest;
      } else {
        assert [] + rest == rest && [] + Denoise(ms[1..]) == Denoise(ms[1..]);
      }
    }
  }

  lemma {:induction false} AllMatter(ms: seq<Message>)
    requires forall m :: m in ms ==> Matters(m)
    ensures Denoise(ms) == ms
  {
    if ms != [] {
      assert ms[0] in ms && forall m :: m in ms[1..] ==> m in ms;
      AllMatter(ms[1..]);
    }
  }

  lemma {:induction false} ChunksMatter(chunks: seq<seq<Byte>>)
    ensures forall m :: m in Chunks(chunks) ==> m.Chunk?
  {
    if chunks != [] {
      ChunksMatter(chunks[1..]);
    }
  }

  lemma {:induction false} ItemsMatter(items: seq<Item>)
    ensures forall m :: m in ItemsWire(items) ==> Matters(m) && !IsSignal(m)
  {
    if items != [] {
      ItemsMatter(items[1..]);
      if items[0].File? { ChunksMatter(items[0].tx.chunks); }
    }
  }

  /**
   * A negotiation fell back and the sender has written `c` messages of its files to the relay. What the receiver makes
   * of all that tailReader yields, candidates and other signals included, is what it makes of the sender's messages
   * alone, if and only if those signals come before the first of them or inside a file.
   */
  lemma TailIsReceivedExactly(s: N.State, cfg: R.Config, r: R.State, items: seq<Item>, c: nat, end: R.CloseKind)
    requires N.Inv(s) && N.ReceiverOnWS(s) && AtEntry(cfg, r, items)
    requires c <= |ItemsWire(items)| && N.FileMessages(s.wire) == ItemsWire(items)[..c]
    ensures R.Outcome(cfg, r, Tail(s), end) == R.Outcome(cfg, r, ItemsWire(items)[..c], end)
            <==> AllInside(Tail(s), items, |Tail(s)|)
  {
    TailIsNoisyCut(s, items, c);
    NoiseIsHarmlessExactly(cfg, r, items, Tail(s), c, end);
  }

  lemma TailIsNoisyCut(s: N.State, items: seq<Item>, c: nat)
    requires N.Inv(s) && N.ReceiverOnWS(s)
    requires c <= |ItemsWire(items)| && N.FileMessages(s.wire) == ItemsWire(items)[..c]
    ensures NoisyCut(Tail(s), items, c)
  {
    N.FallbackLosesNothing(s);
    SignalsDoNotMatter(Tail(s));
    ItemsMatter(items);
    assert forall m :: m in ItemsWire(items)[..c] ==> m in ItemsWire(items);
    AllMatter(ItemsWire(items)[..c]);
  }

  // ---- A candidate between two files ----

  lemma {:induction false} WritesAll(s: N.State, ms: seq<Message>) returns (steps: seq<N.Step>)
    requires N.Inv(s) && s.sender.SenderOnWS? && forall m :: m in ms ==> !IsSignal(m)
    ensures N.Reaches(s, steps, s.(wire := s.wire + ms))
    decreases |ms|
  {
    if ms == [] {
      steps := [];
      NothingWritten(s);
    } else {
      assert ms[0] in ms && forall m :: m in ms[1..] ==> m in ms;
      N.StepKeepsInv(s, N.SenderWrites(ms[0]));
      var rest := WritesAll(N.Put(s, ms[0]), ms[1..]);
      FirstWritten(s.wire, ms);
      N.OneStep(s, N.SenderWrites(ms[0]), rest, s.(wire := s.wire + ms));
      steps := [N.SenderWrites(ms[0])] + rest;
    }
  }

  lemma NothingWritten(s: N.State)
    requires N.Inv(s)
    ensures N.Reaches(s, [], s.(wire := s.wire + []))
  {
    assert s.wire + [] == s.wire;
  }

  lemma FirstWritten(wire: seq<Message>, ms: seq<Message>)
    requires ms != []
    ensures wire + [ms[0]] + ms[1..] == wire + ms
  {
  }

  /** Both ends give up; the sender's candidate goroutine is still alive. */
  lemma BothGiveUp() returns (steps: seq<N.Step>, s: N.State)
    ensures N.Reaches(N.INITIAL, steps, s)
    ensures s.wire == [SDPOffer, P2PFail] && s.left == 1 && s.consumed == 1 && s.delivered == [] && s.trickling
    ensures s.sender.SenderOnWS? && s.receiver == N.Decided(FellBack(true))
  {
    N.InitialInv();
    var s1 := N.INITIAL.(receiver := N.Negotiates(Waiting(false, false)), taken := 1, consumed := 1, left := 1);
    var s2 := s1.(receiver := N.Decided(FellBack(true)));
    N.StepKeepsInv(N.INITIAL, N.ReceiverGetsOffer);
    N.StepKeepsInv(s1, N.ReceiverSelects(TimerFires));
    N.StepKeepsInv(s2, N.SenderGivesUp);
    s := N.Apply(s2, N.SenderGivesUp);
    assert [SDPOffer] + [P2PFail] == [SDPOffer, P2PFail];
    N.OneStep(s2, N.SenderGivesUp, [], s);
    var last := [N.SenderGivesUp] + [];
    N.OneStep(s1, N.ReceiverSelects(TimerFires), last, s);
    steps := [N.ReceiverGetsOffer] + ([N.ReceiverSelects(TimerFires)] + last);
    N.OneStep(N.INITIAL, N.ReceiverGetsOffer, [N.ReceiverSelects(TimerFires)] + last, s);
  }

  /** Two files, and a candidate that trickles in between. */
  lemma CandidateBetween(a: seq<Message>, b: seq<Message>) returns (steps: seq<N.Step>, s: N.State)
    requires (forall m :: m in a ==> !IsSignal(m)) && (forall m :: m in b ==> !IsSignal(m))
    ensures N.Reaches(N.INITIAL, steps, s) && N.ReceiverOnWS(s)
    ensures s.wire == [SDPOffer] + ([P2PFail] + a + [ICECandidate] + b) && Tail(s) == [P2PFail] + a + [ICECandidate] + b
  {
    var first, s0 := BothGiveUp();
    var second := WritesAll(s0, a);
    var s1 := s0.(wire := s0.wire + a);
    N.Onward(N.INITIAL, first, s0, second, s1);
    var s2 := N.Put(s1, ICECandidate);
    N.StepKeepsInv(s1, N.SenderTrickles);
    N.OneStep(s1, N.SenderTrickles, [], s2);
    N.Onward(N.INITIAL, first + second, s1, [N.SenderTrickles] + [], s2);
    var last := WritesAll(s2, b);
    s := s2.(wire := s2.wire + b);
    steps := first + second + ([N.SenderTrickles] + []) + last;
    N.Onward(N.INITIAL, first + second + ([N.SenderTrickles] + []), s2, last, s);
    assert [SDPOffer, P2PFail] + a + [ICECandidate] + b == [SDPOffer] + ([P2PFail] + a + [ICECandidate] + b);
    assert s.wire[1..] == [P2PFail] + a + [ICECandidate] + b;
  }

  /** The stray candidate ends the session: the first file is saved, the second is lost. */
  lemma StrayCandidateLosesAFile(cfg: R.Config, r: R.State, a: FileTx, b: FileTx, end: R.CloseKind)
    requires AtEntry(cfg, r, [File(a), File(b)])
    ensures exists steps, s :: && N.Reaches(N.INITIAL, steps, s) && N.ReceiverOnWS(s)
                               && N.FileMessages(s.wire) == FileWire(a) + FileWire(b)
                               && R.Outcome(cfg, r, Tail(s), end).control == R.Stopped(Err(R.UnexpectedAfterFile))
                               && R.Outcome(cfg, r, Tail(s), end).dir == Publish(r.dir, a.name, a.content)
  {
    ItemsMatter([File(a)]);
    ItemsMatter([File(b)]);
    OneItem(a);
    OneItem(b);
    var steps, s := CandidateBetween(FileWire(a), FileWire(b));
    FilesAround(FileWire(a), FileWire(b));
    StrayBetween(cfg, r, a, b, end);
  }

  lemma OneItem(tx: FileTx)
    ensures ItemsWire([File(tx)]) == FileWire(tx)
  {
    assert [File(tx)][1..] == [] && FileWire(tx) + [] == FileWire(tx);
  }

  lemma FilesAround(a: seq<Message>, b: seq<Message>)
    requires (forall m :: m in a ==> !IsSignal(m)) && (forall m :: m in b ==> !IsSignal(m))
    ensures N.FileMessages([SDPOffer] + ([P2PFail] + a + [ICECandidate] + b)) == a + b
  {
    var p, i: seq<Message> := [P2PFail], [ICECandidate];
    N.OnlySignals([SDPOffer]);
    N.OnlySignals(p);
    N.OnlySignals(i);
    NoSignals(a);
    NoSignals(b);
    N.FileMessagesAppend([SDPOffer], p + a + i + b);
    N.FileMessagesAppend(p + a + i, b);
    N.FileMessagesAppend(p + a, i);
    N.FileMessagesAppend(p, a);
    assert [] + a + [] == a && [] + (a + b) == a + b;
  }

  lemma {:induction false} NoSignals(ms: seq<Message>)
    requires forall m :: m in ms ==> !IsSignal(m)
    ensures N.FileMessages(ms) == ms
  {
    if ms != [] {
      assert ms[0] in ms && forall m :: m in ms[1..] ==> m in ms;
      NoSignals(ms[1..]);
    }
  }

  lemma StrayBetween(cfg: R.Config, r: R.State, a: FileTx, b: FileTx, end: R.CloseKind)
    requires AtEntry(cfg, r, [File(a), File(b)])
    ensures var t := R.Outcome(cfg, r, [P2PFail] + FileWire(a) + [ICECandidate] + FileWire(b), end);
            t.control == R.Stopped(Err(R.UnexpectedAfterFile)) && t.dir == Publish(r.dir, a.name, a.content)
  {
    assert FilesOf([File(a), File(b)])[0] == a;
    var w := [P2PFail] + FileWire(a);
    assert w[1..] == FileWire(a);
    assert R.Run(cfg, r, w) == R.Run(cfg, r, FileWire(a));
    var t := RunFileItem(cfg, r, a);
    StrayAfter(cfg, r, t, w, FileWire(b), end);
  }

  lemma StrayAfter(cfg: R.Config, r: R.State, t: R.State, w: seq<Message>, rest: seq<Message>, end: R.CloseKind)
    requires t == R.Run(cfg, r, w) && t.control == R.Between
    ensures R.Outcome(cfg, r, w + [ICECandidate] + rest, end) == R.Stop(t, R.UnexpectedAfterFile)
  {
    hide R.Run;
    R.RunAppend(cfg, r, w, [ICECandidate]);
    R.RunOne(cfg, t, ICECandidate);
    R.RunAppend(cfg, r, w + [ICECandidate], rest);
    R.RunStopped(cfg, R.Stop(t, R.UnexpectedAfterFile), rest);
  }
}
