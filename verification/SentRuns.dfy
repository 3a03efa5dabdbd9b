/** What a sender's program puts on the relay, as a run of the negotiation of both sides. */
module SentRuns {
  import opened Bytes
  import opened Protocol
  import opened Wire
  import opened Sessions
  import opened SessionTheorems
  import opened Senders
  import N = Negotiation

  /** What negotiateSender writes: an offer, and candidates after it. */
  predicate IsOffer(signals: seq<Message>) {
    signals != [] && signals[0] == SDPOffer && forall i :: 0 < i < |signals| ==> signals[i] == ICECandidate
  }

  lemma OneCandidate(s: N.State)
    requires N.Inv(s) && s.trickling
    ensures N.Enabled(s, N.SenderTrickles) && N.Inv(N.Apply(s, N.SenderTrickles))
    ensures N.Apply(s, N.SenderTrickles) == s.(wire := s.wire + [ICECandidate])
  {
    N.StepKeepsInv(s, N.SenderTrickles);
  }

  lemma {:induction false} Trickles(s: N.State, candidates: seq<Message>) returns (steps: seq<N.Step>, t: N.State)
    requires N.Inv(s) && s.trickling && forall m :: m in candidates ==> m == ICECandidate
    ensures N.Reaches(s, steps, t) && t == s.(wire := s.wire + candidates)
    decreases |candidates|
  {
    hide N.Inv, N.Enabled, N.Reaches;
    if candidates == [] {
      steps, t := [], s;
      NoSteps(s);
      assert s.wire + [] == s.wire;
    } else {
      assert candidates[0] in candidates && forall m :: m in candidates[1..] ==> m in candidates;
      OneCandidate(s);
      steps, t := Trickles(s.(wire := s.wire + [ICECandidate]), candidates[1..]);
      N.OneStep(s, N.SenderTrickles, steps, t);
      steps := [N.SenderTrickles] + steps;
      assert s.wire + [ICECandidate] + candidates[1..] == s.wire + candidates;
    }
  }

  lemma OneWrite(s: N.State, m: Message)
    requires N.Inv(s) && s.sender.SenderOnWS? && !IsSignal(m)
    ensures N.Enabled(s, N.SenderWrites(m)) && N.Inv(N.Apply(s, N.SenderWrites(m)))
    ensures N.Apply(s, N.SenderWrites(m)) == s.(wire := s.wire + [m])
  {
    N.StepKeepsInv(s, N.SenderWrites(m));
  }

  lemma {:induction false} Writes(s: N.State, ms: seq<Message>) returns (steps: seq<N.Step>, t: N.State)
    requires N.Inv(s) && (ms != [] ==> s.sender.SenderOnWS?) && forall m :: m in ms ==> !IsSignal(m)
    ensures N.Reaches(s, steps, t) && t == s.(wire := s.wire + ms)
    decreases |ms|
  {
    hide N.Inv, N.Enabled, N.Reaches, IsSignal;
    if ms == [] {
      steps, t := [], s;
      NoSteps(s);
      assert s.wire + [] == s.wire;
    } else {
      assert ms[0] in ms && forall m :: m in ms[1..] ==> m in ms;
      OneWrite(s, ms[0]);
      steps, t := Writes(s.(wire := s.wire + [ms[0]]), ms[1..]);
      N.OneStep(s, N.SenderWrites(ms[0]), steps, t);
      steps := [N.SenderWrites(ms[0])] + steps;
      assert s.wire + [ms[0]] + ms[1..] == s.wire + ms;
    }
  }

  /** The decision, and nothing else, is a step of the machine: SenderCommits for a peer, SenderGivesUp without one. */
  lemma Decides(s: N.State, outcome: Negotiated) returns (step: N.Step)
    requires N.Inv(s) && s.sender.SenderNegotiates? && s.wire == outcome.signals
    requires outcome.isOpen ==> s.channelOpen
    ensures step == if outcome.isOpen then N.SenderCommits else N.SenderGivesUp
    ensures N.Enabled(s, step) && N.Inv(N.Apply(s, step))
    ensures N.Apply(s, step).wire == outcome.signals + Sender.Announced(outcome, 1)
    ensures N.Apply(s, step).sender == if outcome.isOpen then N.SenderOnPeer else N.SenderOnWS
  {
    step := if outcome.isOpen then N.SenderCommits else N.SenderGivesUp;
    N.StepKeepsInv(s, step);
  }

  /** The start of a negotiation, up to where its decision is due. */
  lemma Negotiates(outcome: Negotiated) returns (steps: seq<N.Step>, t: N.State)
    requires IsOffer(outcome.signals)
    ensures N.Reaches(N.INITIAL, steps, t)
    ensures t.sender.SenderNegotiates? && t.wire == outcome.signals && (outcome.isOpen ==> t.channelOpen)
  {
    N.InitialInv();
    var candidates := outcome.signals[1..];
    assert [SDPOffer] + candidates == outcome.signals;
    steps, t := Trickles(N.INITIAL, candidates);
    if outcome.isOpen {
      var u := N.Apply(t, N.ChannelOpens);
      N.StepKeepsInv(t, N.ChannelOpens);
      NoSteps(u);
      N.OneStep(t, N.ChannelOpens, [], u);
      N.Onward(N.INITIAL, steps, t, [N.ChannelOpens] + [], u);
      steps, t := steps + ([N.ChannelOpens] + []), u;
    }
  }

  lemma NoSteps(s: N.State)
    requires N.Inv(s)
    ensures N.Reaches(s, [], s)
  {
  }

  /** All that a sender writes to the relay, from its offer on, is the wire of a run in which it decides as it did. */
  lemma SentIsARun(outcome: Negotiated, files: seq<Message>) returns (steps: seq<N.Step>, t: N.State)
    requires IsOffer(outcome.signals) && forall m :: m in files ==> !IsSignal(m)
    ensures N.Reaches(N.INITIAL, steps, t)
    ensures t.sender == if outcome.isOpen then N.SenderOnPeer else N.SenderOnWS
    ensures t.wire == outcome.signals + if outcome.isOpen then [P2PReady] else [P2PFail] + files
  {
    var before, s := Negotiates(outcome);
    var step := Decides(s, outcome);
    var u := N.Apply(s, step);
    var more, v := Writes(u, if outcome.isOpen then [] else files);
    N.OneStep(s, step, more, v);
    N.Onward(N.INITIAL, before, s, [step] + more, v);
    steps, t := before + ([step] + more), v;
    Assoc(outcome.signals, [P2PFail], files);
  }

  lemma {:induction false} FilesAreNoSignals(items: seq<Item>)
    ensures forall m :: m in ItemsWire(items) ==> !IsSignal(m)
  {
    if items != [] {
      FilesAreNoSignals(items[1..]);
      if items[0].File? {
        ChunksAreNoSignals(items[0].tx.chunks);
      }
    }
  }

  lemma {:induction false} ChunksAreNoSignals(chunks: seq<seq<Byte>>)
    ensures forall m :: m in Chunks(chunks) ==> !IsSignal(m)
  {
    if chunks != [] { ChunksAreNoSignals(chunks[1..]); }
  }

  /**
   * The first SendBatch of a sender whose signals get through: what it has written to the relay, whether it succeeds or
   * fails half-way, is the wire of a run from the offer on; and it sends on the data channel exactly where the sender
   * of that run is on it.
   */
  method SendBatchIsARun(sender: Sender, paths: seq<string>, outcome: Negotiated)
    returns (err: Option<SendError>, ghost steps: seq<N.Step>, ghost t: N.State)
    requires sender.ws != sender.peer && sender.transport == TransportIdle && paths != []
    requires sender.ws.sent == [] && sender.peer.sent == [] && sender.ws.budget > 0 && IsOffer(outcome.signals)
    modifies sender, sender.ws, sender.peer
    ensures N.Reaches(N.INITIAL, steps, t) && sender.ws.sent == t.wire
    ensures t.sender == if outcome.isOpen then N.SenderOnPeer else N.SenderOnWS
    ensures sender.peer.sent != [] ==> t.sender == N.SenderOnPeer
    ensures err == None ==> (sender.transport == TransportP2P <==> t.sender == N.SenderOnPeer)
  {
    AreSignals(outcome.signals);
    ghost var pre, onPeer, txs, sent;
    err, pre, onPeer, txs, sent := sender.SendBatch(paths, outcome);
    ghost var files := ItemsWire(Batch(txs))[..sent];
    FilesAreNoSignals(Batch(txs));
    assert forall m :: m in files ==> m in ItemsWire(Batch(txs));
    steps, t := SentIsARun(outcome, files);
    assert [] + pre == pre && [] + pre + files == pre + files;
    Assoc(outcome.signals, [P2PFail], files);
  }

  lemma AreSignals(signals: seq<Message>)
    requires IsOffer(signals)
    ensures forall m :: m in signals ==> IsSignal(m) && !m.SDPAnswer?
  {
    forall m | m in signals
      ensures IsSignal(m) && !m.SDPAnswer?
    {
      var i :| 0 <= i < |signals| && signals[i] == m;
      assert i == 0 || signals[i] == ICECandidate;
    }
  }
}
