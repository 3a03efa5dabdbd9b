/**
 * Transport negotiation as a protocol: the sender, the receiver, the relay between them, a data channel that may open
 * at any time or never, and two independent timers.
 */
module Negotiation {
  import opened Bytes
  import opened Protocol
  import opened Signaling

  datatype SenderSide = SenderNegotiates | SenderOnPeer | SenderOnWS

  /** Before the offer; in negotiateReceiver; with a reader of its choice, or without one after a read error. */
  datatype ReceiverSide = AwaitsOffer | Negotiates(p: Progress) | Decided(p: Progress) | Failed

  /**
   * `wire`: all messages the sender wrote to the relay in this negotiation and after. `taken`: how many of them the
   * receiver's reader goroutine has read; `consumed`: how many were received from its channel; `left`: how many of
   * those negotiateReceiver consumed. `delivered`: what tailReader has yielded. `trickling`: the sender's candidate
   * goroutine is alive. `channelOpen`: the data channel is open at the sender.
   */
  datatype State = State(wire: seq<Message>, taken: nat, consumed: nat, left: nat, delivered: seq<Message>,
                         sender: SenderSide, trickling: bool, channelOpen: bool, receiver: ReceiverSide)

  datatype Step =
    | ChannelOpens
    | SenderTrickles
    | SenderCommits
    | SenderGivesUp
    | SenderStopsTrickling
    | SenderWrites(m: Message)
    | ReaderTakes
    | ReceiverGetsOffer
    | ReceiverSelects(choice: Choice)
    | ReceiverReadFails
    | TailReads

  /** The sender has just written its offer. */
  const INITIAL := State([SDPOffer], 0, 0, 0, [], SenderNegotiates, true, false, AwaitsOffer)

  predicate Enabled(s: State, step: Step) {
    match step
    case ChannelOpens => true
    case SenderTrickles => s.trickling
    // On success it waits for the candidate goroutine first, on failure it does not.
    case SenderCommits => s.sender.SenderNegotiates? && s.channelOpen
    case SenderGivesUp => s.sender.SenderNegotiates?
    case SenderStopsTrickling => s.trickling
    case SenderWrites(m) => s.sender.SenderOnWS? && !IsSignal(m)
    case ReaderTakes => (s.receiver.Negotiates? || s.receiver.Decided?) && s.taken < |s.wire|
      && s.taken - s.consumed <= BUFFER
    case ReceiverGetsOffer => s.receiver.AwaitsOffer? && s.wire != [] && s.wire[0] == SDPOffer
    case ReceiverSelects(choice) =>
      s.receiver.Negotiates? && s.receiver.p.Waiting? && (choice.ReadFires? ==> s.consumed < s.taken)
    case ReceiverReadFails => s.receiver.Negotiates?
    case TailReads => s.receiver.Decided? && s.receiver.p.FellBack? && s.consumed < s.taken
  }

  function Put(s: State, m: Message): State {
    s.(wire := s.wire + [m])
  }

  /** negotiateReceiver returns as soon as its loop has a result. */
  function Return(s: State, p: Progress): State {
    var q := Settle(p);
    s.(receiver := if q.Waiting? then Negotiates(q) else Decided(q), left := s.consumed)
  }

  function Select(s: State, p: Progress, choice: Choice): State
    requires p.Waiting? && (choice.ReadFires? ==> s.consumed < |s.wire|)
  {
    match choice
    case OpenFires => Return(s, p.(dcOpen := true))
    case TimerFires => Return(s, FellBack(true))
    case ReadFires => Return(s.(consumed := s.consumed + 1), React(p, s.wire[s.consumed]))
  }

  function Apply(s: State, step: Step): State
    requires Enabled(s, step) && s.taken <= |s.wire|
  {
    match step
    case ChannelOpens => s.(channelOpen := true)
    case SenderTrickles => Put(s, ICECandidate)
    case SenderCommits => Put(s, P2PReady).(sender := SenderOnPeer, trickling := false)
    case SenderGivesUp => Put(s, P2PFail).(sender := SenderOnWS)
    case SenderStopsTrickling => s.(trickling := false)
    case SenderWrites(m) => Put(s, m)
    case ReaderTakes => s.(taken := s.taken + 1)
    case ReceiverGetsOffer => s.(receiver := Negotiates(Waiting(false, false)), taken := 1, consumed := 1, left := 1)
    case ReceiverSelects(choice) => Select(s, s.receiver.p, choice)
    case ReceiverReadFails => s.(receiver := Failed)
    case TailReads => s.(delivered := s.delivered + [s.wire[s.consumed]], consumed := s.consumed + 1)
  }

  // ---- Invariant ----

  ghost predicate Counters(s: State) {
    && s.left <= s.consumed <= s.taken <= |s.wire|
    && s.taken - s.consumed <= BUFFER + 1
    && (s.receiver.AwaitsOffer? ==> s.taken == 0 && s.wire != [])
    && (s.receiver.Negotiates? ==> s.receiver.p.Waiting? && s.left == s.consumed && s.delivered == [])
    && (s.receiver.Decided? ==> !s.receiver.p.Waiting?)
    && (s.receiver.AwaitsOffer? ==> s.delivered == [])
    && s.delivered == s.wire[s.left..s.consumed]
  }

  /** What the sender's own decision says about the messages it wrote. */
  ghost predicate Told(wire: seq<Message>, sender: SenderSide, channelOpen: bool) {
    && (P2PReady in wire <==> sender.SenderOnPeer?)
    && (P2PFail in wire <==> sender.SenderOnWS?)
    && (sender.SenderOnPeer? ==> channelOpen)
    && (forall i :: 0 <= i < |wire| && !IsSignal(wire[i]) ==> P2PFail in wire[..i])
  }

  /** What the receiver's progress says about the messages it consumed: a P2PFail was the last of them. */
  ghost predicate Heard(heard: seq<Message>, receiver: ReceiverSide) {
    && (receiver.Negotiates?
        ==> P2PFail !in heard && (receiver.p.Waiting? && receiver.p.p2pReady ==> P2PReady in heard))
    && (receiver == Decided(OnPeer) ==> P2PReady in heard)
    && (receiver == Decided(FellBack(false)) ==> P2PFail in heard)
    && (heard != [] ==> P2PFail !in heard[..|heard| - 1])
  }

  ghost predicate Inv(s: State) {
    Counters(s) && Told(s.wire, s.sender, s.channelOpen) && Heard(s.wire[..s.left], s.receiver)
  }

  lemma InitialInv()
    ensures Inv(INITIAL)
  {
  }

  /** A message written after what was heard changes nothing of that. */
  lemma PutKeepsHeard(s: State, m: Message)
    requires Inv(s)
    ensures Counters(Put(s, m)) && Put(s, m).wire[..s.left] == s.wire[..s.left]
  {
    var t := Put(s, m);
    assert t.wire[s.left..s.consumed] == s.wire[s.left..s.consumed];
  }

  lemma PutKeepsTold(s: State, m: Message, sender: SenderSide)
    requires Inv(s)
    requires || (m == ICECandidate && sender == s.sender)
             || (m == P2PReady && s.sender.SenderNegotiates? && sender.SenderOnPeer? && s.channelOpen)
             || (m == P2PFail && s.sender.SenderNegotiates? && sender.SenderOnWS?)
             || (!IsSignal(m) && s.sender.SenderOnWS? && sender == s.sender)
    ensures Told(s.wire + [m], sender, s.channelOpen)
  {
    var w := s.wire + [m];
    assert forall x :: x in w <==> x in s.wire || x == m;
    forall i | 0 <= i < |w| && !IsSignal(w[i])
      ensures P2PFail in w[..i]
    {
      if i < |s.wire| {
        assert w[..i] == s.wire[..i];
      } else {
        assert w[..i] == s.wire;
      }
    }
  }

  /** The last message heard is what the receiver reacts to. */
  lemma ReactionIsHeard(heard: seq<Message>, p: Progress, m: Message)
    requires p.Waiting? && Heard(heard, Negotiates(p))
    ensures var q := Settle(React(p, m)); Heard(heard + [m], if q.Waiting? then Negotiates(q) else Decided(q))
  {
    assert (heard + [m])[..|heard|] == heard;
    assert forall x :: x in heard + [m] <==> x in heard || x == m;
  }

  lemma PrefixGrows(w: seq<Message>, n: nat)
    requires n < |w|
    ensures w[..n + 1] == w[..n] + [w[n]] && w[n + 1..n + 1] == []
  {
  }

  lemma ReadKeepsInv(s: State)
    requires Inv(s) && Enabled(s, ReceiverSelects(ReadFires))
    ensures Inv(Apply(s, ReceiverSelects(ReadFires)))
  {
    ReactionIsHeard(s.wire[..s.left], s.receiver.p, s.wire[s.left]);
    PrefixGrows(s.wire, s.left);
  }

  lemma SelectKeepsInv(s: State, choice: Choice)
    requires Inv(s) && Enabled(s, ReceiverSelects(choice))
    ensures Inv(Apply(s, ReceiverSelects(choice)))
  {
    if choice.ReadFires? {
      ReadKeepsInv(s);
    }
  }

  lemma WriteKeepsInv(s: State, m: Message, sender: SenderSide, trickling: bool)
    requires Inv(s)
    requires || (m == ICECandidate && sender == s.sender)
             || (m == P2PReady && s.sender.SenderNegotiates? && sender.SenderOnPeer? && s.channelOpen)
             || (m == P2PFail && s.sender.SenderNegotiates? && sender.SenderOnWS?)
             || (!IsSignal(m) && s.sender.SenderOnWS? && sender == s.sender)
    ensures Inv(Put(s, m).(sender := sender, trickling := trickling))
  {
    PutKeepsHeard(s, m);
    PutKeepsTold(s, m, sender);
  }

  lemma OfferKeepsInv(s: State)
    requires Inv(s) && Enabled(s, ReceiverGetsOffer)
    ensures Inv(Apply(s, ReceiverGetsOffer))
  {
    assert s.wire[1..1] == [] && s.wire[..1] == [SDPOffer] && [SDPOffer][..0] == [];
  }

  lemma TailKeepsInv(s: State)
    requires Inv(s) && Enabled(s, TailReads)
    ensures Inv(Apply(s, TailReads))
  {
    assert s.wire[s.left..s.consumed] + [s.wire[s.consumed]] == s.wire[s.left..s.consumed + 1];
  }

  lemma ReaderKeepsInv(s: State)
    requires Inv(s) && Enabled(s, ReaderTakes)
    ensures Inv(Apply(s, ReaderTakes))
  {
  }

  lemma FailKeepsInv(s: State)
    requires Inv(s) && Enabled(s, ReceiverReadFails)
    ensures Inv(Apply(s, ReceiverReadFails))
  {
  }

  lemma SenderKeepsInv(s: State, channelOpen: bool, trickling: bool)
    requires Inv(s) && (s.channelOpen ==> channelOpen)
    ensures Inv(s.(channelOpen := channelOpen, trickling := trickling))
  {
  }

  lemma StepKeepsInv(s: State, step: Step)
    requires Inv(s) && Enabled(s, step)
    ensures Inv(Apply(s, step))
  {
    match step
    case ChannelOpens => SenderKeepsInv(s, true, s.trickling);
    case SenderTrickles => WriteKeepsInv(s, ICECandidate, s.sender, s.trickling);
    case SenderCommits => WriteKeepsInv(s, P2PReady, SenderOnPeer, false);
    case SenderGivesUp => WriteKeepsInv(s, P2PFail, SenderOnWS, s.trickling);
    case SenderStopsTrickling => SenderKeepsInv(s, s.channelOpen, false);
    case SenderWrites(m) => WriteKeepsInv(s, m, s.sender, s.trickling);
    case ReaderTakes => ReaderKeepsInv(s);
    case ReceiverGetsOffer => OfferKeepsInv(s);
    case ReceiverSelects(choice) => SelectKeepsInv(s, choice);
    case ReceiverReadFails => FailKeepsInv(s);
    case TailReads => TailKeepsInv(s);
  }

  // ---- Runs ----

  ghost predicate Legal(s: State, steps: seq<Step>)
    requires Inv(s)
    decreases |steps|
  {
    steps == [] || (Enabled(s, steps[0]) && (StepKeepsInv(s, steps[0]); Legal(Apply(s, steps[0]), steps[1..])))
  }

  ghost function Run(s: State, steps: seq<Step>): (t: State)
    requires Inv(s) && Legal(s, steps)
    ensures Inv(t)
    decreases |steps|
  {
    if steps == [] then s
    else
      StepKeepsInv(s, steps[0]);
      Run(Apply(s, steps[0]), steps[1..])
  }

  ghost function From(steps: seq<Step>): State
    requires Inv(INITIAL) && Legal(INITIAL, steps)
  {
    Run(INITIAL, steps)
  }

  predicate ReceiverOnPeer(s: State) { s.receiver == Decided(OnPeer) }

  predicate ReceiverOnWS(s: State) { s.receiver.Decided? && s.receiver.p.FellBack? }

  /**
   * One-directional agreement, over all timings: a receiver on the peer channel has a sender that committed to it in
   * this negotiation; a sender that fell back never faces a receiver on the peer channel; and where the two commitments
   * differ, the sender is on the peer channel and the receiver fell back on its own timer.
   */
  lemma Agreement(s: State)
    requires Inv(s)
    ensures ReceiverOnPeer(s) ==> s.sender == SenderOnPeer && s.channelOpen
    ensures s.sender == SenderOnWS ==> !ReceiverOnPeer(s)
    ensures s.sender == SenderOnPeer && ReceiverOnWS(s) ==> s.receiver == Decided(FellBack(true))
  {
    assert forall m :: m in s.wire[..s.left] ==> m in s.wire;
  }

  ghost predicate Reaches(s: State, steps: seq<Step>, t: State) {
    Inv(s) && Legal(s, steps) && Run(s, steps) == t
  }

  lemma OneStep(s: State, step: Step, rest: seq<Step>, t: State)
    requires Inv(s) && Enabled(s, step) && Reaches(Apply(s, step), rest, t)
    ensures Reaches(s, [step] + rest, t)
  {
    assert ([step] + rest)[1..] == rest;
  }

  lemma {:induction false} Onward(s: State, a: seq<Step>, t: State, b: seq<Step>, u: State)
    requires Reaches(s, a, t) && Reaches(t, b, u)
    ensures Reaches(s, a + b, u)
    decreases |a|
  {
    if a == [] {
      assert a + b == b;
    } else {
      StepKeepsInv(s, a[0]);
      Onward(Apply(s, a[0]), a[1..], t, b, u);
      OneStep(s, a[0], a[1..] + b, u);
      FirstApart(a, b);
    }
  }

  lemma FirstApart(a: seq<Step>, b: seq<Step>)
    requires a != []
    ensures [a[0]] + (a[1..] + b) == a + b
  {
  }

  /** The mismatch does happen: the receiver's timer is first, the data channel opens after it. */
  lemma MismatchIsReachable()
    ensures exists steps, t ::
              Reaches(INITIAL, steps, t) && t.sender == SenderOnPeer && t.receiver == Decided(FellBack(true))
  {
    InitialInv();
    var s1 := INITIAL.(receiver := Negotiates(Waiting(false, false)), taken := 1, consumed := 1, left := 1);
    var s2 := s1.(receiver := Decided(FellBack(true)));
    StepKeepsInv(INITIAL, ReceiverGetsOffer);
    StepKeepsInv(s1, ReceiverSelects(TimerFires));
    var late, t := LateCommit(s2);
    OneStep(s1, ReceiverSelects(TimerFires), late, t);
    OneStep(INITIAL, ReceiverGetsOffer, [ReceiverSelects(TimerFires)] + late, t);
  }

  /** A sender that is still negotiating may commit, whatever the receiver has decided. */
  lemma LateCommit(s: State) returns (steps: seq<Step>, t: State)
    requires Inv(s) && s.sender == SenderNegotiates
    ensures Reaches(s, steps, t) && t.sender == SenderOnPeer && t.receiver == s.receiver
  {
    var open := Apply(s, ChannelOpens);
    StepKeepsInv(s, ChannelOpens);
    StepKeepsInv(open, SenderCommits);
    t := Apply(open, SenderCommits);
    OneStep(open, SenderCommits, [], t);
    steps := [ChannelOpens] + ([SenderCommits] + []);
    OneStep(s, ChannelOpens, [SenderCommits] + [], t);
  }

  // ---- The machine and the code ----

  /** The branches that the receiver's select takes in a run. */
  function Choices(steps: seq<Step>): seq<Choice> {
    if steps == [] then [] else ChoiceOf(steps[0]) + Choices(steps[1..])
  }

  function ChoiceOf(step: Step): seq<Choice> {
    match step
    case ReceiverSelects(choice) => [choice]
    case _ => []
  }

  /**
   * The receiver stands where the loop of negotiateReceiver stands after these branches, with the same messages left.
   */
  ghost predicate Follows(s: State, choices: seq<Choice>) {
    && (s.receiver.AwaitsOffer? ==> choices == [])
    && (s.receiver.Negotiates? || s.receiver.Decided? ==>
          && s.receiver.p != Broken && 1 <= s.left <= |s.wire|
          && Negotiate(Waiting(false, false), s.wire[1..], choices) == (s.receiver.p, s.wire[s.left..]))
  }

  lemma PutFollows(s: State, m: Message, choices: seq<Choice>)
    requires Inv(s) && Follows(s, choices)
    ensures Follows(Put(s, m), choices)
  {
    if s.receiver.Negotiates? || s.receiver.Decided? {
      NegotiateMore(Waiting(false, false), s.wire[1..], choices, [m]);
      assert (s.wire + [m])[1..] == s.wire[1..] + [m] && (s.wire + [m])[s.left..] == s.wire[s.left..] + [m];
    }
  }

  lemma SelectFollows(s: State, choice: Choice, choices: seq<Choice>)
    requires Inv(s) && Follows(s, choices) && Enabled(s, ReceiverSelects(choice))
    ensures Follows(Apply(s, ReceiverSelects(choice)), choices + [choice])
  {
    var p, rest := s.receiver.p, s.wire[s.left..];
    NegotiateSnoc(Waiting(false, false), s.wire[1..], choices, choice);
    Unsettled(Waiting(false, false), s.wire[1..], choices);
    match choice
    case OpenFires => OneBranch(p.(dcOpen := true), rest);
    case TimerFires =>
    case ReadFires =>
      assert rest[0] == s.wire[s.left] && rest[1..] == s.wire[s.left + 1..];
      OneBranch(React(p, rest[0]), rest[1..]);
  }

  lemma OneBranch(p: Progress, rest: seq<Message>)
    ensures Negotiate(p, rest, []) == (Settle(p), rest)
  {
  }

  /** A loop that goes on has looked at both flags. */
  lemma {:induction false} Unsettled(p: Progress, stream: seq<Message>, schedule: seq<Choice>)
    ensures Negotiate(p, stream, schedule).0 != Waiting(true, true)
    decreases |schedule|
  {
    var q := Settle(p);
    if q.Waiting? && schedule != [] {
      match schedule[0]
      case OpenFires => Unsettled(q.(dcOpen := true), stream, schedule[1..]);
      case TimerFires =>
      case ReadFires =>
        if stream != [] { Unsettled(React(q, stream[0]), stream[1..], schedule[1..]); }
    }
  }

  lemma StepFollows(s: State, step: Step, choices: seq<Choice>)
    requires Inv(s) && Follows(s, choices) && Enabled(s, step)
    ensures Follows(Apply(s, step), choices + ChoiceOf(step))
  {
    assert choices + [] == choices;
    match step
    case SenderTrickles => PutFollows(s, ICECandidate, choices);
    case SenderCommits => PutFollows(s, P2PReady, choices);
    case SenderGivesUp => PutFollows(s, P2PFail, choices);
    case SenderWrites(m) => PutFollows(s, m, choices);
    case ReceiverSelects(choice) => SelectFollows(s, choice, choices);
    case _ =>
  }

  lemma {:induction false} RunFollows(s: State, steps: seq<Step>, t: State, before: seq<Choice>)
    requires Reaches(s, steps, t) && Follows(s, before)
    ensures Follows(t, before + Choices(steps))
    decreases |steps|
  {
    if steps == [] {
      assert before + [] == before;
    } else {
      var next := Apply(s, steps[0]);
      StepKeepsInv(s, steps[0]);
      StepFollows(s, steps[0], before);
      RunFollows(next, steps[1..], t, before + ChoiceOf(steps[0]));
      Assoc(before, ChoiceOf(steps[0]), Choices(steps[1..]));
    }
  }

  /**
   * In every run, the receiver's decision and the messages it leaves are what the loop of negotiateReceiver makes of
   * the relay's stream after the offer, for the branches that fired.
   */
  lemma MachineFollowsCode(steps: seq<Step>, t: State)
    requires Reaches(INITIAL, steps, t) && (t.receiver.Negotiates? || t.receiver.Decided?)
    ensures t.wire != [] && t.left <= |t.wire|
    ensures Negotiate(Waiting(false, false), t.wire[1..], Choices(steps)) == (t.receiver.p, t.wire[t.left..])
  {
    RunFollows(INITIAL, steps, t, []);
    assert [] + Choices(steps) == Choices(steps);
  }

  /** The messages that carry files. */
  function FileMessages(ms: seq<Message>): seq<Message> {
    if ms == [] then [] else (if IsSignal(ms[0]) then [] else [ms[0]]) + FileMessages(ms[1..])
  }

  lemma {:induction false} FileMessagesAppend(a: seq<Message>, b: seq<Message>)
    ensures FileMessages(a + b) == FileMessages(a) + FileMessages(b)
  {
    if a == [] {
      assert a + b == b;
    } else {
      assert (a + b)[0] == a[0] && (a + b)[1..] == a[1..] + b;
      FileMessagesAppend(a[1..], b);
    }
  }

  lemma {:induction false} OnlySignals(ms: seq<Message>)
    requires forall m :: m in ms ==> IsSignal(m)
    ensures FileMessages(ms) == []
  {
    if ms != [] {
      assert ms[0] in ms && forall m :: m in ms[1..] ==> m in ms;
      OnlySignals(ms[1..]);
    }
  }

  /** Whatever negotiateReceiver consumes, no part of a file is in it. */
  lemma HeardIsSignalling(s: State)
    requires Inv(s)
    ensures forall m :: m in s.wire[..s.left] ==> IsSignal(m)
  {
    forall m | m in s.wire[..s.left]
      ensures IsSignal(m)
    {
      var i :| 0 <= i < s.left && s.wire[i] == m;
      LongerPrefix(s.wire, i, s.left - 1, P2PFail);
    }
  }

  lemma LongerPrefix(w: seq<Message>, i: nat, j: nat, m: Message)
    requires i <= j <= |w|
    ensures m in w[..i] ==> m in w[..j]
  {
    if k :| 0 <= k < i && w[k] == m {
      assert w[..j][k] == m;
    }
  }

  lemma SplitStream(w: seq<Message>, a: nat, b: nat, c: nat)
    requires a <= b <= c <= |w|
    ensures w[..a] + w[a..b] + w[b..c] + w[c..] == w && w[a..b] + w[b..] == w[a..] && w[..a] + w[a..] == w
  {
  }

  /**
   * Fallback loses nothing: what negotiateReceiver consumed, what tailReader has yielded, and what is still in the
   * bounded channel or under way, are together the relay's stream in order; and all messages that carry files are among
   * the ones tailReader yields.
   */
  lemma FallbackLosesNothing(s: State)
    requires Inv(s) && ReceiverOnWS(s)
    ensures s.wire[..s.left] + s.delivered + s.wire[s.consumed..s.taken] + s.wire[s.taken..] == s.wire
    ensures FileMessages(s.delivered + s.wire[s.consumed..]) == FileMessages(s.wire)
    ensures s.taken - s.consumed <= BUFFER + 1
  {
    SplitStream(s.wire, s.left, s.consumed, s.taken);
    HeardIsSignalling(s);
    SignalsDrop(s.wire[..s.left], s.wire[s.left..]);
  }

  lemma SignalsDrop(heard: seq<Message>, rest: seq<Message>)
    requires forall m :: m in heard ==> IsSignal(m)
    ensures FileMessages(heard + rest) == FileMessages(rest)
  {
    OnlySignals(heard);
    FileMessagesAppend(heard, rest);
  }

  /** And it gets through: while anything is undelivered, the reader goroutine or tailReader can go on. */
  lemma FallbackNeverBlocks(s: State)
    requires Inv(s) && ReceiverOnWS(s) && s.consumed < |s.wire|
    ensures Enabled(s, ReaderTakes) || Enabled(s, TailReads)
  {
  }

  /**
   * So everything arrives: with no more from the sender, there is a run after which tailReader has yielded all that the
   * negotiation left of the stream, in order.
   */
  lemma {:induction false} FallbackDelivers(s: State) returns (steps: seq<Step>, t: State)
    requires Inv(s) && ReceiverOnWS(s)
    ensures Reaches(s, steps, t) && t.wire == s.wire && t.delivered == s.wire[s.left..]
    decreases 2 * |s.wire| - s.taken - s.consumed
  {
    if s.consumed == |s.wire| {
      steps, t := [], s;
      assert s.wire[s.left..s.consumed] == s.wire[s.left..];
    } else {
      FallbackNeverBlocks(s);
      var step := if s.consumed < s.taken then TailReads else ReaderTakes;
      StepKeepsInv(s, step);
      var more: seq<Step>;
      more, t := FallbackDelivers(Apply(s, step));
      steps := [step] + more;
      OneStep(s, step, more, t);
    }
  }

  /** A sender on the peer channel has written P2PReady to the relay last, and writes no candidate after it. */
  ghost predicate SilentOnPeer(s: State) {
    s.sender == SenderOnPeer ==> !s.trickling && s.wire != [] && s.wire[|s.wire| - 1] == P2PReady
  }

  lemma {:induction false} PeerMeansSilence(s: State, steps: seq<Step>, t: State)
    requires Reaches(s, steps, t) && SilentOnPeer(s)
    ensures SilentOnPeer(t)
    decreases |steps|
  {
    if steps != [] {
      StepKeepsInv(s, steps[0]);
      StepIsSilent(s, steps[0]);
      PeerMeansSilence(Apply(s, steps[0]), steps[1..], t);
    }
  }

  lemma StepIsSilent(s: State, step: Step)
    requires Inv(s) && Enabled(s, step) && SilentOnPeer(s)
    ensures SilentOnPeer(Apply(s, step))
  {
  }

  /** The guarantees above hold in every state of every run. */
  lemma EveryRun(steps: seq<Step>)
    requires Inv(INITIAL) && Legal(INITIAL, steps)
    ensures var s := From(steps);
            && (ReceiverOnPeer(s) ==> s.sender == SenderOnPeer)
            && (s.sender == SenderOnWS ==> !ReceiverOnPeer(s))
            && (s.sender == SenderOnPeer && ReceiverOnWS(s) ==> s.receiver == Decided(FellBack(true)))
            && (ReceiverOnWS(s) ==> FileMessages(s.delivered + s.wire[s.consumed..]) == FileMessages(s.wire))
  {
    var s := From(steps);
    Agreement(s);
    if ReceiverOnWS(s) { FallbackLosesNothing(s); }
  }
}
