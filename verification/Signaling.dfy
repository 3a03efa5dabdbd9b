/**
 * The loops of the transport negotiation: the reader goroutine with its bounded channel, and both ends' select loops.
 */
module Signaling {
  import opened Bytes
  import opened Protocol

  /** The capacity of the channel that startWSReader makes. */
  const BUFFER := 16

  /** Where the select loop of negotiateReceiver stands after a message. `Broken` is a read error. */
  datatype Progress = Waiting(dcOpen: bool, p2pReady: bool) | OnPeer | FellBack(timedOut: bool) | Broken

  function React(p: Progress, m: Message): Progress {
    if !p.Waiting? then p
    else match m
      case P2PReady => p.(p2pReady := true)
      case P2PFail => FellBack(false)
      case _ => p
  }

  /** The check at the top of the loop. */
  function Settle(p: Progress): Progress {
    if p == Waiting(true, true) then OnPeer else p
  }

  /**
   * One branch of the select: WaitOpen returned, whether or not the channel is open; the reader's channel yields, which
   * after the last message of the connection is the read error; the timer.
   */
  datatype Choice = OpenFires | ReadFires | TimerFires

  /** The loop over the messages of the connection, with the branches that the select takes. */
  function Negotiate(p: Progress, stream: seq<Message>, schedule: seq<Choice>): (Progress, seq<Message>)
    decreases |schedule|
  {
    var q := Settle(p);
    if !q.Waiting? || schedule == [] then (q, stream)
    else match schedule[0]
      case OpenFires => Negotiate(q.(dcOpen := true), stream, schedule[1..])
      case TimerFires => (FellBack(true), stream)
      case ReadFires =>
        if stream == [] then (Broken, stream)
        else Negotiate(React(q, stream[0]), stream[1..], schedule[1..])
  }

  /** How many messages the schedule takes from the reader's channel. */
  function Reads(schedule: seq<Choice>): nat {
    if schedule == [] then 0 else (if schedule[0].ReadFires? then 1 else 0) + Reads(schedule[1..])
  }

  /**
   * The first `i` branches have ended nothing, neither the timer nor a P2PFail nor the read error being among them, and
   * by then the data channel was reported open and P2PReady was read.
   */
  ghost predicate CommitsBy(p: Progress, stream: seq<Message>, schedule: seq<Choice>, i: nat)
    requires p.Waiting?
  {
    && i <= |schedule| && TimerFires !in schedule[..i]
    && Reads(schedule[..i]) <= |stream| && P2PFail !in stream[..Reads(schedule[..i])]
    && (p.dcOpen || OpenFires in schedule[..i])
    && (p.p2pReady || P2PReady in stream[..Reads(schedule[..i])])
  }

  lemma ReadsFirst(schedule: seq<Choice>, i: nat)
    requires 0 < i <= |schedule|
    ensures Reads(schedule[..i]) == (if schedule[0].ReadFires? then 1 else 0) + Reads(schedule[1..][..i - 1])
    ensures forall c :: c in schedule[..i] <==> c == schedule[0] || c in schedule[1..][..i - 1]
  {
    assert schedule[..i] == [schedule[0]] + schedule[1..][..i - 1];
  }

  lemma FirstOfPrefix(stream: seq<Message>, n: nat)
    requires 0 < n <= |stream|
    ensures forall m :: m in stream[..n] <==> m == stream[0] || m in stream[1..][..n - 1]
  {
    assert stream[..n] == [stream[0]] + stream[1..][..n - 1];
  }

  lemma OpensFirst(p: Progress, stream: seq<Message>, schedule: seq<Choice>, i: nat)
    requires p.Waiting? && 0 < i <= |schedule| && schedule[0].OpenFires?
    ensures CommitsBy(p, stream, schedule, i) <==> CommitsBy(p.(dcOpen := true), stream, schedule[1..], i - 1)
  {
    ReadsFirst(schedule, i);
  }

  lemma ReadsThen(p: Progress, stream: seq<Message>, schedule: seq<Choice>, i: nat)
    requires p.Waiting? && 0 < i <= |schedule| && schedule[0].ReadFires? && stream != [] && !stream[0].P2PFail?
    ensures CommitsBy(p, stream, schedule, i) <==> CommitsBy(React(p, stream[0]), stream[1..], schedule[1..], i - 1)
  {
    ReadsFirst(schedule, i);
    var n := Reads(schedule[..i]);
    if n <= |stream| {
      FirstOfPrefix(stream, n);
    }
  }

  lemma NeverCommits(p: Progress, stream: seq<Message>, schedule: seq<Choice>, i: nat)
    requires p.Waiting? && p != Waiting(true, true)
    requires schedule == [] || schedule[0].TimerFires?
             || (schedule[0].ReadFires? && (stream == [] || stream[0].P2PFail?))
    ensures !CommitsBy(p, stream, schedule, i)
  {
    if 0 < i <= |schedule| {
      ReadsFirst(schedule, i);
      if schedule[0].ReadFires? && Reads(schedule[..i]) <= |stream| {
        FirstOfPrefix(stream, Reads(schedule[..i]));
      }
    }
  }

  /**
   * The receiver takes the peer channel exactly when WaitOpen has returned and P2PReady has been read before the timer,
   * a P2PFail or a read error, whatever the order in which the branches fire.
   */
  lemma {:induction false} ReceiverCommitsExactly(p: Progress, stream: seq<Message>, schedule: seq<Choice>)
    requires p.Waiting?
    ensures Negotiate(p, stream, schedule).0 == OnPeer <==> exists i: nat :: CommitsBy(p, stream, schedule, i)
    decreases |schedule|
  {
    if p == Waiting(true, true) {
      assert CommitsBy(p, stream, schedule, 0);
    } else if schedule != [] && schedule[0].OpenFires? {
      var q := p.(dcOpen := true);
      ReceiverCommitsExactly(q, stream, schedule[1..]);
      if i: nat :| CommitsBy(q, stream, schedule[1..], i) { OpensFirst(p, stream, schedule, i + 1); }
      if i: nat :| CommitsBy(p, stream, schedule, i) { OpensFirst(p, stream, schedule, i); }
    } else if schedule != [] && schedule[0].ReadFires? && stream != [] && !stream[0].P2PFail? {
      var q := React(p, stream[0]);
      ReceiverCommitsExactly(q, stream[1..], schedule[1..]);
      if i: nat :| CommitsBy(q, stream[1..], schedule[1..], i) { ReadsThen(p, stream, schedule, i + 1); }
      if i: nat :| CommitsBy(p, stream, schedule, i) { ReadsThen(p, stream, schedule, i); }
    } else {
      forall i: nat
        ensures !CommitsBy(p, stream, schedule, i)
      {
        NeverCommits(p, stream, schedule, i);
      }
    }
  }

  /** `n` messages were taken off the front, in order; a P2PFail ends the loop, so it can only be the last of them. */
  ghost predicate Took(q: Progress, stream: seq<Message>, rest: seq<Message>, n: nat) {
    && n <= |stream| && rest == stream[n..]
    && (forall j :: 0 <= j < n - 1 ==> !stream[j].P2PFail?)
    && (q == FellBack(false) <==> n > 0 && stream[n - 1].P2PFail?)
    && (q == Broken ==> rest == [])
  }

  lemma {:induction false} NegotiateTakes(p: Progress, stream: seq<Message>, schedule: seq<Choice>)
    requires p.Waiting?
    ensures exists n: nat :: Took(Negotiate(p, stream, schedule).0, stream, Negotiate(p, stream, schedule).1, n)
    decreases |schedule|
  {
    var (q, rest) := Negotiate(p, stream, schedule);
    assert stream[0..] == stream;
    if p == Waiting(true, true) || schedule == [] || schedule[0].TimerFires?
      || (schedule[0].ReadFires? && stream == []) {
      assert Took(q, stream, rest, 0);
    } else if schedule[0].OpenFires? {
      NegotiateTakes(p.(dcOpen := true), stream, schedule[1..]);
      assert Negotiate(p, stream, schedule) == Negotiate(p.(dcOpen := true), stream, schedule[1..]);
    } else if stream[0].P2PFail? {
      assert Negotiate(FellBack(false), stream[1..], schedule[1..]) == (FellBack(false), stream[1..]);
      assert Took(q, stream, rest, 1);
    } else {
      NegotiateTakes(React(p, stream[0]), stream[1..], schedule[1..]);
      assert Negotiate(p, stream, schedule) == Negotiate(React(p, stream[0]), stream[1..], schedule[1..]);
      var n: nat :| Took(q, stream[1..], rest, n);
      OneMoreTaken(q, stream, rest, n);
    }
  }

  lemma OneMoreTaken(q: Progress, stream: seq<Message>, rest: seq<Message>, n: nat)
    requires stream != [] && !stream[0].P2PFail? && Took(q, stream[1..], rest, n)
    ensures Took(q, stream, rest, n + 1)
  {
    forall j | 0 <= j < n
      ensures !stream[j].P2PFail?
    {
      if j > 0 { assert stream[j] == stream[1..][j - 1]; }
    }
    if n > 0 { assert stream[n] == stream[1..][n - 1]; }
  }

  // ---- The same loop, one branch at a time ----

  lemma {:induction false} NegotiateSnoc(p: Progress, stream: seq<Message>, schedule: seq<Choice>, c: Choice)
    requires p.Waiting? && Negotiate(p, stream, schedule).0.Waiting?
    ensures var (q, rest) := Negotiate(p, stream, schedule);
            Negotiate(p, stream, schedule + [c]) == Negotiate(q, rest, [c])
    decreases |schedule|
  {
    if schedule == [] {
      assert schedule + [c] == [c];
    } else {
      assert (schedule + [c])[0] == schedule[0] && (schedule + [c])[1..] == schedule[1..] + [c];
      if schedule[0].OpenFires? {
        NegotiateSnoc(p.(dcOpen := true), stream, schedule[1..], c);
      } else {
        NegotiateSnoc(React(p, stream[0]), stream[1..], schedule[1..], c);
      }
    }
  }

  /** What is on the connection after the messages taken makes no difference. */
  lemma {:induction false} NegotiateMore(p: Progress, stream: seq<Message>, schedule: seq<Choice>, more: seq<Message>)
    requires Negotiate(p, stream, schedule).0 != Broken
    ensures var (q, rest) := Negotiate(p, stream, schedule); Negotiate(p, stream + more, schedule) == (q, rest + more)
    decreases |schedule|
  {
    var q := Settle(p);
    if q.Waiting? && schedule != [] {
      if schedule[0].OpenFires? {
        NegotiateMore(q.(dcOpen := true), stream, schedule[1..], more);
      } else if schedule[0].ReadFires? {
        assert (stream + more)[0] == stream[0] && (stream + more)[1..] == stream[1..] + more;
        NegotiateMore(React(q, stream[0]), stream[1..], schedule[1..], more);
      }
    }
  }

  /** One branch of the select in negotiateSender; SetRemoteAnswer may refuse the answer. */
  datatype OfferChoice = OpenReturns(isOpen: bool) | SignalFires(answerFits: bool) | OfferTimer

  /** Whether negotiateSender returns a peer, if it has returned, and what is left of the stream. */
  function Offer(stream: seq<Message>, schedule: seq<OfferChoice>): (Option<bool>, seq<Message>)
    decreases |schedule|
  {
    if schedule == [] then (None, stream)
    else match schedule[0]
      case OpenReturns(isOpen) => (Some(isOpen), stream)
      case OfferTimer => (Some(false), stream)
      case SignalFires(answerFits) =>
        if stream == [] then (Some(false), stream)
        else if stream[0].P2PFail? || (stream[0].SDPAnswer? && !answerFits) then (Some(false), stream[1..])
        else Offer(stream[1..], schedule[1..])
  }

  /** A message that negotiateSender goes on after. */
  predicate Passes(m: Message, choice: OfferChoice) {
    choice.SignalFires? && !m.P2PFail? && (m.SDPAnswer? ==> choice.answerFits)
  }

  /** WaitOpen returns at `i` with an open channel; before that only messages were taken, none of which ended it. */
  ghost predicate CommitsAt(stream: seq<Message>, schedule: seq<OfferChoice>, i: nat) {
    && i < |schedule| && schedule[i] == OpenReturns(true) && i <= |stream|
    && forall j :: 0 <= j < i ==> Passes(stream[j], schedule[j])
  }

  /** The sender gets a peer exactly when its channel opened before anything else ended the negotiation. */
  lemma {:induction false} CommitsExactlyWhenOpen(stream: seq<Message>, schedule: seq<OfferChoice>)
    ensures Offer(stream, schedule).0 == Some(true) <==> exists i: nat :: CommitsAt(stream, schedule, i)
    decreases |schedule|
  {
    if schedule == [] {
    } else if stream != [] && Passes(stream[0], schedule[0]) {
      CommitsExactlyWhenOpen(stream[1..], schedule[1..]);
      if i: nat :| CommitsAt(stream[1..], schedule[1..], i) {
        CommitsLater(stream, schedule, i + 1);
      }
      if i: nat :| CommitsAt(stream, schedule, i) {
        CommitsLater(stream, schedule, i);
      }
    } else if schedule[0] == OpenReturns(true) {
      assert CommitsAt(stream, schedule, 0);
    }
  }

  lemma CommitsLater(stream: seq<Message>, schedule: seq<OfferChoice>, i: nat)
    requires i > 0 && schedule != [] && stream != [] && Passes(stream[0], schedule[0])
    ensures CommitsAt(stream, schedule, i) <==> CommitsAt(stream[1..], schedule[1..], i - 1)
  {
    if CommitsAt(stream[1..], schedule[1..], i - 1) {
      forall j | 0 <= j < i
        ensures Passes(stream[j], schedule[j])
      {
        if j > 0 { assert Passes(stream[1..][j - 1], schedule[1..][j - 1]); }
      }
    }
  }

  /** startWSReader's goroutine, the connection it reads and the channel it feeds. */
  class WSReader {
    /** Messages still on the connection; the one read but not yet sent; the channel's buffer. */
    var conn: seq<Message>
    var hand: Option<Message>
    var buffer: seq<Message>

    constructor (conn: seq<Message>)
      ensures Valid() && Stream() == conn
    {
      this.conn, hand, buffer := conn, None, [];
      new;
      assert [] + [] + conn == conn;
    }

    ghost predicate Valid()
      reads this
    {
      |buffer| <= BUFFER
    }

    /** Everything not yet received from the channel, in order. */
    ghost function Stream(): seq<Message>
      reads this
    {
      buffer + (if hand.Some? then [hand.value] else []) + conn
    }

    /** One step of the goroutine: send what it holds if there is room, else read. It may also be stuck. */
    method Pump() returns (moved: bool)
      requires Valid()
      modifies this
      ensures Valid() && Stream() == old(Stream())
      ensures !moved <==> if old(hand).Some? then |old(buffer)| == 16 else old(conn) == []
      ensures moved ==> if old(hand).Some? then hand == None && conn == old(conn) else |conn| < |old(conn)|
    {
      moved := true;
      if hand.Some? {
        if |buffer| < BUFFER {
          buffer, hand := buffer + [hand.value], None;
          assert buffer + [] + conn == old(buffer) + [old(hand).value] + conn;
        } else {
          moved := false;
        }
      } else if conn != [] {
        hand, conn := Some(conn[0]), conn[1..];
        assert buffer + [old(conn)[0]] + conn == buffer + [] + old(conn);
      } else {
        moved := false;
      }
    }

    /** A receive from the channel, once the goroutine has had time to fill it. */
    method Receive() returns (m: Option<Message>)
      requires Valid()
      modifies this
      ensures Valid()
      ensures if old(Stream()) == [] then m == None && Stream() == []
              else m == Some(old(Stream())[0]) && Stream() == old(Stream())[1..]
    {
      while buffer == [] && (hand.Some? || conn != [])
        invariant Valid() && Stream() == old(Stream())
        decreases |conn|, hand.Some?
      {
        var moved := Pump();
      }
      if buffer == [] {
        return None;
      }
      m := Some(buffer[0]);
      assert old(Stream()) == [buffer[0]] + (buffer[1..] + (if hand.Some? then [hand.value] else []) + conn);
      buffer := buffer[1..];
    }

    /** The select loop of negotiateReceiver. What it leaves unread is what tailReader goes on with. */
    method NegotiateReceiver(schedule: seq<Choice>) returns (p: Progress)
      requires Valid()
      modifies this
      ensures Valid() && (p, Stream()) == Negotiate(Waiting(false, false), old(Stream()), schedule)
      ensures p == OnPeer <==> exists i: nat :: CommitsBy(Waiting(false, false), old(Stream()), schedule, i)
      ensures exists n: nat :: Took(p, old(Stream()), Stream(), n)
    {
      ReceiverCommitsExactly(Waiting(false, false), Stream(), schedule);
      NegotiateTakes(Waiting(false, false), Stream(), schedule);
      var dcOpen, p2pReady := false, false;
      for i := 0 to |schedule|
        invariant Valid()
        invariant Negotiate(Waiting(dcOpen, p2pReady), Stream(), schedule[i..])
                  == Negotiate(Waiting(false, false), old(Stream()), schedule)
      {
        assert schedule[i..][0] == schedule[i] && schedule[i..][1..] == schedule[i + 1..];
        if dcOpen && p2pReady {
          return OnPeer;
        }
        match schedule[i] {
          case OpenFires =>
            dcOpen := true;
          case TimerFires =>
            return FellBack(true);
          case ReadFires =>
            var r := Receive();
            if r.None? {
              return Broken;
            }
            match r.value {
              case P2PReady => p2pReady := true;
              case P2PFail => return FellBack(false);
              case _ =>
            }
        }
      }
      return Settle(Waiting(dcOpen, p2pReady));
    }

    /** The select loop of negotiateSender, after its offer. */
    method NegotiateSender(schedule: seq<OfferChoice>) returns (r: Option<bool>)
      requires Valid()
      modifies this
      ensures Valid() && (r, Stream()) == Offer(old(Stream()), schedule)
      ensures r == Some(true) <==> exists i: nat :: CommitsAt(old(Stream()), schedule, i)
    {
      CommitsExactlyWhenOpen(Stream(), schedule);
      for i := 0 to |schedule|
        invariant Valid() && Offer(Stream(), schedule[i..]) == Offer(old(Stream()), schedule)
      {
        assert schedule[i..][0] == schedule[i] && schedule[i..][1..] == schedule[i + 1..];
        match schedule[i] {
          case OpenReturns(isOpen) =>
            return Some(isOpen);
          case OfferTimer =>
            return Some(false);
          case SignalFires(answerFits) =>
            var m := Receive();
            if m.None? {
              return Some(false);
            }
            match m.value {
              case SDPAnswer =>
                if !answerFits {
                  return Some(false);
                }
              case P2PFail => return Some(false);
              case _ =>
            }
        }
      }
      return None;
    }
  }
}
