/**
 * The sender of the negotiation, driven by its select loop: it commits or gives up when negotiateSender returns, and a
 * branch that finds the data channel open fires only once it is. Its runs are the runs of Negotiation, neither more nor
 * less.
 */
module CodedRuns {
  import opened Bytes
  import opened Protocol
  import opened Signaling
  import opened Negotiation

  /** A step of the machine, or a branch of the sender's select. */
  datatype Event = Machine(step: Step) | SenderSelects(choice: OfferChoice)

  /** Where negotiateSender stands: `incoming` is what the relay brings it, `choices` the branches so far. */
  function Verdict(incoming: seq<Message>, choices: seq<OfferChoice>): Option<bool> {
    Offer(incoming, choices).0
  }

  predicate Possible(incoming: seq<Message>, s: State, choices: seq<OfferChoice>, e: Event) {
    match e
    case SenderSelects(c) =>
      s.sender.SenderNegotiates? && Verdict(incoming, choices) == None && (c == OpenReturns(true) ==> s.channelOpen)
    case Machine(SenderCommits) => s.sender.SenderNegotiates? && Verdict(incoming, choices) == Some(true)
    case Machine(SenderGivesUp) => s.sender.SenderNegotiates? && Verdict(incoming, choices) == Some(false)
    case Machine(step) => Enabled(s, step)
  }

  function Steps(events: seq<Event>): seq<Step> {
    if events == [] then []
    else (match events[0] case Machine(step) => [step] case SenderSelects(_) => []) + Steps(events[1..])
  }

  /** What a step does; the sender writes P2PReady when its loop returned a peer, open or not. */
  function Effect(s: State, step: Step): State {
    if step.SenderCommits? then Put(s, P2PReady).(sender := SenderOnPeer, trickling := false)
    else if Enabled(s, step) && s.taken <= |s.wire| then Apply(s, step)
    else s
  }

  /** The events lead from `s` to `t`. */
  ghost predicate CodedReaches(incoming: seq<Message>, s: State, choices: seq<OfferChoice>, events: seq<Event>,
                               t: State)
    decreases |events|
  {
    if events == [] then s == t
    else
      && Possible(incoming, s, choices, events[0])
      && match events[0]
         case SenderSelects(c) => CodedReaches(incoming, s, choices + [c], events[1..], t)
         case Machine(step) => CodedReaches(incoming, Effect(s, step), choices, events[1..], t)
  }

  lemma {:induction false} OfferSnoc(stream: seq<Message>, schedule: seq<OfferChoice>, c: OfferChoice)
    requires Offer(stream, schedule).0 == None
    ensures Offer(stream, schedule + [c]) == Offer(Offer(stream, schedule).1, [c])
    decreases |schedule|
  {
    if schedule == [] {
      assert schedule + [c] == [c];
    } else {
      assert (schedule + [c])[0] == schedule[0] && (schedule + [c])[1..] == schedule[1..] + [c];
      OfferSnoc(stream[1..], schedule[1..], c);
    }
  }

  /** A loop that returned a peer saw the channel open, and so it is. */
  ghost predicate Justified(incoming: seq<Message>, s: State, choices: seq<OfferChoice>) {
    Verdict(incoming, choices) == Some(true) ==> s.channelOpen
  }

  lemma SelectJustifies(incoming: seq<Message>, s: State, choices: seq<OfferChoice>, c: OfferChoice)
    requires Possible(incoming, s, choices, SenderSelects(c))
    ensures Justified(incoming, s, choices + [c])
  {
    OfferSnoc(incoming, choices, c);
    var rest := Offer(incoming, choices).1;
    assert c.SignalFires? && rest != [] ==> Offer(rest[1..], []).0 == None;
  }

  lemma CommitIsEnabled(incoming: seq<Message>, s: State, choices: seq<OfferChoice>, step: Step)
    requires Justified(incoming, s, choices) && Possible(incoming, s, choices, Machine(step))
    ensures Enabled(s, step)
  {
  }

  /** The events of one step of the machine, for a sender that has not selected yet. */
  function Coding(s: State, step: Step): seq<Event> {
    match step
    case SenderCommits => [SenderSelects(OpenReturns(true)), Machine(step)]
    case SenderGivesUp => [SenderSelects(OfferTimer), Machine(step)]
    case _ => [Machine(step)]
  }

  /** Whatever the select loop does, the sender's steps are steps the machine allows: its guards can be dropped. */
  lemma GuardsFollow(incoming: seq<Message>, s: State, choices: seq<OfferChoice>, e: Event)
    requires Inv(s) && Justified(incoming, s, choices) && Possible(incoming, s, choices, e)
    ensures match e
            case SenderSelects(c) => Justified(incoming, s, choices + [c])
            case Machine(step) =>
              Enabled(s, step) && Effect(s, step) == Apply(s, step) && Inv(Apply(s, step))
              && Justified(incoming, Apply(s, step), choices)
  {
    match e
    case SenderSelects(c) => SelectJustifies(incoming, s, choices, c);
    case Machine(step) =>
      CommitIsEnabled(incoming, s, choices, step);
      StepKeepsInv(s, step);
      ChannelStaysOpen(s, step);
  }

  lemma ChannelStaysOpen(s: State, step: Step)
    requires Inv(s) && Enabled(s, step)
    ensures s.channelOpen ==> Apply(s, step).channelOpen
  {
  }

  /** Every coded run is a run of the machine. */
  lemma {:induction false} CodedRunsAreRuns(incoming: seq<Message>, s: State, choices: seq<OfferChoice>,
                                            events: seq<Event>, t: State)
    requires Inv(s) && Justified(incoming, s, choices) && CodedReaches(incoming, s, choices, events, t)
    ensures Reaches(s, Steps(events), t)
    decreases |events|
  {
    if events == [] {
    } else {
      GuardsFollow(incoming, s, choices, events[0]);
      match events[0]
      case SenderSelects(c) =>
        CodedRunsAreRuns(incoming, s, choices + [c], events[1..], t);
        assert [] + Steps(events[1..]) == Steps(events[1..]);
      case Machine(step) =>
        CodedRunsAreRuns(incoming, Apply(s, step), choices, events[1..], t);
        OneStep(s, step, Steps(events[1..]), t);
    }
  }

  lemma CodedStep(incoming: seq<Message>, s: State, choices: seq<OfferChoice>, step: Step, rest: seq<Event>, t: State)
    requires Inv(s) && Enabled(s, step) && Possible(incoming, s, choices, Machine(step))
    requires CodedReaches(incoming, Apply(s, step), choices, rest, t)
    ensures CodedReaches(incoming, s, choices, [Machine(step)] + rest, t)
            && Steps([Machine(step)] + rest) == [step] + Steps(rest)
  {
    assert ([Machine(step)] + rest)[1..] == rest;
  }

  lemma CodedSelect(incoming: seq<Message>, s: State, c: OfferChoice, rest: seq<Event>, t: State)
    requires Inv(s) && Possible(incoming, s, [], SenderSelects(c)) && CodedReaches(incoming, s, [c], rest, t)
    ensures CodedReaches(incoming, s, [], [SenderSelects(c)] + rest, t)
            && Steps([SenderSelects(c)] + rest) == Steps(rest)
  {
    assert ([SenderSelects(c)] + rest)[1..] == rest && [] + [c] == [c] && [] + Steps(rest) == Steps(rest);
  }

  /** And every run of the machine is coded, for a sender whose loop has not returned while it still negotiates. */
  lemma {:induction false} RunsAreCoded(incoming: seq<Message>, s: State, choices: seq<OfferChoice>, steps: seq<Step>,
                                        t: State)
    returns (events: seq<Event>)
    requires Reaches(s, steps, t) && (s.sender.SenderNegotiates? ==> choices == [])
    ensures CodedReaches(incoming, s, choices, events, t) && Steps(events) == steps
    decreases |steps|
  {
    hide *;
    if steps == [] {
      events := [];
      NoEvents(incoming, s, choices, t);
    } else {
      var step := steps[0];
      var next := FirstOf(incoming, s, choices, steps, t);
      if step.SenderCommits? || step.SenderGivesUp? {
        var c := if step.SenderCommits? then OpenReturns(true) else OfferTimer;
        var rest := RunsAreCoded(incoming, next, [c], steps[1..], t);
        events := Decides(incoming, s, c, step, rest, t);
      } else {
        var rest := RunsAreCoded(incoming, next, choices, steps[1..], t);
        CodedStep(incoming, s, choices, step, rest, t);
        events := [Machine(step)] + rest;
      }
      assert [step] + steps[1..] == steps;
    }
  }

  lemma NoEvents(incoming: seq<Message>, s: State, choices: seq<OfferChoice>, t: State)
    requires Reaches(s, [], t)
    ensures CodedReaches(incoming, s, choices, [], t) && Steps([]) == []
  {
  }

  lemma FirstOf(incoming: seq<Message>, s: State, choices: seq<OfferChoice>, steps: seq<Step>, t: State)
    returns (next: State)
    requires Reaches(s, steps, t) && steps != [] && (s.sender.SenderNegotiates? ==> choices == [])
    ensures Inv(s) && Enabled(s, steps[0]) && next == Apply(s, steps[0]) && Reaches(next, steps[1..], t)
    ensures if steps[0].SenderCommits? || steps[0].SenderGivesUp? then choices == [] && !next.sender.SenderNegotiates?
            else Possible(incoming, s, choices, Machine(steps[0])) && (next.sender.SenderNegotiates? ==> choices == [])
  {
    StepKeepsInv(s, steps[0]);
    next := Apply(s, steps[0]);
  }

  /** A decision of the sender, with the branch of its loop that leads to it. */
  lemma Decides(incoming: seq<Message>, s: State, c: OfferChoice, step: Step, rest: seq<Event>, t: State)
    returns (events: seq<Event>)
    requires Inv(s) && Enabled(s, step)
    requires (step.SenderCommits? && c == OpenReturns(true)) || (step.SenderGivesUp? && c == OfferTimer)
    requires CodedReaches(incoming, Apply(s, step), [c], rest, t)
    ensures CodedReaches(incoming, s, [], events, t) && Steps(events) == [step] + Steps(rest)
  {
    assert Verdict(incoming, []) == None && Verdict(incoming, [c]) == Some(c == OpenReturns(true));
    CodedStep(incoming, s, [c], step, rest, t);
    CodedSelect(incoming, s, c, [Machine(step)] + rest, t);
    events := [SenderSelects(c)] + ([Machine(step)] + rest);
  }
}
