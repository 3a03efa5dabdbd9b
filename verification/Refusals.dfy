/** What a receive session refuses, wherever it stands, and that a refusal is the end of it. */
module Refusals {
  import opened Bytes
  import opened Names
  import opened Protocol
  import opened Receiving
  import opened Sessions

  /** The directory without the partial file of the file being received, if there is one. */
  function Abandoned(s: State): Dir {
    match s.control
    case InFile(Open(dest, _, _)) => s.dir - {dest + ".part"}
    case _ => s.dir
  }

  /** The session has ended with failure `f` in state `t`; of what it did up to `s`, only the directory has changed. */
  ghost predicate EndsWith(s: State, t: State, f: Failure, dir: Dir) {
    && t.control == Stopped(Err(f)) && t.dir == dir
    && t.paths == s.paths && t.reports == s.reports && t.replies == s.replies && t.progress == s.progress
  }

  /** Whatever is still to come after a message that stops the session, nothing comes of it. */
  lemma StoppedForGood(cfg: Config, s: State, before: seq<Message>, m: Message, after: seq<Message>, end: CloseKind)
    requires Step(cfg, Run(cfg, s, before), m).control.Stopped?
    ensures Outcome(cfg, s, before + [m] + after, end) == Step(cfg, Run(cfg, s, before), m)
  {
    RunAppend(cfg, s, before + [m], after);
    RunAppend(cfg, s, before, [m]);
    RunOne(cfg, Run(cfg, s, before), m);
    RunStopped(cfg, Step(cfg, Run(cfg, s, before), m), after);
  }

  // ---- Versions ----

  /**
   * An announce of any other version than 4, or of none, ends the session wherever it comes: it is not answered,
   * nothing more is reported or published, and the file being received is thrown away.
   */
  lemma WrongVersionEnds(cfg: Config, dir: Dir, before: seq<Message>, payload: seq<Byte>, after: seq<Message>,
                         end: CloseKind)
    requires payload == [] || payload[0] != 4
    requires !Run(cfg, Start(dir), before).control.Stopped?
    ensures var s := Run(cfg, Start(dir), before);
            EndsWith(s, Outcome(cfg, Start(dir), before + [Version(payload)] + after, end),
                     VersionMismatch, Abandoned(s))
  {
    StoppedForGood(cfg, Start(dir), before, Version(payload), after, end);
  }

  /** As the very first message it leaves everything as it was. */
  lemma WrongVersionAtStart(cfg: Config, dir: Dir, payload: seq<Byte>, after: seq<Message>, end: CloseKind)
    requires payload == [] || payload[0] != 4
    ensures Outcome(cfg, Start(dir), [Version(payload)] + after, end) == Stop(Start(dir), VersionMismatch)
  {
    StoppedForGood(cfg, Start(dir), [], Version(payload), after, end);
    assert [] + [Version(payload)] + after == [Version(payload)] + after;
  }

  /** Exactly the announces of version 4 are answered, with one Ready each; nothing else ever is. */
  lemma AnsweredExactly(cfg: Config, s: State, m: Message)
    requires !s.control.Stopped?
    ensures Step(cfg, s, m).replies
         == s.replies + if m.Version? && m.payload != [] && m.payload[0] == 4 then 1 else 0
  {
  }

  // ---- Messages out of place ----

  /** What is wrong with a message for a file, where no file has begun. */
  function Misplaced(m: Message): Option<Failure> {
    match m
    case MetadataMsg(None) => Some(MalformedMetadata)
    case MetadataMsg(Some(meta)) => if IsSafe(meta.filename) then None else Some(UnsafeName)
    case Chunk(_) => Some(ChunkBeforeMetadata)
    case Complete => Some(Finalize)
    case Error => Some(SenderError)
    case SessionEnd => Some(SessionEndInFile)
    case _ => None
  }

  /** Where a file is awaited, a message that cannot begin one ends the session, and nothing has changed. */
  lemma MisplacedEnds(cfg: Config, s: State, before: seq<Message>, m: Message, after: seq<Message>, end: CloseKind)
    requires Run(cfg, s, before).control == InFile(NoFile) && Misplaced(m).Some?
    ensures var t := Run(cfg, s, before);
            EndsWith(t, Outcome(cfg, s, before + [m] + after, end), Misplaced(m).value, t.dir)
  {
    StoppedForGood(cfg, s, before, m, after, end);
  }

  /** What ends a session inside a file; what has been received of the file stays. */
  lemma BrokenFileEnds(cfg: Config, s: State, before: seq<Message>, m: Message, after: seq<Message>, end: CloseKind)
    requires Run(cfg, s, before).control.InFile? && (m.Error? || m.SessionEnd?)
    ensures var t := Run(cfg, s, before);
            EndsWith(t, Outcome(cfg, s, before + [m] + after, end),
                     if m.Error? then SenderError else SessionEndInFile, t.dir)
  {
    StoppedForGood(cfg, s, before, m, after, end);
  }

  /** An Error message ends every session; it is the sender's where a message of a file may come. */
  lemma ErrorEnds(cfg: Config, s: State, before: seq<Message>, after: seq<Message>, end: CloseKind)
    requires !Run(cfg, s, before).control.Stopped?
    ensures var t := Run(cfg, s, before);
            var why := if t.control == Between then UnexpectedAfterFile
                       else if t.control == Idle then UnexpectedIdle
                       else SenderError;
            EndsWith(t, Outcome(cfg, s, before + [Error] + after, end), why, t.dir)
  {
    StoppedForGood(cfg, s, before, Error, after, end);
  }

  /** An offer is the end exactly if its negotiation fails, and then nothing has changed. */
  lemma FailedNegotiationEnds(cfg: Config, s: State, before: seq<Message>, after: seq<Message>, end: CloseKind)
    requires Run(cfg, s, before).control == Opening
    ensures var t := Run(cfg, s, before);
            if cfg.negotiationFails
            then EndsWith(t, Outcome(cfg, s, before + [SDPOffer] + after, end), Negotiation, t.dir)
            else Step(cfg, t, SDPOffer) == Step(cfg, t, P2PFail) && !Step(cfg, t, SDPOffer).control.Stopped?
  {
    if cfg.negotiationFails {
      StoppedForGood(cfg, s, before, SDPOffer, after, end);
    }
  }

  /** A session that is opened again may end before another file comes exactly if a batch was reported before. */
  lemma MayIdleExactly(cfg: Config, s: State)
    requires !cfg.single && s.control == Opening
    ensures Outcome(cfg, s, [P2PFail], Clean).control
         == (if s.reports == [] then Stopped(Err(Read)) else Stopped(Ok(())))
    ensures Outcome(cfg, s, [P2PFail, SessionEnd], Clean).control
         == (if s.reports == [] then Stopped(Err(SessionEndInFile)) else Stopped(Ok(())))
  {
    RunOne(cfg, s, P2PFail);
    assert [P2PFail, SessionEnd][1..] == [SessionEnd];
    RunOne(cfg, Step(cfg, s, P2PFail), SessionEnd);
  }

  /** A session that its stream leaves unfinished ends well exactly if that is clean, and between files. */
  lemma EndsWellExactly(cfg: Config, s: State, ms: seq<Message>, end: CloseKind)
    requires !Run(cfg, s, ms).control.Stopped?
    ensures var t := Run(cfg, s, ms);
            Outcome(cfg, s, ms, end).control == Stopped(Ok(()))
            <==> end == Clean && (t.control == Idle
                                  || (t.control == Between && (cfg.single || cfg.rejectAt != Some(|t.reports|))))
  {
  }

  // ---- The callback ----

  /** The same session with a callback that never refuses. */
  function Willing(cfg: Config): Config {
    cfg.(rejectAt := None)
  }

  function Refused(s: State): State {
    s.(control := Stopped(Err(CallbackFailed)))
  }

  /** `u` is what comes of the step to `t` if the callback refuses its call number `n`. */
  ghost predicate RefusesAt(n: nat, t: State, u: State) {
    |t.reports| <= n + 1 && u == if |t.reports| <= n then t else Refused(t)
  }

  lemma VersionRefuses(cfg: Config, s: State, payload: seq<Byte>)
    requires cfg.rejectAt.Some? && |s.reports| <= cfg.rejectAt.value
    ensures RefusesAt(cfg.rejectAt.value, OnVersion(Willing(cfg), s, payload), OnVersion(cfg, s, payload))
  {
  }

  lemma InFileRefuses(cfg: Config, s: State, f: Frame, m: Message)
    requires cfg.rejectAt.Some? && |s.reports| <= cfg.rejectAt.value
    ensures RefusesAt(cfg.rejectAt.value, InFileStep(Willing(cfg), s, f, m), InFileStep(cfg, s, f, m))
  {
    if m.Version? {
      VersionRefuses(cfg, if f.NoFile? then s else s.(dir := s.dir - {Part(f.dest)}), m.payload);
    }
  }

  lemma StepRefuses(cfg: Config, s: State, m: Message)
    requires cfg.rejectAt.Some? && |s.reports| <= cfg.rejectAt.value
    ensures RefusesAt(cfg.rejectAt.value, Step(Willing(cfg), s, m), Step(cfg, s, m))
  {
    hide InFileStep;
    InFileRefuses(cfg, s, if s.control.InFile? then s.control.frame else NoFile, m);
    if m.Version? {
      VersionRefuses(cfg, s, m.payload);
    }
  }

  /**
   * A callback that refuses its call number n changes nothing up to that call, and the call is the end: `j` messages
   * in, if the session gets that far, it has made n + 1 calls and stops there with everything it has.
   */
  lemma {:induction false} RefusedCallbackEnds(cfg: Config, s: State, ms: seq<Message>) returns (j: nat)
    requires cfg.rejectAt.Some? && |s.reports| <= cfg.rejectAt.value
    ensures j <= |ms|
    ensures var n, u := cfg.rejectAt.value, Run(Willing(cfg), s, ms[..j]);
            if |u.reports| <= n then j == |ms| && Run(cfg, s, ms) == u
            else
              && |u.reports| == n + 1 && Run(cfg, s, ms) == Refused(u)
              && j > 0 && |Run(Willing(cfg), s, ms[..j - 1]).reports| == n
    decreases |ms|
  {
    if ms == [] {
      j := 0;
    } else {
      StepRefuses(cfg, s, ms[0]);
      var t := Step(Willing(cfg), s, ms[0]);
      if |t.reports| <= cfg.rejectAt.value {
        var i := RefusedCallbackEnds(cfg, t, ms[1..]);
        j := i + 1;
        FirstThen(Willing(cfg), s, ms, i);
        if i > 0 { FirstThen(Willing(cfg), s, ms, i - 1); }
      } else {
        j := 1;
        assert ms[..1] == [ms[0]] && ms[..0] == [];
        RunOne(Willing(cfg), s, ms[0]);
        RunStopped(cfg, Refused(t), ms[1..]);
      }
    }
  }

  lemma FirstThen(cfg: Config, s: State, ms: seq<Message>, i: nat)
    requires ms != [] && i < |ms|
    ensures Run(cfg, s, ms[..i + 1]) == Run(cfg, Step(cfg, s, ms[0]), ms[1..][..i])
  {
    assert ms[..i + 1][0] == ms[0] && ms[..i + 1][1..] == ms[1..][..i];
  }

  /** Nor is it called again, whatever comes: at most n + 1 calls, and with the last of them the session has failed. */
  lemma NoCallAfterRefusal(cfg: Config, dir: Dir, ms: seq<Message>, end: CloseKind)
    requires cfg.rejectAt.Some?
    ensures var t := Outcome(cfg, Start(dir), ms, end);
            && |t.reports| <= cfg.rejectAt.value + 1
            && (|t.reports| == cfg.rejectAt.value + 1 <==> t.control == Stopped(Err(CallbackFailed)))
  {
    OnlyRefusalStops(Willing(cfg), Start(dir), ms);
    var j := RefusedCallbackEnds(cfg, Start(dir), ms);
    OnlyRefusalStops(Willing(cfg), Start(dir), ms[..j]);
  }

  lemma {:induction false} OnlyRefusalStops(cfg: Config, s: State, ms: seq<Message>)
    requires cfg.rejectAt == None && s.control != Stopped(Err(CallbackFailed))
    ensures Run(cfg, s, ms).control != Stopped(Err(CallbackFailed))
    decreases |ms|
  {
    if ms != [] {
      OnlyRefusalStops(cfg, Step(cfg, s, ms[0]), ms[1..]);
    }
  }
}
