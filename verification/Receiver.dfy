/** The receiver's loops (internal/transfer/receiver.go), each against the step function of Receiving. */
module Receivers {
  import opened Bytes
  import opened Names
  import opened Protocol
  import opened Receiving

  /** A read error, errSenderRestarted, or any other error. */
  datatype ReceiveError = Restarted | Failed(why: Failure)

  class Receiver {
    const cfg: Config
    /** What the session's readers yield, in order, and how the stream ends after that. */
    var inbox: seq<Message>
    const end: CloseKind

    var dir: Dir
    var reports: seq<seq<string>>
    var replies: nat
    var progress: seq<(nat, int, int)>

    constructor (cfg: Config, dir: Dir, inbox: seq<Message>, end: CloseKind)
      ensures this.cfg == cfg && this.dir == dir && this.inbox == inbox && this.end == end
      ensures reports == [] && replies == 0 && progress == []
    {
      this.cfg, this.dir, this.inbox, this.end := cfg, dir, inbox, end;
      reports, replies, progress := [], 0, [];
    }

    ghost function View(control: Control, paths: seq<string>): State
      reads this
    {
      State(dir, control, paths, reports, replies, progress)
    }

    /** Where the session ends if it goes on from `s` with the messages still to be read. */
    ghost function Prediction(s: State): State
      reads this
    {
      Outcome(cfg, s, inbox, end)
    }

    method ReadMessage() returns (r: Option<Message>)
      modifies this`inbox
      ensures if old(inbox) == [] then r == None && inbox == []
              else r == Some(old(inbox)[0]) && inbox == old(inbox)[1..]
    {
      if inbox == [] {
        return None;
      }
      r := Some(inbox[0]);
      inbox := inbox[1..];
    }

    method ReHandshake(payload: seq<Byte>) returns (ok: bool)
      modifies this`replies
      ensures ok == SpeaksVersion(payload)
      ensures replies == if ok then old(replies) + 1 else old(replies)
    {
      ok := SpeaksVersion(payload);
      if ok {
        replies := replies + 1;
      }
    }

    /** The closure's case for metadata: a free path is chosen, and its partial file opened or made. */
    method TakeMetadata(parsed: Option<Metadata>, frame: Frame, fileIdx: nat, ghost paths: seq<string>)
      returns (next: Frame, why: Option<Failure>)
      requires fileIdx == |paths|
      modifies this`dir, this`progress
      ensures ghost var after := OnMetadata(cfg, old(View(InFile(frame), paths)), parsed);
              after == if why.Some? then View(Stopped(Err(why.value)), paths) else View(InFile(next), paths)
    {
      if parsed.None? {
        return frame, Some(MalformedMetadata);
      }
      var meta := parsed.value;
      if !IsSafe(meta.filename) {
        return frame, Some(UnsafeName);
      }
      var destPath := FindUniquePath(dir.Keys, meta.filename);
      var partPath := destPath + PART;
      var resuming := meta.resumeOffset > 0 && cfg.resume.Some?
                      && cfg.resume.value.filename == meta.filename && cfg.resume.value.offset == meta.resumeOffset;
      if resuming {
        if partPath !in dir {
          return frame, Some(ReopenPartial);
        }
        next := Open(destPath, meta.size, meta.resumeOffset);
      } else {
        dir := dir - {partPath};
        dir := dir[partPath := []];
        next := Open(destPath, meta.size, 0);
        assert dir == old(dir)[partPath := []];
      }
      progress := progress + [(fileIdx, next.received, next.size)];
      why := None;
    }

    /** The closure in recvFile: one message against recvFile's variables. */
    method Handle(msg: Message, frame: Frame, fileIdx: nat, ghost paths: seq<string>)
      returns (next: Frame, done: Option<string>, err: Option<ReceiveError>)
      requires fileIdx == |paths|
      modifies this`dir, this`replies, this`progress
      ensures ghost var after := InFileStep(cfg, old(View(InFile(frame), paths)), frame, msg);
              match (done, err)
              case (_, Some(Failed(why))) => after == View(Stopped(Err(why)), paths)
              case (_, Some(Restarted)) => msg.Version? && after == Restart(cfg, View(Opening, paths))
              case (Some(path), None) => after == View(Between, paths + [path])
              case (None, None) => after == View(InFile(next), paths)
    {
      next, done, err := frame, None, None;
      match msg {
        case MetadataMsg(parsed) =>
          var why;
          next, why := TakeMetadata(parsed, frame, fileIdx, paths);
          if why.Some? {
            err := Some(Failed(why.value));
          }
        case Chunk(data) =>
          if frame.NoFile? {
            return frame, None, Some(Failed(ChunkBeforeMetadata));
          }
          dir := Append(dir, Part(frame.dest), data);
          next := Open(frame.dest, frame.size, frame.received + |data|);
          progress := progress + [(fileIdx, next.received, next.size)];
        case Complete =>
          if frame.NoFile? || Part(frame.dest) !in dir {
            return frame, None, Some(Failed(Finalize));
          }
          var bytes := dir[Part(frame.dest)];
          dir := dir - {Part(frame.dest)};
          dir := dir[frame.dest := bytes];
          done := Some(frame.dest);
        case Error =>
          err := Some(Failed(SenderError));
        case SessionEnd =>
          err := Some(Failed(SessionEndInFile));
        case Version(payload) =>
          if !frame.NoFile? {
            dir := dir - {Part(frame.dest)};
          }
          var ok := ReHandshake(payload);
          err := Some(if ok then Restarted else Failed(VersionMismatch));
        case _ =>
      }
    }

    /** The state a return of recvFile stands for. */
    ghost function AfterFile(r: Result<string, ReceiveError>, paths: seq<string>): State
      reads this
    {
      match r
      case Ok(path) => View(Between, paths + [path])
      case Err(Restarted) => Restart(cfg, View(Opening, paths))
      case Err(Failed(why)) => View(Stopped(Err(why)), paths)
    }

    method RecvFile(fileIdx: nat, primed: Option<Message>, ghost paths: seq<string>)
      returns (r: Result<string, ReceiveError>)
      requires fileIdx == |paths|
      requires primed.Some? ==> !primed.value.Version?
      modifies this`inbox, this`dir, this`replies, this`progress
      ensures old(Prediction(if primed.None? then View(InFile(NoFile), paths)
                             else InFileStep(cfg, View(InFile(NoFile), paths), NoFile, primed.value)))
              == Prediction(AfterFile(r, paths))
      ensures |inbox| <= |old(inbox)| && (r == Err(Restarted) ==> |inbox| < |old(inbox)|)
    {
      ghost var goal := Prediction(if primed.None? then View(InFile(NoFile), paths)
                                   else InFileStep(cfg, View(InFile(NoFile), paths), NoFile, primed.value));
      var frame := NoFile;
      if primed.Some? {
        var next, done, err := Handle(primed.value, frame, fileIdx, paths);
        if err.Some? {
          return Err(err.value);
        }
        if done.Some? {
          return Ok(done.value);
        }
        frame := next;
      }
      while true
        invariant |inbox| <= |old(inbox)|
        invariant reports == old(reports)
        invariant goal == Prediction(View(InFile(frame), paths))
        decreases |inbox|
      {
        var msg := ReadMessage();
        if msg.None? {
          return Err(Failed(Read));
        }
        var next, done, err := Handle(msg.value, frame, fileIdx, paths);
        RunStoppedFor(err, paths);
        if err.Some? {
          return Err(err.value);
        }
        if done.Some? {
          return Ok(done.value);
        }
        frame := next;
      }
    }

    lemma RunStoppedFor(err: Option<ReceiveError>, paths: seq<string>)
      ensures match err
              case Some(Failed(why)) =>
                Run(cfg, View(Stopped(Err(why)), paths), inbox) == View(Stopped(Err(why)), paths)
              case _ => true
    {
      if err.Some? && err.value.Failed? {
        RunStopped(cfg, View(Stopped(Err(err.value.why)), paths), inbox);
      }
    }

    /** The state a return of receiveBatch stands for. */
    ghost function AfterBatch(paths: seq<string>, open: bool, err: Option<ReceiveError>): State
      reads this
    {
      match err
      case Some(Restarted) => Restart(cfg, View(Opening, paths))
      case Some(Failed(why)) => View(Stopped(Err(why)), paths)
      case None =>
        if open then BatchEnd(cfg, View(Between, paths))
        else if paths == [] then View(Stopped(Ok(())), [])
        else Close(cfg, View(Between, paths), Clean)
    }

    /** The state a call of receiveBatch starts in. */
    ghost function BeforeBatch(primed: Option<Message>, allowIdle: bool): State
      reads this
    {
      if primed.Some? then InFileStep(cfg, View(InFile(NoFile), []), NoFile, primed.value)
      else if allowIdle then View(Idle, [])
      else View(InFile(NoFile), [])
    }

    /** The wait for the first message of a later batch. */
    method AwaitBatch() returns (primed: Option<Message>, over: bool, err: Option<ReceiveError>)
      modifies this`inbox, this`replies
      ensures ghost var goal := old(Prediction(View(Idle, [])));
              if primed.Some? then primed.value.MetadataMsg? && goal == Prediction(BeforeBatch(primed, true))
              else (over || err.Some?) && goal == Prediction(AfterBatch([], false, err))
      ensures |inbox| <= |old(inbox)| && (err == Some(Restarted) ==> |inbox| < |old(inbox)|)
    {
      var first := ReadMessage();
      if first.None? {
        return None, true, if end.Clean? then None else Some(Failed(Read));
      }
      primed, over, err := None, false, None;
      match first.value {
        case MetadataMsg(_) =>
          primed := first;
        case SessionEnd =>
          over := true;
          RunStopped(cfg, View(Stopped(Ok(())), []), inbox);
        case Version(payload) =>
          var ok := ReHandshake(payload);
          err := Some(if ok then Restarted else Failed(VersionMismatch));
          RunStoppedFor(err, []);
        case _ =>
          err := Some(Failed(UnexpectedIdle));
          RunStoppedFor(err, []);
      }
    }

    /** The read after a completed file. */
    method PeekAfterFile(paths: seq<string>)
      returns (primed: Option<Message>, open: bool, err: Option<ReceiveError>)
      requires paths != []
      modifies this`inbox, this`replies
      ensures ghost var goal := old(Prediction(View(Between, paths)));
              if primed.Some? then
                primed.value.MetadataMsg?
                && goal == Prediction(InFileStep(cfg, View(InFile(NoFile), paths), NoFile, primed.value))
              else goal == Prediction(AfterBatch(paths, open, err))
      ensures |inbox| <= |old(inbox)|
      ensures err == Some(Restarted) || open || primed.Some? ==> |inbox| < |old(inbox)|
      ensures primed.None? && err == None && !open ==> inbox == []
    {
      var msg := ReadMessage();
      if msg.None? {
        return None, false, if end.Clean? then None else Some(Failed(Read));
      }
      primed, open, err := None, false, None;
      match msg.value {
        case SessionEnd =>
          open := true;
        case MetadataMsg(_) =>
          primed := msg;
        case Version(payload) =>
          var ok := ReHandshake(payload);
          err := Some(if ok then Restarted else Failed(VersionMismatch));
          RunStoppedFor(err, paths);
        case _ =>
          err := Some(Failed(UnexpectedAfterFile));
          RunStoppedFor(err, paths);
      }
    }

    method ReceiveBatch(primed: Option<Message>, allowIdle: bool)
      returns (paths: seq<string>, open: bool, err: Option<ReceiveError>)
      requires primed.Some? ==> !primed.value.Version?
      modifies this`inbox, this`dir, this`replies, this`progress
      ensures old(Prediction(BeforeBatch(primed, allowIdle))) == Prediction(AfterBatch(paths, open, err))
      ensures |inbox| <= |old(inbox)|
      ensures err == Some(Restarted) || (err == None && open) ==> |inbox| < |old(inbox)|
      ensures open ==> paths != []
      ensures err == None && !open && paths != [] ==> inbox == []
    {
      ghost var goal := Prediction(BeforeBatch(primed, allowIdle));
      paths := [];
      var nextPrimed := primed;
      if nextPrimed.None? && allowIdle {
        var over;
        nextPrimed, over, err := AwaitBatch();
        if nextPrimed.None? {
          return [], false, err;
        }
      }
      while true
        invariant |inbox| <= |old(inbox)| && reports == old(reports)
        invariant nextPrimed.Some? ==> !nextPrimed.value.Version?
        invariant goal == Prediction(if nextPrimed.None? then View(InFile(NoFile), paths)
                                     else InFileStep(cfg, View(InFile(NoFile), paths), NoFile, nextPrimed.value))
        decreases |inbox|
      {
        var r := RecvFile(|paths|, nextPrimed, paths);
        if r.Err? {
          return paths, false, Some(r.error);
        }
        paths := paths + [r.value];
        nextPrimed, open, err := PeekAfterFile(paths);
        if nextPrimed.None? {
          return paths, open, err;
        }
      }
    }

    method OpenReceiveSession() returns (primed: Option<Message>, err: Option<Failure>)
      modifies this`inbox, this`replies
      ensures ghost var goal := old(Prediction(View(Opening, [])));
              match (err, primed)
              case (Some(why), _) => goal == View(Stopped(Err(why)), [])
              case (None, Some(m)) => !m.Version?
                && goal == Prediction(InFileStep(cfg, View(InFile(NoFile), []), NoFile, m))
              case (None, None) => goal == Prediction(Enter(cfg, View(Opening, [])))
      ensures |inbox| <= |old(inbox)|
    {
      ghost var goal := Prediction(View(Opening, []));
      primed, err := None, None;
      var first := ReadMessage();
      while first.Some? && first.value.Version?
        invariant |inbox| <= |old(inbox)| && dir == old(dir) && reports == old(reports) && progress == old(progress)
        invariant goal == if first.None? then Close(cfg, View(Opening, []), end)
                          else Prediction(Step(cfg, View(Opening, []), first.value))
        decreases |inbox|, first.Some?
      {
        var ok := ReHandshake(first.value.payload);
        if !ok {
          RunStoppedFor(Some(Failed(VersionMismatch)), []);
          return None, Some(VersionMismatch);
        }
        first := ReadMessage();
      }
      if first.None? {
        return None, Some(ReadFirst);
      }
      primed, err := FirstMessage(first.value);
    }

    /** The end of openReceiveSession: what the first message of a session that is no announce means. */
    method FirstMessage(first: Message) returns (primed: Option<Message>, err: Option<Failure>)
      requires !first.Version?
      ensures ghost var goal := Prediction(Step(cfg, View(Opening, []), first));
              match (err, primed)
              case (Some(why), _) => goal == View(Stopped(Err(why)), [])
              case (None, Some(m)) => !m.Version?
                && goal == Prediction(InFileStep(cfg, View(InFile(NoFile), []), NoFile, m))
              case (None, None) => goal == Prediction(Enter(cfg, View(Opening, [])))
    {
      primed, err := None, None;
      match first {
        case SDPOffer =>
          if cfg.negotiationFails {
            err := Some(Negotiation);
            RunStoppedFor(Some(Failed(Negotiation)), []);
          }
        case P2PFail =>
        case MetadataMsg(_) => primed := Some(first);
        case Chunk(_) => primed := Some(first);
        case Complete => primed := Some(first);
        case Error => primed := Some(first);
        case _ =>
          err := Some(UnexpectedFirst);
          RunStoppedFor(Some(Failed(UnexpectedFirst)), []);
      }
    }

    /** The callback of ReceiveBatches. */
    method OnBatch(paths: seq<string>) returns (ok: bool)
      modifies this`reports
      ensures reports == old(reports) + [paths]
      ensures ok == (cfg.rejectAt != Some(|old(reports)|))
    {
      ok := cfg.rejectAt != Some(|reports|);
      reports := reports + [paths];
    }

    /** A sender that announced itself again: what was completed is reported, and the session opened anew. */
    method Reopen(paths: seq<string>) returns (primed: Option<Message>, err: Option<Failure>)
      requires !cfg.single
      modifies this`inbox, this`reports, this`replies
      ensures ghost var goal := old(Prediction(AfterBatch(paths, false, Some(Restarted))));
              if err.Some? then goal == View(Stopped(Err(err.value)), [])
              else goal == Prediction(BeforeBatch(primed, |reports| > 0))
      ensures primed.Some? ==> !primed.value.Version?
      ensures |inbox| <= |old(inbox)|
    {
      if |paths| > 0 {
        var ok := OnBatch(paths);
        if !ok {
          RunStoppedFor(Some(Failed(CallbackFailed)), []);
          return None, Some(CallbackFailed);
        }
      }
      primed, err := OpenReceiveSession();
      if err.Some? {
        primed := None;
      }
    }

    /** The whole session: its result, and everything it left behind, are those of the step function. */
    method ReceiveBatches() returns (r: Result<(), Failure>, ghost pending: seq<string>)
      requires !cfg.single
      modifies this`inbox, this`dir, this`reports, this`replies, this`progress
      ensures old(Prediction(View(Opening, []))) == View(Stopped(r), pending)
    {
      ghost var goal := Prediction(View(Opening, []));
      var nextPrimed, err := OpenReceiveSession();
      if err.Some? {
        return Err(err.value), [];
      }
      var batchIdx := |reports|;
      while true
        invariant batchIdx == |reports|
        invariant nextPrimed.Some? ==> !nextPrimed.value.Version?
        invariant goal == Prediction(BeforeBatch(nextPrimed, batchIdx > 0))
        decreases |inbox|
      {
        var paths, open, rerr := ReceiveBatch(nextPrimed, batchIdx > 0);
        nextPrimed := None;
        if rerr == Some(Restarted) {
          nextPrimed, err := Reopen(paths);
          if err.Some? {
            return Err(err.value), [];
          }
        } else {
          var over;
          over, pending := Conclude(paths, open, rerr);
          if over.Some? {
            return over.value, pending;
          }
        }
        batchIdx := |reports|;
      }
    }

    /** What ReceiveBatches does with a batch that no restart ended: its result, unless the session goes on. */
    method Conclude(paths: seq<string>, open: bool, rerr: Option<ReceiveError>)
      returns (over: Option<Result<(), Failure>>, ghost pending: seq<string>)
      requires !cfg.single && rerr != Some(Restarted) && (open ==> paths != [])
      requires rerr == None && !open && paths != [] ==> inbox == []
      modifies this`reports
      ensures ghost var goal := old(Prediction(AfterBatch(paths, open, rerr)));
              if over.Some? then goal == View(Stopped(over.value), pending)
              else open && rerr == None && |reports| > 0 && goal == Prediction(BeforeBatch(None, true))
    {
      pending := [];
      if rerr.Some? {
        RunStoppedFor(rerr, paths);
        return Some(Err(rerr.value.why)), paths;
      }
      if |paths| == 0 {
        RunStopped(cfg, View(Stopped(Ok(())), []), inbox);
        return Some(Ok(())), [];
      }
      var ok := OnBatch(paths);
      if !ok {
        RunStoppedFor(Some(Failed(CallbackFailed)), []);
        return Some(Err(CallbackFailed)), [];
      }
      over := if open then None else Some(Ok(()));
    }

    method ReceiveFiles() returns (paths: seq<string>, r: Result<(), Failure>)
      requires cfg.single
      modifies this`inbox, this`dir, this`reports, this`replies, this`progress
      ensures old(Prediction(View(Opening, []))) == View(Stopped(r), paths)
    {
      ghost var goal := Prediction(View(Opening, []));
      var primed, err := OpenReceiveSession();
      if err.Some? {
        return [], Err(err.value);
      }
      while true
        invariant primed.Some? ==> !primed.value.Version?
        invariant goal == Prediction(BeforeBatch(primed, false))
        decreases |inbox|
      {
        var open, rerr;
        paths, open, rerr := ReceiveBatch(primed, false);
        if rerr != Some(Restarted) {
          RunStoppedFor(rerr, paths);
          RunStopped(cfg, View(Stopped(Ok(())), paths), inbox);
          return paths, if rerr.Some? then Err(rerr.value.why) else Ok(());
        }
        primed, err := OpenReceiveSession();
        if err.Some? {
          return [], Err(err.value);
        }
      }
    }
  }
}
