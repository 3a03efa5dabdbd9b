/**
 * What a receive session does with each message, as one step function. The nested loops of the receiver
 * (Receiver.dfy) are proved to follow it.
 */
module Receiving {
  import opened Bytes
  import opened Names
  import opened Protocol

  /** The destination directory: the bytes under each name. */
  type Dir = map<string, seq<Byte>>

  /** How a stream of messages ends: isSessionEndReadErr holds of the read error, or not. */
  datatype CloseKind = Clean | Broken

  datatype Failure =
    | ReadFirst | UnexpectedFirst | Negotiation
    | Read | MalformedMetadata | UnsafeName | ReopenPartial | ChunkBeforeMetadata | Finalize | SenderError
    | SessionEndInFile | VersionMismatch | UnexpectedAfterFile | UnexpectedIdle | CallbackFailed

  /** recvFile's `file`, `destPath` and `bytesReceived`. */
  datatype Frame = NoFile | Open(dest: string, size: int, received: int)

  /** Which read of the session code is waiting. */
  datatype Control =
    | Opening
    | InFile(frame: Frame)
    | Between
    | Idle
    | Stopped(result: Result<(), Failure>)

  /**
   * What does not change during a session. `single` is ReceiveFiles, otherwise ReceiveBatches; the batch
   * callback returns an error at its call number `rejectAt`.
   */
  datatype Config = Config(single: bool, resume: Option<ResumeRequest>, rejectAt: Option<nat>, negotiationFails: bool)

  /**
   * `paths`: files of the batch being received. `reports`: what onBatch was called with. `replies`: Ready
   * messages sent. `progress`: (file index, received, total) of each progress call.
   */
  datatype State = State(dir: Dir, control: Control, paths: seq<string>, reports: seq<seq<string>>, replies: nat,
                         progress: seq<(nat, int, int)>)

  function Part(dest: string): string {
    dest + PART
  }

  function Stop(s: State, f: Failure): State {
    s.(control := Stopped(Err(f)))
  }

  // ---- recvFile ----

  predicate Resuming(cfg: Config, meta: Metadata) {
    && meta.resumeOffset > 0
    && cfg.resume.Some?
    && cfg.resume.value.filename == meta.filename
    && cfg.resume.value.offset == meta.resumeOffset
  }

  function Opened(s: State, dir: Dir, dest: string, size: int, received: int): State {
    s.(dir := dir, control := InFile(Open(dest, size, received)),
       progress := s.progress + [(|s.paths|, received, size)])
  }

  function OnMetadata(cfg: Config, s: State, parsed: Option<Metadata>): State {
    match parsed
    case None => Stop(s, MalformedMetadata)
    case Some(meta) =>
      if !IsSafe(meta.filename) then Stop(s, UnsafeName)
      else
        var dest := UniquePath(s.dir.Keys, meta.filename);
        if !Resuming(cfg, meta) then Opened(s, s.dir[Part(dest) := []], dest, meta.size, 0)
        else if Part(dest) in s.dir then Opened(s, s.dir, dest, meta.size, meta.resumeOffset)
        else Stop(s, ReopenPartial)
  }

  /** A write to the open file; it is visible under the name the file was opened by, if that still exists. */
  function Append(dir: Dir, name: string, data: seq<Byte>): Dir {
    if name in dir then dir[name := dir[name] + data] else dir
  }

  function OnChunk(s: State, f: Frame, data: seq<Byte>): State {
    match f
    case NoFile => Stop(s, ChunkBeforeMetadata)
    case Open(dest, size, received) =>
      s.(dir := Append(s.dir, Part(dest), data),
         control := InFile(Open(dest, size, received + |data|)),
         progress := s.progress + [(|s.paths|, received + |data|, size)])
  }

  function Renamed(dir: Dir, dest: string): Dir
    requires Part(dest) in dir
  {
    (dir - {Part(dest)})[dest := dir[Part(dest)]]
  }

  function OnComplete(s: State, f: Frame): State {
    if f.NoFile? || Part(f.dest) !in s.dir then Stop(s, Finalize)
    else s.(dir := Renamed(s.dir, f.dest), control := Between, paths := s.paths + [f.dest])
  }

  /** A version announce inside a file: the partial file goes, and the session re-opens if the versions match. */
  function OnVersionInFile(cfg: Config, s: State, f: Frame, payload: seq<Byte>): State {
    OnVersion(cfg, if f.NoFile? then s else s.(dir := s.dir - {Part(f.dest)}), payload)
  }

  function InFileStep(cfg: Config, s: State, f: Frame, m: Message): State {
    match m
    case MetadataMsg(parsed) => OnMetadata(cfg, s, parsed)
    case Chunk(data) => OnChunk(s, f, data)
    case Complete => OnComplete(s, f)
    case Error => Stop(s, SenderError)
    case SessionEnd => Stop(s, SessionEndInFile)
    case Version(payload) => OnVersionInFile(cfg, s, f, payload)
    case _ => s
  }

  // ---- The loops around recvFile ----

  /** reHandshake, and what its error or errSenderRestarted leads to. */
  function OnVersion(cfg: Config, s: State, payload: seq<Byte>): State {
    if SpeaksVersion(payload) then Restart(cfg, s.(replies := s.replies + 1)) else Stop(s, VersionMismatch)
  }

  /** onBatch with the files of the current batch. */
  function Report(cfg: Config, s: State, next: Control): State {
    s.(reports := s.reports + [s.paths], paths := [],
       control := if cfg.rejectAt == Some(|s.reports|) then Stopped(Err(CallbackFailed)) else next)
  }

  /** ReceiveBatches reports what it has; ReceiveFiles starts over. */
  function Restart(cfg: Config, s: State): State {
    if cfg.single || s.paths == [] then s.(paths := [], control := Opening) else Report(cfg, s, Opening)
  }

  function BatchEnd(cfg: Config, s: State): State {
    if cfg.single then s.(control := Stopped(Ok(()))) else Report(cfg, s, Idle)
  }

  /** A transport is chosen: the next batch starts, and may idle if one was reported before. */
  function Enter(cfg: Config, s: State): State {
    s.(control := if !cfg.single && |s.reports| > 0 then Idle else InFile(NoFile))
  }

  function OpeningStep(cfg: Config, s: State, m: Message): State {
    match m
    case Version(payload) =>
      if SpeaksVersion(payload) then s.(replies := s.replies + 1) else Stop(s, VersionMismatch)
    case SDPOffer => if cfg.negotiationFails then Stop(s, Negotiation) else Enter(cfg, s)
    case P2PFail => Enter(cfg, s)
    case MetadataMsg(_) => InFileStep(cfg, s, NoFile, m)
    case Chunk(_) => InFileStep(cfg, s, NoFile, m)
    case Complete => InFileStep(cfg, s, NoFile, m)
    case Error => InFileStep(cfg, s, NoFile, m)
    case _ => Stop(s, UnexpectedFirst)
  }

  function BetweenStep(cfg: Config, s: State, m: Message): State {
    match m
    case SessionEnd => BatchEnd(cfg, s)
    case MetadataMsg(_) => InFileStep(cfg, s, NoFile, m)
    case Version(payload) => OnVersion(cfg, s, payload)
    case _ => Stop(s, UnexpectedAfterFile)
  }

  function IdleStep(cfg: Config, s: State, m: Message): State {
    match m
    case SessionEnd => s.(control := Stopped(Ok(())))
    case MetadataMsg(_) => InFileStep(cfg, s, NoFile, m)
    case Version(payload) => OnVersion(cfg, s, payload)
    case _ => Stop(s, UnexpectedIdle)
  }

  function Step(cfg: Config, s: State, m: Message): State {
    match s.control
    case Opening => OpeningStep(cfg, s, m)
    case InFile(f) => InFileStep(cfg, s, f, m)
    case Between => BetweenStep(cfg, s, m)
    case Idle => IdleStep(cfg, s, m)
    case Stopped(_) => s
  }

  /** The stream ends. */
  function Close(cfg: Config, s: State, end: CloseKind): State {
    match s.control
    case Opening => Stop(s, ReadFirst)
    case InFile(_) => Stop(s, Read)
    case Between =>
      if end.Broken? then Stop(s, Read)
      else if cfg.single then s.(control := Stopped(Ok(())))
      else Report(cfg, s, Stopped(Ok(())))
    case Idle => if end.Broken? then Stop(s, Read) else s.(control := Stopped(Ok(())))
    case Stopped(_) => s
  }

  function Run(cfg: Config, s: State, ms: seq<Message>): State
    decreases |ms|
  {
    if ms == [] then s else Run(cfg, Step(cfg, s, ms[0]), ms[1..])
  }

  /** The whole rest of a session. */
  function Outcome(cfg: Config, s: State, ms: seq<Message>, end: CloseKind): State {
    Close(cfg, Run(cfg, s, ms), end)
  }

  function Start(dir: Dir): State {
    State(dir, Opening, [], [], 0, [])
  }

  lemma {:induction false} RunAppend(cfg: Config, s: State, a: seq<Message>, b: seq<Message>)
    ensures Run(cfg, s, a + b) == Run(cfg, Run(cfg, s, a), b)
    decreases |a|
  {
    if a == [] {
      assert a + b == b;
    } else {
      assert (a + b)[0] == a[0] && (a + b)[1..] == a[1..] + b;
      RunAppend(cfg, Step(cfg, s, a[0]), a[1..], b);
    }
  }

  lemma RunOne(cfg: Config, s: State, m: Message)
    ensures Run(cfg, s, [m]) == Step(cfg, s, m)
  {
    assert [m][1..] == [];
  }

  lemma {:induction false} RunStopped(cfg: Config, s: State, ms: seq<Message>)
    requires s.control.Stopped?
    ensures Run(cfg, s, ms) == s
  {
    if ms != [] { RunStopped(cfg, s, ms[1..]); }
  }
}
