/** Resuming an interrupted transfer: what each end decides, and why the decisions fit together. */
module Resume {
  import opened Bytes
  import opened Names
  import opened Protocol
  import opened Receiving
  import opened Wire
  import opened Sessions

  /** The hex SHA-256 of a byte string, as far as the protocol can tell. */
  type Hash = seq<Byte> -> string

  // ---- The receiver looks for something to resume ----

  function PartialEntries(dir: Dir): set<string> {
    set n | n in dir && IsPartial(n)
  }

  /** The bytes of a partial file that are kept: whole chunks. */
  function Aligned(size: nat): (n: nat)
    ensures n <= size && size - n < CHUNK_SIZE && n % CHUNK_SIZE == 0
  {
    size / CHUNK_SIZE * CHUNK_SIZE
  }

  function TrimPart(name: string): string {
    if IsPartial(name) then name[..|name| - 5] else name
  }

  /** `q` is the one partial file. */
  ghost predicate OnlyPartial(dir: Dir, q: string) {
    q in dir && PartialEntries(dir) == {q}
  }

  function RequestFor(hash: Hash, dir: Dir, q: string): ResumeRequest
    requires q in dir
  {
    var n := Aligned(|dir[q]|);
    ResumeRequest(TrimPart(q), n, hash(dir[q][..n]))
  }

  function Truncated(dir: Dir, q: string): Dir
    requires q in dir
  {
    dir[q := dir[q][..Aligned(|dir[q]|)]]
  }

  /** What is asked for, and what is left on disk, if `q` is the one partial file. */
  function Found(hash: Hash, dir: Dir, q: string): Option<ResumeRequest>
    requires q in dir
  {
    if Aligned(|dir[q]|) > 0 then Some(RequestFor(hash, dir, q)) else None
  }

  function Left(dir: Dir, q: string): Dir
    requires q in dir
  {
    if Aligned(|dir[q]|) > 0 then Truncated(dir, q) else dir
  }

  /** The files of the destination directory, before a session. */
  class Destination {
    var dir: Dir

    method FindResumeCandidate(hash: Hash) returns (req: Option<ResumeRequest>)
      modifies this
      ensures forall q :: OnlyPartial(old(dir), q) ==> req == Found(hash, old(dir), q) && dir == Left(old(dir), q)
      ensures (forall q :: !OnlyPartial(old(dir), q)) ==> req == None && dir == old(dir)
    {
      var matches := PartialEntries(dir);
      if |matches| != 1 {
        assert forall q :: OnlyPartial(dir, q) ==> |PartialEntries(dir)| == 1;
        return None;
      }
      var partPath :| partPath in matches;
      OnlyMember(matches, partPath);
      assert OnlyPartial(dir, partPath);
      assert forall q :: OnlyPartial(dir, q) ==> q in PartialEntries(dir);
      var offset := |dir[partPath]| / CHUNK_SIZE * CHUNK_SIZE;
      if offset <= 0 {
        return None;
      }
      var kept := dir[partPath][..offset];
      dir := dir[partPath := kept];
      assert dir[partPath][..offset] == kept;
      var filename := TrimPart(partPath);
      return Some(ResumeRequest(filename, offset, hash(dir[partPath][..offset])));
    }
  }

  lemma OnlyMember(s: set<string>, q: string)
    requires q in s && |s| == 1
    ensures s == {q}
  {
    assert |s - {q}| == 0;
  }

  // ---- The sender decides ----

  /** streamFile's offset: the request's, if it is about this very file and the prefixes hash alike. */
  function ResumeOffset(hash: Hash, resume: Option<ResumeRequest>, name: string, content: seq<Byte>): (n: nat)
    ensures n <= |content| && n % CHUNK_SIZE == 0
  {
    match resume
    case None => 0
    case Some(req) =>
      if req.filename == name && req.offset > 0 && req.offset <= |content| && req.offset % CHUNK_SIZE == 0
         && hash(content[..req.offset]) == req.prefixHash
      then req.offset else 0
  }

  /**
   * When the sender resumes what the receiver asked for: exactly when the leftover is of this very file, no longer than
   * it in whole chunks, and begins like it as far as the hash can tell; and then from the end of those chunks.
   */
  lemma ResumesExactly(hash: Hash, dir: Dir, x: string, name: string, content: seq<Byte>)
    requires Part(x) in dir
    ensures var left := dir[Part(x)];
            var n := |left| - |left| % 65536;
            ResumeOffset(hash, Found(hash, dir, Part(x)), name, content)
              == if x == name && n <= |content| && hash(left[..n]) == hash(content[..n]) then n else 0
  {
    TrimOfPart(x);
  }

  /** What ConnectLive sends. */
  function Hello(resume: Option<ResumeRequest>): seq<Message> {
    (if resume.Some? then [ResumeMsg(resume)] else []) + [PeerJoin([PROTOCOL_VERSION])]
  }

  datatype Waited = Joined(resume: Option<ResumeRequest>) | BadRequest | WrongVersion | NoPeer

  /** WaitForPeer over the messages that arrive, with the request it already holds. */
  function AwaitPeer(inbox: seq<Message>, pending: Option<ResumeRequest>): Waited
    decreases |inbox|
  {
    if inbox == [] then NoPeer
    else match inbox[0]
      case ResumeMsg(request) => if request.None? then BadRequest else AwaitPeer(inbox[1..], request)
      case PeerJoin(payload) => if SpeaksVersion(payload) then Joined(pending) else WrongVersion
      case _ => AwaitPeer(inbox[1..], pending)
  }

  /** The last request among the messages, or else the one held before. */
  ghost predicate IsLastRequest(ms: seq<Message>, pending: Option<ResumeRequest>, last: Option<ResumeRequest>) {
    || (last == pending && forall m :: m in ms ==> !m.ResumeMsg?)
    || (exists i :: 0 <= i < |ms| && ms[i] == ResumeMsg(last) && forall j :: i < j < |ms| ==> !ms[j].ResumeMsg?)
  }

  /**
   * WaitForPeer ends at the first PeerJoin or malformed request: it fails on the latter and on a PeerJoin of any other
   * version than 4, and else holds the last request before it. Without either it fails with the connection.
   */
  lemma {:induction false} WaitsExactly(before: seq<Message>, payload: seq<Byte>, after: seq<Message>,
                                        pending: Option<ResumeRequest>)
    requires forall m :: m in before ==> !m.PeerJoin? && m != ResumeMsg(None)
    ensures AwaitPeer(before, pending) == NoPeer
    ensures AwaitPeer(before + [ResumeMsg(None)] + after, pending) == BadRequest
    ensures var r := AwaitPeer(before + [PeerJoin(payload)] + after, pending);
            if payload != [] && payload[0] == 4 then r.Joined? && IsLastRequest(before, pending, r.resume)
            else r == WrongVersion
    decreases |before|
  {
    if before == [] {
      assert ([] + [PeerJoin(payload)] + after)[0] == PeerJoin(payload);
      assert ([] + [ResumeMsg(None)] + after)[0] == ResumeMsg(None);
    } else {
      var m := before[0];
      var held := if m.ResumeMsg? then m.request else pending;
      assert m in before && forall x :: x in before[1..] ==> x in before;
      WaitsExactly(before[1..], payload, after, held);
      WaitTail(before, [PeerJoin(payload)], after);
      WaitTail(before, [ResumeMsg(None)], after);
      var r := AwaitPeer(before + [PeerJoin(payload)] + after, pending);
      if r.Joined? {
        LastOfTail(before, pending, held, r.resume);
      }
    }
  }

  lemma WaitTail(before: seq<Message>, one: seq<Message>, after: seq<Message>)
    requires before != []
    ensures (before + one + after)[0] == before[0] && (before + one + after)[1..] == before[1..] + one + after
  {
  }

  lemma LastOfTail(ms: seq<Message>, pending: Option<ResumeRequest>, held: Option<ResumeRequest>,
                   last: Option<ResumeRequest>)
    requires ms != [] && held == (if ms[0].ResumeMsg? then ms[0].request else pending)
    requires IsLastRequest(ms[1..], held, last)
    ensures IsLastRequest(ms, pending, last)
  {
    if last == held && forall m :: m in ms[1..] ==> !m.ResumeMsg? {
      if ms[0].ResumeMsg? {
        assert ms[0] == ResumeMsg(last) && forall j :: 0 < j < |ms| ==> ms[j] == ms[1..][j - 1];
      } else {
        assert forall m :: m in ms ==> m == ms[0] || m in ms[1..];
      }
    } else {
      var i :| 0 <= i < |ms| - 1 && ms[1..][i] == ResumeMsg(last)
               && forall j :: i < j < |ms| - 1 ==> !ms[1..][j].ResumeMsg?;
      assert ms[i + 1] == ResumeMsg(last) && forall j :: i + 1 < j < |ms| ==> ms[j] == ms[1..][j - 1];
    }
  }

  /** Whatever came before that WaitForPeer passes over, it ends up with what the receiver asked for. */
  lemma {:induction false} RequestArrives(before: seq<Message>, resume: Option<ResumeRequest>, after: seq<Message>)
    requires forall m :: m in before ==> !m.ResumeMsg? && !m.PeerJoin?
    ensures AwaitPeer(before + Hello(resume) + after, None) == Joined(resume)
    decreases |before|
  {
    var all := before + Hello(resume) + after;
    if before == [] {
      assert all[0] == Hello(resume)[0];
      if resume.Some? { assert all[1..][0] == PeerJoin([PROTOCOL_VERSION]); }
    } else {
      assert all[0] == before[0] && before[0] in before;
      assert all[1..] == before[1..] + Hello(resume) + after;
      assert forall m :: m in before[1..] ==> m in before;
      RequestArrives(before[1..], resume, after);
    }
  }

  // ---- Both together ----

  /** The sender's transmission of `content` under `name` when it was asked to resume with `req`. */
  ghost predicate IsTransmission(hash: Hash, req: Option<ResumeRequest>, tx: FileTx) {
    IsSafe(tx.name) && IsReading(tx) && tx.offset == ResumeOffset(hash, req, tx.name, tx.content)
  }

  /** Both ends take the same decision. */
  lemma SameDecision(hash: Hash, cfg: Config, tx: FileTx)
    requires IsTransmission(hash, cfg.resume, tx)
    ensures Resuming(cfg, Header(tx)) <==> tx.offset > 0
  {
  }

  lemma TrimOfPart(x: string)
    ensures IsPartial(Part(x)) && TrimPart(Part(x)) == x
  {
    assert Part(x)[|x|..] == PART && Part(x)[..|x|] == x;
  }

  lemma NoOtherPartial(dir: Dir, x: string, p: string)
    requires PartialEntries(dir) == {Part(x)} && p != x
    ensures Part(p) !in dir
  {
    TrimOfPart(x);
    TrimOfPart(p);
    assert Part(p) in dir ==> Part(p) in PartialEntries(dir);
  }

  /**
   * The outcome of a resumed transfer, for any leftover bytes under "x.part" and any file of the sender. If the sender
   * resumes while "x" itself exists, the receiver cannot find the partial file under the path it chose, and stops.
   * In every other case the file is received, and what is under its path is what the leftover began with followed by
   * the rest, or all of the file where the sender did not resume.
   */
  lemma ResumedTransfer(hash: Hash, cfg: Config, s: State, dir: Dir, x: string, tx: FileTx)
    requires OnlyPartial(dir, Part(x)) && cfg.resume == Found(hash, dir, Part(x))
    requires Accepting(s) && s.dir == Left(dir, Part(x)) && IsTransmission(hash, cfg.resume, tx)
    ensures tx.offset <= |dir[Part(x)]|
    ensures var t, p := Run(cfg, s, FileWire(tx)), Dest(s.dir, tx.name);
            if tx.offset > 0 && tx.name in dir then t.control == Stopped(Err(ReopenPartial)) && t.dir == s.dir
            else
              && t.control == Between && t.paths == s.paths + [p]
              && t.dir == Publish(s.dir, tx.name,
                                  (if tx.offset > 0 then dir[Part(x)][..tx.offset] else []) + tx.content[tx.offset..])
              && Part(p) !in t.dir
  {
    var q := Part(x);
    TrimOfPart(x);
    SameDecision(hash, cfg, tx);
    PartDiffers(Dest(s.dir, tx.name));
    if tx.offset == 0 {
      MetadataTaken(cfg, s, tx);
      RunFile(cfg, s, tx, []);
    } else if tx.name in dir {
      ResumeIntoTaken(cfg, s, dir, tx);
    } else {
      var base := dir[q][..tx.offset];
      assert tx.name == x && tx.name !in s.dir && s.dir[q] == base;
      assert WithPartial(s.dir, tx.name, base) == s.dir;
      RunFile(cfg, s, tx, base);
    }
  }

  lemma ResumeIntoTaken(cfg: Config, s: State, dir: Dir, tx: FileTx)
    requires PartialEntries(dir) == {Part(tx.name)} && tx.name in dir && s.dir.Keys == dir.Keys
    requires Accepting(s) && IsSafe(tx.name) && Resuming(cfg, Header(tx))
    ensures Run(cfg, s, FileWire(tx)) == Stop(s, ReopenPartial)
  {
    var p := Dest(s.dir, tx.name);
    UniquePathIsLeastFree(s.dir.Keys, tx.name);
    NoOtherPartial(dir, tx.name, p);
    assert Step(cfg, s, FileWire(tx)[0]) == Stop(s, ReopenPartial);
    RunStopped(cfg, Stop(s, ReopenPartial), FileWire(tx)[1..]);
  }

  /** The two aligned prefixes are different byte strings with the same hash. */
  ghost predicate Collide(hash: Hash, a: seq<Byte>, b: seq<Byte>) {
    a != b && hash(a) == hash(b)
  }

  /**
   * Resume is correct: whatever bytes the single leftover "X.part" holds, if X is free and the two prefixes do not
   * collide in the hash, the transfer ends with X byte-identical to the source and no "X.part", and nothing else
   * changed. `heard` is what the sender understood of the receiver's hello.
   */
  lemma ResumeIsCorrect(hash: Hash, cfg: Config, s: State, dir: Dir, heard: Option<ResumeRequest>, tx: FileTx)
    requires OnlyPartial(dir, Part(tx.name)) && cfg.resume == Found(hash, dir, Part(tx.name))
    requires AwaitPeer(Hello(cfg.resume), None) == Joined(heard) && IsTransmission(hash, heard, tx)
    requires Accepting(s) && s.dir == Left(dir, Part(tx.name))
    requires tx.name !in dir
    requires var n := Aligned(|dir[Part(tx.name)]|);
             n <= |tx.content| ==> !Collide(hash, dir[Part(tx.name)][..n], tx.content[..n])
    ensures var t := Run(cfg, s, FileWire(tx));
            && t.control == Between && t.paths == s.paths + [tx.name]
            && t.dir == (dir - {Part(tx.name)})[tx.name := tx.content]
  {
    RequestArrives([], cfg.resume, []);
    assert [] + Hello(cfg.resume) + [] == Hello(cfg.resume);
    TrimOfPart(tx.name);
    ResumedTransfer(hash, cfg, s, dir, tx.name, tx);
    assert Dest(s.dir, tx.name) == tx.name;
    assert (if tx.offset > 0 then dir[Part(tx.name)][..tx.offset] else []) == tx.content[..tx.offset];
    Rejoin(tx.content, tx.offset);
    assert s.dir - {Part(tx.name)} == dir - {Part(tx.name)};
  }

  lemma Rejoin(content: seq<Byte>, at: nat)
    requires at <= |content|
    ensures content[..at] + content[at..] == content
  {
  }

  /**
   * The exact condition, collisions included: a resumed transfer that completes leaves the right file exactly when
   * the leftover begins like the source.
   */
  lemma ResumedFileIsRightExactly(hash: Hash, cfg: Config, s: State, dir: Dir, tx: FileTx)
    requires OnlyPartial(dir, Part(tx.name)) && cfg.resume == Found(hash, dir, Part(tx.name))
    requires Accepting(s) && s.dir == Left(dir, Part(tx.name)) && IsTransmission(hash, cfg.resume, tx)
    requires tx.offset > 0 && tx.name !in dir
    ensures tx.offset <= |dir[Part(tx.name)]|
    ensures Run(cfg, s, FileWire(tx)).dir == Publish(s.dir, tx.name, tx.content)
       <==> dir[Part(tx.name)][..tx.offset] == tx.content[..tx.offset]
  {
    ResumedTransfer(hash, cfg, s, dir, tx.name, tx);
    var kept := dir[Part(tx.name)][..tx.offset];
    assert tx.content[..tx.offset] + tx.content[tx.offset..] == tx.content;
    assert (kept + tx.content[tx.offset..])[..tx.offset] == kept;
    var p := Dest(s.dir, tx.name);
    assert Publish(s.dir, tx.name, kept + tx.content[tx.offset..])[p] == kept + tx.content[tx.offset..];
    assert Publish(s.dir, tx.name, tx.content)[p] == tx.content;
  }

  /**
   * When a transmission can complete the file: exactly when it starts from the beginning, or the final name is free and
   * the leftover begins like the source.
   */
  ghost predicate Completes(dir: Dir, x: string, tx: FileTx)
    requires Part(x) in dir && tx.offset <= |dir[Part(x)]| && tx.offset <= |tx.content|
  {
    tx.offset > 0 ==> tx.name !in dir && dir[Part(x)][..tx.offset] == tx.content[..tx.offset]
  }

  lemma ArrivingMeans(hash: Hash, cfg: Config, dir: Dir, x: string, tx: FileTx)
    requires OnlyPartial(dir, Part(x)) && cfg.resume == Found(hash, dir, Part(x))
             && IsTransmission(hash, cfg.resume, tx)
    ensures tx.offset <= |dir[Part(x)]|
    ensures Arriving(cfg, Left(dir, Part(x)), tx) <==> Completes(dir, x, tx)
  {
    TrimOfPart(x);
    SameDecision(hash, cfg, tx);
  }

  /** And then, and only then, the run over its messages leaves the file, whole, under the path chosen for it. */
  lemma ArrivesExactly(hash: Hash, cfg: Config, s: State, dir: Dir, x: string, tx: FileTx)
    requires OnlyPartial(dir, Part(x)) && cfg.resume == Found(hash, dir, Part(x))
             && IsTransmission(hash, cfg.resume, tx)
    requires Accepting(s) && s.dir == Left(dir, Part(x))
    ensures tx.offset <= |dir[Part(x)]|
    ensures var t := Run(cfg, s, FileWire(tx));
            t.control == Between && t.dir == Publish(s.dir, tx.name, tx.content) <==> Completes(dir, x, tx)
  {
    ResumedTransfer(hash, cfg, s, dir, x, tx);
    var kept := if tx.offset > 0 then dir[Part(x)][..tx.offset] else [];
    Rejoin(tx.content, tx.offset);
    PublishTells(s.dir, tx.name, kept + tx.content[tx.offset..], tx.content);
    SamePrefix(kept, tx.content, tx.offset);
  }

  lemma PublishTells(d: Dir, name: string, a: seq<Byte>, b: seq<Byte>)
    ensures Publish(d, name, a) == Publish(d, name, b) <==> a == b
  {
    assert Publish(d, name, a)[Dest(d, name)] == a && Publish(d, name, b)[Dest(d, name)] == b;
  }

  lemma SamePrefix(kept: seq<Byte>, content: seq<Byte>, at: nat)
    requires at <= |content| && (|kept| == at || kept == [])
    ensures kept + content[at..] == content <==> |kept| == at && kept == content[..at]
  {
    Rejoin(content, at);
    if kept + content[at..] == content {
      assert |kept| == at;
      assert (kept + content[at..])[..at] == kept;
    }
  }

  /**
   * A sender that starts in the middle although that was not asked of it, or not from there, is taken at its word: the
   * receiver starts a new partial file, and what it saves under the name lacks the beginning.
   */
  lemma UnaskedResume(cfg: Config, s: State, tx: FileTx)
    requires Accepting(s) && IsSafe(tx.name) && IsReading(tx) && tx.offset > 0
    requires match cfg.resume case None => true case Some(req) => req.filename != tx.name || req.offset != tx.offset
    ensures var t := Run(cfg, s, FileWire(tx));
            && t.control == Between && t.paths == s.paths + [Dest(s.dir, tx.name)]
            && t.dir == Publish(s.dir, tx.name, tx.content[tx.offset..])
  {
    var p, w := Dest(s.dir, tx.name), FileWire(tx);
    var t := Step(cfg, s, w[0]);
    assert t == Opened(s, s.dir[Part(p) := []], p, |tx.content|, 0);
    assert w[1..] == Chunks(tx.chunks) + [Complete];
    RunAppend(cfg, t, Chunks(tx.chunks), [Complete]);
    RunChunks(cfg, t, p, |tx.content|, 0, tx.chunks);
    var u := AfterChunks(t, p, |tx.content|, 0, tx.chunks);
    RunOne(cfg, u, Complete);
    hide Run, UniquePath;
    FreshPartial(s.dir, p, tx.content[tx.offset..]);
    assert u.dir == s.dir[Part(p) := tx.content[tx.offset..]];
  }

  lemma FreshPartial(d: Dir, p: string, bytes: seq<Byte>)
    ensures d[Part(p) := []][Part(p) := [] + bytes] == d[Part(p) := bytes]
    ensures Renamed(d[Part(p) := bytes], p) == (d - {Part(p)})[p := bytes]
  {
    PartDiffers(p);
    assert [] + bytes == bytes;
  }

  // ---- Arithmetic and progress ----

  /**
   * The failure is reachable: "x" has come to exist beside its "x.part", a chunk long, and the sender has that chunk.
   */
  lemma TakenExample(hash: Hash, content: seq<Byte>, taken: seq<Byte>)
    requires |content| == CHUNK_SIZE
    ensures var dir: Dir := map["x" := taken, "x.part" := content];
            && OnlyPartial(dir, Part("x"))
            && var cfg := Config(false, Found(hash, dir, Part("x")), None, false);
               var tx := FileTx("x", content, CHUNK_SIZE, []);
               && IsTransmission(hash, cfg.resume, tx)
               && Run(cfg, Start(Left(dir, Part("x"))), FileWire(tx)).control == Stopped(Err(ReopenPartial))
  {
    var dir: Dir := map["x" := taken, "x.part" := content];
    assert Part("x") == "x.part" && IsPartial("x.part") && !IsPartial("x");
    assert PartialEntries(dir) == {Part("x")};
    var cfg := Config(false, Found(hash, dir, Part("x")), None, false);
    var tx := FileTx("x", content, CHUNK_SIZE, []);
    TrimOfPart("x");
    assert content[..CHUNK_SIZE] == content && content[CHUNK_SIZE..] == [];
    ResumedTransfer(hash, cfg, Start(Left(dir, Part("x"))), dir, "x", tx);
  }

  lemma {:induction false} FullReadsCount(chunks: seq<seq<Byte>>)
    requires forall i :: 0 <= i < |chunks| ==> 1 <= |chunks[i]| <= CHUNK_SIZE
    requires forall i :: 0 <= i < |chunks| - 1 ==> |chunks[i]| == CHUNK_SIZE
    ensures |chunks| == ChunkCount(|Flatten(chunks)|)
  {
    if |chunks| == 1 {
      assert chunks[1..] == [];
    } else if chunks != [] {
      FullReadsCount(chunks[1..]);
      assert Flatten(chunks[1..]) != [] by { assert |chunks[1..][0]| > 0; }
    }
  }

  /**
   * The accepted offset is a chunk boundary within the file, the wire carries exactly the rest whatever the read
   * sizes, and with full reads the number of chunks is the announced count less the chunks already there.
   */
  lemma ResumeArithmetic(hash: Hash, req: Option<ResumeRequest>, tx: FileTx)
    requires IsTransmission(hash, req, tx)
    ensures tx.offset % CHUNK_SIZE == 0 && tx.offset <= |tx.content|
    ensures |Flatten(tx.chunks)| == |tx.content| - tx.offset
    ensures (forall i :: 0 <= i < |tx.chunks| - 1 ==> |tx.chunks[i]| == CHUNK_SIZE)
            ==> |tx.chunks| == Header(tx).chunks - tx.offset / CHUNK_SIZE
  {
    if forall i :: 0 <= i < |tx.chunks| - 1 ==> |tx.chunks[i]| == CHUNK_SIZE {
      FullReadsCount(tx.chunks);
      var k := tx.offset / CHUNK_SIZE;
      assert tx.offset == CHUNK_SIZE * k;
      CountLess(|tx.content|, k);
    }
  }

  lemma CountLess(size: nat, k: nat)
    requires CHUNK_SIZE * k <= size
    ensures ChunkCount(size - CHUNK_SIZE * k) == ChunkCount(size) - k
  {
  }

  /** No call reports less than the one before. */
  ghost predicate Rising(p: seq<(nat, int, int)>, from: int) {
    p == [] || (from <= p[0].1 && Rising(p[1..], p[0].1))
  }

  lemma {:induction false} ChunkProgressRises(idx: nat, received: int, size: int, chunks: seq<seq<Byte>>)
    ensures var p := ChunkProgress(idx, received, size, chunks);
            && Rising(p, received)
            && (if p == [] then 0 == |Flatten(chunks)| else p[|p| - 1].1 == received + |Flatten(chunks)|)
    decreases |chunks|
  {
    if chunks != [] {
      var r := received + |chunks[0]|;
      ChunkProgressRises(idx, r, size, chunks[1..]);
      var p := ChunkProgress(idx, received, size, chunks);
      assert p[0] == (idx, r, size) && p[1..] == ChunkProgress(idx, r, size, chunks[1..]);
    }
  }

  /** The progress calls for one file. */
  function FileProgress(idx: nat, tx: FileTx): seq<(nat, int, int)> {
    [(idx, tx.offset as int, |tx.content| as int)] + ChunkProgress(idx, tx.offset, |tx.content|, tx.chunks)
  }

  /** A receiver's progress on a file that completes starts at the offset, never falls, and ends at the file's size. */
  lemma ProgressEndsAtSize(cfg: Config, s: State, tx: FileTx, base: seq<Byte>)
    requires IsReading(tx) && Step(cfg, s, MetadataMsg(Some(Header(tx)))) == Begun(s, tx, base)
    ensures var calls := FileProgress(|s.paths|, tx);
            && Run(cfg, s, FileWire(tx)).progress == s.progress + calls
            && Rising(calls, tx.offset)
            && calls[0].1 == tx.offset && calls[|calls| - 1].1 == |tx.content|
  {
    RunFile(cfg, s, tx, base);
    FileProgressOf(s, tx, base);
    ProgressOfFile(|s.paths|, tx);
  }

  lemma FileProgressOf(s: State, tx: FileTx, base: seq<Byte>)
    ensures Delivered(s, tx, base).progress == s.progress + FileProgress(|s.paths|, tx)
  {
    assert tx.chunks[..|tx.chunks|] == tx.chunks;
    var first := (|s.paths|, tx.offset as int, |tx.content| as int);
    var tail := ChunkProgress(|s.paths|, tx.offset, |tx.content|, tx.chunks);
    assert s.progress + [first] + tail == s.progress + ([first] + tail);
  }

  lemma ProgressOfFile(idx: nat, tx: FileTx)
    requires IsReading(tx)
    ensures var calls := FileProgress(idx, tx);
            Rising(calls, tx.offset) && calls[0].1 == tx.offset && calls[|calls| - 1].1 == |tx.content|
  {
    var tail := ChunkProgress(idx, tx.offset, |tx.content|, tx.chunks);
    ChunkProgressRises(idx, tx.offset, |tx.content|, tx.chunks);
    assert FileProgress(idx, tx)[1..] == tail;
    assert |Flatten(tx.chunks)| == |tx.content| - tx.offset;
  }
}
