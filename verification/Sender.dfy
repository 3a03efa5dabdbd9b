/**
 * The sender (internal/transfer/sender.go): what it has put on which channel after each call, also when writes fail.
 */
module Senders {
  import opened Bytes
  import opened Names
  import opened Protocol
  import opened Receiving
  import opened Wire
  import opened Sessions
  import opened SessionTheorems
  import opened Resume

  datatype Transport = TransportIdle | TransportP2P | TransportWS

  /** A file to send: its base name and its bytes. */
  datatype LocalFile = LocalFile(name: string, content: seq<Byte>)

  datatype SendError = NoFiles | PeerClosed | SignalFailed | StreamFailed | EndFailed

  /** How a negotiation went: what it wrote to the relay, and whether the data channel opened. */
  datatype Negotiated = Negotiated(signals: seq<Message>, isOpen: bool)

  /** What a sender writes while it negotiates. */
  ghost predicate AllSignals(ms: seq<Message>) {
    forall m :: m in ms ==> IsSignal(m) && !m.SDPAnswer?
  }

  ghost predicate Transmits(hash: Hash, resume: Option<ResumeRequest>, file: LocalFile, tx: FileTx) {
    && tx.name == file.name && tx.content == file.content
    && tx.offset == ResumeOffset(hash, resume, file.name, file.content)
    && IsReading(tx)
  }

  /** One byte per chunk: some reading of bytes that were never read. */
  function Singles(rest: seq<Byte>): seq<seq<Byte>> {
    if rest == [] then [] else [[rest[0]]] + Singles(rest[1..])
  }

  lemma {:induction false} SinglesRead(rest: seq<Byte>)
    ensures Flatten(Singles(rest)) == rest && forall c :: c in Singles(rest) ==> |c| == 1
  {
    if rest != [] { SinglesRead(rest[1..]); }
  }

  /** A file's wire after its metadata. */
  function Body(tx: FileTx): (w: seq<Message>)
    ensures |w| == |tx.chunks| + 1
  {
    ChunksLength(tx.chunks);
    Chunks(tx.chunks) + [Complete]
  }

  lemma HeadThenBody(tx: FileTx, k: nat)
    requires k <= |Body(tx)|
    ensures FileWire(tx)[..k + 1] == [MetadataMsg(Some(Header(tx)))] + Body(tx)[..k]
  {
    assert FileWire(tx) == [MetadataMsg(Some(Header(tx)))] + Body(tx);
  }

  lemma HeaderOf(file: LocalFile, offset: nat, tx: FileTx)
    requires tx.name == file.name && tx.content == file.content && tx.offset == offset
    ensures var total := (|file.content| + CHUNK_SIZE - 1) / CHUNK_SIZE;
            Metadata(file.name, |file.content|, total, offset) == Header(tx)
  {
  }

  lemma WholeTransmission(base: seq<Message>, tx: FileTx, k: nat)
    requires k <= |Body(tx)|
    ensures base + [MetadataMsg(Some(Header(tx)))] + Body(tx)[..k] == base + FileWire(tx)[..k + 1]
    ensures |FileWire(tx)| == |Body(tx)| + 1
  {
    HeadThenBody(tx, k);
    Assoc(base, [MetadataMsg(Some(Header(tx)))], Body(tx)[..k]);
  }

  lemma WholeProgress(calls: seq<(nat, int, int)>, idx: nat, tx: FileTx)
    ensures var first := if tx.offset > 0 then calls + [(idx, tx.offset as int, |tx.content| as int)] else calls;
            first + ChunkProgress(idx, tx.offset, |tx.content|, tx.chunks) == calls + SentProgress(idx, tx)
  {
  }

  /** `chunks` are reads of `content` from `offset` up to `to`. */
  ghost predicate IsReadUpTo(content: seq<Byte>, offset: nat, to: nat, chunks: seq<seq<Byte>>) {
    && offset <= to <= |content|
    && Flatten(chunks) == content[offset..to]
    && forall c :: c in chunks ==> 1 <= |c| <= CHUNK_SIZE
  }

  /** A transmission that a loop which has sent `chunks`, up to `to`, is in the middle of. */
  lemma AnyRest(file: LocalFile, offset: nat, to: nat, chunks: seq<seq<Byte>>) returns (tx: FileTx)
    requires IsReadUpTo(file.content, offset, to, chunks)
    ensures tx.name == file.name && tx.content == file.content && tx.offset == offset && IsReading(tx)
    ensures |chunks| < |Body(tx)| && Body(tx)[..|chunks|] == Chunks(chunks)
    ensures to == |file.content| ==> tx.chunks == chunks
  {
    var rest := file.content[to..];
    tx := FileTx(file.name, file.content, offset, chunks + Singles(rest));
    ReadTheRest(file.content, offset, to, chunks);
    ChunksPrefix(tx.chunks, |chunks|);
    PrefixOfSum(chunks, Singles(rest));
    if to == |file.content| { assert Singles(rest) == [] && chunks + [] == chunks; }
  }

  lemma ReadTheRest(content: seq<Byte>, offset: nat, to: nat, chunks: seq<seq<Byte>>)
    requires IsReadUpTo(content, offset, to, chunks)
    ensures IsReadUpTo(content, offset, |content|, chunks + Singles(content[to..]))
  {
    SinglesRead(content[to..]);
    FlattenAppend(chunks, Singles(content[to..]));
    FromTo(content, offset, to);
    var all := chunks + Singles(content[to..]);
    forall c | c in all
      ensures 1 <= |c| <= CHUNK_SIZE
    {
      assert c in chunks || c in Singles(content[to..]);
    }
  }

  lemma FromTo(content: seq<Byte>, from: nat, to: nat)
    requires from <= to <= |content|
    ensures content[from..to] + content[to..] == content[from..|content|]
  {
  }

  lemma BodyDone(base: seq<Message>, tx: FileTx)
    ensures base + Chunks(tx.chunks) + [Complete] == base + Body(tx)[..|tx.chunks| + 1] && |Body(tx)| == |tx.chunks| + 1
  {
    ChunksPrefix(tx.chunks, |tx.chunks|);
    assert tx.chunks[..|tx.chunks|] == tx.chunks;
    assert Body(tx)[..|tx.chunks| + 1] == Body(tx);
  }

  lemma PrefixOfSum(a: seq<seq<Byte>>, b: seq<seq<Byte>>)
    ensures (a + b)[..|a|] == a
  {
  }

  lemma NothingSent(file: LocalFile, offset: nat, base: seq<Message>) returns (tx: FileTx)
    requires offset <= |file.content|
    ensures tx.name == file.name && tx.content == file.content && tx.offset == offset && IsReading(tx)
    ensures |FileWire(tx)| > 0 && base + FileWire(tx)[..0] == base
  {
    tx := AnyRest(file, offset, offset, []);
    assert FileWire(tx)[..0] == [];
  }

  lemma OneMoreRead(content: seq<Byte>, offset: nat, from: nat, to: nat, chunks: seq<seq<Byte>>)
    requires IsReadUpTo(content, offset, from, chunks) && from < to <= |content| && to - from <= CHUNK_SIZE
    ensures IsReadUpTo(content, offset, to, chunks + [content[from..to]])
  {
    var one := [content[from..to]];
    assert one[1..] == [] && Flatten(one) == content[from..to];
    FlattenAppend(chunks, one);
    assert content[offset..from] + content[from..to] == content[offset..to];
  }

  lemma OneMoreMessage(chunks: seq<seq<Byte>>, data: seq<Byte>, base: seq<Message>)
    ensures base + Chunks(chunks) + [Chunk(data)] == base + Chunks(chunks + [data])
  {
    assert [data][1..] == [];
    ChunksAppend(chunks, [data]);
    Assoc(base, Chunks(chunks), [Chunk(data)]);
  }

  lemma OneMoreCall(chunks: seq<seq<Byte>>, data: seq<Byte>, offset: nat, size: nat, idx: nat,
                    calls: seq<(nat, int, int)>)
    ensures calls + ChunkProgress(idx, offset, size, chunks) + [(idx, offset + |Flatten(chunks)| + |data|, size as int)]
         == calls + ChunkProgress(idx, offset, size, chunks + [data])
  {
    assert [data][1..] == [];
    ChunkProgressAppend(idx, offset, size, chunks, [data]);
    Assoc(calls, ChunkProgress(idx, offset, size, chunks), [(idx, offset + |Flatten(chunks)| + |data|, size as int)]);
  }

  lemma {:induction false} ChunkProgressAppend(idx: nat, received: int, size: int, a: seq<seq<Byte>>, b: seq<seq<Byte>>)
    ensures ChunkProgress(idx, received, size, a + b)
         == ChunkProgress(idx, received, size, a) + ChunkProgress(idx, received + |Flatten(a)|, size, b)
    decreases |a|
  {
    if a == [] {
      assert a + b == b;
    } else {
      assert (a + b)[0] == a[0] && (a + b)[1..] == a[1..] + b;
      ChunkProgressAppend(idx, received + |a[0]|, size, a[1..], b);
    }
  }

  /** The progress calls of streamFile. */
  function SentProgress(idx: nat, tx: FileTx): seq<(nat, int, int)> {
    (if tx.offset > 0 then [(idx, tx.offset as int, |tx.content| as int)] else [])
    + ChunkProgress(idx, tx.offset, |tx.content|, tx.chunks)
  }

  /** The progress calls of SendBatch's loop: each file under its index. */
  function BatchProgress(txs: seq<FileTx>): seq<(nat, int, int)> {
    if txs == [] then []
    else BatchProgress(txs[..|txs| - 1]) + SentProgress(|txs| - 1, txs[|txs| - 1])
  }

  lemma BatchProgressSnoc(txs: seq<FileTx>, tx: FileTx, calls: seq<(nat, int, int)>)
    ensures calls + BatchProgress(txs + [tx]) == calls + BatchProgress(txs) + SentProgress(|txs|, tx)
  {
    assert (txs + [tx])[..|txs|] == txs;
    Assoc(calls, BatchProgress(txs), SentProgress(|txs|, tx));
  }

  /** The sender's progress never falls and, unless the file is empty, ends at its size. */
  lemma SentProgressEndsAtSize(idx: nat, tx: FileTx)
    requires IsReading(tx)
    ensures var calls := SentProgress(idx, tx);
            && Rising(calls, tx.offset)
            && (tx.content != [] ==> calls != [] && calls[|calls| - 1].1 == |tx.content|)
  {
    var tail := ChunkProgress(idx, tx.offset, |tx.content|, tx.chunks);
    ChunkProgressRises(idx, tx.offset, |tx.content|, tx.chunks);
    assert |Flatten(tx.chunks)| == |tx.content| - tx.offset;
    if tx.offset > 0 {
      assert SentProgress(idx, tx)[1..] == tail;
    } else {
      assert SentProgress(idx, tx) == tail;
    }
  }

  /** A channel to write to, the relay or the data channel: what was written, and how many more writes succeed. */
  class Link {
    var sent: seq<Message>
    var budget: nat

    constructor (budget: nat)
      ensures sent == [] && this.budget == budget
    {
      sent, this.budget := [], budget;
    }

    method Write(m: Message) returns (ok: bool)
      modifies this
      ensures ok == (old(budget) > 0)
      ensures sent == if ok then old(sent) + [m] else old(sent)
    {
      ok := budget > 0;
      if ok {
        budget := budget - 1;
        sent := sent + [m];
      }
    }
  }

  class Sender {
    const hash: Hash
    const disk: map<string, LocalFile>
    const ws: Link
    const peer: Link
    var transport: Transport
    var peerUp: bool
    var pendingResume: Option<ResumeRequest>
    var progress: seq<(nat, int, int)>

    constructor (hash: Hash, disk: map<string, LocalFile>, ws: Link, peer: Link)
      ensures this.hash == hash && this.disk == disk && this.ws == ws && this.peer == peer
      ensures transport == TransportIdle && !peerUp && pendingResume == None && progress == []
    {
      this.hash, this.disk, this.ws, this.peer := hash, disk, ws, peer;
      transport, peerUp, pendingResume, progress := TransportIdle, false, None, [];
    }

    /** WaitForPeer, on the messages that arrive. */
    method WaitForPeer(inbox: seq<Message>) returns (r: Waited)
      modifies this`pendingResume
      ensures r == AwaitPeer(inbox, old(pendingResume))
      ensures r.Joined? ==> pendingResume == r.resume
    {
      for i := 0 to |inbox|
        invariant AwaitPeer(inbox[i..], pendingResume) == AwaitPeer(inbox, old(pendingResume))
      {
        assert inbox[i..][0] == inbox[i] && inbox[i..][1..] == inbox[i + 1..];
        match inbox[i] {
          case ResumeMsg(request) =>
            if request.None? {
              return BadRequest;
            }
            pendingResume := request;
          case PeerJoin(payload) =>
            if !SpeaksVersion(payload) {
              return WrongVersion;
            }
            return Joined(pendingResume);
          case _ =>
        }
      }
      return NoPeer;
    }

    /** streamFile. Whether or not it gets through, what is on the wire is a prefix of a transmission of the file. */
    method StreamFile(link: Link, path: string, idx: nat) returns (ok: bool, ghost tx: FileTx, ghost sent: nat)
      modifies link, this`pendingResume, this`progress
      ensures pendingResume == None
      ensures path !in disk ==> !ok && link.sent == old(link.sent)
      ensures path in disk ==>
                && Transmits(hash, old(pendingResume), disk[path], tx)
                && sent <= |FileWire(tx)| && (ok <==> sent == |FileWire(tx)|)
                && link.sent == old(link.sent) + FileWire(tx)[..sent]
                && (ok ==> progress == old(progress) + SentProgress(idx, tx))
    {
      var resume := pendingResume;
      pendingResume := None;
      tx, sent := FileTx("", [], 0, []), 0;
      if path !in disk {
        return false, tx, 0;
      }
      var offset := AcceptResume(resume, disk[path]);
      ok, tx, sent := StreamFrom(link, disk[path], offset, idx);
    }

    /** streamFile from the metadata on. */
    method StreamFrom(link: Link, file: LocalFile, offset: nat, idx: nat)
      returns (ok: bool, ghost tx: FileTx, ghost sent: nat)
      requires offset <= |file.content|
      modifies link, this`progress
      ensures tx.name == file.name && tx.content == file.content && tx.offset == offset && IsReading(tx)
      ensures sent <= |FileWire(tx)| && (ok <==> sent == |FileWire(tx)|)
      ensures link.sent == old(link.sent) + FileWire(tx)[..sent]
      ensures ok ==> progress == old(progress) + SentProgress(idx, tx)
    {
      hide FileWire, Body, Header, ChunkCount, IsReading, ChunkProgress, SentProgress;
      ghost var base, calls := link.sent, progress;
      var total := (|file.content| + CHUNK_SIZE - 1) / CHUNK_SIZE;
      var head := MetadataMsg(Some(Metadata(file.name, |file.content|, total, offset)));
      ok := link.Write(head);
      if !ok {
        tx := NothingSent(file, offset, base);
        sent := 0;
        return;
      }
      if offset > 0 {
        progress := progress + [(idx, offset, |file.content|)];
      }
      ok, tx, sent := StreamBody(link, file, offset, idx);
      HeaderOf(file, offset, tx);
      WholeTransmission(base, tx, sent);
      WholeProgress(calls, idx, tx);
      sent := sent + 1;
    }

    /** The resume decision of streamFile. */
    method AcceptResume(resume: Option<ResumeRequest>, file: LocalFile) returns (offset: nat)
      ensures offset == ResumeOffset(hash, resume, file.name, file.content)
    {
      offset := 0;
      if resume.Some? && resume.value.filename == file.name && resume.value.offset > 0
         && resume.value.offset <= |file.content| && resume.value.offset % CHUNK_SIZE == 0 {
        if hash(file.content[..resume.value.offset]) == resume.value.prefixHash {
          offset := resume.value.offset;
        }
      }
    }

    /** streamFile after its metadata: the loop and the final write. */
    method StreamBody(link: Link, file: LocalFile, offset: nat, idx: nat)
      returns (ok: bool, ghost tx: FileTx, ghost sent: nat)
      requires offset <= |file.content|
      modifies link, this`progress
      ensures tx.name == file.name && tx.content == file.content && tx.offset == offset && IsReading(tx)
      ensures sent <= |Body(tx)| && (ok <==> sent == |Body(tx)|)
      ensures link.sent == old(link.sent) + Body(tx)[..sent]
      ensures ok ==> progress == old(progress) + ChunkProgress(idx, offset, |file.content|, tx.chunks)
    {
      ghost var chunks, to;
      ghost var before := link.sent;
      ok, chunks, to := StreamChunks(link, file.content, offset, idx);
      tx := AnyRest(file, offset, to, chunks);
      sent := |chunks|;
      if ok {
        ok := link.Write(Complete);
        if ok {
          BodyDone(before, tx);
          sent := sent + 1;
        }
      }
    }

    /** streamFile's loop. */
    method StreamChunks(link: Link, content: seq<Byte>, offset: nat, idx: nat)
      returns (ok: bool, ghost chunks: seq<seq<Byte>>, ghost to: nat)
      requires offset <= |content|
      modifies link, this`progress
      ensures IsReadUpTo(content, offset, to, chunks) && (ok ==> to == |content|)
      ensures link.sent == old(link.sent) + Chunks(chunks)
      ensures progress == old(progress) + ChunkProgress(idx, offset, |content|, chunks)
    {
      var bytesSent, size := offset, |content|;
      chunks := [];
      assert progress + [] == progress && link.sent + [] == link.sent && content[offset..offset] == [];
      while true
        invariant IsReadUpTo(content, offset, bytesSent, chunks)
        invariant link.sent == old(link.sent) + Chunks(chunks)
        invariant progress == old(progress) + ChunkProgress(idx, offset, size, chunks)
        decreases size - bytesSent
      {
        var n, failed := ReadSome(size - bytesSent);
        if n > 0 {
          ghost var before := chunks;
          ok, chunks := SendChunk(link, content, offset, bytesSent, n, idx, chunks, old(link.sent), old(progress));
          if !ok {
            return false, before, bytesSent;
          }
          bytesSent := bytesSent + n;
        }
        if failed {
          return false, chunks, bytesSent;
        }
        if n == 0 {
          return true, chunks, size;
        }
      }
    }

    /** A chunk that was read goes out, and is reported. */
    method SendChunk(link: Link, content: seq<Byte>, offset: nat, bytesSent: nat, n: nat, idx: nat,
                     ghost chunks: seq<seq<Byte>>, ghost base: seq<Message>, ghost calls: seq<(nat, int, int)>)
      returns (ok: bool, ghost chunks': seq<seq<Byte>>)
      requires 0 < n <= CHUNK_SIZE && bytesSent + n <= |content| && IsReadUpTo(content, offset, bytesSent, chunks)
      requires link.sent == base + Chunks(chunks) && progress == calls + ChunkProgress(idx, offset, |content|, chunks)
      modifies link, this`progress
      ensures chunks' == if ok then chunks + [content[bytesSent..bytesSent + n]] else chunks
      ensures IsReadUpTo(content, offset, if ok then bytesSent + n else bytesSent, chunks')
      ensures link.sent == base + Chunks(chunks') && progress == calls + ChunkProgress(idx, offset, |content|, chunks')
    {
      hide Chunks, ChunkProgress, Flatten;
      chunks' := chunks;
      var data := content[bytesSent..bytesSent + n];
      ok := link.Write(Chunk(data));
      if !ok {
        return;
      }
      OneMoreRead(content, offset, bytesSent, bytesSent + n, chunks);
      OneMoreMessage(chunks, data, base);
      OneMoreCall(chunks, data, offset, |content|, idx, calls);
      chunks' := chunks + [data];
      progress := progress + [(idx, bytesSent + n, |content|)];
    }

    /**
     * A read into the buffer, with `left` bytes to the end of the file: it may be short, it may fail, also after some
     * bytes.
     */
    static method ReadSome(left: nat) returns (n: nat, failed: bool)
      ensures n <= left && n <= CHUNK_SIZE
      ensures n == 0 ==> failed || left == 0
    {
      failed := *;
      n := *;
      if n > left { n := left; }
      if n > CHUNK_SIZE { n := CHUNK_SIZE; }
      if n == 0 && left > 0 && !failed { n := 1; }
    }

    /** What the sender tells the receiver of how a negotiation went, if it can. */
    static function Announced(outcome: Negotiated, budget: nat): (said: seq<Message>)
      ensures budget == 0 ==> said == []
      ensures budget > 0 ==> said == if outcome.isOpen then [P2PReady] else [P2PFail]
    {
      if budget == 0 then [] else if outcome.isOpen then [P2PReady] else [P2PFail]
    }

    /** negotiateOrReuse: which channel to send on. */
    method NegotiateOrReuse(outcome: Negotiated) returns (r: Result<bool, SendError>, ghost pre: seq<Message>)
      requires AllSignals(outcome.signals)
      modifies ws, this`transport, this`peerUp
      ensures ws.sent == old(ws.sent) + pre && AllSignals(pre)
      ensures old(transport) != TransportIdle ==> pre == [] && transport == old(transport)
      ensures old(transport) == TransportP2P ==> r == if old(peerUp) then Ok(true) else Err(PeerClosed)
      ensures old(transport) == TransportWS ==> r == Ok(false)
      ensures old(transport) == TransportIdle ==>
                && pre == outcome.signals + Announced(outcome, old(ws.budget))
                && r == (if !outcome.isOpen then Ok(false)
                         else if old(ws.budget) > 0 then Ok(true)
                         else Err(SignalFailed))
                && (r.Err? ==> transport == TransportIdle && peerUp == old(peerUp))
      ensures r.Ok? ==> transport == (if r.value then TransportP2P else TransportWS) && (r.value ==> peerUp)
    {
      pre := [];
      match transport {
        case TransportP2P =>
          if !peerUp {
            return Err(PeerClosed), pre;
          }
          return Ok(true), pre;
        case TransportWS =>
          return Ok(false), pre;
        case TransportIdle =>
          ws.sent := ws.sent + outcome.signals;
          pre := outcome.signals;
          var signal := if outcome.isOpen then P2PReady else P2PFail;
          var ok := ws.Write(signal);
          if ok {
            pre := pre + [signal];
          }
          if outcome.isOpen {
            if !ok {
              return Err(SignalFailed), pre;
            }
            transport, peerUp := TransportP2P, true;
            return Ok(true), pre;
          }
          transport := TransportWS;
          return Ok(false), pre;
      }
    }

    ghost predicate BatchOf(txs: seq<FileTx>, paths: seq<string>, resume: Option<ResumeRequest>) {
      && |txs| <= |paths|
      && forall i :: 0 <= i < |txs| ==>
           paths[i] in disk && Transmits(hash, if i == 0 then resume else None, disk[paths[i]], txs[i])
    }

    lemma BatchSnoc(txs: seq<FileTx>, tx: FileTx, paths: seq<string>, resume: Option<ResumeRequest>)
      requires BatchOf(txs, paths, resume) && |txs| < |paths| && paths[|txs|] in disk
      requires Transmits(hash, if txs == [] then resume else None, disk[paths[|txs|]], tx)
      ensures BatchOf(txs + [tx], paths, resume)
    {
    }

    /**
     * SendBatch. On success the whole batch and its SessionEnd are on the chosen channel; on an error, a proper prefix
     * of a batch of the first files. Only the first file can be resumed. A failed data channel is given up.
     */
    method SendBatch(paths: seq<string>, outcome: Negotiated)
      returns (err: Option<SendError>, ghost pre: seq<Message>, ghost onPeer: bool, ghost txs: seq<FileTx>,
               ghost sent: nat)
      requires ws != peer && AllSignals(outcome.signals)
      modifies this, ws, peer
      ensures AllSignals(pre) && (old(transport) != TransportIdle ==> pre == [])
      ensures old(transport) == TransportIdle && paths != [] ==>
                && pre == outcome.signals + Announced(outcome, old(ws.budget))
                && onPeer == outcome.isOpen
                && (outcome.isOpen && old(ws.budget) == 0 ==> err == Some(SignalFailed) && transport == TransportIdle)
      ensures old(transport) != TransportIdle && paths != [] ==> onPeer == (old(transport) == TransportP2P)
      ensures err == Some(NoFiles) <==> paths == []
      ensures err == Some(PeerClosed) <==> paths != [] && old(transport) == TransportP2P && !old(peerUp)
      ensures BatchOf(txs, paths, old(pendingResume)) && sent <= |ItemsWire(Batch(txs))|
      ensures peer.sent == if onPeer then old(peer.sent) + ItemsWire(Batch(txs))[..sent] else old(peer.sent)
      ensures ws.sent == if onPeer then old(ws.sent) + pre else old(ws.sent) + pre + ItemsWire(Batch(txs))[..sent]
      ensures err == None ==> paths != [] && |txs| == |paths| && sent == |ItemsWire(Batch(txs))|
      ensures pendingResume == if err == None || err == Some(StreamFailed) || err == Some(EndFailed) then None
                               else old(pendingResume)
      ensures err == None || err == Some(EndFailed) ==>
                |txs| == |paths| && progress == old(progress) + BatchProgress(txs)
      ensures err == None ==> transport == (if onPeer then TransportP2P else TransportWS) && (onPeer ==> peerUp)
      ensures err.Some? ==> sent < |ItemsWire(Batch(txs))|
      ensures err == Some(StreamFailed) || err == Some(EndFailed)
              ==> transport == (if onPeer then TransportIdle else TransportWS) && (onPeer ==> !peerUp)
    {
      pre, onPeer, txs, sent := [], true, [], 0;
      CutBeforeEnd([]);
      assert ItemsWire(Batch([]))[..0] == [];
      assert ws.sent + [] == ws.sent && peer.sent + [] == peer.sent;
      ghost var idle, open := transport == TransportIdle, outcome.isOpen;
      if |paths| == 0 {
        return Some(NoFiles), pre, onPeer, txs, sent;
      }
      var chosen;
      chosen, pre := NegotiateOrReuse(outcome);
      if chosen.Err? {
        return Some(chosen.error), pre, onPeer, txs, sent;
      }
      assert idle ==> chosen.value == open;
      var toPeer := chosen.value;
      onPeer := toPeer;
      err, txs, sent := SendItems(if toPeer then peer else ws, paths);
      if err.Some? && toPeer {
        peerUp, transport := false, TransportIdle;
      }
    }

    /** The files of a batch and its SessionEnd, on the chosen channel. */
    method SendItems(link: Link, paths: seq<string>)
      returns (err: Option<SendError>, ghost txs: seq<FileTx>, ghost sent: nat)
      modifies link, this`pendingResume, this`progress
      ensures BatchOf(txs, paths, old(pendingResume)) && sent <= |ItemsWire(Batch(txs))|
      ensures link.sent == old(link.sent) + ItemsWire(Batch(txs))[..sent]
      ensures err == None ==> |txs| == |paths| && sent == |ItemsWire(Batch(txs))|
      ensures err.Some? ==> sent < |ItemsWire(Batch(txs))| && (err == Some(StreamFailed) || err == Some(EndFailed))
      ensures paths != [] ==> pendingResume == None
      ensures err == None || err == Some(EndFailed) ==>
                |txs| == |paths| && progress == old(progress) + BatchProgress(txs)
    {
      txs, sent := [], 0;
      ghost var base := link.sent;
      NoFilesYet(base, progress);
      hide ItemsWire, Files, Batch, BatchProgress, Transmits;
      for i := 0 to |paths|
        invariant |txs| == i && BatchOf(txs, paths, old(pendingResume))
        invariant pendingResume == if i == 0 then old(pendingResume) else None
        invariant link.sent == base + ItemsWire(Files(txs)) && progress == old(progress) + BatchProgress(txs)
      {
        var ok;
        ok, txs, sent := SendOne(link, paths, i, base, txs, old(pendingResume), old(progress));
        if !ok {
          return Some(StreamFailed), txs, sent;
        }
      }
      var ok := link.Write(SessionEnd);
      CutBeforeEnd(txs);
      sent := |ItemsWire(Files(txs))|;
      if !ok {
        return Some(EndFailed), txs, sent;
      }
      Assoc(base, ItemsWire(Files(txs)), [SessionEnd]);
      sent := sent + 1;
      assert ItemsWire(Batch(txs))[..sent] == ItemsWire(Batch(txs));
      return None, txs, sent;
    }

    /** The body of SendBatch's loop. */
    method SendOne(link: Link, paths: seq<string>, i: nat, ghost base: seq<Message>, ghost before: seq<FileTx>,
                   ghost resume: Option<ResumeRequest>, ghost calls: seq<(nat, int, int)>)
      returns (ok: bool, ghost txs: seq<FileTx>, ghost sent: nat)
      requires i < |paths| && |before| == i && BatchOf(before, paths, resume)
      requires pendingResume == if i == 0 then resume else None
      requires link.sent == base + ItemsWire(Files(before)) && progress == calls + BatchProgress(before)
      modifies link, this`pendingResume, this`progress
      ensures BatchOf(txs, paths, resume) && pendingResume == None
      ensures ok ==> |txs| == i + 1 && link.sent == base + ItemsWire(Files(txs))
      ensures ok ==> progress == calls + BatchProgress(txs)
      ensures !ok ==> sent < |ItemsWire(Batch(txs))| && link.sent == base + ItemsWire(Batch(txs))[..sent]
    {
      ghost var tx, part;
      ok, tx, part := StreamFile(link, paths[i], i);
      if paths[i] in disk {
        txs, sent := JoinSent(base, before, tx, part);
        BatchSnoc(before, tx, paths, resume);
        BatchProgressSnoc(before, tx, calls);
      } else {
        CutBeforeEnd(before);
        txs, sent := before, |ItemsWire(Files(before))|;
      }
    }

    /** SendFiles: one batch, after which a data channel is given up. */
    method SendFiles(paths: seq<string>, outcome: Negotiated)
      returns (err: Option<SendError>, ghost pre: seq<Message>, ghost onPeer: bool, ghost txs: seq<FileTx>,
               ghost sent: nat)
      requires ws != peer && AllSignals(outcome.signals)
      modifies this, ws, peer
      ensures AllSignals(pre) && (old(transport) != TransportIdle ==> pre == [])
      ensures old(transport) == TransportIdle && paths != [] ==>
                pre == outcome.signals + Announced(outcome, old(ws.budget)) && onPeer == outcome.isOpen
      ensures BatchOf(txs, paths, old(pendingResume)) && sent <= |ItemsWire(Batch(txs))|
      ensures peer.sent == if onPeer then old(peer.sent) + ItemsWire(Batch(txs))[..sent] else old(peer.sent)
      ensures ws.sent == if onPeer then old(ws.sent) + pre else old(ws.sent) + pre + ItemsWire(Batch(txs))[..sent]
      ensures err == None ==> |txs| == |paths| && sent == |ItemsWire(Batch(txs))|
      ensures err == None ==> !peerUp && transport == if onPeer then TransportIdle else TransportWS
    {
      err, pre, onPeer, txs, sent := SendBatch(paths, outcome);
      if err == None {
        CloseTransport();
      }
    }

    /** CloseTransport: a negotiated data channel is given up, the relay path stays. */
    method CloseTransport()
      modifies this`peerUp, this`transport
      ensures !peerUp && transport == if old(transport) == TransportP2P then TransportIdle else old(transport)
    {
      peerUp := false;
      if transport == TransportP2P {
        transport := TransportIdle;
      }
    }
  }

  /** A prefix of one more file, after the files of a batch so far. */
  lemma JoinSent(base: seq<Message>, before: seq<FileTx>, tx: FileTx, part: nat) returns (txs: seq<FileTx>, sent: nat)
    requires part <= |FileWire(tx)|
    ensures txs == before + [tx] && sent == |ItemsWire(Files(before))| + part && sent < |ItemsWire(Batch(txs))|
    ensures base + ItemsWire(Files(before)) + FileWire(tx)[..part] == base + ItemsWire(Batch(txs))[..sent]
    ensures part == |FileWire(tx)|
            ==> base + ItemsWire(Files(before)) + FileWire(tx)[..part] == base + ItemsWire(Files(txs))
  {
    var w := ItemsWire(Files(before));
    txs, sent := before + [tx], |w| + part;
    FilesSnoc(before, tx);
    CutBeforeEnd(txs);
    Assoc(base, w, FileWire(tx)[..part]);
    assert FileWire(tx)[..|FileWire(tx)|] == FileWire(tx);
    assert (w + FileWire(tx) + [SessionEnd])[..sent] == w + FileWire(tx)[..part];
  }

  lemma WireOfOne(item: Item)
    ensures ItemsWire([item]) == ItemWire(item)
  {
    assert [item][1..] == [];
    assert ItemWire(item) + [] == ItemWire(item);
  }

  lemma FilesSnoc(txs: seq<FileTx>, tx: FileTx)
    ensures ItemsWire(Files(txs + [tx])) == ItemsWire(Files(txs)) + FileWire(tx)
  {
    assert Files(txs + [tx]) == Files(txs) + [File(tx)];
    ItemsWireAppend(Files(txs), [File(tx)]);
    WireOfOne(File(tx));
  }

  lemma NoFilesYet(base: seq<Message>, calls: seq<(nat, int, int)>)
    ensures base + ItemsWire(Files([])) == base && calls + BatchProgress([]) == calls
  {
    assert Files([]) == [] && ItemsWire([]) == [];
  }

  lemma CutBeforeEnd(txs: seq<FileTx>)
    ensures ItemsWire(Batch(txs)) == ItemsWire(Files(txs)) + [SessionEnd]
    ensures ItemsWire(Batch(txs))[..|ItemsWire(Files(txs))|] == ItemsWire(Files(txs))
  {
    ItemsWireAppend(Files(txs), [End]);
    WireOfOne(End);
  }

  lemma FilesOfFiles(txs: seq<FileTx>)
    ensures FilesOf(Files(txs)) == txs && FilesOf(Batch(txs)) == txs
  {
    if txs == [] {
      assert Batch(txs) == [End] && [End][1..] == [];
    } else {
      FilesOfFiles(txs[1..]);
      assert Files(txs)[0] == File(txs[0]) && Files(txs)[1..] == Files(txs[1..]);
      assert Batch(txs)[0] == File(txs[0]) && Batch(txs)[1..] == Batch(txs[1..]);
    }
  }

  /** What one sender program transmits: only its very first file may be a resumption. */
  ghost predicate Sent(cfg: Config, d: Dir, txs: seq<FileTx>) {
    && (txs != [] ==> Arriving(cfg, d, txs[0]))
    && forall i :: 0 < i < |txs| ==> IsSafe(txs[i].name) && IsReading(txs[i]) && txs[i].offset == 0
  }

  lemma SentArrives(cfg: Config, d: Dir, txs: seq<FileTx>)
    requires Sent(cfg, d, txs)
    ensures AllArriving(cfg, d, txs)
  {
    if txs != [] {
      OthersArrive(cfg, Publish(d, txs[0].name, txs[0].content), txs[1..]);
    }
  }

  lemma {:induction false} SessionFiles(batches: seq<seq<FileTx>>)
    requires forall b :: b in batches ==> b != []
    ensures FilesOf(SessionItems(batches)) == Flatten(batches) && NonEmptyBatches(SessionItems(batches), true)
  {
    if batches != [] {
      var b, rest := batches[0], batches[1..];
      assert b in batches && forall x :: x in rest ==> x in batches;
      SessionFiles(rest);
      FilesOfFiles(b);
      FilesOfAppend(Batch(b), SessionItems(rest));
      BatchesThen(b, SessionItems(rest), true);
    }
  }

  lemma {:induction false} FilesOfAppend(a: seq<Item>, b: seq<Item>)
    ensures FilesOf(a + b) == FilesOf(a) + FilesOf(b)
  {
    if a == [] {
      assert a + b == b;
    } else {
      assert (a + b)[0] == a[0] && (a + b)[1..] == a[1..] + b;
      FilesOfAppend(a[1..], b);
    }
  }

  lemma {:induction false} BatchesThen(txs: seq<FileTx>, rest: seq<Item>, atStart: bool)
    requires NonEmptyBatches(rest, true) && (atStart ==> txs != [])
    ensures NonEmptyBatches(Batch(txs) + rest, atStart)
    decreases |txs|
  {
    var all := Batch(txs) + rest;
    if txs == [] {
      assert all[0] == End && all[1..] == rest;
    } else {
      assert all[0] == File(txs[0]) && all[1..] == Batch(txs[1..]) + rest;
      BatchesThen(txs[1..], rest, false);
    }
  }

  /**
   * Any number of SendBatch calls on one session write a stream that the receive theorems speak of; each further call
   * adds its batch to it.
   */
  lemma SentSessionIsGood(cfg: Config, d: Dir, batches: seq<seq<FileTx>>)
    requires !cfg.single && (forall b :: b in batches ==> b != []) && Sent(cfg, d, Flatten(batches))
    ensures GoodBatches(cfg, d, batches) && GoodItems(cfg, d, SessionItems(batches), true)
  {
    SentArrives(cfg, d, Flatten(batches));
    SessionFiles(batches);
  }

  lemma {:induction false} NextBatchIsAdded(batches: seq<seq<FileTx>>, txs: seq<FileTx>)
    ensures ItemsWire(SessionItems(batches + [txs])) == ItemsWire(SessionItems(batches)) + ItemsWire(Batch(txs))
  {
    SessionSnoc(batches, txs);
    ItemsWireAppend(SessionItems(batches), Batch(txs));
  }

  lemma {:induction false} SessionSnoc(batches: seq<seq<FileTx>>, txs: seq<FileTx>)
    ensures SessionItems(batches + [txs]) == SessionItems(batches) + Batch(txs)
  {
    if batches == [] {
      assert [txs][1..] == [] && [txs][0] == txs;
    } else {
      assert (batches + [txs])[0] == batches[0] && (batches + [txs])[1..] == batches[1..] + [txs];
      SessionSnoc(batches[1..], txs);
      Assoc(Batch(batches[0]), SessionItems(batches[1..]), Batch(txs));
    }
  }
}
