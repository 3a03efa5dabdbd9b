/** The programs of both ends together: a receiver with leftovers, and the sender it asks. */
module Resumption {
  import opened Bytes
  import opened Names
  import opened Protocol
  import opened Receiving
  import opened Wire
  import opened Sessions
  import opened SessionTheorems
  import opened Resume
  import opened Senders
  import opened Receivers

  /** The leftover and the file agree in the hash only if they agree. */
  ghost predicate NoCollision(hash: Hash, leftover: seq<Byte>, content: seq<Byte>) {
    var n := Aligned(|leftover|);
    n <= |content| ==> !Collide(hash, leftover[..n], content[..n])
  }

  /** What FindResumeCandidate finds suits the file: no single leftover, or one that the file can follow on. */
  ghost predicate Suits(hash: Hash, dir: Dir, file: LocalFile) {
    forall q :: OnlyPartial(dir, q) && TrimPart(q) == file.name
      ==> file.name !in dir && NoCollision(hash, dir[q], file.content)
  }

  lemma PartOfTrim(q: string)
    requires IsPartial(q)
    ensures Part(TrimPart(q)) == q
  {
    assert q == q[..|q| - 5] + q[|q| - 5..];
  }

  /** One file and a clean end. */
  lemma OneFileSession(cfg: Config, dir: Dir, tx: FileTx)
    requires !cfg.single && !Trouble(cfg) && Arriving(cfg, dir, tx)
    ensures var t := Outcome(cfg, Start(dir), [P2PFail] + FileWire(tx), Clean);
            && t.control == Stopped(Ok(())) && t.reports == [[Dest(dir, tx.name)]]
            && t.dir == Publish(dir, tx.name, tx.content)
  {
    var s := Greeted(cfg, Start(dir), [P2PFail]);
    RunAppend(cfg, Start(dir), [P2PFail], FileWire(tx));
    var t := RunFileItem(cfg, s, tx);
    assert [] + [Dest(dir, tx.name)] == [Dest(dir, tx.name)];
  }

  /** What the sender transmits suits what the receiver has, whichever leftover it found. */
  lemma TransmissionArrives(hash: Hash, cfg: Config, dir: Dir, left: Dir, file: LocalFile, tx: FileTx)
    requires Transmits(hash, cfg.resume, file, tx) && IsSafe(file.name) && Suits(hash, dir, file)
    requires forall q :: OnlyPartial(dir, q) ==> cfg.resume == Found(hash, dir, q) && left == Left(dir, q)
    requires (forall q :: !OnlyPartial(dir, q)) ==> cfg.resume == None && left == dir
    ensures Arriving(cfg, left, tx)
  {
    if q :| OnlyPartial(dir, q) {
      assert q in PartialEntries(dir);
      PartOfTrim(q);
      ArrivingMeans(hash, cfg, dir, TrimPart(q), tx);
    }
  }

  /** The single leftover is of this file, and holds its first `n` bytes, and no further whole chunk. */
  ghost predicate Matches(dir: Dir, file: LocalFile, n: nat) {
    && OnlyPartial(dir, Part(file.name))
    && n % 65536 == 0 && n <= |dir[Part(file.name)]| < n + 65536
    && n <= |file.content| && dir[Part(file.name)][..n] == file.content[..n]
  }

  /** A matching leftover is taken up where it ends, any other file goes out from its beginning. */
  ghost predicate ResumedFrom(dir: Dir, file: LocalFile, offset: nat) {
    && (forall n: nat :: Matches(dir, file, n) ==> offset == n)
    && ((forall n: nat :: !Matches(dir, file, n)) ==> offset == 0)
  }

  lemma MatchIsResumed(hash: Hash, resume: Option<ResumeRequest>, dir: Dir, file: LocalFile, tx: FileTx)
    requires Transmits(hash, resume, file, tx) && Suits(hash, dir, file)
    requires forall q :: OnlyPartial(dir, q) ==> resume == Found(hash, dir, q)
    requires (forall q :: !OnlyPartial(dir, q)) ==> resume == None
    ensures ResumedFrom(dir, file, tx.offset)
  {
    if q :| OnlyPartial(dir, q) {
      assert q in PartialEntries(dir);
      PartOfTrim(q);
      TrimOfPart(file.name);
      ResumesExactly(hash, dir, TrimPart(q), file.name, file.content);
      if q == Part(file.name) {
        assert TrimPart(q) == file.name;
        OwnLeftoverMatches(hash, dir, file, tx.offset);
      } else {
        assert forall n: nat :: !Matches(dir, file, n) by { OnlyOne(dir, q, Part(file.name)); }
      }
    }
  }

  lemma OnlyOne(dir: Dir, p: string, q: string)
    requires OnlyPartial(dir, p) && p != q
    ensures !OnlyPartial(dir, q)
  {
    assert p in PartialEntries(dir);
  }

  lemma OwnLeftoverMatches(hash: Hash, dir: Dir, file: LocalFile, offset: nat)
    requires OnlyPartial(dir, Part(file.name)) && NoCollision(hash, dir[Part(file.name)], file.content)
    requires var left := dir[Part(file.name)];
             var n := |left| - |left| % 65536;
             offset == if n <= |file.content| && hash(left[..n]) == hash(file.content[..n]) then n else 0
    ensures ResumedFrom(dir, file, offset)
  {
    var left := dir[Part(file.name)];
    var n := |left| - |left| % 65536;
    assert Aligned(|left|) == n;
    WholeChunks(|left|, n);
    if n <= |file.content| && left[..n] == file.content[..n] {
      assert Matches(dir, file, n);
    }
  }

  lemma WholeChunks(size: nat, n: nat)
    requires n == size - size % 65536
    ensures n % 65536 == 0 && n <= size < n + 65536
    ensures forall k: nat :: k % 65536 == 0 && k <= size < k + 65536 ==> k == n
  {
  }

  /** The messages of one file, with only its bytes from `offset` on in the chunks. */
  ghost predicate Carries(wire: seq<Message>, file: LocalFile, offset: nat, chunks: seq<seq<Byte>>) {
    && offset <= |file.content| && Flatten(chunks) == file.content[offset..]
    && wire == [MetadataMsg(Some(Metadata(file.name, |file.content|, ChunkCount(|file.content|), offset)))]
               + Chunks(chunks) + [Complete]
  }

  /**
   * FindResumeCandidate, WaitForPeer, streamFile and ReceiveBatches, one after the other: whatever partial files the
   * destination holds, a file that goes out entirely arrives entirely, and its own leftover is gone; and of a file
   * whose leftover matches only the rest goes out. `others` are messages that arrive before the receiver's hello.
   */
  method SendToLeftover(destination: Destination, sender: Sender, link: Link, path: string, others: seq<Message>)
    returns (ok: bool, result: Result<(), Failure>, ghost offset: nat, ghost chunks: seq<seq<Byte>>)
    requires path in sender.disk && IsSafe(sender.disk[path].name) && sender.pendingResume == None && link.sent == []
    requires forall m :: m in others ==> !m.ResumeMsg? && !m.PeerJoin?
    requires Suits(sender.hash, destination.dir, sender.disk[path])
    modifies destination, sender, link
    ensures ok ==> result == Ok(()) && Carries(link.sent, sender.disk[path], offset, chunks)
    ensures ok ==> ResumedFrom(old(destination.dir), sender.disk[path], offset)
    ensures var dir, file := old(destination.dir), sender.disk[path];
            && (forall q :: ok && OnlyPartial(dir, q) ==>
                  destination.dir == Publish(Left(dir, q), file.name, file.content))
            && (ok && (forall q :: !OnlyPartial(dir, q)) ==> destination.dir == Publish(dir, file.name, file.content))
            && (ok && OnlyPartial(dir, Part(file.name)) ==>
                  destination.dir == (dir - {Part(file.name)})[file.name := file.content])
  {
    hide Matches, ResumedFrom, Carries, Transmits, Suits, Arriving, UniquePath, Run, FileWire, ResumeOffset;
    result, offset, chunks := Ok(()), 0, [];
    ghost var dir, file := destination.dir, sender.disk[path];
    var request := destination.FindResumeCandidate(sender.hash);
    ghost var left := destination.dir;
    var heard := sender.WaitForPeer(others + Hello(request) + []);
    RequestArrives(others, request, []);
    ghost var tx, sent;
    ok, tx, sent := sender.StreamFile(link, path, 0);
    if !ok {
      return;
    }
    assert link.sent == FileWire(tx);
    SameFile(sender.hash, request, file, tx);
    var cfg := Config(false, request, None, false);
    TransmissionArrives(sender.hash, cfg, dir, left, file, tx);
    MatchIsResumed(sender.hash, request, dir, file, tx);
    offset, chunks := CarriedFrom(sender.hash, request, file, tx);
    OneFileSession(cfg, left, tx);
    var receiver := new Receiver(cfg, destination.dir, [P2PFail] + link.sent, Clean);
    assert receiver.View(Opening, []) == Start(left);
    ghost var pending;
    result, pending := receiver.ReceiveBatches();
    destination.dir := receiver.dir;
    if OnlyPartial(dir, Part(file.name)) {
      OwnNameIsFree(sender.hash, dir, file);
      OwnLeftoverGone(dir, file);
    }
  }

  lemma CarriedFrom(hash: Hash, resume: Option<ResumeRequest>, file: LocalFile, tx: FileTx)
    returns (offset: nat, chunks: seq<seq<Byte>>)
    requires Transmits(hash, resume, file, tx)
    ensures offset == tx.offset && Carries(FileWire(tx), file, offset, chunks)
  {
    offset, chunks := tx.offset, tx.chunks;
  }

  lemma SameFile(hash: Hash, resume: Option<ResumeRequest>, file: LocalFile, tx: FileTx)
    requires Transmits(hash, resume, file, tx)
    ensures tx.name == file.name && tx.content == file.content
  {
  }

  lemma OwnNameIsFree(hash: Hash, dir: Dir, file: LocalFile)
    requires Suits(hash, dir, file) && OnlyPartial(dir, Part(file.name))
    ensures file.name !in dir
  {
    TrimOfPart(file.name);
  }

  lemma OwnLeftoverGone(dir: Dir, file: LocalFile)
    requires OnlyPartial(dir, Part(file.name)) && file.name !in dir
    ensures Publish(Left(dir, Part(file.name)), file.name, file.content)
            == (dir - {Part(file.name)})[file.name := file.content]
  {
    assert Left(dir, Part(file.name)) - {Part(file.name)} == dir - {Part(file.name)};
  }
}
