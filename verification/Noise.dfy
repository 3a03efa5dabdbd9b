/** Messages that carry no part of a file, arriving late: where a session passes over them, and where they end it. */
module Noise {
  import opened Bytes
  import opened Protocol
  import opened Receiving
  import opened Wire
  import opened Sessions

  /** The types recvFile reacts to. Everything else, all signalling included, it passes over. */
  predicate Matters(m: Message) {
    m.MetadataMsg? || m.Chunk? || m.Complete? || m.Error? || m.SessionEnd? || m.Version?
  }

  function Denoise(ms: seq<Message>): seq<Message> {
    if ms == [] then [] else (if Matters(ms[0]) then [ms[0]] else []) + Denoise(ms[1..])
  }

  lemma {:induction false} DenoiseAppend(a: seq<Message>, b: seq<Message>)
    ensures Denoise(a + b) == Denoise(a) + Denoise(b)
  {
    if a == [] {
      assert a + b == b;
    } else {
      assert (a + b)[0] == a[0] && (a + b)[1..] == a[1..] + b;
      DenoiseAppend(a[1..], b);
    }
  }

  lemma DenoiseSnoc(ms: seq<Message>, i: nat)
    requires i < |ms|
    ensures Denoise(ms[..i + 1]) == Denoise(ms[..i]) + if Matters(ms[i]) then [ms[i]] else []
  {
    assert ms[..i + 1] == ms[..i] + [ms[i]] && [ms[i]][1..] == [];
    DenoiseAppend(ms[..i], [ms[i]]);
  }

  lemma DenoisePrefix(ms: seq<Message>, i: nat)
    requires i <= |ms|
    ensures Denoise(ms[..i]) <= Denoise(ms)
  {
    SplitAt(ms, i);
    DenoiseAppend(ms[..i], ms[i..]);
  }

  lemma SplitAt(ms: seq<Message>, i: nat)
    requires i <= |ms|
    ensures ms[..i] + ms[i..] == ms
  {
  }

  // ---- Inside a file ----

  /** The run does not leave recvFile before its last message. */
  ghost predicate StaysInFile(cfg: Config, s: State, ms: seq<Message>)
    decreases |ms|
  {
    s.control.InFile? && (ms == [] || StaysInFile(cfg, Step(cfg, s, ms[0]), ms[1..]))
  }

  lemma {:induction false} NoiseIsIgnored(cfg: Config, s: State, noisy: seq<Message>)
    requires StaysInFile(cfg, s, Denoise(noisy))
    ensures Run(cfg, s, noisy) == Run(cfg, s, Denoise(noisy))
    decreases |noisy|
  {
    if noisy != [] {
      var m, rest := noisy[0], noisy[1..];
      if Matters(m) {
        assert Denoise(noisy)[0] == m && Denoise(noisy)[1..] == Denoise(rest);
        NoiseIsIgnored(cfg, Step(cfg, s, m), rest);
      } else {
        assert Denoise(noisy) == Denoise(rest);
        assert Step(cfg, s, m) == s;
        NoiseIsIgnored(cfg, s, rest);
      }
    }
  }

  lemma {:induction false} ChunksStayInFile(cfg: Config, s: State, chunks: seq<seq<Byte>>)
    requires s.control.InFile? && s.control.frame.Open?
    ensures StaysInFile(cfg, s, Chunks(chunks))
    decreases |chunks|
  {
    if chunks != [] {
      assert Chunks(chunks)[0] == Chunk(chunks[0]) && Chunks(chunks)[1..] == Chunks(chunks[1..]);
      ChunksStayInFile(cfg, Step(cfg, s, Chunk(chunks[0])), chunks[1..]);
    }
  }

  /**
   * Any file, resumed or not, first or later, whose chunks arrive with other messages mixed in is received as if those
   * were not there.
   */
  lemma LateSignallingIsHarmless(cfg: Config, s: State, tx: FileTx, base: seq<Byte>, noisy: seq<Message>)
    requires Step(cfg, s, MetadataMsg(Some(Header(tx)))) == Begun(s, tx, base)
    requires Denoise(noisy) == Chunks(tx.chunks)
    ensures Run(cfg, s, [MetadataMsg(Some(Header(tx)))] + noisy + [Complete]) == Run(cfg, s, FileWire(tx))
  {
    var head := MetadataMsg(Some(Header(tx)));
    ChunksStayInFile(cfg, Begun(s, tx, base), tx.chunks);
    NoiseIsIgnored(cfg, Begun(s, tx, base), noisy);
    AfterHead(cfg, s, head, noisy);
    AfterHead(cfg, s, head, Chunks(tx.chunks));
    RunAppend(cfg, s, [head] + noisy, [Complete]);
    RunAppend(cfg, s, [head] + Chunks(tx.chunks), [Complete]);
  }

  lemma AfterHead(cfg: Config, s: State, head: Message, rest: seq<Message>)
    ensures Run(cfg, s, [head] + rest) == Run(cfg, Step(cfg, s, head), rest)
  {
    assert ([head] + rest)[1..] == rest;
  }

  // ---- Anywhere in a session ----

  /** After `k` messages of the items, nothing has come yet or a file is in flight. */
  predicate Inside(items: seq<Item>, k: nat) {
    k == 0 || InFlight(items, k).Some?
  }

  /** Every message of `noisy` that does not matter comes before the first that does, or inside a file. */
  ghost predicate AllInside(noisy: seq<Message>, items: seq<Item>, upTo: nat)
    requires upTo <= |noisy|
  {
    forall i :: 0 <= i < upTo && !Matters(noisy[i]) ==> Inside(items, |Denoise(noisy[..i])|)
  }

  /** `noisy` is the first `c` messages of the items, with others mixed in. */
  ghost predicate NoisyCut(noisy: seq<Message>, items: seq<Item>, c: nat) {
    c <= |ItemsWire(items)| && Denoise(noisy) == ItemsWire(items)[..c]
  }

  lemma PrefixMeans(noisy: seq<Message>, items: seq<Item>, c: nat, i: nat)
    requires NoisyCut(noisy, items, c) && i <= |noisy|
    ensures |Denoise(noisy[..i])| <= c && Denoise(noisy[..i]) == ItemsWire(items)[..|Denoise(noisy[..i])|]
  {
    DenoisePrefix(noisy, i);
  }

  lemma RunSnoc(cfg: Config, s: State, ms: seq<Message>, i: nat)
    requires i < |ms|
    ensures Run(cfg, s, ms[..i + 1]) == Step(cfg, Run(cfg, s, ms[..i]), ms[i])
  {
    assert ms[..i + 1] == ms[..i] + [ms[i]];
    RunAppend(cfg, s, ms[..i], [ms[i]]);
    RunOne(cfg, Run(cfg, s, ms[..i]), ms[i]);
  }

  /** A session that has its transport and waits for its first file. */
  ghost predicate AtEntry(cfg: Config, s: State, items: seq<Item>) {
    s.control == InFile(NoFile) && s.paths == [] && !Trouble(cfg) && GoodItems(cfg, s.dir, items, true)
  }

  lemma {:induction false} QuietSoFar(cfg: Config, s: State, items: seq<Item>, noisy: seq<Message>, c: nat, i: nat)
    requires AtEntry(cfg, s, items) && NoisyCut(noisy, items, c)
    requires i <= |noisy| && AllInside(noisy, items, i)
    ensures Run(cfg, s, noisy[..i]) == Run(cfg, s, Denoise(noisy[..i]))
    decreases i
  {
    if i == 0 {
      assert noisy[..0] == [];
    } else {
      var j := i - 1;
      QuietSoFar(cfg, s, items, noisy, c, j);
      PrefixMeans(noisy, items, c, j);
      if Matters(noisy[j]) {
        OneThatMatters(cfg, s, noisy, j);
      } else {
        InsidePasses(cfg, s, items, |Denoise(noisy[..j])|, noisy[j]);
        RunSnoc(cfg, s, noisy, j);
        DenoiseSnoc(noisy, j);
        assert Denoise(noisy[..j]) + [] == Denoise(noisy[..j]);
      }
    }
  }

  lemma OneThatMatters(cfg: Config, s: State, noisy: seq<Message>, j: nat)
    requires j < |noisy| && Matters(noisy[j]) && Run(cfg, s, noisy[..j]) == Run(cfg, s, Denoise(noisy[..j]))
    ensures Run(cfg, s, noisy[..j + 1]) == Run(cfg, s, Denoise(noisy[..j + 1]))
  {
    var quiet := Denoise(noisy[..j]);
    RunSnoc(cfg, s, noisy, j);
    DenoiseSnoc(noisy, j);
    RunAppend(cfg, s, quiet, [noisy[j]]);
    RunOne(cfg, Run(cfg, s, quiet), noisy[j]);
  }

  lemma InsidePasses(cfg: Config, s: State, items: seq<Item>, k: nat, m: Message)
    requires AtEntry(cfg, s, items) && k <= |ItemsWire(items)| && Inside(items, k) && !Matters(m)
    ensures var t := Run(cfg, s, ItemsWire(items)[..k]); Step(cfg, t, m) == t
  {
    RunCut(cfg, s, items, k);
    var t := Run(cfg, s, ItemsWire(items)[..k]);
    assert t.control.InFile?;
    assert InFileStep(cfg, t, t.control.frame, m) == t;
  }

  /** Anywhere else a message that does not matter ends the session with an error, and all that follows is lost. */
  lemma OutsideStops(cfg: Config, s: State, items: seq<Item>, k: nat, m: Message)
    requires AtEntry(cfg, s, items) && k <= |ItemsWire(items)| && !Inside(items, k) && !Matters(m)
    ensures var t := Run(cfg, s, ItemsWire(items)[..k]);
            && t.dir == PublishAll(s.dir, Completed(items, k))
            && (Step(cfg, t, m) == Stop(t, UnexpectedAfterFile) || Step(cfg, t, m) == Stop(t, UnexpectedIdle))
  {
    RunCut(cfg, s, items, k);
  }

  lemma CleanVerdict(cfg: Config, s: State, items: seq<Item>, c: nat, end: CloseKind)
    requires AtEntry(cfg, s, items) && c <= |ItemsWire(items)|
    ensures var t := Outcome(cfg, s, ItemsWire(items)[..c], end);
            t.control == Stopped(Ok(())) || t.control == Stopped(Err(Read))
  {
    RunCut(cfg, s, items, c);
  }

  lemma {:induction false} FirstOutside(noisy: seq<Message>, items: seq<Item>, upTo: nat) returns (i: nat)
    requires upTo <= |noisy| && !AllInside(noisy, items, upTo)
    ensures i < upTo && AllInside(noisy, items, i) && !Matters(noisy[i]) && !Inside(items, |Denoise(noisy[..i])|)
  {
    if AllInside(noisy, items, upTo - 1) {
      i := upTo - 1;
    } else {
      i := FirstOutside(noisy, items, upTo - 1);
    }
  }

  /** What a stray message does where it is not passed over: the files up to it are saved, the rest is lost. */
  lemma StrayEnds(cfg: Config, s: State, items: seq<Item>, noisy: seq<Message>, c: nat, i: nat, end: CloseKind)
    requires AtEntry(cfg, s, items) && NoisyCut(noisy, items, c)
    requires i < |noisy| && AllInside(noisy, items, i) && !Matters(noisy[i]) && !Inside(items, |Denoise(noisy[..i])|)
    ensures var t := Outcome(cfg, s, noisy, end);
            && t.dir == PublishAll(s.dir, Completed(items, |Denoise(noisy[..i])|))
            && (t.control == Stopped(Err(UnexpectedAfterFile)) || t.control == Stopped(Err(UnexpectedIdle)))
  {
    hide Run, Denoise, AllInside, Completed, InFlight, PublishAll, AllArriving;
    QuietSoFar(cfg, s, items, noisy, c, i);
    PrefixMeans(noisy, items, c, i);
    OutsideStops(cfg, s, items, |Denoise(noisy[..i])|, noisy[i]);
    RunSnoc(cfg, s, noisy, i);
    StoppedForGood(cfg, s, noisy, i + 1);
  }

  lemma StoppedForGood(cfg: Config, s: State, ms: seq<Message>, i: nat)
    requires i <= |ms| && Run(cfg, s, ms[..i]).control.Stopped?
    ensures Run(cfg, s, ms) == Run(cfg, s, ms[..i])
  {
    SplitAt(ms, i);
    RunAppend(cfg, s, ms[..i], ms[i..]);
    RunStopped(cfg, Run(cfg, s, ms[..i]), ms[i..]);
  }

  /**
   * A stream of files and batch ends, cut anywhere, with any other messages mixed in, has the outcome of the stream
   * alone if and only if every one of those messages comes before the first of the stream or inside a file.
   */
  lemma NoiseIsHarmlessExactly(cfg: Config, s: State, items: seq<Item>, noisy: seq<Message>, c: nat, end: CloseKind)
    requires AtEntry(cfg, s, items) && NoisyCut(noisy, items, c)
    ensures Outcome(cfg, s, noisy, end) == Outcome(cfg, s, ItemsWire(items)[..c], end)
            <==> AllInside(noisy, items, |noisy|)
  {
    if AllInside(noisy, items, |noisy|) {
      QuietSoFar(cfg, s, items, noisy, c, |noisy|);
      assert noisy[..|noisy|] == noisy;
    } else {
      var i := FirstOutside(noisy, items, |noisy|);
      StrayEnds(cfg, s, items, noisy, c, i, end);
      CleanVerdict(cfg, s, items, c, end);
    }
  }

  // ---- From the start of a session ----

  /** A session that has not chosen its transport takes the first message for that choice. */
  predicate MayOpen(m: Message) {
    Matters(m) || m.SDPOffer? || m.P2PFail?
  }

  lemma FirstIsMetadata(cfg: Config, d: Dir, items: seq<Item>)
    requires items != [] && GoodItems(cfg, d, items, true)
    ensures items[0].File? && Arriving(cfg, d, items[0].tx)
    ensures ItemsWire(items)[0] == MetadataMsg(Some(Header(items[0].tx)))
  {
    assert FilesOf(items)[0] == items[0].tx;
  }

  /** With a first message that may open it, a session goes on as if it had its transport already. */
  lemma OpensLikeEntry(cfg: Config, dir: Dir, items: seq<Item>, ms: seq<Message>)
    requires items != [] && !Trouble(cfg) && GoodItems(cfg, dir, items, true) && ms != []
    requires ms[0] == ItemsWire(items)[0] || (MayOpen(ms[0]) && !Matters(ms[0]))
    ensures Run(cfg, Start(dir), ms) == Run(cfg, Start(dir).(control := InFile(NoFile)), ms)
  {
    var s := Start(dir).(control := InFile(NoFile));
    FirstIsMetadata(cfg, dir, items);
    if ms[0] == ItemsWire(items)[0] {
      ArrivingTaken(cfg, Start(dir), items[0].tx);
      ArrivingTaken(cfg, s, items[0].tx);
      assert Begun(Start(dir), items[0].tx, items[0].tx.content[..items[0].tx.offset])
             == Begun(s, items[0].tx, items[0].tx.content[..items[0].tx.offset]);
    }
  }

  /** The same from the very start, where in addition the first message must be one that may open a session. */
  lemma NoisySessionExactly(cfg: Config, dir: Dir, items: seq<Item>, noisy: seq<Message>, c: nat, end: CloseKind)
    requires items != [] && !Trouble(cfg) && GoodItems(cfg, dir, items, true) && NoisyCut(noisy, items, c) && c > 0
    ensures noisy != []
    ensures Outcome(cfg, Start(dir), noisy, end) == Outcome(cfg, Start(dir), ItemsWire(items)[..c], end)
       <==> AllInside(noisy, items, |noisy|) && MayOpen(noisy[0])
  {
    var s := Start(dir).(control := InFile(NoFile));
    var w := ItemsWire(items)[..c];
    OpensLikeEntry(cfg, dir, items, w);
    if Matters(noisy[0]) {
      assert noisy[0] == Denoise(noisy)[0];
    }
    if MayOpen(noisy[0]) {
      OpensLikeEntry(cfg, dir, items, noisy);
      NoiseIsHarmlessExactly(cfg, s, items, noisy, c, end);
    } else {
      RunStopped(cfg, Stop(Start(dir), UnexpectedFirst), noisy[1..]);
      CleanVerdict(cfg, s, items, c, end);
    }
  }
}
