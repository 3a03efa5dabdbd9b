/** What no sender can do to the destination directory, whatever it sends. */
module NoClobber {
  import opened Bytes
  import opened Names
  import opened Protocol
  import opened Receiving
  import opened Wire
  import opened Sessions
  import opened SessionTheorems

  /** While a file is open, its path is free and safe, and its partial file exists. */
  ghost predicate FrameFits(s: State) {
    s.control.InFile? && s.control.frame.Open? ==>
      var p := s.control.frame.dest;
      p !in s.dir && Part(p) in s.dir && IsSafe(p)
  }

  /** Only the entry `q` differs between the two directories. */
  ghost predicate SameExcept(d: Dir, e: Dir, q: string) {
    forall n :: n != q ==> (n in d <==> n in e) && (n in d ==> d[n] == e[n])
  }

  /** The one way a final file appears: a rename of its partial file onto a free, safe name. */
  ghost predicate IsPublication(d: Dir, e: Dir, p: string) {
    p !in d && IsSafe(p) && Part(p) in d && e == (d - {Part(p)})[p := d[Part(p)]]
  }

  ghost predicate HarmlessChange(s: State, t: State) {
    || s.dir == t.dir
    || (exists p :: SameExcept(s.dir, t.dir, Part(p)) && IsSafe(Part(p)))
    || (exists p :: IsPublication(s.dir, t.dir, p) && t.paths == s.paths + [p])
  }

  lemma SafePart(p: string)
    requires IsSafe(p)
    ensures IsSafe(Part(p))
  {
    assert Part(p)[|p|..] == PART;
    assert forall c :: c in Part(p) ==> c in p || c in PART;
  }

  lemma SafeDest(d: Dir, name: string)
    requires IsSafe(name)
    ensures Dest(d, name) !in d && IsSafe(Dest(d, name)) && Part(Dest(d, name)) != Dest(d, name)
  {
    UniquePathIsLeastFree(d.Keys, name);
    UniquePathStaysSafe(d.Keys, name);
    PartDiffers(Dest(d, name));
  }

  lemma MetadataHarmless(cfg: Config, s: State, parsed: Option<Metadata>)
    ensures FrameFits(OnMetadata(cfg, s, parsed)) && HarmlessChange(s, OnMetadata(cfg, s, parsed))
  {
    if parsed.Some? && IsSafe(parsed.value.filename) {
      SafeDest(s.dir, parsed.value.filename);
      SafePart(Dest(s.dir, parsed.value.filename));
      var p := Dest(s.dir, parsed.value.filename);
      assert SameExcept(s.dir, s.dir[Part(p) := []], Part(p));
    }
  }

  lemma ReportsDoNotTouch(cfg: Config, s: State, payload: seq<Byte>)
    ensures OnVersion(cfg, s, payload).dir == s.dir && !OnVersion(cfg, s, payload).control.InFile?
    ensures BatchEnd(cfg, s).dir == s.dir && !BatchEnd(cfg, s).control.InFile?
  {
  }

  lemma InFileHarmless(cfg: Config, s: State, f: Frame, m: Message)
    requires FrameFits(s.(control := InFile(f)))
    ensures var t := InFileStep(cfg, s.(control := InFile(f)), f, m); FrameFits(t) && HarmlessChange(s, t)
  {
    var s' := s.(control := InFile(f));
    if f.Open? { SafePart(f.dest); }
    match m
    case MetadataMsg(parsed) =>
      MetadataHarmless(cfg, s', parsed);
      MetadataHarmless(cfg, s, parsed);
    case Chunk(data) =>
      if f.Open? {
        PartDiffers(f.dest);
        assert SameExcept(s.dir, Append(s.dir, Part(f.dest), data), Part(f.dest));
      }
    case Complete =>
      if f.Open? {
        PartDiffers(f.dest);
        assert IsPublication(s.dir, Renamed(s.dir, f.dest), f.dest);
      }
    case Version(payload) =>
      ReportsDoNotTouch(cfg, s', payload);
      if f.Open? {
        var d := s.dir - {Part(f.dest)};
        ReportsDoNotTouch(cfg, s'.(dir := d), payload);
        assert SameExcept(s.dir, d, Part(f.dest));
      }
    case _ =>
  }

  lemma StepHarmless(cfg: Config, s: State, m: Message)
    requires FrameFits(s)
    ensures FrameFits(Step(cfg, s, m)) && HarmlessChange(s, Step(cfg, s, m))
  {
    match s.control
    case InFile(f) =>
      assert s.(control := InFile(f)) == s;
      InFileHarmless(cfg, s, f, m);
    case _ =>
      StepOutsideFile(cfg, s, m);
  }

  lemma StepOutsideFile(cfg: Config, s: State, m: Message)
    requires !s.control.InFile?
    ensures FrameFits(Step(cfg, s, m)) && HarmlessChange(s, Step(cfg, s, m))
  {
    match m
    case MetadataMsg(parsed) => MetadataHarmless(cfg, s, parsed);
    case Version(payload) => ReportsDoNotTouch(cfg, s, payload);
    case _ => ReportsDoNotTouch(cfg, s, []);
  }

  /** Final entries of `d` are in `e` unchanged, and every other entry of `e` is a safe name. */
  ghost predicate FinalEntriesKept(d: Dir, e: Dir) {
    && (forall n :: n in d && !IsPartial(n) ==> n in e && e[n] == d[n])
    && (forall n :: n in e && n !in d ==> IsSafe(n))
  }

  lemma HarmlessKeeps(s: State, t: State)
    requires HarmlessChange(s, t)
    ensures FinalEntriesKept(s.dir, t.dir)
  {
    if p :| SameExcept(s.dir, t.dir, Part(p)) && IsSafe(Part(p)) {
      PartIsPartial(p);
    } else if s.dir != t.dir {
      var p :| IsPublication(s.dir, t.dir, p) && t.paths == s.paths + [p];
      PartIsPartial(p);
    }
  }

  /**
   * Over any message sequence whatsoever, well-formed or not, and however the stream ends: no entry whose name does not
   * end in ".part" is changed or removed, and every new entry, partial or not, is a direct child of the destination.
   */
  lemma {:induction false} AnyStreamIsHarmless(cfg: Config, s: State, ms: seq<Message>, end: CloseKind)
    requires FrameFits(s)
    ensures FinalEntriesKept(s.dir, Outcome(cfg, s, ms, end).dir)
    decreases |ms|
  {
    if ms == [] {
      assert Close(cfg, s, end).dir == s.dir;
    } else {
      var t := Step(cfg, s, ms[0]);
      StepHarmless(cfg, s, ms[0]);
      HarmlessKeeps(s, t);
      AnyStreamIsHarmless(cfg, t, ms[1..], end);
    }
  }

  /** In particular from the start of a session, in any directory. */
  lemma AnySessionIsHarmless(cfg: Config, dir: Dir, ms: seq<Message>, end: CloseKind)
    ensures FinalEntriesKept(dir, Outcome(cfg, Start(dir), ms, end).dir)
  {
    AnyStreamIsHarmless(cfg, Start(dir), ms, end);
  }

  // ---- Nothing appears unrecorded ----

  /** ReceiveBatches keeps every path it has recorded, and records what it publishes. */
  lemma StepRecords(cfg: Config, s: State, m: Message)
    requires !cfg.single
    ensures forall p :: p in AllPaths(s) ==> p in AllPaths(Step(cfg, s, m))
  {
    var t := Step(cfg, s, m);
    StepPaths(cfg, s, m);
    ReportKeepsPaths(s.reports, s.paths);
    if p :| t.reports == s.reports && t.paths == s.paths + [p] {
      assert Flatten(s.reports) + (s.paths + [p]) == Flatten(s.reports) + s.paths + [p];
    }
  }

  ghost predicate PathsMove(s: State, t: State) {
    || (t.paths == s.paths && t.reports == s.reports)
    || (t.paths == [] && t.reports == s.reports + [s.paths])
    || (t.reports == s.reports && exists p :: t.paths == s.paths + [p])
  }

  lemma StepPaths(cfg: Config, s: State, m: Message)
    requires !cfg.single
    ensures PathsMove(s, Step(cfg, s, m))
  {
    match s.control
    case InFile(f) => InFilePaths(cfg, s, f, m);
    case _ => InFilePaths(cfg, s, NoFile, m);
  }

  lemma InFilePaths(cfg: Config, s: State, f: Frame, m: Message)
    requires !cfg.single
    ensures PathsMove(s, InFileStep(cfg, s, f, m))
  {
  }

  ghost predicate AllRecorded(d: Dir, t: State) {
    forall n :: n in t.dir && n !in d && !IsPartial(n) ==> n in AllPaths(t)
  }

  lemma StepKeepsRecorded(cfg: Config, d: Dir, s: State, m: Message)
    requires !cfg.single && FrameFits(s) && AllRecorded(d, s)
    ensures AllRecorded(d, Step(cfg, s, m))
  {
    var t := Step(cfg, s, m);
    StepHarmless(cfg, s, m);
    StepRecords(cfg, s, m);
    PublishedIsRecorded(s, t);
  }

  lemma PublishedIsRecorded(s: State, t: State)
    requires HarmlessChange(s, t)
    ensures forall n :: n in t.dir && n !in s.dir && !IsPartial(n) ==> n in AllPaths(t)
  {
    if p :| SameExcept(s.dir, t.dir, Part(p)) && IsSafe(Part(p)) {
      PartIsPartial(p);
    }
  }

  /** Over any message sequence whatsoever: every new final file is one that ReceiveBatches has recorded. */
  lemma {:induction false} NothingUnrecorded(cfg: Config, d: Dir, s: State, ms: seq<Message>, end: CloseKind)
    requires !cfg.single && FrameFits(s) && AllRecorded(d, s)
    ensures AllRecorded(d, Outcome(cfg, s, ms, end))
    decreases |ms|
  {
    if ms == [] {
      CloseKeeps(cfg, s, end);
    } else {
      StepHarmless(cfg, s, ms[0]);
      StepKeepsRecorded(cfg, d, s, ms[0]);
      NothingUnrecorded(cfg, d, Step(cfg, s, ms[0]), ms[1..], end);
    }
  }
}
