/** What whole sessions, cut sessions and restarted sessions leave in the destination directory and report. */
module Sessions {
  import opened Bytes
  import opened Names
  import opened Protocol
  import opened Receiving
  import opened Wire

  // ---- The effect of one file, said without messages ----

  function Dest(d: Dir, name: string): string {
    UniquePath(d.Keys, name)
  }

  /** The file is there, under the free name chosen for it; the name's old ".part" file is not. */
  function Publish(d: Dir, name: string, content: seq<Byte>): Dir {
    (d - {Part(Dest(d, name))})[Dest(d, name) := content]
  }

  function PublishAll(d: Dir, txs: seq<FileTx>): Dir
    decreases |txs|
  {
    if txs == [] then d else PublishAll(Publish(d, txs[0].name, txs[0].content), txs[1..])
  }

  function Dests(d: Dir, txs: seq<FileTx>): seq<string>
    decreases |txs|
  {
    if txs == [] then [] else [Dest(d, txs[0].name)] + Dests(Publish(d, txs[0].name, txs[0].content), txs[1..])
  }

  function WithPartial(d: Dir, name: string, bytes: seq<Byte>): Dir {
    d[Part(Dest(d, name)) := bytes]
  }

  function Discard(d: Dir, name: string): Dir {
    d - {Part(Dest(d, name))}
  }

  // ---- One file through the step function ----

  /** A state that takes a Metadata message as the start of a file. */
  predicate Accepting(s: State) {
    s.control == Opening || s.control == Between || s.control == Idle || s.control == InFile(NoFile)
  }

  /** What the receiver has of a file once it has its metadata and `j` of its chunks. */
  function Received(tx: FileTx, j: nat): seq<Byte>
    requires j <= |tx.chunks|
  {
    (if tx.offset <= |tx.content| then tx.content[..tx.offset] else []) + Flatten(tx.chunks[..j])
  }

  /**
   * The transmission is one that completes the file in directory `d`: from its beginning, or as a resumption of just
   * the bytes that are there, while its final name is free.
   */
  ghost predicate Arriving(cfg: Config, d: Dir, tx: FileTx) {
    && IsSafe(tx.name) && IsReading(tx)
    && (tx.offset > 0
        ==> Resuming(cfg, Header(tx)) && tx.name !in d && Part(tx.name) in d
            && d[Part(tx.name)] == tx.content[..tx.offset])
  }

  ghost predicate AllArriving(cfg: Config, d: Dir, txs: seq<FileTx>)
    decreases |txs|
  {
    txs == [] || (Arriving(cfg, d, txs[0]) && AllArriving(cfg, Publish(d, txs[0].name, txs[0].content), txs[1..]))
  }

  /** Only the first file of a session is ever resumed. */
  lemma {:induction false} OthersArrive(cfg: Config, d: Dir, txs: seq<FileTx>)
    requires forall tx :: tx in txs ==> IsSafe(tx.name) && IsReading(tx) && tx.offset == 0
    ensures AllArriving(cfg, d, txs)
    decreases |txs|
  {
    if txs != [] {
      assert txs[0] in txs && forall tx :: tx in txs[1..] ==> tx in txs;
      OthersArrive(cfg, Publish(d, txs[0].name, txs[0].content), txs[1..]);
    }
  }

  lemma {:induction false} AllArrivingAppend(cfg: Config, d: Dir, a: seq<FileTx>, b: seq<FileTx>)
    ensures AllArriving(cfg, d, a + b) <==> AllArriving(cfg, d, a) && AllArriving(cfg, PublishAll(d, a), b)
    decreases |a|
  {
    if a == [] {
      assert a + b == b;
    } else {
      assert (a + b)[0] == a[0] && (a + b)[1..] == a[1..] + b;
      AllArrivingAppend(cfg, Publish(d, a[0].name, a[0].content), a[1..], b);
    }
  }

  lemma PartDiffers(p: string)
    ensures Part(p) != p
  {
    assert |Part(p)| == |p| + 5;
  }

  /** The progress calls that chunks cause. */
  function ChunkProgress(idx: nat, received: int, size: int, chunks: seq<seq<Byte>>): seq<(nat, int, int)>
    decreases |chunks|
  {
    if chunks == [] then []
    else [(idx, received + |chunks[0]|, size)] + ChunkProgress(idx, received + |chunks[0]|, size, chunks[1..])
  }

  function AfterChunks(s: State, dest: string, size: int, received: int, chunks: seq<seq<Byte>>): State
    requires Part(dest) in s.dir
  {
    s.(dir := s.dir[Part(dest) := s.dir[Part(dest)] + Flatten(chunks)],
       control := InFile(Open(dest, size, received + |Flatten(chunks)|)),
       progress := s.progress + ChunkProgress(|s.paths|, received, size, chunks))
  }

  lemma {:induction false} RunChunks(cfg: Config, s: State, dest: string, size: int, received: int,
                                     chunks: seq<seq<Byte>>)
    requires s.control == InFile(Open(dest, size, received)) && Part(dest) in s.dir
    ensures Run(cfg, s, Chunks(chunks)) == AfterChunks(s, dest, size, received, chunks)
    decreases |chunks|
  {
    if chunks == [] {
      NoChunks(s, dest, size, received);
    } else {
      var t := AfterChunk(s, dest, size, received, chunks[0]);
      assert Chunks(chunks)[0] == Chunk(chunks[0]) && Chunks(chunks)[1..] == Chunks(chunks[1..]);
      assert Step(cfg, s, Chunk(chunks[0])) == t;
      RunChunks(cfg, t, dest, size, received + |chunks[0]|, chunks[1..]);
      MoreChunks(s, dest, size, received, chunks);
    }
  }

  function AfterChunk(s: State, dest: string, size: int, received: int, data: seq<Byte>): State
    requires Part(dest) in s.dir
  {
    s.(dir := s.dir[Part(dest) := s.dir[Part(dest)] + data],
       control := InFile(Open(dest, size, received + |data|)),
       progress := s.progress + [(|s.paths|, received + |data|, size)])
  }

  lemma NoChunks(s: State, dest: string, size: int, received: int)
    requires s.control == InFile(Open(dest, size, received)) && Part(dest) in s.dir
    ensures AfterChunks(s, dest, size, received, []) == s
  {
    var part := Part(dest);
    assert s.dir[part] + [] == s.dir[part] && s.dir[part := s.dir[part]] == s.dir && s.progress + [] == s.progress;
  }

  lemma MoreChunks(s: State, dest: string, size: int, received: int, chunks: seq<seq<Byte>>)
    requires Part(dest) in s.dir && chunks != []
    ensures AfterChunks(AfterChunk(s, dest, size, received, chunks[0]), dest, size, received + |chunks[0]|, chunks[1..])
         == AfterChunks(s, dest, size, received, chunks)
  {
    var part, first, rest := Part(dest), chunks[0], chunks[1..];
    var kept := s.dir[part];
    Assoc(kept, first, Flatten(rest));
    assert s.dir[part := kept + first][part := kept + first + Flatten(rest)] == s.dir[part := kept + Flatten(chunks)];
    Assoc(s.progress, [(|s.paths|, received + |first|, size)],
          ChunkProgress(|s.paths|, received + |first|, size, rest));
  }

  /** The state once a file's metadata is taken and `base` is what its ".part" file starts with. */
  function Begun(s: State, tx: FileTx, base: seq<Byte>): State {
    Opened(s, WithPartial(s.dir, tx.name, base), Dest(s.dir, tx.name), |tx.content|, tx.offset)
  }

  function InTransit(s: State, tx: FileTx, base: seq<Byte>, j: nat): State
    requires j <= |tx.chunks|
  {
    AfterChunks(Begun(s, tx, base), Dest(s.dir, tx.name), |tx.content|, tx.offset, tx.chunks[..j])
  }

  function Delivered(s: State, tx: FileTx, base: seq<Byte>): State {
    var p := Dest(s.dir, tx.name);
    InTransit(s, tx, base, |tx.chunks|).(
      dir := Publish(s.dir, tx.name, base + Flatten(tx.chunks)), control := Between, paths := s.paths + [p])
  }

  /** A prefix of a file's wire that ends after its metadata and `j` chunks. */
  lemma RunFilePrefix(cfg: Config, s: State, tx: FileTx, base: seq<Byte>, j: nat)
    requires j <= |tx.chunks|
    requires Step(cfg, s, MetadataMsg(Some(Header(tx)))) == Begun(s, tx, base)
    ensures Run(cfg, s, FileWire(tx)[..j + 1]) == InTransit(s, tx, base, j)
  {
    var head := MetadataMsg(Some(Header(tx)));
    ChunksPrefix(tx.chunks, j);
    assert FileWire(tx)[..j + 1] == [head] + Chunks(tx.chunks[..j]);
    assert ([head] + Chunks(tx.chunks[..j]))[1..] == Chunks(tx.chunks[..j]);
    RunChunks(cfg, Begun(s, tx, base), Dest(s.dir, tx.name), |tx.content|, tx.offset, tx.chunks[..j]);
  }

  /** A whole file. */
  lemma RunFile(cfg: Config, s: State, tx: FileTx, base: seq<Byte>)
    requires Step(cfg, s, MetadataMsg(Some(Header(tx)))) == Begun(s, tx, base)
    ensures Run(cfg, s, FileWire(tx)) == Delivered(s, tx, base)
  {
    var n := |tx.chunks|;
    var w := FileWire(tx);
    assert w == w[..n + 1] + [Complete];
    RunFilePrefix(cfg, s, tx, base, n);
    RunAppend(cfg, s, w[..n + 1], [Complete]);
    var t := InTransit(s, tx, base, n);
    assert tx.chunks[..n] == tx.chunks;
    assert Run(cfg, t, [Complete]) == Step(cfg, t, Complete);
    var p := Dest(s.dir, tx.name);
    PartDiffers(p);
    assert Renamed(t.dir, p) == Publish(s.dir, tx.name, base + Flatten(tx.chunks));
  }

  /** A file that is not resumed starts with an empty ".part" file. */
  lemma MetadataTaken(cfg: Config, s: State, tx: FileTx)
    requires Accepting(s) && IsSafe(tx.name) && tx.offset == 0
    ensures Step(cfg, s, MetadataMsg(Some(Header(tx)))) == Begun(s, tx, [])
  {
  }

  /** A file that is resumed goes on with the ".part" file it finds. */
  lemma ArrivingTaken(cfg: Config, s: State, tx: FileTx)
    requires Accepting(s) && Arriving(cfg, s.dir, tx)
    ensures Step(cfg, s, MetadataMsg(Some(Header(tx)))) == Begun(s, tx, tx.content[..tx.offset])
  {
    if tx.offset > 0 {
      assert WithPartial(s.dir, tx.name, tx.content[..tx.offset]) == s.dir;
    } else {
      MetadataTaken(cfg, s, tx);
    }
  }

  lemma {:induction false} FlattenPrefix(chunks: seq<seq<Byte>>, j: nat)
    requires j <= |chunks|
    ensures Flatten(chunks[..j]) <= Flatten(chunks)
  {
    assert chunks == chunks[..j] + chunks[j..];
    FlattenAppend(chunks[..j], chunks[j..]);
  }

  // ---- Cut sessions ----

  /** The files all of whose messages are among the first `k`. */
  function Completed(items: seq<Item>, k: nat): seq<FileTx> {
    if items == [] || k < |ItemWire(items[0])| then []
    else FilesOf([items[0]]) + Completed(items[1..], k - |ItemWire(items[0])|)
  }

  /** The file that the first `k` messages leave unfinished, and how many of its chunks they contain. */
  function InFlight(items: seq<Item>, k: nat): (r: Option<(FileTx, nat)>)
    ensures r.Some? ==> r.value.1 <= |r.value.0.chunks| && File(r.value.0) in items
  {
    if items == [] || k == 0 then None
    else if k >= |ItemWire(items[0])| then InFlight(items[1..], k - |ItemWire(items[0])|)
    else Some((items[0].tx, k - 1))
  }

  /** The directory after the first `k` messages. */
  function CutDir(d: Dir, items: seq<Item>, k: nat): Dir {
    var done := PublishAll(d, Completed(items, k));
    match InFlight(items, k)
    case None => done
    case Some((tx, j)) => WithPartial(done, tx.name, Received(tx, j))
  }

  /** Whether a file was completed by the first `k` messages, or `before` them, and no SessionEnd has followed it. */
  predicate Pending(items: seq<Item>, k: nat, before: bool) {
    if items == [] || k < |ItemWire(items[0])| then before
    else Pending(items[1..], k - |ItemWire(items[0])|, items[0].File?)
  }

  /** The control point between files. */
  predicate Ready(s: State) {
    Accepting(s) && (s.control == Between <==> s.paths != [])
  }

  ghost predicate Trouble(cfg: Config) {
    cfg.rejectAt.Some? || cfg.negotiationFails
  }

  ghost predicate GoodItems(cfg: Config, d: Dir, items: seq<Item>, atStart: bool) {
    && AllArriving(cfg, d, FilesOf(items))
    && (cfg.single ==> End !in items)
    && NonEmptyBatches(items, atStart)
  }

  /** Every path the session stands for: what it reported, then what it holds. */
  function AllPaths(s: State): seq<string> {
    Flatten(s.reports) + s.paths
  }

  ghost predicate CutAt(s: State, t: State, items: seq<Item>, k: nat) {
    var done := Completed(items, k);
    && t.dir == CutDir(s.dir, items, k)
    && AllPaths(t) == AllPaths(s) + Dests(s.dir, done)
    && t.replies == s.replies
    && (t.paths != [] <==> Pending(items, k, s.paths != []))
    && match InFlight(items, k)
       case None => Ready(t) && (k > 0 ==> t.control == Between || t.control == Idle)
       case Some((tx, _)) =>
         t.control.InFile? && t.control.frame.Open?
         && t.control.frame.dest == Dest(PublishAll(s.dir, done), tx.name)
  }

  lemma RunFileItem(cfg: Config, s: State, tx: FileTx) returns (t: State)
    requires Ready(s) && Arriving(cfg, s.dir, tx)
    ensures t == Run(cfg, s, FileWire(tx)) && t.control == Between
    ensures t.dir == Publish(s.dir, tx.name, tx.content)
    ensures t.paths == s.paths + [Dest(s.dir, tx.name)] && t.reports == s.reports && t.replies == s.replies
  {
    t := Run(cfg, s, FileWire(tx));
    ArrivingTaken(cfg, s, tx);
    RunFile(cfg, s, tx, tx.content[..tx.offset]);
    assert tx.content[..tx.offset] + tx.content[tx.offset..] == tx.content;
  }

  lemma RunEndItem(cfg: Config, s: State) returns (t: State)
    requires s.control == Between && !Trouble(cfg) && !cfg.single
    ensures t == Run(cfg, s, [SessionEnd]) && t == s.(control := Idle, reports := s.reports + [s.paths], paths := [])
    ensures AllPaths(t) == AllPaths(s)
  {
    t := Run(cfg, s, [SessionEnd]);
    assert t == Step(cfg, s, SessionEnd);
    FlattenAppend(s.reports, [s.paths]);
    assert [s.paths][1..] == [];
    assert Flatten([s.paths]) == s.paths;
  }

  lemma FilesOfOne(item: Item)
    ensures FilesOf([item]) == match item case File(tx) => [tx] case End => []
  {
    assert [item][1..] == [];
  }

  lemma RunItem(cfg: Config, s: State, item: Item, atStart: bool) returns (t: State)
    requires Ready(s) && !Trouble(cfg) && GoodItems(cfg, s.dir, [item], atStart) && atStart == (s.paths == [])
    ensures t == Run(cfg, s, ItemWire(item)) && Ready(t) && t.replies == s.replies
    ensures t.control == Between || t.control == Idle
    ensures (t.paths == []) == item.End?
    ensures AllPaths(t) == AllPaths(s) + Dests(s.dir, FilesOf([item]))
    ensures t.dir == PublishAll(s.dir, FilesOf([item]))
    ensures cfg.single ==> t.reports == s.reports
  {
    FilesOfOne(item);
    match item
    case File(tx) =>
      assert FilesOf([item])[0] == tx;
      t := RunFileItem(cfg, s, tx);
      assert [tx][1..] == [];
      var p := [Dest(s.dir, tx.name)];
      assert Dests(s.dir, [tx]) == p + [] == p;
      assert Flatten(s.reports) + (s.paths + p) == Flatten(s.reports) + s.paths + p;
    case End =>
      assert End in [item];
      t := RunEndItem(cfg, s);
      assert AllPaths(s) + [] == AllPaths(s);
  }

  lemma GoodTail(cfg: Config, d: Dir, items: seq<Item>, atStart: bool)
    requires items != [] && GoodItems(cfg, d, items, atStart)
    ensures GoodItems(cfg, d, [items[0]], atStart)
    ensures GoodItems(cfg, PublishAll(d, FilesOf([items[0]])), items[1..], items[0].End?)
  {
    FilesOfOne(items[0]);
    assert [items[0]][1..] == [];
    assert items[0] in items;
    assert FilesOf(items) == FilesOf([items[0]]) + FilesOf(items[1..]);
    AllArrivingAppend(cfg, d, FilesOf([items[0]]), FilesOf(items[1..]));
  }

  /** A file cut after its metadata and some chunks. */
  lemma CutFile(cfg: Config, s: State, tx: FileTx, j: nat) returns (t: State)
    requires Ready(s) && Arriving(cfg, s.dir, tx) && j <= |tx.chunks|
    ensures t == Run(cfg, s, FileWire(tx)[..j + 1])
    ensures t.dir == WithPartial(s.dir, tx.name, Received(tx, j))
    ensures t.paths == s.paths && t.reports == s.reports && t.replies == s.replies
    ensures t.control.InFile? && t.control.frame.Open? && t.control.frame.dest == Dest(s.dir, tx.name)
  {
    t := Run(cfg, s, FileWire(tx)[..j + 1]);
    ArrivingTaken(cfg, s, tx);
    var part, base := Part(Dest(s.dir, tx.name)), tx.content[..tx.offset];
    RunFilePrefix(cfg, s, tx, base, j);
    assert s.dir[part := base][part := Received(tx, j)] == s.dir[part := Received(tx, j)];
  }

  lemma CutBeforeItem(cfg: Config, s: State, items: seq<Item>, k: nat) returns (t: State)
    requires items != [] && k < |ItemWire(items[0])|
    requires Ready(s) && !Trouble(cfg) && GoodItems(cfg, s.dir, items, s.paths == [])
    ensures t == Run(cfg, s, ItemWire(items[0])[..k]) && CutAt(s, t, items, k)
    ensures t.reports == s.reports && (k == 0 ==> t == s)
  {
    assert AllPaths(s) + [] == AllPaths(s);
    if k > 0 {
      var tx := items[0].tx;
      assert FilesOf(items)[0] == tx;
      t := CutFile(cfg, s, tx, k - 1);
    } else {
      assert ItemWire(items[0])[..0] == [];
      t := s;
    }
  }

  /** From any state between files, after any number of messages of a stream of files and batch ends. */
  lemma RunCut(cfg: Config, s: State, items: seq<Item>, k: nat)
    requires k <= |ItemsWire(items)|
    requires Ready(s) && !Trouble(cfg) && GoodItems(cfg, s.dir, items, s.paths == [])
    ensures CutAt(s, Run(cfg, s, ItemsWire(items)[..k]), items, k)
    ensures cfg.single ==> Run(cfg, s, ItemsWire(items)[..k]).reports == s.reports
    ensures k == 0 ==> Run(cfg, s, ItemsWire(items)[..k]) == s
  {
    var t := RunTo(cfg, s, items, k);
  }

  lemma {:induction false} RunTo(cfg: Config, s: State, items: seq<Item>, k: nat) returns (t: State)
    requires k <= |ItemsWire(items)|
    requires Ready(s) && !Trouble(cfg) && GoodItems(cfg, s.dir, items, s.paths == [])
    ensures t == Run(cfg, s, ItemsWire(items)[..k]) && CutAt(s, t, items, k)
    ensures (cfg.single ==> t.reports == s.reports) && (k == 0 ==> t == s)
    decreases |items|
  {
    hide *;
    if items == [] {
      t := NothingCut(cfg, s, k);
    } else if k < |ItemWire(items[0])| {
      CutPrefix(items, k);
      t := CutBeforeItem(cfg, s, items, k);
    } else {
      var m := RunFirst(cfg, s, items);
      TailFits(items, k);
      t := RunTo(cfg, m, items[1..], k - |ItemWire(items[0])|);
      CutAfterItem(cfg, s, m, t, items, k);
    }
  }

  lemma TailFits(items: seq<Item>, k: nat)
    requires items != [] && |ItemWire(items[0])| <= k <= |ItemsWire(items)|
    ensures k - |ItemWire(items[0])| <= |ItemsWire(items[1..])|
  {
  }

  lemma RunFirst(cfg: Config, s: State, items: seq<Item>) returns (t: State)
    requires Ready(s) && !Trouble(cfg) && items != [] && GoodItems(cfg, s.dir, items, s.paths == [])
    ensures ItemDone(cfg, s, t, items[0]) && Ready(t) && GoodItems(cfg, t.dir, items[1..], t.paths == [])
  {
    GoodTail(cfg, s.dir, items, s.paths == []);
    t := RunItem(cfg, s, items[0], s.paths == []);
  }

  /** `t` is where the messages of the item lead from `s`. */
  ghost predicate ItemDone(cfg: Config, s: State, t: State, item: Item) {
    && t == Run(cfg, s, ItemWire(item)) && Ready(t) && t.replies == s.replies && (t.paths == []) == item.End?
    && (t.control == Between || t.control == Idle)
    && t.dir == PublishAll(s.dir, FilesOf([item])) && AllPaths(t) == AllPaths(s) + Dests(s.dir, FilesOf([item]))
    && (cfg.single ==> t.reports == s.reports)
  }

  lemma CutAfterItem(cfg: Config, s: State, m: State, t: State, items: seq<Item>, k: nat)
    requires items != [] && |ItemWire(items[0])| <= k <= |ItemsWire(items)|
    requires ItemDone(cfg, s, m, items[0]) && (cfg.single ==> t.reports == m.reports)
             && k - |ItemWire(items[0])| <= |ItemsWire(items[1..])|
    requires t == Run(cfg, m, ItemsWire(items[1..])[..k - |ItemWire(items[0])|])
    requires CutAt(m, t, items[1..], k - |ItemWire(items[0])|) && (k == |ItemWire(items[0])| ==> t == m)
    ensures t == Run(cfg, s, ItemsWire(items)[..k]) && CutAt(s, t, items, k)
    ensures (cfg.single ==> t.reports == s.reports) && k > 0
  {
    CutSuffix(items, k);
    RunAppend(cfg, s, ItemWire(items[0]), ItemsWire(items[1..])[..k - |ItemWire(items[0])|]);
    JoinCuts(s, m, t, items, k);
  }

  lemma NothingCut(cfg: Config, s: State, k: nat) returns (t: State)
    requires k <= |ItemsWire([])| && Ready(s)
    ensures t == Run(cfg, s, ItemsWire([])[..k]) && CutAt(s, t, [], k) && t == s
  {
    assert ItemsWire([])[..k] == [] && AllPaths(s) + [] == AllPaths(s);
    t := s;
  }

  lemma CutPrefix(items: seq<Item>, k: nat)
    requires items != [] && k < |ItemWire(items[0])|
    ensures k <= |ItemsWire(items)| && ItemsWire(items)[..k] == ItemWire(items[0])[..k]
  {
  }

  lemma CutSuffix(items: seq<Item>, k: nat)
    requires items != [] && |ItemWire(items[0])| <= k <= |ItemsWire(items)|
    ensures var n := |ItemWire(items[0])|;
            k - n <= |ItemsWire(items[1..])|
              && ItemsWire(items)[..k] == ItemWire(items[0]) + ItemsWire(items[1..])[..k - n]
  {
  }

  lemma PathsJoin(a: seq<string>, b: seq<string>, c: seq<string>)
    ensures a + b + c == a + (b + c) && a + ([] + c) == a + c
  {
  }

  lemma JoinCuts(s: State, t: State, u: State, items: seq<Item>, k: nat)
    requires items != [] && k >= |ItemWire(items[0])|
    requires t.dir == PublishAll(s.dir, FilesOf([items[0]])) && t.replies == s.replies
    requires AllPaths(t) == AllPaths(s) + Dests(s.dir, FilesOf([items[0]]))
    requires (t.paths != []) == items[0].File? && (t.control == Between || t.control == Idle)
    requires CutAt(t, u, items[1..], k - |ItemWire(items[0])|) && (k == |ItemWire(items[0])| ==> u == t)
    ensures CutAt(s, u, items, k)
  {
    var one, rest := FilesOf([items[0]]), Completed(items[1..], k - |ItemWire(items[0])|);
    assert Completed(items, k) == one + rest;
    JoinPaths(s, t, u, one, rest);
  }

  lemma JoinPaths(s: State, t: State, u: State, one: seq<FileTx>, rest: seq<FileTx>)
    requires t.dir == PublishAll(s.dir, one) && AllPaths(t) == AllPaths(s) + Dests(s.dir, one)
    requires AllPaths(u) == AllPaths(t) + Dests(t.dir, rest)
    ensures PublishAll(s.dir, one + rest) == PublishAll(t.dir, rest)
    ensures AllPaths(u) == AllPaths(s) + Dests(s.dir, one + rest)
  {
    PublishAllAppend(s.dir, one, rest);
    PathsJoin(AllPaths(s), Dests(s.dir, one), Dests(t.dir, rest));
  }

  lemma {:induction false} PublishAllAppend(d: Dir, a: seq<FileTx>, b: seq<FileTx>)
    ensures PublishAll(d, a + b) == PublishAll(PublishAll(d, a), b)
    ensures Dests(d, a + b) == Dests(d, a) + Dests(PublishAll(d, a), b)
    decreases |a|
  {
    if a == [] {
      assert a + b == b;
    } else {
      assert (a + b)[0] == a[0] && (a + b)[1..] == a[1..] + b;
      var d1 := Publish(d, a[0].name, a[0].content);
      PublishAllAppend(d1, a[1..], b);
      var x, y, z := [Dest(d, a[0].name)], Dests(d1, a[1..]), Dests(PublishAll(d, a), b);
      assert x + (y + z) == x + y + z;
    }
  }
}
