/** The relay's store of expiring blobs. The disk, the clock and the token generator are parameters. */
module Store {
  import opened Bytes

  /** A temporary file, by identity. */
  type Path = nat

  /** StoredFile. Times are in seconds. */
  datatype Blob = Blob(path: Path, filename: string, size: nat, createdAt: int)

  type Files = map<string, Blob>

  datatype StoreError = TokenExists | ReadFailed

  function Expired(files: Files, now: int, expiry: int): set<string> {
    set t | t in files && now - files[t].createdAt > expiry
  }

  // ---- Sums ----

  ghost function Pick(keys: set<string>): (k: string)
    requires keys != {}
    ensures k in keys
  {
    var k :| k in keys; k
  }

  ghost function Total(files: Files, keys: set<string>): nat
    requires keys <= files.Keys
    decreases |keys|
  {
    if keys == {} then 0 else files[Pick(keys)].size + Total(files, keys - {Pick(keys)})
  }

  /** The order of summation does not matter. */
  lemma {:induction false} TotalSplit(files: Files, keys: set<string>, k: string)
    requires keys <= files.Keys && k in keys
    ensures Total(files, keys) == files[k].size + Total(files, keys - {k})
    decreases |keys|
  {
    var c := Pick(keys);
    if c != k {
      TotalSplit(files, keys - {c}, k);
      TotalSplit(files, keys - {k}, c);
      assert keys - {c} - {k} == keys - {k} - {c};
    }
  }

  lemma {:induction false} TotalAgrees(a: Files, b: Files, keys: set<string>)
    requires keys <= a.Keys && keys <= b.Keys && forall k :: k in keys ==> a[k].size == b[k].size
    ensures Total(a, keys) == Total(b, keys)
    decreases |keys|
  {
    if keys != {} {
      TotalAgrees(a, b, keys - {Pick(keys)});
    }
  }

  lemma {:induction false} TotalMinus(files: Files, keys: set<string>, gone: set<string>)
    requires keys <= files.Keys && gone <= keys
    ensures Total(files, keys) == Total(files, gone) + Total(files, keys - gone)
    decreases |gone|
  {
    if gone == {} {
      assert keys - gone == keys;
    } else {
      var k := Pick(gone);
      TotalSplit(files, keys, k);
      TotalMinus(files, keys - {k}, gone - {k});
      assert keys - {k} - (gone - {k}) == keys - gone;
    }
  }

  lemma TotalPut(files: Files, token: string, blob: Blob)
    ensures var after := files[token := blob];
            Total(after, after.Keys) + (if token in files then files[token].size else 0)
              == Total(files, files.Keys) + blob.size
  {
    var after := files[token := blob];
    var others := files.Keys - {token};
    TotalSplit(after, after.Keys, token);
    assert after.Keys - {token} == others;
    TotalAgrees(files, after, others);
    if token in files {
      TotalSplit(files, files.Keys, token);
    } else {
      assert others == files.Keys;
    }
  }

  lemma TotalLeft(files: Files, gone: set<string>)
    requires gone <= files.Keys
    ensures Total(files - gone, (files - gone).Keys) + Total(files, gone) == Total(files, files.Keys)
  {
    var left := files - gone;
    assert left.Keys == files.Keys - gone;
    TotalMinus(files, files.Keys, gone);
    TotalAgrees(files, left, left.Keys);
  }

  class FileStore {
    var files: Files
    var expiredTotal: nat
    const expiry: int

    constructor (expiry: int)
      ensures files == map[] && expiredTotal == 0 && this.expiry == expiry
    {
      files, expiredTotal, this.expiry := map[], 0, expiry;
    }

    /** With nobody else at work. `content` is None when copying the upload fails. */
    method Store(filename: string, content: Option<seq<Byte>>, clientToken: string, generated: string, path: Path,
                 now: int)
      returns (r: Result<string, StoreError>)
      modifies this
      ensures expiredTotal == old(expiredTotal)
      ensures var token := if clientToken != "" then clientToken else generated;
              if token in old(files) then r == Err(TokenExists) && files == old(files)
              else if content.None? then r == Err(ReadFailed) && files == old(files)
              else r == Ok(token) && files == old(files)[token := Blob(path, filename, |content.value|, now)]
    {
      var token := clientToken;
      if token == "" {
        token := generated;
      }
      if token in files {
        return Err(TokenExists);
      }
      if content.None? {
        return Err(ReadFailed);
      }
      files := files[token := Blob(path, filename, |content.value|, now)];
      return Ok(token);
    }

    method Get(token: string) returns (f: Option<Blob>)
      ensures f == if token in files then Some(files[token]) else None
    {
      if token in files {
        return Some(files[token]);
      }
      return None;
    }

    method Stats() returns (count: nat, totalBytes: nat)
      ensures count == |files| && totalBytes == Total(files, files.Keys)
    {
      count, totalBytes := 0, 0;
      var todo := files.Keys;
      while todo != {}
        invariant todo <= files.Keys
        invariant count + |todo| == |files| && totalBytes + Total(files, todo) == Total(files, files.Keys)
        decreases |todo|
      {
        var token :| token in todo;
        TotalSplit(files, todo, token);
        todo := todo - {token};
        count, totalBytes := count + 1, totalBytes + files[token].size;
      }
    }

    /** What the cleanup loop does about one entry. */
    method TickEntry(token: string, now: int, ghost was: Files, ghost gone: set<string>, ghost todo: set<string>,
                     ghost before: nat, removed: set<Path>)
      returns (removed': set<Path>)
      requires Ticked(was, gone, todo, before, files, expiredTotal, removed) && token in todo
      requires token in gone <==> now - was[token].createdAt > expiry
      modifies this
      ensures Ticked(was, gone, todo - {token}, before, files, expiredTotal, removed')
    {
      TickOne(was, gone, todo, before, files, expiredTotal, removed, token);
      removed' := removed;
      if now - files[token].createdAt > expiry {
        removed' := removed' + {files[token].path};
        files := files - {token};
        expiredTotal := expiredTotal + 1;
      }
    }

    /** One tick of cleanupLoop: exactly the blobs past their time go. */
    method CleanupTick(now: int) returns (removed: set<Path>)
      modifies this
      ensures var gone := Expired(old(files), now, expiry);
              && files == old(files) - gone && expiredTotal == old(expiredTotal) + |gone|
              && removed == set t | t in gone :: old(files)[t].path
    {
      ghost var was, before := files, expiredTotal;
      ghost var gone := Expired(was, now, expiry);
      var todo := files.Keys;
      removed := {};
      TickStart(was, gone, todo);
      while todo != {}
        invariant Ticked(was, gone, todo, before, files, expiredTotal, removed)
        decreases |todo|
      {
        var token :| token in todo;
        removed := TickEntry(token, now, was, gone, todo, before, removed);
        todo := todo - {token};
      }
      assert gone - todo == gone;
    }
  }

  /** The cleanup loop with `todo` still to look at. */
  ghost predicate Ticked(was: Files, gone: set<string>, todo: set<string>, before: nat, files: Files, expiredTotal: nat,
                         removed: set<Path>) {
    && todo <= was.Keys && gone <= was.Keys
    && files == was - (gone - todo) && expiredTotal == before + |gone - todo|
    && removed == set t | t in gone - todo :: was[t].path
  }

  lemma TickStart(was: Files, gone: set<string>, todo: set<string>)
    requires gone <= was.Keys && todo == was.Keys
    ensures forall before: nat :: Ticked(was, gone, todo, before, was, before, {})
  {
    assert gone - todo == {} && was - {} == was;
  }

  lemma TickOne(was: Files, gone: set<string>, todo: set<string>, before: nat, files: Files, expiredTotal: nat,
                removed: set<Path>, token: string)
    requires Ticked(was, gone, todo, before, files, expiredTotal, removed) && token in todo
    ensures token in files && files[token] == was[token]
    ensures if token in gone
            then Ticked(was, gone, todo - {token}, before, files - {token}, expiredTotal + 1,
                        removed + {was[token].path})
            else Ticked(was, gone, todo - {token}, before, files, expiredTotal, removed)
  {
    if token in gone {
      assert gone - (todo - {token}) == gone - todo + {token};
    } else {
      assert gone - (todo - {token}) == gone - todo;
    }
  }
}

/** Uploads that check and commit under separate locks, and cleanup ticks, interleaved. */
module StoreRuns {
  import opened Store

  const TICK := 60

  /** How many bytes came in with commits, and how they went. */
  datatype Balance = Balance(committed: nat, expired: nat, overwritten: nat)

  /**
   * `uploads`: which token each upload under way found free; `disk`: the temporary files there are; the clock, and when
   * the last cleanup tick was. The rest is history: when each upload was committed and for which token, when it
   * expired, which ones another commit replaced.
   */
  datatype State = State(files: Files, expiredTotal: nat, uploads: map<Path, string>, disk: set<Path>, expiry: nat,
                         clock: int, lastTick: int,
                         committed: map<Path, (string, int)>, expiredAt: map<Path, int>, overwritten: set<Path>,
                         bytes: Balance)

  datatype Step =
    | Check(path: Path, token: string, at: int)
    | CopyFails(path: Path, at: int)
    | Commit(path: Path, filename: string, size: nat, at: int)
    | Tick(at: int)

  function Initial(expiry: nat, now: int): State {
    State(map[], 0, map[], {}, expiry, now, now, map[], map[], {}, Balance(0, 0, 0))
  }

  /** Time goes on, and the next tick is never late. */
  predicate InTime(s: State, at: int) {
    s.clock <= at <= s.lastTick + TICK
  }

  predicate Enabled(s: State, step: Step) {
    InTime(s, step.at)
    && match step
       case Check(path, token, _) => token !in s.files && path !in s.uploads && path !in s.committed && path !in s.disk
       case CopyFails(path, _) => path in s.uploads
       case Commit(path, _, _, _) => path in s.uploads
       case Tick(_) => true
  }

  function Paths(files: Files, keys: set<string>): set<Path>
    requires keys <= files.Keys
  {
    set t | t in keys :: files[t].path
  }

  function CommitTo(s: State, path: Path, filename: string, size: nat): State
    requires path in s.uploads
  {
    var token := s.uploads[path];
    var t := s.(files := s.files[token := Blob(path, filename, size, s.clock)],
                uploads := s.uploads - {path}, committed := s.committed[path := (token, s.clock)],
                bytes := s.bytes.(committed := s.bytes.committed + size));
    if token in s.files then
      t.(overwritten := s.overwritten + {s.files[token].path},
         bytes := t.bytes.(overwritten := s.bytes.overwritten + s.files[token].size))
    else t
  }

  ghost function TickAt(s: State, at: int): State {
    var gone := Expired(s.files, at, s.expiry);
    s.(files := s.files - gone, expiredTotal := s.expiredTotal + |gone|, disk := s.disk - Paths(s.files, gone),
       lastTick := at, expiredAt := s.expiredAt + (map p | p in Paths(s.files, gone) :: at),
       bytes := s.bytes.(expired := s.bytes.expired + Total(s.files, gone)))
  }

  ghost function Apply(s: State, step: Step): State
    requires Enabled(s, step)
  {
    var t := s.(clock := step.at);
    match step
    case Check(path, token, _) => t.(uploads := s.uploads[path := token], disk := s.disk + {path})
    case CopyFails(path, _) => t.(uploads := s.uploads - {path}, disk := s.disk - {path})
    case Commit(path, filename, size, _) => CommitTo(t, path, filename, size)
    case Tick(at) => TickAt(t, at)
  }

  // ---- Invariant ----

  predicate Present(s: State, p: Path) {
    p in s.committed && s.committed[p].0 in s.files && s.files[s.committed[p].0].path == p
  }

  /** The map holds committed uploads that neither expired nor were replaced; the last tick left them. */
  ghost predicate FilesOk(s: State) {
    forall t :: t in s.files ==>
      var f := s.files[t];
      f.path in s.committed && s.committed[f.path] == (t, f.createdAt) && f.path !in s.expiredAt
        && f.path !in s.overwritten
      && f.createdAt <= s.clock && s.lastTick - f.createdAt <= s.expiry
  }

  /** Every committed upload is in the map, or expired in its time, or was replaced. */
  ghost predicate FatesOk(s: State) {
    && (forall p :: p in s.committed ==> p in s.expiredAt || p in s.overwritten || Present(s, p))
    && (forall p :: p in s.expiredAt ==>
          p in s.committed && p !in s.overwritten && p !in s.uploads
          && s.committed[p].1 + s.expiry < s.expiredAt[p] <= s.committed[p].1 + s.expiry + TICK
          && s.expiredAt[p] <= s.clock)
    && (forall p :: p in s.overwritten ==> p in s.committed)
    && (forall p :: p in s.committed ==> p !in s.uploads)
  }

  ghost predicate CountsOk(s: State) {
    && s.expiredTotal == |s.expiredAt|
    && |s.committed| == |s.files| + |s.expiredAt| + |s.overwritten|
    && s.bytes.committed == Total(s.files, s.files.Keys) + s.bytes.expired + s.bytes.overwritten
  }

  ghost predicate DiskOk(s: State) {
    s.disk == Paths(s.files, s.files.Keys) + s.uploads.Keys + s.overwritten
  }

  ghost predicate Inv(s: State) {
    s.lastTick <= s.clock <= s.lastTick + TICK && FilesOk(s) && FatesOk(s) && CountsOk(s) && DiskOk(s)
  }

  lemma InitialInv(expiry: nat, now: int)
    ensures Inv(Initial(expiry, now))
  {
  }

  // ---- Steps keep it ----

  lemma CommitKeepsFiles(s: State, path: Path, filename: string, size: nat)
    requires FilesOk(s) && FatesOk(s) && s.lastTick <= s.clock && path in s.uploads
    ensures FilesOk(CommitTo(s, path, filename, size))
  {
    assert path !in s.committed;
  }

  lemma CommitKeepsFates(s: State, path: Path, filename: string, size: nat)
    requires FilesOk(s) && FatesOk(s) && path in s.uploads
    ensures FatesOk(CommitTo(s, path, filename, size))
  {
    var t := CommitTo(s, path, filename, size);
    forall p | p in t.committed
      ensures p in t.expiredAt || p in t.overwritten || Present(t, p)
    {
      assert p == path || p in s.committed;
    }
  }

  lemma CommitKeepsCounts(s: State, path: Path, filename: string, size: nat)
    requires CountsOk(s) && path in s.uploads && path !in s.committed
    requires forall k :: k in s.files ==> s.files[k].path !in s.overwritten
    ensures CountsOk(CommitTo(s, path, filename, size))
  {
    TotalPut(s.files, s.uploads[path], Blob(path, filename, size, s.clock));
  }

  lemma CommitKeepsDisk(s: State, path: Path, filename: string, size: nat)
    requires DiskOk(s) && path in s.uploads
    ensures DiskOk(CommitTo(s, path, filename, size))
  {
    var t := CommitTo(s, path, filename, size);
    var token := s.uploads[path];
    forall p
      ensures p in Paths(t.files, t.files.Keys) + t.uploads.Keys + t.overwritten <==> p in s.disk
    {
      if p in Paths(s.files, s.files.Keys) {
        var k :| k in s.files && s.files[k].path == p;
        assert k == token || t.files[k].path == p;
      }
      if p == path {
        assert t.files[token].path == p;
      }
    }
  }

  lemma {:induction false} PathsCount(s: State, keys: set<string>)
    requires FilesOk(s) && keys <= s.files.Keys
    ensures |Paths(s.files, keys)| == |keys|
    decreases |keys|
  {
    if keys == {} {
    } else {
      var k := Pick(keys);
      PathsCount(s, keys - {k});
      assert s.files[k].path !in Paths(s.files, keys - {k});
      assert Paths(s.files, keys) == Paths(s.files, keys - {k}) + {s.files[k].path};
    }
  }

  lemma MapGrows(m: map<Path, int>, paths: set<Path>, at: int)
    requires m.Keys !! paths
    ensures |m + map p | p in paths :: at| == |m| + |paths|
  {
    var more := m + map p | p in paths :: at;
    assert more.Keys == m.Keys + paths;
  }

  lemma MapShrinks(files: Files, gone: set<string>)
    requires gone <= files.Keys
    ensures |files - gone| == |files| - |gone|
  {
    assert (files - gone).Keys == files.Keys - gone;
  }

  lemma PathsAreNew(s: State, keys: set<string>)
    requires FilesOk(s) && keys <= s.files.Keys
    ensures s.expiredAt.Keys !! Paths(s.files, keys) && s.overwritten !! Paths(s.files, keys)
    ensures Paths(s.files, keys) <= s.committed.Keys
  {
  }

  lemma TickExpires(s: State, at: int)
    requires FilesOk(s)
    ensures var t, gone := TickAt(s, at), Expired(s.files, at, s.expiry);
            |t.expiredAt| == |s.expiredAt| + |gone| && |t.files| == |s.files| - |gone|
  {
    var gone := Expired(s.files, at, s.expiry);
    PathsCount(s, gone);
    PathsAreNew(s, gone);
    MapGrows(s.expiredAt, Paths(s.files, gone), at);
    MapShrinks(s.files, gone);
  }

  lemma TickKeepsCounts(s: State, at: int)
    requires CountsOk(s) && FilesOk(s)
    ensures CountsOk(TickAt(s, at))
  {
    TickExpires(s, at);
    TotalLeft(s.files, Expired(s.files, at, s.expiry));
  }

  lemma TickKeepsFiles(s: State, at: int)
    requires FilesOk(s) && s.clock == at
    ensures FilesOk(TickAt(s, at))
  {
    var t, gone := TickAt(s, at), Expired(s.files, at, s.expiry);
    var paths := Paths(s.files, gone);
    forall k | k in t.files
      ensures t.files[k].path !in paths
    {
      assert k in s.files;
    }
  }

  /** What a tick removes is past its time, by no more than the time since the tick before. */
  lemma TickInTime(s: State, at: int, p: Path)
    requires FilesOk(s) && s.clock == at && at <= s.lastTick + TICK
    requires p in Paths(s.files, Expired(s.files, at, s.expiry))
    ensures p in s.committed && s.committed[p].1 + s.expiry < at <= s.committed[p].1 + s.expiry + TICK
  {
    var k :| k in Expired(s.files, at, s.expiry) && s.files[k].path == p;
  }

  lemma TickKeepsFates(s: State, at: int)
    requires FilesOk(s) && FatesOk(s) && s.clock == at && at <= s.lastTick + TICK
    ensures FatesOk(TickAt(s, at))
  {
    var t, gone := TickAt(s, at), Expired(s.files, at, s.expiry);
    var paths := Paths(s.files, gone);
    PathsAreNew(s, gone);
    forall p | p in paths
      ensures p in s.committed && s.committed[p].1 + s.expiry < at <= s.committed[p].1 + s.expiry + TICK
    {
      TickInTime(s, at, p);
    }
    forall p | p in s.committed
      ensures p in t.expiredAt || p in t.overwritten || Present(t, p)
    {
      if Present(s, p) && s.committed[p].0 in gone {
        assert p in paths;
      }
    }
  }

  lemma TickKeepsDisk(s: State, at: int)
    requires DiskOk(s) && FilesOk(s) && FatesOk(s)
    ensures DiskOk(TickAt(s, at))
  {
    var t, gone := TickAt(s, at), Expired(s.files, at, s.expiry);
    assert Paths(s.files, s.files.Keys) - Paths(s.files, gone) == Paths(t.files, t.files.Keys) by {
      forall p | p in Paths(s.files, s.files.Keys) - Paths(s.files, gone)
        ensures p in Paths(t.files, t.files.Keys)
      {
        var k :| k in s.files && s.files[k].path == p;
        assert k in t.files && t.files[k].path == p;
      }
    }
    PathsAreNew(s, gone);
    assert Paths(s.files, gone) !! s.uploads.Keys;
  }

  lemma TimeKeepsInv(s: State, at: int)
    requires Inv(s) && InTime(s, at)
    ensures Inv(s.(clock := at))
  {
  }

  lemma CommitKeepsInv(s: State, path: Path, filename: string, size: nat)
    requires Inv(s) && path in s.uploads
    ensures Inv(CommitTo(s, path, filename, size))
  {
    CommitKeepsFiles(s, path, filename, size);
    CommitKeepsFates(s, path, filename, size);
    CommitKeepsCounts(s, path, filename, size);
    CommitKeepsDisk(s, path, filename, size);
  }

  lemma TickKeepsInv(s: State, at: int)
    requires Inv(s) && s.clock == at
    ensures Inv(TickAt(s, at))
  {
    TickKeepsFiles(s, at);
    TickKeepsFates(s, at);
    TickKeepsCounts(s, at);
    TickKeepsDisk(s, at);
  }

  lemma UploadsKeepFates(s: State, uploads: map<Path, string>, disk: set<Path>)
    requires FilesOk(s) && FatesOk(s) && forall p :: p in uploads ==> p !in s.committed
    ensures FilesOk(s.(uploads := uploads, disk := disk)) && FatesOk(s.(uploads := uploads, disk := disk))
  {
  }

  lemma CheckKeepsInv(s: State, path: Path, token: string)
    requires Inv(s) && path !in s.committed
    ensures Inv(s.(uploads := s.uploads[path := token], disk := s.disk + {path}))
  {
    UploadsKeepFates(s, s.uploads[path := token], s.disk + {path});
    CheckKeepsDisk(s, path, token);
  }

  lemma CheckKeepsDisk(s: State, path: Path, token: string)
    requires DiskOk(s)
    ensures DiskOk(s.(uploads := s.uploads[path := token], disk := s.disk + {path}))
  {
  }

  lemma FailKeepsInv(s: State, path: Path)
    requires Inv(s) && path in s.uploads
    ensures Inv(s.(uploads := s.uploads - {path}, disk := s.disk - {path}))
  {
    UploadsKeepFates(s, s.uploads - {path}, s.disk - {path});
    PathsAreNew(s, s.files.Keys);
    FailKeepsDisk(s, path);
  }

  lemma FailKeepsDisk(s: State, path: Path)
    requires DiskOk(s) && path in s.uploads && path !in s.overwritten && path !in Paths(s.files, s.files.Keys)
    ensures DiskOk(s.(uploads := s.uploads - {path}, disk := s.disk - {path}))
  {
  }

  lemma StepKeepsInv(s: State, step: Step)
    requires Inv(s) && Enabled(s, step)
    ensures Inv(Apply(s, step))
  {
    var t := s.(clock := step.at);
    TimeKeepsInv(s, step.at);
    match step
    case Check(path, token, _) => CheckKeepsInv(t, path, token);
    case CopyFails(path, _) => FailKeepsInv(t, path);
    case Commit(path, filename, size, _) => CommitKeepsInv(t, path, filename, size);
    case Tick(at) => TickKeepsInv(t, at);
  }

  // ---- Runs ----

  ghost predicate Legal(s: State, steps: seq<Step>)
    decreases |steps|
  {
    steps == [] || (Enabled(s, steps[0]) && Legal(Apply(s, steps[0]), steps[1..]))
  }

  ghost function Run(s: State, steps: seq<Step>): State
    requires Legal(s, steps)
    decreases |steps|
  {
    if steps == [] then s else Run(Apply(s, steps[0]), steps[1..])
  }

  lemma {:induction false} RunKeepsInv(s: State, steps: seq<Step>)
    requires Inv(s) && Legal(s, steps)
    ensures Inv(Run(s, steps))
    decreases |steps|
  {
    if steps != [] {
      StepKeepsInv(s, steps[0]);
      RunKeepsInv(Apply(s, steps[0]), steps[1..]);
    }
  }

  /** Every commit is active, expired or overwritten, and just one of them; the same in bytes, and on the disk. */
  lemma Conservation(expiry: nat, now: int, steps: seq<Step>)
    requires Legal(Initial(expiry, now), steps)
    ensures var s := Run(Initial(expiry, now), steps);
            && |s.committed| == |s.files| + s.expiredTotal + |s.overwritten|
            && s.bytes.committed == Total(s.files, s.files.Keys) + s.bytes.expired + s.bytes.overwritten
            && (forall p :: p in s.committed ==>
                  (Present(s, p) <==> p !in s.expiredAt && p !in s.overwritten)
                    && !(p in s.expiredAt && p in s.overwritten))
            && s.disk == Paths(s.files, s.files.Keys) + s.uploads.Keys + s.overwritten
  {
    InitialInv(expiry, now);
    RunKeepsInv(Initial(expiry, now), steps);
  }

  /** A blob that nobody overwrites is in the map for its whole time, and not for a tick longer. */
  lemma Lifetime(expiry: nat, now: int, steps: seq<Step>, p: Path)
    requires Legal(Initial(expiry, now), steps)
    ensures var s := Run(Initial(expiry, now), steps);
            p in s.committed && p !in s.overwritten ==>
              && (s.clock <= s.committed[p].1 + expiry ==> Present(s, p))
              && (s.clock > s.committed[p].1 + expiry + TICK ==> !Present(s, p))
  {
    InitialInv(expiry, now);
    RunKeepsInv(Initial(expiry, now), steps);
    ExpiryIsFixed(Initial(expiry, now), steps);
  }

  lemma {:induction false} ExpiryIsFixed(s: State, steps: seq<Step>)
    requires Legal(s, steps)
    ensures Run(s, steps).expiry == s.expiry
    decreases |steps|
  {
    if steps != [] {
      ExpiryIsFixed(Apply(s, steps[0]), steps[1..]);
    }
  }

  // ---- Overwriting ----

  /** No other upload for the token is between its check and its commit. */
  predicate Alone(s: State, step: Step) {
    step.Check? ==> forall p :: p in s.uploads ==> s.uploads[p] != step.token
  }

  ghost predicate AllAlone(s: State, steps: seq<Step>)
    requires Legal(s, steps)
    decreases |steps|
  {
    steps == [] || (Alone(s, steps[0]) && AllAlone(Apply(s, steps[0]), steps[1..]))
  }

  ghost predicate NoRace(s: State) {
    && (forall p, q :: p in s.uploads && q in s.uploads && s.uploads[p] == s.uploads[q] ==> p == q)
    && (forall p :: p in s.uploads ==> s.uploads[p] !in s.files)
    && s.overwritten == {}
  }

  lemma AloneKeepsNoRace(s: State, step: Step)
    requires NoRace(s) && Enabled(s, step) && Alone(s, step)
    ensures NoRace(Apply(s, step))
  {
  }

  /** While uploads for one token do not overlap, none is overwritten. */
  lemma {:induction false} NoOverlapNoOverwrite(s: State, steps: seq<Step>)
    requires Legal(s, steps) && AllAlone(s, steps) && NoRace(s)
    ensures NoRace(Run(s, steps)) && Run(s, steps).overwritten == {}
    decreases |steps|
  {
    if steps != [] {
      AloneKeepsNoRace(s, steps[0]);
      NoOverlapNoOverwrite(Apply(s, steps[0]), steps[1..]);
    }
  }

  lemma OutOfReach(s: State, a: Path)
    requires FilesOk(s) && DiskOk(s) && a in s.overwritten
    ensures a in s.disk && !Present(s, a) && forall token :: token in s.files ==> s.files[token].path != a
  {
  }

  /** A commit for a token that is taken by then. */
  lemma LateCommit(s: State, b: Path, filename: string, size: nat)
    requires Inv(s) && b in s.uploads && s.uploads[b] in s.files
    ensures var a, t := s.files[s.uploads[b]].path, CommitTo(s, b, filename, size);
            && a in t.overwritten && a in t.disk && !Present(t, a) && Present(t, b)
            && forall token :: token in t.files ==> t.files[token].path != a
  {
    CommitKeepsInv(s, b, filename, size);
    OutOfReach(CommitTo(s, b, filename, size), s.files[s.uploads[b]].path);
  }

  /**
   * And once two do, both can commit, and the later one replaces the earlier: its bytes stay on the disk, out of reach.
   */
  lemma OverlapOverwrites(s: State, a: Path, b: Path, filename: string, size: nat)
    requires Inv(s) && a in s.uploads && b in s.uploads && a != b && s.uploads[a] == s.uploads[b]
    ensures var first, second := Commit(a, filename, size, s.clock), Commit(b, filename, size, s.clock);
            && Enabled(s, first) && Enabled(Apply(s, first), second)
            && var t := Apply(Apply(s, first), second);
               && a in t.overwritten && a in t.disk && !Present(t, a) && Present(t, b)
               && forall token :: token in t.files ==> t.files[token].path != a
  {
    CommitKeepsInv(s, a, filename, size);
    var s1 := CommitTo(s, a, filename, size);
    assert s.(clock := s.clock) == s && s1.(clock := s1.clock) == s1;
    LateCommit(s1, b, filename, size);
  }

  lemma StepThen(s: State, step: Step, rest: seq<Step>)
    requires Enabled(s, step) && Legal(Apply(s, step), rest)
    ensures Legal(s, [step] + rest) && Run(s, [step] + rest) == Run(Apply(s, step), rest)
  {
    assert ([step] + rest)[1..] == rest;
  }

  /** It happens: two uploads check for the same token before either commits. */
  lemma OverwriteIsReachable(expiry: nat, now: int, token: string, filename: string, size: nat)
    ensures exists steps :: Legal(Initial(expiry, now), steps) && 0 in Run(Initial(expiry, now), steps).overwritten
  {
    var s := Initial(expiry, now);
    InitialInv(expiry, now);
    assert NothingYet(s, token) && s.clock == now;
    RaceOverwrites(s, token, filename, size);
  }

  ghost predicate NothingYet(s: State, token: string) {
    s.uploads == map[] && s.committed == map[] && s.disk == {} && token !in s.files
  }

  /** Both uploads, 0 and 1, have found the token free. */
  function Racing(s: State, token: string): State {
    s.(uploads := map[0 := token, 1 := token], disk := {0, 1})
  }

  lemma RaceOverwrites(s: State, token: string, filename: string, size: nat)
    requires Inv(s) && NothingYet(s, token)
    ensures exists steps :: Legal(s, steps) && 0 in Run(s, steps).overwritten
  {
    hide Inv, Legal, Run;
    var t := Racing(s, token);
    BothCheck(s, token);
    assert t.clock == s.clock && t.uploads[0] == t.uploads[1];
    var c, d := Commit(0, filename, size, s.clock), Commit(1, filename, size, s.clock);
    OverlapOverwrites(t, 0, 1, filename, size);
    hide *;
    NoSteps(Apply(Apply(t, c), d));
    StepThen(Apply(t, c), d, []);
    StepThen(t, c, [d] + []);
    ChecksThen(s, token, [c] + ([d] + []));
  }

  lemma NoSteps(s: State)
    ensures Legal(s, []) && Run(s, []) == s
  {
  }

  lemma BothCheck(s: State, token: string)
    requires Inv(s) && NothingYet(s, token)
    ensures Inv(Racing(s, token))
  {
    hide Inv;
    CheckKeepsInv(s, 0, token);
    var s1 := s.(uploads := s.uploads[0 := token], disk := s.disk + {0});
    CheckKeepsInv(s1, 1, token);
    var s2 := s1.(uploads := s1.uploads[1 := token], disk := s1.disk + {1});
    assert s2.disk == {0, 1};
    assert s2 == Racing(s, token);
  }

  lemma ChecksThen(s: State, token: string, rest: seq<Step>)
    requires Inv(s) && NothingYet(s, token) && Legal(Racing(s, token), rest)
    ensures var steps := [Check(0, token, s.clock)] + ([Check(1, token, s.clock)] + rest);
            Legal(s, steps) && Run(s, steps) == Run(Racing(s, token), rest)
  {
    var a, b := Check(0, token, s.clock), Check(1, token, s.clock);
    var s1 := s.(uploads := map[0 := token], disk := {0});
    assert Apply(s, a) == s1;
    assert Apply(s1, b) == Racing(s, token);
    StepThen(s1, b, rest);
    StepThen(s, a, [b] + rest);
  }
}
