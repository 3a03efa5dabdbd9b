/** Saving the files of a decrypted mailbox bundle (`drop download`). */
module Download {
  import opened Bytes
  import opened Names

  datatype Entry = Entry(name: string, content: seq<Byte>)

  type Files = map<string, seq<Byte>>

  /** What the save loop leaves: the file system, the paths it printed, and whether every name was accepted. */
  datatype Outcome = Outcome(files: Files, paths: seq<string>, complete: bool)

  function SaveAll(files: Files, prefix: string, entries: seq<Entry>): Outcome
    decreases |entries|
  {
    if entries == [] then Outcome(files, [], true)
    else if !IsSafe(entries[0].name) then Outcome(files, [], false)
    else
      var path := UniquePath(files.Keys, prefix + entries[0].name);
      var rest := SaveAll(files[path := entries[0].content], prefix, entries[1..]);
      rest.(paths := [path] + rest.paths)
  }

  /** `saved` is `files` with `entries` added under the new and distinct `paths`, and nothing else changed. */
  ghost predicate AddsUnder(files: Files, saved: Files, paths: seq<string>, entries: seq<Entry>) {
    && |paths| == |entries|
    && (forall p :: p in files ==> p in saved && saved[p] == files[p])
    && (forall p :: p in saved <==> p in files || p in paths)
    && (forall i :: 0 <= i < |paths| ==>
          paths[i] !in files && paths[i] in saved && saved[paths[i]] == entries[i].content)
    && Distinct(paths)
  }

  lemma AddsUnderCons(files: Files, saved: Files, path: string, paths: seq<string>, entry: Entry, entries: seq<Entry>)
    requires path !in files && AddsUnder(files[path := entry.content], saved, paths, entries)
    ensures AddsUnder(files, saved, [path] + paths, [entry] + entries)
  {
    var next, all := files[path := entry.content], [path] + paths;
    assert path in next && path in saved && saved[path] == entry.content;
    assert forall p :: p in all <==> p == path || p in paths;
    assert path !in paths;
    DistinctCons(path, paths);
    forall i | 0 <= i < |all|
      ensures all[i] !in files && all[i] in saved && saved[all[i]] == ([entry] + entries)[i].content
    {
      if i > 0 { assert paths[i - 1] !in next; }
    }
  }

  lemma DistinctCons(path: string, paths: seq<string>)
    requires path !in paths && Distinct(paths)
    ensures Distinct([path] + paths)
  {
    var all := [path] + paths;
    forall i, j | 0 <= i < j < |all|
      ensures all[i] != all[j]
    {
      assert all[j] == paths[j - 1] && (i > 0 ==> all[i] == paths[i - 1]);
    }
  }

  /** The save loop stops in front of the first unsafe name, and only there. */
  lemma {:induction false} SaveAllStopsAtUnsafe(files: Files, prefix: string, entries: seq<Entry>)
    ensures var o := SaveAll(files, prefix, entries);
            && |o.paths| <= |entries|
            && (forall i :: 0 <= i < |o.paths| ==> IsSafe(entries[i].name))
            && (if o.complete then |o.paths| == |entries|
                else |o.paths| < |entries| && !IsSafe(entries[|o.paths|].name))
    decreases |entries|
  {
    if entries != [] && IsSafe(entries[0].name) {
      var path := UniquePath(files.Keys, prefix + entries[0].name);
      SaveAllStopsAtUnsafe(files[path := entries[0].content], prefix, entries[1..]);
      assert forall i :: 0 < i < |entries| ==> entries[i] == entries[1..][i - 1];
    }
  }

  /**
   * Saving any bundle, repeated names included, overwrites nothing and creates exactly one new file per saved
   * entry, with that entry's content.
   */
  lemma {:induction false} SaveAllAddsOneFilePerEntry(files: Files, prefix: string, entries: seq<Entry>)
    ensures var o := SaveAll(files, prefix, entries);
            && |o.paths| <= |entries|
            && AddsUnder(files, o.files, o.paths, entries[..|o.paths|])
            && |o.files| == |files| + |o.paths|
    decreases |entries|
  {
    if entries != [] && IsSafe(entries[0].name) {
      var path := UniquePath(files.Keys, prefix + entries[0].name);
      UniquePathIsLeastFree(files.Keys, prefix + entries[0].name);
      var next := files[path := entries[0].content];
      SaveAllAddsOneFilePerEntry(next, prefix, entries[1..]);
      SaveFirst(files, entries, path, SaveAll(next, prefix, entries[1..]));
    }
  }

  lemma SaveFirst(files: Files, entries: seq<Entry>, path: string, rest: Outcome)
    requires entries != [] && path !in files && |rest.paths| < |entries|
    requires var next := files[path := entries[0].content];
             AddsUnder(next, rest.files, rest.paths, entries[1..][..|rest.paths|])
             && |rest.files| == |next| + |rest.paths|
    ensures AddsUnder(files, rest.files, [path] + rest.paths, entries[..|rest.paths| + 1])
    ensures |rest.files| == |files| + |rest.paths| + 1
  {
    SizeOfInsert(files, path, entries[0].content);
    FirstAndOthers(entries, |rest.paths|);
    AddsUnderCons(files, rest.files, path, rest.paths, entries[0], entries[1..][..|rest.paths|]);
  }

  lemma FirstAndOthers(entries: seq<Entry>, k: nat)
    requires k < |entries|
    ensures [entries[0]] + entries[1..][..k] == entries[..k + 1]
  {
  }

  lemma SizeOfInsert(files: Files, path: string, content: seq<Byte>)
    requires path !in files
    ensures |files[path := content]| == |files| + 1
  {
    assert files[path := content].Keys == files.Keys + {path};
  }

  /**
   * mailboxUniqueSavePath. It splits the bare name, uniquePath the joined path; the two agree on names
   * without a separator.
   */
  method MailboxUniqueSavePath(taken: set<string>, prefix: string, safeName: string) returns (r: string)
    requires IsPrefix(prefix) && '/' !in safeName
    ensures r == UniquePath(taken, prefix + safeName)
  {
    var p := prefix + safeName;
    if p !in taken {
      return p;
    }
    var ext := Ext(safeName);
    var base := safeName[..|safeName| - |ext|];
    ghost var full := prefix + base;
    SplitJoined(prefix, safeName);
    var i := 1;
    ghost var passed: set<string> := {};
    assert taken - passed == taken;
    while true
      invariant Searched(taken, passed, full, ext, i)
      decreases |taken - passed|
    {
      p := prefix + Candidate(base, ext, i);
      JoinedCandidate(prefix, base, ext, i);
      SearchStep(taken, passed, full, ext, i);
      if p !in taken {
        return p;
      }
      ghost var before := taken - passed;
      passed := passed + {p};
      assert taken - passed == before - {p};
      i := i + 1;
    }
  }

  lemma SplitJoined(prefix: string, name: string)
    requires IsPrefix(prefix) && '/' !in name
    ensures Ext(prefix + name) == Ext(name) && Base(prefix + name) == prefix + Base(name)
  {
    ExtInsideDirectory(prefix, name);
  }

  lemma JoinedCandidate(prefix: string, base: string, ext: string, i: nat)
    ensures prefix + Candidate(base, ext, i) == Candidate(prefix + base, ext, i)
  {
  }

  lemma SaveStep(files: Files, prefix: string, entries: seq<Entry>, i: nat)
    requires i < |entries|
    ensures SaveAll(files, prefix, entries[i..])
         == if !IsSafe(entries[i].name) then Outcome(files, [], false)
            else
              var path := UniquePath(files.Keys, prefix + entries[i].name);
              var rest := SaveAll(files[path := entries[i].content], prefix, entries[i + 1..]);
              rest.(paths := [path] + rest.paths)
  {
    assert entries[i..][0] == entries[i] && entries[i..][1..] == entries[i + 1..];
  }

  lemma SavedSoFar(paths: seq<string>, path: string, rest: Outcome)
    ensures rest.(paths := paths + ([path] + rest.paths)) == rest.(paths := (paths + [path]) + rest.paths)
  {
    assert paths + ([path] + rest.paths) == (paths + [path]) + rest.paths;
  }

  class Disk {
    var files: Files

    /** The loop of cmdDownload over the decoded entries. */
    method SaveEntries(prefix: string, entries: seq<Entry>) returns (paths: seq<string>, complete: bool)
      requires IsPrefix(prefix)
      modifies this
      ensures Outcome(files, paths, complete) == SaveAll(old(files), prefix, entries)
    {
      paths := [];
      for i := 0 to |entries|
        invariant |paths| == i
        invariant var rest := SaveAll(files, prefix, entries[i..]);
                  rest.(paths := paths + rest.paths) == SaveAll(old(files), prefix, entries)
      {
        SaveStep(files, prefix, entries, i);
        if !IsSafe(entries[i].name) {
          return paths, false;
        }
        var path := MailboxUniqueSavePath(files.Keys, prefix, entries[i].name);
        SavedSoFar(paths, path, SaveAll(files[path := entries[i].content], prefix, entries[i + 1..]));
        files := files[path := entries[i].content];
        paths := paths + [path];
      }
      return paths, true;
    }
  }
}
