/** Which received files are still there, unchanged, when a session is over. */
module Kept {
  import opened Names
  import opened Receiving
  import opened Wire
  import opened Sessions

  /** Every file is there under a path of its own. */
  ghost predicate AllKept(e: Dir, ps: seq<string>, txs: seq<FileTx>) {
    && |ps| == |txs|
    && Distinct(ps)
    && forall i :: 0 <= i < |ps| ==> ps[i] in e && e[ps[i]] == txs[i].content
  }

  /** No file is saved under the name that a later file uses for its partial data. */
  ghost predicate NoClash(ps: seq<string>) {
    forall i, j :: 0 <= i < j < |ps| ==> ps[i] != Part(ps[j])
  }

  lemma {:induction false} DestsLength(d: Dir, txs: seq<FileTx>)
    ensures |Dests(d, txs)| == |txs|
    decreases |txs|
  {
    if txs != [] { DestsLength(Publish(d, txs[0].name, txs[0].content), txs[1..]); }
  }

  lemma DestIsFree(d: Dir, name: string)
    ensures Dest(d, name) !in d
  {
    UniquePathIsLeastFree(d.Keys, name);
  }

  /** What no later file uses for its partial data stays, and is not used as a path again. */
  lemma {:induction false} Survives(d: Dir, txs: seq<FileTx>, n: string)
    requires n in d && forall p :: p in Dests(d, txs) ==> Part(p) != n
    ensures n in PublishAll(d, txs) && PublishAll(d, txs)[n] == d[n] && n !in Dests(d, txs)
    decreases |txs|
  {
    if txs != [] {
      var p, d1 := Dest(d, txs[0].name), Publish(d, txs[0].name, txs[0].content);
      DestIsFree(d, txs[0].name);
      assert Dests(d, txs)[0] == p && Dests(d, txs)[1..] == Dests(d1, txs[1..]);
      assert forall q :: q in Dests(d1, txs[1..]) ==> q in Dests(d, txs);
      Survives(d1, txs[1..], n);
    }
  }

  lemma {:induction false} StaysAbsent(d: Dir, txs: seq<FileTx>, n: string)
    requires n !in d
    ensures n !in PublishAll(d, txs) || n in Dests(d, txs)
    decreases |txs|
  {
    if txs != [] && Dest(d, txs[0].name) != n {
      StaysAbsent(Publish(d, txs[0].name, txs[0].content), txs[1..], n);
    }
  }

  lemma {:induction false} RemovedByLater(d: Dir, txs: seq<FileTx>, n: string, j: nat)
    requires j < |Dests(d, txs)| && Part(Dests(d, txs)[j]) == n
    ensures n !in PublishAll(d, txs) || n in Dests(d, txs)
    decreases |txs|
  {
    var p, d1 := Dest(d, txs[0].name), Publish(d, txs[0].name, txs[0].content);
    if j == 0 {
      PartDiffers(p);
      StaysAbsent(d1, txs[1..], n);
    } else {
      RemovedByLater(d1, txs[1..], n, j - 1);
    }
  }

  lemma NoClashTail(ps: seq<string>)
    requires ps != []
    ensures NoClash(ps) <==> NoClash(ps[1..]) && forall j :: 1 <= j < |ps| ==> Part(ps[j]) != ps[0]
  {
    var tail := ps[1..];
    assert forall j :: 0 <= j < |tail| ==> tail[j] == ps[j + 1];
    if NoClash(tail) && forall j :: 1 <= j < |ps| ==> Part(ps[j]) != ps[0] {
      forall i, j | 0 <= i < j < |ps|
        ensures ps[i] != Part(ps[j])
      {
        if i > 0 { assert tail[i - 1] != Part(tail[j - 1]); }
      }
    }
  }

  lemma AllKeptTail(e: Dir, ps: seq<string>, txs: seq<FileTx>)
    requires |ps| == |txs| > 0
    ensures AllKept(e, ps, txs) <==>
            ps[0] in e && e[ps[0]] == txs[0].content && ps[0] !in ps[1..] && AllKept(e, ps[1..], txs[1..])
  {
    var tail := ps[1..];
    assert forall j :: 0 <= j < |tail| ==> tail[j] == ps[j + 1];
    if ps[0] in e && e[ps[0]] == txs[0].content && ps[0] !in tail && AllKept(e, tail, txs[1..]) {
      forall i, j | 0 <= i < j < |ps|
        ensures ps[i] != ps[j]
      {
        assert ps[j] == tail[j - 1] && ps[j] in tail;
        if i > 0 { assert ps[i] == tail[i - 1]; }
      }
    }
  }

  /**
   * A session keeps every file it received exactly when no file's path is the ".part" name of a later one. The
   * paths follow from the names and the directory listing alone.
   */
  lemma {:induction false} KeptExactlyWithoutClash(d: Dir, txs: seq<FileTx>)
    ensures AllKept(PublishAll(d, txs), Dests(d, txs), txs) <==> NoClash(Dests(d, txs))
    decreases |txs|
  {
    if txs != [] {
      var ps := Dests(d, txs);
      var p, d1 := Dest(d, txs[0].name), Publish(d, txs[0].name, txs[0].content);
      DestsLength(d, txs);
      assert ps[0] == p && ps[1..] == Dests(d1, txs[1..]);
      KeptExactlyWithoutClash(d1, txs[1..]);
      NoClashTail(ps);
      AllKeptTail(PublishAll(d, txs), ps, txs);
      if j :| 1 <= j < |ps| && Part(ps[j]) == p {
        assert ps[1..][j - 1] == ps[j];
        RemovedByLater(d1, txs[1..], p, j - 1);
      } else {
        assert forall q :: q in ps[1..] ==> Part(q) != p;
        Survives(d1, txs[1..], p);
      }
    }
  }

  /** The clash is reachable: a file "x.part" followed by a file "x" does not survive. */
  lemma ClashExample(a: FileTx, b: FileTx)
    requires a.name == "x.part" && b.name == "x"
    ensures !AllKept(PublishAll(map[], [a, b]), Dests(map[], [a, b]), [a, b])
    ensures PublishAll(map[], [a, b]).Keys == {"x"}
  {
    var txs := [a, b];
    assert txs[1..] == [b] && [b][1..] == [];
    var d1: Dir := Publish(map[], a.name, a.content);
    assert d1 == map["x.part" := a.content];
    assert Part("x") == "x.part";
    assert Dest(d1, "x") == "x";
    assert PublishAll(map[], txs) == PublishAll(d1, [b]) == Publish(d1, "x", b.content);
    assert Dests(map[], txs)[0] == "x.part";
  }
}
