/**
 * File names, with `/` between path elements: which ones a sender may suggest, and which free name a file is saved
 * under.
 */
module Names {

  const PART := ".part"

  predicate EndsWith(s: string, suffix: string) {
    |suffix| <= |s| && s[|s| - |suffix|..] == suffix
  }

  ghost predicate Distinct(paths: seq<string>) {
    forall i, j :: 0 <= i < j < |paths| ==> paths[i] != paths[j]
  }

  predicate IsPartial(name: string) {
    EndsWith(name, PART)
  }

  /** `filepath.Clean` on a string without separators: only the empty path is rewritten. */
  function CleanElement(s: string): string
    requires '/' !in s
  {
    if s == "" then "." else s
  }

  /** Whether SafeFilename accepts `raw`, check by check. */
  predicate IsSafe(raw: string) {
    && raw != ""
    && '\0' !in raw
    && '/' !in raw && '\\' !in raw
    && raw != "." && raw != ".."
    && CleanElement(raw) == raw
  }

  // ---- Where a suggested name leads ----

  /** On some platform or other. */
  predicate IsSeparator(c: char) {
    c == '/' || c == '\\'
  }

  /** The path elements between the separators. */
  function Elements(path: string): (es: seq<string>)
    ensures es != []
  {
    if path == "" then [""]
    else
      var rest := Elements(path[1..]);
      if IsSeparator(path[0]) then [""] + rest else [[path[0]] + rest[0]] + rest[1..]
  }

  /** From the directory `at`, given by its elements, one element on. */
  function Follow(at: seq<string>, element: string): seq<string> {
    if element == "" || element == "." then at
    else if element == ".." then if at == [] then at else at[..|at| - 1]
    else at + [element]
  }

  /** The directory or file that a relative path leads to from `at`. */
  function Resolve(at: seq<string>, elements: seq<string>): seq<string>
    decreases |elements|
  {
    if elements == [] then at else Resolve(Follow(at, elements[0]), elements[1..])
  }

  ghost predicate Plain(element: string) {
    forall c :: c in element ==> !IsSeparator(c)
  }

  lemma {:induction false} ElementsArePlain(path: string)
    ensures forall e :: e in Elements(path) ==> Plain(e)
    ensures Plain(path) ==> Elements(path) == [path]
  {
    if path != "" {
      ElementsArePlain(path[1..]);
      var rest := Elements(path[1..]);
      assert rest[0] in rest && forall e :: e in rest[1..] ==> e in rest;
      assert Plain(path) ==> Plain(path[1..]);
      assert [path[0]] + path[1..] == path;
    }
  }

  lemma {:induction false} ResolvedIsPlain(at: seq<string>, elements: seq<string>)
    requires (forall e :: e in at ==> Plain(e)) && forall e :: e in elements ==> Plain(e)
    ensures forall e :: e in Resolve(at, elements) ==> Plain(e)
    decreases |elements|
  {
    if elements != [] {
      assert forall e :: e in elements[1..] ==> e in elements;
      ResolvedIsPlain(Follow(at, elements[0]), elements[1..]);
    }
  }

  /**
   * SafeFilename accepts exactly the names without a NUL that lead from the destination, whatever it is, to its direct
   * child of that very name.
   */
  lemma SafeExactly(dest: seq<string>, raw: string)
    requires forall e :: e in dest ==> Plain(e)
    ensures IsSafe(raw) <==> '\0' !in raw && Resolve(dest, Elements(raw)) == dest + [raw]
  {
    ElementsArePlain(raw);
    ResolvedIsPlain(dest, Elements(raw));
    var child := dest + [raw];
    assert child[|dest|] == raw;
    if Resolve(dest, Elements(raw)) == child {
      assert raw in child;
    }
    if Plain(raw) {
      assert Elements(raw)[1..] == [];
      assert Resolve(dest, Elements(raw)) == Follow(dest, raw);
      assert |dest + [raw]| == |dest| + 1;
    }
  }

  // ---- filepath.Ext ----

  /** The suffix from the last dot of the last path element on, or nothing. */
  function Ext(path: string): (ext: string)
    ensures |ext| <= |path|
  {
    if path == "" || path[|path| - 1] == '/' then ""
    else if path[|path| - 1] == '.' then "."
    else
      var front := Ext(path[..|path| - 1]);
      if front == "" then "" else front + [path[|path| - 1]]
  }

  function Base(path: string): string {
    path[..|path| - |Ext(path)|]
  }

  lemma {:induction false} ExtShape(path: string)
    ensures Base(path) + Ext(path) == path
    ensures Ext(path) != "" ==> Ext(path)[0] == '.' && '.' !in Ext(path)[1..] && '/' !in Ext(path)
  {
    if path != "" && path[|path| - 1] != '/' && path[|path| - 1] != '.' {
      var front, last := path[..|path| - 1], path[|path| - 1];
      ExtShape(front);
      if Ext(front) != "" {
        assert Base(path) == Base(front);
        assert Ext(path)[1..] == Ext(front)[1..] + [last];
      }
    }
  }

  lemma {:induction false} ExtOfDotted(stem: string, tail: string)
    requires '.' !in tail && '/' !in tail
    ensures Ext(stem + "." + tail) == "." + tail
  {
    var path := stem + "." + tail;
    if tail == "" {
      assert path[|path| - 1] == '.';
    } else {
      var front := tail[..|tail| - 1];
      ExtOfDotted(stem, front);
      assert path[..|path| - 1] == stem + "." + front;
      assert path[|path| - 1] == tail[|tail| - 1] && tail[|tail| - 1] in tail;
      assert "." + front + [tail[|tail| - 1]] == "." + tail;
    }
  }

  lemma {:induction false} ExtOfUndotted(stem: string, tail: string)
    requires Ext(stem) == "" && '.' !in tail && '/' !in tail
    ensures Ext(stem + tail) == ""
  {
    if tail == "" {
      assert stem + tail == stem;
    } else {
      ExtOfUndotted(stem, tail[..|tail| - 1]);
      assert (stem + tail)[..|stem + tail| - 1] == stem + tail[..|tail| - 1];
      assert tail[|tail| - 1] in tail;
    }
  }

  /** A directory prefix contributes nothing to the extension of what is inside the directory. */
  lemma {:induction false} ExtInsideDirectory(prefix: string, name: string)
    requires IsPrefix(prefix) && '/' !in name
    ensures Ext(prefix + name) == Ext(name)
  {
    if name == "" {
      assert prefix + name == prefix;
    } else {
      ExtInsideDirectory(prefix, name[..|name| - 1]);
      JoinFront(prefix, name);
      assert name[|name| - 1] in name;
    }
  }

  lemma JoinFront(prefix: string, name: string)
    requires name != ""
    ensures (prefix + name)[..|prefix + name| - 1] == prefix + name[..|name| - 1]
    ensures (prefix + name)[|prefix + name| - 1] == name[|name| - 1]
  {
  }

  /** What `filepath.Join(destDir, _)` puts before a name: nothing for ".", else the directory and a slash. */
  predicate IsPrefix(prefix: string) {
    prefix == "" || prefix[|prefix| - 1] == '/'
  }

  // ---- Decimal numbers ----

  function Digit(d: nat): char
    requires d < 10
  {
    "0123456789"[d]
  }

  function Decimal(n: nat): (s: string)
    ensures s != ""
    ensures forall c :: c in s ==> '0' <= c <= '9'
  {
    if n < 10 then [Digit(n)] else Decimal(n / 10) + [Digit(n % 10)]
  }

  predicate AllDigits(s: string) {
    forall c :: c in s ==> '0' <= c <= '9'
  }

  /** What a string of digits is worth in base ten. */
  function Value(s: string): nat
    requires AllDigits(s)
  {
    if s == "" then 0
    else
      var front := s[..|s| - 1];
      assert s[|s| - 1] in s && forall c :: c in front ==> c in s;
      10 * Value(front) + (s[|s| - 1] as int - '0' as int)
  }

  /** `s` is the decimal numeral of `n`, without leading zeros. */
  predicate Spells(s: string, n: nat) {
    s != "" && AllDigits(s) && Value(s) == n && (|s| > 1 ==> s[0] != '0')
  }

  lemma {:induction false} DecimalSpells(n: nat)
    ensures Spells(Decimal(n), n)
    ensures n > 0 ==> Decimal(n)[0] != '0'
  {
    var s := Decimal(n);
    if n >= 10 {
      DecimalSpells(n / 10);
      assert s[..|s| - 1] == Decimal(n / 10) && s[0] == Decimal(n / 10)[0];
    }
  }

  lemma DecimalInjective(m: nat, n: nat)
    requires Decimal(m) == Decimal(n)
    ensures m == n
  {
    DecimalSpells(m);
    DecimalSpells(n);
  }

  // ---- uniquePath ----

  function Candidate(base: string, ext: string, i: nat): string {
    base + "(" + Decimal(i) + ")" + ext
  }

  lemma CandidateInjective(base: string, ext: string, i: nat, j: nat)
    requires Candidate(base, ext, i) == Candidate(base, ext, j)
    ensures i == j
  {
    var s, t := Candidate(base, ext, i), Candidate(base, ext, j);
    assert s[|base| + 1..|s| - |ext| - 1] == Decimal(i);
    assert t[|base| + 1..|t| - |ext| - 1] == Decimal(j);
    DecimalInjective(i, j);
  }

  /** The least number from `i` on whose candidate is free. Every taken candidate uses up one taken name. */
  function FirstFree(taken: set<string>, base: string, ext: string, i: nat): nat
    decreases |taken|
  {
    var c := Candidate(base, ext, i);
    if c in taken then FirstFree(taken - {c}, base, ext, i + 1) else i
  }

  lemma {:induction false} FirstFreeIsLeast(taken: set<string>, base: string, ext: string, i: nat)
    ensures var r := FirstFree(taken, base, ext, i);
            && i <= r <= i + |taken|
            && Candidate(base, ext, r) !in taken
            && forall j :: i <= j < r ==> Candidate(base, ext, j) in taken
    decreases |taken|
  {
    var c := Candidate(base, ext, i);
    if c in taken {
      var r := FirstFree(taken - {c}, base, ext, i + 1);
      FirstFreeIsLeast(taken - {c}, base, ext, i + 1);
      if Candidate(base, ext, r) == c { CandidateInjective(base, ext, r, i); }
    }
  }

  /** The path `uniquePath` returns when exactly the paths in `taken` exist. */
  function UniquePath(taken: set<string>, path: string): string {
    if path !in taken then path
    else Candidate(Base(path), Ext(path), FirstFree(taken, Base(path), Ext(path), 1))
  }

  /**
   * uniquePath is total, returns a free path, keeps a free path as it is, and otherwise picks the least
   * free number, which is at most one more than the number of existing entries.
   */
  lemma UniquePathIsLeastFree(taken: set<string>, path: string)
    ensures var r := UniquePath(taken, path);
            && r !in taken
            && (path !in taken ==> r == path)
            && (path in taken ==> exists i :: && 1 <= i <= 1 + |taken|
                                              && r == Base(path) + "(" + Decimal(i) + ")" + Ext(path)
                                              && Spells(Decimal(i), i)
                                              && forall j :: 1 <= j < i ==>
                                                   Base(path) + "(" + Decimal(j) + ")" + Ext(path) in taken)
  {
    if path in taken {
      var base, ext, i := Base(path), Ext(path), FirstFree(taken, Base(path), Ext(path), 1);
      FirstFreeIsLeast(taken, base, ext, 1);
      DecimalSpells(i);
      forall j | 1 <= j < i
        ensures base + "(" + Decimal(j) + ")" + ext in taken
      {
        assert Candidate(base, ext, j) in taken;
      }
    }
  }

  /** Another "a.txt" is saved as "a(1).txt". */
  lemma SecondCopy()
    ensures UniquePath({"a.txt"}, "a.txt") == "a(1).txt"
  {
    ExtOfDotted("a", "txt");
    assert "a" + "." + "txt" == "a.txt" && Base("a.txt") == "a";
    assert Candidate("a", ".txt", 1) == "a(1).txt";
    assert FirstFree({"a.txt"}, "a", ".txt", 1) == 1;
  }

  lemma PartialIffExt(name: string)
    ensures IsPartial(name) <==> Ext(name) == PART
  {
    if IsPartial(name) {
      var stem := name[..|name| - 5];
      ExtOfDotted(stem, "part");
      assert stem + "." + "part" == name;
    }
    if Ext(name) == PART {
      ExtShape(name);
      assert Base(name) + PART == name;
    }
  }

  lemma AppendedExt(stem: string, ext: string)
    requires ext != "" && ext[0] == '.' && '.' !in ext[1..] && '/' !in ext
    ensures Ext(stem + ext) == ext
  {
    var tail := ext[1..];
    ExtOfDotted(stem, tail);
    assert "." + tail == ext && stem + "." + tail == stem + ext;
  }

  /** Numbering keeps the extension. */
  lemma ExtOfCandidate(path: string, i: nat)
    ensures Ext(Candidate(Base(path), Ext(path), i)) == Ext(path)
  {
    ExtShape(path);
    var base, ext, number := Base(path), Ext(path), "(" + Decimal(i) + ")";
    assert Candidate(base, ext, i) == (base + number) + ext;
    if ext == "" {
      assert base == path && (base + number) + ext == base + number;
      ExtOfUndotted(base, number);
    } else {
      AppendedExt(base + number, ext);
    }
  }

  /** Being numbered neither adds nor removes a ".part" ending. */
  lemma UniquePathKeepsPartial(taken: set<string>, path: string)
    ensures IsPartial(UniquePath(taken, path)) <==> IsPartial(path)
  {
    if path in taken {
      ExtOfCandidate(path, FirstFree(taken, Base(path), Ext(path), 1));
      PartialIffExt(path);
      PartialIffExt(UniquePath(taken, path));
    }
  }

  /** A safe name stays safe, so the chosen path is a direct child of the destination. */
  lemma UniquePathStaysSafe(taken: set<string>, name: string)
    requires IsSafe(name)
    ensures IsSafe(UniquePath(taken, name))
  {
    if name in taken {
      var base, ext := Base(name), Ext(name);
      var number := Decimal(FirstFree(taken, base, ext, 1));
      var r := base + "(" + number + ")" + ext;
      assert '(' in r by { assert r[|base|] == '('; }
      ExtShape(name);
      assert forall c :: c in base || c in ext ==> c in base + ext;
      assert forall c :: c in r ==> c in base || c == '(' || c in number || c == ')' || c in ext;
    }
  }

  /** Loop invariant of a search: numbers below `i` led to the taken paths `passed`. */
  ghost predicate Searched(taken: set<string>, passed: set<string>, base: string, ext: string, i: nat) {
    && 1 <= i
    && passed <= taken
    && (forall c :: c in passed ==> exists j :: 1 <= j < i && c == Candidate(base, ext, j))
    && FirstFree(taken, base, ext, 1) == FirstFree(taken - passed, base, ext, i)
  }

  lemma SearchStep(taken: set<string>, passed: set<string>, base: string, ext: string, i: nat)
    requires Searched(taken, passed, base, ext, i)
    ensures var c := Candidate(base, ext, i);
            if c in taken then c !in passed && Searched(taken, passed + {c}, base, ext, i + 1)
            else FirstFree(taken, base, ext, 1) == i
  {
    var c := Candidate(base, ext, i);
    if c in taken {
      if c in passed {
        var j :| 1 <= j < i && c == Candidate(base, ext, j);
        CandidateInjective(base, ext, i, j);
        assert false;
      }
      assert taken - (passed + {c}) == (taken - passed) - {c};
      assert 1 <= i < i + 1 && c == Candidate(base, ext, i);
      forall d | d in passed + {c}
        ensures exists j :: 1 <= j < i + 1 && d == Candidate(base, ext, j)
      {
        if d != c {
          var j :| 1 <= j < i && d == Candidate(base, ext, j);
          assert 1 <= j < i + 1;
        }
      }
    }
  }

  /** The search loop of uniquePath, against the set of existing paths. */
  method FindUniquePath(taken: set<string>, path: string) returns (r: string)
    ensures r == UniquePath(taken, path)
  {
    if path !in taken {
      return path;
    }
    var ext := Ext(path);
    var base := path[..|path| - |ext|];
    var i := 1;
    ghost var passed: set<string> := {};
    assert taken - passed == taken;
    while true
      invariant Searched(taken, passed, base, ext, i)
      decreases |taken - passed|
    {
      var candidate := Candidate(base, ext, i);
      SearchStep(taken, passed, base, ext, i);
      if candidate !in taken {
        return candidate;
      }
      ghost var before := taken - passed;
      passed := passed + {candidate};
      assert taken - passed == before - {candidate};
      i := i + 1;
    }
  }
}
