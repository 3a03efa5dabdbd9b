/** The mailbox payload: AMB2 bundles and the legacy V1 layout, as internal/mailbox/payload.go reads and writes them. */
module Mailbox {
  import opened Bytes

  const MAGIC: seq<Byte> := [0x41, 0x4D, 0x42, 0x32]
  const MAX_FILES := 256
  const MAX_NAME := 4095
  const MAX_PAYLOAD := 524_288_000

  /** A file in a bundle; the name is its UTF-8 bytes. */
  datatype Entry = Entry(name: seq<Byte>, content: seq<Byte>)

  datatype Fault = NoEntries | TooManyFiles | InvalidName(index: nat) | FileTooLarge(index: nat) | CombinedTooLarge

  // ---- Layout ----

  function Record(e: Entry): seq<Byte> {
    ToBE(|e.name|, 4) + e.name + ToBE(|e.content|, 8) + e.content
  }

  function Records(es: seq<Entry>): seq<Byte> {
    if es == [] then [] else Record(es[0]) + Records(es[1..])
  }

  function Bundle(es: seq<Entry>): seq<Byte> {
    MAGIC + ToBE(|es|, 4) + Records(es)
  }

  function V1(e: Entry): seq<Byte> {
    ToBE(|e.name|, 4) + e.name + e.content
  }

  predicate NameFits(e: Entry) {
    1 <= |e.name| <= MAX_NAME
  }

  function TotalContent(es: seq<Entry>): nat {
    if es == [] then 0 else |es[0].content| + TotalContent(es[1..])
  }

  function TotalNames(es: seq<Entry>): nat {
    if es == [] then 0 else |es[0].name| + TotalNames(es[1..])
  }

  lemma {:induction false} RecordsLength(es: seq<Entry>)
    ensures |Records(es)| == 12 * |es| + TotalNames(es) + TotalContent(es)
  {
    if es != [] { RecordsLength(es[1..]); }
  }

  lemma {:induction false} RecordsAppend(es: seq<Entry>, e: Entry)
    ensures Records(es + [e]) == Records(es) + Record(e)
  {
    if es == [] {
      assert es + [e] == [e] && [e][1..] == [];
    } else {
      assert (es + [e])[1..] == es[1..] + [e];
      RecordsAppend(es[1..], e);
    }
  }

  lemma {:induction false} TotalContentAppend(es: seq<Entry>, e: Entry)
    ensures TotalContent(es + [e]) == TotalContent(es) + |e.content|
  {
    if es == [] {
      assert es + [e] == [e] && [e][1..] == [];
    } else {
      assert (es + [e])[1..] == es[1..] + [e];
      TotalContentAppend(es[1..], e);
    }
  }

  // ---- Encoding ----

  /** The first complaint of the per-entry checks from `i` on, with `total` content bytes before. */
  function FirstFault(es: seq<Entry>, i: nat, total: nat): Option<Fault>
    requires i <= |es|
    decreases |es| - i
  {
    if i == |es| then None
    else if !NameFits(es[i]) then Some(InvalidName(i))
    else if |es[i].content| > MAX_PAYLOAD then Some(FileTooLarge(i))
    else if total + |es[i].content| > MAX_PAYLOAD then Some(CombinedTooLarge)
    else FirstFault(es, i + 1, total + |es[i].content|)
  }

  function EncodeBundle(es: seq<Entry>): Result<seq<Byte>, Fault> {
    if |es| == 0 then Err(NoEntries)
    else if |es| > MAX_FILES then Err(TooManyFiles)
    else match FirstFault(es, 0, 0)
      case Some(fault) => Err(fault)
      case None => Ok(Bundle(es))
  }

  ghost predicate Acceptable(es: seq<Entry>) {
    1 <= |es| <= MAX_FILES && (forall e :: e in es ==> NameFits(e)) && TotalContent(es) <= MAX_PAYLOAD
  }

  lemma {:induction false} NoFaultIff(es: seq<Entry>, i: nat, total: nat)
    requires i <= |es|
    ensures FirstFault(es, i, total).None?
       <==> (forall k :: i <= k < |es| ==> NameFits(es[k])) &&
            (i == |es| || total + TotalContent(es[i..]) <= MAX_PAYLOAD)
    decreases |es| - i
  {
    if i < |es| {
      assert es[i..][1..] == es[i + 1..];
      NoFaultIff(es, i + 1, total + |es[i].content|);
      if i + 1 == |es| { assert TotalContent(es[i + 1..]) == 0; }
    }
  }

  /** The limits as a caller knows them: 1 to 256 files, names of 1 to 4095 bytes, 500 MiB in all. */
  lemma EncoderAcceptsExactly(es: seq<Entry>)
    ensures EncodeBundle(es).Ok? <==> Acceptable(es)
    ensures EncodeBundle(es).Ok? ==> EncodeBundle(es).value == Bundle(es)
  {
    NoFaultIff(es, 0, 0);
    assert es[0..] == es;
    assert (forall e :: e in es ==> NameFits(e)) <==> (forall k :: 0 <= k < |es| ==> NameFits(es[k]));
  }

  /** Entries up to `k` pass all checks of the loop. */
  ghost predicate PassesUpTo(es: seq<Entry>, k: nat) {
    k <= |es| && (forall j :: 0 <= j < k ==> 1 <= |es[j].name| <= 4095) && TotalContent(es[..k]) <= 524_288_000
  }

  ghost predicate FailsAt(es: seq<Entry>, k: nat, fault: Fault) {
    && k < |es| && PassesUpTo(es, k)
    && var e := es[k];
       match fault
       case InvalidName(i) => i == k && !(1 <= |e.name| <= 4095)
       case FileTooLarge(i) => i == k && 1 <= |e.name| <= 4095 && |e.content| > 524_288_000
       case CombinedTooLarge =>
         1 <= |e.name| <= 4095 && |e.content| <= 524_288_000 && TotalContent(es[..k + 1]) > 524_288_000
       case _ => false
  }

  lemma {:induction false} FaultIsFirst(es: seq<Entry>, i: nat)
    requires PassesUpTo(es, i)
    ensures var r := FirstFault(es, i, TotalContent(es[..i]));
            if r.None? then PassesUpTo(es, |es|) else exists k :: FailsAt(es, k, r.value)
    decreases |es| - i
  {
    if i < |es| {
      var e := es[i];
      assert es[..i + 1] == es[..i] + [e];
      TotalContentAppend(es[..i], e);
      if NameFits(e) && |e.content| <= MAX_PAYLOAD && TotalContent(es[..i]) + |e.content| <= MAX_PAYLOAD {
        FaultIsFirst(es, i + 1);
        assert FirstFault(es, i, TotalContent(es[..i])) == FirstFault(es, i + 1, TotalContent(es[..i + 1]));
      } else {
        var fault := FirstFault(es, i, TotalContent(es[..i])).value;
        assert FailsAt(es, i, fault);
      }
    }
  }

  /** What a refusal says: the number of entries, or what is wrong with the first entry that does not pass. */
  lemma RefusalIsExact(es: seq<Entry>)
    ensures match EncodeBundle(es)
            case Ok(_) => 1 <= |es| <= 256 && PassesUpTo(es, |es|)
            case Err(NoEntries) => |es| == 0
            case Err(TooManyFiles) => |es| > 256
            case Err(fault) => exists k :: FailsAt(es, k, fault)
  {
    if 1 <= |es| <= MAX_FILES {
      assert es[..0] == [];
      FaultIsFirst(es, 0);
    }
  }

  /** The layouts, byte by byte, of one file "a" that holds a 7. */
  lemma LayoutExamples()
    ensures Bundle([Entry([97], [7])])
         == [0x41, 0x4D, 0x42, 0x32, 0, 0, 0, 1, 0, 0, 0, 1, 97, 0, 0, 0, 0, 0, 0, 0, 1, 7]
    ensures V1(Entry([97], [7])) == [0, 0, 0, 1, 97, 7]
  {
    hide ToBE, Record;
    WordBytes(1);
    var e := Entry([97], [7]);
    RecordExample(e);
    assert [e][1..] == [] && Record(e) + [] == Record(e);
  }

  lemma RecordExample(e: Entry)
    requires e == Entry([97], [7])
    ensures Record(e) == [0, 0, 0, 1, 97, 0, 0, 0, 0, 0, 0, 0, 1, 7]
  {
    hide ToBE;
    WordBytes(1);
    LongOne();
  }

  lemma LongOne()
    ensures ToBE(1, 8) == [0, 0, 0, 0, 0, 0, 0, 1]
  {
    assert ToBE(0, 1) == [0];
    assert ToBE(0, 3) == [0, 0, 0];
    assert ToBE(0, 5) == [0, 0, 0, 0, 0];
    assert ToBE(0, 7) == [0, 0, 0, 0, 0, 0, 0];
  }

  lemma FourPieces(buf: seq<Byte>, a: seq<Byte>, b: seq<Byte>, c: seq<Byte>, d: seq<Byte>)
    ensures buf + a + b + c + d == buf + (a + b + c + d)
  {
    Assoc(buf, a, b);
    Assoc(buf, a + b, c);
    Assoc(buf, a + b + c, d);
  }

  lemma OneMoreRecord(buf: seq<Byte>, head: seq<Byte>, entries: seq<Entry>, i: nat)
    requires i < |entries| && buf == head + Records(entries[..i])
    ensures var e := entries[i];
            buf + ToBE(|e.name|, 4) + e.name + ToBE(|e.content|, 8) + e.content == head + Records(entries[..i + 1])
  {
    var e := entries[i];
    RecordsAppend(entries[..i], e);
    assert entries[..i] + [e] == entries[..i + 1];
    FourPieces(buf, ToBE(|e.name|, 4), e.name, ToBE(|e.content|, 8), e.content);
    Assoc(head, Records(entries[..i]), Record(e));
  }

  /** EncodeAMB2 appends to a buffer while it checks. */
  method EncodeAMB2(entries: seq<Entry>) returns (r: Result<seq<Byte>, Fault>)
    ensures r == EncodeBundle(entries)
  {
    if |entries| == 0 {
      return Err(NoEntries);
    }
    if |entries| > MAX_FILES {
      return Err(TooManyFiles);
    }
    var buf: seq<Byte> := MAGIC + ToBE(|entries|, 4);
    var totalPayload: nat := 0;
    for i := 0 to |entries|
      invariant buf == MAGIC + ToBE(|entries|, 4) + Records(entries[..i])
      invariant FirstFault(entries, 0, 0) == FirstFault(entries, i, totalPayload)
    {
      var e := entries[i];
      if |e.name| < 1 || |e.name| > MAX_NAME {
        return Err(InvalidName(i));
      }
      if |e.content| > MAX_PAYLOAD {
        return Err(FileTooLarge(i));
      }
      totalPayload := totalPayload + |e.content|;
      if totalPayload > MAX_PAYLOAD {
        return Err(CombinedTooLarge);
      }
      ghost var before := buf;
      buf := buf + ToBE(|e.name|, 4);
      buf := buf + e.name;
      buf := buf + ToBE(|e.content|, 8);
      buf := buf + e.content;
      OneMoreRecord(before, MAGIC + ToBE(|entries|, 4), entries, i);
    }
    assert entries[..|entries|] == entries;
    return Ok(buf);
  }

  method EncodeV1(e: Entry) returns (r: Result<seq<Byte>, Fault>)
    ensures r == if !NameFits(e) then Err(InvalidName(0))
                 else if |e.content| > MAX_PAYLOAD then Err(FileTooLarge(0))
                 else Ok(V1(e))
  {
    if |e.name| < 1 || |e.name| > MAX_NAME {
      return Err(InvalidName(0));
    }
    if |e.content| > MAX_PAYLOAD {
      return Err(FileTooLarge(0));
    }
    var buf: seq<Byte> := ToBE(|e.name|, 4);
    buf := buf + e.name;
    buf := buf + e.content;
    return Ok(buf);
  }

  // ---- Decoding ----

  /** The first record of `rest`, and what follows it. */
  function ParseRecord(rest: seq<Byte>): (r: Option<(Entry, seq<Byte>)>)
    ensures r.Some? ==> |r.value.1| < |rest|
  {
    if |rest| < 4 then None
    else
      var fnLen := FromBE(rest[..4]);
      if fnLen < 1 || fnLen > MAX_NAME || |rest| < 4 + fnLen + 8 then None
      else
        var size := FromBE(rest[4 + fnLen..12 + fnLen]);
        var tail := rest[12 + fnLen..];
        if |tail| < size then None
        else Some((Entry(rest[4..4 + fnLen], tail[..size]), tail[size..]))
  }

  /** The same record read with a cursor: where it starts in `b`, and where it ends. */
  function ParseRecordAt(b: seq<Byte>, o: nat): (r: Option<(Entry, nat)>)
    ensures r.Some? ==> r.value.1 <= |b|
  {
    if o + 4 > |b| then None
    else
      var fnLen := FromBE(b[o..o + 4]);
      if fnLen < 1 || fnLen > MAX_NAME || o + 4 + fnLen + 8 > |b| then None
      else
        var size := FromBE(b[o + 4 + fnLen..o + 12 + fnLen]);
        var from := o + 12 + fnLen;
        if from + size > |b| then None
        else Some((Entry(b[o + 4..o + 4 + fnLen], b[from..from + size]), from + size))
  }

  lemma SliceOfTail<T>(s: seq<T>, o: nat, i: nat, j: nat)
    requires i <= j && o + j <= |s|
    ensures s[o..][i..j] == s[o + i..o + j] && s[o..][j..] == s[o + j..]
  {
  }

  lemma CursorSeesTheSameRecord(b: seq<Byte>, o: nat)
    requires o <= |b|
    ensures match ParseRecordAt(b, o)
            case None => ParseRecord(b[o..]) == None
            case Some((e, end)) => ParseRecord(b[o..]) == Some((e, b[end..]))
  {
    if o + 4 <= |b| {
      SliceOfTail(b, o, 0, 4);
      var fnLen := FromBE(b[o..o + 4]);
      if o + 4 + fnLen + 8 <= |b| {
        SliceOfTail(b, o, 4, 4 + fnLen);
        SliceOfTail(b, o, 4 + fnLen, 12 + fnLen);
        var from := o + 12 + fnLen;
        var size := FromBE(b[o + 4 + fnLen..from]);
        if from + size <= |b| {
          SliceOfTail(b, from, 0, size);
        }
      }
    }
  }

  /** `rest` as exactly `n` records. */
  function ParseRecords(rest: seq<Byte>, n: nat): (r: Option<seq<Entry>>)
    ensures r.Some? ==> |r.value| == n
  {
    if n == 0 then (if rest == [] then Some([]) else None)
    else match ParseRecord(rest)
      case None => None
      case Some((e, tail)) => Prepend([e], ParseRecords(tail, n - 1))
  }

  function Prepend(done: seq<Entry>, r: Option<seq<Entry>>): Option<seq<Entry>> {
    if r.None? then None else Some(done + r.value)
  }

  function ParseBundle(rest: seq<Byte>): Option<seq<Entry>> {
    if |rest| < 4 then None
    else
      var n := FromBE(rest[..4]);
      if n == 0 || n > MAX_FILES then None else ParseRecords(rest[4..], n)
  }

  function ParseV1(plain: seq<Byte>): Option<seq<Entry>> {
    if |plain| < 4 then None
    else
      var fnLen := FromBE(plain[..4]);
      if fnLen <= 0 || fnLen > MAX_NAME || |plain| < 4 + fnLen then None
      else Some([Entry(plain[4..4 + fnLen], plain[4 + fnLen..])])
  }

  function Parse(plain: seq<Byte>): Option<seq<Entry>> {
    if |plain| < 4 then None
    else if plain[..4] == MAGIC then ParseBundle(plain[4..])
    else ParseV1(plain)
  }

  /** `int(u)` of a uint64. */
  function Int64(u: nat): int {
    if u < 0x8000_0000_0000_0000 then u else u - 0x1_0000_0000_0000_0000
  }

  /** The body of decodeAMB2's loop: one record off the front of `rest`. No Go slice has 2^63 elements. */
  method DecodeRecord(from: seq<Byte>) returns (r: Option<(Entry, seq<Byte>)>)
    requires |from| < 0x8000_0000_0000_0000
    ensures r == ParseRecord(from)
  {
    var rest := from;
    if |rest| < 4 {
      return None;
    }
    var fnLen := FromBE(rest[..4]);
    rest := rest[4..];
    if fnLen < 1 || fnLen > MAX_NAME || |rest| < fnLen + 8 {
      return None;
    }
    var name := rest[..fnLen];
    assert name == from[4..4 + fnLen];
    rest := rest[fnLen..];
    assert rest[..8] == from[4 + fnLen..12 + fnLen];
    var payloadLen := Int64(FromBE(rest[..8]));
    Pow256Values();
    rest := rest[8..];
    assert rest == from[12 + fnLen..];
    if payloadLen < 0 || |rest| < payloadLen {
      return None;
    }
    return Some((Entry(name, rest[..payloadLen]), rest[payloadLen..]));
  }

  /** decodeAMB2 shortens `rest` as it goes. */
  method DecodeAMB2(plain: seq<Byte>) returns (r: Option<seq<Entry>>)
    requires |plain| < 0x8000_0000_0000_0000
    ensures r == ParseBundle(plain)
  {
    if |plain| < 4 {
      return None;
    }
    var n := FromBE(plain[..4]);
    var rest := plain[4..];
    if n == 0 || n > MAX_FILES {
      return None;
    }
    var out: seq<Entry> := [];
    PrependNothing(ParseRecords(rest, n));
    ghost var goal := ParseBundle(plain);
    for i := 0 to n
      invariant |rest| <= |plain|
      invariant Prepend(out, ParseRecords(rest, n - i)) == goal
    {
      ParseStep(out, rest, n - i);
      var record := DecodeRecord(rest);
      if record.None? {
        return None;
      }
      out := out + [record.value.0];
      rest := record.value.1;
    }
    if |rest| != 0 {
      return None;
    }
    assert out + [] == out;
    return Some(out);
  }

  lemma PrependNothing(r: Option<seq<Entry>>)
    ensures Prepend([], r) == r
  {
    if r.Some? { assert [] + r.value == r.value; }
  }

  /** One round of a decoding loop that has `done` records and `k` to go. */
  lemma ParseStep(done: seq<Entry>, rest: seq<Byte>, k: nat)
    requires k > 0
    ensures Prepend(done, ParseRecords(rest, k))
         == match ParseRecord(rest)
            case None => None
            case Some((e, tail)) => Prepend(done + [e], ParseRecords(tail, k - 1))
  {
    match ParseRecord(rest)
    case None =>
    case Some((e, tail)) =>
      var r := ParseRecords(tail, k - 1);
      if r.Some? { assert done + ([e] + r.value) == done + [e] + r.value; }
  }

  method Decode(plain: seq<Byte>) returns (r: Option<seq<Entry>>)
    requires |plain| < 0x8000_0000_0000_0000
    ensures r == Parse(plain)
  {
    if |plain| < 4 {
      return None;
    }
    if plain[..4] == MAGIC {
      r := DecodeAMB2(plain[4..]);
      return;
    }
    r := DecodeLegacyV1(plain);
  }

  /** `int` has 64 bits, so no length is negative. */
  method DecodeLegacyV1(plaintext: seq<Byte>) returns (r: Option<seq<Entry>>)
    requires |plaintext| < 0x8000_0000_0000_0000
    ensures r == ParseV1(plaintext)
  {
    if |plaintext| < 4 {
      return None;
    }
    var fnLen := FromBE(plaintext[..4]);
    if fnLen <= 0 || fnLen > MAX_NAME || |plaintext| < 4 + fnLen {
      return None;
    }
    var name := plaintext[4..4 + fnLen];
    var content := plaintext[4 + fnLen..];
    return Some([Entry(name, content)]);
  }

  // ---- Round trip and canonicity ----

  lemma ParseRecordOfRecord(e: Entry, tail: seq<Byte>)
    requires NameFits(e) && |e.content| < Pow256(8)
    ensures ParseRecord(Record(e) + tail) == Some((e, tail))
  {
    var a, b := ToBE(|e.name|, 4), ToBE(|e.content|, 8);
    RecordSlices(a, e.name, b, e.content, tail);
    Pow256Values();
    FromToBE(|e.name|, 4);
    FromToBE(|e.content|, 8);
  }

  lemma RecordSlices(a: seq<Byte>, name: seq<Byte>, b: seq<Byte>, content: seq<Byte>, tail: seq<Byte>)
    requires |a| == 4 && |b| == 8
    ensures var s := a + name + b + content + tail;
            && s[..4] == a
            && s[4..4 + |name|] == name
            && s[4 + |name|..12 + |name|] == b
            && s[12 + |name|..] == content + tail
            && s[12 + |name|..][..|content|] == content
            && s[12 + |name|..][|content|..] == tail
  {
    var s := a + name + b + content + tail;
    assert s == [] + a + (name + b + content + tail);
    SliceMiddle([], a, name + b + content + tail);
    assert s == a + name + (b + content + tail);
    SliceMiddle(a, name, b + content + tail);
    assert s == (a + name) + b + (content + tail);
    SliceMiddle(a + name, b, content + tail);
  }

  lemma RecordOfParseRecord(rest: seq<Byte>)
    requires ParseRecord(rest).Some?
    ensures var (e, tail) := ParseRecord(rest).value; NameFits(e) && rest == Record(e) + tail
  {
    var (e, tail) := ParseRecord(rest).value;
    var k := |e.name|;
    ToFromBE(rest[..4]);
    ToFromBE(rest[4 + k..12 + k]);
    assert rest == rest[..4] + rest[4..4 + k] + rest[4 + k..12 + k] + rest[12 + k..];
    assert rest[12 + k..] == e.content + tail;
  }

  lemma {:induction false} ParseRecordsOfRecords(es: seq<Entry>)
    requires forall e :: e in es ==> NameFits(e) && |e.content| < Pow256(8)
    ensures ParseRecords(Records(es), |es|) == Some(es)
  {
    if es != [] {
      ParseRecordOfRecord(es[0], Records(es[1..]));
      ParseRecordsOfRecords(es[1..]);
      assert [es[0]] + es[1..] == es;
    }
  }

  lemma {:induction false} RecordsOfParseRecords(rest: seq<Byte>, n: nat)
    requires ParseRecords(rest, n).Some?
    ensures var es := ParseRecords(rest, n).value; rest == Records(es) && forall e :: e in es ==> NameFits(e)
  {
    if n > 0 {
      RecordOfParseRecord(rest);
      var (e, tail) := ParseRecord(rest).value;
      RecordsOfParseRecords(tail, n - 1);
      var es := ParseRecords(rest, n).value;
      assert es[0] == e && es[1..] == ParseRecords(tail, n - 1).value;
    }
  }

  lemma {:induction false} ContentWithinTotal(es: seq<Entry>)
    ensures forall e :: e in es ==> |e.content| <= TotalContent(es)
  {
    if es != [] {
      ContentWithinTotal(es[1..]);
      assert forall e :: e in es ==> e == es[0] || e in es[1..];
    }
  }

  /** What the layout can express; the decoder has no limit of its own on the contents. */
  ghost predicate Expressible(es: seq<Entry>) {
    1 <= |es| <= 256 && forall e :: e in es ==> 1 <= |e.name| <= 4095 && |e.content| < 0x1_0000_0000_0000_0000
  }

  /** Decode undoes EncodeAMB2 on everything it accepts. */
  lemma DecodeInvertsEncodeAMB2(es: seq<Entry>)
    requires EncodeBundle(es).Ok?
    ensures Parse(EncodeBundle(es).value) == Some(es)
  {
    EncoderAcceptsExactly(es);
    ContentWithinTotal(es);
    LayoutIsAccepted(es);
  }

  lemma LayoutIsAccepted(es: seq<Entry>)
    requires Expressible(es)
    ensures Parse(Bundle(es)) == Some(es)
  {
    var b := Bundle(es);
    assert b[..4] == MAGIC;
    assert b[4..][..4] == ToBE(|es|, 4);
    assert b[4..][4..] == Records(es);
    Pow256Values();
    FromToBE(|es|, 4);
    ParseRecordsOfRecords(es);
  }

  /** Whatever is accepted as a bundle is exactly the layout of its entries, and no entry costs less than 13 bytes. */
  lemma AcceptedBundleIsCanonical(b: seq<Byte>)
    requires |b| >= 4 && b[..4] == MAGIC && Parse(b).Some?
    ensures var es := Parse(b).value;
            && b == Bundle(es)
            && 1 <= |es| <= MAX_FILES
            && (forall e :: e in es ==> NameFits(e))
            && |b| == 8 + 12 * |es| + TotalNames(es) + TotalContent(es)
            && |b| >= 8 + 13 * |es|
  {
    var rest := b[4..];
    var n := FromBE(rest[..4]);
    var es := Parse(b).value;
    RecordsOfParseRecords(rest[4..], n);
    ToFromBE(rest[..4]);
    assert b == b[..4] + rest[..4] + rest[4..];
    RecordsLength(es);
    NamesCost(es);
  }

  lemma {:induction false} NamesCost(es: seq<Entry>)
    requires forall e :: e in es ==> NameFits(e)
    ensures TotalNames(es) >= |es|
  {
    if es != [] {
      assert es[0] in es;
      NamesCost(es[1..]);
    }
  }

  lemma AcceptedNamesFit(b: seq<Byte>)
    requires Parse(b).Some?
    ensures var es := Parse(b).value; |es| > 0 && forall e :: e in es ==> 1 <= |e.name| <= 4095
  {
    if b[..4] == MAGIC {
      AcceptedBundleIsCanonical(b);
    }
  }

  /** Exactly the layouts are accepted, and each for the entries it was made of, also beyond what the encoder takes. */
  lemma AcceptsExactlyLayouts(b: seq<Byte>, es: seq<Entry>)
    requires |b| >= 4 && b[..4] == MAGIC && |b| < 0x8000_0000_0000_0000
    ensures Parse(b) == Some(es) <==> Expressible(es) && b == Bundle(es)
  {
    if Parse(b) == Some(es) {
      AcceptedBundleIsCanonical(b);
      ContentWithinTotal(es);
    }
    if Expressible(es) {
      LayoutIsAccepted(es);
    }
  }

  /** Hence two bundles with the same entries are the same bytes. */
  lemma BundleDecodingIsInjective(a: seq<Byte>, b: seq<Byte>)
    requires |a| >= 4 && |b| >= 4 && a[..4] == MAGIC == b[..4]
    requires Parse(a).Some? && Parse(a) == Parse(b)
    ensures a == b
  {
    AcceptedBundleIsCanonical(a);
    AcceptedBundleIsCanonical(b);
  }

  /** The length field of an acceptable V1 name starts with a zero byte, and so never with the magic. */
  lemma V1NeverStartsWithMagic(e: Entry)
    requires NameFits(e)
    ensures V1(e)[..4] != MAGIC
  {
    WordBytes(|e.name|);
    assert V1(e)[0] == ToBE(|e.name|, 4)[0] == 0;
    assert V1(e)[..4][0] == V1(e)[0];
  }

  /** Decode undoes EncodeV1 on everything it accepts. */
  lemma DecodeInvertsEncodeV1(e: Entry)
    requires NameFits(e)
    ensures Parse(V1(e)) == Some([e])
  {
    V1NeverStartsWithMagic(e);
    var b := V1(e);
    assert b[..4] == ToBE(|e.name|, 4);
    Pow256Values();
    FromToBE(|e.name|, 4);
  }

  /** Whatever is accepted as V1 is exactly the V1 layout of its one entry. */
  lemma AcceptedV1IsCanonical(b: seq<Byte>)
    requires |b| >= 4 && b[..4] != MAGIC && Parse(b).Some?
    ensures exists e :: Parse(b) == Some([e]) && NameFits(e) && b == V1(e)
  {
    var e := Parse(b).value[0];
    ToFromBE(b[..4]);
    assert b == b[..4] + e.name + e.content;
  }
}
