/** The browser's mailbox codec (drop-mailbox.js): a cursor over typed arrays, held against the layout of Mailbox. */
module JsMailbox {
  import opened Bytes
  import opened JsNumbers
  import opened Buffers
  import opened Mailbox

  /** encodeMailboxV1, which checks nothing. */
  method EncodeMailboxV1(e: Entry) returns (payload: array<Byte>)
    ensures fresh(payload) && payload[..] == ToBE(|e.name| % TWO32, 4) + e.name + e.content
  {
    payload := new Byte[4 + |e.name| + |e.content|](_ => 0);
    ShiftMaskIsBigEndian(|e.name|);
    var length: seq<Byte> := ShiftMask(|e.name|);
    payload[0], payload[1], payload[2], payload[3] := length[0], length[1], length[2], length[3];
    assert payload[..4] == length;
    Set(payload, e.name, 4);
    Set(payload, e.content, 4 + |e.name|);
    assert payload[..] == payload[..4 + |e.name| + |e.content|];
  }

  /** The unchecked V1 encoding comes back exactly when EncodeV1's name check would have passed. */
  lemma UncheckedV1ComesBackExactly(e: Entry)
    requires |e.name| < TWO32
    ensures Parse(V1(e)) == Some([e]) <==> NameFits(e)
  {
    if NameFits(e) {
      DecodeInvertsEncodeV1(e);
    }
    if Parse(V1(e)) == Some([e]) {
      AcceptedNamesFit(V1(e));
      assert e in [e];
    }
  }

  method EncodeMailboxAMB2(entries: seq<Entry>) returns (r: Result<array<Byte>, Fault>)
    ensures match EncodeBundle(entries)
            case Err(fault) => r == Err(fault)
            case Ok(bytes) => r.Ok? && fresh(r.value) && r.value[..] == bytes
  {
    if |entries| < 1 {
      return Err(NoEntries);
    }
    if |entries| > MAX_FILES {
      return Err(TooManyFiles);
    }
    var combined: nat := 0;
    for i := 0 to |entries|
      invariant FirstFault(entries, 0, 0) == FirstFault(entries, i, combined)
    {
      if |entries[i].name| < 1 || |entries[i].name| > MAX_NAME {
        return Err(InvalidName(i));
      }
      if |entries[i].content| > MAX_PAYLOAD {
        return Err(FileTooLarge(i));
      }
      combined := combined + |entries[i].content|;
      if combined > MAX_PAYLOAD {
        return Err(CombinedTooLarge);
      }
    }
    var out := FillBundle(entries);
    return Ok(out);
  }

  /** The second half of encodeMailboxAMB2: the total is computed first, then the buffer is filled in place. */
  method FillBundle(entries: seq<Entry>) returns (out: array<Byte>)
    ensures fresh(out) && out[..] == Bundle(entries)
  {
    var total := 8;
    for i := 0 to |entries|
      invariant total == 8 + |Records(entries[..i])|
    {
      RecordsAppend(entries[..i], entries[i]);
      assert entries[..i] + [entries[i]] == entries[..i + 1];
      total := total + 4 + |entries[i].name| + 8 + |entries[i].content|;
    }
    assert entries[..|entries|] == entries;
    out := new Byte[total](_ => 0);
    Set(out, MAGIC, 0);
    Set(out, ToBE(|entries|, 4), 4);
    assert out[..0] == [];
    FillRecords(out, entries);
  }

  method FillRecords(out: array<Byte>, entries: seq<Entry>)
    requires out.Length == 8 + |Records(entries)|
    modifies out
    ensures out[..] == old(out[..8]) + Records(entries)
  {
    var o := 8;
    ghost var head := out[..8];
    for i := 0 to |entries|
      invariant o == 8 + |Records(entries[..i])|
      invariant o + |Records(entries[i..])| == out.Length
      invariant out[..o] == head + Records(entries[..i])
    {
      RecordsAt(entries, i);
      Assoc(head, Records(entries[..i]), Record(entries[i]));
      o := SetRecord(out, o, entries[i]);
    }
    assert entries[..|entries|] == entries;
    assert out[..] == out[..o];
  }

  lemma RecordsAt(entries: seq<Entry>, i: nat)
    requires i < |entries|
    ensures Records(entries[i..]) == Record(entries[i]) + Records(entries[i + 1..])
    ensures Records(entries[..i + 1]) == Records(entries[..i]) + Record(entries[i])
  {
    assert entries[i..][1..] == entries[i + 1..];
    RecordsAppend(entries[..i], entries[i]);
    assert entries[..i] + [entries[i]] == entries[..i + 1];
  }

  /** The body of the filling loop: one record at the cursor, which moves past it. */
  method SetRecord(out: array<Byte>, from: nat, e: Entry) returns (o: nat)
    requires from + |Record(e)| <= out.Length
    modifies out
    ensures o == from + |Record(e)| && out[..o] == old(out[..from]) + Record(e)
  {
    ghost var before := out[..from];
    o := SetCounted(out, from, 4, e.name);
    ghost var half := out[..o];
    o := SetCounted(out, o, 8, e.content);
    assert half + (ToBE(|e.content|, 8) + e.content) == before + Record(e);
  }

  /** A big-endian count of `width` bytes, then the counted bytes. */
  method SetCounted(out: array<Byte>, from: nat, width: nat, bytes: seq<Byte>) returns (o: nat)
    requires from + width + |bytes| <= out.Length
    modifies out
    ensures o == from + width + |bytes| && out[..o] == old(out[..from]) + (ToBE(|bytes|, width) + bytes)
  {
    Set(out, ToBE(|bytes|, width), from);
    o := from + width;
    Set(out, bytes, o);
    o := o + |bytes|;
  }

  /** A sum of doubles. */
  function Add(a: nat, b: nat): nat {
    Number(a + b)
  }

  /** The body of decodeMailboxAMB2's loop: one record at the cursor `from`. */
  method DecodeRecordAt(rest: seq<Byte>, from: nat) returns (r: Option<(Entry, nat)>)
    requires from <= |rest| < TWO53
    ensures r == ParseRecordAt(rest, from)
  {
    var o := from;
    if Add(o, 4) > |rest| {
      return None;
    }
    var fnLen := FromBE(rest[o..o + 4]);
    o := o + 4;
    if fnLen < 1 || fnLen > MAX_NAME || Add(Add(o, fnLen), 8) > |rest| {
      return None;
    }
    var name := rest[o..o + fnLen];
    o := o + fnLen;
    var sz := Number(FromBE(rest[o..o + 8]));
    o := o + 8;
    if Add(o, sz) > |rest| {
      return None;
    }
    return Some((Entry(name, rest[o..o + sz]), o + sz));
  }

  /** decodeMailboxAMB2 accepts what decodeAMB2 accepts, with the same entries. */
  method DecodeMailboxAMB2(rest: seq<Byte>) returns (r: Option<seq<Entry>>)
    requires |rest| < TWO53
    ensures r == ParseBundle(rest)
  {
    if |rest| < 4 {
      return None;
    }
    var n := FromBE(rest[0..4]);
    assert rest[0..4] == rest[..4];
    var o: nat := 4;
    if n < 1 || n > MAX_FILES {
      return None;
    }
    var out: seq<Entry> := [];
    ghost var ahead := rest[4..];
    PrependNothing(ParseRecords(ahead, n));
    ghost var goal := ParseBundle(rest);
    for i := 0 to n
      invariant o <= |rest| && ahead == rest[o..]
      invariant Prepend(out, ParseRecords(ahead, n - i)) == goal
    {
      ParseStep(out, ahead, n - i);
      CursorSeesTheSameRecord(rest, o);
      var record := DecodeRecordAt(rest, o);
      if record.None? {
        return None;
      }
      ahead := rest[record.value.1..];
      out := out + [record.value.0];
      o := record.value.1;
    }
    if o != |rest| {
      return None;
    }
    assert out + [] == out;
    return Some(out);
  }

  /** decodeMailboxEntries gives the same verdict and the same entries as Decode, on every byte string. */
  method DecodeMailboxEntries(decrypted: seq<Byte>) returns (r: Option<seq<Entry>>)
    requires |decrypted| < TWO53
    ensures r == Parse(decrypted)
  {
    if |decrypted| < 4 {
      return None;
    }
    if decrypted[..4] == MAGIC {
      r := DecodeMailboxAMB2(decrypted[4..]);
    } else {
      r := DecodeMailboxV1(decrypted);
    }
  }

  /** The rest of decodeMailboxEntries: one V1 entry, its length read as a signed 32-bit number. */
  method DecodeMailboxV1(decrypted: seq<Byte>) returns (r: Option<seq<Entry>>)
    requires 4 <= |decrypted| < TWO53
    ensures r == ParseV1(decrypted)
  {
    var fnLen := ReadInt32(decrypted, 0);
    assert decrypted[0..4] == decrypted[..4];
    Pow256Values();
    if fnLen < 1 || fnLen > MAX_NAME || 4 + fnLen > |decrypted| {
      return None;
    }
    return Some([Entry(decrypted[4..4 + fnLen], decrypted[4 + fnLen..])]);
  }
}
