/** What a sender puts on the wire: files as metadata, chunks and a completion, batches closed by SessionEnd. */
module Wire {
  import opened Bytes
  import opened Protocol

  /** One transmission of a file from `offset` on, with the chunks its reads happened to give. */
  datatype FileTx = FileTx(name: string, content: seq<Byte>, offset: nat, chunks: seq<seq<Byte>>)

  datatype Item = File(tx: FileTx) | End

  function Flatten<T>(parts: seq<seq<T>>): seq<T> {
    if parts == [] then [] else parts[0] + Flatten(parts[1..])
  }

  /** Reads return 1 to ChunkSize bytes, and together everything from the offset on. */
  ghost predicate IsReading(tx: FileTx) {
    && tx.offset <= |tx.content|
    && Flatten(tx.chunks) == tx.content[tx.offset..]
    && forall c :: c in tx.chunks ==> 1 <= |c| <= CHUNK_SIZE
  }

  function ChunkCount(size: nat): nat {
    (size + CHUNK_SIZE - 1) / CHUNK_SIZE
  }

  function Header(tx: FileTx): Metadata {
    Metadata(tx.name, |tx.content|, ChunkCount(|tx.content|), tx.offset)
  }

  function Chunks(chunks: seq<seq<Byte>>): seq<Message> {
    if chunks == [] then [] else [Chunk(chunks[0])] + Chunks(chunks[1..])
  }

  lemma {:induction false} ChunksAppend(a: seq<seq<Byte>>, b: seq<seq<Byte>>)
    ensures Chunks(a + b) == Chunks(a) + Chunks(b)
  {
    if a == [] {
      assert a + b == b;
    } else {
      assert (a + b)[0] == a[0] && (a + b)[1..] == a[1..] + b;
      ChunksAppend(a[1..], b);
    }
  }

  lemma {:induction false} FlattenAppend<T>(a: seq<seq<T>>, b: seq<seq<T>>)
    ensures Flatten(a + b) == Flatten(a) + Flatten(b)
  {
    if a == [] {
      assert a + b == b;
    } else {
      assert (a + b)[0] == a[0] && (a + b)[1..] == a[1..] + b;
      FlattenAppend(a[1..], b);
      assert a[0] + (Flatten(a[1..]) + Flatten(b)) == a[0] + Flatten(a[1..]) + Flatten(b);
    }
  }

  lemma {:induction false} ChunksLength(chunks: seq<seq<Byte>>)
    ensures |Chunks(chunks)| == |chunks|
  {
    if chunks != [] { ChunksLength(chunks[1..]); }
  }

  /** The first `j` chunk messages are the messages of the first `j` chunks. */
  lemma ChunksPrefix(chunks: seq<seq<Byte>>, j: nat)
    requires j <= |chunks|
    ensures |Chunks(chunks)| == |chunks| && Chunks(chunks)[..j] == Chunks(chunks[..j])
  {
    assert chunks[..j] + chunks[j..] == chunks;
    ChunksAppend(chunks[..j], chunks[j..]);
    ChunksLength(chunks[..j]);
    ChunksLength(chunks);
  }

  function FileWire(tx: FileTx): (w: seq<Message>)
    ensures |w| == |tx.chunks| + 2
  {
    ChunksLength(tx.chunks);
    [MetadataMsg(Some(Header(tx)))] + Chunks(tx.chunks) + [Complete]
  }

  function ItemWire(item: Item): (w: seq<Message>)
    ensures |w| > 0
  {
    match item
    case File(tx) => FileWire(tx)
    case End => [SessionEnd]
  }

  function ItemsWire(items: seq<Item>): seq<Message> {
    if items == [] then [] else ItemWire(items[0]) + ItemsWire(items[1..])
  }

  lemma {:induction false} ItemsWireAppend(a: seq<Item>, b: seq<Item>)
    ensures ItemsWire(a + b) == ItemsWire(a) + ItemsWire(b)
  {
    if a == [] {
      assert a + b == b;
    } else {
      assert (a + b)[0] == a[0] && (a + b)[1..] == a[1..] + b;
      ItemsWireAppend(a[1..], b);
      assert ItemWire(a[0]) + (ItemsWire(a[1..]) + ItemsWire(b)) == ItemWire(a[0]) + ItemsWire(a[1..]) + ItemsWire(b);
    }
  }

  /** No batch is empty: SessionEnd only follows a file. `atStart`: no file of the current batch was sent yet. */
  ghost predicate NonEmptyBatches(items: seq<Item>, atStart: bool) {
    items == [] ||
    match items[0]
    case File(_) => NonEmptyBatches(items[1..], false)
    case End => !atStart && NonEmptyBatches(items[1..], true)
  }

  function FilesOf(items: seq<Item>): seq<FileTx> {
    if items == [] then []
    else (match items[0] case File(tx) => [tx] case End => []) + FilesOf(items[1..])
  }

  function Batch(txs: seq<FileTx>): seq<Item> {
    Files(txs) + [End]
  }

  function Files(txs: seq<FileTx>): seq<Item> {
    seq(|txs|, i requires 0 <= i < |txs| => File(txs[i]))
  }
}
