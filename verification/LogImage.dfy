/** What the block log and its index look like on disk. */
module LogImage {
  import opened Options
  import opened Bytes

  /** The most bytes of the log that one block is read from. */
  const LIMIT: nat := 6291456

  /** How blocks are packed, unpacked and numbered. `unpack` also tells how much it read. */
  datatype Codec<!B> = Codec(pack: B -> seq<Byte>, unpack: seq<Byte> -> Option<(B, nat)>, num: B -> nat)

  /** Unpacking reads exactly what packing wrote, and fails on less. */
  ghost predicate Sound<B(!new)>(c: Codec<B>) {
    && (forall b :: |c.pack(b)| > 0 && c.num(b) > 0)
    && (forall b, rest :: c.unpack(c.pack(b) + rest) == Some((b, |c.pack(b)|)))
    && (forall b, k :: 0 <= k < |c.pack(b)| ==> c.unpack(c.pack(b)[..k]) == None)
  }

  /** The block file: every record is a packed block followed by the record's own position. */
  function Image<B>(c: Codec<B>, bs: seq<B>): seq<Byte> {
    if bs == [] then []
    else
      var before := Image(c, bs[..|bs| - 1]);
      before + c.pack(bs[|bs| - 1]) + Word(|before|)
  }

  /** Where record `k` starts. */
  function Start<B>(c: Codec<B>, bs: seq<B>, k: nat): nat
    requires k <= |bs|
  {
    |Image(c, bs[..k])|
  }

  /** The index file: the starts of all records. */
  function IndexImage<B>(c: Codec<B>, bs: seq<B>): (s: seq<Byte>)
    ensures |s| == WORD * |bs|
  {
    if bs == [] then []
    else IndexImage(c, bs[..|bs| - 1]) + Word(|Image(c, bs[..|bs| - 1])|)
  }

  /** Blocks are numbered from one. */
  ghost predicate Numbered<B(!new)>(c: Codec<B>, bs: seq<B>) {
    forall k :: 0 <= k < |bs| ==> c.num(bs[k]) == k + 1
  }

  // ---------------------------------------------------------------------------
  // Reading
  // ---------------------------------------------------------------------------

  /** A file shorter than a word counts as empty. */
  function MappedSize(file: seq<Byte>): nat {
    if |file| < WORD then 0 else |file|
  }

  function WordAt(file: seq<Byte>, pos: nat): Option<nat> {
    if MappedSize(file) >= pos + WORD then Some(Value(file[pos..pos + WORD])) else None
  }

  function LastWord(file: seq<Byte>): Option<nat> {
    if MappedSize(file) >= WORD then Some(Value(file[|file| - WORD..])) else None
  }

  /** Reads the block at `pos` and gives the position after its record; nothing on a broken record. */
  function ReadAt<B>(c: Codec<B>, file: seq<Byte>, pos: nat): Option<(B, nat)> {
    if MappedSize(file) <= pos then None
    else
      var available := MappedSize(file) - pos;
      var size := if available < LIMIT then available else LIMIT;
      match c.unpack(file[pos..pos + size])
      case None => None
      case Some((b, k)) => if WordAt(file, pos + k) == Some(pos) then Some((b, pos + k + WORD)) else None
  }

  // ---------------------------------------------------------------------------
  // The shape of an image
  // ---------------------------------------------------------------------------

  predicate IsPrefix(a: seq<Byte>, b: seq<Byte>) {
    |a| <= |b| && a == b[..|a|]
  }

  lemma {:induction false} ImagePrefix<B>(c: Codec<B>, bs: seq<B>, k: nat)
    requires k <= |bs|
    ensures IsPrefix(Image(c, bs[..k]), Image(c, bs))
    decreases |bs|
  {
    if k == |bs| {
      assert bs[..k] == bs;
    } else {
      ImagePrefix(c, bs[..|bs| - 1], k);
      assert bs[..|bs| - 1][..k] == bs[..k];
      assert IsPrefix(Image(c, bs[..|bs| - 1]), Image(c, bs));
    }
  }

  lemma {:induction false} IndexPrefix<B>(c: Codec<B>, bs: seq<B>, k: nat)
    requires k <= |bs|
    ensures IsPrefix(IndexImage(c, bs[..k]), IndexImage(c, bs))
    decreases |bs|
  {
    if k == |bs| {
      assert bs[..k] == bs;
    } else {
      IndexPrefix(c, bs[..|bs| - 1], k);
      assert bs[..|bs| - 1][..k] == bs[..k];
      assert IsPrefix(IndexImage(c, bs[..|bs| - 1]), IndexImage(c, bs));
    }
  }

  /** One record after the first `k`. */
  lemma RecordAt<B>(c: Codec<B>, bs: seq<B>, k: nat)
    requires k < |bs|
    ensures Image(c, bs[..k + 1]) == Image(c, bs[..k]) + c.pack(bs[k]) + Word(Start(c, bs, k))
    ensures IndexImage(c, bs[..k + 1]) == IndexImage(c, bs[..k]) + Word(Start(c, bs, k))
    ensures Start(c, bs, k + 1) == Start(c, bs, k) + |c.pack(bs[k])| + WORD
  {
    assert bs[..k + 1][..k] == bs[..k];
  }

  lemma {:induction false} StartsGrow<B>(c: Codec<B>, bs: seq<B>, i: nat, j: nat)
    requires i < j <= |bs|
    ensures Start(c, bs, i) + WORD <= Start(c, bs, j)
    decreases j
  {
    RecordAt(c, bs, j - 1);
    if i < j - 1 {
      StartsGrow(c, bs, i, j - 1);
    }
  }

  lemma StartBound<B>(c: Codec<B>, bs: seq<B>, k: nat)
    requires k <= |bs|
    ensures Start(c, bs, k) <= |Image(c, bs)| && (k < |bs| ==> Start(c, bs, k) + WORD <= |Image(c, bs)|)
  {
    ImagePrefix(c, bs, k);
    if k < |bs| {
      ImagePrefix(c, bs, k + 1);
      RecordAt(c, bs, k);
    }
  }

  /** The index holds the start of every record. */
  lemma IndexAt<B>(c: Codec<B>, bs: seq<B>, k: nat)
    requires k < |bs|
    ensures IndexImage(c, bs)[WORD * k..WORD * k + WORD] == Word(Start(c, bs, k))
  {
    IndexPrefix(c, bs, k + 1);
    RecordAt(c, bs, k);
  }

  /** Reading a record somewhere in a file. */
  lemma ReadRecord<B(!new)>(c: Codec<B>, before: seq<Byte>, b: B, rest: seq<Byte>)
    requires Sound(c) && |before| < MAX64
    ensures ReadAt(c, before + c.pack(b) + Word(|before|) + rest, |before|) ==
      if |c.pack(b)| <= LIMIT then Some((b, |before| + |c.pack(b)| + WORD)) else None
  {
    hide Value, Word;
    var data, pos := c.pack(b), |before|;
    var file := before + data + Word(pos) + rest;
    var available := |file| - pos;
    var size := if available < LIMIT then available else LIMIT;
    var tail := Word(pos) + rest;
    assert file[pos..] == data + tail;
    assert file[pos..pos + size] == (data + tail)[..size];
    if |data| <= LIMIT {
      assert (data + tail)[..size] == data + tail[..size - |data|];
      assert file[pos + |data|..pos + |data| + WORD] == Word(pos);
    } else {
      assert (data + tail)[..size] == data[..size];
    }
  }

  /** Reading a record gives its block and the start of the next one, if the block is not too long. */
  lemma ReadStart<B(!new)>(c: Codec<B>, bs: seq<B>, k: nat)
    requires Sound(c) && k < |bs| && |Image(c, bs)| < MAX64
    ensures ReadAt(c, Image(c, bs), Start(c, bs, k)) ==
      if |c.pack(bs[k])| <= LIMIT then Some((bs[k], Start(c, bs, k + 1))) else None
  {
    hide ReadAt, Word, Image, Sound;
    ImagePrefix(c, bs, k + 1);
    RecordAt(c, bs, k);
    var file := Image(c, bs);
    assert file == Image(c, bs[..k + 1]) + file[Start(c, bs, k + 1)..];
    ReadRecord(c, Image(c, bs[..k]), bs[k], file[Start(c, bs, k + 1)..]);
  }

  /** The end of the file points at the last record. */
  lemma LastStart<B(!new)>(c: Codec<B>, bs: seq<B>)
    requires Sound(c) && bs != [] && |Image(c, bs)| < MAX64
    ensures |Image(c, bs)| > WORD && LastWord(Image(c, bs)) == Some(Start(c, bs, |bs| - 1))
  {
    var n := |bs| - 1;
    assert bs[..n + 1] == bs;
    RecordAt(c, bs, n);
    var file := Image(c, bs);
    assert file[|file| - WORD..] == Word(Start(c, bs, n));
  }
}
