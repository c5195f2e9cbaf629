/** The append-only block log and its index. */
module BlockLog {
  import opened Options
  import opened Bytes
  import opened LogImage

  datatype Fetched<B> = Missing | Found(block: B) | Failed

  /** The block is short enough to be read back. */
  predicate Fits<B>(c: Codec<B>, b: B) {
    |c.pack(b)| <= LIMIT
  }

  ghost predicate AllFit<B>(c: Codec<B>, bs: seq<B>) {
    forall k :: 0 <= k < |bs| ==> Fits(c, bs[k])
  }

  /** The file holds the image; with nothing to hold it is shorter than a word. */
  predicate Stores(file: seq<Byte>, image: seq<Byte>) {
    if image == [] then |file| < WORD else file == image
  }

  /** Opening a file that is missing or empty creates it with one zero byte. */
  function Created(file: seq<Byte>): seq<Byte> {
    if file == [] then [0] else file
  }

  /** The index ends with the position that the block file ends with, so opening keeps it. */
  predicate LooksCurrent<B>(c: Codec<B>, bs: seq<B>, index: seq<Byte>)
    requires bs != []
  {
    |index| >= WORD && index[|index| - WORD..] == Word(Start(c, bs, |bs| - 1))
  }

  /** The index after opening: kept when it looks current, rebuilt otherwise. */
  function Reopened<B>(c: Codec<B>, bs: seq<B>, index: seq<Byte>): seq<Byte>
    requires bs != []
  {
    if LooksCurrent(c, bs, index) then index else IndexImage(c, bs)
  }

  class Log<B(!new)> {
    const codec: Codec<B>
    var blockFile: seq<Byte>
    var indexFile: seq<Byte>
    var head: Option<B>
    ghost var blocks: seq<B>

    /** The block file holds `blocks`; nothing is said about the index. */
    ghost predicate Logged()
      reads this
    {
      && Sound(codec) && Numbered(codec, blocks)
      && |Image(codec, blocks)| < MAX64
      && Stores(blockFile, Image(codec, blocks))
    }

    ghost predicate Valid()
      reads this
    {
      && Logged()
      && Stores(indexFile, IndexImage(codec, blocks))
      && head == if blocks == [] then None else Some(blocks[|blocks| - 1])
    }

    /** A log over new files. */
    constructor (c: Codec<B>)
      requires Sound(c)
      ensures Valid() && codec == c && blocks == []
    {
      codec := c;
      blockFile, indexFile, head, blocks := [0], [0], None, [];
    }

    /** Appends a record and an index entry, unless the index is not where the block's number says. */
    method Append(b: B) returns (ok: bool)
      requires Logged() && |Image(codec, blocks)| + |codec.pack(b)| + WORD < MAX64
      modifies this
      ensures ok <==> MappedSize(old(indexFile)) == WORD * (codec.num(b) - 1)
      ensures !ok ==>
        blockFile == old(blockFile) && indexFile == old(indexFile) && head == old(head) && blocks == old(blocks)
      ensures ok ==> blocks == old(blocks) + [b] && blockFile == Image(codec, blocks) && head == Some(b)
      ensures old(Valid()) ==> Valid() && (ok <==> codec.num(b) == |old(blocks)| + 1)
    {
      hide Word, Value, Image, IndexImage, Sound;
      var indexPos := MappedSize(indexFile);
      assert Valid() ==> indexPos == WORD * |blocks|;
      if indexPos != WORD * (codec.num(b) - 1) {
        return false;
      }
      var blockPos := MappedSize(blockFile);
      ImageLength(codec, blocks);
      ImagesAppend(codec, blocks, b);
      assert blockFile[..blockPos] == Image(codec, blocks);
      blockFile := blockFile[..blockPos] + codec.pack(b) + Word(blockPos);
      indexFile := indexFile[..indexPos] + Word(blockPos);
      head := Some(b);
      blocks := blocks + [b];
      ok := true;
    }

    /** Reads the block with a number through the index. */
    method ReadByNum(num: nat) returns (r: Fetched<B>)
      requires Valid()
      ensures r == if num == 0 || num > |blocks| then Missing
                   else if Fits(codec, blocks[num - 1]) then Found(blocks[num - 1])
                   else Failed
    {
      hide Image, IndexImage, ReadAt, Sound;
      if head == None || num > codec.num(head.value) || num == 0 {
        return Missing;
      }
      ImageLength(codec, blocks);
      assert WordAt(indexFile, WORD * (num - 1)) == Some(Start(codec, blocks, num - 1)) by {
        IndexAt(codec, blocks, num - 1);
        StartBound(codec, blocks, num - 1);
      }
      var pos := WordAt(indexFile, WORD * (num - 1)).value;
      ReadStart(codec, blocks, num - 1);
      var read := ReadAt(codec, blockFile, pos);
      if read == None || codec.num(read.value.0) != num {
        return Failed;
      }
      return Found(read.value.0);
    }

    /** Writes the index anew by reading the block file from its start. */
    method ConstructIndex() returns (ok: bool)
      requires Logged() && blocks != [] && head == Some(blocks[|blocks| - 1])
      modifies this`indexFile
      ensures ok <==> AllFit(codec, blocks)
      ensures ok ==> indexFile == IndexImage(codec, blocks)
    {
      hide Image, IndexImage, ReadAt, Word, Sound, LastWord;
      var size := WORD * codec.num(head.value);
      indexFile := seq(size, i => 0);
      LastStart(codec, blocks);
      var pos, end, next := 0, LastWord(blockFile).value, 0;
      ghost var i := 0;
      assert Start(codec, blocks, 0) == 0 && IndexImage(codec, blocks[..0]) == [] by {
        EmptyImages(codec, blocks);
      }
      while pos <= end
        invariant 0 <= i <= |blocks| && pos == Start(codec, blocks, i) && next == WORD * i
        invariant |indexFile| == WORD * |blocks| && indexFile[..next] == IndexImage(codec, blocks[..i])
        invariant AllFit(codec, blocks[..i])
        invariant i == |blocks| ==> pos > end
        decreases |blocks| - i
      {
        if i < |blocks| - 1 {
          StartsGrow(codec, blocks, i, |blocks| - 1);
        }
        RecordAt(codec, blocks, i);
        ReadStart(codec, blocks, i);
        indexFile := indexFile[..next] + Word(pos) + indexFile[next + WORD..];
        assert indexFile[..next + WORD] == IndexImage(codec, blocks[..i + 1]);
        var read := ReadAt(codec, blockFile, pos);
        if read == None {
          assert !Fits(codec, blocks[i]);
          return false;
        }
        pos := read.value.1;
        next := next + WORD;
        i := i + 1;
        assert blocks[..i] == blocks[..i - 1] + [blocks[i - 1]];
        if i == |blocks| {
          StartsGrow(codec, blocks, i - 1, i);
        }
      }
      if i < |blocks| - 1 {
        StartsGrow(codec, blocks, i, |blocks| - 1);
      }
      assert blocks[..i] == blocks;
      return true;
    }

    /** Opens the two files, mending the index. Only the block file is known to be complete. */
    method Open() returns (ok: bool)
      requires Logged()
      modifies this
      ensures blocks == old(blocks) && Logged()
      ensures blocks == [] ==> ok && |indexFile| < WORD && head == old(head)
      ensures blocks != [] ==>
        (ok <==>
          && Fits(codec, blocks[|blocks| - 1])
          && (LooksCurrent(codec, blocks, old(indexFile)) || AllFit(codec, blocks)))
      ensures blocks != [] && ok ==>
        head == Some(blocks[|blocks| - 1]) && indexFile == Reopened(codec, blocks, old(indexFile))
    {
      hide Image, IndexImage, ReadAt, Word, Sound;
      ImageLength(codec, blocks);
      blockFile, indexFile := Created(blockFile), Created(indexFile);
      if |blockFile| > WORD {
        LastStart(codec, blocks);
        ReadStart(codec, blocks, |blocks| - 1);
        var blockPos := LastWord(blockFile).value;
        var last := ReadAt(codec, blockFile, blockPos);
        if last == None {
          return false;
        }
        head := Some(last.value.0);
        if |indexFile| >= WORD {
          StartBound(codec, blocks, |blocks| - 1);
          WordOfValue(indexFile[|indexFile| - WORD..], blockPos);
          if LastWord(indexFile).value != blockPos {
            ok := ConstructIndex();
            return;
          }
        } else {
          ok := ConstructIndex();
          return;
        }
      } else if |indexFile| >= WORD {
        blockFile, indexFile := [0], [0];
      }
      return true;
    }
  }

  lemma EmptyImages<B>(c: Codec<B>, bs: seq<B>)
    ensures Start(c, bs, 0) == 0 && IndexImage(c, bs[..0]) == []
  {
  }

  lemma ImagesAppend<B>(c: Codec<B>, bs: seq<B>, b: B)
    ensures Image(c, bs + [b]) == Image(c, bs) + c.pack(b) + Word(|Image(c, bs)|)
    ensures IndexImage(c, bs + [b]) == IndexImage(c, bs) + Word(|Image(c, bs)|)
  {
    assert (bs + [b])[..|bs|] == bs;
  }

  /** An image is empty or longer than a word. */
  lemma ImageLength<B(!new)>(c: Codec<B>, bs: seq<B>)
    requires Sound(c)
    ensures if bs == [] then Image(c, bs) == [] else |Image(c, bs)| > WORD
  {
  }
}
