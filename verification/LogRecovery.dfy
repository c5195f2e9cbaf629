/** Which damaged indexes are mended when the log is opened. */
module LogRecovery {
  import opened Options
  import opened Bytes
  import opened LogImage
  import opened BlockLog

  /** The index after opening is the index the appends wrote. */
  ghost predicate Mended<B>(c: Codec<B>, bs: seq<B>, index: seq<Byte>)
    requires bs != []
  {
    Reopened(c, bs, index) == IndexImage(c, bs)
  }

  /** An index that lost whole entries is rebuilt. */
  lemma WholeEntriesLost<B(!new)>(c: Codec<B>, bs: seq<B>, m: nat)
    requires m < |bs| && |Image(c, bs)| < MAX64
    ensures Mended(c, bs, IndexImage(c, bs)[..WORD * m])
  {
    hide IndexImage, Word, Image;
    var index, n := IndexImage(c, bs)[..WORD * m], |bs| - 1;
    if m > 0 {
      IndexAt(c, bs, m - 1);
      assert index[|index| - WORD..] == Word(Start(c, bs, m - 1));
      StartsGrow(c, bs, m - 1, n);
      StartBound(c, bs, m - 1);
      StartBound(c, bs, n);
      assert Value(Word(Start(c, bs, m - 1))) != Value(Word(Start(c, bs, n)));
    }
  }

  /** The value that the last eight bytes have when the index is cut `r` bytes into entry `m`. */
  function CutValue<B>(c: Codec<B>, bs: seq<B>, m: nat, r: nat): int
    requires 0 < m < |bs| && r < WORD
  {
    Start(c, bs, m - 1) / Power(r) + Power(WORD - r) * (Start(c, bs, m) % Power(r))
  }

  lemma CutBytes<B>(c: Codec<B>, bs: seq<B>, m: nat, r: nat)
    requires 0 < m < |bs| && 0 < r < WORD && |Image(c, bs)| < MAX64
    ensures Value(IndexImage(c, bs)[WORD * m + r - WORD..WORD * m + r]) == CutValue(c, bs, m, r)
  {
    hide IndexImage, Value, Image, Power;
    var index := IndexImage(c, bs);
    var a, b := Word(Start(c, bs, m - 1)), Word(Start(c, bs, m));
    IndexAt(c, bs, m - 1);
    IndexAt(c, bs, m);
    assert index[WORD * m + r - WORD..WORD * m + r] == a[r..] + b[..r];
    StartBound(c, bs, m - 1);
    StartBound(c, bs, m);
    PowerWord();
    DigitsSplit(Start(c, bs, m - 1), WORD, r);
    DigitsSplit(Start(c, bs, m), WORD, r);
    ValueConcat(a[r..], b[..r]);
  }

  /** An index that is cut inside entry `m` is rebuilt exactly when its last eight bytes are not,
      by coincidence, the position of the last record. */
  lemma EntryCut<B(!new)>(c: Codec<B>, bs: seq<B>, m: nat, r: nat)
    requires m < |bs| && 0 < r < WORD && |Image(c, bs)| < MAX64
    ensures Mended(c, bs, IndexImage(c, bs)[..WORD * m + r]) <==>
      m == 0 || CutValue(c, bs, m, r) != Start(c, bs, |bs| - 1)
  {
    hide IndexImage, Word, Image, CutValue;
    var index := IndexImage(c, bs)[..WORD * m + r];
    assert |index| < |IndexImage(c, bs)|;
    if m > 0 {
      CutBytes(c, bs, m, r);
      var last := IndexImage(c, bs)[WORD * m + r - WORD..WORD * m + r];
      assert index[|index| - WORD..] == last;
      StartBound(c, bs, |bs| - 1);
      WordOfValue(last, Start(c, bs, |bs| - 1));
    }
  }

  /** Every strict prefix of the index is rebuilt, unless it ends inside an entry in the one way above. */
  lemma PrefixMended<B(!new)>(c: Codec<B>, bs: seq<B>, size: nat)
    requires size < |IndexImage(c, bs)| && bs != [] && |Image(c, bs)| < MAX64
    ensures Mended(c, bs, IndexImage(c, bs)[..size]) <==>
      size % WORD == 0 || size < WORD || CutValue(c, bs, size / WORD, size % WORD) != Start(c, bs, |bs| - 1)
  {
    hide IndexImage, Mended, CutValue, Image;
    if size % WORD == 0 {
      WholeEntriesLost(c, bs, size / WORD);
    } else {
      EntryCut(c, bs, size / WORD, size % WORD);
    }
  }

  /** A crash inside an append, after the record was written: the index has its old entries,
      or the new entry is there but still zero. */
  lemma CrashMended<B(!new)>(c: Codec<B>, bs: seq<B>, b: B)
    requires |Image(c, bs + [b])| < MAX64
    ensures Mended(c, bs + [b], IndexImage(c, bs))
    ensures Mended(c, bs + [b], IndexImage(c, bs) + seq(WORD, i => 0))
  {
    hide IndexImage, Word, Image;
    var all, n := bs + [b], |bs|;
    assert all[..n] == bs && all[..n + 1] == all;
    RecordAt(c, all, n);
    var index := IndexImage(c, all);
    assert index[..WORD * n] == IndexImage(c, bs);
    WholeEntriesLost(c, all, n);
    var zeroed := IndexImage(c, bs) + seq(WORD, i => 0);
    var last := zeroed[|zeroed| - WORD..];
    assert last == seq(WORD, i => 0);
    assert Value(last) == 0 by { ZeroValue(last); }
    StartBound(c, all, n);
    WordOfValue(last, Start(c, all, n));
    if LooksCurrent(c, all, zeroed) {
      assert zeroed == index;
    }
  }

  lemma {:induction false} ZeroValue(s: seq<Byte>)
    requires forall i :: 0 <= i < |s| ==> s[i] == 0
    ensures Value(s) == 0
  {
    if s != [] {
      ZeroValue(s[1..]);
    }
  }

  // ---------------------------------------------------------------------------
  // A log whose cut index is taken for current
  // ---------------------------------------------------------------------------

  datatype Sample = First | Second | Third

  function PackSample(b: Sample): (s: seq<Byte>)
    ensures |s| == if b == Second then 2287 else 1
  {
    match b
    case First => [1]
    case Second => [2] + seq(2286, i => 0)
    case Third => [3]
  }

  function UnpackSample(s: seq<Byte>): Option<(Sample, nat)> {
    if s == [] then None
    else if s[0] == 1 then Some((First, 1))
    else if s[0] == 2 && |s| >= 2287 && s[..2287] == PackSample(Second) then Some((Second, 2287))
    else if s[0] == 3 then Some((Third, 1))
    else None
  }

  function SampleCodec(): Codec<Sample> {
    Codec(PackSample, UnpackSample, (b: Sample) => match b case First => 1 case Second => 2 case Third => 3)
  }

  lemma SampleSound()
    ensures Sound(SampleCodec())
  {
    var c := SampleCodec();
    forall b, rest
      ensures c.unpack(c.pack(b) + rest) == Some((b, |c.pack(b)|))
    {
      assert (PackSample(b) + rest)[..|PackSample(b)|] == PackSample(b);
    }
  }

  lemma SampleStarts()
    ensures var c, bs := SampleCodec(), [First, Second, Third];
      Start(c, bs, 0) == 0 && Start(c, bs, 1) == 9 && Start(c, bs, 2) == 2304 && |Image(c, bs)| == 2313
  {
    hide PackSample, Word, Image;
    var c, bs := SampleCodec(), [First, Second, Third];
    EmptyImages(c, bs);
    RecordAt(c, bs, 0);
    RecordAt(c, bs, 1);
    RecordAt(c, bs, 2);
    assert bs[..3] == bs;
  }

  /** Three blocks whose index, one byte short of two entries, ends with the position of the third. */
  lemma CutNotMended()
    ensures var c, bs := SampleCodec(), [First, Second, Third];
      Sound(c) && Numbered(c, bs) && !Mended(c, bs, IndexImage(c, bs)[..15])
  {
    hide PackSample, Word, Image, Mended, IndexImage;
    SampleSound();
    SampleStarts();
    var c, bs := SampleCodec(), [First, Second, Third];
    assert Power(1) == 256 && Power(7) > 9;
    EntryCut(c, bs, 1, 7);
  }
}
