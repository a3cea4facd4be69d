/** `MySequence` and `get_bottleneck_features` of `utils/dl_utils.py`: a list
    of image paths cut into batches by index arithmetic, and the feature table
    assembled from the batches. Images and models are parameters: `load`
    stands for opening and resizing one image file, `model` for running the
    network on a stack of images. */
module Batching {
  import opened Wrappers
  import opened Sequences
  import DlUtils

  /** The Python exceptions the batching code can raise. */
  datatype Failure =
    | ZeroDivision            // `math.ceil(n / 0)` in `__len__`
    | NegativeLength          // `len()` of a sequence whose `__len__` is negative
    | CannotUnpack            // a batch without file names, taken apart as `(names, images)`:
                              // unpacking it fails, or indexing with what it held fails
    | NoObjectsToConcatenate  // `pd.concat` of an empty list

  /** `math.ceil(n / d)` for a non-zero `d`, on exact rationals: the least
      integer `q` with `n <= q * d` when `d` is positive, and with
      `q * d <= n` when `d` is negative. */
  function CeilDiv(n: nat, d: int): (q: int)
    requires d != 0
    ensures d > 0 ==> (q - 1) * d < n <= q * d
    ensures d < 0 ==> q * d <= n < (q - 1) * d
  {
    if d > 0 then
      CeilDivPositive(n, d);
      (n + d - 1) / d
    else
      CeilDivNegative(n, d);
      -(n / -d)
  }

  lemma CeilDivPositive(n: nat, d: int)
    requires d > 0
    ensures ((n + d - 1) / d - 1) * d < n <= ((n + d - 1) / d) * d
  {
    var q, m := (n + d - 1) / d, (n + d - 1) % d;
    assert n + d - 1 == q * d + m && 0 <= m < d;
    assert (q - 1) * d == q * d - d;
  }

  lemma CeilDivNegative(n: nat, d: int)
    requires d < 0
    ensures (-(n / -d)) * d <= n < (-(n / -d) - 1) * d
  {
    var e := -d;
    var q, m := n / e, n % e;
    assert n == q * e + m && 0 <= m < e;
    assert (-q) * d == q * e;
    assert (-q - 1) * d == q * e + e;
  }

  lemma PrefixThenSlice<T>(s: seq<T>, lo: int, hi: int)
    requires 0 <= lo <= hi <= |s|
    ensures s[..lo] + s[lo..hi] == s[..hi]
  {
  }

  /** What `__getitem__` returns: the stacked images, preceded by the
      `(basename, territory_name)` pairs when the sequence was built with
      `return_filenames`. */
  datatype BatchOut<Img> =
    | Images(images: seq<Img>)
    | NamedImages(names: seq<(string, string)>, images: seq<Img>)

  /** The loop of `__getitem__`: every path of the batch loaded, and named
      by `name` (which `__getitem__` passes as `get_stylised_name_from_fpath`). */
  method LoadBatch<Img>(batch: seq<string>, load: string -> Img, name: string -> (string, string))
    returns (names: seq<(string, string)>, x: seq<Img>)
    ensures names == MapSeq(name, batch)
    ensures x == MapSeq(load, batch)
  {
    names, x := [], [];
    var k := 0;
    while k < |batch|
      invariant 0 <= k <= |batch|
      invariant names == MapSeq(name, batch[..k])
      invariant x == MapSeq(load, batch[..k])
    {
      assert batch[..k + 1][..k] == batch[..k];
      x := x + [load(batch[k])];
      names := names + [name(batch[k])];
      k := k + 1;
    }
    assert batch[..k] == batch;
  }

  /** Custom Keras `Sequence` that feeds images to a model in batches. */
  class MySequence {
    const imgFpathsList: seq<string>
    const batchSize: int
    const returnFilenames: bool
    const nImages: nat := |imgFpathsList|

    constructor (imgFpathsList: seq<string>, batchSize: int, returnFilenames: bool)
      ensures this.imgFpathsList == imgFpathsList && this.batchSize == batchSize
      ensures this.returnFilenames == returnFilenames
      ensures nImages == |imgFpathsList|
    {
      this.imgFpathsList := imgFpathsList;
      this.batchSize := batchSize;
      this.returnFilenames := returnFilenames;
    }

    /** `__len__`: `ceil(n_images / batch_size)` batches; a zero batch size
        raises. */
    function Len(): (r: Result<int, Failure>)
      ensures r.Err? <==> batchSize == 0
      ensures r.Err? ==> r.error == ZeroDivision
      ensures batchSize > 0 && r.Ok? ==> (r.value - 1) * batchSize < nImages <= r.value * batchSize
      ensures batchSize < 0 && r.Ok? ==> r.value * batchSize <= nImages < (r.value - 1) * batchSize
    {
      if batchSize == 0 then Err(ZeroDivision) else Ok(CeilDiv(nImages, batchSize))
    }

    /** The paths of batch `idx`: `img_fpaths_list[idx*bs : (idx+1)*bs]`. */
    function Batch(idx: int): seq<string> {
      PySlice(imgFpathsList, idx * batchSize, (idx + 1) * batchSize)
    }

    /** `__getitem__(idx)`. */
    method GetItem<Img>(idx: int, load: string -> Img) returns (out: BatchOut<Img>)
      ensures out.NamedImages? <==> returnFilenames
      ensures out.images == MapSeq(load, Batch(idx))
      ensures out.NamedImages? ==> out.names == MapSeq(DlUtils.StylisedName, Batch(idx))
    {
      var names, x := LoadBatch(Batch(idx), load, DlUtils.StylisedName);
      if returnFilenames {
        out := NamedImages(names, x);
      } else {
        out := Images(x);
      }
    }

    /** Batch `idx` of a positive batch size is the paths from `idx*bs` up to
        `(idx+1)*bs` or the end, whichever comes first. */
    lemma BatchSlice(idx: int)
      requires batchSize > 0 && idx >= 0
      ensures Batch(idx) == imgFpathsList[Min(idx * batchSize, |imgFpathsList|)..Min((idx + 1) * batchSize, |imgFpathsList|)]
      ensures |Batch(idx)| <= batchSize
    {
      assert (idx + 1) * batchSize == idx * batchSize + batchSize;
    }

    /** Batches `0 .. k-1`, one after another. */
    function Batches(k: nat): seq<string> {
      if k == 0 then [] else Batches(k - 1) + Batch(k - 1)
    }

    lemma {:induction false} BatchesPrefix(k: nat)
      requires batchSize > 0
      ensures Batches(k) == imgFpathsList[..Min(k * batchSize, |imgFpathsList|)]
    {
      if k > 0 {
        BatchesPrefix(k - 1);
        BatchSlice(k - 1);
        var a := (k - 1) * batchSize;
        assert k * batchSize == a + batchSize;
        PrefixThenSlice(imgFpathsList, Min(a, |imgFpathsList|), Min(a + batchSize, |imgFpathsList|));
      }
    }

    /** The `__len__` batches, in order, give back the whole path list. */
    lemma BatchesCover()
      requires batchSize > 0
      ensures Len().Ok? && Len().value >= 0
      ensures Batches(Len().value) == imgFpathsList
    {
      var len := Len().value;
      BatchesPrefix(len);
      assert Min(len * batchSize, |imgFpathsList|) == |imgFpathsList|;
      assert imgFpathsList[..|imgFpathsList|] == imgFpathsList;
    }

    /** Every batch before `__len__` holds at least one path. */
    lemma BatchNonEmpty(idx: int)
      requires batchSize > 0 && 0 <= idx && Len().Ok? && idx < Len().value
      ensures Batch(idx) != []
    {
      var len := Len().value;
      MulMonotonic(idx, len - 1, batchSize);
      var lo := idx * batchSize;
      assert lo < |imgFpathsList|;
      assert (idx + 1) * batchSize == lo + batchSize;
      BatchSlice(idx);
    }
  }

  // Column names `f"F_{i:06d}"`.

  function Pow10(w: nat): (p: nat)
    ensures p >= 1
  {
    if w == 0 then 1 else 10 * Pow10(w - 1)
  }

  function DigitChar(d: nat): (c: char)
    requires d < 10
    ensures '0' <= c <= '9'
  {
    ('0' as int + d) as char
  }

  function DigitValue(c: char): int {
    c as int - '0' as int
  }

  /** The last `w` decimal digits of `v`, most significant first. */
  function FixedDigits(v: nat, w: nat): (s: string)
    ensures |s| == w
    ensures forall k :: 0 <= k < w ==> '0' <= s[k] <= '9'
  {
    if w == 0 then [] else FixedDigits(v / 10, w - 1) + [DigitChar(v % 10)]
  }

  /** How many decimal digits `v` has without leading zeros. */
  function NumDigits(v: nat): (w: nat)
    ensures w >= 1
  {
    if v < 10 then 1 else 1 + NumDigits(v / 10)
  }

  /** Feature column `i`: "F_" and `i` in decimal, zero-padded to 6 digits
      (wider numbers keep all their digits). */
  function ColumnName(i: nat): string {
    "F_" + FixedDigits(i, if NumDigits(i) < 6 then 6 else NumDigits(i))
  }

  /** The column labels of a feature table of `width` features. */
  function ColumnNames(width: nat): (r: seq<string>)
    ensures |r| == width && forall i :: 0 <= i < width ==> r[i] == ColumnName(i)
  {
    seq(width, i requires 0 <= i < width => ColumnName(i))
  }

  /** Reads decimal digits back as a number. */
  function ParseDigits(s: string): int {
    if s == [] then 0 else 10 * ParseDigits(s[..|s| - 1]) + DigitValue(s[|s| - 1])
  }

  /** `NumDigits` is the least number of digits that holds `v`. */
  lemma {:induction false} NumDigitsBounds(v: nat)
    ensures v < Pow10(NumDigits(v))
    ensures v >= 10 ==> Pow10(NumDigits(v) - 1) <= v
  {
    if v >= 10 {
      NumDigitsBounds(v / 10);
    }
  }

  lemma {:induction false} ParseFixedDigits(v: nat, w: nat)
    requires v < Pow10(w)
    ensures ParseDigits(FixedDigits(v, w)) == v
  {
    if w > 0 {
      var s := FixedDigits(v, w);
      assert s[..w - 1] == FixedDigits(v / 10, w - 1);
      ParseFixedDigits(v / 10, w - 1);
    }
  }

  /** The digits after "F_" read back as the column index. */
  lemma ColumnNameRoundTrip(i: nat)
    ensures ColumnName(i)[..2] == "F_"
    ensures ParseDigits(ColumnName(i)[2..]) == i
  {
    var w := NumDigits(i);
    var width := if w < 6 then 6 else w;
    NumDigitsBounds(i);
    PowMonotonic(w, width);
    assert ColumnName(i)[2..] == FixedDigits(i, width);
    ParseFixedDigits(i, width);
  }

  lemma {:induction false} PowMonotonic(a: nat, b: nat)
    requires a <= b
    ensures Pow10(a) <= Pow10(b)
  {
    if a < b {
      PowMonotonic(a, b - 1);
    }
  }

  /** Different columns have different names. */
  lemma ColumnNameInjective(i: nat, j: nat)
    requires ColumnName(i) == ColumnName(j)
    ensures i == j
  {
    ColumnNameRoundTrip(i);
    ColumnNameRoundTrip(j);
  }

  /** Below a million, every name is "F_" and exactly six digits. */
  lemma ColumnNameShape(i: nat)
    requires i < 1000000
    ensures |ColumnName(i)| == 8 && ColumnName(i)[..2] == "F_"
    ensures forall k :: 2 <= k < 8 ==> '0' <= ColumnName(i)[k] <= '9'
  {
    SixDigits(i);
  }

  lemma SixDigits(i: nat)
    requires i < 1000000
    ensures NumDigits(i) <= 6
  {
    NumDigitsBounds(i);
    if NumDigits(i) > 6 {
      assert Pow10(6) == 1000000;
      PowMonotonic(6, NumDigits(i) - 1);
    }
  }

  /** `a` sorts before `b`: they agree up to a position where `a` has the
      smaller character. */
  predicate LexLess(a: string, b: string) {
    exists k :: 0 <= k < |a| && k < |b| && a[..k] == b[..k] && a[k] < b[k]
  }

  lemma DigitSplit(u: nat, v: nat, p: nat)
    requires u < v < 10 * p
    ensures u / 10 <= v / 10 < p
    ensures u / 10 == v / 10 ==> u % 10 < v % 10
  {
    assert u == 10 * (u / 10) + u % 10 && v == 10 * (v / 10) + v % 10;
  }

  /** The first position where the `w`-digit forms of `u < v` differ, and
      `u`'s digit there is the smaller. */
  lemma {:induction false} FixedDigitsOrder(u: nat, v: nat, w: nat) returns (k: nat)
    requires u < v < Pow10(w)
    ensures k < w
    ensures FixedDigits(u, w)[..k] == FixedDigits(v, w)[..k]
    ensures FixedDigits(u, w)[k] < FixedDigits(v, w)[k]
  {
    var a, b := FixedDigits(u, w), FixedDigits(v, w);
    var a', b' := FixedDigits(u / 10, w - 1), FixedDigits(v / 10, w - 1);
    DigitSplit(u, v, Pow10(w - 1));
    if u / 10 < v / 10 {
      k := FixedDigitsOrder(u / 10, v / 10, w - 1);
      assert a[..k] == a'[..k] && b[..k] == b'[..k];
      assert a[k] == a'[k] && b[k] == b'[k];
    } else {
      k := w - 1;
      assert a[..k] == a' && b[..k] == b';
    }
  }

  /** Below a million, names sort in index order. */
  lemma ColumnNameOrder(i: nat, j: nat)
    requires i < j < 1000000
    ensures LexLess(ColumnName(i), ColumnName(j))
  {
    SixDigits(i);
    SixDigits(j);
    assert Pow10(6) == 1000000;
    var k := FixedDigitsOrder(i, j, 6);
    var a, b := FixedDigits(i, 6), FixedDigits(j, 6);
    var x, y := ColumnName(i), ColumnName(j);
    assert x == "F_" + a && y == "F_" + b;
    assert x[..k + 2] == "F_" + a[..k] && y[..k + 2] == "F_" + b[..k];
    assert x[k + 2] == a[k] && y[k + 2] == b[k];
  }

  // The feature table of `get_bottleneck_features`.

  /** A pandas frame of features: one `(filename, territory_name)` label per
      row, one label per column, and the feature values row by row. */
  datatype FeatureFrame = FeatureFrame(index: seq<(string, string)>, columns: seq<string>, rows: seq<seq<real>>)

  function IndexOf(frame: FeatureFrame): seq<(string, string)> {
    frame.index
  }

  function RowsOf(frame: FeatureFrame): seq<seq<real>> {
    frame.rows
  }

  /** `pd.concat` of frames that share their columns: the rows stacked in
      order, labels included; an empty list raises. */
  function Concat(frames: seq<FeatureFrame>): (r: Result<FeatureFrame, Failure>)
    requires forall i :: 0 <= i < |frames| ==> frames[i].columns == frames[0].columns
    ensures r.Err? <==> frames == []
    ensures r.Err? ==> r.error == NoObjectsToConcatenate
    ensures r.Ok? ==> r.value.columns == frames[0].columns
    ensures r.Ok? ==> r.value.index == Flatten(MapSeq(IndexOf, frames))
    ensures r.Ok? ==> r.value.rows == Flatten(MapSeq(RowsOf, frames))
  {
    if frames == [] then Err(NoObjectsToConcatenate)
    else Ok(FeatureFrame(Flatten(MapSeq(IndexOf, frames)), frames[0].columns, Flatten(MapSeq(RowsOf, frames))))
  }

  /** The frame made from batch `idx`: its names as row labels, the model's
      output on its images as rows. */
  function BatchFrame<Img>(s: MySequence, idx: int, load: string -> Img,
                           model: seq<Img> -> seq<seq<real>>, width: nat): FeatureFrame
  {
    FeatureFrame(MapSeq(DlUtils.StylisedName, s.Batch(idx)), ColumnNames(width),
                 model(MapSeq(load, s.Batch(idx))))
  }

  /** The frames of batches `0 .. k-1`, in order. */
  function Frames<Img>(s: MySequence, k: nat, load: string -> Img,
                       model: seq<Img> -> seq<seq<real>>, width: nat): (r: seq<FeatureFrame>)
    ensures |r| == k && forall j :: 0 <= j < k ==> r[j].columns == ColumnNames(width)
  {
    if k == 0 then [] else Frames(s, k - 1, load, model, width) + [BatchFrame(s, k - 1, load, model, width)]
  }

  /** The row labels of the first `k` frames are the names of the first `k`
      batches' paths. */
  lemma {:induction false} FramesIndex<Img>(s: MySequence, k: nat, load: string -> Img,
                                            model: seq<Img> -> seq<seq<real>>, width: nat)
    ensures Flatten(MapSeq(IndexOf, Frames(s, k, load, model, width))) == MapSeq(DlUtils.StylisedName, s.Batches(k))
  {
    if k > 0 {
      var prev := Frames(s, k - 1, load, model, width);
      var frame := BatchFrame(s, k - 1, load, model, width);
      FramesIndex(s, k - 1, load, model, width);
      MapSeqSnoc(IndexOf, prev, frame);
      FlattenSnoc(MapSeq(IndexOf, prev), IndexOf(frame));
      MapSeqAppend(DlUtils.StylisedName, s.Batches(k - 1), s.Batch(k - 1));
    }
  }

  /** `model` gives one row of features per image it is given. */
  ghost predicate OneRowPerImage<Img(!new)>(model: seq<Img> -> seq<seq<real>>) {
    forall xs :: |model(xs)| == |xs|
  }

  /** A model that gives one row per image gives the first `k` frames one
      row per path of the first `k` batches. */
  lemma {:induction false} FramesRowCount<Img(!new)>(s: MySequence, k: nat, load: string -> Img,
                                               model: seq<Img> -> seq<seq<real>>, width: nat)
    requires OneRowPerImage(model)
    ensures |Flatten(MapSeq(RowsOf, Frames(s, k, load, model, width)))| == |s.Batches(k)|
  {
    if k > 0 {
      var prev := Frames(s, k - 1, load, model, width);
      var frame := BatchFrame(s, k - 1, load, model, width);
      FramesRowCount(s, k - 1, load, model, width);
      MapSeqSnoc(RowsOf, prev, frame);
      FlattenSnoc(MapSeq(RowsOf, prev), RowsOf(frame));
    }
  }

  /** Concatenating the frames of all `__len__` batches labels every path
      with its name, in order, and gives one row per path. */
  lemma ConcatFrames<Img(!new)>(s: MySequence, load: string -> Img,
                                model: seq<Img> -> seq<seq<real>>, width: nat)
    requires s.batchSize > 0 && OneRowPerImage(model)
    ensures s.Len().Ok? && s.Len().value >= 0
    ensures var r := Concat(Frames(s, s.Len().value, load, model, width));
            r.Ok? ==> r.value.index == MapSeq(DlUtils.StylisedName, s.imgFpathsList) &&
                      r.value.columns == ColumnNames(width) &&
                      |r.value.rows| == s.nImages
  {
    s.BatchesCover();
    FramesIndex(s, s.Len().value, load, model, width);
    FramesRowCount(s, s.Len().value, load, model, width);
  }

  /** `get_bottleneck_features`: every batch run through the model, and the
      per-batch frames concatenated. `model` gives one row of `width`
      features per image. */
  method BottleneckFeatures<Img(!new)>(s: MySequence, load: string -> Img,
                                 model: seq<Img> -> seq<seq<real>>, width: nat)
    returns (r: Result<FeatureFrame, Failure>)
    requires OneRowPerImage(model)
    ensures s.batchSize == 0 ==> r == Err(ZeroDivision)
    ensures s.batchSize != 0 && s.Len().value < 0 ==> r == Err(NegativeLength)
    ensures s.batchSize != 0 && s.Len().value == 0 ==> r == Err(NoObjectsToConcatenate)
    ensures s.batchSize != 0 && s.Len().value > 0 && !s.returnFilenames ==> r == Err(CannotUnpack)
    ensures r.Ok? <==> s.batchSize != 0 && s.Len().value > 0 && s.returnFilenames
    ensures r.Ok? ==> r.value.index == MapSeq(DlUtils.StylisedName, s.imgFpathsList)
    ensures r.Ok? ==> r.value.columns == ColumnNames(width)
    ensures r.Ok? ==> |r.value.rows| == s.nImages
    ensures r.Ok? ==> r.value.rows == Flatten(MapSeq(RowsOf, Frames(s, s.Len().value, load, model, width)))
  {
    var len := s.Len();
    if len.Err? {
      return Err(len.error);
    }
    if len.value < 0 {
      return Err(NegativeLength);
    }
    var frames: seq<FeatureFrame> := [];
    var i := 0;
    while i < len.value
      invariant 0 <= i <= len.value
      invariant frames == Frames(s, i, load, model, width)
      invariant i > 0 ==> s.returnFilenames
    {
      var out := s.GetItem(i, load);
      if !out.NamedImages? {
        return Err(CannotUnpack);
      }
      var frame := FeatureFrame(out.names, ColumnNames(width), model(out.images));
      assert frame == BatchFrame(s, i, load, model, width);
      frames := frames + [frame];
      i := i + 1;
    }
    r := Concat(frames);
    if r.Ok? {
      ConcatFrames(s, load, model, width);
    }
  }
}
