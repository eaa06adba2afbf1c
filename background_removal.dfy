/**
 * The arithmetic of the logo background remover: the canvas is resized so
 * that its longer side is 512 pixels, the other side scaled and rounded the
 * way `Math.round` rounds; then an alpha mask that starts at 1 for every
 * pixel is lowered by the segments the model labels as background and by a
 * near-white colour test, and finally written into the alpha byte of each
 * RGBA pixel.
 *
 * The segmentation model, canvas drawing and image encoding are not
 * modelled: the segments and the pixel bytes are inputs. The mask is
 * modelled over `real` (the source stores it as 32-bit floats).
 */
module BackgroundRemoval {

  /** The side every resized image has along its longer dimension. */
  const MaxImageDimension: nat := 512

  /** A byte of a `Uint8ClampedArray`. */
  newtype byte = x: int | 0 <= x < 256

  /** `Math.round`: halves round up, towards positive infinity. */
  function JsRound(x: real): (r: int)
    ensures r as real - 0.5 <= x < r as real + 0.5
  {
    (x + 0.5).Floor
  }

  /** A real whose product with a positive integer is an integer floors to their integer quotient. */
  lemma FloorOfQuotient(y: real, a: int, b: int)
    requires 0 < b && y * b as real == a as real
    ensures y.Floor == a / b
  {
    var q, m := a / b, a % b;
    assert a == q * b + m && 0 <= m < b;
    assert (y - q as real) * b as real == m as real;
    if y < q as real {
      assert false;
    }
    if y >= (q + 1) as real {
      assert false;
    }
    assert q as real <= y < (q + 1) as real;
  }

  /**
   * `Math.round(side * 512 / longer)` computed on integers: for a positive
   * longer side the two agree, the result never exceeds 512, and it is the
   * nearest integer to the exact proportion (twice the error is in
   * `(-longer, longer]`).
   */
  function ScaledSide(side: nat, longer: nat): (r: nat)
    requires 0 < longer && side <= longer
    ensures r == JsRound((side * MaxImageDimension) as real / longer as real)
    ensures r <= MaxImageDimension
    ensures -(longer as int) < 2 * (r * longer - MaxImageDimension * side) <= longer
  {
    ScaledSideFacts(side, longer);
    (2 * MaxImageDimension * side + longer) / (2 * longer)
  }

  lemma ScaledSideFacts(side: nat, longer: nat)
    requires 0 < longer && side <= longer
    ensures var r := (2 * MaxImageDimension * side + longer) / (2 * longer);
      && 0 <= r
      && r == JsRound((side * MaxImageDimension) as real / longer as real)
      && r <= MaxImageDimension
      && -(longer as int) < 2 * (r * longer - MaxImageDimension * side) <= longer
  {
    ScaledSideRounds(side, longer);
    ScaledSideBounds(side, longer);
  }

  lemma ScaledSideRounds(side: nat, longer: nat)
    requires 0 < longer && side <= longer
    ensures (2 * MaxImageDimension * side + longer) / (2 * longer)
      == JsRound((side * MaxImageDimension) as real / longer as real)
  {
    var x := (side * MaxImageDimension) as real / longer as real;
    assert x * longer as real == (side * MaxImageDimension) as real;
    assert (x + 0.5) * (2 * longer) as real == (2 * MaxImageDimension * side + longer) as real;
    FloorOfQuotient(x + 0.5, 2 * MaxImageDimension * side + longer, 2 * longer);
  }

  lemma ScaledSideBounds(side: nat, longer: nat)
    requires 0 < longer && side <= longer
    ensures var r := (2 * MaxImageDimension * side + longer) / (2 * longer);
      && 0 <= r <= MaxImageDimension
      && -(longer as int) < 2 * (r * longer - MaxImageDimension * side) <= longer
  {
    var n := 2 * MaxImageDimension * side + longer;
    var d := 2 * longer;
    var r, m := n / d, n % d;
    assert n == r * d + m && 0 <= m < d;
    assert 2 * (r * longer) == r * d;
    assert 2 * (r * longer - MaxImageDimension * side) == longer - m;
    assert n <= (2 * MaxImageDimension + 1) * longer;
    if r > MaxImageDimension {
      MulMonotone(MaxImageDimension + 1, r, d);
      assert false;
    }
  }

  lemma MulMonotone(a: int, b: int, c: nat)
    requires a <= b
    ensures a * c <= b * c
  {
  }

  /** A canvas: only its two dimensions are modelled. */
  class Canvas {
    var width: nat
    var height: nat

    /** A new canvas has the HTML default size, 300 by 150. */
    constructor ()
      ensures width == 300 && height == 150
    {
      width := 300;
      height := 150;
    }
  }

  /**
   * The size `resizeImageIfNeeded` gives the canvas: the longer side (the
   * height, when the two are equal) becomes 512 and the other one is scaled
   * to match. A 0 by 0 image makes the scaled width `NaN`, which the canvas
   * stores as 0.
   */
  function Resized(naturalWidth: nat, naturalHeight: nat): (r: (nat, nat))
    ensures r.0 <= MaxImageDimension && r.1 <= MaxImageDimension
    ensures naturalWidth > naturalHeight ==> r.0 == MaxImageDimension && r.1 <= r.0
    ensures naturalWidth <= naturalHeight ==> r.1 == MaxImageDimension && r.0 <= r.1
    ensures naturalWidth > naturalHeight ==>
      -(naturalWidth as int) < 2 * (r.1 * naturalWidth - MaxImageDimension * naturalHeight) <= naturalWidth
    ensures 0 < naturalHeight && naturalWidth <= naturalHeight ==>
      -(naturalHeight as int) < 2 * (r.0 * naturalHeight - MaxImageDimension * naturalWidth) <= naturalHeight
    ensures 0 < naturalWidth == naturalHeight ==> r == (MaxImageDimension, MaxImageDimension)
    ensures naturalWidth == naturalHeight == 0 ==> r == (0, MaxImageDimension)
  {
    if naturalWidth > naturalHeight then
      (MaxImageDimension, ScaledSide(naturalHeight, naturalWidth))
    else if naturalHeight == 0 then
      (0, MaxImageDimension)
    else
      SquareScalesToMax(naturalWidth, naturalHeight);
      (ScaledSide(naturalWidth, naturalHeight), MaxImageDimension)
  }

  lemma SquareScalesToMax(side: nat, longer: nat)
    requires 0 < longer && side <= longer
    ensures side == longer ==> ScaledSide(side, longer) == MaxImageDimension
  {
    if side == longer {
      var n, d := 2 * MaxImageDimension * side + longer, 2 * longer;
      assert n == MaxImageDimension * d + longer;
      QuotientOf(n, d, MaxImageDimension, longer);
    }
  }

  /** The quotient of `q * d + m` by `d` is `q` when `0 <= m < d`. */
  lemma QuotientOf(n: int, d: int, q: int, m: int)
    requires 0 <= m < d && n == q * d + m
    ensures n / d == q
  {
    var q', m' := n / d, n % d;
    assert n == q' * d + m' && 0 <= m' < d;
    if q' < q {
      MulMonotone(q' + 1, q, d);
      assert false;
    } else if q' > q {
      MulMonotone(q + 1, q', d);
      assert false;
    }
  }

  /**
   * `resizeImageIfNeeded`: works out the new size in two local variables,
   * stores it in the canvas, and always reports success.
   */
  method ResizeImageIfNeeded(canvas: Canvas, naturalWidth: nat, naturalHeight: nat) returns (drawn: bool)
    modifies canvas
    ensures (canvas.width, canvas.height) == Resized(naturalWidth, naturalHeight)
    ensures drawn
  {
    var width := naturalWidth;
    var height := naturalHeight;
    if width > height {
      height := ScaledSide(height, width);
      width := MaxImageDimension;
    } else {
      width := if height == 0 then 0 else ScaledSide(width, height);
      height := MaxImageDimension;
    }
    canvas.width := width;
    canvas.height := height;
    drawn := true;
  }

  /** One entry of the segmentation result: the class label and its per-pixel mask. */
  datatype Segment = Segment(name: string, mask: seq<real>)

  /** The labels the model uses for things that are taken to be background. */
  const BackgroundLabels: set<string> := {
    "wall", "building", "floor", "ceiling", "road",
    "sidewalk", "screen", "poster", "windowpane", "screen door"
  }

  predicate IsBackground(name: string) {
    name in BackgroundLabels
  }

  function Min(x: real, y: real): real {
    if x <= y then x else y
  }

  /**
   * The alpha mask after one background segment: each pixel the mask covers
   * drops to `1 - mask[i]` if that is lower; mask entries past the end of
   * the alpha mask are ignored, as typed-array writes out of range are.
   */
  function Lower(alpha: seq<real>, mask: seq<real>): (r: seq<real>)
    ensures |r| == |alpha|
  {
    seq(|alpha|, i requires 0 <= i < |alpha| => if i < |mask| then Min(alpha[i], 1.0 - mask[i]) else alpha[i])
  }

  /** One segment's effect: only a background segment lowers the mask. */
  function SegmentStep(alpha: seq<real>, segment: Segment): (r: seq<real>)
    ensures |r| == |alpha|
  {
    if IsBackground(segment.name) then Lower(alpha, segment.mask) else alpha
  }

  /** The alpha mask after the segments, taken in order. */
  function SegmentationAlpha(alpha: seq<real>, segments: seq<Segment>): (r: seq<real>)
    ensures |r| == |alpha|
    decreases |segments|
  {
    if segments == [] then alpha else SegmentationAlpha(SegmentStep(alpha, segments[0]), segments[1..])
  }

  /** The segmentation pass never raises entry `i`. */
  lemma {:induction false} SegmentNeverRaises(alpha: seq<real>, segments: seq<Segment>, i: nat)
    requires i < |alpha|
    ensures SegmentationAlpha(alpha, segments)[i] <= alpha[i]
    decreases |segments|
  {
    if segments != [] {
      var next := SegmentStep(alpha, segments[0]);
      SegmentNeverRaises(next, segments[1..], i);
    }
  }

  /** A background segment `k` that covers entry `i` caps it at `1 - mask[i]`, whatever comes after. */
  lemma {:induction false} SegmentCap(alpha: seq<real>, segments: seq<Segment>, k: nat, i: nat)
    requires k < |segments| && IsBackground(segments[k].name) && i < |alpha| && i < |segments[k].mask|
    ensures SegmentationAlpha(alpha, segments)[i] <= 1.0 - segments[k].mask[i]
    decreases |segments|
  {
    var next := SegmentStep(alpha, segments[0]);
    if k == 0 {
      SegmentNeverRaises(next, segments[1..], i);
    } else {
      assert segments[1..][k - 1] == segments[k];
      SegmentCap(next, segments[1..], k - 1, i);
    }
  }

  /** Entry `i` keeps its value when no background segment covers it. */
  lemma {:induction false} SegmentUncovered(alpha: seq<real>, segments: seq<Segment>, i: nat)
    requires i < |alpha|
    requires forall k :: 0 <= k < |segments| && IsBackground(segments[k].name) ==> |segments[k].mask| <= i
    ensures SegmentationAlpha(alpha, segments)[i] == alpha[i]
    decreases |segments|
  {
    if segments != [] {
      var next := SegmentStep(alpha, segments[0]);
      var rest := segments[1..];
      assert next[i] == alpha[i];
      forall k | 0 <= k < |rest| && IsBackground(rest[k].name)
        ensures |rest[k].mask| <= i
      {
        assert rest[k] == segments[k + 1];
      }
      SegmentUncovered(next, rest, i);
    }
  }

  /** The segments whose label is a background label, in order. */
  function BackgroundOnly(segments: seq<Segment>): (r: seq<Segment>)
    ensures |r| <= |segments|
    ensures forall k :: 0 <= k < |r| ==> IsBackground(r[k].name) && r[k] in segments
    ensures forall k :: 0 <= k < |segments| && IsBackground(segments[k].name) ==> segments[k] in r
    decreases |segments|
  {
    if segments == [] then []
    else
      var rest := BackgroundOnly(segments[1..]);
      assert forall k :: 1 <= k < |segments| ==> segments[k] == segments[1..][k - 1];
      if IsBackground(segments[0].name) then [segments[0]] + rest else rest
  }

  /** Only segments with one of the ten background labels affect the mask. */
  lemma {:induction false} OnlyBackgroundLabelsMatter(alpha: seq<real>, segments: seq<Segment>)
    ensures SegmentationAlpha(alpha, segments) == SegmentationAlpha(alpha, BackgroundOnly(segments))
    decreases |segments|
  {
    if segments != [] {
      var next := SegmentStep(alpha, segments[0]);
      OnlyBackgroundLabelsMatter(next, segments[1..]);
      if IsBackground(segments[0].name) {
        var b := BackgroundOnly(segments);
        assert b[0] == segments[0] && b[1..] == BackgroundOnly(segments[1..]);
      }
    }
  }

  function Max3(r: int, g: int, b: int): int {
    if r >= g && r >= b then r else if g >= b then g else b
  }

  function Min3(r: int, g: int, b: int): int {
    if r <= g && r <= b then r else if g <= b then g else b
  }

  /** `(r + g + b) / 3` */
  function Average(r: int, g: int, b: int): real {
    (r + g + b) as real / 3.0
  }

  /** Pure or near-pure white: average above 245 and channels within 15 of each other. */
  predicate HardWhite(r: int, g: int, b: int) {
    Average(r, g, b) > 245.0 && Max3(r, g, b) - Min3(r, g, b) < 15
  }

  /** Light grey or white: average above 225 and channels within 20 of each other. */
  predicate LightGrey(r: int, g: int, b: int) {
    Average(r, g, b) > 225.0 && Max3(r, g, b) - Min3(r, g, b) < 20
  }

  /** `Math.max(0, Math.min(1, x))` */
  function Clamp01(x: real): (r: real)
    ensures 0.0 <= r <= 1.0
    ensures 0.0 <= x <= 1.0 ==> r == x
  {
    if x >= 1.0 then 1.0 else if x <= 0.0 then 0.0 else x
  }

  /** The cap the soft fade puts on a light pixel: from 1 at average 225 down to 0.15 at average 255. */
  function FadeCap(r: int, g: int, b: int): (cap: real)
    ensures 0.15 <= cap <= 1.0
  {
    1.0 - 0.85 * Clamp01((Average(r, g, b) - 225.0) / 30.0)
  }

  /** The average test on integer channels is a test on their sum: above 245 means above 735. */
  lemma HardWhiteCutoff(r: int, g: int, b: int)
    ensures HardWhite(r, g, b) <==> r + g + b > 735 && Max3(r, g, b) - Min3(r, g, b) < 15
    ensures HardWhite(r, g, b) ==> LightGrey(r, g, b)
  {
  }

  /**
   * One pixel's entry after the colour test: a near-white pixel becomes
   * fully transparent, a light grey one is capped by the fade (it loses at
   * most 85% of its opacity), any other keeps its entry.
   */
  function WhiteAlpha(alpha: real, r: int, g: int, b: int): (res: real)
    ensures HardWhite(r, g, b) ==> res == 0.0
    ensures !LightGrey(r, g, b) ==> res == alpha
    ensures res <= alpha || res == 0.0
    ensures Clamp01(res) <= Clamp01(alpha)
    ensures res >= Min(alpha, 0.15) || res == 0.0
  {
    if HardWhite(r, g, b) then 0.0
    else if LightGrey(r, g, b) then Min(alpha, FadeCap(r, g, b))
    else alpha
  }

  /** The colour-threshold pass over a whole mask, pixel `i` reading bytes `4i`, `4i+1`, `4i+2`. */
  function WhitePass(alpha: seq<real>, data: seq<byte>): (res: seq<real>)
    requires |data| == 4 * |alpha|
    ensures |res| == |alpha|
  {
    seq(|alpha|, i requires 0 <= i < |alpha| =>
      WhiteAlpha(alpha[i], data[4 * i] as int, data[4 * i + 1] as int, data[4 * i + 2] as int))
  }

  /** `Math.round(255 * Math.max(0, Math.min(1, alpha)))`: a byte, 0 for a non-positive entry and 255 for one of at least 1. */
  function AlphaByte(alpha: real): (v: int)
    ensures 0 <= v <= 255
    ensures alpha <= 0.0 ==> v == 0
    ensures alpha >= 1.0 ==> v == 255
  {
    JsRound(255.0 * Clamp01(alpha))
  }

  /** A lower entry never gives a more opaque byte. */
  lemma AlphaByteMonotone(x: real, y: real)
    requires Clamp01(x) <= Clamp01(y)
    ensures AlphaByte(x) <= AlphaByte(y)
  {
  }

  /** The final pass: byte `4i+3` of each pixel takes entry `i` of the mask, every other byte is kept. */
  function AlphaBytes(data: seq<byte>, alpha: seq<real>): (res: seq<byte>)
    requires |data| == 4 * |alpha|
    ensures |res| == |data|
    ensures forall j :: 0 <= j < |data| && j % 4 != 3 ==> res[j] == data[j]
    ensures forall p :: 0 <= p < |alpha| ==> res[4 * p + 3] as int == AlphaByte(alpha[p])
  {
    seq(|data|, j requires 0 <= j < |data| => if j % 4 == 3 then AlphaByte(alpha[j / 4]) as byte else data[j])
  }

  /** A mask of `n` entries, all 1. */
  function Opaque(n: nat): (alpha: seq<real>)
    ensures |alpha| == n
  {
    seq(n, _ => 1.0)
  }

  /** The alpha mask the three passes leave: opaque, lowered by the background segments, then by the colour test. */
  function AlphaMask(data: seq<byte>, segments: seq<Segment>): (alpha: seq<real>)
    requires |data| % 4 == 0
    ensures |alpha| == |data| / 4
  {
    WhitePass(SegmentationAlpha(Opaque(|data| / 4), segments), data)
  }

  /** Every entry of the mask starts at 1 and is only ever lowered, so none ends above 1. */
  lemma MaskNeverAboveOne(data: seq<byte>, segments: seq<Segment>)
    requires |data| % 4 == 0
    ensures forall i :: 0 <= i < |data| / 4 ==> AlphaMask(data, segments)[i] <= 1.0
  {
    var n := |data| / 4;
    var lowered := SegmentationAlpha(Opaque(n), segments);
    forall i | 0 <= i < n
      ensures AlphaMask(data, segments)[i] <= 1.0
    {
      SegmentNeverRaises(Opaque(n), segments, i);
      assert AlphaMask(data, segments)[i] == WhiteAlpha(lowered[i], data[4 * i] as int, data[4 * i + 1] as int, data[4 * i + 2] as int);
    }
  }

  /** The RGBA bytes the remover produces from the drawn bytes and the segmentation result. */
  function Composite(data: seq<byte>, segments: seq<Segment>): (res: seq<byte>)
    requires |data| % 4 == 0
    ensures |res| == |data|
  {
    AlphaBytes(data, AlphaMask(data, segments))
  }

  /** The remover keeps the colour bytes of every pixel; only byte `4p+3` can change. */
  lemma ColourKept(data: seq<byte>, segments: seq<Segment>, p: nat)
    requires |data| % 4 == 0 && p < |data| / 4
    ensures var res := Composite(data, segments);
      res[4 * p] == data[4 * p] && res[4 * p + 1] == data[4 * p + 1] && res[4 * p + 2] == data[4 * p + 2]
  {
    assert (4 * p) % 4 == 0 && (4 * p + 1) % 4 == 1 && (4 * p + 2) % 4 == 2;
  }

  /** A near-white pixel ends fully transparent, whatever the segments say. */
  lemma HardWhiteTransparent(data: seq<byte>, segments: seq<Segment>, p: nat)
    requires |data| % 4 == 0 && p < |data| / 4
    requires HardWhite(data[4 * p] as int, data[4 * p + 1] as int, data[4 * p + 2] as int)
    ensures Composite(data, segments)[4 * p + 3] == 0
  {
    var alpha := AlphaMask(data, segments);
    assert alpha[p] == 0.0;
  }

  /** Pixel `p`'s final byte is the byte of its entry after the segmentation pass and then the colour test. */
  lemma FinalByte(data: seq<byte>, segments: seq<Segment>, p: nat)
    requires |data| % 4 == 0 && p < |data| / 4
    ensures Composite(data, segments)[4 * p + 3] as int ==
      AlphaByte(WhiteAlpha(SegmentationAlpha(Opaque(|data| / 4), segments)[p],
                           data[4 * p] as int, data[4 * p + 1] as int, data[4 * p + 2] as int))
  {
    var n := |data| / 4;
    assert |data| == 4 * n;
    var lowered := SegmentationAlpha(Opaque(n), segments);
    var alpha := WhitePass(lowered, data);
    assert alpha == AlphaMask(data, segments);
    assert alpha[p] == WhiteAlpha(lowered[p], data[4 * p] as int, data[4 * p + 1] as int, data[4 * p + 2] as int);
    var res := AlphaBytes(data, alpha);
    assert res == Composite(data, segments);
    assert res[4 * p + 3] as int == AlphaByte(alpha[p]);
  }

  /** A background segment that covers a pixel caps its final opacity at `1 - mask[p]`. */
  lemma BackgroundCapsOpacity(data: seq<byte>, segments: seq<Segment>, p: nat, k: nat)
    requires |data| % 4 == 0 && p < |data| / 4
    requires k < |segments| && IsBackground(segments[k].name) && p < |segments[k].mask|
    ensures Composite(data, segments)[4 * p + 3] as int <= AlphaByte(1.0 - segments[k].mask[p])
  {
    var lowered := SegmentationAlpha(Opaque(|data| / 4), segments)[p];
    SegmentCap(Opaque(|data| / 4), segments, k, p);
    var white := WhiteAlpha(lowered, data[4 * p] as int, data[4 * p + 1] as int, data[4 * p + 2] as int);
    FinalByte(data, segments, p);
    AlphaByteMonotone(white, 1.0 - segments[k].mask[p]);
  }

  /** A pixel that no background segment covers and that is not light grey stays fully opaque. */
  lemma UncoveredStaysOpaque(data: seq<byte>, segments: seq<Segment>, p: nat)
    requires |data| % 4 == 0 && p < |data| / 4
    requires forall k :: 0 <= k < |segments| && IsBackground(segments[k].name) ==> |segments[k].mask| <= p
    requires !LightGrey(data[4 * p] as int, data[4 * p + 1] as int, data[4 * p + 2] as int)
    ensures Composite(data, segments)[4 * p + 3] == 255
  {
    SegmentUncovered(Opaque(|data| / 4), segments, p);
    FinalByte(data, segments, p);
  }

  /** The inner loop for one background segment: entry `i` drops to `1 - maskData[i]` where that is lower. */
  method LowerByMask(alpha: array<real>, maskData: seq<real>)
    modifies alpha
    ensures alpha[..] == Lower(old(alpha[..]), maskData)
  {
    ghost var before := alpha[..];
    for i := 0 to |maskData|
      invariant forall j :: 0 <= j < alpha.Length ==> alpha[j] == Lower(before, maskData[..i])[j]
    {
      if i < alpha.Length {
        alpha[i] := Min(alpha[i], 1.0 - maskData[i]);
      }
    }
    assert maskData[..|maskData|] == maskData;
  }

  /** The segmentation pass on the mask array, segment by segment. */
  method ApplySegmentation(alpha: array<real>, segments: seq<Segment>)
    modifies alpha
    ensures alpha[..] == SegmentationAlpha(old(alpha[..]), segments)
  {
    ghost var start := alpha[..];
    for k := 0 to |segments|
      invariant SegmentationAlpha(alpha[..], segments[k..]) == SegmentationAlpha(start, segments)
    {
      ghost var before := alpha[..];
      if IsBackground(segments[k].name) {
        LowerByMask(alpha, segments[k].mask);
      }
      assert alpha[..] == SegmentStep(before, segments[k]);
      assert segments[k..][1..] == segments[k + 1..];
    }
    assert segments[|segments|..] == [];
  }

  /** One pixel of the colour-threshold pass: a near-white pixel is cleared and skips the fade. */
  method WhiteTest(entry: real, r: int, g: int, b: int) returns (res: real)
    ensures res == WhiteAlpha(entry, r, g, b)
  {
    var maxc, minc := Max3(r, g, b), Min3(r, g, b);
    var avg := (r + g + b) as real / 3.0;
    var spread := maxc - minc;
    if avg > 245.0 && spread < 15 {
      return 0.0;
    }
    res := entry;
    if avg > 225.0 && spread < 20 {
      var t := Clamp01((avg - 225.0) / 30.0);
      res := Min(entry, 1.0 - 0.85 * t);
    }
  }

  /** The colour-threshold pass over every pixel, reading its red, green and blue bytes. */
  method ApplyWhiteThreshold(data: array<byte>, alpha: array<real>)
    requires data.Length == 4 * alpha.Length
    modifies alpha
    ensures alpha[..] == WhitePass(old(alpha[..]), data[..])
  {
    ghost var start := alpha[..];
    for i := 0 to alpha.Length
      invariant forall j :: 0 <= j < i ==> alpha[j] == WhitePass(start, data[..])[j]
      invariant forall j :: i <= j < alpha.Length ==> alpha[j] == start[j]
    {
      alpha[i] := WhiteTest(alpha[i], data[i * 4 + 0] as int, data[i * 4 + 1] as int, data[i * 4 + 2] as int);
    }
  }

  /** The final pass: only the alpha byte of each pixel is written. */
  method ApplyAlpha(data: array<byte>, alpha: array<real>)
    requires data.Length == 4 * alpha.Length
    modifies data
    ensures data[..] == AlphaBytes(old(data[..]), alpha[..])
  {
    ghost var start := data[..];
    for i := 0 to alpha.Length
      invariant forall j :: 0 <= j < data.Length ==>
        data[j] == if j % 4 == 3 && j / 4 < i then AlphaByte(alpha[j / 4]) as byte else start[j]
    {
      data[i * 4 + 3] := AlphaByte(alpha[i]) as byte;
    }
  }

  /**
   * The mask work of `removeBackground` on the drawn bytes of a canvas of
   * `width` by `height` pixels: an empty segmentation result is an error and
   * leaves the bytes alone; otherwise the mask starts fully opaque and the
   * three passes run in order.
   */
  method RemoveBackgroundAlpha(data: array<byte>, width: nat, height: nat, segments: seq<Segment>) returns (ok: bool)
    requires data.Length == 4 * (width * height)
    modifies data
    ensures ok <==> segments != []
    ensures ok ==> data[..] == Composite(old(data[..]), segments)
    ensures !ok ==> data[..] == old(data[..])
  {
    if segments == [] {
      return false;
    }
    var totalPixels := width * height;
    var alphaMask := new real[totalPixels](_ => 1.0);
    assert alphaMask[..] == Opaque(data.Length / 4);
    ApplySegmentation(alphaMask, segments);
    ApplyWhiteThreshold(data, alphaMask);
    ApplyAlpha(data, alphaMask);
    ok := true;
  }
}
