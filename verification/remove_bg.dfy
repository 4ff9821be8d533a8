/** Background removal for a logo image: every near-white pixel becomes
    fully transparent white, every other pixel is kept as it is.

    The image is the flat list of RGBA pixels that the image library hands
    out after converting the picture to RGBA; the transform walks that list
    once and builds a new list of the same length. */
module RemoveBg {

  /** One RGBA pixel. After the conversion to RGBA each channel lies in
      0..255 (see InRange); the type itself does not force it, so that
      preservation of the range is something the model proves. */
  datatype Pixel = Pixel(r: int, g: int, b: int, a: int)

  /** A colour channel must exceed this value for the pixel to count as background. */
  const Threshold: int := 230

  /** Fully transparent white, written for every background pixel. */
  const Transparent: Pixel := Pixel(255, 255, 255, 0)

  predicate ChannelInRange(c: int) {
    0 <= c <= 255
  }

  /** What the RGBA conversion guarantees of each pixel. */
  predicate InRange(p: Pixel) {
    ChannelInRange(p.r) && ChannelInRange(p.g) && ChannelInRange(p.b) && ChannelInRange(p.a)
  }

  /** The whole pixel list satisfies the RGBA guarantee. */
  predicate AllInRange(data: seq<Pixel>) {
    forall i :: 0 <= i < |data| ==> InRange(data[i])
  }

  /** Near-white test: red, green and blue are all strictly above the
      threshold; alpha is not looked at. */
  predicate IsBackground(p: Pixel) {
    p.r > Threshold && p.g > Threshold && p.b > Threshold
  }

  /** The rule applied to one pixel. */
  function ProcessPixel(p: Pixel): (q: Pixel)
    // the result is transparent white exactly when the input is background
    ensures q == Transparent <==> IsBackground(p)
    // any pixel that is not replaced is copied in all four channels
    ensures q != Transparent ==> q == p
    // the background classification is unchanged by the rule
    ensures IsBackground(q) <==> IsBackground(p)
    // either the pixel is made fully transparent or it keeps its alpha
    ensures q.a == 0 || q.a == p.a
  {
    if IsBackground(p) then Transparent else p
  }

  /** The list the loop builds, as a reference definition: one processed
      pixel per input pixel, in input order. */
  function ProcessedData(data: seq<Pixel>): (out: seq<Pixel>)
    ensures |out| == |data|
  {
    if data == [] then [] else [ProcessPixel(data[0])] + ProcessedData(data[1..])
  }

  /** Position i of the output is determined by position i of the input alone. */
  lemma {:induction false} ProcessedDataAt(data: seq<Pixel>, i: int)
    requires 0 <= i < |data|
    ensures ProcessedData(data)[i] == ProcessPixel(data[i])
  {
    if i > 0 {
      ProcessedDataAt(data[1..], i - 1);
    }
  }

  /** The loop over the pixel list, appending one output pixel per input pixel. */
  method RemoveBackground(data: seq<Pixel>) returns (newData: seq<Pixel>)
    ensures newData == ProcessedData(data)
  {
    newData := [];
    for i := 0 to |data|
      invariant |newData| == i
      invariant forall k :: 0 <= k < i ==> newData[k] == ProcessPixel(data[k])
    {
      var p := data[i];
      if p.r > Threshold && p.g > Threshold && p.b > Threshold {
        newData := newData + [Pixel(255, 255, 255, 0)];
      } else {
        newData := newData + [p];
      }
    }
    forall k | 0 <= k < |data|
      ensures newData[k] == ProcessedData(data)[k]
    {
      ProcessedDataAt(data, k);
    }
  }

  // ---------------------------------------------------------------------
  // Properties of the single-pixel rule

  /** A pixel with red, green and blue all above 230 comes out as (255,255,255,0). */
  lemma BackgroundBecomesTransparent(p: Pixel)
    requires p.r > 230 && p.g > 230 && p.b > 230
    ensures ProcessPixel(p) == Pixel(255, 255, 255, 0)
  {
  }

  /** A pixel with some colour channel at or below 230 comes out unchanged. */
  lemma ForegroundUnchanged(p: Pixel)
    requires p.r <= 230 || p.g <= 230 || p.b <= 230
    ensures ProcessPixel(p) == p
  {
  }

  /** The comparison is strict: a channel of exactly 230 is not background. */
  lemma ThresholdIsStrict(x: int, y: int, alpha: int)
    ensures ProcessPixel(Pixel(230, x, y, alpha)) == Pixel(230, x, y, alpha)
    ensures ProcessPixel(Pixel(x, 230, y, alpha)) == Pixel(x, 230, y, alpha)
    ensures ProcessPixel(Pixel(x, y, 230, alpha)) == Pixel(x, y, 230, alpha)
  {
  }

  /** Alpha plays no part in the decision: two pixels with the same colour
      are either both replaced or both kept. */
  lemma AlphaIgnored(p: Pixel, alpha: int)
    ensures IsBackground(p.(a := alpha)) <==> IsBackground(p)
    ensures ProcessPixel(p) == Transparent <==> ProcessPixel(p.(a := alpha)) == Transparent
  {
  }

  lemma ProcessPixelIdempotent(p: Pixel)
    ensures ProcessPixel(ProcessPixel(p)) == ProcessPixel(p)
  {
  }

  lemma ProcessPixelInRange(p: Pixel)
    requires InRange(p)
    ensures InRange(ProcessPixel(p))
  {
  }

  /** The two pixels given as examples of the behaviour. */
  lemma Examples()
    ensures ProcessPixel(Pixel(240, 245, 250, 255)) == Pixel(255, 255, 255, 0)
    ensures ProcessPixel(Pixel(10, 20, 30, 255)) == Pixel(10, 20, 30, 255)
  {
  }

  // ---------------------------------------------------------------------
  // Properties of the whole-list transform

  /** Order is preserved: processing a concatenation is the concatenation of
      the processed parts, so no pixel moves. */
  lemma {:induction false} ProcessedDataAppend(xs: seq<Pixel>, ys: seq<Pixel>)
    ensures ProcessedData(xs + ys) == ProcessedData(xs) + ProcessedData(ys)
  {
    if xs == [] {
      assert xs + ys == ys;
    } else {
      assert (xs + ys)[1..] == xs[1..] + ys;
      ProcessedDataAppend(xs[1..], ys);
    }
  }

  /** Running the transform on its own output changes nothing. */
  lemma {:induction false} ProcessedDataIdempotent(data: seq<Pixel>)
    ensures ProcessedData(ProcessedData(data)) == ProcessedData(data)
  {
    var once := ProcessedData(data);
    forall i | 0 <= i < |once|
      ensures ProcessedData(once)[i] == once[i]
    {
      ProcessedDataAt(data, i);
      ProcessedDataAt(once, i);
      ProcessPixelIdempotent(data[i]);
    }
  }

  /** Pixels produced by the RGBA conversion stay within 0..255 after the transform. */
  lemma {:induction false} ProcessedDataInRange(data: seq<Pixel>)
    requires AllInRange(data)
    ensures AllInRange(ProcessedData(data))
  {
    var out := ProcessedData(data);
    forall i | 0 <= i < |out|
      ensures InRange(out[i])
    {
      ProcessedDataAt(data, i);
      ProcessPixelInRange(data[i]);
    }
  }

  /** In the output list, a position holds transparent white exactly when the
      input pixel there is background, and every other position holds the
      input pixel unchanged. */
  lemma {:induction false} ProcessedDataReplacesOnlyBackground(data: seq<Pixel>, i: int)
    requires 0 <= i < |data|
    ensures ProcessedData(data)[i] == Transparent <==> IsBackground(data[i])
    ensures !IsBackground(data[i]) ==> ProcessedData(data)[i] == data[i]
  {
    ProcessedDataAt(data, i);
  }
}
