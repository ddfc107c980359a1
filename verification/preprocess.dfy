/** The one-shot pass over the hat graphic's RGBA pixel buffer, run when the
    mask image finishes loading.

    A buffer that already carries some transparency is left alone. A fully
    opaque buffer is taken to have been drawn on a near-black backdrop: every
    pixel whose luminance 0.299 r + 0.587 g + 0.114 b is below 30 is made fully
    transparent. Luminance is compared exactly, scaled by 1000, so the test is
    299 r + 587 g + 114 b < 30000.

    The buffer is a flat sequence of bytes, four per pixel, in the order
    red, green, blue, alpha. */
module Preprocess {

  /** One channel of a clamped 8-bit RGBA buffer. */
  type Byte = x: int | 0 <= x < 256

  const Opaque: Byte := 255
  const Transparent: Byte := 0

  /** The luminance threshold 30, scaled by 1000 like the weights. */
  const DarkThreshold: int := 30000

  /** A pixel buffer holds a whole number of four-byte pixels. */
  predicate WellFormed(data: seq<Byte>) {
    |data| % 4 == 0
  }

  function PixelCount(data: seq<Byte>): nat {
    |data| / 4
  }

  function Red(data: seq<Byte>, p: int): Byte
    requires 0 <= p < PixelCount(data)
  {
    data[4 * p]
  }

  function Green(data: seq<Byte>, p: int): Byte
    requires 0 <= p < PixelCount(data)
  {
    data[4 * p + 1]
  }

  function Blue(data: seq<Byte>, p: int): Byte
    requires 0 <= p < PixelCount(data)
  {
    data[4 * p + 2]
  }

  function Alpha(data: seq<Byte>, p: int): Byte
    requires 0 <= p < PixelCount(data)
  {
    data[4 * p + 3]
  }

  /** 1000 times the luminance 0.299 r + 0.587 g + 0.114 b. */
  function Luminance(r: Byte, g: Byte, b: Byte): int {
    299 * r + 587 * g + 114 * b
  }

  predicate IsDark(data: seq<Byte>, p: int)
    requires 0 <= p < PixelCount(data)
  {
    Luminance(Red(data, p), Green(data, p), Blue(data, p)) < DarkThreshold
  }

  /** Some pixel is less than fully opaque. */
  predicate HasTransparency(data: seq<Byte>) {
    exists p :: 0 <= p < PixelCount(data) && Alpha(data, p) < Opaque
  }

  /** Byte j of an opaque buffer after the darkness pass: the alpha byte of a
      dark pixel becomes transparent, every other byte is kept. */
  function KeyedByte(data: seq<Byte>, j: int): Byte
    requires WellFormed(data)
    requires 0 <= j < |data|
  {
    if j % 4 == 3 && IsDark(data, j / 4) then Transparent else data[j]
  }

  /** Reading a buffer built byte by byte from `KeyedByte` pixel by pixel:
      colour channels are those of `data`, and alpha is cleared exactly on
      the dark pixels. */
  lemma KeyedBytesByPixel(data: seq<Byte>, r: seq<Byte>)
    requires WellFormed(data)
    requires |r| == |data|
    requires forall j :: 0 <= j < |data| ==> r[j] == KeyedByte(data, j)
    ensures forall p :: 0 <= p < PixelCount(data) ==>
      && Red(r, p) == Red(data, p)
      && Green(r, p) == Green(data, p)
      && Blue(r, p) == Blue(data, p)
      && Alpha(r, p) == (if IsDark(data, p) then Transparent else Alpha(data, p))
  {
    forall p | 0 <= p < PixelCount(data)
      ensures Red(r, p) == Red(data, p)
      ensures Green(r, p) == Green(data, p)
      ensures Blue(r, p) == Blue(data, p)
      ensures Alpha(r, p) == (if IsDark(data, p) then Transparent else Alpha(data, p))
    {
      assert (4 * p) % 4 == 0 && (4 * p + 1) % 4 == 1 && (4 * p + 2) % 4 == 2;
      assert (4 * p + 3) % 4 == 3 && (4 * p + 3) / 4 == p;
    }
  }

  /** The darkness loop over the whole buffer: every pixel keeps its colour,
      dark pixels become transparent and the others keep their alpha. */
  function Keyed(data: seq<Byte>): (r: seq<Byte>)
    requires WellFormed(data)
    ensures |r| == |data|
    ensures forall p :: 0 <= p < PixelCount(data) ==>
      && Red(r, p) == Red(data, p)
      && Green(r, p) == Green(data, p)
      && Blue(r, p) == Blue(data, p)
      && Alpha(r, p) == (if IsDark(data, p) then Transparent else Alpha(data, p))
  {
    var r := seq(|data|, j requires 0 <= j < |data| => KeyedByte(data, j));
    KeyedBytesByPixel(data, r);
    r
  }

  /** Reference definition of the whole pass. */
  function Processed(data: seq<Byte>): (r: seq<Byte>)
    requires WellFormed(data)
    ensures |r| == |data|
    ensures HasTransparency(data) ==> r == data
    ensures !HasTransparency(data) ==>
      forall p :: 0 <= p < PixelCount(data) ==>
        && Red(r, p) == Red(data, p)
        && Green(r, p) == Green(data, p)
        && Blue(r, p) == Blue(data, p)
        && Alpha(r, p) == (if IsDark(data, p) then Transparent else Opaque)
  {
    if HasTransparency(data) then data
    else Keyed(data)
  }

  /** An opaque buffer without a single dark pixel comes back unchanged. */
  lemma {:induction false} NoDarkPixelIsNoOp(data: seq<Byte>)
    requires WellFormed(data)
    requires forall p :: 0 <= p < PixelCount(data) ==> !IsDark(data, p)
    ensures Processed(data) == data
  {
    if !HasTransparency(data) {
      var r := Processed(data);
      forall j | 0 <= j < |data|
        ensures r[j] == data[j]
      {
        var p := j / 4;
        assert 4 * p + j % 4 == j;
        if j % 4 == 3 {
          assert Alpha(data, p) == Opaque;
        }
      }
    }
  }

  /** Applying the pass to its own output changes nothing: either the output
      now holds a transparent pixel, or no pixel was dark to begin with. */
  lemma {:induction false} ProcessedIsIdempotent(data: seq<Byte>)
    requires WellFormed(data)
    ensures Processed(Processed(data)) == Processed(data)
  {
    var r := Processed(data);
    if HasTransparency(data) {
    } else if exists p :: 0 <= p < PixelCount(data) && IsDark(data, p) {
      var p :| 0 <= p < PixelCount(data) && IsDark(data, p);
      assert Alpha(r, p) == Transparent;
      assert HasTransparency(r);
    } else {
      NoDarkPixelIsNoOp(data);
    }
  }

  /** The scan of the first loop: does any alpha byte fall short of 255? */
  method ScanTransparency(data: seq<Byte>) returns (hasAlpha: bool)
    requires WellFormed(data)
    ensures hasAlpha <==> HasTransparency(data)
  {
    hasAlpha := false;
    var i := 0;
    while i < |data|
      invariant 0 <= i <= |data| && i % 4 == 0
      invariant forall p :: 0 <= p < i / 4 ==> Alpha(data, p) == Opaque
    {
      if data[i + 3] < Opaque {
        assert Alpha(data, i / 4) < Opaque;
        hasAlpha := true;
        break;
      }
      i := i + 4;
    }
  }

  /** The whole pass as the mask loader runs it: scan for transparency, and
      only when there is none clear the alpha of every dark pixel in place.
      `reencoded` tells whether a new image is produced from the buffer (the
      processed copy that replaces the mask) or the original is kept. */
  method Preprocess(data: seq<Byte>) returns (out: seq<Byte>, reencoded: bool)
    requires WellFormed(data)
    ensures reencoded <==> !HasTransparency(data)
    ensures out == Processed(data)
  {
    var hasAlpha := ScanTransparency(data);
    out := data;
    reencoded := !hasAlpha;
    if hasAlpha {
      return;
    }
    var i := 0;
    while i < |data|
      invariant 0 <= i <= |data| && i % 4 == 0
      invariant |out| == |data|
      invariant forall j :: 0 <= j < i ==> out[j] == KeyedByte(data, j)
      invariant forall j :: i <= j < |data| ==> out[j] == data[j]
    {
      var r, g, b := out[i], out[i + 1], out[i + 2];
      assert r == Red(data, i / 4) && g == Green(data, i / 4) && b == Blue(data, i / 4);
      if Luminance(r, g, b) < DarkThreshold {
        out := out[i + 3 := Transparent];
      }
      i := i + 4;
    }
    assert out == Processed(data);
  }
}
