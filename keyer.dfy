/**
 * The background keyer (`remove_background`): every RGBA pixel whose colour
 * channels all pass the threshold of the chosen mode becomes fully
 * transparent; every other pixel is copied unchanged.
 */
module Keyer {

  type Channel = c: int | 0 <= c <= 255

  datatype Pixel = Pixel(r: Channel, g: Channel, b: Channel, a: Channel)

  const TransparentWhite := Pixel(255, 255, 255, 0)
  const TransparentBlack := Pixel(0, 0, 0, 0)

  /** In `white` mode: red, green and blue all strictly above 200. */
  predicate WhiteBackground(mode: string, p: Pixel)
  {
    mode == "white" && p.r > 200 && p.g > 200 && p.b > 200
  }

  /** In `black` mode: red, green and blue all strictly below 50. */
  predicate BlackBackground(mode: string, p: Pixel)
  {
    mode == "black" && p.r < 50 && p.g < 50 && p.b < 50
  }

  /** What the keyer turns one pixel into. */
  function KeyPixel(mode: string, p: Pixel): Pixel
  {
    if WhiteBackground(mode, p) then TransparentWhite
    else if BlackBackground(mode, p) then TransparentBlack
    else p
  }

  /** The keyed image, pixel by pixel. */
  function Keyed(mode: string, pixels: seq<Pixel>): (r: seq<Pixel>)
    ensures |r| == |pixels|
  {
    seq(|pixels|, i requires 0 <= i < |pixels| => KeyPixel(mode, pixels[i]))
  }

  /** The pixel loop of `remove_background`: builds `new_data` one pixel at a time. */
  method RemoveBackground(mode: string, datas: seq<Pixel>) returns (newData: seq<Pixel>)
    ensures |newData| == |datas|
    ensures forall i :: 0 <= i < |datas| && WhiteBackground(mode, datas[i]) ==> newData[i] == TransparentWhite
    ensures forall i :: 0 <= i < |datas| && BlackBackground(mode, datas[i]) ==> newData[i] == TransparentBlack
    ensures forall i :: 0 <= i < |datas| && !WhiteBackground(mode, datas[i]) && !BlackBackground(mode, datas[i]) ==>
              newData[i] == datas[i]
    ensures newData == Keyed(mode, datas)
  {
    newData := [];
    for k := 0 to |datas|
      invariant newData == Keyed(mode, datas[..k])
    {
      var item := datas[k];
      if mode == "white" && item.r > 200 && item.g > 200 && item.b > 200 {
        newData := newData + [TransparentWhite];
      } else if mode == "black" && item.r < 50 && item.g < 50 && item.b < 50 {
        newData := newData + [TransparentBlack];
      } else {
        newData := newData + [item];
      }
      assert datas[..k + 1] == datas[..k] + [item];
    }
    assert datas[..|datas|] == datas;
  }

  /** A mode other than `white` or `black` (such as `none`) leaves the image as it is. */
  lemma OtherModeIsIdentity(mode: string, pixels: seq<Pixel>)
    requires mode != "white" && mode != "black"
    ensures Keyed(mode, pixels) == pixels
  {
  }

  /** Keying an already keyed image changes nothing: the transparent colours are themselves background. */
  lemma KeyingIsIdempotent(mode: string, pixels: seq<Pixel>)
    ensures Keyed(mode, Keyed(mode, pixels)) == Keyed(mode, pixels)
  {
    var once := Keyed(mode, pixels);
    forall i | 0 <= i < |pixels|
      ensures KeyPixel(mode, once[i]) == once[i]
    {
      var p := pixels[i];
      if WhiteBackground(mode, p) {
        assert once[i] == TransparentWhite;
      } else if BlackBackground(mode, p) {
        assert once[i] == TransparentBlack;
      }
    }
  }
}
