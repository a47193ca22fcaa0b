/** The colour rule of `thresholding.py`: on the hue, lightness and saturation channels of an
    image, a pixel is kept when it is white or yellow, and the kept pixels become a 0/1 mask. */
module Thresholding {

  /** Yellow: hue in [20, 40] and saturation at least 30, all bounds inclusive. */
  predicate IsYellow(hue: real, saturation: real)
  {
    20.0 <= hue <= 40.0 && saturation >= 30.0
  }

  /** White: lightness at least 200. */
  predicate IsWhite(lightness: real)
  {
    lightness >= 200.0
  }

  /** The pixel rule behind the returned mask. */
  predicate Selected(hue: real, lightness: real, saturation: real)
  {
    IsWhite(lightness) || IsYellow(hue, saturation)
  }

  /** Every white pixel is selected, whatever its hue and saturation; a pixel that is neither
      light enough nor in the yellow band is not. */
  lemma WhiteIsSelected(hue: real, lightness: real, saturation: real)
    ensures IsWhite(lightness) ==> Selected(hue, lightness, saturation)
    ensures lightness < 200.0 && (hue < 20.0 || hue > 40.0 || saturation < 30.0)
         ==> !Selected(hue, lightness, saturation)
  {
  }

  /** The value `boolean_to_binary` stores for one cell. */
  function Binary(b: bool): (v: real)
    ensures v == 1.0 || v == 0.0
    ensures v == 1.0 <==> b
  {
    if b then 1.0 else 0.0
  }

  /** `boolean_to_binary`: a zero array of the mask's shape with a 1 written at every true cell. */
  method BooleanToBinary(mask: array2<bool>) returns (binary: array2<real>)
    ensures fresh(binary)
    ensures binary.Length0 == mask.Length0 && binary.Length1 == mask.Length1
    ensures forall i, j :: 0 <= i < mask.Length0 && 0 <= j < mask.Length1 ==>
              binary[i, j] == Binary(mask[i, j])
  {
    binary := new real[mask.Length0, mask.Length1]((i, j) => 0.0);
    var i := 0;
    while i < mask.Length0
      invariant 0 <= i <= mask.Length0
      invariant forall r, c :: 0 <= r < mask.Length0 && 0 <= c < mask.Length1 ==>
                  binary[r, c] == if r < i then Binary(mask[r, c]) else 0.0
    {
      var j := 0;
      while j < mask.Length1
        invariant 0 <= j <= mask.Length1
        invariant forall r, c :: 0 <= r < mask.Length0 && 0 <= c < mask.Length1 ==>
                    binary[r, c] == if r < i || (r == i && c < j) then Binary(mask[r, c]) else 0.0
      {
        if mask[i, j] {
          binary[i, j] := 1.0;
        }
        j := j + 1;
      }
      i := i + 1;
    }
  }

  /** `threshold` once the HLS conversion is done: the white mask and the returned white-or-yellow
      mask, both as 0/1 arrays of the channels' shape. */
  method Threshold(hue: array2<real>, lightness: array2<real>, saturation: array2<real>)
    returns (whiteBinary: array2<real>, whiteOrYellowBinary: array2<real>)
    requires lightness.Length0 == hue.Length0 && lightness.Length1 == hue.Length1
    requires saturation.Length0 == hue.Length0 && saturation.Length1 == hue.Length1
    ensures fresh(whiteBinary) && fresh(whiteOrYellowBinary)
    ensures whiteBinary.Length0 == hue.Length0 && whiteBinary.Length1 == hue.Length1
    ensures whiteOrYellowBinary.Length0 == hue.Length0 && whiteOrYellowBinary.Length1 == hue.Length1
    ensures forall i, j :: 0 <= i < hue.Length0 && 0 <= j < hue.Length1 ==>
              whiteBinary[i, j] == Binary(IsWhite(lightness[i, j]))
              && whiteOrYellowBinary[i, j] == Binary(Selected(hue[i, j], lightness[i, j], saturation[i, j]))
    ensures forall i, j :: 0 <= i < hue.Length0 && 0 <= j < hue.Length1 ==>
              whiteBinary[i, j] == 1.0 ==> whiteOrYellowBinary[i, j] == 1.0
  {
    var m, n := hue.Length0, hue.Length1;
    var yellow := new bool[m, n]((i, j) reads hue, saturation
      requires 0 <= i < m && 0 <= j < n => IsYellow(hue[i, j], saturation[i, j]));
    var white := new bool[m, n]((i, j) reads lightness
      requires 0 <= i < m && 0 <= j < n => IsWhite(lightness[i, j]));
    var either := new bool[m, n]((i, j) reads white, yellow
      requires 0 <= i < m && 0 <= j < n => white[i, j] || yellow[i, j]);
    whiteBinary := BooleanToBinary(white);
    whiteOrYellowBinary := BooleanToBinary(either);
  }
}
