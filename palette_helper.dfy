/** The palette helper demo (samples/highcharts/css/palette-helper/demo.js):
    `rgbToHex` writes a colour as `#rrggbb`, `generate` fills a palette of named
    colours, and `findColors` walks the library's default options and keeps
    only the keys whose values are hex colours, mapped through `colorMap` to
    the palette. Reading the page's inputs, tweening colours and showing the
    result are parameters or left out. */
module PaletteHelper {
  import opened Wrappers

  newtype Byte = x: int | 0 <= x < 256

  /** The red, green and blue channels of `Color.parse(...).rgba`. */
  datatype Rgb = Rgb(r: Byte, g: Byte, b: Byte)

  // ---------------------------------------------------------------------------
  // Hexadecimal digits
  // ---------------------------------------------------------------------------

  predicate IsLowerHexDigit(c: char) {
    ('0' <= c <= '9') || ('a' <= c <= 'f')
  }

  /** The digit `Number.prototype.toString(16)` writes for `d`. */
  function HexDigit(d: int): (c: char)
    requires 0 <= d < 16
    ensures IsLowerHexDigit(c)
  {
    if d < 10 then ('0' as int + d) as char else ('a' as int + d - 10) as char
  }

  /** The value of a lowercase hexadecimal digit; inverse of `HexDigit`. */
  function DigitValue(c: char): (d: int)
    requires IsLowerHexDigit(c)
    ensures 0 <= d < 16 && HexDigit(d) == c
  {
    if c <= '9' then c as int - '0' as int else c as int - 'a' as int + 10
  }

  lemma DigitValueOfHexDigit(d: int)
    requires 0 <= d < 16
    ensures DigitValue(HexDigit(d)) == d
  {
  }

  /** `n.toString(16)` for a non-negative integer: lowercase digits, most
      significant first, without leading zeros. */
  function ToHexString(n: nat): (s: string)
    ensures |s| >= 1
  {
    if n < 16 then [HexDigit(n)] else ToHexString(n / 16) + [HexDigit(n % 16)]
  }

  /** The lowest `width` hexadecimal digits of `n`, most significant first. */
  function HexDigits(n: nat, width: nat): (s: string)
    ensures |s| == width
  {
    if width == 0 then [] else HexDigits(n / 16, width - 1) + [HexDigit(n % 16)]
  }

  /** Every character of a hexadecimal field is a lowercase hex digit. */
  lemma {:induction false} HexDigitsLower(n: nat, width: nat)
    ensures forall i :: 0 <= i < width ==> IsLowerHexDigit(HexDigits(n, width)[i])
  {
    if width > 0 {
      var front := HexDigits(n / 16, width - 1);
      HexDigitsLower(n / 16, width - 1);
      assert HexDigits(n, width) == front + [HexDigit(n % 16)];
      assert forall i :: 0 <= i < width - 1 ==> HexDigits(n, width)[i] == front[i];
    }
  }

  function Pow16(k: nat): (p: nat)
    ensures p >= 1
  {
    if k == 0 then 1 else 16 * Pow16(k - 1)
  }

  lemma DivMod16(q: nat, d: nat)
    requires d < 16
    ensures (16 * q + d) / 16 == q && (16 * q + d) % 16 == d
  {
  }

  /** Splitting off the lowest hexadecimal digit. */
  lemma LowDigit(n: nat)
    ensures n == 16 * (n / 16) + n % 16 && n % 16 < 16
  {
  }

  /** Below a leading `1` at position `width`, `toString(16)` shows exactly
      `width` zero-padded digits: this is what the `1 << 24` sentinel is for. */
  lemma {:induction false} SentinelDigits(n: nat, m: nat, width: nat)
    requires m < Pow16(width) && n == Pow16(width) + m
    ensures ToHexString(n) == "1" + HexDigits(m, width)
  {
    if width == 0 {
      assert m == 0 && n == 1;
      assert HexDigit(1) == '1';
    } else {
      var n' := Pow16(width - 1) + m / 16;
      LowDigit(m);
      assert n == 16 * n' + m % 16;
      DivMod16(n', m % 16);
      assert m / 16 < Pow16(width - 1);
      SentinelDigits(n', m / 16, width - 1);
      assert n >= 16;
      assert ToHexString(n) == ToHexString(n / 16) + [HexDigit(n % 16)];
    }
  }

  /** The digits of `hi * 16^width + lo` are those of `hi` followed by those
      of `lo`. */
  lemma {:induction false} HexDigitsConcat(n: nat, hi: nat, lo: nat, hiWidth: nat, width: nat, total: nat)
    requires lo < Pow16(width) && n == hi * Pow16(width) + lo && total == hiWidth + width
    ensures HexDigits(n, total) == HexDigits(hi, hiWidth) + HexDigits(lo, width)
  {
    if width == 0 {
      assert lo == 0 && n == hi;
    } else {
      var n' := hi * Pow16(width - 1) + lo / 16;
      LowDigit(lo);
      assert hi * Pow16(width) == 16 * (hi * Pow16(width - 1));
      assert n == 16 * n' + lo % 16;
      DivMod16(n', lo % 16);
      assert lo / 16 < Pow16(width - 1);
      HexDigitsConcat(n', hi, lo / 16, hiWidth, width - 1, total - 1);
    }
  }

  // ---------------------------------------------------------------------------
  // rgbToHex
  // ---------------------------------------------------------------------------

  function Pow2(k: nat): (p: nat)
    ensures p >= 1
  {
    if k == 0 then 1 else 2 * Pow2(k - 1)
  }

  /** `x << k` for a non-negative `x` whose result stays below 2^31. */
  function ShiftLeft(x: nat, k: nat): nat {
    x * Pow2(k)
  }

  /** `a | b` on non-negative integers, bit by bit from the lowest. */
  function BitOr(a: nat, b: nat): nat
    decreases a + b
  {
    if a == 0 then b
    else if b == 0 then a
    else 2 * BitOr(a / 2, b / 2) + (if a % 2 == 1 || b % 2 == 1 then 1 else 0)
  }

  /** When `lo` fits below bit `k`, `hi << k | lo` is `hi << k` plus `lo`. */
  lemma {:induction false} BitOrDisjoint(hi: nat, lo: nat, k: nat)
    requires lo < Pow2(k)
    ensures BitOr(hi * Pow2(k), lo) == hi * Pow2(k) + lo
  {
    var a := hi * Pow2(k);
    if k == 0 {
      assert lo == 0;
    } else if a != 0 && lo != 0 {
      assert a == 2 * (hi * Pow2(k - 1));
      assert a / 2 == hi * Pow2(k - 1) && a % 2 == 0;
      assert lo / 2 < Pow2(k - 1);
      BitOrDisjoint(hi, lo / 2, k - 1);
    }
  }

  lemma Pow2Values()
    ensures Pow2(8) == 0x100 && Pow2(16) == 0x1_0000 && Pow2(24) == 0x100_0000
  {
    assert Pow2(4) == 16;
    assert Pow2(8) == 16 * Pow2(4) by {
      assert Pow2(8) == 2 * 2 * 2 * 2 * Pow2(4);
    }
    assert Pow2(16) == 256 * Pow2(8) by {
      assert Pow2(16) == 2 * 2 * 2 * 2 * Pow2(12);
      assert Pow2(12) == 2 * 2 * 2 * 2 * Pow2(8);
    }
    assert Pow2(24) == 256 * Pow2(16) by {
      assert Pow2(24) == 2 * 2 * 2 * 2 * Pow2(20);
      assert Pow2(20) == 2 * 2 * 2 * 2 * Pow2(16);
    }
  }

  /** `1 << 24 | r << 16 | g << 8 | b`: the channels under a sentinel bit. */
  function Packed(c: Rgb): nat {
    BitOr(BitOr(BitOr(ShiftLeft(1, 24), ShiftLeft(c.r as nat, 16)), ShiftLeft(c.g as nat, 8)), c.b as nat)
  }

  /** Red goes to bits 16..23, below the sentinel bit. */
  lemma PackedRed(r: nat)
    requires r < 0x100
    ensures BitOr(ShiftLeft(1, 24), ShiftLeft(r, 16)) == 0x100_0000 + r * 0x1_0000
  {
    Pow2Values();
    assert r * Pow2(16) < Pow2(24);
    BitOrDisjoint(1, r * Pow2(16), 24);
  }

  /** Green goes to bits 8..15, below red. */
  lemma PackedGreen(x: nat, r: nat, g: nat)
    requires x == 0x100_0000 + r * 0x1_0000 && g < 0x100
    ensures BitOr(x, ShiftLeft(g, 8)) == x + g * 0x100
  {
    Pow2Values();
    var hi := 0x100 + r;
    assert x == hi * Pow2(16);
    assert g * Pow2(8) < Pow2(16);
    BitOrDisjoint(hi, g * Pow2(8), 16);
  }

  /** Blue goes to bits 0..7, below green. */
  lemma PackedBlue(y: nat, r: nat, g: nat, b: nat)
    requires y == 0x100_0000 + r * 0x1_0000 + g * 0x100 && b < 0x100
    ensures BitOr(y, b) == y + b
  {
    Pow2Values();
    var hi := 0x1_0000 + r * 0x100 + g;
    assert y == hi * Pow2(8);
    BitOrDisjoint(hi, b, 8);
  }

  /** The channels occupy disjoint bits under the sentinel bit 24, so the
      bitwise expression is their weighted sum. */
  lemma PackedValue(c: Rgb)
    ensures Packed(c) == 0x100_0000 + (c.r as nat) * 0x1_0000 + (c.g as nat) * 0x100 + c.b as nat
  {
    var r, g, b := c.r as nat, c.g as nat, c.b as nat;
    var x := BitOr(ShiftLeft(1, 24), ShiftLeft(r, 16));
    PackedRed(r);
    var y := BitOr(x, ShiftLeft(g, 8));
    PackedGreen(x, r, g);
    PackedBlue(y, r, g, b);
    assert Packed(c) == BitOr(y, b);
  }

  /** `rgbToHex`: `#`, then the hexadecimal digits of the packed value
      without the sentinel digit in front. */
  function RgbToHex(c: Rgb): string {
    "#" + ToHexString(Packed(c))[1..]
  }

  /** Two zero-padded lowercase digits for one channel. */
  function HexByte(x: Byte): (s: string)
    ensures |s| == 2
  {
    [HexDigit(x as int / 16), HexDigit(x as int % 16)]
  }

  lemma HexByteDigits(x: Byte)
    ensures HexDigits(x as nat, 2) == HexByte(x)
  {
    assert HexDigits(x as nat, 2) == HexDigits(x as nat / 16, 1) + [HexDigit(x as int % 16)];
    assert HexDigits(x as nat / 16, 1) == HexDigits(x as nat / 256, 0) + [HexDigit(x as int / 16 % 16)];
  }

  lemma Pow16Values()
    ensures Pow16(2) == 0x100 && Pow16(4) == 0x1_0000 && Pow16(6) == 0x100_0000
  {
    assert Pow16(2) == 16 * 16 * Pow16(0);
    assert Pow16(4) == 16 * 16 * Pow16(2);
    assert Pow16(6) == 16 * 16 * Pow16(4);
  }

  /** The three channels weighted by 16^4, 16^2 and 1. */
  function ChannelSum(c: Rgb): (n: nat)
    ensures n < 0x100_0000
  {
    (c.r as nat) * 0x1_0000 + (c.g as nat) * 0x100 + c.b as nat
  }

  lemma SeqAssoc(a: string, b: string, c: string)
    ensures a + (b + c) == a + b + c
  {
  }

  /** Green and blue together, as the low four digits. */
  lemma LowChannelsDigits(g: Byte, b: Byte)
    ensures HexDigits((g as nat) * 0x100 + b as nat, 4) == HexByte(g) + HexByte(b)
  {
    Pow16Values();
    HexDigitsConcat((g as nat) * 0x100 + b as nat, g as nat, b as nat, 2, 2, 4);
    HexByteDigits(g);
    HexByteDigits(b);
  }

  /** Red above the four digits of green and blue. */
  lemma ChannelSumSplit(c: Rgb)
    ensures (c.g as nat) * 0x100 + c.b as nat < Pow16(4)
    ensures ChannelSum(c) == (c.r as nat) * Pow16(4) + ((c.g as nat) * 0x100 + c.b as nat)
  {
    Pow16Values();
  }

  lemma ChannelSumDigits(c: Rgb)
    ensures HexDigits(ChannelSum(c), 6) == HexByte(c.r) + HexByte(c.g) + HexByte(c.b)
  {
    var gb := (c.g as nat) * 0x100 + c.b as nat;
    var red, green, blue := HexByte(c.r), HexByte(c.g), HexByte(c.b);
    var n := ChannelSum(c);
    ChannelSumSplit(c);
    HexDigitsConcat(n, c.r as nat, gb, 2, 4, 6);
    assert HexDigits(n, 6) == HexDigits(c.r as nat, 2) + HexDigits(gb, 4);
    HexByteDigits(c.r);
    LowChannelsDigits(c.g, c.b);
    assert HexDigits(n, 6) == red + (green + blue);
    SeqAssoc(red, green, blue);
  }

  /** `rgbToHex` writes `#` and two zero-padded lowercase digits for each of
      red, green and blue, in that order. */
  lemma RgbToHexDigits(c: Rgb)
    ensures RgbToHex(c) == "#" + HexByte(c.r) + HexByte(c.g) + HexByte(c.b)
  {
    var digits := HexDigits(ChannelSum(c), 6);
    var red, green, blue := HexByte(c.r), HexByte(c.g), HexByte(c.b);
    PackedValue(c);
    Pow16Values();
    SentinelDigits(Packed(c), ChannelSum(c), 6);
    assert ("1" + digits)[1..] == digits;
    ChannelSumDigits(c);
    assert RgbToHex(c) == "#" + (red + green + blue);
    SeqAssoc("#", red + green, blue);
    SeqAssoc("#", red, green);
  }

  /** Exactly `#` and six lowercase hexadecimal digits. */
  predicate IsHexColor(s: string) {
    |s| == 7 && s[0] == '#' && forall i :: 1 <= i < 7 ==> IsLowerHexDigit(s[i])
  }

  /** The output of `rgbToHex` is always a `#rrggbb` string. */
  lemma RgbToHexIsHexColor(c: Rgb)
    ensures IsHexColor(RgbToHex(c))
  {
    RgbToHexDigits(c);
  }

  // ---------------------------------------------------------------------------
  // The inverse: reading `#rrggbb` back
  // ---------------------------------------------------------------------------

  function PairValue(hi: char, lo: char): (x: Byte)
    requires IsLowerHexDigit(hi) && IsLowerHexDigit(lo)
  {
    (16 * DigitValue(hi) + DigitValue(lo)) as Byte
  }

  /** Reads a `#rrggbb` string; anything else gives `None`. */
  function ParseHexColor(s: string): (c: Option<Rgb>)
    ensures c.Some? <==> IsHexColor(s)
  {
    if IsHexColor(s) then Some(Rgb(PairValue(s[1], s[2]), PairValue(s[3], s[4]), PairValue(s[5], s[6])))
    else None
  }

  lemma PairOfHexByte(x: Byte)
    ensures PairValue(HexByte(x)[0], HexByte(x)[1]) == x
  {
    DigitValueOfHexDigit(x as int / 16);
    DigitValueOfHexDigit(x as int % 16);
  }

  /** Reading the six digits of `rgbToHex` in pairs gives back the colour. */
  lemma ParseRgbToHex(c: Rgb)
    ensures ParseHexColor(RgbToHex(c)) == Some(c)
  {
    RgbToHexDigits(c);
    RgbToHexIsHexColor(c);
    PairOfHexByte(c.r);
    PairOfHexByte(c.g);
    PairOfHexByte(c.b);
  }

  /** And every `#rrggbb` string is what `rgbToHex` writes for the colour it
      reads as: the encoding is onto the hex colours. */
  lemma RgbToHexParse(s: string)
    requires IsHexColor(s)
    ensures ParseHexColor(s).Some? && RgbToHex(ParseHexColor(s).value) == s
  {
    var c := ParseHexColor(s).value;
    RgbToHexDigits(c);
    HexPair(s[1], s[2]);
    HexPair(s[3], s[4]);
    HexPair(s[5], s[6]);
    SevenChars(s);
  }

  lemma SevenChars(s: string)
    requires |s| == 7 && s[0] == '#'
    ensures s == "#" + [s[1], s[2]] + [s[3], s[4]] + [s[5], s[6]]
  {
  }

  lemma HexPair(hi: char, lo: char)
    requires IsLowerHexDigit(hi) && IsLowerHexDigit(lo)
    ensures HexByte(PairValue(hi, lo)) == [hi, lo]
  {
    var x := 16 * DigitValue(hi) + DigitValue(lo);
    DivMod16(DigitValue(hi), DigitValue(lo));
  }

  // ---------------------------------------------------------------------------
  // generate: the palette names
  // ---------------------------------------------------------------------------

  function DecimalDigit(d: int): char
    requires 0 <= d < 10
  {
    ('0' as int + d) as char
  }

  /** A non-negative integer in a template literal: its decimal digits. */
  function Decimal(n: nat): (s: string)
    ensures |s| >= 1
    ensures n >= 10 ==> |s| >= 2
  {
    if n < 10 then [DecimalDigit(n)] else Decimal(n / 10) + [DecimalDigit(n % 10)]
  }

  /** Different numbers are written differently. */
  lemma {:induction false} DecimalInjective(a: nat, b: nat)
    requires Decimal(a) == Decimal(b)
    ensures a == b
  {
    if a >= 10 && b >= 10 {
      var da, db := Decimal(a / 10), Decimal(b / 10);
      assert Decimal(a) == da + [DecimalDigit(a % 10)];
      assert Decimal(b) == db + [DecimalDigit(b % 10)];
      assert |da| == |db|;
      assert da == Decimal(a)[..|da|] && db == Decimal(b)[..|db|];
      assert DecimalDigit(a % 10) == Decimal(a)[|da|];
      DecimalInjective(a / 10, b / 10);
    }
  }

  /** The weights of the neutral and the highlight shades `generate` names. */
  const NeutralWeights: seq<nat> := [100, 80, 60, 40, 20, 10, 5, 3]
  const HighlightWeights: seq<nat> := [100, 80, 60, 20, 10]

  /** `` `${prefix}${weight}` ``, the palette name of one shade. */
  function WeightKey(prefix: string, w: nat): string {
    prefix + Decimal(w)
  }

  lemma WeightKeyInjective(prefix: string, v: nat, w: nat)
    requires WeightKey(prefix, v) == WeightKey(prefix, w)
    ensures v == w
  {
    assert Decimal(v) == WeightKey(prefix, v)[|prefix|..];
    assert Decimal(w) == WeightKey(prefix, w)[|prefix|..];
    DecimalInjective(v, w);
  }

  /** The hex colour of each weight's shade. */
  function Shades(tween: nat -> Rgb): nat -> string {
    (w: nat) => RgbToHex(tween(w))
  }

  /** The palette after the `forEach` over `ws`: each weight's name holds
      that weight's shade, later assignments last. */
  function AssignWeights(p: map<string, string>, prefix: string, ws: seq<nat>, shade: nat -> string): map<string, string> {
    if ws == [] then p
    else
      var w := ws[|ws| - 1];
      AssignWeights(p, prefix, ws[..|ws| - 1], shade)[WeightKey(prefix, w) := shade(w)]
  }

  /** The palette `generate` builds from the three inputs; `neutral(w)` and
      `highlight(w)` are the colours `tweenTo` mixes for weight `w`. */
  function PaletteOf(backgroundColor: string, neutral: nat -> Rgb, highlight: nat -> Rgb): map<string, string> {
    var p := map["backgroundColor" := backgroundColor];
    AssignWeights(AssignWeights(p, "neutralColor", NeutralWeights, Shades(neutral)), "highlightColor", HighlightWeights, Shades(highlight))
  }

  /** The palette-filling part of `generate`: the background colour, then
      one entry per neutral weight, then one per highlight weight. */
  method Generate(backgroundColor: string, neutral: nat -> Rgb, highlight: nat -> Rgb)
    returns (palette: map<string, string>)
    ensures palette == PaletteOf(backgroundColor, neutral, highlight)
  {
    palette := map[];
    palette := palette["backgroundColor" := backgroundColor];
    ghost var palette0 := palette;
    var i := 0;
    while i < |NeutralWeights|
      invariant 0 <= i <= |NeutralWeights|
      invariant palette == AssignWeights(palette0, "neutralColor", NeutralWeights[..i], Shades(neutral))
    {
      var weight := NeutralWeights[i];
      var color := RgbToHex(neutral(weight));
      AssignWeightsSnoc(palette0, "neutralColor", NeutralWeights, i, Shades(neutral));
      palette := palette[WeightKey("neutralColor", weight) := color];
      i := i + 1;
    }
    assert NeutralWeights[..i] == NeutralWeights;
    palette0 := palette;
    i := 0;
    while i < |HighlightWeights|
      invariant 0 <= i <= |HighlightWeights|
      invariant palette == AssignWeights(palette0, "highlightColor", HighlightWeights[..i], Shades(highlight))
    {
      var weight := HighlightWeights[i];
      var color := RgbToHex(highlight(weight));
      AssignWeightsSnoc(palette0, "highlightColor", HighlightWeights, i, Shades(highlight));
      palette := palette[WeightKey("highlightColor", weight) := color];
      i := i + 1;
    }
    assert HighlightWeights[..i] == HighlightWeights;
  }

  /** One more turn of the loop assigns one more name. */
  lemma AssignWeightsSnoc(p: map<string, string>, prefix: string, ws: seq<nat>, i: nat, shade: nat -> string)
    requires i < |ws|
    ensures AssignWeights(p, prefix, ws[..i + 1], shade) ==
      AssignWeights(p, prefix, ws[..i], shade)[WeightKey(prefix, ws[i]) := shade(ws[i])]
  {
    assert ws[..i + 1][..i] == ws[..i];
  }

  /** A name is in the palette after the loop exactly when it was before or
      it is the name of one of the weights. */
  lemma {:induction false} AssignWeightsKeys(p: map<string, string>, prefix: string, ws: seq<nat>, shade: nat -> string, k: string)
    ensures k in AssignWeights(p, prefix, ws, shade) <==>
      k in p || exists j :: 0 <= j < |ws| && k == WeightKey(prefix, ws[j])
  {
    if ws != [] {
      var front := ws[..|ws| - 1];
      AssignWeightsKeys(p, prefix, front, shade, k);
      assert forall j :: 0 <= j < |front| ==> front[j] == ws[j];
      if k == WeightKey(prefix, ws[|ws| - 1]) {
        assert 0 <= |ws| - 1 < |ws|;
      }
    }
  }

  /** The name of a weight holds that weight's colour, when no later weight
      of the loop has the same name. */
  lemma {:induction false} AssignWeightsAt(p: map<string, string>, prefix: string, ws: seq<nat>, shade: nat -> string, j: nat)
    requires j < |ws|
    requires forall i :: j < i < |ws| ==> ws[i] != ws[j]
    ensures WeightKey(prefix, ws[j]) in AssignWeights(p, prefix, ws, shade)
    ensures AssignWeights(p, prefix, ws, shade)[WeightKey(prefix, ws[j])] == shade(ws[j])
  {
    var last := |ws| - 1;
    var front := ws[..last];
    var before := AssignWeights(p, prefix, front, shade);
    var lastKey := WeightKey(prefix, ws[last]);
    assert AssignWeights(p, prefix, ws, shade) == before[lastKey := shade(ws[last])];
    if j < last {
      assert front[j] == ws[j];
      assert forall i :: j < i < |front| ==> front[i] != front[j] by {
        forall i | j < i < |front| ensures front[i] != front[j] {
          assert front[i] == ws[i];
        }
      }
      AssignWeightsAt(p, prefix, front, shade, j);
      if lastKey == WeightKey(prefix, ws[j]) {
        WeightKeyInjective(prefix, ws[last], ws[j]);
        assert false;
      }
    }
  }

  /** A name that is no weight's name keeps the value it had. */
  lemma {:induction false} AssignWeightsElsewhere(p: map<string, string>, prefix: string, ws: seq<nat>, shade: nat -> string, k: string)
    requires k in p
    requires forall j :: 0 <= j < |ws| ==> k != WeightKey(prefix, ws[j])
    ensures k in AssignWeights(p, prefix, ws, shade) && AssignWeights(p, prefix, ws, shade)[k] == p[k]
  {
    if ws != [] {
      var front := ws[..|ws| - 1];
      assert forall j :: 0 <= j < |front| ==> front[j] == ws[j];
      AssignWeightsElsewhere(p, prefix, front, shade, k);
    }
  }

  /** The names `generate` gives the shades, weight by weight. */
  const NeutralNames: seq<string> := ["neutralColor100", "neutralColor80", "neutralColor60", "neutralColor40",
    "neutralColor20", "neutralColor10", "neutralColor5", "neutralColor3"]
  const HighlightNames: seq<string> := ["highlightColor100", "highlightColor80", "highlightColor60",
    "highlightColor20", "highlightColor10"]

  lemma DecimalOfWeights()
    ensures Decimal(100) == "100" && Decimal(80) == "80" && Decimal(60) == "60" && Decimal(40) == "40"
    ensures Decimal(20) == "20" && Decimal(10) == "10" && Decimal(5) == "5" && Decimal(3) == "3"
  {
    assert Decimal(1) == "1" && Decimal(2) == "2" && Decimal(4) == "4";
    assert Decimal(6) == "6" && Decimal(8) == "8";
  }

  lemma NamesOfWeights()
    ensures |NeutralNames| == |NeutralWeights| && |HighlightNames| == |HighlightWeights|
    ensures forall j :: 0 <= j < |NeutralWeights| ==> WeightKey("neutralColor", NeutralWeights[j]) == NeutralNames[j]
    ensures forall j :: 0 <= j < |HighlightWeights| ==> WeightKey("highlightColor", HighlightWeights[j]) == HighlightNames[j]
  {
    DecimalOfWeights();
  }

  /** `colorMap`: the colours of the default options, each with the palette
      name that replaces it. */
  const ColorMap: map<string, string> := map[
    "#ffffff" := "backgroundColor",
    "#000000" := "neutralColor100",
    "#333333" := "neutralColor80",
    "#666666" := "neutralColor60",
    "#999999" := "neutralColor40",
    "#cccccc" := "neutralColor20",
    "#e6e6e6" := "neutralColor10",
    "#f2f2f2" := "neutralColor5",
    "#f7f7f7" := "neutralColor3",
    "#0022ff" := "highlightColor100",
    "#334eff" := "highlightColor80",
    "#667aff" := "highlightColor60",
    "#ccd3ff" := "highlightColor20",
    "#e6e9ff" := "highlightColor10"
  ]

  /** The names `colorMap` refers to: the background and every shade. */
  ghost const PaletteNames: set<string> := {"backgroundColor"} + (set n | n in NeutralNames) + (set n | n in HighlightNames)

  lemma ColorMapNamesPalette()
    ensures forall hex :: hex in ColorMap ==> ColorMap[hex] in PaletteNames
  {
    assert NeutralNames[0] == "neutralColor100" && NeutralNames[1] == "neutralColor80";
    assert NeutralNames[2] == "neutralColor60" && NeutralNames[3] == "neutralColor40";
    assert NeutralNames[4] == "neutralColor20" && NeutralNames[5] == "neutralColor10";
    assert NeutralNames[6] == "neutralColor5" && NeutralNames[7] == "neutralColor3";
    assert HighlightNames[0] == "highlightColor100" && HighlightNames[1] == "highlightColor80";
    assert HighlightNames[2] == "highlightColor60" && HighlightNames[3] == "highlightColor20";
    assert HighlightNames[4] == "highlightColor10";
  }

  lemma NeutralNamesInColorMap()
    ensures forall j :: 0 <= j < |NeutralNames| ==> NeutralNames[j] in ColorMap.Values
  {
    assert ColorMap["#000000"] == NeutralNames[0] && ColorMap["#333333"] == NeutralNames[1];
    assert ColorMap["#666666"] == NeutralNames[2] && ColorMap["#999999"] == NeutralNames[3];
    assert ColorMap["#cccccc"] == NeutralNames[4] && ColorMap["#e6e6e6"] == NeutralNames[5];
    assert ColorMap["#f2f2f2"] == NeutralNames[6] && ColorMap["#f7f7f7"] == NeutralNames[7];
  }

  lemma HighlightNamesInColorMap()
    ensures forall j :: 0 <= j < |HighlightNames| ==> HighlightNames[j] in ColorMap.Values
  {
    assert ColorMap["#0022ff"] == HighlightNames[0] && ColorMap["#334eff"] == HighlightNames[1];
    assert ColorMap["#667aff"] == HighlightNames[2] && ColorMap["#ccd3ff"] == HighlightNames[3];
    assert ColorMap["#e6e9ff"] == HighlightNames[4];
  }

  lemma PaletteNamesInColorMap()
    ensures forall n :: n in PaletteNames ==> n in ColorMap.Values
  {
    assert ColorMap["#ffffff"] == "backgroundColor";
    NeutralNamesInColorMap();
    HighlightNamesInColorMap();
  }

  lemma ColorMapValues()
    ensures ColorMap.Values == PaletteNames
  {
    ColorMapNamesPalette();
    PaletteNamesInColorMap();
  }

  /** The weights' names, listed. */
  lemma NamedWeights(prefix: string, ws: seq<nat>, names: seq<string>, k: string)
    requires |names| == |ws|
    requires forall j :: 0 <= j < |ws| ==> WeightKey(prefix, ws[j]) == names[j]
    ensures (exists j :: 0 <= j < |ws| && k == WeightKey(prefix, ws[j])) <==> k in names
  {
    if k in names {
      var j :| 0 <= j < |names| && names[j] == k;
      assert k == WeightKey(prefix, ws[j]);
    }
  }

  /** One name is in the palette exactly when it is one of the names. */
  lemma PaletteKey(backgroundColor: string, neutral: nat -> Rgb, highlight: nat -> Rgb, k: string)
    ensures k in PaletteOf(backgroundColor, neutral, highlight) <==> k in PaletteNames
  {
    var p := map["backgroundColor" := backgroundColor];
    var mid := AssignWeights(p, "neutralColor", NeutralWeights, Shades(neutral));
    NamesOfWeights();
    AssignWeightsKeys(mid, "highlightColor", HighlightWeights, Shades(highlight), k);
    AssignWeightsKeys(p, "neutralColor", NeutralWeights, Shades(neutral), k);
    NamedWeights("highlightColor", HighlightWeights, HighlightNames, k);
    NamedWeights("neutralColor", NeutralWeights, NeutralNames, k);
  }

  /** The palette `generate` fills has exactly the names `colorMap` refers
      to: every default colour finds its entry and no entry goes unused. */
  lemma PaletteKeysAreColorMapValues(backgroundColor: string, neutral: nat -> Rgb, highlight: nat -> Rgb)
    ensures PaletteOf(backgroundColor, neutral, highlight).Keys == ColorMap.Values
  {
    ColorMapValues();
    forall k ensures k in PaletteOf(backgroundColor, neutral, highlight) <==> k in PaletteNames {
      PaletteKey(backgroundColor, neutral, highlight, k);
    }
  }

  /** Each list names every weight once. */
  lemma WeightsDistinct()
    ensures forall i, j :: 0 <= j < i < |NeutralWeights| ==> NeutralWeights[i] != NeutralWeights[j]
    ensures forall i, j :: 0 <= j < i < |HighlightWeights| ==> HighlightWeights[i] != HighlightWeights[j]
  {
  }

  /** A neutral name is no highlight name and not the background's. */
  lemma PrefixesApart(v: nat, w: nat)
    ensures WeightKey("neutralColor", v) != WeightKey("highlightColor", w)
    ensures WeightKey("neutralColor", v) != "backgroundColor"
    ensures WeightKey("highlightColor", w) != "backgroundColor"
  {
    assert WeightKey("neutralColor", v)[0] == 'n';
    assert WeightKey("highlightColor", w)[0] == 'h';
  }

  lemma PaletteBackground(backgroundColor: string, neutral: nat -> Rgb, highlight: nat -> Rgb)
    ensures "backgroundColor" in PaletteOf(backgroundColor, neutral, highlight)
    ensures PaletteOf(backgroundColor, neutral, highlight)["backgroundColor"] == backgroundColor
  {
    var p := map["backgroundColor" := backgroundColor];
    var mid := AssignWeights(p, "neutralColor", NeutralWeights, Shades(neutral));
    forall j | 0 <= j < |NeutralWeights| ensures "backgroundColor" != WeightKey("neutralColor", NeutralWeights[j]) {
      PrefixesApart(NeutralWeights[j], 0);
    }
    forall j | 0 <= j < |HighlightWeights| ensures "backgroundColor" != WeightKey("highlightColor", HighlightWeights[j]) {
      PrefixesApart(0, HighlightWeights[j]);
    }
    AssignWeightsElsewhere(p, "neutralColor", NeutralWeights, Shades(neutral), "backgroundColor");
    AssignWeightsElsewhere(mid, "highlightColor", HighlightWeights, Shades(highlight), "backgroundColor");
  }

  lemma PaletteNeutralShade(backgroundColor: string, neutral: nat -> Rgb, highlight: nat -> Rgb, j: nat)
    requires j < |NeutralWeights|
    ensures NeutralNames[j] in PaletteOf(backgroundColor, neutral, highlight)
    ensures PaletteOf(backgroundColor, neutral, highlight)[NeutralNames[j]] == RgbToHex(neutral(NeutralWeights[j]))
  {
    var p := map["backgroundColor" := backgroundColor];
    var mid := AssignWeights(p, "neutralColor", NeutralWeights, Shades(neutral));
    NamesOfWeights();
    WeightsDistinct();
    AssignWeightsAt(p, "neutralColor", NeutralWeights, Shades(neutral), j);
    forall i | 0 <= i < |HighlightWeights|
      ensures WeightKey("neutralColor", NeutralWeights[j]) != WeightKey("highlightColor", HighlightWeights[i])
    {
      PrefixesApart(NeutralWeights[j], HighlightWeights[i]);
    }
    AssignWeightsElsewhere(mid, "highlightColor", HighlightWeights, Shades(highlight), WeightKey("neutralColor", NeutralWeights[j]));
  }

  lemma PaletteHighlightShade(backgroundColor: string, neutral: nat -> Rgb, highlight: nat -> Rgb, j: nat)
    requires j < |HighlightWeights|
    ensures HighlightNames[j] in PaletteOf(backgroundColor, neutral, highlight)
    ensures PaletteOf(backgroundColor, neutral, highlight)[HighlightNames[j]] == RgbToHex(highlight(HighlightWeights[j]))
  {
    var p := map["backgroundColor" := backgroundColor];
    var mid := AssignWeights(p, "neutralColor", NeutralWeights, Shades(neutral));
    NamesOfWeights();
    WeightsDistinct();
    AssignWeightsAt(mid, "highlightColor", HighlightWeights, Shades(highlight), j);
  }

  /** What each name of the palette holds: the input background colour,
      and for every weight the hex form of that weight's shade. */
  lemma PaletteShades(backgroundColor: string, neutral: nat -> Rgb, highlight: nat -> Rgb)
    ensures "backgroundColor" in PaletteOf(backgroundColor, neutral, highlight)
    ensures PaletteOf(backgroundColor, neutral, highlight)["backgroundColor"] == backgroundColor
    ensures forall j :: 0 <= j < |NeutralWeights| ==>
      NeutralNames[j] in PaletteOf(backgroundColor, neutral, highlight) &&
      PaletteOf(backgroundColor, neutral, highlight)[NeutralNames[j]] == RgbToHex(neutral(NeutralWeights[j]))
    ensures forall j :: 0 <= j < |HighlightWeights| ==>
      HighlightNames[j] in PaletteOf(backgroundColor, neutral, highlight) &&
      PaletteOf(backgroundColor, neutral, highlight)[HighlightNames[j]] == RgbToHex(highlight(HighlightWeights[j]))
  {
    PaletteBackground(backgroundColor, neutral, highlight);
    forall j | 0 <= j < |NeutralWeights|
      ensures NeutralNames[j] in PaletteOf(backgroundColor, neutral, highlight)
      ensures PaletteOf(backgroundColor, neutral, highlight)[NeutralNames[j]] == RgbToHex(neutral(NeutralWeights[j]))
    {
      PaletteNeutralShade(backgroundColor, neutral, highlight, j);
    }
    forall j | 0 <= j < |HighlightWeights|
      ensures HighlightNames[j] in PaletteOf(backgroundColor, neutral, highlight)
      ensures PaletteOf(backgroundColor, neutral, highlight)[HighlightNames[j]] == RgbToHex(highlight(HighlightWeights[j]))
    {
      PaletteHighlightShade(backgroundColor, neutral, highlight, j);
    }
  }

  /** Every shade `generate` writes is a `#rrggbb` colour. */
  lemma ShadesAreHexColors(backgroundColor: string, neutral: nat -> Rgb, highlight: nat -> Rgb)
    ensures forall j :: 0 <= j < |NeutralNames| ==>
      NeutralNames[j] in PaletteOf(backgroundColor, neutral, highlight) &&
      IsHexColor(PaletteOf(backgroundColor, neutral, highlight)[NeutralNames[j]])
    ensures forall j :: 0 <= j < |HighlightNames| ==>
      HighlightNames[j] in PaletteOf(backgroundColor, neutral, highlight) &&
      IsHexColor(PaletteOf(backgroundColor, neutral, highlight)[HighlightNames[j]])
  {
    PaletteShades(backgroundColor, neutral, highlight);
    forall j | 0 <= j < |NeutralWeights| ensures IsHexColor(RgbToHex(neutral(NeutralWeights[j]))) {
      RgbToHexIsHexColor(neutral(NeutralWeights[j]));
    }
    forall j | 0 <= j < |HighlightWeights| ensures IsHexColor(RgbToHex(highlight(HighlightWeights[j]))) {
      RgbToHexIsHexColor(highlight(HighlightWeights[j]));
    }
  }

  // ---------------------------------------------------------------------------
  // findColors: the theme of the default options
  // ---------------------------------------------------------------------------

  /** A JavaScript value as the default options hold it; an object is its
      own enumerable entries in `Object.entries` order. */
  datatype Json =
    | JNull
    | JBool(b: bool)
    | JNumber(n: real)
    | JString(s: string)
    | JFunction
    | JArray(items: seq<Json>)
    | JObject(entries: seq<Entry>)

  datatype Entry = Entry(key: string, value: Json)

  /** A value of the theme: a palette colour (undefined when the palette
      has none for it) or a nested theme. */
  datatype ThemeValue = Color(color: Option<string>) | Nested(theme: seq<ThemeEntry>)

  datatype ThemeEntry = ThemeEntry(key: string, value: ThemeValue)

  /** What `findColors` returns: `undefined`, a non-empty theme, or the
      `TypeError` that `Object.entries(null)` throws. */
  datatype FindResult = Undefined | Theme(entries: seq<ThemeEntry>) | Threw

  /** `#` followed by six lowercase hex digits, starting at `i`. */
  predicate HexColorAt(s: string, i: nat) {
    i + 7 <= |s| && s[i] == '#' && forall j :: i + 1 <= j < i + 7 ==> IsLowerHexDigit(s[j])
  }

  /** `/#[0-9a-f]{6}/.test(s)`: the pattern occurs anywhere in `s`. */
  predicate ContainsHexColor(s: string) {
    exists i: nat | i + 7 <= |s| :: HexColorAt(s, i)
  }

  /** A whole `#rrggbb` string passes the test, and so does any string with
      one inside it; a string shorter than seven characters never does. */
  lemma ContainsHexColorCases(s: string, prefix: string, suffix: string)
    ensures IsHexColor(s) ==> ContainsHexColor(prefix + s + suffix)
    ensures |s| < 7 ==> !ContainsHexColor(s)
  {
    if IsHexColor(s) {
      var t := prefix + s + suffix;
      assert forall j :: 0 <= j < 7 ==> t[|prefix| + j] == s[j];
      assert HexColorAt(t, |prefix|);
    }
  }

  /** `palette[colorMap[value]]`: a colour missing from `colorMap` looks up
      the palette under the name `"undefined"`. */
  function LookupColor(palette: map<string, string>, s: string): (c: Option<string>)
    ensures c.Some? ==> c.value in palette.Values
    ensures s in ColorMap && ColorMap[s] in palette ==> c == Some(palette[ColorMap[s]])
    ensures s !in ColorMap ==> (c.Some? <==> "undefined" in palette)
  {
    var paletteKey := if s in ColorMap then ColorMap[s] else "undefined";
    if paletteKey in palette then Some(palette[paletteKey]) else None
  }

  /** The keys of a theme, in order. */
  function Keys(t: seq<ThemeEntry>): (ks: seq<string>)
    ensures |ks| == |t| && forall i :: 0 <= i < |t| ==> ks[i] == t[i].key
  {
    if t == [] then [] else [t[0].key] + Keys(t[1..])
  }

  lemma KeysAppend(t: seq<ThemeEntry>, e: ThemeEntry)
    ensures Keys(t + [e]) == Keys(t) + [e.key]
  {
    assert |Keys(t + [e])| == |Keys(t) + [e.key]|;
  }

  /** `theme[k]`: the value under the first entry named `k`. */
  function Lookup(t: seq<ThemeEntry>, k: string): (v: Option<ThemeValue>)
    ensures v.None? <==> k !in Keys(t)
  {
    if t == [] then None
    else if t[0].key == k then Some(t[0].value)
    else Lookup(t[1..], k)
  }

  predicate KeysUnique(t: seq<ThemeEntry>) {
    forall i, j :: 0 <= i < j < |t| ==> t[i].key != t[j].key
  }

  /** `theme[k] = v`: an existing key keeps its place, a new key goes last. */
  function Assign(t: seq<ThemeEntry>, k: string, v: ThemeValue): seq<ThemeEntry> {
    if t == [] then [ThemeEntry(k, v)]
    else if t[0].key == k then [ThemeEntry(k, v)] + t[1..]
    else [t[0]] + Assign(t[1..], k, v)
  }

  /** After the assignment `k` reads `v` and every other key reads as before. */
  lemma {:induction false} AssignLookup(t: seq<ThemeEntry>, k: string, v: ThemeValue, k': string)
    ensures Lookup(Assign(t, k, v), k') == if k' == k then Some(v) else Lookup(t, k')
  {
    if t != [] && t[0].key != k {
      AssignLookup(t[1..], k, v, k');
      assert Assign(t, k, v)[1..] == Assign(t[1..], k, v);
    }
  }

  /** A new key is appended last. */
  lemma {:induction false} AssignAppends(t: seq<ThemeEntry>, k: string, v: ThemeValue)
    requires k !in Keys(t)
    ensures Assign(t, k, v) == t + [ThemeEntry(k, v)]
  {
    if t != [] {
      assert Keys(t) == [t[0].key] + Keys(t[1..]);
      AssignAppends(t[1..], k, v);
      assert t + [ThemeEntry(k, v)] == [t[0]] + (t[1..] + [ThemeEntry(k, v)]);
    }
  }

  /** An existing key is replaced where it stands. */
  lemma {:induction false} AssignReplaces(t: seq<ThemeEntry>, k: string, v: ThemeValue)
    requires k in Keys(t)
    ensures Keys(Assign(t, k, v)) == Keys(t)
  {
    if t[0].key != k {
      assert Keys(t) == [t[0].key] + Keys(t[1..]);
      AssignReplaces(t[1..], k, v);
      assert Keys(Assign(t, k, v)) == [t[0].key] + Keys(Assign(t[1..], k, v));
    }
  }

  /** Assigning never makes a key appear twice. */
  lemma AssignKeepsKeysUnique(t: seq<ThemeEntry>, k: string, v: ThemeValue)
    requires KeysUnique(t)
    ensures KeysUnique(Assign(t, k, v))
  {
    var r := Assign(t, k, v);
    if k in Keys(t) {
      AssignReplaces(t, k, v);
      assert forall i :: 0 <= i < |r| ==> r[i].key == Keys(t)[i];
    } else {
      AssignAppends(t, k, v);
      forall i, j | 0 <= i < j < |r| ensures r[i].key != r[j].key {
        if j == |t| {
          assert t[i].key in Keys(t);
        }
      }
    }
  }

  /** What `findColors(obj)` returns. `typeof null` is `'object'`, so a null
      reaches `Object.entries` and throws; any other non-object, and an
      array, gives `undefined`; an object gives its theme unless that is
      empty. */
  function Colors(obj: Json, palette: map<string, string>): FindResult
    decreases obj, 2
  {
    match obj
    case JNull => Threw
    case JObject(es) =>
      var t := Build(es, Records(es, |es|, palette), |es|);
      if |t| > 0 then Theme(t) else Undefined
    case _ => Undefined
  }

  /** What each of the first `n` entries records, in entry order. */
  function Records(es: seq<Entry>, n: nat, palette: map<string, string>): (recs: seq<Option<ThemeValue>>)
    requires n <= |es|
    ensures |recs| == n
    decreases JObject(es), 1, n
  {
    if n == 0 then []
    else
      assert es[n - 1] in es;
      Records(es, n - 1, palette) + [Record(es[n - 1].value, palette)]
  }

  /** What one entry's value puts into the theme, if anything: a truthy
      object (arrays included) puts the theme found in it, when there is
      one; a string that passes the hex test puts its palette colour;
      every other value puts nothing. */
  function Record(value: Json, palette: map<string, string>): Option<ThemeValue>
    decreases value, 3
  {
    match value
    case JObject(_) | JArray(_) =>
      (match Colors(value, palette)
       case Theme(children) => Some(Nested(children))
       case _ => None)
    case JString(s) =>
      if ContainsHexColor(s) then Some(Color(LookupColor(palette, s))) else None
    case _ => None
  }

  /** The theme after the loop has run over the first `n` entries, entry
      `i` recording `recs[i]`: every record is assigned under its key, in
      entry order. */
  function Build(es: seq<Entry>, recs: seq<Option<ThemeValue>>, n: nat): seq<ThemeEntry>
    requires n <= |es| && n <= |recs|
  {
    if n == 0 then []
    else
      var t := Build(es, recs, n - 1);
      match recs[n - 1]
      case Some(v) => Assign(t, es[n - 1].key, v)
      case None => t
  }

  /** Entry `i` records what its own value records. */
  lemma {:induction false} RecordsAt(es: seq<Entry>, n: nat, palette: map<string, string>, i: nat)
    requires i < n <= |es|
    ensures Records(es, n, palette)[i] == Record(es[i].value, palette)
  {
    if i < n - 1 {
      RecordsAt(es, n - 1, palette, i);
    }
  }

  /** `findColors`, with the palette `generate` filled passed in: it walks
      the entries of an object, descends into object values and replaces
      each hex colour by its palette colour. */
  method FindColors(obj: Json, palette: map<string, string>) returns (r: FindResult)
    ensures r == Colors(obj, palette)
    decreases obj
  {
    if obj.JNull? {
      return Threw;
    }
    var theme: seq<ThemeEntry> := [];
    if obj.JObject? {
      var es := obj.entries;
      ghost var recs := Records(es, |es|, palette);
      var i := 0;
      while i < |es|
        invariant 0 <= i <= |es|
        invariant theme == Build(es, recs, i)
      {
        var key, value := es[i].key, es[i].value;
        assert es[i] in es;
        RecordsAt(es, |es|, palette, i);
        if value.JObject? || value.JArray? {
          var children := FindColors(value, palette);
          if children.Theme? {
            theme := Assign(theme, key, Nested(children.entries));
          }
        } else if value.JString? && ContainsHexColor(value.s) {
          var color := LookupColor(palette, value.s);
          theme := Assign(theme, key, Color(color));
        }
        i := i + 1;
      }
    }
    r := if |theme| > 0 then Theme(theme) else Undefined;
  }

  /** Every entry of a theme after an assignment was there before or is
      the assigned one. */
  lemma {:induction false} AssignEntries(t: seq<ThemeEntry>, k: string, v: ThemeValue)
    ensures forall e :: e in Assign(t, k, v) ==> e in t || e == ThemeEntry(k, v)
  {
    if t != [] && t[0].key != k {
      AssignEntries(t[1..], k, v);
      assert forall e :: e in t[1..] ==> e in t;
    }
  }

  /** The shape of every theme `findColors` builds, at every depth: no key
      twice, no empty nested theme, and every colour one of `colors`. */
  ghost predicate ThemeShape(t: seq<ThemeEntry>, colors: set<string>)
    decreases t, 1
  {
    KeysUnique(t) && forall i :: 0 <= i < |t| ==> ValueShape(t[i].value, colors)
  }

  ghost predicate ValueShape(v: ThemeValue, colors: set<string>)
    decreases v, 0
  {
    match v
    case Color(c) => c.Some? ==> c.value in colors
    case Nested(sub) => |sub| > 0 && ThemeShape(sub, colors)
  }

  lemma AssignKeepsShape(t: seq<ThemeEntry>, k: string, v: ThemeValue, colors: set<string>)
    requires ThemeShape(t, colors) && ValueShape(v, colors)
    ensures ThemeShape(Assign(t, k, v), colors)
  {
    AssignKeepsKeysUnique(t, k, v);
    AssignEntries(t, k, v);
    var r := Assign(t, k, v);
    forall i | 0 <= i < |r| ensures ValueShape(r[i].value, colors) {
      assert r[i] in r;
    }
  }

  /** Records of that shape build a theme of that shape. */
  lemma {:induction false} BuildShape(es: seq<Entry>, recs: seq<Option<ThemeValue>>, n: nat, colors: set<string>)
    requires n <= |es| && n <= |recs|
    requires forall i :: 0 <= i < n && recs[i].Some? ==> ValueShape(recs[i].value, colors)
    ensures ThemeShape(Build(es, recs, n), colors)
  {
    if n > 0 {
      BuildShape(es, recs, n - 1, colors);
      match recs[n - 1]
      case Some(v) => AssignKeepsShape(Build(es, recs, n - 1), es[n - 1].key, v, colors);
      case None =>
    }
  }

  /** Whatever `findColors` returns for an object is a theme of that shape
      whose colours are all taken from the palette. */
  lemma {:induction false} ColorsShape(obj: Json, palette: map<string, string>)
    ensures Colors(obj, palette).Theme? ==> ThemeShape(Colors(obj, palette).entries, palette.Values)
    decreases obj, 2
  {
    if obj.JObject? {
      var es := obj.entries;
      var recs := Records(es, |es|, palette);
      forall i | 0 <= i < |es| && recs[i].Some?
        ensures ValueShape(recs[i].value, palette.Values)
      {
        assert es[i] in es;
        RecordsAt(es, |es|, palette, i);
        RecordShape(es[i].value, palette);
      }
      BuildShape(es, recs, |es|, palette.Values);
    }
  }

  lemma {:induction false} RecordShape(value: Json, palette: map<string, string>)
    ensures Record(value, palette).Some? ==> ValueShape(Record(value, palette).value, palette.Values)
    decreases value, 3
  {
    if value.JObject? || value.JArray? {
      ColorsShape(value, palette);
    }
  }

  /** The keys of a JavaScript object are distinct. */
  predicate EntryKeysUnique(es: seq<Entry>) {
    forall i, j :: 0 <= i < j < |es| ==> es[i].key != es[j].key
  }

  /** A key none of the first `n` entries has is not in their theme. */
  lemma {:induction false} BuildLookupAbsent(es: seq<Entry>, recs: seq<Option<ThemeValue>>, n: nat, k: string)
    requires n <= |es| && n <= |recs|
    requires forall i :: 0 <= i < n ==> es[i].key != k
    ensures Lookup(Build(es, recs, n), k) == None
  {
    if n > 0 {
      BuildLookupAbsent(es, recs, n - 1, k);
      if recs[n - 1].Some? {
        AssignLookup(Build(es, recs, n - 1), es[n - 1].key, recs[n - 1].value, k);
      }
    }
  }

  /** Each key of the object reads, in the theme, exactly what its own
      entry records, or nothing. */
  lemma {:induction false} BuildLookupAt(es: seq<Entry>, recs: seq<Option<ThemeValue>>, n: nat, i: nat)
    requires i < n <= |es| && n <= |recs| && EntryKeysUnique(es)
    ensures Lookup(Build(es, recs, n), es[i].key) == recs[i]
  {
    var t := Build(es, recs, n - 1);
    var last := es[n - 1];
    if i == n - 1 {
      BuildLookupAbsent(es, recs, n - 1, last.key);
      if recs[n - 1].Some? {
        AssignLookup(t, last.key, recs[n - 1].value, last.key);
      }
    } else {
      BuildLookupAt(es, recs, n - 1, i);
      if recs[n - 1].Some? {
        AssignLookup(t, last.key, recs[n - 1].value, es[i].key);
      }
    }
  }

  /** The keys, in object order, of the entries that record something. */
  function RecordedKeys(es: seq<Entry>, recs: seq<Option<ThemeValue>>, n: nat): seq<string>
    requires n <= |es| && n <= |recs|
  {
    if n == 0 then []
    else RecordedKeys(es, recs, n - 1) + (if recs[n - 1].Some? then [es[n - 1].key] else [])
  }

  /** The theme lists its keys in the order the object does. */
  lemma {:induction false} BuildOrder(es: seq<Entry>, recs: seq<Option<ThemeValue>>, n: nat)
    requires n <= |es| && n <= |recs| && EntryKeysUnique(es)
    ensures Keys(Build(es, recs, n)) == RecordedKeys(es, recs, n)
  {
    if n > 0 {
      BuildOrder(es, recs, n - 1);
      var t := Build(es, recs, n - 1);
      var last := es[n - 1];
      if recs[n - 1].Some? {
        BuildLookupAbsent(es, recs, n - 1, last.key);
        AssignAppends(t, last.key, recs[n - 1].value);
        KeysAppend(t, ThemeEntry(last.key, recs[n - 1].value));
      }
    }
  }

  lemma {:induction false} RecordedKeysEmpty(es: seq<Entry>, recs: seq<Option<ThemeValue>>, n: nat)
    requires n <= |es| && n <= |recs|
    ensures |RecordedKeys(es, recs, n)| == 0 <==> forall i :: 0 <= i < n ==> recs[i].None?
  {
    if n > 0 {
      RecordedKeysEmpty(es, recs, n - 1);
    }
  }

  /** The theme is empty exactly when no entry records anything. */
  lemma BuildEmpty(es: seq<Entry>, recs: seq<Option<ThemeValue>>, n: nat)
    requires n <= |es| && n <= |recs| && EntryKeysUnique(es)
    ensures |Build(es, recs, n)| == 0 <==> forall i :: 0 <= i < n ==> recs[i].None?
  {
    BuildOrder(es, recs, n);
    RecordedKeysEmpty(es, recs, n);
  }

  /** `findColors` on an object: `undefined` exactly when no entry records
      anything, and otherwise a theme in which every key of the object
      reads what its own value records. */
  lemma ColorsOfObject(es: seq<Entry>, palette: map<string, string>)
    requires EntryKeysUnique(es)
    ensures Colors(JObject(es), palette).Undefined? <==> forall i :: 0 <= i < |es| ==> Record(es[i].value, palette).None?
    ensures Colors(JObject(es), palette).Theme? ==>
      forall i :: 0 <= i < |es| ==> Lookup(Colors(JObject(es), palette).entries, es[i].key) == Record(es[i].value, palette)
  {
    var recs := Records(es, |es|, palette);
    var t := Build(es, recs, |es|);
    assert Colors(JObject(es), palette) == if |t| > 0 then Theme(t) else Undefined;
    BuildEmpty(es, recs, |es|);
    forall i | 0 <= i < |es|
      ensures recs[i] == Record(es[i].value, palette) && Lookup(t, es[i].key) == recs[i]
    {
      RecordsAt(es, |es|, palette, i);
      BuildLookupAt(es, recs, |es|, i);
    }
  }

  lemma UndefinedIsNoPaletteName()
    ensures "undefined" !in PaletteNames
  {
    assert forall n :: n in NeutralNames ==> n[0] == 'n';
    assert forall n :: n in HighlightNames ==> n[0] == 'h';
  }

  /** With the palette `generate` builds, a hex colour finds a palette
      colour exactly when `colorMap` lists it; any other one is reported
      missing and recorded as undefined. */
  lemma LookupColorInGeneratedPalette(backgroundColor: string, neutral: nat -> Rgb, highlight: nat -> Rgb, s: string)
    ensures LookupColor(PaletteOf(backgroundColor, neutral, highlight), s).Some? <==> s in ColorMap
  {
    var palette := PaletteOf(backgroundColor, neutral, highlight);
    PaletteKeysAreColorMapValues(backgroundColor, neutral, highlight);
    ColorMapValues();
    UndefinedIsNoPaletteName();
    assert "undefined" !in palette;
    if s in ColorMap {
      var name := ColorMap[s];
      assert name in ColorMap.Values;
      assert name in palette;
    }
  }

  /** The default white becomes the chosen background colour. */
  lemma WhiteBecomesBackground(backgroundColor: string, neutral: nat -> Rgb, highlight: nat -> Rgb)
    ensures LookupColor(PaletteOf(backgroundColor, neutral, highlight), "#ffffff") == Some(backgroundColor)
  {
    assert ColorMap["#ffffff"] == "backgroundColor";
    PaletteBackground(backgroundColor, neutral, highlight);
  }

  lemma BorderColor()
    ensures ContainsHexColor("1px solid #cccccc") && "1px solid #cccccc" !in ColorMap
  {
    assert HexColorAt("1px solid #cccccc", 10);
    assert forall hex :: hex in ColorMap ==> |hex| == 7;
  }

  /** A border such as `1px solid #cccccc` passes the hex test but is not a
      key of `colorMap`, so its key is recorded with an undefined colour. */
  lemma BorderRecordsNoColor(backgroundColor: string, neutral: nat -> Rgb, highlight: nat -> Rgb)
    ensures Record(JString("1px solid #cccccc"), PaletteOf(backgroundColor, neutral, highlight)) == Some(Color(None))
  {
    BorderColor();
    LookupColorInGeneratedPalette(backgroundColor, neutral, highlight, "1px solid #cccccc");
  }

  /** An array value, being an object, is walked and records nothing. */
  lemma ArrayRecordsNothing(items: seq<Json>, palette: map<string, string>)
    ensures Record(JArray(items), palette) == None
  {
    assert Colors(JArray(items), palette) == Undefined;
  }
}
