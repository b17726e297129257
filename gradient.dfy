/**
 * The colour of each body segment: a piecewise-linear gradient across a
 * four-colour palette, from the tail (index 0) towards the head, written
 * out as a `#rrggbb` string.
 *
 * The position `index / total` and the fraction are exact rationals here,
 * kept as a numerator over `total`; `int(...)` truncates toward zero.
 */
module Gradient {
  import opened Wrappers

  datatype Rgb = Rgb(r: int, g: int, b: int)

  /** The four anchor colours of the body gradient. */
  const PALETTE: seq<Rgb> := [Rgb(46, 204, 113), Rgb(52, 152, 219), Rgb(155, 89, 182), Rgb(52, 73, 94)]

  predicate IsByte(v: int)
  {
    0 <= v < 256
  }

  predicate ValidRgb(c: Rgb)
  {
    IsByte(c.r) && IsByte(c.g) && IsByte(c.b)
  }

  /** `v` lies between the two anchors `a` and `b`, whichever is larger. */
  predicate Between(v: int, a: int, b: int)
  {
    (a <= v <= b) || (b <= v <= a)
  }

  /** `int(n / d)` for a positive `d`: the quotient truncated toward zero. */
  function Trunc(n: int, d: int): (q: int)
    requires d > 0
    ensures n >= 0 ==> 0 <= q && q * d <= n < q * d + d
    ensures n < 0 ==> q <= 0 && n <= q * d < n + d
  {
    if n >= 0 then n / d else -((-n) / d)
  }

  /**
   * interpolate_color on one channel: `int(c1 + (c2 - c1) * num / den)`,
   * with the fraction `num / den` in [0, 1].
   */
  function InterpolateChannel(c1: int, c2: int, num: int, den: int): int
    requires den > 0
  {
    Trunc(c1 * den + (c2 - c1) * num, den)
  }

  function InterpolateColor(a: Rgb, b: Rgb, num: int, den: int): Rgb
    requires den > 0
  {
    Rgb(InterpolateChannel(a.r, b.r, num, den),
        InterpolateChannel(a.g, b.g, num, den),
        InterpolateChannel(a.b, b.b, num, den))
  }

  /** An interpolated channel between two non-negative anchors lies between them. */
  lemma InterpolateChannelBetween(c1: int, c2: int, num: int, den: int)
    requires 0 <= c1 && 0 <= c2 && den > 0 && 0 <= num <= den
    ensures Between(InterpolateChannel(c1, c2, num, den), c1, c2)
    ensures num == 0 ==> InterpolateChannel(c1, c2, num, den) == c1
  {
    var v := c1 * den + (c2 - c1) * num;
    var q := InterpolateChannel(c1, c2, num, den);
    if c1 <= c2 {
      WeightedBounds(c1, c2, num, den);
      MulMono(0, c1, den);
      QuotientBounds(q, c1, c2, den, v);
    } else {
      WeightedBounds(c2, c1, den - num, den);
      MirrorWeight(c1, c2, num, den);
      MulMono(0, c2, den);
      QuotientBounds(q, c2, c1, den, v);
    }
    if num == 0 {
      QuotientBounds(q, c1, c1, den, v);
    }
  }

  /** The same weighted value, read from the other anchor. */
  lemma MirrorWeight(c1: int, c2: int, num: int, den: int)
    ensures c2 * den + (c1 - c2) * (den - num) == c1 * den + (c2 - c1) * num
  {
    calc {
      c2 * den + (c1 - c2) * (den - num);
      c2 * den + c1 * den - c2 * den - (c1 - c2) * num;
      c1 * den + (c2 - c1) * num;
    }
  }

  /** `a*den + (b - a)*num` lies in [a*den, b*den] when `a <= b` and `num` in [0, den]. */
  lemma WeightedBounds(a: int, b: int, num: int, den: int)
    requires a <= b && 0 <= num <= den
    ensures a * den <= a * den + (b - a) * num <= b * den
  {
    MulMono(0, b - a, num);
    assert (b - a) * num <= (b - a) * den by { MulMonoRight(b - a, num, den); }
    assert b * den == a * den + (b - a) * den;
  }

  lemma MulMono(a: int, b: int, k: int)
    requires a <= b && k >= 0
    ensures a * k <= b * k
  {
  }

  lemma MulMonoRight(k: int, a: int, b: int)
    requires a <= b && k >= 0
    ensures k * a <= k * b
  {
  }

  /** From `lo*d <= v < (hi+1)*d` and `q*d <= v < q*d + d`, the quotient `q` is in [lo, hi]. */
  lemma QuotientBounds(q: int, lo: int, hi: int, d: int, v: int)
    requires d > 0 && lo * d <= v < (hi + 1) * d && q * d <= v < q * d + d
    ensures lo <= q <= hi
  {
    if q < lo {
      MulMono(q + 1, lo, d);
    }
    if q > hi {
      MulMono(hi + 1, q, d);
    }
  }

  /** `int(index / total * 3)`: which palette colour starts this segment's span. */
  function ColorIndex(index: int, total: int): (lo: int)
    requires 0 <= index < total
    ensures 0 <= lo < |PALETTE| - 1
    ensures lo * total <= index * (|PALETTE| - 1) < lo * total + total
  {
    var lo := Trunc(index * (|PALETTE| - 1), total);
    QuotientBounds(lo, 0, |PALETTE| - 2, total, index * (|PALETTE| - 1));
    lo
  }

  /** `min(lo + 1, 3)`: the palette colour that ends the span. */
  function NextColorIndex(lo: int): int
  {
    if lo + 1 < |PALETTE| - 1 then lo + 1 else |PALETTE| - 1
  }

  /** The numerator, over `total`, of `index / total * 3 - lo`. */
  function FractionNum(index: int, total: int): int
    requires 0 <= index < total
  {
    index * (|PALETTE| - 1) - ColorIndex(index, total) * total
  }

  /** The colour get_segment_color computes before formatting it. */
  function SegmentRgb(index: int, total: int): Rgb
    requires 0 <= index < total
  {
    var lo := ColorIndex(index, total);
    InterpolateColor(PALETTE[lo], PALETTE[NextColorIndex(lo)], FractionNum(index, total), total)
  }

  /**
   * Every segment's colour sits on the segment between two consecutive
   * palette anchors: the span starts at anchor `lo` in 0..2, ends at
   * anchor `lo + 1`, and each channel lies between the two.
   */
  lemma SegmentChannelsBetween(index: int, total: int)
    requires 0 <= index < total
    ensures var lo := ColorIndex(index, total);
            var c, a, b := SegmentRgb(index, total), PALETTE[lo], PALETTE[NextColorIndex(lo)];
            0 <= lo <= 2 && NextColorIndex(lo) == lo + 1 &&
            Between(c.r, a.r, b.r) && Between(c.g, a.g, b.g) && Between(c.b, a.b, b.b) &&
            ValidRgb(c)
  {
    var lo := ColorIndex(index, total);
    var num := FractionNum(index, total);
    var a, b := PALETTE[lo], PALETTE[NextColorIndex(lo)];
    assert 0 <= num < total;
    InterpolateChannelBetween(a.r, b.r, num, total);
    InterpolateChannelBetween(a.g, b.g, num, total);
    InterpolateChannelBetween(a.b, b.b, num, total);
  }

  /**
   * Where `index / total` falls exactly on an anchor position `k / 3`, the
   * segment has exactly that anchor's colour.
   */
  lemma SegmentOnAnchor(index: int, total: int, k: int)
    requires 0 <= index < total && 0 <= k < |PALETTE|
    requires index * (|PALETTE| - 1) == k * total
    ensures SegmentRgb(index, total) == PALETTE[k]
  {
    var lo := ColorIndex(index, total);
    assert lo == k by {
      if lo < k {
        MulMono(lo + 1, k, total);
      }
      if lo > k {
        MulMono(k + 1, lo, total);
      }
    }
    assert FractionNum(index, total) == 0;
    var a, b := PALETTE[lo], PALETTE[NextColorIndex(lo)];
    InterpolateChannelBetween(a.r, b.r, 0, total);
    InterpolateChannelBetween(a.g, b.g, 0, total);
    InterpolateChannelBetween(a.b, b.b, 0, total);
  }

  function Abs(v: int): int
  {
    if v < 0 then -v else v
  }

  /**
   * The head end of the gradient tends to the last palette colour: for the
   * segment next to the head, each channel is within `(3*|a - b| + total) / total`
   * of the last anchor `b`, where `a` is the anchor before it.
   */
  lemma LastSegmentNearLastAnchor(total: int)
    requires total >= 3
    ensures var c, a, b := SegmentRgb(total - 1, total), PALETTE[2], PALETTE[3];
            && Abs(c.r - b.r) * total <= 3 * Abs(b.r - a.r) + total
            && Abs(c.g - b.g) * total <= 3 * Abs(b.g - a.g) + total
            && Abs(c.b - b.b) * total <= 3 * Abs(b.b - a.b) + total
  {
    var lo := ColorIndex(total - 1, total);
    assert lo == 2 by {
      QuotientBounds(lo, 2, 2, total, (total - 1) * (|PALETTE| - 1));
    }
    assert FractionNum(total - 1, total) == total - 3;
    var a, b := PALETTE[2], PALETTE[3];
    LastChannelNear(a.r, b.r, total);
    LastChannelNear(a.g, b.g, total);
    LastChannelNear(a.b, b.b, total);
  }

  lemma LastChannelNear(c1: int, c2: int, total: int)
    requires 0 <= c1 && 0 <= c2 && total >= 3
    ensures Abs(InterpolateChannel(c1, c2, total - 3, total) - c2) * total <= 3 * Abs(c2 - c1) + total
  {
    var v := c1 * total + (c2 - c1) * (total - 3);
    assert v == c2 * total - 3 * (c2 - c1) == 3 * c1 + c2 * (total - 3) by {
      assert (c2 - c1) * (total - 3) == c2 * total - c1 * total - 3 * c2 + 3 * c1;
    }
    MulMono(0, c2, total - 3);
    var q := InterpolateChannel(c1, c2, total - 3, total);
    assert q * total <= v < q * total + total;
    var e := q - c2;
    assert e * total == q * total - c2 * total;
    assert -3 * (c2 - c1) - total < e * total <= -3 * (c2 - c1);
    AbsTimes(e, total);
  }

  lemma AbsTimes(e: int, k: int)
    requires k > 0
    ensures Abs(e) * k == Abs(e * k)
  {
    if e < 0 {
      assert Abs(e) * k == -(e * k);
    }
  }

  // ---- `#rrggbb` formatting -------------------------------------------------

  /** One lower-case hexadecimal digit. */
  function HexDigit(n: int): (ch: char)
    requires 0 <= n < 16
  {
    if n < 10 then '0' + (n as char) else 'a' + ((n - 10) as char)
  }

  function ParseHexDigit(ch: char): Option<int>
  {
    if '0' <= ch <= '9' then Some((ch - '0') as int)
    else if 'a' <= ch <= 'f' then Some((ch - 'a') as int + 10)
    else None
  }

  /** `{v:02x}`: a byte as exactly two lower-case hexadecimal digits. */
  function Hex2(v: int): (s: string)
    requires IsByte(v)
    ensures |s| == 2
  {
    [HexDigit(v / 16), HexDigit(v % 16)]
  }

  function ParseHex2(s: string): Option<int>
    requires |s| == 2
  {
    match (ParseHexDigit(s[0]), ParseHexDigit(s[1]))
    case (Some(h), Some(l)) => Some(16 * h + l)
    case _ => None
  }

  /** The `#rrggbb` string the source builds from a colour. */
  function HexColor(c: Rgb): (s: string)
    requires ValidRgb(c)
    ensures |s| == 7 && s[0] == '#'
  {
    "#" + Hex2(c.r) + Hex2(c.g) + Hex2(c.b)
  }

  /** Reads a `#rrggbb` string back. */
  function ParseHexColor(s: string): Option<Rgb>
  {
    if |s| != 7 || s[0] != '#' then None
    else match (ParseHex2(s[1..3]), ParseHex2(s[3..5]), ParseHex2(s[5..7]))
      case (Some(r), Some(g), Some(b)) => Some(Rgb(r, g, b))
      case _ => None
  }

  lemma HexDigitRoundTrip(n: int)
    requires 0 <= n < 16
    ensures ParseHexDigit(HexDigit(n)) == Some(n)
  {
  }

  lemma Hex2RoundTrip(v: int)
    requires IsByte(v)
    ensures ParseHex2(Hex2(v)) == Some(v)
  {
    HexDigitRoundTrip(v / 16);
    HexDigitRoundTrip(v % 16);
  }

  /** The colour string determines the colour: reading it back gives the same channels. */
  lemma HexColorRoundTrip(c: Rgb)
    requires ValidRgb(c)
    ensures ParseHexColor(HexColor(c)) == Some(c)
  {
    var s := HexColor(c);
    assert s[1..3] == Hex2(c.r) && s[3..5] == Hex2(c.g) && s[5..7] == Hex2(c.b);
    Hex2RoundTrip(c.r);
    Hex2RoundTrip(c.g);
    Hex2RoundTrip(c.b);
  }

  /** get_segment_color: the colour of segment `index` of `total`, as `#rrggbb`. */
  function SegmentColor(index: int, total: int): (s: string)
    requires 0 <= index < total
    ensures |s| == 7 && ParseHexColor(s) == Some(SegmentRgb(index, total))
  {
    SegmentChannelsBetween(index, total);
    HexColorRoundTrip(SegmentRgb(index, total));
    HexColor(SegmentRgb(index, total))
  }

  /** The tail segment always has the first palette colour, #2ecc71. */
  lemma SegmentColorFirst(total: int)
    requires total > 0
    ensures SegmentRgb(0, total) == PALETTE[0]
    ensures SegmentColor(0, total) == "#2ecc71"
  {
    SegmentOnAnchor(0, total, 0);
  }
}
