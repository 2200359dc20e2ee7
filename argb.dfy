/** Packing of 32-bit ARGB colours into four 8-bit components and back
    (StaticUtils.toARGB/fromARGB; GamePhysObject keeps an identical private copy).
    A colour is the Java int read as an unsigned 32-bit value, so bits 24-31
    are `color / 2^24` and the bitwise ORs of disjoint byte lanes are sums. */
module Argb {

  type Color = c: int | 0 <= c < 0x1_0000_0000

  /** `color >> 24 & 0xff`, `color >> 16 & 0xff`, `color >> 8 & 0xff`, `color & 0xff`. */
  function ToArgb(color: Color): (argb: seq<int>)
    ensures |argb| == 4
    ensures forall k :: 0 <= k < 4 ==> 0 <= argb[k] < 256
  {
    [color / 0x100_0000, color / 0x1_0000 % 256, color / 0x100 % 256, color % 256]
  }

  /** `(a[0] & 0xff) << 24 | (a[1] & 0xff) << 16 | (a[2] & 0xff) << 8 | (a[3] & 0xff)`:
      only the first four components are read, and only their low eight bits
      (Java's `& 0xff` on a two's-complement int is the Euclidean `% 256`). */
  function FromArgb(argb: seq<int>): (color: Color)
    requires |argb| >= 4
  {
    Pack(argb[0] % 256, argb[1] % 256, argb[2] % 256, argb[3] % 256)
  }

  function Pack(a: int, r: int, g: int, b: int): (color: Color)
    requires 0 <= a < 256 && 0 <= r < 256 && 0 <= g < 256 && 0 <= b < 256
  {
    a * 0x100_0000 + r * 0x1_0000 + g * 0x100 + b
  }

  /** Euclidean division undoes a multiply-and-add with an in-range remainder. */
  lemma DivPlus(q: int, r: int, d: int)
    requires d > 0 && 0 <= r < d
    ensures (q * d + r) / d == q && (q * d + r) % d == r
  {
    var n := q * d + r;
    var e := q - n / d;
    assert e * d == n % d - r;
    MulAway(e, d);
  }

  lemma MulAway(e: int, d: int)
    requires d > 0
    ensures e >= 1 ==> e * d >= d
    ensures e <= -1 ==> e * d <= -d
  {
    assert e * d - d == (e - 1) * d;
    assert e * d + d == (e + 1) * d;
  }

  lemma PackDigits(a: int, r: int, g: int, b: int)
    requires 0 <= a < 256 && 0 <= r < 256 && 0 <= g < 256 && 0 <= b < 256
    ensures ToArgb(Pack(a, r, g, b)) == [a, r, g, b]
  {
    var c := Pack(a, r, g, b);
    var ar := a * 256 + r;
    var arg := ar * 256 + g;
    assert c == a * 0x100_0000 + (r * 0x1_0000 + g * 0x100 + b);
    DivPlus(a, r * 0x1_0000 + g * 0x100 + b, 0x100_0000);
    assert c == ar * 0x1_0000 + (g * 0x100 + b);
    DivPlus(ar, g * 0x100 + b, 0x1_0000);
    DivPlus(a, r, 256);
    assert c == arg * 0x100 + b;
    DivPlus(arg, b, 0x100);
    DivPlus(ar, g, 256);
  }

  lemma {:induction false} FromToArgb(color: Color)
    ensures FromArgb(ToArgb(color)) == color
  {
    var q1 := color / 256;
    var q2 := q1 / 256;
    var q3 := q2 / 256;
    var b, g, r := color % 256, q1 % 256, q2 % 256;
    assert color == q2 * 0x1_0000 + (g * 256 + b);
    DivPlus(q2, g * 256 + b, 0x1_0000);
    assert color == q3 * 0x100_0000 + (r * 0x1_0000 + g * 256 + b);
    DivPlus(q3, r * 0x1_0000 + g * 256 + b, 0x100_0000);
    assert ToArgb(color) == [q3, r, g, b];
    assert q3 % 256 == q3 && r % 256 == r && g % 256 == g && b % 256 == b;
    assert FromArgb(ToArgb(color)) == Pack(q3, r, g, b);
  }

  lemma ToFromArgb(argb: seq<int>)
    requires |argb| == 4
    requires forall k :: 0 <= k < 4 ==> 0 <= argb[k] < 256
    ensures ToArgb(FromArgb(argb)) == argb
  {
    var a, r, g, b := argb[0], argb[1], argb[2], argb[3];
    assert a % 256 == a && r % 256 == r && g % 256 == g && b % 256 == b;
    assert FromArgb(argb) == Pack(a, r, g, b);
    PackDigits(a, r, g, b);
    assert argb == [a, r, g, b];
  }

  lemma FromArgbMasks(a: seq<int>, b: seq<int>)
    requires |a| >= 4 && |b| >= 4
    requires forall k :: 0 <= k < 4 ==> a[k] % 256 == b[k] % 256
    ensures FromArgb(a) == FromArgb(b)
  {
    assert a[0] % 256 == b[0] % 256 && a[1] % 256 == b[1] % 256;
  }
}
