/** src/lib/color.ts: the RGBA colour record and its `#rrggbb` form. */
module Color {

  /** `RGBAColor`. */
  datatype RGBA = RGBA(r: int, g: int, b: int, a: int)

  /** Every channel is a byte value, as produced by the colour functions of
      the core. */
  predicate IsByteColor(c: RGBA)
  {
    0 <= c.r <= 255 && 0 <= c.g <= 255 && 0 <= c.b <= 255 && 0 <= c.a <= 255
  }

  const Digits: string := "0123456789abcdef"

  /** `Number.prototype.toString(16)` on a non-negative integer. */
  function ToBase16(v: nat): (s: string)
    ensures |s| >= 1
    ensures forall i :: 0 <= i < |s| ==> s[i] in Digits
    decreases v
  {
    if v < 16 then [Digits[v]] else ToBase16(v / 16) + [Digits[v % 16]]
  }

  /** `Number.prototype.toString(16)` on any integer: a minus sign before the
      digits of a negative value. */
  function ToString16(v: int): string
  {
    if v < 0 then "-" + ToBase16(-v) else ToBase16(v)
  }

  /** `s.padStart(n, '0')`. */
  function PadStart(s: string, n: nat): (r: string)
    ensures |r| == if |s| >= n then |s| else n
    ensures |s| >= n ==> r == s
    ensures |s| < n ==> r[n - |s|..] == s && forall i :: 0 <= i < n - |s| ==> r[i] == '0'
    decreases n - |s|
  {
    if |s| >= n then s else PadStart(['0'] + s, n)
  }

  /** One two-character group of `hex`. */
  function Group(v: int): string
  {
    PadStart(ToString16(v), 2)
  }

  /** `hex(color)`. */
  function Hex(c: RGBA): string
  {
    "#" + Group(c.r) + Group(c.g) + Group(c.b)
  }

  /** The value of a lowercase hexadecimal digit. */
  function DigitValue(ch: char): (v: int)
    requires ch in Digits
    ensures 0 <= v < 16 && Digits[v] == ch
  {
    if '0' <= ch <= '9' then ch as int - '0' as int else ch as int - 'a' as int + 10
  }

  /** Reads a two-digit group back. */
  function ParseGroup(s: string): int
    requires |s| == 2 && s[0] in Digits && s[1] in Digits
  {
    DigitValue(s[0]) * 16 + DigitValue(s[1])
  }

  /** A byte value is written as its two lowercase digits, high digit first
      (a leading `0` for values below 16). */
  lemma GroupOfByte(v: int)
    requires 0 <= v <= 255
    ensures Group(v) == [Digits[v / 16], Digits[v % 16]]
  {
    if v < 16 {
      assert ToString16(v) == [Digits[v]];
      assert Group(v) == PadStart(['0'] + [Digits[v]], 2);
    } else {
      assert ToBase16(v / 16) == [Digits[v / 16]];
    }
  }

  /** A byte value's group reads back as that value. */
  lemma GroupRoundTrip(v: int)
    requires 0 <= v <= 255
    ensures |Group(v)| == 2 && Group(v)[0] in Digits && Group(v)[1] in Digits
    ensures ParseGroup(Group(v)) == v
  {
    GroupOfByte(v);
    DigitValueOfDigit(v / 16);
    DigitValueOfDigit(v % 16);
  }

  lemma DigitValueOfDigit(v: int)
    requires 0 <= v < 16
    ensures DigitValue(Digits[v]) == v
  {
  }

  /** For byte channels `hex` is 7 characters: `#` and three groups, each of
      which reads back as its channel. */
  lemma HexRoundTrip(c: RGBA)
    requires IsByteColor(c)
    ensures |Hex(c)| == 7 && Hex(c)[0] == '#'
    ensures Hex(c)[1..3] == Group(c.r) && Hex(c)[3..5] == Group(c.g) && Hex(c)[5..7] == Group(c.b)
    ensures ParseGroup(Hex(c)[1..3]) == c.r && ParseGroup(Hex(c)[3..5]) == c.g && ParseGroup(Hex(c)[5..7]) == c.b
  {
    GroupRoundTrip(c.r);
    GroupRoundTrip(c.g);
    GroupRoundTrip(c.b);
    Slices(Group(c.r), Group(c.g), Group(c.b));
  }

  /** Where the three groups sit in `#` followed by them. */
  lemma Slices(x: string, y: string, z: string)
    requires |x| == 2 && |y| == 2 && |z| == 2
    ensures var s := "#" + x + y + z;
      |s| == 7 && s[0] == '#' && s[1..3] == x && s[3..5] == y && s[5..7] == z
  {
    var s := "#" + x + y + z;
    assert s[1..3] == x;
    assert s[3..5] == y;
    assert s[5..7] == z;
  }

  /** The alpha channel does not take part in `hex`. */
  lemma HexIgnoresAlpha(c: RGBA, a: int)
    ensures Hex(c.(a := a)) == Hex(c)
  {
  }
}
