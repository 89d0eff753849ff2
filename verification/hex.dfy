/** Fixed-width lower-case hexadecimal rendering, as Python's `"{:06x}".format(n)`
    produces it for an `n` below 16^6, and the matching decoder. */
module Hex {
  import opened Wrappers

  const LowerDigits: string := "0123456789abcdef"

  function Pow16(w: nat): (r: nat)
    ensures r >= 1
  {
    if w == 0 then 1 else 16 * Pow16(w - 1)
  }

  predicate IsLowerHexDigit(c: char) {
    ('0' <= c <= '9') || ('a' <= c <= 'f')
  }

  /** The value of one hexadecimal digit of either case, as `int(c, 16)` reads it. */
  function DigitValue(c: char): (r: Option<nat>)
    ensures r.Some? ==> r.value < 16
  {
    if '0' <= c <= '9' then Some(c as nat - '0' as nat)
    else if 'a' <= c <= 'f' then Some(c as nat - 'a' as nat + 10)
    else if 'A' <= c <= 'F' then Some(c as nat - 'A' as nat + 10)
    else None
  }

  function DigitChar(d: nat): (c: char)
    requires d < 16
    ensures IsLowerHexDigit(c)
    ensures DigitValue(c) == Some(d)
  {
    LowerDigits[d]
  }

  /** `n` written with exactly `w` lower-case digits, zero-padded on the left. */
  function Fixed(n: nat, w: nat): (s: string)
    requires n < Pow16(w)
    ensures |s| == w
    ensures forall i :: 0 <= i < |s| ==> IsLowerHexDigit(s[i])
  {
    if w == 0 then "" else Fixed(n / 16, w - 1) + [DigitChar(n % 16)]
  }

  /** The value of a string of hexadecimal digits (most significant first), or
      `None` when some character is not a digit. The empty string reads as 0. */
  function Decode(s: string): Option<nat>
  {
    if |s| == 0 then Some(0)
    else
      match (Decode(s[..|s| - 1]), DigitValue(s[|s| - 1]))
      case (Some(hi), Some(lo)) => Some(16 * hi + lo)
      case _ => None
  }

  /** Decoding undoes fixed-width encoding. */
  lemma {:induction false} DecodeFixed(n: nat, w: nat)
    requires n < Pow16(w)
    ensures Decode(Fixed(n, w)) == Some(n)
  {
    if w > 0 {
      var s := Fixed(n, w);
      assert s[..|s| - 1] == Fixed(n / 16, w - 1);
      DecodeFixed(n / 16, w - 1);
    }
  }

  /** Encoding undoes decoding: every string of `w` lower-case digits is the
      fixed-width rendering of the value it denotes. */
  lemma {:induction false} FixedDecode(s: string)
    requires forall i :: 0 <= i < |s| ==> IsLowerHexDigit(s[i])
    ensures Decode(s).Some?
    ensures Decode(s).value < Pow16(|s|)
    ensures Fixed(Decode(s).value, |s|) == s
  {
    if |s| > 0 {
      var init := s[..|s| - 1];
      var c := s[|s| - 1];
      FixedDecode(init);
      var hi := Decode(init).value;
      var lo := DigitValue(c).value;
      assert c == LowerDigits[lo];
      var n := 16 * hi + lo;
      assert n / 16 == hi && n % 16 == lo;
      assert Fixed(n, |s|) == Fixed(hi, |init|) + [DigitChar(lo)];
      assert s == init + [c];
    }
  }

  /** `"#"` followed by six lower-case hex digits: the shape of every colour the
      connection registry assigns. */
  predicate WellFormedColor(s: string) {
    |s| == 7 && s[0] == '#' && forall i :: 1 <= i < 7 ==> IsLowerHexDigit(s[i])
  }

  function DecodeColor(s: string): Option<nat> {
    if |s| == 7 && s[0] == '#' then Decode(s[1..]) else None
  }

  /** The colour string for a random draw `n` in [0, 0xFFFFFF]: `"#{:06x}"`. */
  function Color(n: nat): (s: string)
    requires n <= 0xFF_FFFF
    ensures WellFormedColor(s)
    ensures DecodeColor(s) == Some(n)
  {
    assert Pow16(6) == 0x100_0000;
    var digits := Fixed(n, 6);
    DecodeFixed(n, 6);
    assert ("#" + digits)[1..] == digits;
    "#" + digits
  }

  /** Every well-formed colour is the rendering of exactly the value it decodes to. */
  lemma ColorDecode(s: string)
    requires WellFormedColor(s)
    ensures DecodeColor(s).Some?
    ensures DecodeColor(s).value <= 0xFF_FFFF
    ensures Color(DecodeColor(s).value) == s
  {
    var digits := s[1..];
    FixedDecode(digits);
    assert Pow16(6) == 0x100_0000;
    assert s == "#" + digits;
  }
}
