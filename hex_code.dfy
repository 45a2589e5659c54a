/** Lower-case hexadecimal rendering of camera SDK error codes (`to_hex_str`). */
module HexCode {

  /** 2^32: a negative SDK status code is shifted by this before it is printed. */
  const TWO_POW_32: int := 0x1_0000_0000

  predicate IsHexDigit(c: char) {
    '0' <= c <= '9' || 'a' <= c <= 'f'
  }

  predicate AllHexDigits(s: seq<char>) {
    forall i :: 0 <= i < |s| ==> IsHexDigit(s[i])
  }

  /** A canonical hex string: non-empty, only 0-9a-f, and no leading zero unless it is "0". */
  predicate Canonical(s: seq<char>) {
    |s| >= 1 && AllHexDigits(s) && (s[0] == '0' ==> |s| == 1)
  }

  /** The character `to_hex_str`'s digit table gives a value below 16:
      letters for 10..15, the decimal digit otherwise. */
  function HexDigit(d: nat): (c: char)
    requires d < 16
    ensures IsHexDigit(c)
    ensures (c == '0') == (d == 0)
  {
    if d < 10 then ('0' as int + d) as char else ('a' as int + (d - 10)) as char
  }

  function DigitValue(c: char): (d: nat)
    requires IsHexDigit(c)
    ensures d < 16
    ensures HexDigit(d) == c
  {
    if c <= '9' then c as int - '0' as int else c as int - 'a' as int + 10
  }

  /** The value a hex string denotes, most significant digit first. */
  function HexValue(s: seq<char>): nat
    requires AllHexDigits(s)
  {
    if s == [] then 0 else HexValue(s[..|s| - 1]) * 16 + DigitValue(s[|s| - 1])
  }

  /** The digits the conversion loop produces for a non-negative value. */
  function Hex(n: nat): (r: seq<char>)
    ensures Canonical(r)
    decreases n
  {
    if n < 16 then [HexDigit(n)] else Hex(n / 16) + [HexDigit(n % 16)]
  }

  function Pow16(k: nat): (p: nat)
    ensures p >= 1
  {
    if k == 0 then 1 else 16 * Pow16(k - 1)
  }

  /** Parsing the rendered digits gives back the value. */
  lemma {:induction false} HexRoundTrip(n: nat)
    ensures HexValue(Hex(n)) == n
    decreases n
  {
    if n >= 16 {
      var h := Hex(n);
      assert h[..|h| - 1] == Hex(n / 16);
      HexRoundTrip(n / 16);
    }
  }

  /** A hex string of value zero consists of zeros only. */
  lemma {:induction false} ZeroValueAllZeros(s: seq<char>)
    requires AllHexDigits(s)
    requires HexValue(s) == 0
    ensures forall i :: 0 <= i < |s| ==> s[i] == '0'
  {
    if s != [] {
      var p := s[..|s| - 1];
      ZeroValueAllZeros(p);
      assert DigitValue(s[|s| - 1]) == 0;
      forall i | 0 <= i < |s| ensures s[i] == '0' {
        if i < |s| - 1 { assert s[i] == p[i]; }
      }
    }
  }

  /** Conversely, every canonical hex string is the rendering of its own value,
      so the rendering is the unique canonical spelling of a number. */
  lemma {:induction false} CanonicalIsHexOfValue(s: seq<char>)
    requires Canonical(s)
    ensures Hex(HexValue(s)) == s
    decreases |s|
  {
    var c := s[|s| - 1];
    if |s| == 1 {
      assert s[..0] == [];
      assert HexValue(s) == DigitValue(c);
    } else {
      var p := s[..|s| - 1];
      assert p[0] == s[0];
      assert Canonical(p);
      if HexValue(p) == 0 {
        ZeroValueAllZeros(p);
        assert false;
      }
      var v := HexValue(s);
      assert v == HexValue(p) * 16 + DigitValue(c);
      assert v / 16 == HexValue(p) && v % 16 == DigitValue(c);
      CanonicalIsHexOfValue(p);
      assert s == p + [c];
    }
  }

  /** A value below 16^k needs at most k digits; in particular a 32-bit code needs at most 8. */
  lemma {:induction false} HexLength(n: nat, k: nat)
    requires k >= 1 && n < Pow16(k)
    ensures |Hex(n)| <= k
    decreases k
  {
    if n >= 16 {
      assert k >= 2;
      HexLength(n / 16, k - 1);
    }
  }

  /** The value `to_hex_str` actually renders: a negative code is first shifted by 2^32. */
  function Shifted(num: int): int {
    if num < 0 then num + TWO_POW_32 else num
  }

  /** `to_hex_str`: peel digits off with `% 16` and `// 16`, prepending each. */
  method ToHexStr(num: int) returns (hexStr: string)
    requires num >= -TWO_POW_32
    ensures Canonical(hexStr)
    ensures HexValue(hexStr) == Shifted(num)
    ensures -TWO_POW_32 <= num < TWO_POW_32 ==> HexValue(hexStr) == num % TWO_POW_32 && |hexStr| <= 8
    ensures hexStr == Hex(Shifted(num))
  {
    var n: nat := Shifted(num);
    ghost var n0 := n;
    hexStr := "";
    while n >= 16
      invariant Hex(n0) == Hex(n) + hexStr
      decreases n
    {
      var digit := n % 16;
      assert Hex(n) == Hex(n / 16) + [HexDigit(digit)];
      hexStr := [HexDigit(digit)] + hexStr;
      n := n / 16;
    }
    hexStr := [HexDigit(n)] + hexStr;
    HexRoundTrip(n0);
    if num < TWO_POW_32 {
      assert Pow16(8) == TWO_POW_32;
      HexLength(n0, 8);
    }
  }
}
