/**
  BSON ObjectIds and their string form.

  Every identifier that crosses the storage boundary is the hexadecimal string
  of an ObjectId: `str(oid)` writes the 12 bytes as 24 lower-case hexadecimal
  digits, and `ObjectId(s)` accepts exactly 24 hexadecimal digits of either
  case and raises `InvalidId` on anything else.
 */
module ObjectIds {
  import opened Wrappers

  /** Number of hexadecimal digits in the string form of a 12-byte ObjectId. */
  const HexLength: nat := 24

  function Pow16(k: nat): (r: nat)
    ensures r > 0
  {
    if k == 0 then 1 else 16 * Pow16(k - 1)
  }

  /** An ObjectId is a 96-bit number (its 12 bytes read big-endian). */
  type ObjectId = n: nat | n < Pow16(HexLength)

  predicate IsHexDigit(c: char) {
    '0' <= c <= '9' || 'a' <= c <= 'f' || 'A' <= c <= 'F'
  }

  predicate IsLowerHex(s: string) {
    forall i :: 0 <= i < |s| ==> IsHexDigit(s[i]) && !('A' <= s[i] <= 'F')
  }

  predicate IsHex(s: string) {
    forall i :: 0 <= i < |s| ==> IsHexDigit(s[i])
  }

  function DigitValue(c: char): (v: nat)
    requires IsHexDigit(c)
    ensures v < 16
  {
    if '0' <= c <= '9' then c as nat - '0' as nat
    else if 'a' <= c <= 'f' then c as nat - 'a' as nat + 10
    else c as nat - 'A' as nat + 10
  }

  function HexChar(v: nat): (c: char)
    requires v < 16
    ensures IsHexDigit(c) && !('A' <= c <= 'F') && DigitValue(c) == v
  {
    if v < 10 then ('0' as int + v) as char else ('a' as int + v - 10) as char
  }

  /** The `width` least significant hexadecimal digits of `n`, most significant first. */
  function HexDigits(n: nat, width: nat): (s: string)
    ensures |s| == width && IsLowerHex(s)
  {
    if width == 0 then [] else HexDigits(n / 16, width - 1) + [HexChar(n % 16)]
  }

  /** The number that a string of hexadecimal digits denotes. */
  function HexValue(s: string): (v: nat)
    requires IsHex(s)
    ensures v < Pow16(|s|)
  {
    if s == [] then 0 else HexValue(s[..|s| - 1]) * 16 + DigitValue(s[|s| - 1])
  }

  /** `str(oid)`. */
  function IdString(id: ObjectId): (s: string)
    ensures |s| == HexLength && IsLowerHex(s)
  {
    HexDigits(id, HexLength)
  }

  /** `ObjectId(s)` for a string argument; `None` stands for the `InvalidId` it raises. */
  function ParseObjectId(s: string): (r: Option<ObjectId>)
    ensures r.Some? <==> |s| == HexLength && IsHex(s)
  {
    if |s| == HexLength && IsHex(s) then Some(HexValue(s)) else None
  }

  lemma {:induction false} HexDigitsValue(n: nat, width: nat)
    requires n < Pow16(width)
    ensures HexValue(HexDigits(n, width)) == n
  {
    if width > 0 {
      var s := HexDigits(n, width);
      assert s[..width - 1] == HexDigits(n / 16, width - 1);
      HexDigitsValue(n / 16, width - 1);
    }
  }

  lemma {:induction false} ValueHexDigits(s: string)
    requires IsLowerHex(s)
    ensures HexDigits(HexValue(s), |s|) == s
  {
    if s != [] {
      var init, last := s[..|s| - 1], s[|s| - 1];
      var v := HexValue(s);
      assert v / 16 == HexValue(init) && v % 16 == DigitValue(last);
      ValueHexDigits(init);
      assert HexChar(DigitValue(last)) == last;
      assert s == init + [last];
    }
  }

  /** The string form of an ObjectId parses back to that ObjectId. */
  lemma ParseIdString(id: ObjectId)
    ensures ParseObjectId(IdString(id)) == Some(id)
  {
    HexDigitsValue(id, HexLength);
  }

  /** A lower-case identifier string that parses is the string form of what it parses to. */
  lemma IdStringOfParse(s: string)
    requires IsLowerHex(s) && ParseObjectId(s).Some?
    ensures IdString(ParseObjectId(s).value) == s
  {
    ValueHexDigits(s);
  }

  /** Distinct ObjectIds have distinct string forms. */
  lemma IdStringInjective(a: ObjectId, b: ObjectId)
    ensures IdString(a) == IdString(b) ==> a == b
  {
    ParseIdString(a);
    ParseIdString(b);
  }
}
