/**
 * Values shared by the whole model: UUIDs, with the text form `str(uuid.UUID)`
 * produces, and the dynamically typed values that appear in attribute
 * dictionaries, request payloads and JWT claims.
 */
module Values {

  /** 16 to the power k. */
  function Pow16(k: nat): (r: nat)
    ensures r >= 1
  {
    if k == 0 then 1 else 16 * Pow16(k - 1)
  }

  /** A UUID is a 128-bit number, that is 32 hexadecimal digits. */
  type Uuid = n: nat | n < Pow16(32)

  /**
   * A Python value as the ORM, pydantic and python-jose pass it around.
   * Datetimes are integer seconds (`Int`); a UUID is `Id`; `None` is `Null`.
   */
  datatype Value = Null | Str(s: string) | Bool(b: bool) | Int(i: int) | Id(u: Uuid)

  const HexDigits: string := "0123456789abcdef"

  /** `n` written with exactly `width` lower-case hexadecimal digits (`'%0*x'`). */
  function Hex(n: nat, width: nat): (s: string)
    requires n < Pow16(width)
    ensures |s| == width
    ensures forall i :: 0 <= i < |s| ==> s[i] in HexDigits
  {
    if width == 0 then "" else Hex(n / 16, width - 1) + [HexDigits[n % 16]]
  }

  /** The value of one lower-case hexadecimal digit. */
  function DigitValue(c: char): (d: nat)
    requires c in HexDigits
    ensures d < 16 && HexDigits[d] == c
  {
    if '0' <= c <= '9' then c as int - '0' as int else c as int - 'a' as int + 10
  }

  /** Reads a string of hexadecimal digits, most significant first. */
  function ParseHex(s: string): (n: nat)
    requires forall i :: 0 <= i < |s| ==> s[i] in HexDigits
    ensures n < Pow16(|s|)
  {
    if s == [] then 0 else ParseHex(s[..|s| - 1]) * 16 + DigitValue(s[|s| - 1])
  }

  lemma {:induction false} ParseHexOfHex(n: nat, width: nat)
    requires n < Pow16(width)
    ensures ParseHex(Hex(n, width)) == n
  {
    if width > 0 {
      var s := Hex(n, width);
      assert s[..|s| - 1] == Hex(n / 16, width - 1);
      assert DigitValue(s[|s| - 1]) == n % 16;
      ParseHexOfHex(n / 16, width - 1);
    }
  }

  /** Hyphenates 32 hexadecimal digits into the 8-4-4-4-12 groups of `str(uuid.UUID)`. */
  function Group(h: string): (s: string)
    requires |h| == 32
    ensures |s| == 36
    ensures s[8] == '-' && s[13] == '-' && s[18] == '-' && s[23] == '-'
  {
    h[..8] + "-" + h[8..12] + "-" + h[12..16] + "-" + h[16..20] + "-" + h[20..]
  }

  /** Removing the four hyphens gives the digits back. */
  lemma UngroupGroup(h: string)
    requires |h| == 32
    ensures var s := Group(h); s[..8] + s[9..13] + s[14..18] + s[19..23] + s[24..] == h
  {
    var s := Group(h);
    assert s[..8] == h[..8];
    assert s[9..13] == h[8..12];
    assert s[14..18] == h[12..16];
    assert s[19..23] == h[16..20];
    assert s[24..] == h[20..];
    assert h == h[..8] + h[8..12] + h[12..16] + h[16..20] + h[20..];
  }

  /** `str(u)`. */
  function UuidStr(u: Uuid): (s: string)
    ensures |s| == 36
  {
    Group(Hex(u, 32))
  }

  /** Distinct UUIDs have distinct text forms, so a message quoting one names it. */
  lemma UuidStrInjective(a: Uuid, b: Uuid)
    ensures UuidStr(a) == UuidStr(b) ==> a == b
  {
    UngroupGroup(Hex(a, 32));
    UngroupGroup(Hex(b, 32));
    ParseHexOfHex(a, 32);
    ParseHexOfHex(b, 32);
  }
}
