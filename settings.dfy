/**
 * Application settings: the security defaults and the `BACKEND_CORS_ORIGINS`
 * validator, which turns a comma-separated string into a list of origins.
 * The validator appears twice in the repository, in `core/settings.py` and,
 * character for character, in `core/config.py`; both are `AssembleCorsOrigins`.
 */
module Settings {
  import opened Wrappers

  /** Lifetime of an access token, in minutes. */
  const AccessTokenExpireMinutes: int := 30

  /** The JWS algorithm tokens are signed with: HMAC using SHA-256 (RFC 7518, section 3.2). */
  const Algorithm: string := "HS256"

  /** Python's `str.isspace` for one character: the Unicode whitespace characters. */
  predicate IsSpace(c: char) {
    var n := c as int;
    || 0x09 <= n <= 0x0d || 0x1c <= n <= 0x20 || n == 0x85 || n == 0xa0 || n == 0x1680
    || 0x2000 <= n <= 0x200a || n == 0x2028 || n == 0x2029 || n == 0x202f || n == 0x205f
    || n == 0x3000
  }

  /** `s.lstrip()`: drops the leading whitespace and nothing else. */
  function TrimLeft(s: string): (r: string)
    ensures |r| <= |s| && r == s[|s| - |r|..]
    ensures forall i :: 0 <= i < |s| - |r| ==> IsSpace(s[i])
    ensures r == [] || !IsSpace(r[0])
  {
    if s != [] && IsSpace(s[0]) then TrimLeft(s[1..]) else s
  }

  /** `s.rstrip()`: drops the trailing whitespace and nothing else. */
  function TrimRight(s: string): (r: string)
    ensures |r| <= |s| && r == s[..|r|]
    ensures forall i :: |r| <= i < |s| ==> IsSpace(s[i])
    ensures r == [] || !IsSpace(r[|r| - 1])
  {
    if s != [] && IsSpace(s[|s| - 1]) then TrimRight(s[..|s| - 1]) else s
  }

  /**
   * `s.strip()`: removes the whitespace at both ends and keeps the rest, that is
   * a slice of `s` with only whitespace before and after it.
   */
  function Strip(s: string): (r: string)
    ensures forall c :: c in r ==> c in s
    ensures r == [] || (!IsSpace(r[0]) && !IsSpace(r[|r| - 1]))
    ensures exists i, j :: StrippedSlice(s, i, j, r)
  {
    var l := TrimLeft(s);
    var r := TrimRight(l);
    TrimmedIsSlice(s, l, r);
    r
  }

  /** Trimming the left end, then the right end, leaves a slice of `s` between whitespace. */
  lemma TrimmedIsSlice(s: string, l: string, r: string)
    requires |l| <= |s| && l == s[|s| - |l|..] && (forall k :: 0 <= k < |s| - |l| ==> IsSpace(s[k]))
    requires |r| <= |l| && r == l[..|r|] && (forall k :: |r| <= k < |l| ==> IsSpace(l[k]))
    requires l == [] || !IsSpace(l[0])
    requires r == [] || !IsSpace(r[|r| - 1])
    ensures StrippedSlice(s, |s| - |l|, |s| - |l| + |r|, r)
    ensures forall c :: c in r ==> c in s
    ensures r == [] || (!IsSpace(r[0]) && !IsSpace(r[|r| - 1]))
  {
    assert r != [] ==> r[0] == l[0];
    var i, j := |s| - |l|, |s| - |l| + |r|;
    assert r == s[i..j];
    forall k | j <= k < |s| ensures IsSpace(s[k]) {
      assert s[k] == l[k - i];
    }
    forall c | c in r ensures c in s {
      var m :| 0 <= m < |r| && r[m] == c;
      assert s[i + m] == c;
    }
  }

  /** `r` is `s[i..j]`, and everything of `s` before `i` and from `j` on is whitespace. */
  predicate StrippedSlice(s: string, i: int, j: int, r: string) {
    && 0 <= i <= j <= |s| && r == s[i..j]
    && (forall k :: 0 <= k < i ==> IsSpace(s[k]))
    && (forall k :: j <= k < |s| ==> IsSpace(s[k]))
  }

  /** The number of commas in `s`. */
  function CommaCount(s: string): nat {
    if s == [] then 0 else (if s[0] == ',' then 1 else 0) + CommaCount(s[1..])
  }

  /** `s.split(",")`: the pieces between commas, kept even when empty. */
  function Split(s: string): (parts: seq<string>)
    ensures |parts| == CommaCount(s) + 1
  {
    if s == [] then [""]
    else
      var rest := Split(s[1..]);
      if s[0] == ',' then [""] + rest else [[s[0]] + rest[0]] + rest[1..]
  }

  /** `",".join(parts)`. */
  function Join(parts: seq<string>): string
    requires |parts| >= 1
  {
    if |parts| == 1 then parts[0] else parts[0] + "," + Join(parts[1..])
  }

  /** No piece of a split contains the separator. */
  lemma {:induction false} SplitPiecesHaveNoComma(s: string)
    ensures forall i :: 0 <= i < |Split(s)| ==> ',' !in Split(s)[i]
  {
    if s != [] {
      SplitPiecesHaveNoComma(s[1..]);
    }
  }

  /** Joining the pieces with commas gives the string back. */
  lemma {:induction false} JoinSplit(s: string)
    ensures Join(Split(s)) == s
  {
    if s != [] {
      JoinSplit(s[1..]);
      var rest := Split(s[1..]);
      if s[0] != ',' && |rest| > 1 {
        assert Join(rest) == rest[0] + "," + Join(rest[1..]);
        assert ([[s[0]] + rest[0]] + rest[1..])[1..] == rest[1..];
      }
    }
  }

  /** Splitting a join of comma-free pieces gives the pieces back. */
  lemma {:induction false} SplitJoin(parts: seq<string>)
    requires |parts| >= 1
    requires forall i :: 0 <= i < |parts| ==> ',' !in parts[i]
    ensures Split(Join(parts)) == parts
  {
    if |parts| == 1 {
      SplitOfCommaFree(parts[0], []);
    } else {
      SplitJoin(parts[1..]);
      SplitOfCommaFree(parts[0], parts[1..]);
    }
  }

  /** Splitting a comma-free prefix followed by "," and a tail. */
  lemma {:induction false} SplitOfCommaFree(p: string, tail: seq<string>)
    requires ',' !in p
    requires |tail| >= 1 ==> Split(Join(tail)) == tail
    ensures tail == [] ==> Split(p) == [p]
    ensures |tail| >= 1 ==> Split(p + "," + Join(tail)) == [p] + tail
  {
    if p != [] {
      SplitOfCommaFree(p[1..], tail);
      assert [p[0]] + p[1..] == p;
      if |tail| >= 1 {
        var t := p + "," + Join(tail);
        assert t[0] == p[0] && t[1..] == p[1..] + "," + Join(tail);
        assert Split(t[1..]) == [p[1..]] + tail;
      } else {
        assert Split(p[1..]) == [p[1..]];
      }
    } else if |tail| >= 1 {
      var t := "" + "," + Join(tail);
      assert t[0] == ',' && t[1..] == Join(tail);
    }
  }

  /** The raw value given for `BACKEND_CORS_ORIGINS`. */
  datatype CorsInput = Text(s: string) | Items(xs: seq<string>) | Other

  /** What the validator hands on: a list of origins, or a string for the next parser. */
  datatype CorsOrigins = Origins(list: seq<string>) | Verbatim(s: string)

  predicate StartsWithBracket(s: string) {
    |s| > 0 && s[0] == '['
  }

  /** Strips every piece. */
  function StripAll(parts: seq<string>): (r: seq<string>)
    ensures |r| == |parts|
    ensures forall i :: 0 <= i < |r| ==> r[i] == Strip(parts[i])
  {
    seq(|parts|, i requires 0 <= i < |parts| => Strip(parts[i]))
  }

  /**
   * The `assemble_cors_origins` validator. A string that does not start with
   * "[" becomes its comma-separated pieces, each stripped; a "["-string or a
   * list is passed on unchanged; anything else raises `ValueError(v)`.
   */
  function AssembleCorsOrigins(v: CorsInput): (r: Result<CorsOrigins, CorsInput>)
    ensures r.Err? <==> v.Other?
    ensures r.Err? ==> r.error == v
    ensures v.Items? ==> r == Ok(Origins(v.xs))
    ensures v.Text? && StartsWithBracket(v.s) ==> r == Ok(Verbatim(v.s))
    ensures v.Text? && !StartsWithBracket(v.s) ==>
      && r.Ok? && r.value.Origins?
      && |r.value.list| == CommaCount(v.s) + 1
      && forall i :: 0 <= i < |r.value.list| ==> r.value.list[i] == Strip(Split(v.s)[i])
  {
    match v
    case Text(s) => if !StartsWithBracket(s) then Ok(Origins(StripAll(Split(s)))) else Ok(Verbatim(s))
    case Items(xs) => Ok(Origins(xs))
    case Other => Err(v)
  }

  /**
   * Every origin the validator splits out is free of commas and of
   * surrounding whitespace.
   */
  lemma CorsOriginsAreCleanPieces(s: string)
    requires !StartsWithBracket(s)
    ensures var r := AssembleCorsOrigins(Text(s));
      forall i :: 0 <= i < |r.value.list| ==>
        var o := r.value.list[i];
        ',' !in o && (o == [] || (!IsSpace(o[0]) && !IsSpace(o[|o| - 1])))
  {
    SplitPiecesHaveNoComma(s);
  }

  /** Origins given one per comma come back as exactly those origins. */
  lemma CorsOfJoinedOrigins(origins: seq<string>)
    requires |origins| >= 1
    requires forall i :: 0 <= i < |origins| ==> ',' !in origins[i] && Strip(origins[i]) == origins[i]
    requires !StartsWithBracket(Join(origins))
    ensures AssembleCorsOrigins(Text(Join(origins))) == Ok(Origins(origins))
  {
    SplitJoin(origins);
    assert StripAll(Split(Join(origins))) == origins;
  }
}
