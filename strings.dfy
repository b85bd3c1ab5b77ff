/**
 * String helpers that the survey code takes from JavaScript's String.prototype:
 * trim, toLowerCase and startsWith, and the SHA-256 wrapper of src/utils/hash.js,
 * which normalises its input before hashing.
 */
module Strings {

  /** The characters ECMAScript's trim() removes: WhiteSpace and LineTerminator. */
  predicate IsSpace(c: char): (b: bool)
    ensures c == ' ' || c == '\t' || c == '\n' || c == '\r' ==> b
    ensures 'a' <= c <= 'z' || 'A' <= c <= 'Z' || '0' <= c <= '9' ==> !b
  {
    || c == ' ' || c == '\t' || c == '\n' || c == '\r'
    || c == '\U{000B}' || c == '\U{000C}' || c == '\U{00A0}' || c == '\U{FEFF}'
    || c == '\U{1680}' || ('\U{2000}' <= c <= '\U{200A}')
    || c == '\U{2028}' || c == '\U{2029}' || c == '\U{202F}' || c == '\U{205F}' || c == '\U{3000}'
  }

  /** s without its leading whitespace. */
  function TrimStart(s: string): (r: string)
    ensures |r| <= |s| && r == s[|s| - |r|..]
    ensures forall j :: 0 <= j < |s| - |r| ==> IsSpace(s[j])
    ensures r != [] ==> !IsSpace(r[0])
  {
    if s != [] && IsSpace(s[0]) then TrimStart(s[1..]) else s
  }

  /** s without its trailing whitespace. */
  function TrimEnd(s: string): (r: string)
    ensures |r| <= |s| && r == s[..|r|]
    ensures forall j :: |r| <= j < |s| ==> IsSpace(s[j])
    ensures r != [] ==> !IsSpace(r[|r| - 1])
  {
    if s != [] && IsSpace(s[|s| - 1]) then TrimEnd(s[..|s| - 1]) else s
  }

  /**
   * String.prototype.trim: the result neither starts nor ends with
   * whitespace; TrimIsSlice shows that only whitespace is cut from s.
   */
  function Trim(s: string): (r: string)
    ensures |r| <= |s|
    ensures r == [] || (!IsSpace(r[0]) && !IsSpace(r[|r| - 1]))
  {
    var r := TrimEnd(TrimStart(s));
    assert r != [] ==> r[0] == TrimStart(s)[0];
    r
  }

  /** What trim cuts: the result is a contiguous part of the input with only whitespace on either side. */
  lemma TrimIsSlice(s: string)
    ensures exists a :: 0 <= a <= |s| - |Trim(s)| && Trim(s) == s[a..][..|Trim(s)|]
                        && (forall j :: 0 <= j < a ==> IsSpace(s[j]))
                        && (forall j :: a + |Trim(s)| <= j < |s| ==> IsSpace(s[j]))
  {
    var t := TrimStart(s);
    var a := |s| - |t|;
    var r := Trim(s);
    assert r == TrimEnd(t) && t == s[a..] && r == t[..|r|];
    assert r == s[a..][..|r|];
    forall j | a + |r| <= j < |s| ensures IsSpace(s[j]) {
      assert s[j] == t[j - a];
    }
  }

  /** toLowerCase on one character; only the ASCII letters A-Z are folded. */
  function LowerChar(c: char): (d: char)
    ensures IsSpace(d) <==> IsSpace(c)
    ensures 'A' <= c <= 'Z' ==> 'a' <= d <= 'z' && d as int - c as int == 32
    ensures !('A' <= c <= 'Z') ==> d == c
  {
    if 'A' <= c <= 'Z' then (c as int + 32) as char else c
  }

  /** String.prototype.toLowerCase, restricted to ASCII letters. */
  function Lower(s: string): (r: string)
    ensures |r| == |s|
    ensures forall j :: 0 <= j < |s| ==> r[j] == LowerChar(s[j])
  {
    seq(|s|, j requires 0 <= j < |s| => LowerChar(s[j]))
  }

  /** String.prototype.startsWith. */
  predicate StartsWith(s: string, prefix: string): (b: bool)
    ensures b <==> |prefix| <= |s| && forall j :: 0 <= j < |prefix| ==> s[j] == prefix[j]
    ensures b ==> s == prefix + s[|prefix|..]
  {
    |prefix| <= |s| && s[..|prefix|] == prefix
  }

  /**
   * The hash wrapper: it trims and lower-cases its argument, then applies the
   * digest. `digest` stands for crypto-js's SHA-256, which is not modelled.
   * Normalising the argument beforehand, as a caller may, changes no hash.
   */
  function Sha256(digest: string -> string, s: string): (h: string)
    ensures h == digest(Lower(Trim(Lower(Trim(s)))))
  {
    NormalizeIdempotent(s);
    digest(Lower(Trim(s)))
  }

  lemma LowerIdempotent(s: string)
    ensures Lower(Lower(s)) == Lower(s)
  {
  }

  lemma {:induction false} TrimStartLower(s: string)
    ensures TrimStart(Lower(s)) == Lower(TrimStart(s))
  {
    if s != [] && IsSpace(s[0]) {
      assert Lower(s)[1..] == Lower(s[1..]);
      TrimStartLower(s[1..]);
    }
  }

  lemma {:induction false} TrimEndLower(s: string)
    ensures TrimEnd(Lower(s)) == Lower(TrimEnd(s))
  {
    if s != [] && IsSpace(s[|s| - 1]) {
      assert Lower(s)[..|s| - 1] == Lower(s[..|s| - 1]);
      TrimEndLower(s[..|s| - 1]);
    }
  }

  /** Trimming and lower-casing commute: lower-casing never creates or removes whitespace. */
  lemma TrimLowerCommute(s: string)
    ensures Trim(Lower(s)) == Lower(Trim(s))
  {
    TrimStartLower(s);
    TrimEndLower(TrimStart(s));
  }

  lemma {:induction false} TrimIdempotent(s: string)
    ensures Trim(Trim(s)) == Trim(s)
  {
    var t := Trim(s);
    assert t == [] || (!IsSpace(t[0]) && !IsSpace(t[|t| - 1])) by {
      var u := TrimStart(s);
      if t != [] {
        assert t[0] == u[0];
      }
    }
  }

  /** The wrapper's normalisation is idempotent, so hashing an already normalised string changes nothing. */
  lemma NormalizeIdempotent(s: string)
    ensures Lower(Trim(Lower(Trim(s)))) == Lower(Trim(s))
  {
    TrimLowerCommute(Trim(s));
    TrimIdempotent(s);
    LowerIdempotent(Trim(s));
  }

  /**
   * Strings that differ only in ASCII letter case hash alike: the wrapper
   * lower-cases whatever it is given.
   */
  lemma {:induction false} Sha256CaseInsensitive(digest: string -> string, a: string, b: string)
    requires Lower(a) == Lower(b)
    ensures Sha256(digest, a) == Sha256(digest, b)
  {
    TrimLowerCommute(a);
    TrimLowerCommute(b);
  }
}
