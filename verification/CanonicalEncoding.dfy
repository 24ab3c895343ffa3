/**
 The length-prefixed canonical text that the SDK fingerprint is computed from.  Strings are sequences of
 UTF-16 code units, and each field is prefixed with the length of its UTF-8 form.
 */
module CanonicalEncoding {
  type CodeUnit = n: int | 0 <= n < 0x10000

  const COLON: CodeUnit := 58
  const ZERO: CodeUnit := 48

  predicate HighSurrogate(c: CodeUnit) { 0xD800 <= c < 0xDC00 }
  predicate LowSurrogate(c: CodeUnit) { 0xDC00 <= c < 0xE000 }

  predicate StartsWithPair(s: seq<CodeUnit>) {
    |s| >= 2 && HighSurrogate(s[0]) && LowSurrogate(s[1])
  }

  /** UTF-8 bytes of a code unit on its own; an unpaired surrogate becomes U+FFFD. */
  function UnitBytes(c: CodeUnit): nat {
    if c < 0x80 then 1 else if c < 0x800 then 2 else 3
  }

  function Utf8Length(s: seq<CodeUnit>): nat
    decreases |s|
  {
    if s == [] then 0
    else if StartsWithPair(s) then 4 + Utf8Length(s[2..])
    else UnitBytes(s[0]) + Utf8Length(s[1..])
  }

  function Decimal(n: nat): seq<CodeUnit> {
    (if n < 10 then [] else Decimal(n / 10)) + [ZERO + n % 10]
  }

  function EncodeField(field: seq<CodeUnit>): seq<CodeUnit> {
    Decimal(Utf8Length(field)) + [COLON] + field
  }

  function Encode(fields: seq<seq<CodeUnit>>): seq<CodeUnit> {
    if fields == [] then [] else EncodeField(fields[0]) + Encode(fields[1..])
  }

  lemma {:induction false} EncodeAppend(fields: seq<seq<CodeUnit>>, field: seq<CodeUnit>)
    ensures Encode(fields + [field]) == Encode(fields) + EncodeField(field)
    decreases |fields|
  {
    if fields == [] {
      assert [field][1..] == [];
      assert EncodeField(field) + [] == EncodeField(field);
    } else {
      assert (fields + [field])[1..] == fields[1..] + [field];
      EncodeAppend(fields[1..], field);
    }
  }

  method EncodeCanonical(fields: seq<seq<CodeUnit>>) returns (canonical: seq<CodeUnit>)
    ensures canonical == Encode(fields)
  {
    canonical := [];
    for i := 0 to |fields|
      invariant canonical == Encode(fields[..i])
    {
      var value := fields[i];
      var length := Utf8Length(value);
      EncodeAppend(fields[..i], value);
      assert fields[..i] + [value] == fields[..i + 1];
      canonical := canonical + (Decimal(length) + [COLON] + value);
    }
    assert fields[..|fields|] == fields;
  }

  /** Every longer string has more UTF-8 bytes, even when it completes a surrogate pair. */
  lemma {:induction false} LengthGrows(s: seq<CodeUnit>, t: seq<CodeUnit>)
    requires s < t
    ensures Utf8Length(s) < Utf8Length(t)
    decreases |t|
  {
    if s != [] {
      if StartsWithPair(t) {
        if |s| >= 2 {
          assert StartsWithPair(s);
          LengthGrows(s[2..], t[2..]);
        } else {
          assert s[1..] == [];
        }
      } else {
        assert s[0] == t[0] && !StartsWithPair(s);
        LengthGrows(s[1..], t[1..]);
      }
    }
  }

  function Value(digits: seq<CodeUnit>): int {
    if digits == [] then 0 else Value(digits[..|digits| - 1]) * 10 + (digits[|digits| - 1] - ZERO)
  }

  lemma {:induction false} DecimalReadsBack(n: nat)
    ensures Value(Decimal(n)) == n && COLON !in Decimal(n)
    decreases n
  {
    var digits := Decimal(n);
    if n < 10 {
      assert digits[..|digits| - 1] == [];
    } else {
      assert digits[..|digits| - 1] == Decimal(n / 10);
      DecimalReadsBack(n / 10);
    }
  }

  lemma ColonInside(a: seq<CodeUnit>, r: seq<CodeUnit>, b: seq<CodeUnit>, q: seq<CodeUnit>)
    requires a + [COLON] + r == b + [COLON] + q && |a| < |b|
    ensures COLON in b
  {
    assert b[|a|] == (a + [COLON] + r)[|a|];
  }

  /** A text has one part before its first colon. */
  lemma OneSplit(a: seq<CodeUnit>, r: seq<CodeUnit>, b: seq<CodeUnit>, q: seq<CodeUnit>)
    requires COLON !in a && COLON !in b
    requires a + [COLON] + r == b + [COLON] + q
    ensures a == b && r == q
  {
    var text := a + [COLON] + r;
    if |a| < |b| { ColonInside(a, r, b, q); }
    if |b| < |a| { ColonInside(b, q, a, r); }
    assert a == text[..|a|] && b == text[..|b|];
    assert r == text[|a| + 1..] && q == text[|b| + 1..];
  }

  /** Two prefixes of one text with the same UTF-8 length are the same string. */
  lemma SameLengthPrefix(f: seq<CodeUnit>, r: seq<CodeUnit>, g: seq<CodeUnit>, q: seq<CodeUnit>)
    requires f + r == g + q && Utf8Length(f) == Utf8Length(g)
    ensures f == g && r == q
  {
    var text := f + r;
    assert f == text[..|f|] && g == text[..|g|];
    if |f| < |g| { LengthGrows(f, g); }
    if |g| < |f| { LengthGrows(g, f); }
    assert r == text[|f|..] && q == text[|g|..];
  }

  /** The first field of a text can be read off it. */
  lemma OneField(f: seq<CodeUnit>, r: seq<CodeUnit>, g: seq<CodeUnit>, q: seq<CodeUnit>)
    requires EncodeField(f) + r == EncodeField(g) + q
    ensures f == g && r == q
  {
    var n, m := Utf8Length(f), Utf8Length(g);
    DecimalReadsBack(n);
    DecimalReadsBack(m);
    assert EncodeField(f) + r == Decimal(n) + [COLON] + (f + r);
    assert EncodeField(g) + q == Decimal(m) + [COLON] + (g + q);
    OneSplit(Decimal(n), f + r, Decimal(m), g + q);
    SameLengthPrefix(f, r, g, q);
  }

  /** Distinct field sequences, of whatever lengths, never share a canonical text. */
  lemma {:induction false} EncodingIsInjective(xs: seq<seq<CodeUnit>>, ys: seq<seq<CodeUnit>>)
    requires Encode(xs) == Encode(ys)
    ensures xs == ys
    decreases |xs|
  {
    if xs != [] && ys != [] {
      OneField(xs[0], Encode(xs[1..]), ys[0], Encode(ys[1..]));
      EncodingIsInjective(xs[1..], ys[1..]);
      assert xs == [xs[0]] + xs[1..] && ys == [ys[0]] + ys[1..];
    }
  }
}
