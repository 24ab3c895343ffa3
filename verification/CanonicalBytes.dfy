/**
 The bytes that are hashed: the UTF-8 form of the canonical text, in which every unpaired surrogate has become
 U+FFFD.  Two field sequences give the same bytes exactly if they are equal after that replacement.
 */
module CanonicalBytes {
  import opened CanonicalEncoding

  type Byte = n: int | 0 <= n < 0x100

  const REPLACEMENT: CodeUnit := 0xFFFD

  /** How many code units the first character takes. */
  function Width(s: seq<CodeUnit>): nat
    requires s != []
  {
    if StartsWithPair(s) then 2 else 1
  }

  function Sanitized(c: CodeUnit): CodeUnit {
    if HighSurrogate(c) || LowSurrogate(c) then REPLACEMENT else c
  }

  /** The first character, an unpaired surrogate replaced. */
  function CleanHead(s: seq<CodeUnit>): seq<CodeUnit>
    requires s != []
  {
    if StartsWithPair(s) then s[..2] else [Sanitized(s[0])]
  }

  function Clean(s: seq<CodeUnit>): seq<CodeUnit>
    decreases |s|
  {
    if s == [] then [] else CleanHead(s) + Clean(s[Width(s)..])
  }

  /** UTF-8 of one scalar value (RFC 3629 section 3). */
  function ScalarBytes(v: nat): seq<Byte>
    requires v < 0x110000
  {
    if v < 0x80 then [v]
    else if v < 0x800 then [0xC0 + v / 0x40, 0x80 + v % 0x40]
    else if v < 0x10000 then [0xE0 + v / 0x1000, 0x80 + v / 0x40 % 0x40, 0x80 + v % 0x40]
    else [0xF0 + v / 0x40000, 0x80 + v / 0x1000 % 0x40, 0x80 + v / 0x40 % 0x40, 0x80 + v % 0x40]
  }

  function ScalarOf(s: seq<CodeUnit>): nat
    requires s != []
    ensures ScalarOf(s) < 0x110000
    ensures ScalarOf(s) >= 0x10000 <==> StartsWithPair(s)
  {
    if StartsWithPair(s) then 0x10000 + (s[0] - 0xD800) * 0x400 + (s[1] - 0xDC00) else Sanitized(s[0])
  }

  function Utf8(s: seq<CodeUnit>): seq<Byte>
    decreases |s|
  {
    if s == [] then [] else ScalarBytes(ScalarOf(s)) + Utf8(s[Width(s)..])
  }

  /** The lengths in the canonical text are the lengths of these bytes. */
  lemma {:induction false} Utf8HasLength(s: seq<CodeUnit>)
    ensures |Utf8(s)| == Utf8Length(s)
    decreases |s|
  {
    if s != [] { Utf8HasLength(s[Width(s)..]); }
  }

  /** Before the first colon stands, in decimal digits, how many bytes the field has. */
  lemma {:induction false} FieldLengthIsWritten(field: seq<CodeUnit>) returns (digits: seq<CodeUnit>)
    ensures EncodeField(field) == digits + [COLON] + field && COLON !in digits
    ensures Value(digits) == |Utf8(field)| && digits != []
    ensures forall i :: 0 <= i < |digits| ==> ZERO <= digits[i] <= ZERO + 9
  {
    digits := Decimal(Utf8Length(field));
    Utf8HasLength(field);
    DecimalReadsBack(Utf8Length(field));
    DecimalIsDigits(Utf8Length(field));
  }

  lemma {:induction false} DecimalIsDigits(n: nat)
    ensures Decimal(n) != [] && forall i :: 0 <= i < |Decimal(n)| ==> ZERO <= Decimal(n)[i] <= ZERO + 9
    decreases n
  {
    if n >= 10 { DecimalIsDigits(n / 10); }
  }

  // ----- bytes and clean text say the same

  function LeadLength(b: Byte): nat {
    if b < 0x80 then 1 else if b < 0xE0 then 2 else if b < 0xF0 then 3 else 4
  }

  lemma LeadTells(v: nat)
    requires v < 0x110000
    ensures |ScalarBytes(v)| == LeadLength(ScalarBytes(v)[0])
  {}

  /** Reading a scalar back from its bytes. */
  function ScalarFrom(b: seq<Byte>): int
    requires 1 <= |b| <= 4
  {
    if |b| == 1 then b[0]
    else if |b| == 2 then (b[0] as int - 0xC0) * 0x40 + (b[1] as int - 0x80)
    else if |b| == 3 then (b[0] as int - 0xE0) * 0x1000 + (b[1] as int - 0x80) * 0x40 + (b[2] as int - 0x80)
    else (b[0] as int - 0xF0) * 0x40000 + (b[1] as int - 0x80) * 0x1000 + (b[2] as int - 0x80) * 0x40 + (b[3] as int - 0x80)
  }

  lemma Digits(v: nat)
    ensures v / 0x1000 == v / 0x40 / 0x40 && v / 0x40000 == v / 0x40 / 0x40 / 0x40
  {}

  lemma ScalarReadsBack(v: nat)
    requires v < 0x110000
    ensures ScalarFrom(ScalarBytes(v)) == v
  {
    Digits(v);
  }

  lemma ScalarsAgree(v: nat, r: seq<Byte>, w: nat, q: seq<Byte>)
    requires v < 0x110000 && w < 0x110000
    requires ScalarBytes(v) + r == ScalarBytes(w) + q
    ensures v == w && r == q
  {
    var bytes := ScalarBytes(v) + r;
    LeadTells(v);
    LeadTells(w);
    assert bytes[0] == ScalarBytes(v)[0] == ScalarBytes(w)[0];
    var n := |ScalarBytes(v)|;
    assert ScalarBytes(v) == bytes[..n] && ScalarBytes(w) == bytes[..n];
    assert r == bytes[n..] && q == bytes[n..];
    ScalarReadsBack(v);
    ScalarReadsBack(w);
  }

  lemma HeadFromScalar(s: seq<CodeUnit>, t: seq<CodeUnit>)
    requires s != [] && t != []
    ensures ScalarOf(s) == ScalarOf(t) <==> CleanHead(s) == CleanHead(t)
  {
    if StartsWithPair(s) && StartsWithPair(t) {
      assert s[..2] == [s[0], s[1]] && t[..2] == [t[0], t[1]];
    } else if StartsWithPair(s) || StartsWithPair(t) {
      assert |CleanHead(s)| != |CleanHead(t)|;
    }
  }

  lemma {:induction false} SameBytes(s: seq<CodeUnit>, t: seq<CodeUnit>)
    requires Utf8(s) == Utf8(t)
    ensures Clean(s) == Clean(t)
    decreases |s|
  {
    if s != [] && t != [] {
      ScalarsAgree(ScalarOf(s), Utf8(s[Width(s)..]), ScalarOf(t), Utf8(t[Width(t)..]));
      HeadFromScalar(s, t);
      SameBytes(s[Width(s)..], t[Width(t)..]);
    }
  }

  /** A clean text is one: the first character of a cleaned text is the cleaned first character. */
  lemma CleanFirst(s: seq<CodeUnit>)
    requires s != []
    ensures Clean(s) != [] && Width(Clean(s)) == Width(s)
    ensures CleanHead(Clean(s)) == CleanHead(s) && Clean(s)[Width(s)..] == Clean(s[Width(s)..])
  {
    var head, rest := CleanHead(s), Clean(s[Width(s)..]);
    assert Clean(s) == head + rest && |head| == Width(s);
    assert Clean(s)[0] == head[0];
    if StartsWithPair(s) { assert Clean(s)[1] == s[1] && Clean(s)[..2] == s[..2]; }
    assert Clean(s)[Width(s)..] == rest;
  }

  lemma {:induction false} CleanKeepsBytes(s: seq<CodeUnit>)
    ensures Utf8(Clean(s)) == Utf8(s) && Utf8Length(Clean(s)) == Utf8Length(s)
    decreases |s|
  {
    if s != [] {
      CleanFirst(s);
      HeadFromScalar(Clean(s), s);
      CleanKeepsBytes(s[Width(s)..]);
      Utf8HasLength(Clean(s));
      Utf8HasLength(s);
    }
  }

  // ----- the canonical text

  ghost predicate NoPairCut(a: seq<CodeUnit>, b: seq<CodeUnit>) {
    b == [] || !LowSurrogate(b[0]) || a == [] || !HighSurrogate(a[|a| - 1])
  }

  lemma SameHead(a: seq<CodeUnit>, b: seq<CodeUnit>)
    requires a != [] && NoPairCut(a, b)
    ensures Width(a + b) == Width(a) && CleanHead(a + b) == CleanHead(a)
    ensures (a + b)[Width(a)..] == a[Width(a)..] + b && NoPairCut(a[Width(a)..], b)
  {
    var ab := a + b;
    assert ab[0] == a[0];
    if |a| >= 2 {
      assert ab[1] == a[1];
      assert ab[..2] == a[..2];
    }
  }

  /** Cleaning two texts apart, where no pair is cut. */
  lemma {:induction false} CleanParts(a: seq<CodeUnit>, b: seq<CodeUnit>)
    requires NoPairCut(a, b)
    ensures Clean(a + b) == Clean(a) + Clean(b)
    decreases |a|
  {
    if a == [] {
      assert a + b == b;
    } else {
      SameHead(a, b);
      CleanParts(a[Width(a)..], b);
    }
  }

  predicate Plain(s: seq<CodeUnit>) {
    forall i :: 0 <= i < |s| ==> s[i] < 0xD800
  }

  lemma {:induction false} CleanPlain(s: seq<CodeUnit>)
    requires Plain(s)
    ensures Clean(s) == s
    decreases |s|
  {
    if s != [] {
      CleanPlain(s[1..]);
      assert [s[0]] + s[1..] == s;
    }
  }

  lemma {:induction false} DecimalIsPlain(n: nat)
    ensures Plain(Decimal(n)) && Decimal(n) != []
    decreases n
  {
    if n >= 10 { DecimalIsPlain(n / 10); }
  }

  lemma CleanField(field: seq<CodeUnit>)
    ensures Clean(EncodeField(field)) == EncodeField(Clean(field))
    ensures EncodeField(field) != [] && !LowSurrogate(EncodeField(field)[0])
  {
    var prefix := Decimal(Utf8Length(field)) + [COLON];
    DecimalIsPlain(Utf8Length(field));
    CleanPlain(prefix);
    CleanParts(prefix, field);
    CleanKeepsBytes(field);
    assert EncodeField(field)[0] == prefix[0];
  }

  function CleanAll(fields: seq<seq<CodeUnit>>): seq<seq<CodeUnit>> {
    seq(|fields|, i requires 0 <= i < |fields| => Clean(fields[i]))
  }

  lemma {:induction false} CleanEncoding(fields: seq<seq<CodeUnit>>)
    ensures Clean(Encode(fields)) == Encode(CleanAll(fields))
    decreases |fields|
  {
    if fields != [] {
      CleanField(fields[0]);
      CleanEncoding(fields[1..]);
      if |fields| > 1 { CleanField(fields[1]); }
      CleanParts(EncodeField(fields[0]), Encode(fields[1..]));
      assert CleanAll(fields)[0] == Clean(fields[0]);
      assert CleanAll(fields)[1..] == CleanAll(fields[1..]);
    }
  }

  /**
   The hashed bytes of two field sequences are equal exactly if the sequences are equal once every unpaired
   surrogate is replaced by U+FFFD.
   */
  lemma HashedBytesExactly(xs: seq<seq<CodeUnit>>, ys: seq<seq<CodeUnit>>)
    ensures Utf8(Encode(xs)) == Utf8(Encode(ys)) <==> CleanAll(xs) == CleanAll(ys)
  {
    CleanEncoding(xs);
    CleanEncoding(ys);
    if Utf8(Encode(xs)) == Utf8(Encode(ys)) {
      SameBytes(Encode(xs), Encode(ys));
      EncodingIsInjective(CleanAll(xs), CleanAll(ys));
    }
    CleanKeepsBytes(Encode(xs));
    CleanKeepsBytes(Encode(ys));
  }

  /** So texts can collide, each with one field: an unpaired surrogate and U+FFFD itself. */
  lemma LoneSurrogateCollides() returns (xs: seq<seq<CodeUnit>>, ys: seq<seq<CodeUnit>>)
    ensures xs == [[0xD800]] && ys == [[REPLACEMENT]] && Encode(xs) != Encode(ys)
    ensures Utf8(Encode(xs)) == Utf8(Encode(ys))
  {
    xs, ys := [[0xD800]], [[REPLACEMENT]];
    HashedBytesExactly(xs, ys);
    assert Clean([0xD800]) == [REPLACEMENT] == Clean([REPLACEMENT]);
    assert CleanAll(xs) == CleanAll(ys);
    if Encode(xs) == Encode(ys) { EncodingIsInjective(xs, ys); }
  }
}
