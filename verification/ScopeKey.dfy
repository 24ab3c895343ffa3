/**
 The file-name key of a service/environment scope.  A part may itself contain underscores, so the
 "__" separator does not always decode back: this module says exactly when it does.
 */
module ScopeKey {
  import opened Wrappers

  datatype Scope = Scope(service: string, environment: string)

  const SEPARATOR := "__"

  predicate PartStart(c: char) {
    'a' <= c <= 'z' || '0' <= c <= '9'
  }

  predicate PartChar(c: char) {
    PartStart(c) || c == '.' || c == '_' || c == '-'
  }

  predicate IsScopePart(value: string) {
    && 1 <= |value| <= 80
    && PartStart(value[0])
    && forall i :: 0 <= i < |value| ==> PartChar(value[i])
  }

  ghost predicate LetterOrDigit(code: int) {
    97 <= code <= 122 || 48 <= code <= 57
  }

  /** The parts in code points: a small letter or digit, then up to 79 of these, dots, underscores and hyphens. */
  lemma ScopePartMeans(value: string)
    ensures IsScopePart(value) <==>
            && 1 <= |value| <= 80
            && LetterOrDigit(value[0] as int)
            && forall i :: 0 <= i < |value| ==> LetterOrDigit(value[i] as int) || value[i] as int in {46, 95, 45}
  {}

  predicate ValidScope(scope: Scope) {
    IsScopePart(scope.service) && IsScopePart(scope.environment)
  }

  function Key(scope: Scope): string {
    scope.service + SEPARATOR + scope.environment
  }

  /** Splitting at each separator, leftmost first, as `String.prototype.split` does. */
  function Split(s: string): (parts: seq<string>)
    ensures |parts| > 0
  {
    if |s| < 2 then [s]
    else if s[0] == '_' && s[1] == '_' then [""] + Split(s[2..])
    else
      var rest := Split(s[1..]);
      [[s[0]] + rest[0]] + rest[1..]
  }

  /** A key without a separator leaves the environment undefined, which is no scope part. */
  function FromKey(key: string): Option<Scope> {
    var parts := Split(key);
    if |parts| != 2 || !IsScopePart(parts[0]) || !IsScopePart(parts[1]) then None
    else Some(Scope(parts[0], parts[1]))
  }

  ghost predicate HasSeparator(s: string) {
    exists i :: 0 <= i < |s| - 1 && SeparatorAt(s, i)
  }

  predicate SeparatorAt(s: string, i: nat) {
    i + 1 < |s| && s[i] == '_' && s[i + 1] == '_'
  }

  predicate EndsWithUnderscore(s: string) {
    |s| > 0 && s[|s| - 1] == '_'
  }

  /** The scopes whose key decodes. */
  ghost predicate Decodable(scope: Scope) {
    !HasSeparator(scope.service) && !HasSeparator(scope.environment) && !EndsWithUnderscore(scope.service)
  }

  lemma {:induction false} SplitWithoutSeparator(s: string)
    requires !HasSeparator(s)
    ensures Split(s) == [s]
    decreases |s|
  {
    if |s| >= 2 {
      assert !SeparatorAt(s, 0);
      forall i | 0 <= i < |s[1..]| - 1 ensures !SeparatorAt(s[1..], i) { assert !SeparatorAt(s, i + 1); }
      SplitWithoutSeparator(s[1..]);
      assert [s[0]] + s[1..] == s;
    }
  }

  lemma {:induction false} SplitAtFirst(s: string, rest: string)
    requires !HasSeparator(s) && !EndsWithUnderscore(s)
    ensures Split(s + SEPARATOR + rest) == [s] + Split(rest)
    decreases |s|
  {
    var t := s + SEPARATOR + rest;
    if s == [] {
      assert t[2..] == rest;
    } else {
      assert t[1..] == s[1..] + SEPARATOR + rest;
      assert t[0] == s[0];
      if |s| > 1 {
        assert !SeparatorAt(s, 0);
        assert t[1] == s[1];
      }
      forall i | 0 <= i < |s[1..]| - 1 ensures !SeparatorAt(s[1..], i) { assert !SeparatorAt(s, i + 1); }
      SplitAtFirst(s[1..], rest);
      assert [s[0]] + s[1..] == s;
    }
  }

  /** The first part is cut off at the leftmost separator. */
  lemma {:induction false} SplitHead(s: string)
    ensures var head := Split(s)[0];
            && !HasSeparator(head)
            && head <= s
            && (|Split(s)| == 1 ==> head == s)
            && (|Split(s)| > 1 ==>
                  && !EndsWithUnderscore(head)
                  && |head| + 2 <= |s|
                  && SeparatorAt(s, |head|)
                  && Split(s)[1..] == Split(s[|head| + 2..]))
    decreases |s|
  {
    if |s| >= 2 && !SeparatorAt(s, 0) {
      SplitHead(s[1..]);
      var rest := Split(s[1..]);
      var head := Split(s)[0];
      assert head[1..] == rest[0];
      forall i | 0 <= i < |head| - 1 ensures !SeparatorAt(head, i) {
        if i == 0 {
          assert rest[0][0] == s[1..][0];
        } else {
          assert !SeparatorAt(rest[0], i - 1);
        }
      }
      if |rest| > 1 {
        assert s[1..][|rest[0]| + 2..] == s[|head| + 2..];
        assert SeparatorAt(s[1..], |rest[0]|);
      }
    }
  }

  /** A decoded key is the key of what it decodes to. */
  lemma DecodeThenEncode(key: string)
    ensures FromKey(key).Some? ==>
              && ValidScope(FromKey(key).value)
              && Key(FromKey(key).value) == key
              && Decodable(FromKey(key).value)
  {
    if FromKey(key).Some? {
      var parts := Split(key);
      SplitHead(key);
      var tail := key[|parts[0]| + 2..];
      assert Split(tail) == [parts[1]];
      SplitHead(tail);
      assert key == parts[0] + SEPARATOR + tail;
    }
  }

  /** Cutting the same key earlier leaves underscores at the end of, or a separator in, the longer head. */
  lemma EarlierCut(a: string, b: string, c: string, d: string)
    requires a + SEPARATOR + b == c + SEPARATOR + d && |a| < |c|
    ensures HasSeparator(c) || EndsWithUnderscore(c)
  {
    var key := a + SEPARATOR + b;
    assert key[|a|] == '_' && key[|a| + 1] == '_';
    assert c == key[..|c|];
    if |a| + 1 < |c| {
      assert SeparatorAt(c, |a|);
    }
  }

  /** Seen from the other side, the longer tail holds a separator or starts with an underscore. */
  lemma LaterCut(a: string, b: string, c: string, d: string)
    requires a + SEPARATOR + b == c + SEPARATOR + d && |c| < |a|
    ensures HasSeparator(d) || (|d| > 0 && d[0] == '_')
  {
    var key := a + SEPARATOR + b;
    assert key[|a|] == '_' && key[|a| + 1] == '_';
    assert d == key[|c| + 2..];
    if |c| + 2 <= |a| {
      assert SeparatorAt(d, |a| - |c| - 2);
    }
  }

  lemma UniqueCut(a: string, b: string, c: string, d: string)
    requires a + SEPARATOR + b == c + SEPARATOR + d
    requires !HasSeparator(c) && !EndsWithUnderscore(c) && !HasSeparator(d)
    requires |d| > 0 && d[0] != '_'
    ensures a == c && b == d
  {
    var key := a + SEPARATOR + b;
    if |a| < |c| { EarlierCut(a, b, c, d); }
    if |c| < |a| { LaterCut(a, b, c, d); }
    assert a == key[..|a|] && c == key[..|c|];
    assert b == key[|a| + 2..] && d == key[|c| + 2..];
  }

  /**
   Decoding the key of a valid scope gives that scope or nothing, and gives it exactly when neither
   part contains the separator and the service does not end in an underscore.
   */
  lemma EncodeThenDecode(scope: Scope)
    requires ValidScope(scope)
    ensures FromKey(Key(scope)) == if Decodable(scope) then Some(scope) else None
  {
    var key := Key(scope);
    if Decodable(scope) {
      SplitAtFirst(scope.service, scope.environment);
      SplitWithoutSeparator(scope.environment);
    } else if FromKey(key).Some? {
      DecodeThenEncode(key);
      var got := FromKey(key).value;
      UniqueCut(scope.service, scope.environment, got.service, got.environment);
      assert false;
    }
  }

  // ----- which scopes share a file

  /** Cutting the key at a separator inside the service leaves two valid parts. */
  predicate CutsInService(scope: Scope, i: nat) {
    && 0 < i && i + 2 < |scope.service| && SeparatorAt(scope.service, i)
    && PartStart(scope.service[i + 2])
    && |scope.service| - i + |scope.environment| <= 80
  }

  /** Cutting the key at a separator inside the environment leaves two valid parts. */
  predicate CutsInEnvironment(scope: Scope, i: nat) {
    && 0 < i && i + 2 < |scope.environment| && SeparatorAt(scope.environment, i)
    && PartStart(scope.environment[i + 2])
    && |scope.service| + 2 + i <= 80
  }

  ghost predicate SharesKey(x: Scope, y: Scope) {
    ValidScope(y) && y != x && Key(y) == Key(x)
  }

  lemma PartOfParts(a: string, b: string)
    requires IsScopePart(a) && (forall i :: 0 <= i < |b| ==> PartChar(b[i])) && |a| + 2 + |b| <= 80
    ensures IsScopePart(a + SEPARATOR + b)
  {
    var joined := a + SEPARATOR + b;
    forall i | 0 <= i < |joined| ensures PartChar(joined[i]) {
      if i < |a| { assert joined[i] == a[i]; }
      else if i >= |a| + 2 { assert joined[i] == b[i - |a| - 2]; }
    }
  }

  /** A prefix of a part is one, and so is a suffix with a proper start. */
  lemma SliceOfPart(s: string, i: nat)
    requires IsScopePart(s) && i < |s|
    ensures 0 < i ==> IsScopePart(s[..i])
    ensures PartStart(s[i]) ==> IsScopePart(s[i..])
  {}

  lemma CutService(x: Scope, i: nat) returns (y: Scope)
    requires ValidScope(x) && CutsInService(x, i)
    ensures SharesKey(x, y) && |y.service| == i
  {
    var s, e := x.service, x.environment;
    SliceOfPart(s, i);
    SliceOfPart(s, i + 2);
    PartOfParts(s[i + 2..], e);
    y := Scope(s[..i], s[i + 2..] + SEPARATOR + e);
    assert s == s[..i] + SEPARATOR + s[i + 2..];
    assert Key(y) == s[..i] + SEPARATOR + s[i + 2..] + SEPARATOR + e;
  }

  lemma CutEnvironment(x: Scope, i: nat) returns (y: Scope)
    requires ValidScope(x) && CutsInEnvironment(x, i)
    ensures SharesKey(x, y) && |y.service| == |x.service| + 2 + i
  {
    var s, e := x.service, x.environment;
    SliceOfPart(e, i);
    SliceOfPart(e, i + 2);
    PartOfParts(s, e[..i]);
    y := Scope(s + SEPARATOR + e[..i], e[i + 2..]);
    assert e == e[..i] + SEPARATOR + e[i + 2..];
    assert Key(y) == s + SEPARATOR + (e[..i] + SEPARATOR + e[i + 2..]);
  }

  /** A scope with the same key and a shorter service is a cut in the service. */
  lemma ShorterService(x: Scope, y: Scope)
    requires ValidScope(x) && SharesKey(x, y) && |y.service| < |x.service|
    ensures CutsInService(x, |y.service|)
  {
    var key, i := Key(x), |y.service|;
    assert key == y.service + SEPARATOR + y.environment;
    assert key[i] == '_' && key[i + 1] == '_' && key[i + 2] == y.environment[0];
    assert key[|x.service|] == '_' && key[|x.service| + 1] == '_' && key[|x.service| + 2] == x.environment[0];
    assert forall k :: 0 <= k < |x.service| ==> key[k] == x.service[k];
  }

  /** One with a longer service is a cut in the environment. */
  lemma LongerService(x: Scope, y: Scope)
    requires ValidScope(x) && SharesKey(x, y) && |y.service| > |x.service|
    ensures |y.service| >= |x.service| + 2 && CutsInEnvironment(x, |y.service| - |x.service| - 2)
  {
    var key, n := Key(x), |x.service| + 2;
    ShorterService(y, x);
    assert key == y.service + SEPARATOR + y.environment;
    assert forall k :: 0 <= k < |x.environment| ==> key[n + k] == x.environment[k];
    assert key[n] == y.service[n];
    assert key[|y.service|] == '_' && key[|y.service| + 1] == '_' && key[|y.service| + 2] == y.environment[0];
  }

  lemma SameService(x: Scope, y: Scope)
    requires Key(x) == Key(y) && |x.service| == |y.service|
    ensures x == y
  {
    assert x.service == Key(x)[..|x.service|] && x.environment == Key(x)[|x.service| + 2..];
    assert y.service == Key(y)[..|y.service|] && y.environment == Key(y)[|y.service| + 2..];
  }

  /** A valid scope shares its file with another valid scope exactly when its key can be cut elsewhere. */
  lemma SharesKeyExactly(x: Scope)
    requires ValidScope(x)
    ensures (exists y :: SharesKey(x, y)) <==> (exists i :: CutsInService(x, i)) || (exists i :: CutsInEnvironment(x, i))
  {
    if y :| SharesKey(x, y) {
      if |y.service| < |x.service| {
        ShorterService(x, y);
      } else if |y.service| > |x.service| {
        LongerService(x, y);
      } else {
        SameService(x, y);
      }
    }
    if i :| CutsInService(x, i) { var y := CutService(x, i); }
    if i :| CutsInEnvironment(x, i) { var y := CutEnvironment(x, i); }
  }

  /** In particular a scope whose key decodes shares it with no other valid scope. */
  lemma KeyInjective(x: Scope, y: Scope)
    requires ValidScope(x) && ValidScope(y) && Key(x) == Key(y)
    requires Decodable(x) || Decodable(y)
    ensures x == y
  {
    EncodeThenDecode(x);
    EncodeThenDecode(y);
  }

  /** An instance of the cut: the services "a__b" and "a" share a file. */
  lemma KeyCollision() returns (x: Scope, y: Scope)
    ensures x == Scope("a__b", "c") && ValidScope(x) && SharesKey(x, y) && y.service == "a"
  {
    x := Scope("a__b", "c");
    assert CutsInService(x, 1);
    y := CutService(x, 1);
    assert Key(x)[..1] == "a";
  }
}
