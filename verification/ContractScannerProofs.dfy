/** The contracts scanner is exact on every legally written JSON text. */
module ContractScannerProofs {
  import opened Wrappers
  import opened JsonText
  import opened ContractScanner

  // ----- tokenizing printed text

  function Tokens(v: Json): seq<Token> {
    match v
    case Lit(text) => [LiteralToken(text)]
    case Str(raw) => [StringToken(raw)]
    case Arr(_, items) => [Punct('[')] + ItemTokens(items) + [Punct(']')]
    case Obj(_, members) => [Punct('{')] + MemberTokens(members) + [Punct('}')]
  }

  function ItemTokens(items: Items): seq<Token> {
    match items
    case NoItems => []
    case Item(_, value, _, rest) =>
      Tokens(value) + (if rest.NoItems? then [] else [Punct(',')] + ItemTokens(rest))
  }

  function MemberTokens(members: Members): seq<Token> {
    match members
    case NoMembers => []
    case Member(_, key, _, _, value, _, rest) =>
      [StringToken(key), Punct(':')] + Tokens(value) +
      (if rest.NoMembers? then [] else [Punct(',')] + MemberTokens(rest))
  }

  /** `text` begins with `tokens` and goes on with `rest`. */
  ghost predicate Lexes(text: string, tokens: seq<Token>, rest: string) {
    Lex(text) == Prepend(tokens, Lex(rest))
  }

  lemma Chain(text: string, first: seq<Token>, mid: string, second: seq<Token>, rest: string)
    requires Lexes(text, first, mid) && Lexes(mid, second, rest)
    ensures Lexes(text, first + second, rest)
  {
    if Lex(rest).Some? {
      assert first + (second + Lex(rest).value) == first + second + Lex(rest).value;
    }
  }

  lemma {:induction false} LexWs(ws: string, rest: string)
    requires Ws(ws)
    ensures Lexes(ws + rest, [], rest)
    decreases |ws|
  {
    if ws == [] {
      assert ws + rest == rest;
    } else {
      assert (ws + rest)[1..] == ws[1..] + rest;
      LexWs(ws[1..], rest);
    }
    if Lex(rest).Some? { assert [] + Lex(rest).value == Lex(rest).value; }
  }

  lemma LexPunct(c: char, rest: string)
    requires StructuralChar(c)
    ensures Lexes([c] + rest, [Punct(c)], rest)
  {
    assert ([c] + rest)[1..] == rest;
  }

  lemma {:induction false} ReadRaw(raw: string, rest: string)
    requires RawText(raw)
    ensures ReadString(raw + "\"" + rest) == Some(StringRead(raw, rest))
    decreases |raw|
  {
    var s := raw + "\"" + rest;
    if raw == [] {
      assert s[1..] == rest;
    } else {
      var n := if raw[0] == '\\' then 2 else 1;
      assert s[n..] == raw[n..] + "\"" + rest;
      ReadRaw(raw[n..], rest);
      assert s[..n] + raw[n..] == raw;
    }
  }

  lemma LexQuoted(raw: string, rest: string)
    requires RawText(raw)
    ensures Lexes(Quoted(raw) + rest, [StringToken(raw)], rest)
  {
    assert (Quoted(raw) + rest)[1..] == raw + "\"" + rest;
    ReadRaw(raw, rest);
  }

  /** What may follow a literal without running into it. */
  predicate Ends(rest: string) {
    rest == [] || WsChar(rest[0]) || StructuralChar(rest[0])
  }

  lemma {:induction false} LiteralStops(text: string, rest: string)
    requires forall i :: 0 <= i < |text| ==> LiteralChar(text[i])
    requires Ends(rest)
    ensures LiteralLength(text + rest) == |text|
    decreases |text|
  {
    if text == [] {
      assert text + rest == rest;
    } else {
      assert (text + rest)[1..] == text[1..] + rest;
      LiteralStops(text[1..], rest);
    }
  }

  lemma LexLiteral(text: string, rest: string)
    requires LiteralText(text) && Ends(rest)
    ensures Lexes(text + rest, [LiteralToken(text)], rest)
  {
    LiteralStops(text, rest);
    assert (text + rest)[..|text|] == text && (text + rest)[|text|..] == rest;
  }

  /** An array or object around whatever is inside its brackets. */
  lemma LexBracketed(open: char, inner: string, tokens: seq<Token>, close: char, rest: string)
    requires StructuralChar(open) && StructuralChar(close)
    requires Lexes(inner + ([close] + rest), tokens, [close] + rest)
    ensures Lexes([open] + inner + [close] + rest, [Punct(open)] + tokens + [Punct(close)], rest)
  {
    var text := [open] + (inner + ([close] + rest));
    LexPunct(open, inner + ([close] + rest));
    LexPunct(close, rest);
    Chain(text, [Punct(open)], inner + ([close] + rest), tokens, [close] + rest);
    Chain(text, [Punct(open)] + tokens, [close] + rest, [Punct(close)], rest);
    assert text == [open] + inner + [close] + rest;
  }

  /** An element, a comma and the elements after it. */
  lemma LexSeparated(head: string, tokens: seq<Token>, tail: string, tailTokens: seq<Token>, rest: string)
    requires Lexes(head + ("," + (tail + rest)), tokens, "," + (tail + rest))
    requires Lexes(tail + rest, tailTokens, rest)
    ensures Lexes(head + ("," + tail) + rest, tokens + ([Punct(',')] + tailTokens), rest)
  {
    LexPunct(',', tail + rest);
    Chain("," + (tail + rest), [Punct(',')], tail + rest, tailTokens, rest);
    Chain(head + ("," + (tail + rest)), tokens, "," + (tail + rest), [Punct(',')] + tailTokens, rest);
    assert head + ("," + (tail + rest)) == head + ("," + tail) + rest;
  }

  lemma {:induction false} LexValue(v: Json, rest: string)
    requires Legal(v) && Ends(rest)
    ensures Lexes(Print(v) + rest, Tokens(v), rest)
    decreases v, 0
  {
    match v
    case Lit(text) => LexLiteral(text, rest);
    case Str(raw) => LexQuoted(raw, rest);
    case Arr(pad, items) =>
      if items.NoItems? { LexWs(pad, "]" + rest); } else { LexItems(items, "]" + rest); }
      LexBracketed('[', if items.NoItems? then pad else PrintItems(items), ItemTokens(items), ']', rest);
    case Obj(pad, members) =>
      if members.NoMembers? { LexWs(pad, "}" + rest); } else { LexMembers(members, "}" + rest); }
      LexBracketed('{', if members.NoMembers? then pad else PrintMembers(members), MemberTokens(members), '}', rest);
  }

  /** A value between its whitespace, and what follows. */
  lemma {:induction false} LexPadded(before: string, v: Json, after: string, rest: string)
    requires Ws(before) && Legal(v) && Ws(after) && Ends(rest)
    ensures Lexes(before + Print(v) + after + rest, Tokens(v), rest)
    decreases v, 1
  {
    LexValue(v, after + rest);
    LexWs(before, Print(v) + (after + rest));
    LexWs(after, rest);
    var text := before + (Print(v) + (after + rest));
    Chain(text, [], Print(v) + (after + rest), Tokens(v), after + rest);
    assert [] + Tokens(v) == Tokens(v);
    Chain(text, Tokens(v), after + rest, [], rest);
    assert Tokens(v) + [] == Tokens(v);
    assert text == before + Print(v) + after + rest;
  }

  lemma {:induction false} LexItems(items: Items, rest: string)
    requires items.Item? && LegalItems(items) && Ends(rest)
    ensures Lexes(PrintItems(items) + rest, ItemTokens(items), rest)
    decreases items, 0
  {
    var Item(before, value, after, more) := items;
    var head := before + Print(value) + after;
    if more.NoItems? {
      LexPadded(before, value, after, rest);
      assert PrintItems(items) == head && ItemTokens(items) == Tokens(value);
    } else {
      LexItems(more, rest);
      LexPadded(before, value, after, "," + (PrintItems(more) + rest));
      LexSeparated(head, Tokens(value), PrintItems(more), ItemTokens(more), rest);
      assert PrintItems(items) == head + ("," + PrintItems(more));
    }
  }

  /** Up to and including the colon. */
  lemma LexKey(m: Members, rest: string)
    requires m.Member? && Ws(m.before) && RawText(m.key) && Ws(m.beforeColon)
    ensures Lexes(m.before + (Quoted(m.key) + (m.beforeColon + (":" + rest))), [StringToken(m.key), Punct(':')], rest)
  {
    var colon := m.beforeColon + (":" + rest);
    var text := m.before + (Quoted(m.key) + colon);
    LexPunct(':', rest);
    LexWs(m.beforeColon, ":" + rest);
    LexQuoted(m.key, colon);
    LexWs(m.before, Quoted(m.key) + colon);
    Chain(colon, [], ":" + rest, [Punct(':')], rest);
    Chain(text, [], Quoted(m.key) + colon, [StringToken(m.key)], colon);
    Chain(text, [] + [StringToken(m.key)], colon, [] + [Punct(':')], rest);
    assert [] + [StringToken(m.key)] + ([] + [Punct(':')]) == [StringToken(m.key), Punct(':')];
  }

  /** The key, the colon and the value of one member. */
  lemma {:induction false} LexMember(m: Members, rest: string)
    requires m.Member? && LegalMembers(m) && Ends(rest)
    ensures Lexes(PrintMember(m) + rest, [StringToken(m.key), Punct(':')] + Tokens(m.value), rest)
    decreases m, 0
  {
    var padded := m.afterColon + Print(m.value) + m.after + rest;
    var text := m.before + (Quoted(m.key) + (m.beforeColon + (":" + padded)));
    LexPadded(m.afterColon, m.value, m.after, rest);
    LexKey(m, padded);
    Chain(text, [StringToken(m.key), Punct(':')], padded, Tokens(m.value), rest);
    assert text == PrintMember(m) + rest;
  }

  lemma {:induction false} LexMembers(members: Members, rest: string)
    requires members.Member? && LegalMembers(members) && Ends(rest)
    ensures Lexes(PrintMembers(members) + rest, MemberTokens(members), rest)
    decreases members, 1
  {
    var tokens := [StringToken(members.key), Punct(':')] + Tokens(members.value);
    var more := members.rest;
    if more.NoMembers? {
      LexMember(members, rest);
      assert PrintMembers(members) == PrintMember(members) && MemberTokens(members) == tokens;
    } else {
      LexMembers(more, rest);
      LexMember(members, "," + (PrintMembers(more) + rest));
      LexSeparated(PrintMember(members), tokens, PrintMembers(more), MemberTokens(more), rest);
      assert PrintMembers(members) == PrintMember(members) + ("," + PrintMembers(more));
      assert MemberTokens(members) == tokens + ([Punct(',')] + MemberTokens(more));
    }
  }

  /** The tokenizer reads back exactly what was printed, whatever the whitespace. */
  lemma LexDocument(before: string, v: Json, after: string)
    requires Ws(before) && Legal(v) && Ws(after)
    ensures Lex(before + Print(v) + after) == Some(Tokens(v))
  {
    LexPadded(before, v, after, "");
    assert before + Print(v) + after + "" == before + Print(v) + after;
    assert Tokens(v) + [] == Tokens(v);
  }

  // ----- scanning the tokens of a tree

  lemma {:induction false} ScanConcat(s: Scan, first: seq<Token>, s1: Scan, second: seq<Token>, s2: Scan)
    requires ScanTokens(s, first) == Some(s1) && ScanTokens(s1, second) == Some(s2)
    ensures ScanTokens(s, first + second) == Some(s2)
    decreases |first|
  {
    if first == [] {
      assert first + second == second;
    } else {
      assert (first + second)[1..] == first[1..] + second;
      ScanConcat(ScanToken(s, first[0]).value, first[1..], s1, second, s2);
    }
  }

  lemma ScanOne(s: Scan, token: Token, s1: Scan)
    requires ScanToken(s, token) == Some(s1)
    ensures ScanTokens(s, [token]) == Some(s1)
  {
    assert [token][1..] == [];
  }

  /** Scanning a whole value leaves the stack alone and remembers whether it held a duplicate. */
  ghost predicate Scanned(s: Scan, s': Scan, duplicate: bool) {
    && s'.stack == s.stack
    && s'.duplicateFound == (s.duplicateFound || duplicate)
    && (s.stack != [] ==> s'.awaiting == ValueConsumed(s).awaiting)
    && !s'.awaiting.Colon?
  }

  predicate AwaitsValue(s: Scan) {
    s.awaiting.AnyValue? || s.awaiting.ValueOrClose?
  }

  /** An entered container: a frame on top of `s`. */
  lemma ScanContainer(s: Scan, open: char, entered: Scan, inner: seq<Token>, s1: Scan, close: char) returns (s': Scan)
    requires ScanPunct(s, open) == Some(entered) && ScanTokens(entered, inner) == Some(s1)
    requires (close == '}' && Top(s1).Some? && Top(s1).value.ObjectFrame?) || (close == ']' && Top(s1) == Some(ArrayFrame))
    requires Below(s1) == s.stack && !s1.awaiting.Colon?
    ensures ScanTokens(s, [Punct(open)] + inner + [Punct(close)]) == Some(s')
    ensures s'.stack == s.stack && s'.duplicateFound == s1.duplicateFound
    ensures s.stack != [] ==> s'.awaiting == ValueConsumed(s).awaiting
    ensures !s'.awaiting.Colon?
  {
    s' := ScanPunct(s1, close).value;
    ScanOne(s, Punct(open), entered);
    ScanOne(s1, Punct(close), s');
    ScanConcat(s, [Punct(open)], entered, inner, s1);
    ScanConcat(s, [Punct(open)] + inner, s1, [Punct(close)], s');
  }

  lemma {:induction false} ScanValue(s: Scan, v: Json) returns (s': Scan)
    requires AwaitsValue(s)
    ensures ScanTokens(s, Tokens(v)) == Some(s') && Scanned(s, s', HasDuplicate(v))
    decreases v, 1
  {
    match v
    case Lit(text) =>
      s' := ValueConsumed(s);
      ScanOne(s, LiteralToken(text), s');
    case Str(raw) =>
      s' := ValueConsumed(s);
      ScanOne(s, StringToken(raw), s');
    case Arr(_, items) => s' := ScanArray(s, v);
    case Obj(_, members) => s' := ScanObject(s, v);
  }

  lemma {:induction false} ScanArray(s: Scan, v: Json) returns (s': Scan)
    requires AwaitsValue(s) && v.Arr?
    ensures ScanTokens(s, Tokens(v)) == Some(s') && Scanned(s, s', HasDuplicate(v))
    decreases v, 0
  {
    var entered := ScanPunct(s, '[').value;
    var s1 := entered;
    if v.items.Item? { s1 := ScanItems(entered, v.items); }
    s' := ScanContainer(s, '[', entered, ItemTokens(v.items), s1, ']');
  }

  lemma {:induction false} ScanObject(s: Scan, v: Json) returns (s': Scan)
    requires AwaitsValue(s) && v.Obj?
    ensures ScanTokens(s, Tokens(v)) == Some(s') && Scanned(s, s', HasDuplicate(v))
    decreases v, 0
  {
    var entered := ScanPunct(s, '{').value;
    var s1 := entered;
    if v.members.Member? { s1 := ScanMembers(entered, v.members); }
    s' := ScanContainer(s, '{', entered, MemberTokens(v.members), s1, '}');
    SeenOrRepeated({}, Keys(v.members));
  }

  lemma {:induction false} ScanItems(s: Scan, items: Items) returns (s': Scan)
    requires items.Item? && Top(s) == Some(ArrayFrame) && AwaitsValue(s)
    ensures ScanTokens(s, ItemTokens(items)) == Some(s') && Scanned(s, s', ItemsHaveDuplicate(items))
    decreases items
  {
    var s1 := ScanValue(s, items.value);
    if items.rest.NoItems? {
      s' := s1;
      assert ItemTokens(items) == Tokens(items.value);
    } else {
      var s2 := ScanPunct(s1, ',').value;
      ScanOne(s1, Punct(','), s2);
      s' := ScanItems(s2, items.rest);
      ScanConcat(s1, [Punct(',')], s2, ItemTokens(items.rest), s');
      ScanConcat(s, Tokens(items.value), s1, [Punct(',')] + ItemTokens(items.rest), s');
    }
  }

  /** Key and colon. */
  lemma ScanKey(s: Scan, key: string) returns (s': Scan)
    requires Top(s).Some? && Top(s).value.ObjectFrame? && s.awaiting == KeyOrClose
    ensures ScanTokens(s, [StringToken(key), Punct(':')]) == Some(s')
    ensures s' == Scan(Below(s) + [ObjectFrame(Top(s).value.keys + {key})], AnyValue,
                       s.duplicateFound || key in Top(s).value.keys)
  {
    var s1 := ScanToken(s, StringToken(key)).value;
    s' := s1.(awaiting := AnyValue);
    ScanOne(s, StringToken(key), s1);
    ScanOne(s1, Punct(':'), s');
    ScanConcat(s, [StringToken(key)], s1, [Punct(':')], s');
    assert [StringToken(key)] + [Punct(':')] == [StringToken(key), Punct(':')];
  }

  lemma {:induction false} ScanMembers(s: Scan, members: Members) returns (s': Scan)
    requires members.Member? && Top(s).Some? && Top(s).value.ObjectFrame? && s.awaiting == KeyOrClose
    ensures ScanTokens(s, MemberTokens(members)) == Some(s')
    ensures Below(s') == Below(s) && Top(s').Some? && Top(s').value.ObjectFrame? && !s'.awaiting.Colon?
    ensures s'.duplicateFound
         == (s.duplicateFound || RepeatsSeen(Top(s).value.keys, Keys(members)) || MembersHaveDuplicate(members))
    decreases members
  {
    var s1 := ScanKey(s, members.key);
    var s2 := ScanValue(s1, members.value);
    var head := [StringToken(members.key), Punct(':')];
    ScanConcat(s, head, s1, Tokens(members.value), s2);
    var keys := Top(s).value.keys;
    assert Top(s2) == Some(ObjectFrame(keys + {members.key}));
    assert Keys(members)[0] == members.key && Keys(members)[1..] == Keys(members.rest);
    assert RepeatsSeen(keys, Keys(members))
        == (members.key in keys || RepeatsSeen(keys + {members.key}, Keys(members.rest)));
    if members.rest.NoMembers? {
      s' := s2;
      assert MemberTokens(members) == head + Tokens(members.value);
    } else {
      var s3 := ScanPunct(s2, ',').value;
      ScanOne(s2, Punct(','), s3);
      s' := ScanMembers(s3, members.rest);
      ScanConcat(s2, [Punct(',')], s3, MemberTokens(members.rest), s');
      ScanConcat(s, head + Tokens(members.value), s2, [Punct(',')] + MemberTokens(members.rest), s');
    }
  }

  // ----- main result

  /**
   Exactness: on every legally written text, whatever its whitespace, the scanner answers true exactly
   when some object at some depth repeats the source spelling of a key.
   */
  lemma DetectsExactly(before: string, v: Json, after: string)
    requires Ws(before) && Legal(v) && Ws(after)
    ensures Detects(before + Print(v) + after) <==> HasDuplicate(v)
  {
    LexDocument(before, v, after);
    var s' := ScanValue(START, v);
  }

  // ----- malformed texts, whatever duplicates they hold, are answered no

  lemma {:induction false} ScanStops(s: Scan, first: seq<Token>, s1: Scan, token: Token, more: seq<Token>)
    requires ScanTokens(s, first) == Some(s1) && ScanToken(s1, token).None?
    ensures ScanTokens(s, first + ([token] + more)).None?
    decreases |first|
  {
    var all := first + ([token] + more);
    if first == [] {
      assert all[0] == token;
    } else {
      assert all[0] == first[0] && all[1..] == first[1..] + ([token] + more);
      ScanStops(ScanToken(s, first[0]).value, first[1..], s1, token, more);
    }
  }

  /** A closing bracket, a comma or a colon too many ends the scan, whatever follows it. */
  lemma SurplusAnswersNo(before: string, v: Json, after: string, c: char, rest: string)
    requires Ws(before) && Legal(v) && Ws(after) && (c == '}' || c == ']' || c == ',' || c == ':')
    ensures !Detects(before + Print(v) + after + ([c] + rest))
  {
    var text := before + Print(v) + after + ([c] + rest);
    LexPadded(before, v, after, [c] + rest);
    LexPunct(c, rest);
    Chain(text, Tokens(v), [c] + rest, [Punct(c)], rest);
    if Lex(rest).Some? {
      var s' := ScanValue(START, v);
      ScanStops(START, Tokens(v), s', Punct(c), Lex(rest).value);
      assert Tokens(v) + [Punct(c)] + Lex(rest).value == Tokens(v) + ([Punct(c)] + Lex(rest).value);
    }
  }

  lemma {:induction false} UnclosedRaw(raw: string)
    requires RawText(raw)
    ensures ReadString(raw).None?
    decreases |raw|
  {
    if raw != [] { UnclosedRaw(raw[if raw[0] == '\\' then 2 else 1..]); }
  }

  /** A string that is never closed fails the tokenizer, whatever came before it. */
  lemma UnclosedAnswersNo(members: Members, raw: string)
    requires members.Member? && LegalMembers(members) && RawText(raw)
    ensures !Detects("{" + (PrintMembers(members) + ("," + ("\"" + raw))))
  {
    var unclosed := "\"" + raw;
    UnclosedRaw(raw);
    assert unclosed[1..] == raw && Lex(unclosed).None?;
    LexPunct(',', unclosed);
    LexMembers(members, "," + unclosed);
    LexPunct('{', PrintMembers(members) + ("," + unclosed));
  }
}
