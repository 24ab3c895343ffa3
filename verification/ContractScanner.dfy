/**
 The duplicate-key scanner of the contracts package: a tokenizer followed by a push-down scan.  The
 functions say what the two loops compute; a thrown error is None.
 */
module ContractScanner {
  import opened Wrappers
  import opened JsonText

  datatype Token = Punct(c: char) | StringToken(value: string) | LiteralToken(text: string)

  /** The characters matched by the regular-expression class for whitespace. */
  predicate JsSpace(c: char) {
    var n := c as int;
    || n == 0x20 || 0x09 <= n <= 0x0D || n == 0xA0 || n == 0x1680 || 0x2000 <= n <= 0x200A
    || n == 0x2028 || n == 0x2029 || n == 0x202F || n == 0x205F || n == 0x3000 || n == 0xFEFF
  }

  predicate EndsLiteral(c: char) {
    StructuralChar(c) || JsSpace(c)
  }

  datatype StringRead = StringRead(value: string, rest: string)

  function Extend(value: string, read: Option<StringRead>): Option<StringRead> {
    if read.None? then None else Some(StringRead(value + read.value.value, read.value.rest))
  }

  /** Reads string contents up to the closing quote; escapes are kept as spelled. */
  function ReadString(s: string): (r: Option<StringRead>)
    ensures r.Some? ==> |r.value.rest| < |s|
    decreases |s|
  {
    if s == [] then None
    else if s[0] == '"' then Some(StringRead("", s[1..]))
    else if s[0] == '\\' then
      if |s| < 2 then None else Extend(s[..2], ReadString(s[2..]))
    else Extend(s[..1], ReadString(s[1..]))
  }

  function LiteralLength(s: string): (n: nat)
    ensures n <= |s|
  {
    if s == [] || EndsLiteral(s[0]) then 0 else 1 + LiteralLength(s[1..])
  }

  function Prepend(tokens: seq<Token>, rest: Option<seq<Token>>): Option<seq<Token>> {
    if rest.None? then None else Some(tokens + rest.value)
  }

  function Lex(text: string): Option<seq<Token>>
    decreases |text|
  {
    if text == [] then Some([])
    else if WsChar(text[0]) then Lex(text[1..])
    else if StructuralChar(text[0]) then Prepend([Punct(text[0])], Lex(text[1..]))
    else if text[0] == '"' then
      match ReadString(text[1..])
      case None => None
      case Some(read) => Prepend([StringToken(read.value)], Lex(read.rest))
    else
      var n := LiteralLength(text);
      if n == 0 then None else Prepend([LiteralToken(text[..n])], Lex(text[n..]))
  }

  // ----- the push-down scan

  datatype Frame = ObjectFrame(keys: set<string>) | ArrayFrame

  datatype Awaiting = AnyValue | KeyOrClose | Colon | CommaOrCloseObject | ValueOrClose | CommaOrCloseArray

  datatype Scan = Scan(stack: seq<Frame>, awaiting: Awaiting, duplicateFound: bool)

  const START := Scan([], AnyValue, false)

  function Top(s: Scan): Option<Frame> {
    if s.stack == [] then None else Some(s.stack[|s.stack| - 1])
  }

  function Below(s: Scan): seq<Frame> {
    if s.stack == [] then [] else s.stack[..|s.stack| - 1]
  }

  function ValueConsumed(s: Scan): Scan {
    match Top(s)
    case None => s
    case Some(ObjectFrame(_)) => s.(awaiting := CommaOrCloseObject)
    case Some(ArrayFrame) => s.(awaiting := CommaOrCloseArray)
  }

  function ScanPunct(s: Scan, c: char): Option<Scan> {
    if c == '{' then Some(s.(stack := s.stack + [ObjectFrame({})], awaiting := KeyOrClose))
    else if c == '[' then Some(s.(stack := s.stack + [ArrayFrame], awaiting := ValueOrClose))
    else if c == '}' then
      if Top(s).Some? && Top(s).value.ObjectFrame? then Some(ValueConsumed(s.(stack := Below(s)))) else None
    else if c == ']' then
      if Top(s).Some? && Top(s).value.ArrayFrame? then Some(ValueConsumed(s.(stack := Below(s)))) else None
    else if c == ':' then
      if s.awaiting.Colon? then Some(s.(awaiting := AnyValue)) else None
    else
      match Top(s)
      case None => None
      case Some(ObjectFrame(_)) => Some(s.(awaiting := KeyOrClose))
      case Some(ArrayFrame) => Some(s.(awaiting := ValueOrClose))
  }

  function ScanToken(s: Scan, token: Token): Option<Scan> {
    if token.Punct? then ScanPunct(s, token.c)
    else if s.awaiting.KeyOrClose? && Top(s).Some? && Top(s).value.ObjectFrame? then
      if !token.StringToken? then None
      else
        var keys := Top(s).value.keys;
        Some(Scan(Below(s) + [ObjectFrame(keys + {token.value})], Colon, s.duplicateFound || token.value in keys))
    else if s.awaiting.AnyValue? || s.awaiting.ValueOrClose? then Some(ValueConsumed(s))
    else None
  }

  function ScanTokens(s: Scan, tokens: seq<Token>): Option<Scan>
    decreases |tokens|
  {
    if tokens == [] then Some(s)
    else
      match ScanToken(s, tokens[0])
      case None => None
      case Some(s') => ScanTokens(s', tokens[1..])
  }

  /** The scanner's answer; malformed text counts as having no duplicate. */
  function Detects(text: string): bool {
    match Lex(text)
    case None => false
    case Some(tokens) =>
      match ScanTokens(START, tokens)
      case None => false
      case Some(s) => s.duplicateFound
  }

  // ----- the loops

  /** One character or escape of string contents, at an index of the text. */
  lemma ReadStep(text: string, i: nat)
    requires i < |text| && text[i] != '"'
    ensures text[i] == '\\' && i + 1 < |text| ==>
              ReadString(text[i..]) == Extend([text[i], text[i + 1]], ReadString(text[i + 2..]))
    ensures text[i] == '\\' && i + 1 == |text| ==> ReadString(text[i..]).None?
    ensures text[i] != '\\' ==> ReadString(text[i..]) == Extend([text[i]], ReadString(text[i + 1..]))
  {
    var s := text[i..];
    assert s[1..] == text[i + 1..] && s[..1] == [text[i]];
    if i + 1 < |text| {
      assert s[2..] == text[i + 2..] && s[..2] == [text[i], text[i + 1]];
    }
  }

  method ReadStringAt(text: string, start: nat) returns (ok: bool, value: string, next: nat)
    requires start < |text|
    ensures ok ==> start < next <= |text|
    ensures ReadString(text[start + 1..]) == if ok then Some(StringRead(value, text[next..])) else None
  {
    var i := start + 1;
    value := "";
    AppendRead("", "", ReadString(text[i..]));
    while i < |text|
      invariant start < i <= |text|
      invariant ReadString(text[start + 1..]) == Extend(value, ReadString(text[i..]))
    {
      var ch := text[i];
      if ch == '"' {
        assert text[i..][1..] == text[i + 1..];
        assert value + "" == value;
        return true, value, i + 1;
      }
      ReadStep(text, i);
      if ch == '\\' {
        if i + 1 >= |text| {
          return false, value, i;
        }
        AppendRead(value, [ch, text[i + 1]], ReadString(text[i + 2..]));
        value := value + [ch, text[i + 1]];
        i := i + 2;
      } else {
        AppendRead(value, [ch], ReadString(text[i + 1..]));
        value := value + [ch];
        i := i + 1;
      }
    }
    return false, value, i;
  }

  lemma AppendRead(value: string, more: string, read: Option<StringRead>)
    ensures Extend(value, Extend(more, read)) == Extend(value + more, read)
    ensures Extend("", read) == read
  {
    if read.Some? {
      assert value + (more + read.value.value) == value + more + read.value.value;
      assert "" + read.value.value == read.value.value;
    }
  }

  lemma AppendTokens(tokens: seq<Token>, token: Token, rest: Option<seq<Token>>)
    ensures Prepend(tokens, Prepend([token], rest)) == Prepend(tokens + [token], rest)
  {
    if rest.Some? { assert tokens + ([token] + rest.value) == tokens + [token] + rest.value; }
  }

  method LiteralEnd(text: string, i: nat) returns (j: nat)
    requires i <= |text|
    ensures j == i + LiteralLength(text[i..])
  {
    j := i;
    while j < |text| && !EndsLiteral(text[j])
      invariant i <= j <= |text|
      invariant LiteralLength(text[i..]) == j - i + LiteralLength(text[j..])
    {
      assert text[j..][1..] == text[j + 1..];
      j := j + 1;
    }
  }

  /** The token or whitespace at an index of the text. */
  lemma LexStep(text: string, i: nat)
    requires i < |text|
    ensures var c := text[i]; var rest := text[i + 1..]; var n := LiteralLength(text[i..]);
            Lex(text[i..]) ==
              if WsChar(c) then Lex(rest)
              else if StructuralChar(c) then Prepend([Punct(c)], Lex(rest))
              else if c == '"' then
                match ReadString(rest)
                case None => None
                case Some(read) => Prepend([StringToken(read.value)], Lex(read.rest))
              else if n == 0 then None
              else Prepend([LiteralToken(text[i..i + n])], Lex(text[i + n..]))
  {
    var s, n := text[i..], LiteralLength(text[i..]);
    assert s[1..] == text[i + 1..] && s[..n] == text[i..i + n] && s[n..] == text[i + n..];
  }

  /** Every turn of the loop consumes at least one character, or the text is malformed. */
  method Tokenize(text: string) returns (result: Option<seq<Token>>)
    ensures result == Lex(text)
  {
    var tokens: seq<Token> := [];
    var i := 0;
    assert text[0..] == text;
    assert Lex(text).Some? ==> [] + Lex(text).value == Lex(text).value;
    while i < |text|
      invariant 0 <= i <= |text|
      invariant Lex(text) == Prepend(tokens, Lex(text[i..]))
      decreases |text| - i
    {
      var ch := text[i];
      LexStep(text, i);
      if WsChar(ch) {
        i := i + 1;
      } else if StructuralChar(ch) {
        AppendTokens(tokens, Punct(ch), Lex(text[i + 1..]));
        tokens := tokens + [Punct(ch)];
        i := i + 1;
      } else if ch == '"' {
        var ok, value, next := ReadStringAt(text, i);
        if !ok { return None; }
        AppendTokens(tokens, StringToken(value), Lex(text[next..]));
        tokens := tokens + [StringToken(value)];
        i := next;
      } else {
        var j := LiteralEnd(text, i);
        if j == i { return None; }
        AppendTokens(tokens, LiteralToken(text[i..j]), Lex(text[j..]));
        tokens := tokens + [LiteralToken(text[i..j])];
        i := j;
      }
    }
    assert text[i..] == "" && tokens + [] == tokens;
    return Some(tokens);
  }

  /** One turn of the scanning loop on its mutable stack, mode and flag; `ok` is false where the source throws. */
  method ScanTurn(token: Token, stack: seq<Frame>, awaiting: Awaiting, duplicateFound: bool)
    returns (ok: bool, stack': seq<Frame>, awaiting': Awaiting, duplicateFound': bool)
    ensures ScanToken(Scan(stack, awaiting, duplicateFound), token)
         == if ok then Some(Scan(stack', awaiting', duplicateFound')) else None
  {
    ok, stack', awaiting', duplicateFound' := true, stack, awaiting, duplicateFound;
    var n := |stack|;
    if token.Punct? && token.c == '{' {
      stack' := stack + [ObjectFrame({})];
      awaiting' := KeyOrClose;
    } else if token.Punct? && token.c == '[' {
      stack' := stack + [ArrayFrame];
      awaiting' := ValueOrClose;
    } else if token.Punct? && (token.c == '}' || token.c == ']') {
      if n == 0 || stack[n - 1].ObjectFrame? != (token.c == '}') {
        ok := false;
      } else {
        stack' := stack[..n - 1];
        if n > 1 {
          awaiting' := if stack[n - 2].ObjectFrame? then CommaOrCloseObject else CommaOrCloseArray;
        }
      }
    } else if token.Punct? && token.c == ':' {
      if awaiting.Colon? { awaiting' := AnyValue; } else { ok := false; }
    } else if token.Punct? {
      if n == 0 { ok := false; } else { awaiting' := if stack[n - 1].ObjectFrame? then KeyOrClose else ValueOrClose; }
    } else if awaiting.KeyOrClose? && n > 0 && stack[n - 1].ObjectFrame? {
      if !token.StringToken? {
        ok := false;
      } else {
        var keys := stack[n - 1].keys;
        if token.value in keys { duplicateFound' := true; }
        stack' := stack[..n - 1] + [ObjectFrame(keys + {token.value})];
        awaiting' := Colon;
      }
    } else if awaiting.AnyValue? || awaiting.ValueOrClose? {
      if n > 0 {
        awaiting' := if stack[n - 1].ObjectFrame? then CommaOrCloseObject else CommaOrCloseArray;
      }
    } else {
      ok := false;
    }
  }

  method HasDuplicateObjectKeys(text: string) returns (found: bool)
    ensures found == Detects(text)
  {
    var tokens := Tokenize(text);
    if tokens.None? { return false; }
    var stack, awaiting, duplicateFound := START.stack, START.awaiting, START.duplicateFound;
    var ok := true;
    for k := 0 to |tokens.value|
      invariant ScanTokens(START, tokens.value) == ScanTokens(Scan(stack, awaiting, duplicateFound), tokens.value[k..])
    {
      assert tokens.value[k..][1..] == tokens.value[k + 1..];
      ok, stack, awaiting, duplicateFound := ScanTurn(tokens.value[k], stack, awaiting, duplicateFound);
      if !ok { return false; }
    }
    found := duplicateFound;
  }
}
