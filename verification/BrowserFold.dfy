/** The browser's single pass over printed text is a fold over the tree, blind to the layout. */
module BrowserFold {
  import opened JsonText
  import opened BrowserScanner

  /** String contents as this scanner keeps them: an escape is reduced to its backslash. */
  function Strip(raw: string): string
    requires RawText(raw)
    decreases |raw|
  {
    if raw == [] then ""
    else if raw[0] == '\\' then "\\" + Strip(raw[2..])
    else raw[..1] + Strip(raw[1..])
  }

  // ----- the scan as a fold over the tree

  function ReadValue(s: Scan, v: Json): Scan
    requires Legal(v)
    decreases v
  {
    match v
    case Lit(_) => s
    case Str(raw) => MeetString(s, Strip(raw))
    case Arr(_, items) => ReadItems(s, items)
    case Obj(_, members) => MeetChar(ReadMembers(MeetChar(s, '{'), members), '}')
  }

  function ReadItems(s: Scan, items: Items): Scan
    requires LegalItems(items)
    decreases items
  {
    match items
    case NoItems => s
    case Item(_, value, _, rest) =>
      var s1 := ReadValue(s, value);
      if rest.NoItems? then s1 else ReadItems(MeetChar(s1, ','), rest)
  }

  function ReadMembers(s: Scan, members: Members): Scan
    requires LegalMembers(members)
    decreases members
  {
    match members
    case NoMembers => s
    case Member(_, key, _, _, value, _, rest) =>
      var s1 := ReadValue(MeetChar(MeetString(s, Strip(key)), ':'), value);
      if rest.NoMembers? then s1 else ReadMembers(MeetChar(s1, ','), rest)
  }

  lemma {:induction false} SkipChars(s: Scan, text: string, rest: string)
    requires forall i :: 0 <= i < |text| ==> WsChar(text[i]) || LiteralChar(text[i])
    ensures Run(s, text + rest) == Run(s, rest)
    decreases |text|
  {
    if text == [] {
      assert text + rest == rest;
    } else {
      assert (text + rest)[1..] == text[1..] + rest;
      SkipChars(s, text[1..], rest);
    }
  }

  lemma RunChar(s: Scan, c: char, rest: string)
    requires c != '"'
    ensures Run(s, [c] + rest) == Run(MeetChar(s, c), rest)
  {
    assert ([c] + rest)[1..] == rest;
  }

  lemma {:induction false} ReadRaw(raw: string, rest: string)
    requires RawText(raw)
    ensures ReadString(raw + "\"" + rest) == StringRead(Strip(raw), rest)
    decreases |raw|
  {
    var s := raw + "\"" + rest;
    if raw == [] {
      assert s[1..] == rest;
    } else {
      var n := if raw[0] == '\\' then 2 else 1;
      assert s[n..] == raw[n..] + "\"" + rest;
      assert s[..1] == raw[..1];
      ReadRaw(raw[n..], rest);
    }
  }

  lemma RunQuoted(s: Scan, raw: string, rest: string)
    requires RawText(raw)
    ensures Run(s, Quoted(raw) + rest) == Run(MeetString(s, Strip(raw)), rest)
  {
    assert (Quoted(raw) + rest)[1..] == raw + "\"" + rest;
    ReadRaw(raw, rest);
  }

  lemma RunBracketed(s: Scan, open: char, inner: string, s1: Scan, close: char, rest: string)
    requires open != '"' && close != '"'
    requires Run(MeetChar(s, open), inner + ([close] + rest)) == Run(s1, [close] + rest)
    ensures Run(s, [open] + inner + [close] + rest) == Run(MeetChar(s1, close), rest)
  {
    RunChar(s, open, inner + ([close] + rest));
    RunChar(s1, close, rest);
    assert [open] + inner + [close] + rest == [open] + (inner + ([close] + rest));
  }

  lemma {:induction false} RunValue(s: Scan, v: Json, rest: string)
    requires Legal(v)
    ensures Run(s, Print(v) + rest) == Run(ReadValue(s, v), rest)
    decreases v, 0
  {
    match v
    case Lit(text) => SkipChars(s, text, rest);
    case Str(raw) => RunQuoted(s, raw, rest);
    case Arr(pad, items) =>
      assert MeetChar(s, '[') == s && MeetChar(ReadValue(s, v), ']') == ReadValue(s, v);
      if items.NoItems? { SkipChars(s, pad, "]" + rest); } else { RunItems(s, items, "]" + rest); }
      RunBracketed(s, '[', if items.NoItems? then pad else PrintItems(items), ReadItems(s, items), ']', rest);
    case Obj(pad, members) =>
      var s1 := MeetChar(s, '{');
      if members.NoMembers? { SkipChars(s1, pad, "}" + rest); } else { RunMembers(s1, members, "}" + rest); }
      RunBracketed(s, '{', if members.NoMembers? then pad else PrintMembers(members), ReadMembers(s1, members), '}', rest);
  }

  lemma {:induction false} RunPadded(s: Scan, before: string, v: Json, after: string, rest: string)
    requires Ws(before) && Legal(v) && Ws(after)
    ensures Run(s, before + Print(v) + after + rest) == Run(ReadValue(s, v), rest)
    decreases v, 1
  {
    assert before + Print(v) + after + rest == before + (Print(v) + (after + rest));
    SkipChars(s, before, Print(v) + (after + rest));
    RunValue(s, v, after + rest);
    SkipChars(ReadValue(s, v), after, rest);
  }

  lemma {:induction false} RunItems(s: Scan, items: Items, rest: string)
    requires items.Item? && LegalItems(items)
    ensures Run(s, PrintItems(items) + rest) == Run(ReadItems(s, items), rest)
    decreases items, 0
  {
    var Item(before, value, after, more) := items;
    if more.NoItems? {
      RunPadded(s, before, value, after, rest);
      assert PrintItems(items) == before + Print(value) + after;
    } else {
      var tail := PrintItems(more) + rest;
      assert PrintItems(items) + rest == before + Print(value) + after + ("," + tail);
      RunPadded(s, before, value, after, "," + tail);
      RunChar(ReadValue(s, value), ',', tail);
      RunItems(MeetChar(ReadValue(s, value), ','), more, rest);
    }
  }

  /** Up to and including the colon. */
  lemma RunKey(s: Scan, m: Members, rest: string)
    requires m.Member? && LegalMembers(m)
    ensures Run(s, m.before + (Quoted(m.key) + (m.beforeColon + (":" + rest))))
         == Run(MeetChar(MeetString(s, Strip(m.key)), ':'), rest)
  {
    var colon := m.beforeColon + (":" + rest);
    SkipChars(s, m.before, Quoted(m.key) + colon);
    RunQuoted(s, m.key, colon);
    var s1 := MeetString(s, Strip(m.key));
    SkipChars(s1, m.beforeColon, ":" + rest);
    RunChar(s1, ':', rest);
  }

  lemma {:induction false} RunMember(s: Scan, m: Members, rest: string)
    requires m.Member? && LegalMembers(m)
    ensures Run(s, PrintMember(m) + rest) == Run(ReadValue(MeetChar(MeetString(s, Strip(m.key)), ':'), m.value), rest)
    decreases m, 0
  {
    var padded := m.afterColon + Print(m.value) + m.after + rest;
    RunKey(s, m, padded);
    RunPadded(MeetChar(MeetString(s, Strip(m.key)), ':'), m.afterColon, m.value, m.after, rest);
    assert PrintMember(m) + rest == m.before + (Quoted(m.key) + (m.beforeColon + (":" + padded)));
  }

  lemma {:induction false} RunMembers(s: Scan, members: Members, rest: string)
    requires members.Member? && LegalMembers(members)
    ensures Run(s, PrintMembers(members) + rest) == Run(ReadMembers(s, members), rest)
    decreases members, 1
  {
    var more := members.rest;
    if more.NoMembers? {
      RunMember(s, members, rest);
      assert PrintMembers(members) == PrintMember(members);
    } else {
      var tail := PrintMembers(more) + rest;
      assert PrintMembers(members) + rest == PrintMember(members) + ("," + tail);
      RunMember(s, members, "," + tail);
      var s1 := ReadValue(MeetChar(MeetString(s, Strip(members.key)), ':'), members.value);
      RunChar(s1, ',', tail);
      RunMembers(MeetChar(s1, ','), more, rest);
    }
  }

  /** On printed text the single pass is the fold, whatever the whitespace. */
  lemma DetectsIsFold(before: string, v: Json, after: string)
    requires Ws(before) && Legal(v) && Ws(after)
    ensures Detects(before + Print(v) + after) <==> ReadValue(START, v).Found?
  {
    RunPadded(START, before, v, after, "");
    assert before + Print(v) + after + "" == before + Print(v) + after;
  }
}
