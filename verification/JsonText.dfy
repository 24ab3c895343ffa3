/**
 JSON texts as trees that remember their layout: every place where RFC 8259 (section 2) allows whitespace
 carries the whitespace written there, and strings and literals keep their source spelling.
 */
module JsonText {
  datatype Json =
    | Lit(text: string)
    | Str(raw: string)
    | Arr(pad: string, items: Items)
    | Obj(pad: string, members: Members)

  datatype Items = NoItems | Item(before: string, value: Json, after: string, rest: Items)

  datatype Members =
    | NoMembers
    | Member(before: string, key: string, beforeColon: string, afterColon: string, value: Json, after: string, rest: Members)

  // ----- legal texts

  predicate WsChar(c: char) {
    c == ' ' || c == '\t' || c == '\n' || c == '\r'
  }

  predicate Ws(s: string) {
    forall i :: 0 <= i < |s| ==> WsChar(s[i])
  }

  predicate StructuralChar(c: char) {
    c == '{' || c == '}' || c == '[' || c == ']' || c == ':' || c == ','
  }

  /** Numbers, true, false and null (RFC 8259 sections 3 and 6) are spelled with these characters. */
  predicate LiteralChar(c: char) {
    'a' <= c <= 'z' || 'A' <= c <= 'Z' || '0' <= c <= '9' || c == '+' || c == '-' || c == '.'
  }

  predicate LiteralText(s: string) {
    s != [] && forall i :: 0 <= i < |s| ==> LiteralChar(s[i])
  }

  /** String contents (section 7): no bare quote, and every backslash escapes a character. */
  predicate RawText(s: string)
    decreases |s|
  {
    if s == [] then true
    else if s[0] == '\\' then |s| >= 2 && RawText(s[2..])
    else s[0] != '"' && RawText(s[1..])
  }

  predicate Legal(v: Json) {
    match v
    case Lit(text) => LiteralText(text)
    case Str(raw) => RawText(raw)
    case Arr(pad, items) => Ws(pad) && LegalItems(items)
    case Obj(pad, members) => Ws(pad) && LegalMembers(members)
  }

  predicate LegalItems(items: Items) {
    match items
    case NoItems => true
    case Item(before, value, after, rest) => Ws(before) && Legal(value) && Ws(after) && LegalItems(rest)
  }

  predicate LegalMembers(members: Members) {
    match members
    case NoMembers => true
    case Member(before, key, beforeColon, afterColon, value, after, rest) =>
      && Ws(before) && RawText(key) && Ws(beforeColon) && Ws(afterColon)
      && Legal(value) && Ws(after) && LegalMembers(rest)
  }

  // ----- printing

  function Quoted(raw: string): string {
    "\"" + raw + "\""
  }

  function Print(v: Json): string {
    match v
    case Lit(text) => text
    case Str(raw) => Quoted(raw)
    case Arr(pad, items) => "[" + (if items.NoItems? then pad else PrintItems(items)) + "]"
    case Obj(pad, members) => "{" + (if members.NoMembers? then pad else PrintMembers(members)) + "}"
  }

  function PrintItems(items: Items): string {
    match items
    case NoItems => ""
    case Item(before, value, after, rest) =>
      before + Print(value) + after + (if rest.NoItems? then "" else "," + PrintItems(rest))
  }

  function PrintMembers(members: Members): string {
    match members
    case NoMembers => ""
    case Member(before, key, beforeColon, afterColon, value, after, rest) =>
      before + Quoted(key) + beforeColon + ":" + afterColon + Print(value) + after +
      (if rest.NoMembers? then "" else "," + PrintMembers(rest))
  }

  /** One member without the comma after it. */
  function PrintMember(m: Members): string
    requires m.Member?
  {
    m.before + Quoted(m.key) + m.beforeColon + ":" + m.afterColon + Print(m.value) + m.after
  }

  // ----- what counts as a duplicate key

  function Keys(members: Members): seq<string> {
    match members
    case NoMembers => []
    case Member(_, key, _, _, _, _, rest) => [key] + Keys(rest)
  }

  ghost predicate Repeats(keys: seq<string>) {
    exists i, j :: 0 <= i < j < |keys| && keys[i] == keys[j]
  }

  /** Some object, at whatever depth, repeats the source spelling of a key. */
  ghost predicate HasDuplicate(v: Json) {
    match v
    case Lit(_) => false
    case Str(_) => false
    case Arr(_, items) => ItemsHaveDuplicate(items)
    case Obj(_, members) => Repeats(Keys(members)) || MembersHaveDuplicate(members)
  }

  ghost predicate ItemsHaveDuplicate(items: Items) {
    match items
    case NoItems => false
    case Item(_, value, _, rest) => HasDuplicate(value) || ItemsHaveDuplicate(rest)
  }

  ghost predicate MembersHaveDuplicate(members: Members) {
    match members
    case NoMembers => false
    case Member(_, _, _, _, value, _, rest) => HasDuplicate(value) || MembersHaveDuplicate(rest)
  }

  /** Reading the keys from left to right against those already seen. */
  predicate RepeatsSeen(seen: set<string>, keys: seq<string>)
    decreases |keys|
  {
    keys != [] && (keys[0] in seen || RepeatsSeen(seen + {keys[0]}, keys[1..]))
  }

  lemma {:induction false} SeenOrRepeated(seen: set<string>, keys: seq<string>)
    ensures RepeatsSeen(seen, keys) <==> Repeats(keys) || exists i :: 0 <= i < |keys| && keys[i] in seen
    decreases |keys|
  {
    if keys != [] {
      var rest := keys[1..];
      SeenOrRepeated(seen + {keys[0]}, rest);
      forall i | 0 <= i < |rest| ensures rest[i] == keys[i + 1] {}
      if Repeats(rest) {
        var i, j :| 0 <= i < j < |rest| && rest[i] == rest[j];
        assert keys[i + 1] == keys[j + 1];
      }
      if exists i :: 0 <= i < |rest| && rest[i] in seen + {keys[0]} {
        var i :| 0 <= i < |rest| && rest[i] in seen + {keys[0]};
        assert keys[i + 1] in seen || keys[0] == keys[i + 1];
      }
      if Repeats(keys) {
        var i, j :| 0 <= i < j < |keys| && keys[i] == keys[j];
        if i == 0 { assert rest[j - 1] == keys[0]; } else { assert rest[i - 1] == rest[j - 1]; }
      }
      if exists i :: 0 <= i < |keys| && keys[i] in seen {
        var i :| 0 <= i < |keys| && keys[i] in seen;
        if i > 0 { assert rest[i - 1] in seen; }
      }
    }
  }
}
