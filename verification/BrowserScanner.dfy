/**
 The browser package's single-pass duplicate-key scanner.  It keeps a set of keys per open object and a
 flag telling whether the next string is a key; arrays are not tracked, and an escape loses the
 character after its backslash.
 */
module BrowserScanner {
  import opened JsonText

  datatype StringRead = StringRead(value: string, rest: string)

  /** Reads string contents; text that ends first is taken as the end of the string. */
  function ReadString(s: string): (r: StringRead)
    ensures |r.rest| <= |s|
    decreases |s|
  {
    if s == [] then StringRead("", "")
    else if s[0] == '\\' then
      if |s| < 2 then StringRead("\\", "") else Extend("\\", ReadString(s[2..]))
    else if s[0] == '"' then StringRead("", s[1..])
    else Extend(s[..1], ReadString(s[1..]))
  }

  function Extend(value: string, read: StringRead): StringRead {
    StringRead(value + read.value, read.rest)
  }

  datatype Scan = Found | Scan(stack: seq<set<string>>, expectingKey: bool)

  const START: Scan := Scan([], false)

  function MeetString(s: Scan, value: string): Scan {
    match s
    case Found => Found
    case Scan(stack, expectingKey) =>
      if !expectingKey || stack == [] then s
      else
        var top := stack[|stack| - 1];
        if value in top then Found else Scan(stack[..|stack| - 1] + [top + {value}], false)
  }

  function MeetChar(s: Scan, c: char): Scan {
    match s
    case Found => Found
    case Scan(stack, expectingKey) =>
      if c == '{' then Scan(stack + [{}], true)
      else if c == '}' then Scan(if stack == [] then [] else stack[..|stack| - 1], false)
      else if c == ',' then Scan(stack, expectingKey || stack != [])
      else if c == ':' then Scan(stack, false)
      else s
  }

  /** The state after the whole text; once found, the answer stays. */
  function Run(s: Scan, text: string): Scan
    decreases |text|
  {
    if text == [] then s
    else if text[0] == '"' then
      var read := ReadString(text[1..]);
      Run(MeetString(s, read.value), read.rest)
    else Run(MeetChar(s, text[0]), text[1..])
  }

  function Detects(text: string): bool {
    Run(START, text).Found?
  }

  // ----- the loops

  /** What is left of the text at an index that may have run past its end. */
  function Tail(text: string, index: nat): string {
    if index <= |text| then text[index..] else ""
  }

  lemma AppendRead(value: string, more: string, read: StringRead)
    ensures Extend(value, Extend(more, read)) == Extend(value + more, read)
    ensures Extend("", read) == read
  {
    assert value + (more + read.value) == value + more + read.value;
    assert "" + read.value == read.value;
  }

  /** One character or escape of string contents. */
  lemma ReadStep(s: string)
    requires s != [] && s[0] != '"'
    ensures ReadString(s) == Extend(s[..1], ReadString(if s[0] == '\\' then Tail(s, 2) else Tail(s, 1)))
  {
    if s[0] == '\\' && |s| < 2 {
      assert Tail(s, 2) == "" && s[..1] + "" == "\\";
    } else if s[0] == '\\' {
      assert s[..1] == "\\";
    }
  }

  method ReadJsonString(text: string, start: nat) returns (value: string, end: nat)
    requires start < |text|
    ensures start < end
    ensures ReadString(text[start + 1..]) == StringRead(value, Tail(text, end + 1))
  {
    value := "";
    var index := start + 1;
    AppendRead("", "", ReadString(text[index..]));
    while index < |text|
      invariant start < index
      invariant ReadString(text[start + 1..]) == Extend(value, ReadString(Tail(text, index)))
    {
      var ch := text[index];
      if ch == '"' {
        assert text[index..][1..] == text[index + 1..] && value + "" == value;
        return value, index;
      }
      var next := if ch == '\\' then index + 2 else index + 1;
      ReadStep(text[index..]);
      assert text[index..][..1] == [ch];
      assert Tail(text[index..], next - index) == Tail(text, next);
      AppendRead(value, [ch], ReadString(Tail(text, next)));
      value := value + [ch];
      index := next;
    }
    assert value + "" == value;
    return value, index;
  }

  method HasDuplicateObjectKeys(text: string) returns (found: bool)
    ensures found == Detects(text)
  {
    var stack: seq<set<string>> := [];
    var index := 0;
    var expectingObjectKey := false;
    while index < |text|
      invariant Run(START, text) == Run(Scan(stack, expectingObjectKey), Tail(text, index))
      decreases |text| - index
    {
      var ch := text[index];
      assert text[index..][1..] == text[index + 1..];
      if ch == '"' {
        var value, end := ReadJsonString(text, index);
        if expectingObjectKey && |stack| > 0 {
          var current := stack[|stack| - 1];
          if value in current {
            FoundStays(ReadString(text[index + 1..]).rest);
            return true;
          }
          stack := stack[..|stack| - 1] + [current + {value}];
          expectingObjectKey := false;
        }
        index := end + 1;
      } else {
        if ch == '{' {
          stack := stack + [{}];
          expectingObjectKey := true;
        } else if ch == '}' {
          if |stack| > 0 { stack := stack[..|stack| - 1]; }
          expectingObjectKey := false;
        } else if ch == ',' {
          if |stack| > 0 { expectingObjectKey := true; }
        } else if ch == ':' {
          expectingObjectKey := false;
        }
        index := index + 1;
      }
    }
    return false;
  }

  lemma {:induction false} FoundStays(text: string)
    ensures Run(Found, text) == Found
    decreases |text|
  {
    if text != [] {
      FoundStays(if text[0] == '"' then ReadString(text[1..]).rest else text[1..]);
    }
  }
}
