/**
 What the browser's scanner reports, stated on trees, and how that compares with the exact scanner of the
 contracts package.
 */
module BrowserScannerProofs {
  import opened JsonText
  import opened BrowserScanner
  import opened BrowserFold
  import ContractScanner
  import ContractScannerProofs

  // ----- what it reports

  /**
   The strings of a value that are taken for keys of the object around it: those in its arrays, objects
   inside it excepted, that have a comma between the member's colon and themselves.
   */
  function TakenForKeys(v: Json, afterComma: bool): seq<string>
    requires Legal(v)
    decreases v
  {
    match v
    case Lit(_) => []
    case Str(raw) => if afterComma then [Strip(raw)] else []
    case Arr(_, items) => TakenFromItems(items, afterComma)
    case Obj(_, _) => []
  }

  function TakenFromItems(items: Items, afterComma: bool): seq<string>
    requires LegalItems(items)
    decreases items
  {
    match items
    case NoItems => []
    case Item(_, value, _, rest) => TakenForKeys(value, afterComma) + TakenFromItems(rest, true)
  }

  /** Everything compared within one object: its keys and the strings taken for keys. */
  function Compared(members: Members): seq<string>
    requires LegalMembers(members)
    decreases members
  {
    match members
    case NoMembers => []
    case Member(_, key, _, _, value, _, rest) => [Strip(key)] + (TakenForKeys(value, false) + Compared(rest))
  }

  /** Some object, at whatever depth, compares two equal strings. */
  ghost predicate Reports(v: Json)
    requires Legal(v)
    decreases v
  {
    match v
    case Lit(_) => false
    case Str(_) => false
    case Arr(_, items) => ItemsReport(items)
    case Obj(_, members) => Repeats(Compared(members)) || MembersReport(members)
  }

  ghost predicate ItemsReport(items: Items)
    requires LegalItems(items)
    decreases items
  {
    match items
    case NoItems => false
    case Item(_, value, _, rest) => Reports(value) || ItemsReport(rest)
  }

  ghost predicate MembersReport(members: Members)
    requires LegalMembers(members)
    decreases members
  {
    match members
    case NoMembers => false
    case Member(_, _, _, _, value, _, rest) => Reports(value) || MembersReport(rest)
  }

  // ----- once found, found

  lemma {:induction false} FoundValue(v: Json)
    requires Legal(v)
    ensures ReadValue(Found, v) == Found
    decreases v
  {
    match v
    case Lit(_) =>
    case Str(_) =>
    case Arr(_, items) => FoundItems(items);
    case Obj(_, members) => FoundMembers(members);
  }

  lemma {:induction false} FoundItems(items: Items)
    requires LegalItems(items)
    ensures ReadItems(Found, items) == Found
    decreases items
  {
    if items.Item? {
      FoundValue(items.value);
      FoundItems(items.rest);
    }
  }

  lemma {:induction false} FoundMembers(members: Members)
    requires LegalMembers(members)
    ensures ReadMembers(Found, members) == Found
    decreases members
  {
    if members.Member? {
      FoundValue(members.value);
      FoundMembers(members.rest);
    }
  }

  // ----- the fold against the tree

  function Elements(keys: seq<string>): set<string> {
    set k | k in keys
  }

  lemma {:induction false} RepeatsInParts(seen: set<string>, first: seq<string>, second: seq<string>)
    ensures RepeatsSeen(seen, first + second)
       <==> RepeatsSeen(seen, first) || RepeatsSeen(seen + Elements(first), second)
    decreases |first|
  {
    if first == [] {
      assert first + second == second && seen + Elements(first) == seen;
    } else {
      assert (first + second)[1..] == first[1..] + second;
      assert seen + {first[0]} + Elements(first[1..]) == seen + Elements(first);
      RepeatsInParts(seen + {first[0]}, first[1..], second);
    }
  }

  function TopKeys(s: Scan): set<string>
    requires s.Scan? && s.stack != []
  {
    s.stack[|s.stack| - 1]
  }

  /** The same open objects, the innermost with some strings added. */
  ghost predicate Adds(s: Scan, taken: seq<string>, s': Scan) {
    s.Scan? && s'.Scan? ==>
      if s.stack == [] then s'.stack == []
      else s'.stack == s.stack[..|s.stack| - 1] + [TopKeys(s) + Elements(taken)]
  }

  /** A string among those taken repeats one taken before it in the innermost object. */
  ghost predicate Clashes(s: Scan, taken: seq<string>) {
    s.Scan? && s.stack != [] && RepeatsSeen(TopKeys(s), taken)
  }

  lemma TakeInParts(s: Scan, first: seq<string>, s1: Scan, second: seq<string>, s2: Scan)
    requires s.Scan? && Adds(s, first, s1)
    ensures s1.Scan? ==> (Clashes(s, first + second) <==> Clashes(s, first) || Clashes(s1, second))
    ensures s1.Scan? && Adds(s1, second, s2) ==> Adds(s, first + second, s2)
    ensures Clashes(s, first) ==> Clashes(s, first + second)
  {
    if s.stack != [] {
      RepeatsInParts(TopKeys(s), first, second);
      assert Elements(first) + Elements(second) == Elements(first + second);
      assert TopKeys(s) + Elements(first) + Elements(second) == TopKeys(s) + Elements(first + second);
    }
  }

  lemma ReadNothing(s: Scan)
    ensures Adds(s, [], s) && !Clashes(s, [])
  {
    if s.Scan? && s.stack != [] {
      assert TopKeys(s) + Elements([]) == TopKeys(s);
    }
  }

  lemma ReadOneString(s: Scan, raw: string)
    requires s.Scan? && RawText(raw)
    ensures Adds(s, TakenForKeys(Str(raw), s.expectingKey), MeetString(s, Strip(raw)))
    ensures MeetString(s, Strip(raw)).Found? <==> Clashes(s, TakenForKeys(Str(raw), s.expectingKey))
  {
    ReadNothing(s);
    var key := Strip(raw);
    assert Elements([key]) == {key};
    if s.stack != [] {
      assert !RepeatsSeen(TopKeys(s) + {key}, [key][1..]);
      assert RepeatsSeen(TopKeys(s), [key]) <==> key in TopKeys(s);
    }
  }

  lemma {:induction false} FoldValue(s: Scan, v: Json)
    requires s.Scan? && Legal(v)
    ensures ReadValue(s, v).Found? <==> Reports(v) || Clashes(s, TakenForKeys(v, s.expectingKey))
    ensures Adds(s, TakenForKeys(v, s.expectingKey), ReadValue(s, v))
    decreases v
  {
    match v
    case Lit(_) => ReadNothing(s);
    case Str(raw) => ReadOneString(s, raw);
    case Arr(_, items) => FoldItems(s, items);
    case Obj(_, members) =>
      SeenOrRepeated({}, Compared(members));
      ReadNothing(s);
      FoldMembers(MeetChar(s, '{'), members);
  }

  lemma {:induction false} FoldItems(s: Scan, items: Items)
    requires s.Scan? && LegalItems(items)
    ensures ReadItems(s, items).Found? <==> ItemsReport(items) || Clashes(s, TakenFromItems(items, s.expectingKey))
    ensures Adds(s, TakenFromItems(items, s.expectingKey), ReadItems(s, items))
    decreases items
  {
    if items.NoItems? {
      ReadNothing(s);
    } else {
      var first, second := TakenForKeys(items.value, s.expectingKey), TakenFromItems(items.rest, true);
      var s1 := MeetChar(ReadValue(s, items.value), ',');
      FoldValue(s, items.value);
      TakeInParts(s, first, s1, second, ReadItems(s1, items.rest));
      if s1.Found? { FoundItems(items.rest); } else { FoldItems(s1, items.rest); }
    }
  }

  lemma {:induction false} FoldMembers(s: Scan, members: Members)
    requires s.Scan? && s.stack != [] && s.expectingKey && LegalMembers(members)
    ensures ReadMembers(s, members).Found? <==> MembersReport(members) || Clashes(s, Compared(members))
    ensures Adds(s, Compared(members), ReadMembers(s, members))
    decreases members
  {
    if members.NoMembers? {
      ReadNothing(s);
    } else {
      var key, taken, rest := Strip(members.key), TakenForKeys(members.value, false), Compared(members.rest);
      var s1 := MeetChar(MeetString(s, key), ':');
      var s2 := MeetChar(ReadValue(s1, members.value), ',');
      var s3 := ReadMembers(s2, members.rest);
      ReadOneString(s, members.key);
      TakeInParts(s, [key], s1, taken + rest, s3);
      if s1.Found? {
        FoundValue(members.value);
        FoundMembers(members.rest);
      } else {
        FoldValue(s1, members.value);
        TakeInParts(s1, taken, s2, rest, s3);
        if s2.Found? { FoundMembers(members.rest); } else { FoldMembers(s2, members.rest); }
      }
    }
  }

  /** On printed text the browser's scanner answers exactly whether some object compares two equal strings. */
  lemma BrowserDetectsExactly(before: string, v: Json, after: string)
    requires Ws(before) && Legal(v) && Ws(after)
    ensures Detects(before + Print(v) + after) <==> Reports(v)
  {
    DetectsIsFold(before, v, after);
    FoldValue(START, v);
  }

  // ----- no duplicate escapes

  lemma {:induction false} ValueCaught(v: Json)
    requires Legal(v) && HasDuplicate(v)
    ensures Reports(v)
    decreases v
  {
    match v
    case Arr(_, items) => ItemsCaught(items);
    case Obj(_, members) =>
      if Repeats(Keys(members)) {
        SeenOrRepeated({}, Keys(members));
        SeenOrRepeated({}, Compared(members));
        KeysCaught({}, members, {});
      } else {
        MembersCaught(members);
      }
  }

  lemma {:induction false} ItemsCaught(items: Items)
    requires LegalItems(items) && ItemsHaveDuplicate(items)
    ensures ItemsReport(items)
    decreases items
  {
    if HasDuplicate(items.value) { ValueCaught(items.value); } else { ItemsCaught(items.rest); }
  }

  lemma {:induction false} MembersCaught(members: Members)
    requires LegalMembers(members) && MembersHaveDuplicate(members)
    ensures MembersReport(members)
    decreases members
  {
    if HasDuplicate(members.value) { ValueCaught(members.value); } else { MembersCaught(members.rest); }
  }

  /** Keys spelled alike are kept alike. */
  lemma {:induction false} KeysCaught(seen: set<string>, members: Members, kept: set<string>)
    requires LegalMembers(members) && RepeatsSeen(seen, Keys(members))
    requires forall k :: k in seen ==> RawText(k) && Strip(k) in kept
    ensures RepeatsSeen(kept, Compared(members))
    decreases members
  {
    var key, taken, rest := Strip(members.key), TakenForKeys(members.value, false), Compared(members.rest);
    assert Keys(members)[0] == members.key && Keys(members)[1..] == Keys(members.rest);
    assert Compared(members)[0] == key && Compared(members)[1..] == taken + rest;
    if members.key !in seen {
      KeysCaught(seen + {members.key}, members.rest, kept + {key} + Elements(taken));
      RepeatsInParts(kept + {key}, taken, rest);
    }
  }

  /** Whatever the exact scanner reports, the browser's scanner reports too. */
  lemma BrowserMissesNothing(before: string, v: Json, after: string)
    requires Ws(before) && Legal(v) && Ws(after)
    ensures ContractScanner.Detects(before + Print(v) + after) ==> Detects(before + Print(v) + after)
  {
    ContractScannerProofs.DetectsExactly(before, v, after);
    BrowserDetectsExactly(before, v, after);
    if HasDuplicate(v) { ValueCaught(v); }
  }

  // ----- where the two agree

  predicate NoBackslash(s: string) {
    forall i :: 0 <= i < |s| ==> s[i] != '\\'
  }

  /** No escape in any key, and no string taken for a key. */
  predicate Calm(v: Json)
    requires Legal(v)
    decreases v
  {
    match v
    case Lit(_) => true
    case Str(_) => true
    case Arr(_, items) => CalmItems(items)
    case Obj(_, members) => CalmMembers(members)
  }

  predicate CalmItems(items: Items)
    requires LegalItems(items)
    decreases items
  {
    match items
    case NoItems => true
    case Item(_, value, _, rest) => Calm(value) && CalmItems(rest)
  }

  predicate CalmMembers(members: Members)
    requires LegalMembers(members)
    decreases members
  {
    match members
    case NoMembers => true
    case Member(_, key, _, _, value, _, rest) =>
      NoBackslash(key) && TakenForKeys(value, false) == [] && Calm(value) && CalmMembers(rest)
  }

  lemma {:induction false} StripPlain(raw: string)
    requires RawText(raw) && NoBackslash(raw)
    ensures Strip(raw) == raw
    decreases |raw|
  {
    if raw != [] {
      StripPlain(raw[1..]);
      assert raw[..1] + raw[1..] == raw;
    }
  }

  lemma {:induction false} CalmValue(v: Json)
    requires Legal(v) && Calm(v)
    ensures Reports(v) <==> HasDuplicate(v)
    decreases v
  {
    match v
    case Lit(_) =>
    case Str(_) =>
    case Arr(_, items) => CalmItemsAgree(items);
    case Obj(_, members) => CalmMembersAgree(members);
  }

  lemma {:induction false} CalmItemsAgree(items: Items)
    requires LegalItems(items) && CalmItems(items)
    ensures ItemsReport(items) <==> ItemsHaveDuplicate(items)
    decreases items
  {
    if items.Item? {
      CalmValue(items.value);
      CalmItemsAgree(items.rest);
    }
  }

  lemma {:induction false} CalmMembersAgree(members: Members)
    requires LegalMembers(members) && CalmMembers(members)
    ensures Compared(members) == Keys(members)
    ensures MembersReport(members) <==> MembersHaveDuplicate(members)
    decreases members
  {
    if members.Member? {
      StripPlain(members.key);
      CalmValue(members.value);
      CalmMembersAgree(members.rest);
    }
  }

  /** The two scanners agree on every text without an escape in a key and without a string taken for a key. */
  lemma ScannersAgreeOnCalm(before: string, v: Json, after: string)
    requires Ws(before) && Legal(v) && Ws(after) && Calm(v)
    ensures Detects(before + Print(v) + after) <==> ContractScanner.Detects(before + Print(v) + after)
  {
    ContractScannerProofs.DetectsExactly(before, v, after);
    BrowserDetectsExactly(before, v, after);
    CalmValue(v);
  }

  predicate NoArrays(v: Json) {
    match v
    case Lit(_) => true
    case Str(_) => true
    case Arr(_, _) => false
    case Obj(_, members) => NoArraysIn(members)
  }

  predicate NoArraysIn(members: Members) {
    match members
    case NoMembers => true
    case Member(_, key, _, _, value, _, rest) => NoBackslash(key) && NoArrays(value) && NoArraysIn(rest)
  }

  /** In particular on texts without arrays and without a backslash in a key. */
  lemma {:induction false} NoArraysIsCalm(v: Json)
    requires Legal(v) && NoArrays(v)
    ensures Calm(v) && TakenForKeys(v, false) == []
    decreases v
  {
    if v.Obj? { NoArraysInIsCalm(v.members); }
  }

  lemma {:induction false} NoArraysInIsCalm(members: Members)
    requires LegalMembers(members) && NoArraysIn(members)
    ensures CalmMembers(members)
    decreases members
  {
    if members.Member? {
      NoArraysIsCalm(members.value);
      NoArraysInIsCalm(members.rest);
    }
  }

  // ----- where they differ

  /** One member in compact layout. */
  function One(key: string, value: Json, rest: Members): Members {
    Member("", key, "", "", value, "", rest)
  }

  lemma OneMember(key: string, value: Json, rest: Members)
    requires RawText(key) && Legal(value) && LegalMembers(rest)
    ensures LegalMembers(One(key, value, rest)) && Legal(Obj("", One(key, value, rest)))
    ensures Keys(One(key, value, rest)) == [key] + Keys(rest)
    ensures Compared(One(key, value, rest)) == [Strip(key)] + (TakenForKeys(value, false) + Compared(rest))
    ensures MembersHaveDuplicate(One(key, value, rest)) <==> HasDuplicate(value) || MembersHaveDuplicate(rest)
    ensures MembersReport(One(key, value, rest)) <==> Reports(value) || MembersReport(rest)
  {}

  lemma NoMember(rest: Members)
    requires rest.NoMembers?
    ensures LegalMembers(rest) && Keys(rest) == [] && Compared(rest) == []
    ensures !MembersHaveDuplicate(rest) && !MembersReport(rest)
  {}

  /** An array item in compact layout, its value a number or a string. */
  lemma OneItem(value: Json, rest: Items, afterComma: bool)
    requires Legal(value) && LegalItems(rest) && (value.Lit? || value.Str?)
    ensures LegalItems(Item("", value, "", rest))
    ensures TakenFromItems(Item("", value, "", rest), afterComma)
         == TakenForKeys(value, afterComma) + TakenFromItems(rest, true)
    ensures ItemsHaveDuplicate(Item("", value, "", rest)) <==> ItemsHaveDuplicate(rest)
    ensures ItemsReport(Item("", value, "", rest)) <==> ItemsReport(rest)
  {}

  lemma NoItem(rest: Items)
    requires rest.NoItems?
    ensures LegalItems(rest) && TakenFromItems(rest, true) == [] && !ItemsHaveDuplicate(rest) && !ItemsReport(rest)
  {}

  /** The array [1,"raw"]. */
  function NumberAndString(raw: string): Json {
    Arr("", Item("", Lit("1"), "", Item("", Str(raw), "", NoItems)))
  }

  lemma NumberAndStringTaken(raw: string)
    requires RawText(raw)
    ensures Legal(NumberAndString(raw)) && TakenForKeys(NumberAndString(raw), false) == [Strip(raw)]
    ensures !HasDuplicate(NumberAndString(raw)) && !Reports(NumberAndString(raw))
  {
    NoItem(NoItems);
    OneItem(Str(raw), NoItems, true);
    OneItem(Lit("1"), Item("", Str(raw), "", NoItems), false);
  }

  lemma TwoEqual(a: string, b: string)
    ensures Repeats([a, b]) <==> a == b
  {
    if a == b { assert [a, b][0] == [a, b][1]; }
  }

  /** A string after a comma in an array is compared with the key of the object around it: {"key":[1,"raw"]}. */
  lemma ItemTakenForKey(key: string, raw: string) returns (v: Json)
    requires RawText(key) && RawText(raw)
    ensures v == Obj("", One(key, NumberAndString(raw), NoMembers))
    ensures Legal(v) && !HasDuplicate(v)
    ensures Reports(v) <==> Strip(key) == Strip(raw)
  {
    NoMember(NoMembers);
    NumberAndStringTaken(raw);
    OneMember(key, NumberAndString(raw), NoMembers);
    TwoEqual(Strip(key), Strip(raw));
    var members := One(key, NumberAndString(raw), NoMembers);
    assert Compared(members) == [Strip(key), Strip(raw)] && Keys(members) == [key];
    v := Obj("", members);
  }

  /** Of two keys the exact scanner compares the spelling, the browser's what it kept of it: {"first":1,"second":2}. */
  lemma TwoKeysCompared(first: string, second: string) returns (v: Json)
    requires RawText(first) && RawText(second)
    ensures v == Obj("", One(first, Lit("1"), One(second, Lit("2"), NoMembers)))
    ensures Legal(v)
    ensures HasDuplicate(v) <==> first == second
    ensures Reports(v) <==> Strip(first) == Strip(second)
  {
    NoMember(NoMembers);
    OneMember(second, Lit("2"), NoMembers);
    OneMember(first, Lit("1"), One(second, Lit("2"), NoMembers));
    TwoEqual(first, second);
    TwoEqual(Strip(first), Strip(second));
    var members := One(first, Lit("1"), One(second, Lit("2"), NoMembers));
    assert Compared(members) == [Strip(first), Strip(second)] && Keys(members) == [first, second];
    v := Obj("", members);
  }

  /** Both ways to over-approximate are real: {"a":[1,"a"]} and {"\n":1,"\t":2} hold no duplicate key. */
  lemma OverApproximates() returns (v: Json, w: Json)
    ensures Legal(v) && Detects(Print(v)) && !ContractScanner.Detects(Print(v))
    ensures Legal(w) && Detects(Print(w)) && !ContractScanner.Detects(Print(w))
  {
    v := ItemTakenForKey("a", "a");
    w := TwoKeysCompared("\\n", "\\t");
    BothAnswers(v);
    BothAnswers(w);
  }

  lemma BothAnswers(v: Json)
    requires Legal(v)
    ensures Detects(Print(v)) <==> Reports(v)
    ensures ContractScanner.Detects(Print(v)) <==> HasDuplicate(v)
  {
    assert "" + Print(v) + "" == Print(v);
    ContractScannerProofs.DetectsExactly("", v, "");
    BrowserDetectsExactly("", v, "");
  }
}
