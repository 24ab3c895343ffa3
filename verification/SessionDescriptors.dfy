/**
 The texts that describe a session: for each the first one that any of its rows offers wins, so unlike the
 numbers they depend on the order of the rows; for the tags the last array wins.
 */
module SessionDescriptors {
  import opened Wrappers
  import opened SessionAggregation

  datatype Descriptor = Browser | Os | Device | Service | Env | Version | Source

  /** The empty string stands for unset and null alike, which the source's `||` does not tell apart either. */
  datatype About = About(
    browser: string,
    os: string,
    device: string,
    service: string,
    env: string,
    version: string,
    source: string,
    tags: seq<string>)

  const BLANK := About("", "", "", "", "", "", "", [])

  function Get(a: About, d: Descriptor): string {
    match d
    case Browser => a.browser
    case Os => a.os
    case Device => a.device
    case Service => a.service
    case Env => a.env
    case Version => a.version
    case Source => a.source
  }

  function Bounded(field: Field): string {
    if field.Text? then (if |field.s| > 80 then field.s[..80] else field.s) else ""
  }

  function Offered(row: Row, d: Descriptor): string {
    match d
    case Browser => Bounded(Coalesce(row.about.userAgentBrowser, row.about.browser))
    case Os => Bounded(Coalesce(row.about.userAgentOs, row.about.os))
    case Device => Bounded(Coalesce(row.about.deviceType, Coalesce(row.about.device, row.about.userAgentDevice)))
    case Service => Bounded(row.about.service)
    case Env => Bounded(row.about.env)
    case Version => Bounded(row.about.version)
    case Source => Bounded(row.about.source)
  }

  function Texts(fields: seq<Field>): seq<string> {
    if fields == [] then []
    else (if fields[0].Text? then [fields[0].s] else []) + Texts(fields[1..])
  }

  function KeptTags(fields: seq<Field>): seq<string> {
    var texts := Texts(fields);
    if |texts| > 20 then texts[..20] else texts
  }

  function FirstOf(a: string, b: string): string {
    if a != "" then a else b
  }

  function Notice(a: About, row: Row): About {
    About(
      FirstOf(a.browser, Offered(row, Browser)),
      FirstOf(a.os, Offered(row, Os)),
      FirstOf(a.device, Offered(row, Device)),
      FirstOf(a.service, Offered(row, Service)),
      FirstOf(a.env, Offered(row, Env)),
      FirstOf(a.version, Offered(row, Version)),
      FirstOf(a.source, Offered(row, Source)),
      if row.about.tags.Some? then KeptTags(row.about.tags.value) else a.tags)
  }

  function AboutOf(abouts: map<string, About>, key: string): About {
    if key in abouts then abouts[key] else BLANK
  }

  function Describe(rows: seq<Row>): map<string, About> {
    if rows == [] then map[]
    else
      var before, row := Describe(rows[..|rows| - 1]), rows[|rows| - 1];
      match SessionKey(row)
      case None => before
      case Some(key) => before[key := Notice(AboutOf(before, key), row)]
  }

  lemma {:induction false} DescribesSessions(rows: seq<Row>)
    ensures Describe(rows).Keys == Aggregate(rows).Keys
    decreases |rows|
  {
    if rows != [] { DescribesSessions(rows[..|rows| - 1]); }
  }

  // ----- what the result means

  /** What the fold says of one descriptor of one session. */
  function Told(rows: seq<Row>, key: string, d: Descriptor): string {
    Get(AboutOf(Describe(rows), key), d)
  }

  lemma ToldStep(rows: seq<Row>, key: string, d: Descriptor)
    requires rows != []
    ensures var init, row := rows[..|rows| - 1], rows[|rows| - 1];
            Told(rows, key, d) ==
            if SessionKey(row) == Some(key) then FirstOf(Told(init, key, d), Offered(row, d)) else Told(init, key, d)
  {}

  ghost predicate Offers(key: string, rows: seq<Row>, d: Descriptor, i: nat) {
    i < |rows| && SessionKey(rows[i]) == Some(key) && Offered(rows[i], d) != ""
  }

  ghost predicate FirstOffer(key: string, rows: seq<Row>, d: Descriptor, i: nat) {
    Offers(key, rows, d, i) && forall j: nat | j < i :: !Offers(key, rows, d, j)
  }

  /** Each descriptor is what the first row of the session that offers one offers, and unset exactly if none does. */
  lemma {:induction false} DescriptorIsFirst(rows: seq<Row>, key: string, d: Descriptor)
    ensures var value := Told(rows, key, d);
            && (value == "" <==> forall i: nat :: !Offers(key, rows, d, i))
            && (value != "" ==> exists i: nat :: FirstOffer(key, rows, d, i) && Offered(rows[i], d) == value)
    decreases |rows|
  {
    if rows != [] {
      var last := |rows| - 1;
      var init := rows[..last];
      DescriptorIsFirst(init, key, d);
      ToldStep(rows, key, d);
      forall i: nat | i < last ensures Offers(key, rows, d, i) <==> Offers(key, init, d, i) {}
      var value := Told(init, key, d);
      if value != "" {
        var i: nat :| FirstOffer(key, init, d, i) && Offered(init[i], d) == value;
        assert FirstOffer(key, rows, d, i) && Offered(rows[i], d) == value;
      } else if Offers(key, rows, d, last) {
        assert FirstOffer(key, rows, d, last);
      }
    }
  }

  ghost predicate Tagged(key: string, rows: seq<Row>, i: nat) {
    i < |rows| && SessionKey(rows[i]) == Some(key) && rows[i].about.tags.Some?
  }

  /** The tags are the first twenty texts of the last array that a row of the session carries. */
  lemma {:induction false} TagsAreLast(rows: seq<Row>, key: string, i: nat)
    requires Tagged(key, rows, i) && forall j: nat | j > i :: !Tagged(key, rows, j)
    ensures AboutOf(Describe(rows), key).tags == KeptTags(rows[i].about.tags.value)
    decreases |rows|
  {
    var last := |rows| - 1;
    if i < last {
      assert !Tagged(key, rows, last);
      forall j: nat | j > i ensures !Tagged(key, rows[..last], j) {
        if j < last { assert !Tagged(key, rows, j); }
      }
      TagsAreLast(rows[..last], key, i);
    }
  }

  ghost predicate SameRows(rows: seq<Row>, others: seq<Row>) {
    forall r :: r in rows <==> r in others
  }

  /** All rows of the session that offer the descriptor offer the same. */
  ghost predicate Unanimous(rows: seq<Row>, key: string, d: Descriptor) {
    forall r, s :: Of(key, rows, r) && Of(key, rows, s) && Offered(r, d) != "" && Offered(s, d) != "" ==>
      Offered(r, d) == Offered(s, d)
  }

  lemma SomeOffer(rows: seq<Row>, key: string, d: Descriptor)
    ensures var value := Told(rows, key, d);
            && (value == "" <==> forall r :: Of(key, rows, r) ==> Offered(r, d) == "")
            && (value != "" ==> exists r :: Of(key, rows, r) && Offered(r, d) == value)
  {
    DescriptorIsFirst(rows, key, d);
    var value := Told(rows, key, d);
    if value == "" {
      forall r | Of(key, rows, r) ensures Offered(r, d) == "" {
        var i: nat :| i < |rows| && rows[i] == r;
        assert !Offers(key, rows, d, i);
      }
    } else {
      var i: nat :| FirstOffer(key, rows, d, i) && Offered(rows[i], d) == value;
      assert Of(key, rows, rows[i]);
    }
  }

  /** A row put first has its way. */
  lemma FirstRowWins(r: Row, rows: seq<Row>, key: string, d: Descriptor)
    requires SessionKey(r) == Some(key) && Offered(r, d) != ""
    ensures Told([r] + rows, key, d) == Offered(r, d)
  {
    var all := [r] + rows;
    DescriptorIsFirst(all, key, d);
    assert Offers(key, all, d, 0);
    var i: nat :| FirstOffer(key, all, d, i) && Offered(all[i], d) == Told(all, key, d);
    assert i == 0;
  }

  lemma UnanimousIgnoresOrder(rows: seq<Row>, others: seq<Row>, key: string, d: Descriptor)
    requires SameRows(rows, others) && Unanimous(rows, key, d)
    ensures Told(others, key, d) == Told(rows, key, d)
  {
    SomeOffer(rows, key, d);
    SomeOffer(others, key, d);
    forall r ensures Of(key, rows, r) <==> Of(key, others, r) {}
  }

  lemma OrderMatters(rows: seq<Row>, key: string, d: Descriptor) returns (others: seq<Row>)
    requires !Unanimous(rows, key, d)
    ensures SameRows(rows, others) && Told(others, key, d) != Told(rows, key, d)
  {
    var r, s :| Of(key, rows, r) && Of(key, rows, s) && Offered(r, d) != "" && Offered(s, d) != "" && Offered(r, d) != Offered(s, d);
    FirstRowWins(r, rows, key, d);
    FirstRowWins(s, rows, key, d);
    others := if Offered(r, d) != Told(rows, key, d) then [r] + rows else [s] + rows;
  }

  /** Reordering and repeating rows leaves a descriptor alone exactly if the rows of the session agree on it. */
  lemma DescriptorIgnoresOrderExactly(rows: seq<Row>, key: string, d: Descriptor)
    ensures (forall others :: SameRows(rows, others) ==> Told(others, key, d) == Told(rows, key, d)) <==> Unanimous(rows, key, d)
  {
    if Unanimous(rows, key, d) {
      forall others | SameRows(rows, others) ensures Told(others, key, d) == Told(rows, key, d) {
        UnanimousIgnoresOrder(rows, others, key, d);
      }
    } else {
      var others := OrderMatters(rows, key, d);
    }
  }
}
