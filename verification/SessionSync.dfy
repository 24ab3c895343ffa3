/** The aggregation loop: sessions in the order in which they are first seen, their records, and the rejected rows. */
module SessionSync {
  import opened Wrappers
  import opened SessionAggregation
  import opened SessionDescriptors

  datatype Diagnostic = Diagnostic(timestamp: int, field: string)

  /** The varying part of a stored record; the other fields are constants. */
  datatype SessionRecord = SessionRecord(
    sessionId: string,
    numbers: Record,
    browser: string,
    os: string,
    device: string,
    service: Option<string>,
    env: Option<string>,
    version: Option<string>,
    tags: seq<string>,
    source: string)

  function Rejections(rows: seq<Row>, nowUs: int): seq<Diagnostic> {
    if rows == [] then []
    else
      var last := rows[|rows| - 1];
      Rejections(rows[..|rows| - 1], nowUs) +
      (if last.unsafeKey.Some? then [Diagnostic(nowUs, last.unsafeKey.value)] else [])
  }

  /** Insertion order of the source's map. */
  function Seen(rows: seq<Row>): seq<string> {
    if rows == [] then []
    else
      var before, key := Seen(rows[..|rows| - 1]), SessionKey(rows[|rows| - 1]);
      if key.Some? && key.value !in before then before + [key.value] else before
  }

  function OrNull(s: string): Option<string> {
    if s == "" then None else Some(s)
  }

  function RecordOf(key: string, numbers: Record, a: About): SessionRecord {
    SessionRecord(key, numbers, FirstOf(a.browser, "Unknown"), FirstOf(a.os, "Unknown"), FirstOf(a.device, "Unknown"),
                  OrNull(a.service), OrNull(a.env), OrNull(a.version), a.tags, FirstOf(a.source, "rum-metadata"))
  }

  function RecordsOf(keys: seq<string>, sessions: map<string, Session>, abouts: map<string, About>): seq<SessionRecord> {
    if keys == [] then []
    else
      var key := keys[|keys| - 1];
      var numbers := ToRecord(Lookup(sessions, key));
      RecordsOf(keys[..|keys| - 1], sessions, abouts) +
      (if numbers.Some? then [RecordOf(key, numbers.value, AboutOf(abouts, key))] else [])
  }

  /** The records to be stored for a batch of rows. */
  function Records(rows: seq<Row>): seq<SessionRecord> {
    RecordsOf(Seen(rows), Aggregate(rows), Describe(rows))
  }

  // ----- what is stored

  lemma {:induction false} SeenOnce(rows: seq<Row>)
    ensures forall i, j :: 0 <= i < j < |Seen(rows)| ==> Seen(rows)[i] != Seen(rows)[j]
    ensures forall key :: key in Seen(rows) <==> key in Aggregate(rows)
    decreases |rows|
  {
    if rows != [] { SeenOnce(rows[..|rows| - 1]); }
  }

  lemma {:induction false} RecordsListed(keys: seq<string>, sessions: map<string, Session>, abouts: map<string, About>, key: string)
    ensures (exists r :: r in RecordsOf(keys, sessions, abouts) && r.sessionId == key)
       <==> key in keys && ToRecord(Lookup(sessions, key)).Some?
    decreases |keys|
  {
    if keys != [] {
      var last := |keys| - 1;
      RecordsListed(keys[..last], sessions, abouts, key);
      var before, all := RecordsOf(keys[..last], sessions, abouts), RecordsOf(keys, sessions, abouts);
      forall r | r in before ensures r in all {}
      if keys[last] == key && ToRecord(Lookup(sessions, key)).Some? {
        var made := RecordOf(key, ToRecord(Lookup(sessions, key)).value, AboutOf(abouts, key));
        assert made in all && made.sessionId == key;
      }
    }
  }

  /** No session has two records. */
  ghost predicate OneEach(records: seq<SessionRecord>) {
    forall i, j :: 0 <= i < j < |records| ==> records[i].sessionId != records[j].sessionId
  }

  lemma OneEachAppend(records: seq<SessionRecord>, r: SessionRecord)
    requires OneEach(records) && forall q :: q in records ==> q.sessionId != r.sessionId
    ensures OneEach(records + [r])
  {
    var all := records + [r];
    forall i, j | 0 <= i < j < |all| ensures all[i].sessionId != all[j].sessionId {
      assert all[i] in records;
    }
  }

  lemma {:induction false} RecordsDistinct(keys: seq<string>, sessions: map<string, Session>, abouts: map<string, About>)
    requires forall i, j :: 0 <= i < j < |keys| ==> keys[i] != keys[j]
    ensures OneEach(RecordsOf(keys, sessions, abouts))
    decreases |keys|
  {
    if keys != [] {
      var last := |keys| - 1;
      var key, before := keys[last], RecordsOf(keys[..last], sessions, abouts);
      RecordsDistinct(keys[..last], sessions, abouts);
      RecordsListed(keys[..last], sessions, abouts, key);
      var numbers := ToRecord(Lookup(sessions, key));
      if numbers.Some? {
        OneEachAppend(before, RecordOf(key, numbers.value, AboutOf(abouts, key)));
      } else {
        assert before + [] == before;
      }
    }
  }

  lemma StoredWhenTimed(rows: seq<Row>, key: string)
    ensures ToRecord(Lookup(Aggregate(rows), key)).Some? <==> exists row :: Of(key, rows, row) && Timed(row)
    ensures ToRecord(Lookup(Aggregate(rows), key)).Some? ==> key in Aggregate(rows)
  {
    RecordSpan(rows, key);
  }

  /** A batch stores one record for each session with a timed row, and no others. */
  lemma OneRecordPerTimedSession(rows: seq<Row>, key: string)
    ensures OneEach(Records(rows))
    ensures (exists r :: r in Records(rows) && r.sessionId == key) <==> exists row :: Of(key, rows, row) && Timed(row)
  {
    SeenOnce(rows);
    RecordsDistinct(Seen(rows), Aggregate(rows), Describe(rows));
    RecordsListed(Seen(rows), Aggregate(rows), Describe(rows), key);
    StoredWhenTimed(rows, key);
  }

  // ----- the loop

  method UpdateAbout(about: About, row: Row) returns (r: About)
    ensures r == Notice(about, row)
  {
    var browser, os, device, tags := about.browser, about.os, about.device, about.tags;
    var service, env, version, source := about.service, about.env, about.version, about.source;
    if browser == "" { browser := Bounded(Coalesce(row.about.userAgentBrowser, row.about.browser)); }
    if os == "" { os := Bounded(Coalesce(row.about.userAgentOs, row.about.os)); }
    if device == "" {
      device := Bounded(Coalesce(row.about.deviceType, Coalesce(row.about.device, row.about.userAgentDevice)));
    }
    if service == "" { service := Bounded(row.about.service); }
    if env == "" { env := Bounded(row.about.env); }
    if version == "" { version := Bounded(row.about.version); }
    if source == "" { source := Bounded(row.about.source); }
    if row.about.tags.Some? { tags := KeptTags(row.about.tags.value); }
    r := About(browser, os, device, service, env, version, source, tags);
  }

  method ToRecords(keys: seq<string>, sessions: map<string, Session>, abouts: map<string, About>)
    returns (records: seq<SessionRecord>)
    ensures records == RecordsOf(keys, sessions, abouts)
  {
    records := [];
    for i := 0 to |keys|
      invariant records == RecordsOf(keys[..i], sessions, abouts)
    {
      assert keys[..i + 1][..i] == keys[..i];
      var numbers := ToRecord(Lookup(sessions, keys[i]));
      if numbers.Some? { records := records + [RecordOf(keys[i], numbers.value, AboutOf(abouts, keys[i]))]; }
    }
    assert keys[..|keys|] == keys;
  }

  method AggregateSessionMetadataRows(rows: seq<Row>, nowUs: int)
    returns (records: seq<SessionRecord>, diagnostics: seq<Diagnostic>, unsafeRejections: nat)
    ensures records == Records(rows)
    ensures diagnostics == Rejections(rows, nowUs) && unsafeRejections == |diagnostics|
  {
    var sessions: map<string, Session>, abouts: map<string, About>, keys: seq<string> := map[], map[], [];
    diagnostics, unsafeRejections := [], 0;
    for i := 0 to |rows|
      invariant sessions == Aggregate(rows[..i]) && abouts == Describe(rows[..i]) && keys == Seen(rows[..i])
      invariant diagnostics == Rejections(rows[..i], nowUs) && unsafeRejections == |diagnostics|
    {
      var row := rows[i];
      assert rows[..i + 1][..i] == rows[..i];
      if row.unsafeKey.Some? {
        unsafeRejections := unsafeRejections + 1;
        diagnostics := diagnostics + [Diagnostic(nowUs, row.unsafeKey.value)];
      } else if row.sessionId.Text? && row.sessionId.s != "" {
        var key := row.sessionId.s;
        AggregateMeans(rows[..i], key);
        SeenOnce(rows[..i]);
        var session, about := Lookup(sessions, key), AboutOf(abouts, key);
        session := UpdateSession(session, row);
        about := UpdateAbout(about, row);
        if key !in sessions { keys := keys + [key]; }
        sessions, abouts := sessions[key := session], abouts[key := about];
      }
    }
    assert rows[..|rows|] == rows;
    records := ToRecords(keys, sessions, abouts);
  }
}
