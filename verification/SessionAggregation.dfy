/**
 The session-metadata fold: rows of the RUM stream are grouped by session into a time span and four sets
 of identifiers.  Delivery is at-least-once and unordered, so the result must depend only on which rows exist.
 */
module SessionAggregation {
  import opened Wrappers

  /** An optional property of a row, as it was parsed; null counts as missing. */
  datatype Field = Missing | Text(s: string) | Number(n: int)

  /**
   `unsafeKey` is the first forbidden property name found in the row, if any; `frustration` says that the
   row, or the action in it, is marked as a frustration.
   */
  datatype Row = Row(
    unsafeKey: Option<string>,
    sessionId: Field,
    timestamp: Option<int>,
    date: Option<int>,
    kind: Field,
    viewId: Field,
    nestedViewId: Field,
    actionId: Field,
    nestedActionId: Field,
    errorId: Field,
    nestedErrorId: Field,
    errorFingerprint: Field,
    frustration: bool,
    about: RowAbout)

  /** The properties that describe the session; `tags` is None unless the row carries an array. */
  datatype RowAbout = RowAbout(
    userAgentBrowser: Field,
    browser: Field,
    userAgentOs: Field,
    os: Field,
    deviceType: Field,
    device: Field,
    userAgentDevice: Field,
    service: Field,
    env: Field,
    version: Field,
    source: Field,
    tags: Option<seq<Field>>)

  /** `start` is None for the initial infinity. */
  datatype Session = Session(
    start: Option<int>,
    end: int,
    viewIds: set<string>,
    actionIds: set<string>,
    errorIds: set<string>,
    frustrationIds: set<string>)

  const EMPTY := Session(None, 0, {}, {}, {}, {})

  // ----- what one row contributes

  function Coalesce(a: Field, b: Field): Field {
    if a.Missing? then b else a
  }

  /** Microseconds; None is not-a-number. */
  function Time(row: Row): Option<int> {
    if row.timestamp.Some? then row.timestamp
    else if row.date.Some? then Some(row.date.value * 1000)
    else None
  }

  predicate Timed(row: Row) {
    Time(row).Some? && Time(row).value > 0
  }

  function Digits(n: nat): string {
    (if n < 10 then "" else Digits(n / 10)) + ["0123456789"[n % 10]]
  }

  function IntText(n: int): string {
    if n < 0 then "-" + Digits(-n) else Digits(n)
  }

  function TimeText(row: Row): string {
    match Time(row) case None => "NaN" case Some(t) => IntText(t)
  }

  function Unique(field: Field): set<string> {
    if field.Text? && field.s != "" then {field.s} else {}
  }

  function SessionKey(row: Row): Option<string> {
    if row.unsafeKey.None? && row.sessionId.Text? && row.sessionId.s != "" then Some(row.sessionId.s) else None
  }

  function ViewsOf(row: Row): set<string> {
    var id := Coalesce(row.viewId, row.nestedViewId);
    Unique(id) + (if row.kind == Text("view") then Unique(Coalesce(id, Text(TimeText(row)))) else {})
  }

  function ActionsOf(row: Row): set<string> {
    var id := Coalesce(row.actionId, row.nestedActionId);
    Unique(id) + (if row.kind == Text("action") then Unique(Coalesce(id, Text(TimeText(row)))) else {})
  }

  /** An error row falls back to the fingerprint where the other kinds use the nested identifier. */
  function ErrorsOf(row: Row): set<string> {
    Unique(Coalesce(row.errorId, row.nestedErrorId)) +
    (if row.kind == Text("error") then
       Unique(Coalesce(row.errorId, Coalesce(row.errorFingerprint, Text(TimeText(row)))))
     else {})
  }

  function StringOf(field: Field, otherwise: string): string {
    match field
    case Missing => otherwise
    case Text(s) => s
    case Number(n) => IntText(n)
  }

  predicate IsFrustration(row: Row) {
    row.frustration || row.kind == Text("long_task")
  }

  function FrustrationsOf(row: Row): set<string> {
    if IsFrustration(row) then {StringOf(Coalesce(row.actionId, row.errorId), TimeText(row))} else {}
  }

  // ----- the fold

  function Earlier(a: Option<int>, b: Option<int>): Option<int> {
    if a.None? then b else if b.None? then a else if a.value <= b.value then a else b
  }

  function Later(a: int, b: int): int {
    if a >= b then a else b
  }

  function Merge(a: Session, b: Session): Session {
    Session(Earlier(a.start, b.start), Later(a.end, b.end), a.viewIds + b.viewIds, a.actionIds + b.actionIds,
            a.errorIds + b.errorIds, a.frustrationIds + b.frustrationIds)
  }

  function OfRow(row: Row): Session {
    Session(if Timed(row) then Time(row) else None, if Timed(row) then Time(row).value else 0,
            ViewsOf(row), ActionsOf(row), ErrorsOf(row), FrustrationsOf(row))
  }

  function Lookup(sessions: map<string, Session>, key: string): Session {
    if key in sessions then sessions[key] else EMPTY
  }

  function Absorb(sessions: map<string, Session>, row: Row): map<string, Session> {
    match SessionKey(row)
    case None => sessions
    case Some(key) => sessions[key := Merge(Lookup(sessions, key), OfRow(row))]
  }

  function Aggregate(rows: seq<Row>): map<string, Session> {
    if rows == [] then map[] else Absorb(Aggregate(rows[..|rows| - 1]), rows[|rows| - 1])
  }

  // ----- what the result means, row by row

  ghost predicate Of(key: string, rows: seq<Row>, row: Row) {
    row in rows && SessionKey(row) == Some(key)
  }

  ghost predicate SpanIs(s: Session, key: string, rows: seq<Row>) {
    && (forall r :: Of(key, rows, r) && Timed(r) ==>
          s.start.Some? && s.start.value <= Time(r).value <= s.end)
    && (s.start.Some? ==> exists r :: Of(key, rows, r) && Timed(r) && Time(r) == s.start)
    && (s.start.Some? ==> exists r :: Of(key, rows, r) && Timed(r) && Time(r) == Some(s.end))
    && (s.start.None? ==> s.end == 0)
  }

  ghost predicate IdsAre(s: Session, key: string, rows: seq<Row>) {
    && (forall x :: x in s.viewIds <==> exists r :: Of(key, rows, r) && x in ViewsOf(r))
    && (forall x :: x in s.actionIds <==> exists r :: Of(key, rows, r) && x in ActionsOf(r))
    && (forall x :: x in s.errorIds <==> exists r :: Of(key, rows, r) && x in ErrorsOf(r))
    && (forall x :: x in s.frustrationIds <==> exists r :: Of(key, rows, r) && x in FrustrationsOf(r))
  }

  /** Earliest and latest time, and the distinct identifiers, of the session's rows. */
  ghost predicate Means(s: Session, key: string, rows: seq<Row>) {
    SpanIs(s, key, rows) && IdsAre(s, key, rows)
  }

  lemma MeaningIsUnique(s: Session, t: Session, key: string, rows: seq<Row>, others: seq<Row>)
    requires Means(s, key, rows) && Means(t, key, others)
    requires forall r :: r in rows <==> r in others
    ensures s == t
  {
    forall r ensures Of(key, rows, r) <==> Of(key, others, r) {}
    assert s.viewIds == t.viewIds;
    assert s.actionIds == t.actionIds;
    assert s.errorIds == t.errorIds;
    assert s.frustrationIds == t.frustrationIds;
  }

  lemma SpanMerges(s: Session, t: Session, key: string, xs: seq<Row>, ys: seq<Row>)
    requires SpanIs(s, key, xs) && SpanIs(t, key, ys) && s.end >= 0 && t.end >= 0
    ensures SpanIs(Merge(s, t), key, xs + ys)
  {
    forall r ensures Of(key, xs + ys, r) <==> Of(key, xs, r) || Of(key, ys, r) {}
  }

  lemma IdsMerge(s: Session, t: Session, key: string, xs: seq<Row>, ys: seq<Row>)
    requires IdsAre(s, key, xs) && IdsAre(t, key, ys)
    ensures IdsAre(Merge(s, t), key, xs + ys)
  {
    forall r ensures Of(key, xs + ys, r) <==> Of(key, xs, r) || Of(key, ys, r) {}
  }

  lemma RowMeans(key: string, row: Row)
    ensures Means(if SessionKey(row) == Some(key) then OfRow(row) else EMPTY, key, [row])
  {
    if SessionKey(row) == Some(key) {
      assert Of(key, [row], row);
    }
  }

  lemma MergeWithNothing(s: Session)
    requires s.end >= 0
    ensures Merge(s, EMPTY) == s
  {}

  /** The fold computes the meaning, for every session and every sequence of rows. */
  lemma {:induction false} AggregateMeans(rows: seq<Row>, key: string)
    ensures Means(Lookup(Aggregate(rows), key), key, rows) && Lookup(Aggregate(rows), key).end >= 0
    ensures key in Aggregate(rows) <==> exists r :: Of(key, rows, r)
    decreases |rows|
  {
    if rows != [] {
      var init, row := rows[..|rows| - 1], rows[|rows| - 1];
      assert rows == init + [row];
      AggregateMeans(init, key);
      RowMeans(key, row);
      var before := Lookup(Aggregate(init), key);
      var added := if SessionKey(row) == Some(key) then OfRow(row) else EMPTY;
      SpanMerges(before, added, key, init, [row]);
      IdsMerge(before, added, key, init, [row]);
      MergeWithNothing(before);
      forall r ensures Of(key, rows, r) <==> Of(key, init, r) || Of(key, [row], r) {}
      if SessionKey(row) == Some(key) { assert Of(key, [row], row); }
    }
  }

  // ----- main results

  /** Reordering or repeating rows changes nothing: the aggregate depends only on the set of rows. */
  lemma DependsOnlyOnSet(rows: seq<Row>, others: seq<Row>)
    requires forall r :: r in rows <==> r in others
    ensures Aggregate(rows) == Aggregate(others)
  {
    forall key ensures key in Aggregate(rows) <==> key in Aggregate(others)
    {
      AggregateMeans(rows, key);
      AggregateMeans(others, key);
      forall r ensures Of(key, rows, r) <==> Of(key, others, r) {}
    }
    forall key | key in Aggregate(rows) ensures Aggregate(rows)[key] == Aggregate(others)[key] {
      AggregateMeans(rows, key);
      AggregateMeans(others, key);
      MeaningIsUnique(Aggregate(rows)[key], Aggregate(others)[key], key, rows, others);
    }
  }

  function MergeAll(a: map<string, Session>, b: map<string, Session>): map<string, Session> {
    map key | key in a.Keys + b.Keys :: Merge(Lookup(a, key), Lookup(b, key))
  }

  /** Aggregating two batches together is merging their aggregates. */
  lemma {:induction false} BatchesMerge(xs: seq<Row>, ys: seq<Row>)
    ensures Aggregate(xs + ys) == MergeAll(Aggregate(xs), Aggregate(ys))
  {
    var both, merged := Aggregate(xs + ys), MergeAll(Aggregate(xs), Aggregate(ys));
    forall key ensures key in both <==> key in merged {
      AggregateMeans(xs, key);
      AggregateMeans(ys, key);
      AggregateMeans(xs + ys, key);
      forall r ensures Of(key, xs + ys, r) <==> Of(key, xs, r) || Of(key, ys, r) {}
    }
    forall key | key in both ensures both[key] == merged[key] {
      AggregateMeans(xs, key);
      AggregateMeans(ys, key);
      AggregateMeans(xs + ys, key);
      SpanMerges(Lookup(Aggregate(xs), key), Lookup(Aggregate(ys), key), key, xs, ys);
      IdsMerge(Lookup(Aggregate(xs), key), Lookup(Aggregate(ys), key), key, xs, ys);
      MeaningIsUnique(both[key], merged[key], key, xs + ys, xs + ys);
    }
  }

  // ----- the stored record

  const MAX_SESSION_DURATION_US: int := 28_800_000_000

  datatype Record = Record(
    timestamp: int,
    start: int,
    end: int,
    duration: int,
    errorCount: nat,
    viewCount: nat,
    actionCount: nat,
    frustrationCount: nat)

  /** Microseconds to milliseconds, halves upwards. */
  function RoundMs(us: int): int {
    (us + 500) / 1000
  }

  function ToRecord(s: Session): Option<Record> {
    if s.start.None? then None
    else
      var span := s.end - s.start.value;
      var capped := if span < MAX_SESSION_DURATION_US then span else MAX_SESSION_DURATION_US;
      var durationUs := if capped > 0 then capped else 0;
      Some(Record(s.end, RoundMs(s.start.value), RoundMs(s.start.value) + RoundMs(durationUs), RoundMs(durationUs),
                  |s.errorIds|, |s.viewIds|, |s.actionIds|, |s.frustrationIds|))
  }

  /**
   A session is stored exactly when one of its rows is timed.  The stored span starts within half a
   millisecond of the earliest row, is never negative nor longer than eight hours, and unless cut
   there ends within a millisecond of the latest row.
   */
  lemma {:induction false} RecordSpan(rows: seq<Row>, key: string)
    ensures var s := Lookup(Aggregate(rows), key); var record := ToRecord(s);
            && (record.Some? <==> exists r :: Of(key, rows, r) && Timed(r))
            && (record.Some? ==>
                  var start, end := s.start.value, s.end;
                  && start <= end == record.value.timestamp
                  && -500 <= record.value.start * 1000 - start <= 500
                  && record.value.end - record.value.start == record.value.duration
                  && 0 <= record.value.duration <= 28_800_000
                  && (end - start <= MAX_SESSION_DURATION_US ==> -1000 <= record.value.end * 1000 - end <= 1000))
  {
    AggregateMeans(rows, key);
  }

  // ----- one row, in place

  method AddUnique(ids: set<string>, value: Field) returns (r: set<string>)
    ensures r == ids + Unique(value)
  {
    r := ids;
    if value.Text? && value.s != "" { r := r + {value.s}; }
  }

  method UpdateSession(session: Session, row: Row) returns (r: Session)
    requires session.end >= 0
    ensures r == Merge(session, OfRow(row))
  {
    var start, end := session.start, session.end;
    var ts := Time(row);
    if ts.Some? && ts.value > 0 {
      if start.None? || ts.value < start.value { start := ts; }
      if ts.value > end { end := ts.value; }
    }
    var viewIds := AddUnique(session.viewIds, Coalesce(row.viewId, row.nestedViewId));
    var actionIds := AddUnique(session.actionIds, Coalesce(row.actionId, row.nestedActionId));
    var errorIds := AddUnique(session.errorIds, Coalesce(row.errorId, row.nestedErrorId));
    if row.kind == Text("error") {
      errorIds := AddUnique(errorIds, Coalesce(row.errorId, Coalesce(row.errorFingerprint, Text(TimeText(row)))));
    }
    if row.kind == Text("view") {
      viewIds := AddUnique(viewIds, Coalesce(Coalesce(row.viewId, row.nestedViewId), Text(TimeText(row))));
    }
    if row.kind == Text("action") {
      actionIds := AddUnique(actionIds, Coalesce(Coalesce(row.actionId, row.nestedActionId), Text(TimeText(row))));
    }
    assert viewIds == session.viewIds + ViewsOf(row);
    assert actionIds == session.actionIds + ActionsOf(row);
    assert errorIds == session.errorIds + ErrorsOf(row);
    var frustrationIds := session.frustrationIds;
    if IsFrustration(row) {
      frustrationIds := frustrationIds + {StringOf(Coalesce(row.actionId, row.errorId), TimeText(row))};
    }
    r := Session(start, end, viewIds, actionIds, errorIds, frustrationIds);
  }
}
