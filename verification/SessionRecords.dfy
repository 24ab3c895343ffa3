/** What a stored record says, in the properties of the rows. */
module SessionRecords {
  import opened Wrappers
  import opened SessionAggregation
  import opened SessionDescriptors
  import opened SessionSync

  /** A row of the session without forbidden properties. */
  ghost predicate SafeRow(key: string, rows: seq<Row>, row: Row) {
    row in rows && row.unsafeKey.None? && row.sessionId == Text(key) && key != ""
  }

  lemma SafeRowIsOf(key: string, rows: seq<Row>, row: Row)
    ensures SafeRow(key, rows, row) <==> Of(key, rows, row)
  {}

  // ----- texts of numbers

  function DigitValue(c: char): int {
    c as int - '0' as int
  }

  function NumeralValue(s: string): int {
    if s == "" then 0 else NumeralValue(s[..|s| - 1]) * 10 + DigitValue(s[|s| - 1])
  }

  ghost predicate Numeral(s: string) {
    s != "" && (forall i :: 0 <= i < |s| ==> '0' <= s[i] <= '9') && (s[0] == '0' ==> |s| == 1)
  }

  lemma DigitOf(d: nat)
    requires d < 10
    ensures var c := "0123456789"[d]; '0' <= c <= '9' && DigitValue(c) == d
  {}

  lemma NumeralAppend(s: string, c: char)
    requires '0' <= c <= '9' && (s == "" || (Numeral(s) && s[0] != '0'))
    ensures Numeral(s + [c]) && NumeralValue(s + [c]) == NumeralValue(s) * 10 + DigitValue(c)
  {
    assert (s + [c])[..|s|] == s;
  }

  lemma DigitsStep(n: nat, q: nat, d: nat)
    requires d < 10 && n == 10 * q + d
    ensures Digits(n) == (if q == 0 then "" else Digits(q)) + ["0123456789"[d]]
  {
    assert n / 10 == q && n % 10 == d;
  }

  ghost predicate Spelled(s: string, n: nat) {
    Numeral(s) && NumeralValue(s) == n && (n > 0 ==> s[0] != '0')
  }

  lemma SpelledStep(s: string, q: nat, d: nat)
    requires d < 10 && (if q == 0 then s == "" else Spelled(s, q))
    ensures Spelled(s + ["0123456789"[d]], 10 * q + d)
  {
    DigitOf(d);
    NumeralAppend(s, "0123456789"[d]);
  }

  lemma {:induction false} DigitsReadBack(n: nat)
    ensures Spelled(Digits(n), n)
    decreases n
  {
    var q, d := n / 10, n % 10;
    DigitsStep(n, q, d);
    if q > 0 { DigitsReadBack(q); }
    SpelledStep(if q == 0 then "" else Digits(q), q, d);
  }

  /** A number is written as its decimal numeral, with a sign if it is negative. */
  lemma NumbersReadBack(n: int)
    ensures n >= 0 ==> Numeral(IntText(n)) && NumeralValue(IntText(n)) == n
    ensures n < 0 ==> IntText(n)[0] == '-' && Numeral(IntText(n)[1..]) && NumeralValue(IntText(n)[1..]) == -n
  {
    DigitsReadBack(if n < 0 then -n else n);
  }

  ghost predicate HasTime(row: Row, t: int) {
    row.timestamp == Some(t) || (row.timestamp.None? && row.date.Some? && t == row.date.value * 1000)
  }

  /** The text of a row's time. */
  ghost predicate TimeShown(row: Row, text: string) {
    if row.timestamp.None? && row.date.None? then text == "NaN" else exists t :: HasTime(row, t) && text == IntText(t)
  }

  lemma TimeTextIsShown(row: Row, text: string)
    ensures TimeShown(row, text) <==> text == TimeText(row)
    ensures forall t :: HasTime(row, t) <==> Time(row) == Some(t)
  {}

  // ----- identifiers

  ghost predicate CarriesError(row: Row, id: string) {
    && id != ""
    && (|| row.errorId == Text(id)
        || (row.errorId.Missing? && row.nestedErrorId == Text(id))
        || (row.kind == Text("error") && row.errorId.Missing? && row.errorFingerprint == Text(id))
        || (row.kind == Text("error") && row.errorId.Missing? && row.errorFingerprint.Missing? && TimeShown(row, id)))
  }

  ghost predicate CarriesView(row: Row, id: string) {
    && id != ""
    && (|| row.viewId == Text(id)
        || (row.viewId.Missing? && row.nestedViewId == Text(id))
        || (row.kind == Text("view") && row.viewId.Missing? && row.nestedViewId.Missing? && TimeShown(row, id)))
  }

  ghost predicate CarriesAction(row: Row, id: string) {
    && id != ""
    && (|| row.actionId == Text(id)
        || (row.actionId.Missing? && row.nestedActionId == Text(id))
        || (row.kind == Text("action") && row.actionId.Missing? && row.nestedActionId.Missing? && TimeShown(row, id)))
  }

  ghost predicate Spells(field: Field, id: string) {
    field == Text(id) || (field.Number? && id == IntText(field.n))
  }

  ghost predicate CarriesFrustration(row: Row, id: string) {
    && (row.frustration || row.kind == Text("long_task"))
    && (|| Spells(row.actionId, id)
        || (row.actionId.Missing? && Spells(row.errorId, id))
        || (row.actionId.Missing? && row.errorId.Missing? && TimeShown(row, id)))
  }

  /** How often the numeral of a time is itself empty: never, so it always counts. */
  lemma TimeTextNotEmpty(row: Row)
    ensures TimeText(row) != ""
  {
    if Time(row).Some? { NumbersReadBack(Time(row).value); }
  }

  lemma CarriedIds(row: Row, id: string)
    ensures id in ErrorsOf(row) <==> CarriesError(row, id)
    ensures id in ViewsOf(row) <==> CarriesView(row, id)
    ensures id in ActionsOf(row) <==> CarriesAction(row, id)
    ensures id in FrustrationsOf(row) <==> CarriesFrustration(row, id)
  {
    TimeTextIsShown(row, id);
  }

  /** A record is made of its session's numbers and texts. */
  lemma {:induction false} RecordIsMade(keys: seq<string>, sessions: map<string, Session>, abouts: map<string, About>, r: SessionRecord)
    requires r in RecordsOf(keys, sessions, abouts)
    ensures ToRecord(Lookup(sessions, r.sessionId)).Some?
    ensures r == RecordOf(r.sessionId, ToRecord(Lookup(sessions, r.sessionId)).value, AboutOf(abouts, r.sessionId))
    decreases |keys|
  {
    var last := |keys| - 1;
    if r in RecordsOf(keys[..last], sessions, abouts) { RecordIsMade(keys[..last], sessions, abouts, r); }
  }

  lemma IdsCarried(rows: seq<Row>, key: string, id: string)
    ensures var s := Lookup(Aggregate(rows), key);
            && (id in s.errorIds <==> exists row :: SafeRow(key, rows, row) && CarriesError(row, id))
            && (id in s.viewIds <==> exists row :: SafeRow(key, rows, row) && CarriesView(row, id))
            && (id in s.actionIds <==> exists row :: SafeRow(key, rows, row) && CarriesAction(row, id))
            && (id in s.frustrationIds <==> exists row :: SafeRow(key, rows, row) && CarriesFrustration(row, id))
  {
    AggregateMeans(rows, key);
    forall row ensures SafeRow(key, rows, row) <==> Of(key, rows, row) {}
    forall row { CarriedIds(row, id); }
  }

  /** The four counts of a stored record are the numbers of identifiers that the safe rows of its session carry. */
  lemma RecordCounts(rows: seq<Row>, r: SessionRecord)
    returns (errors: set<string>, views: set<string>, actions: set<string>, frustrations: set<string>)
    requires r in Records(rows)
    ensures r.numbers.errorCount == |errors| && r.numbers.viewCount == |views|
    ensures r.numbers.actionCount == |actions| && r.numbers.frustrationCount == |frustrations|
    ensures forall id :: id in errors <==> exists row :: SafeRow(r.sessionId, rows, row) && CarriesError(row, id)
    ensures forall id :: id in views <==> exists row :: SafeRow(r.sessionId, rows, row) && CarriesView(row, id)
    ensures forall id :: id in actions <==> exists row :: SafeRow(r.sessionId, rows, row) && CarriesAction(row, id)
    ensures forall id :: id in frustrations <==> exists row :: SafeRow(r.sessionId, rows, row) && CarriesFrustration(row, id)
  {
    RecordIsMade(Seen(rows), Aggregate(rows), Describe(rows), r);
    var s := Lookup(Aggregate(rows), r.sessionId);
    errors, views, actions, frustrations := s.errorIds, s.viewIds, s.actionIds, s.frustrationIds;
    forall id
      ensures id in errors <==> exists row :: SafeRow(r.sessionId, rows, row) && CarriesError(row, id)
      ensures id in views <==> exists row :: SafeRow(r.sessionId, rows, row) && CarriesView(row, id)
      ensures id in actions <==> exists row :: SafeRow(r.sessionId, rows, row) && CarriesAction(row, id)
      ensures id in frustrations <==> exists row :: SafeRow(r.sessionId, rows, row) && CarriesFrustration(row, id)
    {
      IdsCarried(rows, r.sessionId, id);
    }
  }

  // ----- times

  ghost predicate TimedAt(key: string, rows: seq<Row>, t: int) {
    t > 0 && exists row :: SafeRow(key, rows, row) && HasTime(row, t)
  }

  lemma TimedAtMeans(rows: seq<Row>, key: string, t: int)
    ensures TimedAt(key, rows, t) <==> exists row :: Of(key, rows, row) && Timed(row) && Time(row) == Some(t)
  {
    forall row ensures SafeRow(key, rows, row) && HasTime(row, t) <==> Of(key, rows, row) && Time(row) == Some(t) {
      SafeRowIsOf(key, rows, row);
      TimeTextIsShown(row, "");
    }
    if TimedAt(key, rows, t) {
      var row :| SafeRow(key, rows, row) && HasTime(row, t);
      assert Of(key, rows, row) && Timed(row);
    }
  }

  lemma SpanTimes(rows: seq<Row>, key: string, t: int)
    ensures var s := Lookup(Aggregate(rows), key);
            && (TimedAt(key, rows, t) ==> s.start.Some? && s.start.value <= t <= s.end)
            && (s.start.Some? ==> TimedAt(key, rows, s.start.value) && TimedAt(key, rows, s.end))
  {
    var s := Lookup(Aggregate(rows), key);
    AggregateMeans(rows, key);
    TimedAtMeans(rows, key, t);
    if s.start.Some? {
      TimedAtMeans(rows, key, s.start.value);
      TimedAtMeans(rows, key, s.end);
    }
  }

  /**
   The times of a stored record: its timestamp is the latest positive time of its session in microseconds, its start the
   earliest in milliseconds, halves upwards, and its duration their distance, cut at eight hours.
   */
  lemma RecordTimes(rows: seq<Row>, r: SessionRecord) returns (first: int, latest: int)
    requires r in Records(rows)
    ensures TimedAt(r.sessionId, rows, first) && TimedAt(r.sessionId, rows, latest)
    ensures forall t :: TimedAt(r.sessionId, rows, t) ==> first <= t <= latest
    ensures r.numbers.timestamp == latest
    ensures first - 500 < r.numbers.start * 1000 <= first + 500
    ensures r.numbers.end == r.numbers.start + r.numbers.duration
    ensures var span := if latest - first < 28_800_000_000 then latest - first else 28_800_000_000;
            span - 500 < r.numbers.duration * 1000 <= span + 500
  {
    RecordIsMade(Seen(rows), Aggregate(rows), Describe(rows), r);
    var s := Lookup(Aggregate(rows), r.sessionId);
    first, latest := s.start.value, s.end;
    SpanTimes(rows, r.sessionId, first);
    forall t ensures TimedAt(r.sessionId, rows, t) ==> first <= t <= latest { SpanTimes(rows, r.sessionId, t); }
    SpanTimes(rows, r.sessionId, latest);
  }

  // ----- texts

  /** A text property, cut to 80 characters. */
  ghost predicate Clipped(field: Field, text: string) {
    && field.Text? && text <= field.s && text != ""
    && |text| == if |field.s| < 80 then |field.s| else 80
  }

  /** The row names the descriptor. */
  ghost predicate Names(row: Row, d: Descriptor, text: string) {
    var about := row.about;
    match d
    case Browser => Clipped(about.userAgentBrowser, text) || (about.userAgentBrowser.Missing? && Clipped(about.browser, text))
    case Os => Clipped(about.userAgentOs, text) || (about.userAgentOs.Missing? && Clipped(about.os, text))
    case Device =>
      || Clipped(about.deviceType, text)
      || (about.deviceType.Missing? && Clipped(about.device, text))
      || (about.deviceType.Missing? && about.device.Missing? && Clipped(about.userAgentDevice, text))
    case Service => Clipped(about.service, text)
    case Env => Clipped(about.env, text)
    case Version => Clipped(about.version, text)
    case Source => Clipped(about.source, text)
  }

  lemma NamesIsOffered(row: Row, d: Descriptor, text: string)
    ensures Names(row, d, text) <==> text != "" && Offered(row, d) == text
  {}

  /** The field of the record that the descriptor is stored in; a null is None. */
  function StoredText(r: SessionRecord, d: Descriptor): Option<string> {
    match d
    case Browser => Some(r.browser)
    case Os => Some(r.os)
    case Device => Some(r.device)
    case Service => r.service
    case Env => r.env
    case Version => r.version
    case Source => Some(r.source)
  }

  /** What is stored when no row names it. */
  function Fallback(d: Descriptor): Option<string> {
    match d
    case Browser => Some("Unknown")
    case Os => Some("Unknown")
    case Device => Some("Unknown")
    case Service => None
    case Env => None
    case Version => None
    case Source => Some("rum-metadata")
  }

  ghost predicate NamedAt(key: string, rows: seq<Row>, d: Descriptor, i: nat, text: string) {
    i < |rows| && SafeRow(key, rows, rows[i]) && Names(rows[i], d, text)
  }

  ghost predicate NamedFirst(key: string, rows: seq<Row>, d: Descriptor, i: nat, text: string) {
    NamedAt(key, rows, d, i, text) && forall j: nat, other :: j < i ==> !NamedAt(key, rows, d, j, other)
  }

  lemma NamedIsOffer(key: string, rows: seq<Row>, d: Descriptor, i: nat, text: string)
    ensures NamedAt(key, rows, d, i, text) <==> Offers(key, rows, d, i) && Offered(rows[i], d) == text
  {
    if i < |rows| {
      SafeRowIsOf(key, rows, rows[i]);
      NamesIsOffered(rows[i], d, text);
    }
  }

  lemma StoredIsGot(key: string, numbers: Record, about: About, d: Descriptor)
    ensures StoredText(RecordOf(key, numbers, about), d) == if Get(about, d) == "" then Fallback(d) else Some(Get(about, d))
  {}

  lemma StoredIsTold(rows: seq<Row>, r: SessionRecord, d: Descriptor)
    requires r in Records(rows)
    ensures var told := Told(rows, r.sessionId, d); StoredText(r, d) == if told == "" then Fallback(d) else Some(told)
  {
    var sessions, abouts := Aggregate(rows), Describe(rows);
    RecordIsMade(Seen(rows), sessions, abouts, r);
    StoredIsGot(r.sessionId, ToRecord(Lookup(sessions, r.sessionId)).value, AboutOf(abouts, r.sessionId), d);
  }

  lemma ToldIsNamed(rows: seq<Row>, key: string, d: Descriptor)
    ensures Told(rows, key, d) == "" ==> forall i: nat, text :: !NamedAt(key, rows, d, i, text)
    ensures Told(rows, key, d) != "" ==> exists i: nat :: NamedFirst(key, rows, d, i, Told(rows, key, d))
  {
    DescriptorIsFirst(rows, key, d);
    forall i: nat, text ensures NamedAt(key, rows, d, i, text) <==> Offers(key, rows, d, i) && Offered(rows[i], d) == text {
      NamedIsOffer(key, rows, d, i, text);
    }
    if Told(rows, key, d) != "" {
      var i: nat :| FirstOffer(key, rows, d, i) && Offered(rows[i], d) == Told(rows, key, d);
      assert NamedFirst(key, rows, d, i, Told(rows, key, d));
    }
  }

  /** Each text of a stored record is what the first safe row of the session that names it says, or the fallback if none does. */
  lemma RecordTexts(rows: seq<Row>, r: SessionRecord, d: Descriptor)
    requires r in Records(rows)
    ensures || (StoredText(r, d) == Fallback(d) && forall i: nat, text :: !NamedAt(r.sessionId, rows, d, i, text))
            || (exists i: nat, text :: NamedFirst(r.sessionId, rows, d, i, text) && StoredText(r, d) == Some(text))
  {
    StoredIsTold(rows, r, d);
    ToldIsNamed(rows, r.sessionId, d);
  }

  /** The tags of a stored record are the texts, twenty at most, of the last array of tags of its session, and none without one. */
  lemma RecordTags(rows: seq<Row>, r: SessionRecord, i: nat)
    requires r in Records(rows) && Tagged(r.sessionId, rows, i) && forall j: nat | j > i :: !Tagged(r.sessionId, rows, j)
    ensures r.tags <= Texts(rows[i].about.tags.value)
    ensures |r.tags| == if |Texts(rows[i].about.tags.value)| < 20 then |Texts(rows[i].about.tags.value)| else 20
  {
    RecordIsMade(Seen(rows), Aggregate(rows), Describe(rows), r);
    TagsAreLast(rows, r.sessionId, i);
  }

  /** The texts of an array are its strings, in order. */
  lemma {:induction false} TextsAppend(fields: seq<Field>, field: Field)
    ensures Texts(fields + [field]) == Texts(fields) + (if field.Text? then [field.s] else [])
    ensures Texts([]) == []
    decreases |fields|
  {
    if fields != [] {
      assert (fields + [field])[1..] == fields[1..] + [field];
      TextsAppend(fields[1..], field);
    } else {
      assert [field][1..] == [];
    }
  }

  // ----- rejected rows

  /** The positions of the rows with forbidden properties, in order. */
  function Unsafe(rows: seq<Row>): seq<nat>
    ensures forall k :: 0 <= k < |Unsafe(rows)| ==> Unsafe(rows)[k] < |rows| && rows[Unsafe(rows)[k]].unsafeKey.Some?
  {
    if rows == [] then []
    else
      var last := |rows| - 1;
      Unsafe(rows[..last]) + (if rows[last].unsafeKey.Some? then [last] else [])
  }

  lemma {:induction false} UnsafeFinds(rows: seq<Row>, i: nat)
    requires i < |rows| && rows[i].unsafeKey.Some?
    ensures i in Unsafe(rows)
    decreases |rows|
  {
    var last := |rows| - 1;
    if i < last {
      UnsafeFinds(rows[..last], i);
      assert Unsafe(rows[..last]) <= Unsafe(rows);
    }
  }

  ghost predicate Increasing(s: seq<nat>) {
    forall j, k :: 0 <= j < k < |s| ==> s[j] < s[k]
  }

  lemma {:induction false} UnsafeInOrder(rows: seq<Row>)
    ensures Increasing(Unsafe(rows))
    decreases |rows|
  {
    if rows != [] { UnsafeInOrder(rows[..|rows| - 1]); }
  }

  /** There is one diagnostic for each of them, in their order, with the time of the run and the property found. */
  lemma {:induction false} RejectionsExactly(rows: seq<Row>, nowUs: int)
    ensures |Rejections(rows, nowUs)| == |Unsafe(rows)|
    ensures forall k :: 0 <= k < |Unsafe(rows)| ==>
              Rejections(rows, nowUs)[k] == Diagnostic(nowUs, rows[Unsafe(rows)[k]].unsafeKey.value)
    decreases |rows|
  {
    if rows != [] {
      var last := |rows| - 1;
      RejectionsExactly(rows[..last], nowUs);
    }
  }

  // ----- the order of the records

  /** Some row names the session `key`, and none up to it names `other`. */
  ghost predicate SeenBefore(rows: seq<Row>, key: string, other: string) {
    exists p :: 0 <= p < |rows| && SessionKey(rows[p]) == Some(key) && FreeOf(rows, p, other)
  }

  ghost predicate FreeOf(rows: seq<Row>, p: nat, other: string) {
    forall q :: 0 <= q < |rows| && q <= p ==> SessionKey(rows[q]) != Some(other)
  }

  lemma SeenBeforeStays(rows: seq<Row>, row: Row, key: string, other: string)
    requires SeenBefore(rows, key, other)
    ensures SeenBefore(rows + [row], key, other)
  {
    var p :| 0 <= p < |rows| && SessionKey(rows[p]) == Some(key) && FreeOf(rows, p, other);
    assert (rows + [row])[p] == rows[p] && FreeOf(rows + [row], p, other);
  }

  lemma {:induction false} SeenNamed(rows: seq<Row>, key: string)
    ensures key in Seen(rows) <==> exists p :: 0 <= p < |rows| && SessionKey(rows[p]) == Some(key)
    decreases |rows|
  {
    if rows != [] { SeenNamed(rows[..|rows| - 1], key); }
  }

  /** A session named before and one never named. */
  lemma NamedBefore(rows: seq<Row>, key: string, other: string)
    requires key in Seen(rows) && other !in Seen(rows)
    ensures SeenBefore(rows, key, other)
  {
    SeenNamed(rows, key);
    SeenNamed(rows, other);
    var p :| 0 <= p < |rows| && SessionKey(rows[p]) == Some(key);
    assert FreeOf(rows, p, other);
  }

  lemma {:induction false} SeenInOrder(rows: seq<Row>, i: nat, j: nat)
    requires i < j < |Seen(rows)|
    ensures SeenBefore(rows, Seen(rows)[i], Seen(rows)[j])
    decreases |rows|
  {
    var last := |rows| - 1;
    var init, seen := rows[..last], Seen(rows[..last]);
    assert rows == init + [rows[last]];
    if j < |seen| {
      SeenInOrder(init, i, j);
    } else {
      SeenOnce(rows);
      NamedBefore(init, seen[i], Seen(rows)[j]);
    }
    SeenBeforeStays(init, rows[last], Seen(rows)[i], Seen(rows)[j]);
  }

  ghost predicate Before(keys: seq<string>, key: string, other: string) {
    exists a, b :: 0 <= a < b < |keys| && keys[a] == key && keys[b] == other
  }

  lemma {:induction false} RecordsFollow(keys: seq<string>, sessions: map<string, Session>, abouts: map<string, About>, i: nat, j: nat)
    requires i < j < |RecordsOf(keys, sessions, abouts)|
    ensures Before(keys, RecordsOf(keys, sessions, abouts)[i].sessionId, RecordsOf(keys, sessions, abouts)[j].sessionId)
    decreases |keys|
  {
    var last := |keys| - 1;
    var init, before, all := keys[..last], RecordsOf(keys[..last], sessions, abouts), RecordsOf(keys, sessions, abouts);
    if j < |before| {
      RecordsFollow(init, sessions, abouts, i, j);
      var a, b :| 0 <= a < b < |init| && init[a] == all[i].sessionId && init[b] == all[j].sessionId;
      assert keys[a] == all[i].sessionId && keys[b] == all[j].sessionId;
    } else {
      assert before[i] in before;
      RecordsListed(init, sessions, abouts, all[i].sessionId);
      var a :| 0 <= a < |init| && init[a] == all[i].sessionId;
      assert keys[a] == all[i].sessionId && keys[last] == all[j].sessionId;
    }
  }

  /** The records come in the order in which their sessions are first named by a safe row. */
  lemma RecordsInOrder(rows: seq<Row>, i: nat, j: nat)
    requires i < j < |Records(rows)|
    ensures SeenBefore(rows, Records(rows)[i].sessionId, Records(rows)[j].sessionId)
  {
    var keys := Seen(rows);
    RecordsFollow(keys, Aggregate(rows), Describe(rows), i, j);
    var a, b :| 0 <= a < b < |keys| && keys[a] == Records(rows)[i].sessionId && keys[b] == Records(rows)[j].sessionId;
    SeenInOrder(rows, a, b);
  }
}
