/** What travels over the dead-letter queue: the envelope `_send_to_dlq` writes
    (src/click_rec/kafka/consumer.py) and what the replay script does with it (scripts/replay_dlq.py). */
module Dlq {
  import opened Lists

  datatype Json =
    | JObject(fields: map<string, Json>)
    | JArray(items: seq<Json>)
    | JString(text: string)
    | JNumber(number: real)
    | JBool(truth: bool)
    | JNull

  /** The bytes of a message: a JSON document, or text that does not parse as JSON. */
  datatype Value = Document(json: Json) | Garbage(text: string)

  datatype Reason = ParseOrValidation | RetriesExhausted

  datatype ErrorInfo = ErrorInfo(errorClass: string, message: string, stack: string, failedAtMs: nat)

  datatype ClickRecord = ClickRecord(partition: nat, offset: nat, key: Option<string>, value: Option<Value>)

  /** `record.value if record.value is not None else b""`; the empty string is not a JSON document. */
  function Raw(value: Option<Value>): Value {
    if value.Some? then value.value else Garbage("")
  }

  function OriginalPayload(raw: Value): Json {
    match raw
    case Document(j) => j
    case Garbage(text) => JString(text)
  }

  /** The message `_send_to_dlq` publishes. */
  function Envelope(record: ClickRecord, reason: Reason, error: ErrorInfo): Value {
    Document(JObject(map[
      "original_topic" := JString("user.clicks"),
      "original_partition" := JNumber(record.partition as real),
      "original_offset" := JNumber(record.offset as real),
      "original_key" := if record.key.Some? then JString(record.key.value) else JNull,
      "original_payload" := OriginalPayload(Raw(record.value)),
      "reason" := JString(if reason == RetriesExhausted then "retries_exhausted" else "parse_or_validation_error"),
      "error_class" := JString(error.errorClass),
      "error_message" := JString(error.message),
      "stack_trace" := JString(error.stack),
      "failed_at_ms" := JNumber(error.failedAtMs as real)]))
  }

  datatype Verdict = Republish(key: string, payload: Json) | Quarantine | Crash

  function Field(fields: map<string, Json>, name: string): Json {
    if name in fields then fields[name] else JNull
  }

  /** `_handle_dlq_record`, apart from the publish itself. A document that is not an object has no `get`:
      the script dies on it. */
  function Handle(row: Option<Value>): Verdict {
    match Raw(row)
    case Garbage(_) => Quarantine
    case Document(j) =>
      if !j.JObject? then Crash
      else
        var payload := Field(j.fields, "original_payload");
        if payload.JString? || !payload.JObject? then Quarantine
        else
          var user := Field(payload.fields, "user_id");
          if !user.JString? || user.text == "" then Quarantine else Republish(user.text, payload)
  }

  /** The payload names its user. */
  predicate HasUser(raw: Value) {
    && raw.Document? && raw.json.JObject?
    && Field(raw.json.fields, "user_id").JString? && Field(raw.json.fields, "user_id").text != ""
  }

  /** A failed record comes back from the DLQ exactly when its payload is an object with a non-empty
      string user_id; then the payload is unchanged and the key is that user_id. Every other record is
      quarantined, and no row written by the consumer can crash the replay. */
  lemma EnvelopeRoundTrip(record: ClickRecord, reason: Reason, error: ErrorInfo)
    ensures var raw, verdict := Raw(record.value), Handle(Some(Envelope(record, reason, error)));
            if HasUser(raw) then verdict == Republish(Field(raw.json.fields, "user_id").text, raw.json)
            else verdict == Quarantine
  {
    var fields := Envelope(record, reason, error).json.fields;
    assert "original_payload" in fields;
    assert Field(fields, "original_payload") == OriginalPayload(Raw(record.value));
  }

  /** The verdict on any row: it comes back exactly when its payload is an object that names a user, kills the script
      exactly when it is a document but no object, and is quarantined otherwise, as when it does not parse. */
  lemma HandleExact(row: Option<Value>)
    ensures var payload := PayloadOf(row);
            if row.Some? && row.value.Document? && !row.value.json.JObject? then Handle(row) == Crash
            else if payload.Some? && HasUser(Document(payload.value))
            then Handle(row) == Republish(payload.value.fields["user_id"].text, payload.value)
            else Handle(row) == Quarantine
    ensures row == None || row.value.Garbage? ==> Handle(row) == Quarantine
  {
  }

  /** What an envelope carries. */
  function PayloadOf(row: Option<Value>): Option<Json> {
    if row.Some? && row.value.Document? && row.value.json.JObject? && "original_payload" in row.value.json.fields
    then Some(row.value.json.fields["original_payload"])
    else None
  }

  /** The envelope says where the record came from, and why and when it failed. */
  lemma EnvelopeNamesRecord(record: ClickRecord, reason: Reason, error: ErrorInfo)
    ensures var fields := Envelope(record, reason, error).json.fields;
            && Field(fields, "original_topic") == JString("user.clicks")
            && Field(fields, "original_partition") == JNumber(record.partition as real)
            && Field(fields, "original_offset") == JNumber(record.offset as real)
            && (record.key.Some? ==> Field(fields, "original_key") == JString(record.key.value))
            && (record.key.None? ==> Field(fields, "original_key") == JNull)
            && Field(fields, "error_class") == JString(error.errorClass)
            && Field(fields, "error_message") == JString(error.message)
            && Field(fields, "stack_trace") == JString(error.stack)
            && Field(fields, "failed_at_ms") == JNumber(error.failedAtMs as real)
            && (Field(fields, "reason") == JString("retries_exhausted") <==> reason == RetriesExhausted)
            && (Field(fields, "reason") == JString("parse_or_validation_error") <==> reason == ParseOrValidation)
  {
    assert "retries_exhausted"[0] != "parse_or_validation_error"[0];
  }

  /** Rows that are re-published, in order. */
  function Republished(rows: seq<Option<Value>>): seq<(string, Json)> {
    if rows == [] then []
    else
      var init := Republished(rows[..|rows| - 1]);
      match Handle(rows[|rows| - 1])
      case Republish(key, payload) => init + [(key, payload)]
      case _ => init
  }

  /** Rows that are quarantined, in order. */
  function Quarantined(rows: seq<Option<Value>>): seq<Option<Value>> {
    if rows == [] then []
    else
      var init := Quarantined(rows[..|rows| - 1]);
      if Handle(rows[|rows| - 1]) == Quarantine then init + [rows[|rows| - 1]] else init
  }

  /** Nothing is lost and nothing is both: the two outputs partition the handled rows. */
  lemma {:induction false} HandledRowsPartition(rows: seq<Option<Value>>)
    requires forall i :: 0 <= i < |rows| ==> Handle(rows[i]) != Crash
    ensures |Republished(rows)| + |Quarantined(rows)| == |rows|
    ensures forall i :: 0 <= i < |rows| ==>
              match Handle(rows[i])
              case Republish(key, payload) => (key, payload) in Republished(rows) && rows[i] !in Quarantined(rows)
              case _ => rows[i] in Quarantined(rows)
  {
    if rows != [] {
      var n := |rows| - 1;
      HandledRowsPartition(rows[..n]);
      QuarantinedRowsOnly(rows);
      forall i | 0 <= i < |rows|
        ensures match Handle(rows[i])
                case Republish(key, payload) => (key, payload) in Republished(rows) && rows[i] !in Quarantined(rows)
                case _ => rows[i] in Quarantined(rows)
      {
        if i < n {
          assert rows[..n][i] == rows[i];
        }
      }
    }
  }

  lemma {:induction false} QuarantinedRowsOnly(rows: seq<Option<Value>>)
    ensures forall r :: r in Quarantined(rows) ==> Handle(r) == Quarantine
  {
    if rows != [] {
      QuarantinedRowsOnly(rows[..|rows| - 1]);
    }
  }

  // ---------------------------------------------------------------- the replay script

  datatype Outcome = Completed(replayed: nat, skipped: nat) | Aborted

  const EMPTY_BATCH_LIMIT: nat := 3

  /** The row was re-published, or quarantined, according to its verdict. */
  predicate Accounted(row: Option<Value>, clicks: seq<(string, Json)>, quarantine: seq<Option<Value>>) {
    match Handle(row)
    case Republish(key, payload) => (key, payload) in clicks
    case Quarantine => row in quarantine
    case Crash => false
  }

  ghost predicate AllAccounted(rows: seq<Option<Value>>, n: nat, clicks: seq<(string, Json)>,
                               quarantine: seq<Option<Value>>)
    requires n <= |rows|
  {
    forall o :: 0 <= o < n ==> Accounted(rows[o], clicks, quarantine)
  }

  lemma AccountedStays(rows: seq<Option<Value>>, n: nat, c: seq<(string, Json)>, q: seq<Option<Value>>,
                       c': seq<(string, Json)>, q': seq<Option<Value>>)
    requires n <= |rows| && AllAccounted(rows, n, c, q) && c <= c' && q <= q'
    ensures AllAccounted(rows, n, c', q')
  {
    forall o | 0 <= o < n
      ensures Accounted(rows[o], c', q')
    {
      assert Accounted(rows[o], c, q);
    }
  }

  /** Exactly the handled rows were put out; after an abort, one failed publish may have left a copy as well. */
  predicate Produced(c: seq<(string, Json)>, q: seq<Option<Value>>, handled: seq<Option<Value>>, ok: bool,
                     c': seq<(string, Json)>, q': seq<Option<Value>>)
  {
    q' == q + Quarantined(handled) && Extends(c, Republished(handled), ok, c')
  }

  predicate Extends(c: seq<(string, Json)>, more: seq<(string, Json)>, ok: bool, c': seq<(string, Json)>) {
    c + more <= c' && |c'| <= |c| + |more| + if ok then 0 else 1
  }

  /** The reported counts are those of the handled rows, and together make up all of them. */
  predicate Counted(handled: seq<Option<Value>>, replayed: nat, skipped: nat) {
    replayed == |Republished(handled)| && skipped == |Quarantined(handled)| && replayed + skipped == |handled|
  }

  /** The whole effect of handling some rows. */
  predicate Done(c: seq<(string, Json)>, q: seq<Option<Value>>, handled: seq<Option<Value>>, ok: bool,
                 replayed: nat, skipped: nat, c': seq<(string, Json)>, q': seq<Option<Value>>)
  {
    Produced(c, q, handled, ok, c', q') && (ok ==> Counted(handled, replayed, skipped))
  }

  lemma DoneThen(c0: seq<(string, Json)>, q0: seq<Option<Value>>, a: seq<Option<Value>>, r1: nat, s1: nat,
                 c1: seq<(string, Json)>, q1: seq<Option<Value>>, b: seq<Option<Value>>, ok: bool, r2: nat, s2: nat,
                 c2: seq<(string, Json)>, q2: seq<Option<Value>>)
    requires Done(c0, q0, a, true, r1, s1, c1, q1) && Done(c1, q1, b, ok, r2, s2, c2, q2)
    ensures Done(c0, q0, a + b, ok, r1 + r2, s1 + s2, c2, q2)
  {
    Concatenated(a, b);
    ExtendsThen(c0, Republished(a), c1, Republished(b), ok, c2);
    Associative(q0, Quarantined(a), Quarantined(b));
  }

  /** One record more, or the one that raises. */
  lemma OneMoreHandled(c0: seq<(string, Json)>, q0: seq<Option<Value>>, handled: seq<Option<Value>>, row: Option<Value>,
                       r: nat, s: nat, c: seq<(string, Json)>, q: seq<Option<Value>>, ok: bool,
                       c': seq<(string, Json)>, q': seq<Option<Value>>)
    requires Done(c0, q0, handled, true, r, s, c, q) && AllAccounted(handled, |handled|, c, q)
    requires ok ==> Handle(row) != Crash && c' == c + Republished([row]) && q' == q + Quarantined([row])
    requires !ok ==> q' == q && (c' == c || (Handle(row).Republish? && c' == c + Republished([row])))
    ensures AllAccounted(handled, |handled|, c', q')
    ensures !ok ==> Done(c0, q0, handled, false, r, s, c', q')
    ensures ok ==> Done(c0, q0, handled + [row], true, if Handle(row).Republish? then r + 1 else r,
                        if Handle(row).Republish? then s else s + 1, c', q')
    ensures ok ==> AllAccounted(handled + [row], |handled| + 1, c', q')
  {
    OutputOf(row);
    AccountedStays(handled, |handled|, c, q, c', q');
    if ok {
      OneMoreRow(handled, row);
      Associative(c0, Republished(handled), Republished([row]));
      Associative(q0, Quarantined(handled), Quarantined([row]));
      OutputAccounts(row, c, q);
    }
  }

  lemma OutputAccounts(row: Option<Value>, c: seq<(string, Json)>, q: seq<Option<Value>>)
    requires Handle(row) != Crash
    ensures Accounted(row, c + Republished([row]), q + Quarantined([row]))
  {
    OutputOf(row);
  }

  lemma ExtendsThen(c0: seq<(string, Json)>, a: seq<(string, Json)>, c1: seq<(string, Json)>,
                    b: seq<(string, Json)>, ok: bool, c2: seq<(string, Json)>)
    requires Extends(c0, a, true, c1) && Extends(c1, b, ok, c2)
    ensures Extends(c0, a + b, ok, c2)
  {
    assert c1 == c0 + a;
    Associative(c0, a, b);
  }

  lemma Associative<T>(a: seq<T>, b: seq<T>, c: seq<T>)
    ensures a + b + c == a + (b + c)
  {
  }

  /** Which calls fail, by partition and offset: publishes, which may be stored all the same, and commits,
      which may land all the same. */
  datatype Faults = Faults(sendFails: (nat, nat) -> bool, stored: (nat, nat) -> bool,
                           commitFails: (nat, nat) -> bool, landed: (nat, nat) -> bool)

  /** The replay dies on this row. */
  predicate Stops(f: Faults, tp: nat, o: nat, row: Option<Value>) {
    Handle(row) == Crash || (Handle(row).Republish? && f.sendFails(tp, o))
  }

  predicate StopsAt(f: Faults, tp: nat, from: nat, rows: seq<Option<Value>>, i: nat)
    requires i < |rows|
  {
    Stops(f, tp, from + i, rows[i])
  }

  type Partitions = map<nat, seq<Option<Value>>>

  /** The replay dies on a partition's rows [from, end), or on their commit. */
  ghost predicate RowsStop(f: Faults, dlq: Partitions, tp: nat, from: nat, end: nat)
    requires tp in dlq && end <= |dlq[tp]|
  {
    || (exists o :: from <= o < end && Stops(f, tp, o, dlq[tp][o]))
    || (from < end && f.commitFails(tp, end))
  }

  /** It dies on what one partition is served at these read positions. */
  ghost predicate ServingStops(f: Faults, dlq: Partitions, position: map<nat, nat>, served: (nat, nat)) {
    var (tp, n) := served;
    tp in dlq && tp in position && RowsStop(f, dlq, tp, position[tp], Capped(position[tp] + n, |dlq[tp]|))
  }

  ghost predicate BatchStops(f: Faults, dlq: Partitions, position: map<nat, nat>, batch: seq<(nat, nat)>) {
    exists b :: 0 <= b < |batch| && ServingStopsAt(f, dlq, position, batch, b)
  }

  ghost predicate ServingStopsAt(f: Faults, dlq: Partitions, position: map<nat, nat>, batch: seq<(nat, nat)>, b: nat)
    requires b < |batch|
  {
    ServingStops(f, dlq, Moved(dlq, position, batch[..b]), batch[b])
  }

  /** It dies on some batch it gets to before three empty ones in a row. */
  ghost predicate PollsStop(f: Faults, dlq: Partitions, position: map<nat, nat>,
                            polls: seq<seq<(nat, nat)>>, empties: nat)
    decreases |polls|
  {
    empties < EMPTY_BATCH_LIMIT && polls != [] &&
    if polls[0] == [] then PollsStop(f, dlq, position, polls[1..], empties + 1)
    else BatchStops(f, dlq, position, polls[0]) || PollsStop(f, dlq, Moved(dlq, position, polls[0]), polls[1..], 0)
  }

  /** Read positions after a batch: each partition moves by the rows it was served, up to its end. */
  function Moved(dlq: Partitions, position: map<nat, nat>, batch: seq<(nat, nat)>): map<nat, nat> {
    if batch == [] then position
    else
      MovedBy(dlq, Moved(dlq, position, batch[..|batch| - 1]), batch[|batch| - 1])
  }

  function MovedBy(dlq: Partitions, position: map<nat, nat>, served: (nat, nat)): map<nat, nat> {
    var (tp, n) := served;
    if tp in dlq && tp in position then position[tp := Capped(position[tp] + n, |dlq[tp]|)] else position
  }

  /** The first b entries of the batch were served, and none of them stopped the replay. */
  ghost predicate ServedSoFar(f: Faults, dlq: Partitions, start: map<nat, nat>, batch: seq<(nat, nat)>, b: nat,
                              position: map<nat, nat>)
    requires b <= |batch|
  {
    position == Moved(dlq, start, batch[..b]) && forall j :: 0 <= j < b ==> !ServingStopsAt(f, dlq, start, batch, j)
  }

  lemma OneMoreServed(f: Faults, dlq: Partitions, start: map<nat, nat>, batch: seq<(nat, nat)>, b: nat,
                      position: map<nat, nat>)
    requires b < |batch| && ServedSoFar(f, dlq, start, batch, b, position)
    ensures if ServingStops(f, dlq, position, batch[b]) then BatchStops(f, dlq, start, batch)
            else ServedSoFar(f, dlq, start, batch, b + 1, MovedBy(dlq, position, batch[b]))
  {
    assert batch[..b + 1][..b] == batch[..b];
    assert ServingStopsAt(f, dlq, start, batch, b) == ServingStops(f, dlq, position, batch[b]);
  }

  lemma AllServed(f: Faults, dlq: Partitions, start: map<nat, nat>, batch: seq<(nat, nat)>, position: map<nat, nat>)
    requires ServedSoFar(f, dlq, start, batch, |batch|, position)
    ensures position == Moved(dlq, start, batch) && !BatchStops(f, dlq, start, batch)
  {
    assert batch[..|batch|] == batch;
  }

  /** The read positions lie nowhere behind a committed offset, everything before them is done, and whatever
      was read since the start is committed. */
  ghost predicate ReadTo(dlq: Partitions, committed: map<nat, nat>, clicks: seq<(string, Json)>,
                         quarantine: seq<Option<Value>>, position: map<nat, nat>, start: map<nat, nat>)
  {
    && position.Keys == dlq.Keys == start.Keys
    && forall tp :: tp in position ==>
         && position[tp] <= |dlq[tp]|
         && AllAccounted(dlq[tp], position[tp], clicks, quarantine)
         && (tp in committed ==> committed[tp] <= position[tp])
         && (position[tp] != start[tp] ==> tp in committed && committed[tp] == position[tp])
  }

  function Capped(n: nat, size: nat): (r: nat)
    ensures r <= n && r <= size && (r == n || r == size)
  {
    if n <= size then n else size
  }

  /** Read positions after polling until three empty batches in a row, or until the broker has no more. */
  function Drained(dlq: Partitions, position: map<nat, nat>, polls: seq<seq<(nat, nat)>>, empties: nat): map<nat, nat>
    decreases |polls|
  {
    if empties >= EMPTY_BATCH_LIMIT || polls == [] then position
    else if polls[0] == [] then Drained(dlq, position, polls[1..], empties + 1)
    else Drained(dlq, Moved(dlq, position, polls[0]), polls[1..], 0)
  }

  /** Three empty batches in a row. */
  predicate EmptyFrom(polls: seq<seq<(nat, nat)>>, k: nat) {
    k + 2 < |polls| && polls[k] == [] && polls[k + 1] == [] && polls[k + 2] == []
  }

  ghost predicate NeverIdle(polls: seq<seq<(nat, nat)>>) {
    forall k: nat :: !EmptyFrom(polls, k)
  }

  /** Read positions after serving all of these batches. */
  function MovedThrough(dlq: Partitions, position: map<nat, nat>, polls: seq<seq<(nat, nat)>>): map<nat, nat>
    decreases |polls|
  {
    if polls == [] then position else MovedThrough(dlq, Moved(dlq, position, polls[0]), polls[1..])
  }

  /** Some batch kills the replay when its turn comes. */
  ghost predicate SomeBatchStops(f: Faults, dlq: Partitions, position: map<nat, nat>, polls: seq<seq<(nat, nat)>>)
    decreases |polls|
  {
    polls != [] && (BatchStops(f, dlq, position, polls[0]) ||
                    SomeBatchStops(f, dlq, Moved(dlq, position, polls[0]), polls[1..]))
  }

  /** Without three empty batches in a row everything the broker hands out is served, and with them everything up to
      them and nothing behind. `idle` are the empty batches just before. */
  lemma {:induction false} ServedUntilIdle(f: Faults, dlq: Partitions, position: map<nat, nat>,
                                           idle: seq<seq<(nat, nat)>>, polls: seq<seq<(nat, nat)>>,
                                           rest: seq<seq<(nat, nat)>>)
    requires |idle| <= 2 && (forall i :: 0 <= i < |idle| ==> idle[i] == []) && NeverIdle(idle + polls)
    requires rest == [] || EmptyFrom(rest, 0)
    ensures Drained(dlq, position, polls + rest, |idle|) == MovedThrough(dlq, position, polls)
    ensures PollsStop(f, dlq, position, polls + rest, |idle|) == SomeBatchStops(f, dlq, position, polls)
    decreases |polls|
  {
    if polls == [] {
      assert polls + rest == rest;
      IdleEnds(f, dlq, position, rest, |idle|);
    } else {
      assert (polls + rest)[0] == polls[0] && (polls + rest)[1..] == polls[1..] + rest;
      if polls[0] == [] {
        assert |idle| == 2 ==> EmptyFrom(idle + polls, 0);
        assert (idle + [polls[0]]) + polls[1..] == idle + polls;
        ServedUntilIdle(f, dlq, position, idle + [polls[0]], polls[1..], rest);
      } else {
        forall k: nat
          ensures !EmptyFrom([] + polls[1..], k)
        {
          assert !EmptyFrom(idle + polls, |idle| + 1 + k);
        }
        ServedUntilIdle(f, dlq, Moved(dlq, position, polls[0]), [], polls[1..], rest);
      }
    }
  }

  lemma IdleEnds(f: Faults, dlq: Partitions, position: map<nat, nat>, rest: seq<seq<(nat, nat)>>, empties: nat)
    requires rest == [] || EmptyFrom(rest, 0)
    ensures Drained(dlq, position, rest, empties) == position && !PollsStop(f, dlq, position, rest, empties)
  {
    if rest != [] {
      OneIdle(f, dlq, position, rest, empties);
      OneIdle(f, dlq, position, rest[1..], empties + 1);
      OneIdle(f, dlq, position, rest[1..][1..], empties + 2);
    }
  }

  lemma OneIdle(f: Faults, dlq: Partitions, position: map<nat, nat>, polls: seq<seq<(nat, nat)>>, empties: nat)
    requires polls != [] && polls[0] == []
    ensures if empties < 3
            then Drained(dlq, position, polls, empties) == Drained(dlq, position, polls[1..], empties + 1)
                 && PollsStop(f, dlq, position, polls, empties) == PollsStop(f, dlq, position, polls[1..], empties + 1)
            else Drained(dlq, position, polls, empties) == position && !PollsStop(f, dlq, position, polls, empties)
  {
  }

  /** The replayer's view of the world: the DLQ partitions, the group's committed offsets, the topic it
      re-publishes to and the quarantine file. */
  class Replayer {
    const dlq: Partitions
    var committed: map<nat, nat>
    var clicks: seq<(string, Json)>
    var quarantine: seq<Option<Value>>

    /** Every DLQ row below a committed offset has been re-published or quarantined. */
    ghost predicate Valid()
      reads this
    {
      && (forall tp :: tp in committed ==> tp in dlq && committed[tp] <= |dlq[tp]|)
      && (forall tp :: tp in committed ==> AllAccounted(dlq[tp], committed[tp], clicks, quarantine))
    }

    constructor (dlq: Partitions)
      ensures this.dlq == dlq && committed == map[] && clicks == [] && quarantine == []
      ensures Valid()
    {
      this.dlq := dlq;
      committed, clicks, quarantine := map[], [], [];
    }

    /** One record. `acked` tells whether the publish succeeds; a failed one may still have been stored. */
    method HandleDlqRecord(row: Option<Value>, acked: bool, stored: bool) returns (ok: bool)
      modifies this`clicks, this`quarantine
      ensures ok <==> Handle(row) == Quarantine || (Handle(row).Republish? && acked)
      ensures ok ==> clicks == old(clicks) + Republished([row]) && quarantine == old(quarantine) + Quarantined([row])
      ensures !ok ==> quarantine == old(quarantine)
      ensures !ok ==> clicks == old(clicks) || (Handle(row).Republish? && clicks == old(clicks) + Republished([row]))
    {
      assert [row][..0] == [];
      match Handle(row) {
        case Crash =>
          return false;
        case Quarantine =>
          quarantine := quarantine + [row];
          return true;
        case Republish(key, payload) =>
          if acked || stored {
            clicks := clicks + [(key, payload)];
          }
          return acked;
      }
    }

    /** The rows of one partition batch, up to the first that raises. */
    method HandleRows(f: Faults, tp: nat, from: nat, rows: seq<Option<Value>>)
      returns (ok: bool, replayed: nat, skipped: nat, ghost handled: seq<Option<Value>>)
      modifies this`clicks, this`quarantine
      ensures ok <==> forall i :: 0 <= i < |rows| ==> !StopsAt(f, tp, from, rows, i)
      ensures handled <= rows && (ok ==> handled == rows)
      ensures !ok ==> |handled| < |rows| && StopsAt(f, tp, from, rows, |handled|)
      ensures AllAccounted(handled, |handled|, clicks, quarantine)
      ensures Done(old(clicks), old(quarantine), handled, ok, replayed, skipped, clicks, quarantine)
    {
      replayed, skipped, handled := 0, 0, [];
      for i := 0 to |rows|
        invariant handled == rows[..i]
        invariant forall j :: 0 <= j < i ==> !StopsAt(f, tp, from, rows, j)
        invariant Done(old(clicks), old(quarantine), handled, true, replayed, skipped, clicks, quarantine)
        invariant AllAccounted(handled, i, clicks, quarantine)
      {
        ghost var c, q := clicks, quarantine;
        var ok' := HandleDlqRecord(rows[i], !f.sendFails(tp, from + i), f.stored(tp, from + i));
        OneMoreHandled(old(clicks), old(quarantine), handled, rows[i], replayed, skipped, c, q,
                       ok', clicks, quarantine);
        if !ok' {
          assert StopsAt(f, tp, from, rows, i);
          return false, replayed, skipped, handled;
        }
        if Handle(rows[i]).Republish? {
          replayed := replayed + 1;
        } else {
          skipped := skipped + 1;
        }
        handled := handled + [rows[i]];
      }
      return true, replayed, skipped, handled;
    }

    /** The rows of one partition batch, then its commit. */
    method ReplayPartition(f: Faults, tp: nat, from: nat, count: nat)
      returns (ok: bool, replayed: nat, skipped: nat, ghost handled: seq<Option<Value>>)
      requires tp in dlq && from + count <= |dlq[tp]|
      requires Valid() && AllAccounted(dlq[tp], from, clicks, quarantine)
      modifies this
      ensures Valid()
      ensures ok ==> AllAccounted(dlq[tp], from + count, clicks, quarantine)
      ensures ok != RowsStop(f, dlq, tp, from, from + count)
      ensures handled <= dlq[tp][from..from + count] && (ok ==> |handled| == count)
      ensures Done(old(clicks), old(quarantine), handled, ok, replayed, skipped, clicks, quarantine)
      ensures committed == old(committed) || committed == old(committed)[tp := from + count]
      ensures ok && count > 0 ==> committed == old(committed)[tp := from + count]
    {
      var rows := dlq[tp][from..from + count];
      ok, replayed, skipped, handled := HandleRows(f, tp, from, rows);
      StillAccounted(old(clicks), old(quarantine));
      AccountedStays(dlq[tp], from, old(clicks), old(quarantine), clicks, quarantine);
      if !ok {
        assert Stops(f, tp, from + |handled|, dlq[tp][from + |handled|]);
        return;
      }
      forall o | from <= o < from + count
        ensures !Stops(f, tp, o, dlq[tp][o])
      {
        assert !StopsAt(f, tp, from, rows, o - from);
      }
      forall o | 0 <= o < from + count
        ensures Accounted(dlq[tp][o], clicks, quarantine)
      {
        if from <= o {
          assert dlq[tp][o] == handled[o - from];
        }
      }
      if count > 0 {
        var raised := f.commitFails(tp, from + count);
        if !raised || f.landed(tp, from + count) {
          committed := committed[tp := from + count];
        }
        ok := !raised;
      }
    }

    lemma StillAccounted(c: seq<(string, Json)>, q: seq<Option<Value>>)
      requires forall tp :: tp in committed ==> tp in dlq && committed[tp] <= |dlq[tp]|
      requires forall tp :: tp in committed ==> AllAccounted(dlq[tp], committed[tp], c, q)
      requires c <= clicks && q <= quarantine
      ensures Valid()
    {
      forall tp | tp in committed
        ensures AllAccounted(dlq[tp], committed[tp], clicks, quarantine)
      {
        AccountedStays(dlq[tp], committed[tp], c, q, clicks, quarantine);
      }
    }

    /** One partition of a batch: up to n rows from the position on. */
    method HandlePartition(f: Faults, served: (nat, nat), position: map<nat, nat>, ghost first: map<nat, nat>)
      returns (ok: bool, position': map<nat, nat>, replayed: nat, skipped: nat, ghost handled: seq<Option<Value>>)
      requires Valid() && Positioned(position, first)
      modifies this
      ensures Valid() && NoneForgotten(old(committed), committed)
      ensures ok ==> position' == MovedBy(dlq, position, served) && Positioned(position', first)
      ensures ok != ServingStops(f, dlq, position, served)
      ensures Done(old(clicks), old(quarantine), handled, ok, replayed, skipped, clicks, quarantine)
    {
      var (tp, n) := served;
      if tp !in dlq {
        return true, position, 0, 0, [];
      }
      var from: nat := position[tp];
      var end := Capped(from + n, |dlq[tp]|);
      ok, replayed, skipped, handled := ReplayPartition(f, tp, from, end - from);
      StillPositioned(position, old(clicks), old(quarantine));
      position' := position[tp := end];
    }

    /** One poll's batch: for each partition with new rows, how many. */
    method HandleBatch(f: Faults, batch: seq<(nat, nat)>, start: map<nat, nat>, ghost first: map<nat, nat>)
      returns (ok: bool, position: map<nat, nat>, replayed: nat, skipped: nat, ghost handled: seq<Option<Value>>)
      requires Valid() && Positioned(start, first)
      modifies this
      ensures Valid() && NoneForgotten(old(committed), committed)
      ensures ok ==> position == Moved(dlq, start, batch) && Positioned(position, first)
      ensures ok != BatchStops(f, dlq, start, batch)
      ensures Done(old(clicks), old(quarantine), handled, ok, replayed, skipped, clicks, quarantine)
    {
      ok, position, replayed, skipped, handled := true, start, 0, 0, [];
      for b := 0 to |batch|
        invariant Valid() && Positioned(position, first)
        invariant ServedSoFar(f, dlq, start, batch, b, position)
        invariant NoneForgotten(old(committed), committed)
        invariant Done(old(clicks), old(quarantine), handled, true, replayed, skipped, clicks, quarantine)
      {
        OneMoreServed(f, dlq, start, batch, b, position);
        ghost var c, q := clicks, quarantine;
        var r, s;
        ghost var rows;
        ok, position, r, s, rows := HandlePartition(f, batch[b], position, first);
        DoneThen(old(clicks), old(quarantine), handled, replayed, skipped, c, q, rows, ok, r, s, clicks, quarantine);
        replayed, skipped, handled := replayed + r, skipped + s, handled + rows;
        if !ok {
          return;
        }
      }
      AllServed(f, dlq, start, batch, position);
      ok := true;
    }

    /** Where a consumer of this group starts: at its committed offsets. */
    function Start(): map<nat, nat>
      reads this
    {
      map tp | tp in dlq :: if tp in committed then committed[tp] else 0
    }

    /** `replay_dlq`: polls until three empty batches in a row, `polls` being what the broker hands out. It
        aborts exactly when a row it gets to raises or a commit it gets to fails; otherwise everything served is
        accounted for and committed. */
    method ReplayDlq(f: Faults, polls: seq<seq<(nat, nat)>>)
      returns (outcome: Outcome, ghost handled: seq<Option<Value>>)
      requires Valid()
      modifies this
      ensures Valid()
      ensures NoneForgotten(old(committed), committed)
      ensures Produced(old(clicks), old(quarantine), handled, outcome.Completed?, clicks, quarantine)
      ensures outcome.Completed? ==> Counted(handled, outcome.replayed, outcome.skipped)
      ensures outcome.Aborted? <==> PollsStop(f, dlq, old(Start()), polls, 0)
      ensures outcome.Completed? ==>
                Positioned(Drained(dlq, old(Start()), polls, 0), old(Start()))
    {
      var position := Start();
      ghost var start := position;
      var replayed, skipped, consecutiveEmpty, p := 0, 0, 0, 0;
      handled := [];
      while consecutiveEmpty < EMPTY_BATCH_LIMIT
        invariant Valid() && Positioned(position, start)
        invariant p <= |polls| && consecutiveEmpty <= EMPTY_BATCH_LIMIT
        invariant Drained(dlq, position, polls[p..], consecutiveEmpty) == Drained(dlq, start, polls, 0)
        invariant PollsStop(f, dlq, position, polls[p..], consecutiveEmpty) == PollsStop(f, dlq, start, polls, 0)
        invariant NoneForgotten(old(committed), committed)
        invariant Done(old(clicks), old(quarantine), handled, true, replayed, skipped, clicks, quarantine)
        decreases |polls| - p, EMPTY_BATCH_LIMIT - consecutiveEmpty
      {
        var batch := [];
        if p < |polls| {
          batch := polls[p];
          assert polls[p..][1..] == polls[p + 1..];
          p := p + 1;
        }
        if batch == [] {
          consecutiveEmpty := consecutiveEmpty + 1;
          continue;
        }
        consecutiveEmpty := 0;
        ghost var c, q := clicks, quarantine;
        var ok, position', r, s, rows := HandleBatch(f, batch, position, start);
        DoneThen(old(clicks), old(quarantine), handled, replayed, skipped, c, q, rows, ok, r, s, clicks, quarantine);
        handled := handled + rows;
        if !ok {
          return Aborted, handled;
        }
        position, replayed, skipped := position', replayed + r, skipped + s;
      }
      return Completed(replayed, skipped), handled;
    }

    /** Committed offsets never move back. */
    predicate NoneForgotten(before: map<nat, nat>, after: map<nat, nat>) {
      forall tp :: tp in before ==> tp in after && before[tp] <= after[tp]
    }

    /** Where the replayer reads next. */
    ghost predicate Positioned(position: map<nat, nat>, start: map<nat, nat>)
      reads this
    {
      ReadTo(dlq, committed, clicks, quarantine, position, start)
    }

    lemma StillPositioned(position: map<nat, nat>, c: seq<(string, Json)>, q: seq<Option<Value>>)
      requires position.Keys == dlq.Keys && forall tp :: tp in position ==> position[tp] <= |dlq[tp]|
      requires forall tp :: tp in position ==> AllAccounted(dlq[tp], position[tp], c, q)
      requires c <= clicks && q <= quarantine
      ensures forall tp :: tp in position ==> AllAccounted(dlq[tp], position[tp], clicks, quarantine)
    {
      forall tp | tp in position
        ensures AllAccounted(dlq[tp], position[tp], clicks, quarantine)
      {
        AccountedStays(dlq[tp], position[tp], c, q, clicks, quarantine);
      }
    }
  }

  lemma OutputOf(row: Option<Value>)
    ensures Republished([row]) == match Handle(row) case Republish(key, payload) => [(key, payload)] case _ => []
    ensures Quarantined([row]) == if Handle(row) == Quarantine then [row] else []
  {
    assert [row][..0] == [];
  }

  lemma OneMoreRow(rows: seq<Option<Value>>, row: Option<Value>)
    ensures Republished(rows + [row]) == Republished(rows) + Republished([row])
    ensures Quarantined(rows + [row]) == Quarantined(rows) + Quarantined([row])
  {
    assert (rows + [row])[..|rows|] == rows;
    assert [row][..0] == [];
  }

  lemma {:induction false} Concatenated(a: seq<Option<Value>>, b: seq<Option<Value>>)
    ensures Republished(a + b) == Republished(a) + Republished(b)
    ensures Quarantined(a + b) == Quarantined(a) + Quarantined(b)
  {
    if b == [] {
      assert a + b == a;
    } else {
      var init, row := b[..|b| - 1], b[|b| - 1];
      Concatenated(a, init);
      assert b == init + [row] && a + b == (a + init) + [row];
      OneMoreRow(a + init, row);
      OneMoreRow(init, row);
      Associative(Republished(a), Republished(init), Republished([row]));
      Associative(Quarantined(a), Quarantined(init), Quarantined([row]));
    }
  }
}
