/** Clicks from the consumer through the dead-letter queue to the replay script: the rows the consumer of
    Consumer.dfy sends are the envelopes that the replayer of Dlq.dfy reads, and no record gets lost between them. */
module Conservation {
  import opened Lists
  import Consumer
  import Dlq

  /** What parsing and validation make of a message. */
  type Parser = Dlq.Value -> Option<Consumer.Click>

  /** The consumer's log holds the parsed records of the topic. */
  predicate Parsed(s: Consumer.State, records: seq<Dlq.ClickRecord>, parse: Parser) {
    |records| == |s.log| && forall o :: 0 <= o < |records| ==> s.log[o] == parse(Dlq.Raw(records[o].value))
  }

  /** A validated click names its user as the message does. */
  ghost predicate Validates(parse: Parser) {
    forall raw :: parse(raw).Some? && parse(raw).value.user != "" ==>
      Dlq.HasUser(raw) && Dlq.Field(raw.json.fields, "user_id").text == parse(raw).value.user
  }

  function ReasonOf(reason: Consumer.Reason): (r: Dlq.Reason)
    ensures r.RetriesExhausted? <==> reason.RetriesExhausted?
  {
    match reason
    case Poison => Dlq.ParseOrValidation
    case RetriesExhausted => Dlq.RetriesExhausted
  }

  /** Where the broker put each row the consumer sent: a DLQ partition and an index in it. */
  type Placement = nat -> (nat, nat)

  /** Row r, on the DLQ at its place, is the envelope of the record it stands for. */
  predicate PlacedAt(s: Consumer.State, records: seq<Dlq.ClickRecord>, dlq: Dlq.Partitions, place: Placement,
                     info: nat -> Dlq.ErrorInfo, r: nat)
    requires r < |s.dlq|
  {
    var row, (tp, i) := s.dlq[r], place(r);
    row.offset < |records| ==>
      tp in dlq && i < |dlq[tp]|
      && dlq[tp][i] == Some(Dlq.Envelope(records[row.offset], ReasonOf(row.reason), info(r)))
  }

  ghost predicate Placed(s: Consumer.State, records: seq<Dlq.ClickRecord>, dlq: Dlq.Partitions, place: Placement,
                         info: nat -> Dlq.ErrorInfo)
  {
    forall r :: 0 <= r < |s.dlq| ==> PlacedAt(s, records, dlq, place, info, r)
  }

  /** Row r stands for record o and lies below the replayer's committed offset. */
  predicate Replayed(s: Consumer.State, o: nat, committed: map<nat, nat>, place: Placement, r: nat) {
    r < |s.dlq| && s.dlq[r].offset == o && var (tp, i) := place(r); tp in committed && i < committed[tp]
  }

  /** The record came back with its payload, keyed on its user, or is in quarantine. */
  predicate CameBackOrQuarantined(raw: Dlq.Value, envelope: Dlq.Value, replayer: Dlq.Replayer)
    reads replayer
  {
    if Dlq.HasUser(raw) then (Dlq.Field(raw.json.fields, "user_id").text, raw.json) in replayer.clicks
    else Some(envelope) in replayer.quarantine
  }

  /** Conservation, end to end: every record below the consumer's committed offset was enriched, was skipped as
      unknown, or is on the DLQ; and once the replayer has passed its row, it was re-published with the same
      payload, keyed on its user, or quarantined. */
  lemma NoRecordIsLost(maxRetries: nat, catalog: set<string>, steps: seq<Consumer.Step>, records: seq<Dlq.ClickRecord>,
                       parse: Parser, replayer: Dlq.Replayer, place: Placement, info: nat -> Dlq.ErrorInfo, o: nat)
    requires Consumer.Run(Consumer.Init(maxRetries, catalog), steps).Some?
    requires var s := Consumer.Run(Consumer.Init(maxRetries, catalog), steps).value;
             Parsed(s, records, parse) && Placed(s, records, replayer.dlq, place, info) && o < s.committed
    requires replayer.Valid()
    ensures var s := Consumer.Run(Consumer.Init(maxRetries, catalog), steps).value;
            && o < |records|
            && (Consumer.OnDlq(s, o) || (s.log[o].Some? && Consumer.Settled(s, s.log[o].value.event)))
            && forall r :: 0 <= r < |s.dlq| && Replayed(s, o, replayer.committed, place, r) ==>
                 CameBackOrQuarantined(Dlq.Raw(records[o].value),
                                       Dlq.Envelope(records[o], ReasonOf(s.dlq[r].reason), info(r)), replayer)
  {
    Consumer.NothingLost(maxRetries, catalog, steps);
    var s := Consumer.Run(Consumer.Init(maxRetries, catalog), steps).value;
    assert Consumer.Accounted(s, o);
    forall r | 0 <= r < |s.dlq| && Replayed(s, o, replayer.committed, place, r)
      ensures CameBackOrQuarantined(Dlq.Raw(records[o].value),
                                    Dlq.Envelope(records[o], ReasonOf(s.dlq[r].reason), info(r)), replayer)
    {
      RowIsHandled(s, records, replayer, place, info, o, r);
    }
  }

  lemma RowIsHandled(s: Consumer.State, records: seq<Dlq.ClickRecord>, replayer: Dlq.Replayer, place: Placement,
                     info: nat -> Dlq.ErrorInfo, o: nat, r: nat)
    requires Placed(s, records, replayer.dlq, place, info) && replayer.Valid() && o < |records|
    requires r < |s.dlq| && Replayed(s, o, replayer.committed, place, r)
    ensures CameBackOrQuarantined(Dlq.Raw(records[o].value),
                                  Dlq.Envelope(records[o], ReasonOf(s.dlq[r].reason), info(r)), replayer)
  {
    assert PlacedAt(s, records, replayer.dlq, place, info, r);
    var (tp, i) := place(r);
    assert Dlq.AllAccounted(replayer.dlq[tp], replayer.committed[tp], replayer.clicks, replayer.quarantine);
    assert Dlq.Accounted(replayer.dlq[tp][i], replayer.clicks, replayer.quarantine);
    Dlq.EnvelopeRoundTrip(records[o], ReasonOf(s.dlq[r].reason), info(r));
  }

  /** A validated click of a named user that was not enriched comes back as the very same click, keyed on that
      user, once the replayer has passed its row. */
  lemma FailedClickComesBack(maxRetries: nat, catalog: set<string>, steps: seq<Consumer.Step>,
                             records: seq<Dlq.ClickRecord>, parse: Parser, replayer: Dlq.Replayer, place: Placement,
                             info: nat -> Dlq.ErrorInfo, o: nat, r: nat) returns (payload: Dlq.Json)
    requires Consumer.Run(Consumer.Init(maxRetries, catalog), steps).Some?
    requires var s := Consumer.Run(Consumer.Init(maxRetries, catalog), steps).value;
             && Parsed(s, records, parse) && Placed(s, records, replayer.dlq, place, info) && o < s.committed
             && Replayed(s, o, replayer.committed, place, r)
             && o < |s.log| && s.log[o].Some? && s.log[o].value.user != ""
    requires Validates(parse) && replayer.Valid()
    ensures var c := Consumer.Run(Consumer.Init(maxRetries, catalog), steps).value.log[o].value;
            (c.user, payload) in replayer.clicks && parse(Dlq.Document(payload)) == Some(c)
  {
    NoRecordIsLost(maxRetries, catalog, steps, records, parse, replayer, place, info, o);
    var raw := Dlq.Raw(records[o].value);
    assert parse(raw).Some?;
    payload := raw.json;
  }

  /** A message that does not parse into a click comes back unparsed as before: it is re-published if it names a
      user, and fails again then, or it is in quarantine. */
  lemma PoisonFailsAgain(maxRetries: nat, catalog: set<string>, steps: seq<Consumer.Step>,
                         records: seq<Dlq.ClickRecord>, parse: Parser, replayer: Dlq.Replayer, place: Placement,
                         info: nat -> Dlq.ErrorInfo, o: nat, r: nat)
    requires Consumer.Run(Consumer.Init(maxRetries, catalog), steps).Some?
    requires var s := Consumer.Run(Consumer.Init(maxRetries, catalog), steps).value;
             && Parsed(s, records, parse) && Placed(s, records, replayer.dlq, place, info) && o < s.committed
             && Replayed(s, o, replayer.committed, place, r)
             && o < |s.log| && s.log[o].None?
    requires replayer.Valid()
    ensures var s := Consumer.Run(Consumer.Init(maxRetries, catalog), steps).value;
            var raw := Dlq.Raw(records[o].value);
            if Dlq.HasUser(raw)
            then (Dlq.Field(raw.json.fields, "user_id").text, raw.json) in replayer.clicks
                 && parse(Dlq.Document(raw.json)) == None
            else Some(Dlq.Envelope(records[o], ReasonOf(s.dlq[r].reason), info(r))) in replayer.quarantine
  {
    NoRecordIsLost(maxRetries, catalog, steps, records, parse, replayer, place, info, o);
  }

  /** Parsers that validate exist, and need not reject every message. */
  lemma ValidatingParserExists() returns (parse: Parser)
    ensures Validates(parse) && forall raw :: Dlq.HasUser(raw) ==> parse(raw).Some?
  {
    parse := raw =>
      if Dlq.HasUser(raw) then Some(Consumer.Click("e", Dlq.Field(raw.json.fields, "user_id").text, "i")) else None;
  }
}
