/** The code of the consumer worker, statement by statement (src/click_rec/kafka/consumer.py,
    src/click_rec/kafka/enrichment.py), over the shared stores of one partition. Every await lets the other
    workers take any steps; every store operation may raise before or after taking effect. Each method is
    proved to be a run of the state machine of Consumer.dfy, so all its theorems hold of this code. */
module ConsumerLoop {
  import opened Lists
  import opened Consumer
  import opened ConsumerTrace

  datatype Outcome = Ok | DlqOk | DlqFailed

  lemma {:induction false} OthersRunIsLocal(s: State, steps: seq<Step>, w: nat)
    requires Inv(s) && Run(s, steps).Some? && forall i :: 0 <= i < |steps| ==> Actor(steps[i]) != Some(w)
    ensures var t := Run(s, steps).value;
            && (w in t.workers <==> w in s.workers)
            && (w in s.workers ==> t.workers[w] == s.workers[w])
            && (forall d :: 0 <= d < |s.deliveries| && s.deliveries[d].worker == w ==>
                  d < |t.deliveries| && t.deliveries[d] == s.deliveries[d])
    decreases |steps|
  {
    if steps != [] {
      StepIsLocal(s, steps[0], w);
      StepKeepsInv(s, steps[0]);
      DoGrows(s, steps[0]);
      assert forall d :: 0 <= d < |s.deliveries| && s.deliveries[d].worker == w ==>
               Do(s, steps[0]).deliveries[d].worker == w;
      OthersRunIsLocal(Do(s, steps[0]), steps[1..], w);
    }
  }

  /** What a worker may rely on across an await. */
  ghost predicate Undisturbed(s: State, t: State, w: nat) {
    && Inv(t) && Grows(s, t) && Follows(s, t, w, [])
    && (w in t.workers <==> w in s.workers)
    && (w in s.workers ==> t.workers[w] == s.workers[w])
    && (Attempting(s, w) ==> Attempting(t, w) && Current(t, w) == Current(s, w))
  }

  lemma OthersUndisturbed(s: State, t: State, w: nat)
    requires Inv(s) && Follows(s, t, w, [])
    ensures Undisturbed(s, t, w)
  {
    var steps :| Run(s, steps) == Some(t) && Own(steps, w) == [];
    OwnNone(steps, w);
    OthersRunIsLocal(s, steps, w);
    RunKeepsInv(s, steps);
    if Attempting(s, w) {
      assert WorkerOk(s, w, s.workers[w]);
    }
  }

  /** Worker w tries the record it stands at for the `attempt`-th time, or is on its way to the DLQ. */
  ghost predicate InLoop(s: State, w: nat, x: Worker, attempt: nat) {
    && w in s.workers && s.workers[w] == x.(phase := s.workers[w].phase)
    && if attempt <= s.maxRetries
       then Attempting(s, w) && Current(s, w).attempts == attempt && Current(s, w).status.applied == 0
       else s.workers[w].phase == Sending(RetriesExhausted)
  }

  /** Worker w is in its `attempt`-th attempt, which has applied its first k effects. */
  ghost predicate InAttempt(s: State, w: nat, x: Worker, c: Click, attempt: nat, k: nat) {
    && Inv(s) && Attempting(s, w) && s.workers[w] == x.(phase := s.workers[w].phase)
    && Current(s, w).attempts == attempt <= s.maxRetries && Current(s, w).status.applied == k
    && Current(s, w).event == c.event && Current(s, w).known == (c.item in s.catalog)
  }

  lemma FaultEndsAttempt(s: State, w: nat, x: Worker, c: Click, attempt: nat, k: nat, applied: bool)
    requires InAttempt(s, w, x, c, attempt, k) && Enabled(s, Fault(w, applied))
    ensures InLoop(Do(s, Fault(w, applied)), w, x, attempt + 1)
  {
  }

  /** Marking completes the delivery, which settles its event. */
  lemma MarkCompletes(s: State, w: nat, stored: bool)
    requires Inv(s) && Enabled(s, Mark(w, stored))
    ensures var t, e := Do(s, Mark(w, stored)), Current(s, w).event;
            && w in t.workers && t.workers[w] == s.workers[w].(next := s.workers[w].next + 1, phase := Ready)
            && Settled(t, e) && (stored ==> e in t.markers)
  {
    var d := s.workers[w].phase.d;
    CompletedSettles(s, w);
    assert Settles(Do(s, Mark(w, stored)).deliveries[d], Current(s, w).event);
  }

  class Partition {
    const maxRetries: nat
    const catalog: set<string>
    var log: seq<Entry>
    var committed: nat
    var markers: set<string>
    var effects: seq<Effect>
    var dlq: seq<DlqRow>
    ghost var deliveries: seq<Delivery>
    ghost var workers: map<nat, Worker>

    ghost function View(): State
      reads this
    {
      State(maxRetries, catalog, log, committed, markers, effects, dlq, deliveries, workers)
    }

    constructor (maxRetries: nat, catalog: set<string>)
      ensures View() == Init(maxRetries, catalog)
    {
      this.maxRetries, this.catalog := maxRetries, catalog;
      log, committed, markers, effects, dlq := [], 0, {}, [], [];
      deliveries, workers := [], map[];
    }

    /** Awaiting: the other workers, producers and key expiry take any number of steps. */
    method Yield(ghost w: nat)
      requires Inv(View())
      modifies this
      ensures Undisturbed(old(View()), View(), w)
    {
      FollowsSelf(View(), w);
      OthersUndisturbed(View(), View(), w);
    }

    /** The bookkeeping of one step of worker w, after the stores have been changed as the step says. */
    ghost method Take(s: State, w: nat, step: Step)
      requires Inv(s) && Enabled(s, step) && Actor(step) == Some(w)
      requires s.maxRetries == maxRetries && s.catalog == catalog
      requires var t := Do(s, step);
               t.log == log && t.committed == committed && t.markers == markers && t.effects == effects && t.dlq == dlq
      modifies this`deliveries, this`workers
      ensures View() == Do(s, step) && Inv(View()) && Follows(s, View(), w, [step])
    {
      StepKeepsInv(s, step);
      DoGrows(s, step);
      FollowsStep(s, w, step);
      deliveries, workers := Do(s, step).deliveries, Do(s, step).workers;
    }

    /** One store operation of the current attempt: it takes effect, or raises with or without having done so. */
    method RunEffect(ghost w: nat, event: string, kind: nat, call: Call)
      requires Inv(View()) && Attempting(View(), w) && Current(View(), w).known
      requires kind < EFFECTS && Current(View(), w).status.applied == kind && Current(View(), w).event == event
      modifies this
      ensures Inv(View()) && Follows(old(View()), View(), w, [CallStep(w, call)])
      ensures View() == Do(old(View()), CallStep(w, call))
    {
      ghost var s := View();
      if call.Fine? || call.applied {
        effects := effects + [Effect(event, kind)];
      }
      Take(s, w, CallStep(w, call));
    }

    /** One await of `apply_enrichment` that changes a store: other workers move, then the operation runs. */
    method Effectful(ghost w: nat, c: Click, kind: nat, ghost x: Worker, attempt: nat, f: Faults) returns (raised: bool)
      requires InAttempt(View(), w, x, c, attempt, kind) && kind < EFFECTS && c.item in catalog
      modifies this
      ensures Inv(View()) && Follows(old(View()), View(), w, CallsFrom(w, f, attempt, true, kind + 2, kind + 3))
      ensures raised == !AllFine(f, attempt, true, kind + 2, kind + 3)
      ensures !raised ==> InAttempt(View(), w, x, c, attempt, kind + 1)
      ensures raised ==> InLoop(View(), w, x, attempt + 1)
    {
      Yield(w);
      ghost var s := View();
      FaultReady(s, w, x, c, attempt, kind);
      RunEffect(w, c.event, kind, f.calls(attempt, kind + 2));
      raised := f.calls(attempt, kind + 2).Raises?;
      OneCall(w, f, attempt, true, kind + 2);
      FollowsOthersThenStep(old(View()), s, w, CallStep(w, f.calls(attempt, kind + 2)));
    }

    lemma FaultReady(s: State, w: nat, x: Worker, c: Click, attempt: nat, k: nat)
      requires InAttempt(s, w, x, c, attempt, k) && k < EFFECTS && c.item in s.catalog
      ensures InLoop(Do(s, Fault(w, false)), w, x, attempt + 1)
      ensures InLoop(Do(s, Fault(w, true)), w, x, attempt + 1)
    {
      FaultEndsAttempt(s, w, x, c, attempt, k, false);
      FaultEndsAttempt(s, w, x, c, attempt, k, true);
    }

    /** One await of `apply_enrichment` that only reads, or the opening and closing of the session. */
    method Reading(ghost w: nat, c: Click, ghost x: Worker, ghost attempt: nat, ghost k: nat, call: Call)
      returns (raised: bool)
      requires InAttempt(View(), w, x, c, attempt, k)
      modifies this
      ensures Inv(View()) && Follows(old(View()), View(), w, if raised then [Fault(w, false)] else [])
      ensures raised == call.Raises?
      ensures !raised ==> InAttempt(View(), w, x, c, attempt, k)
      ensures raised ==> InLoop(View(), w, x, attempt + 1)
    {
      Yield(w);
      raised := call.Raises?;
      if raised {
        ghost var s := View();
        FaultEndsAttempt(s, w, x, c, attempt, k, false);
        Take(s, w, Fault(w, false));
        FollowsOthersThenStep(old(View()), s, w, Fault(w, false));
      }
    }

    /** `apply_enrichment`: resolve the item, read the session, commit the co-clicks, write the recent click,
        bump the three popularity keys in one pipeline, publish the profile update. */
    method ApplyEnrichment(ghost w: nat, c: Click, ghost x: Worker, attempt: nat, f: Faults) returns (raised: bool)
      requires InAttempt(View(), w, x, c, attempt, 0)
      modifies this
      ensures Inv(View()) && Follows(old(View()), View(), w, CallsFrom(w, f, attempt, c.item in catalog, 0, 8))
      ensures raised == !AllFine(f, attempt, c.item in catalog, 0, 8)
      ensures !raised ==> InAttempt(View(), w, x, c, attempt, if c.item in catalog then EFFECTS else 0)
      ensures raised ==> InLoop(View(), w, x, attempt + 1)
    {
      ghost var known := c.item in catalog;
      OneCall(w, f, attempt, known, 0);
      raised := Reading(w, c, x, attempt, 0, f.calls(attempt, 0));
      if raised {
        CallsStop(w, f, attempt, known, 0, 1, 8);
        return;
      }
      CallsThen(w, f, attempt, known, 0, 1, 8);
      if c.item !in catalog {
        UnknownSkips(w, f, attempt, 1);
        return;
      }
      ghost var s := View();
      raised := EnrichKnown(w, c, x, attempt, f);
      FollowsThen(old(View()), s, View(), w, [], CallsFrom(w, f, attempt, true, 1, 8));
    }

    /** The item is known: read the session, then run all effects in order. */
    method EnrichKnown(ghost w: nat, c: Click, ghost x: Worker, attempt: nat, f: Faults) returns (raised: bool)
      requires InAttempt(View(), w, x, c, attempt, 0) && c.item in catalog
      modifies this
      ensures Inv(View()) && Follows(old(View()), View(), w, CallsFrom(w, f, attempt, true, 1, 8))
      ensures raised == !AllFine(f, attempt, true, 1, 8)
      ensures !raised ==> InAttempt(View(), w, x, c, attempt, EFFECTS)
      ensures raised ==> InLoop(View(), w, x, attempt + 1)
    {
      OneCall(w, f, attempt, true, 1);
      raised := Reading(w, c, x, attempt, 0, f.calls(attempt, 1));
      if raised {
        CallsStop(w, f, attempt, true, 1, 2, 8);
        return;
      }
      CallsThen(w, f, attempt, true, 1, 2, 8);
      ghost var s := View();
      raised := ApplyEffects(w, c, x, attempt, f);
      FollowsThen(old(View()), s, View(), w, [], CallsFrom(w, f, attempt, true, 2, 8));
    }

    method ApplyEffects(ghost w: nat, c: Click, ghost x: Worker, attempt: nat, f: Faults) returns (raised: bool)
      requires InAttempt(View(), w, x, c, attempt, 0) && c.item in catalog
      modifies this
      ensures Inv(View()) && Follows(old(View()), View(), w, CallsFrom(w, f, attempt, true, 2, 8))
      ensures raised == !AllFine(f, attempt, true, 2, 8)
      ensures !raised ==> InAttempt(View(), w, x, c, attempt, EFFECTS)
      ensures raised ==> InLoop(View(), w, x, attempt + 1)
    {
      raised := CommitAndRecord(w, c, x, attempt, f);
      if raised {
        CallsStop(w, f, attempt, true, 2, 4, 8);
        return;
      }
      ghost var s := View();
      raised := CountAndPublish(w, c, x, attempt, f);
      CallsFollow(old(View()), s, View(), w, f, attempt, true, 2, 4, 8);
    }

    method CountAndPublish(ghost w: nat, c: Click, ghost x: Worker, attempt: nat, f: Faults) returns (raised: bool)
      requires InAttempt(View(), w, x, c, attempt, 2) && c.item in catalog
      modifies this
      ensures Inv(View()) && Follows(old(View()), View(), w, CallsFrom(w, f, attempt, true, 4, 8))
      ensures raised == !AllFine(f, attempt, true, 4, 8)
      ensures !raised ==> InAttempt(View(), w, x, c, attempt, EFFECTS)
      ensures raised ==> InLoop(View(), w, x, attempt + 1)
    {
      raised := IncrementPopularity(w, c, x, attempt, f);
      if raised {
        CallsStop(w, f, attempt, true, 4, 7, 8);
        return;
      }
      ghost var s := View();
      raised := Effectful(w, c, 5, x, attempt, f);
      CallsFollow(old(View()), s, View(), w, f, attempt, true, 4, 7, 8);
    }

    /** `session.commit()` on the upserted pairs, then the recent-clicks pipeline. */
    method CommitAndRecord(ghost w: nat, c: Click, ghost x: Worker, attempt: nat, f: Faults) returns (raised: bool)
      requires InAttempt(View(), w, x, c, attempt, 0) && c.item in catalog
      modifies this
      ensures Inv(View()) && Follows(old(View()), View(), w, CallsFrom(w, f, attempt, true, 2, 4))
      ensures raised == !AllFine(f, attempt, true, 2, 4)
      ensures !raised ==> InAttempt(View(), w, x, c, attempt, 2)
      ensures raised ==> InLoop(View(), w, x, attempt + 1)
    {
      raised := Effectful(w, c, 0, x, attempt, f);
      if raised {
        CallsStop(w, f, attempt, true, 2, 3, 4);
        return;
      }
      ghost var s := View();
      raised := Effectful(w, c, 1, x, attempt, f);
      CallsFollow(old(View()), s, View(), w, f, attempt, true, 2, 3, 4);
    }

    /** A non-transactional pipeline: it may stop after any of its commands. */
    method IncrementPopularity(ghost w: nat, c: Click, ghost x: Worker, attempt: nat, f: Faults) returns (raised: bool)
      requires InAttempt(View(), w, x, c, attempt, 2) && c.item in catalog
      modifies this
      ensures Inv(View()) && Follows(old(View()), View(), w, CallsFrom(w, f, attempt, true, 4, 7))
      ensures raised == !AllFine(f, attempt, true, 4, 7)
      ensures !raised ==> InAttempt(View(), w, x, c, attempt, 5)
      ensures raised ==> InLoop(View(), w, x, attempt + 1)
    {
      FollowsSelf(View(), w);
      raised := false;
      var kind := 2;
      while kind < 5
        invariant 2 <= kind <= 5 && !raised && AllFine(f, attempt, true, 4, kind + 2)
        invariant Follows(old(View()), View(), w, CallsFrom(w, f, attempt, true, 4, kind + 2))
        invariant InAttempt(View(), w, x, c, attempt, kind)
      {
        ghost var s := View();
        raised := Effectful(w, c, kind, x, attempt, f);
        CallsFollow(old(View()), s, View(), w, f, attempt, true, 4, kind + 2, kind + 3);
        if raised {
          CallsStop(w, f, attempt, true, 4, kind + 3, 7);
          return;
        }
        kind := kind + 1;
      }
    }

    /** `is_consumer_event_processed`: an error reads as "not processed". Without a marker a delivery starts. */
    method CheckMarker(ghost w: nat, event: string, readErrs: bool) returns (found: bool)
      requires Inv(View()) && AtRecord(View(), w) && Record(View(), w).Some? && Record(View(), w).value.event == event
      modifies this
      ensures found == (!readErrs && event in old(markers))
      ensures View() == Do(old(View()), if found then TakeMarked(w) else TakeFresh(w, readErrs))
      ensures Inv(View())
      ensures Follows(old(View()), View(), w, [if found then TakeMarked(w) else TakeFresh(w, readErrs)])
    {
      ghost var s := View();
      found := !readErrs && event in markers;
      Take(s, w, if found then TakeMarked(w) else TakeFresh(w, readErrs));
    }

    /** `mark_consumer_event_processed`: an error leaves the marker unset, and is swallowed. */
    method MarkProcessed(ghost w: nat, event: string, stored: bool)
      requires Inv(View()) && Attempting(View(), w) && Current(View(), w).event == event
      requires Current(View(), w).status.applied == if Current(View(), w).known then EFFECTS else 0
      modifies this
      ensures Inv(View()) && Follows(old(View()), View(), w, [Mark(w, stored)])
      ensures View() == Do(old(View()), Mark(w, stored))
    {
      ghost var s := View();
      if stored {
        markers := markers + {event};
      }
      Take(s, w, Mark(w, stored));
    }

    /** `_send_to_dlq`: a Kafka error is reported as false, though the row may have been stored. */
    method SendToDlq(ghost w: nat, offset: nat, reason: Consumer.Reason, ghost x: Worker, send: Send)
      returns (sent: bool)
      requires Inv(View()) && InPhase(View(), w, Sending(reason)) && View().workers[w] == x.(phase := Sending(reason))
      requires x.next == offset
      modifies this
      ensures Inv(View()) && Follows(old(View()), View(), w, [SendStep(w, send)])
      ensures w in workers && workers[w] == if sent then x.(next := x.next + 1, phase := Ready) else x.(phase := Broken)
      ensures sent == send.Acked?
      ensures sent ==> OnDlq(View(), offset)
    {
      Yield(w);
      ghost var s := View();
      sent := send.Acked?;
      if sent || send.stored {
        dlq := dlq + [DlqRow(offset, reason)];
      }
      assert sent ==> dlq[|dlq| - 1].offset == offset;
      Take(s, w, SendStep(w, send));
      FollowsOthersThenStep(old(View()), s, w, SendStep(w, send));
    }

    /** `_process_one`: parse, check the marker, enrich with bounded retry, mark, or go to the DLQ. `before` is the
        state in which it looks for the marker: from there on it takes exactly the steps the record calls for. A
        marker that is found ends it at once; otherwise one delivery begins. */
    method ProcessOne(ghost w: nat, offset: nat, f: Faults) returns (outcome: Outcome, ghost before: State)
      requires Inv(View()) && AtRecord(View(), w) && View().workers[w].next == offset
      modifies this
      ensures Inv(View()) && Undisturbed(old(View()), before, w)
      ensures Follows(before, View(), w, RecordSteps(w, before, old(log)[offset], f))
      ensures var x := old(View()).workers[w];
              w in workers && workers[w] == if outcome == DlqFailed then x.(phase := Broken)
                                            else x.(next := x.next + 1, phase := Ready)
      ensures outcome == DlqOk ==> OnDlq(View(), offset)
      ensures outcome == Ok ==> old(log)[offset].Some? && Settled(View(), old(log)[offset].value.event)
      ensures outcome != Ok ==> outcome == (if f.send.Acked? then DlqOk else DlqFailed)
      ensures old(log)[offset].Some? ==> Decided(w, before, View(), old(log)[offset].value, f, outcome)
      ensures Begun(deliveries, w) == Begun(old(deliveries), w) + Unskipped(old(log)[offset], before, f)
    {
      ghost var s0, entry := View(), log[offset];
      if log[offset].None? {
        before := View();
        FollowsSelf(before, w);
        OthersUndisturbed(before, before, w);
        outcome := ProcessPoison(w, offset, f.send);
        assert RecordSteps(w, before, entry, f) == [TakePoison(w), SendStep(w, f.send)];
      } else {
        outcome, before := ProcessClick(w, offset, log[offset].value, f);
      }
      FollowsBegins(s0, before, w, []);
      FollowsBegins(before, View(), w, RecordSteps(w, before, entry, f));
      RecordBegins(w, before, entry, f);
    }

    /** What decides the outcome for a click: a found marker skips it and changes nothing else; otherwise it is Ok
        exactly when some attempt succeeds, and then the marker is set if its write lands. */
    ghost predicate Decided(w: nat, before: State, end: State, c: Click, f: Faults, outcome: Outcome) {
      if FindsMarker(before, c, f)
      then outcome == Ok && Enabled(before, TakeMarked(w)) && end == Do(before, TakeMarked(w))
      else
        && (outcome == Ok <==> !NeverSucceeds(f, c.item in catalog, maxRetries))
        && (outcome == Ok && f.marked ==> c.event in end.markers)
    }

    /** The parse failed: straight to the DLQ. */
    method ProcessPoison(ghost w: nat, offset: nat, send: Send) returns (outcome: Outcome)
      requires Inv(View()) && AtRecord(View(), w) && View().workers[w].next == offset && log[offset].None?
      modifies this
      ensures Inv(View()) && Follows(old(View()), View(), w, [TakePoison(w), SendStep(w, send)])
      ensures var x := old(View()).workers[w];
              w in workers && workers[w] == if outcome == DlqFailed then x.(phase := Broken)
                                            else x.(next := x.next + 1, phase := Ready)
      ensures outcome == if send.Acked? then DlqOk else DlqFailed
      ensures outcome == DlqOk ==> OnDlq(View(), offset)
    {
      ghost var s0, x := View(), View().workers[w];
      Take(s0, w, TakePoison(w));
      ghost var s1 := View();
      var sent := SendToDlq(w, offset, Poison, x, send);
      FollowsThen(s0, s1, View(), w, [TakePoison(w)], [SendStep(w, send)]);
      assert [TakePoison(w)] + [SendStep(w, send)] == [TakePoison(w), SendStep(w, send)];
      outcome := if sent then DlqOk else DlqFailed;
    }

    method ProcessClick(ghost w: nat, offset: nat, c: Click, f: Faults) returns (outcome: Outcome, ghost before: State)
      requires Inv(View()) && AtRecord(View(), w) && View().workers[w].next == offset && log[offset] == Some(c)
      modifies this
      ensures Inv(View()) && Undisturbed(old(View()), before, w)
      ensures Follows(before, View(), w, RecordSteps(w, before, Some(c), f))
      ensures var x := old(View()).workers[w];
              w in workers && workers[w] == if outcome == DlqFailed then x.(phase := Broken)
                                            else x.(next := x.next + 1, phase := Ready)
      ensures outcome == DlqOk ==> OnDlq(View(), offset)
      ensures outcome == Ok ==> Settled(View(), c.event)
      ensures outcome != Ok ==> outcome == (if f.send.Acked? then DlqOk else DlqFailed)
      ensures Decided(w, before, View(), c, f, outcome)
    {
      ghost var s0, x := View(), View().workers[w];
      Yield(w);
      before := View();
      assert before.log[offset] == s0.log[offset];
      var found := CheckMarker(w, c.event, f.readErrs);
      ghost var s2 := View();
      if found {
        SettledStays(before, s2, c.event) by { DoGrows(before, TakeMarked(w)); }
        return Ok, before;
      }
      outcome := RetryThenDlq(w, offset, c, x, f);
      FollowsThen(before, s2, View(), w, [TakeFresh(w, f.readErrs)],
                  LoopSteps(w, f, c.item in catalog, 1, maxRetries));
    }

    /** The retry loop, and the DLQ when it is exhausted. */
    method RetryThenDlq(ghost w: nat, offset: nat, c: Click, ghost x: Worker, f: Faults) returns (outcome: Outcome)
      requires Inv(View()) && InLoop(View(), w, x, 1) && x.next == offset < |log| && log[offset] == Some(c)
      modifies this
      ensures Inv(View()) && Follows(old(View()), View(), w, LoopSteps(w, f, c.item in catalog, 1, maxRetries))
      ensures w in workers && workers[w] == if outcome == DlqFailed then x.(phase := Broken)
                                            else x.(next := x.next + 1, phase := Ready)
      ensures outcome == DlqOk ==> OnDlq(View(), offset)
      ensures outcome == Ok ==> Settled(View(), c.event) && (f.marked ==> c.event in markers)
      ensures outcome != Ok ==> outcome == (if f.send.Acked? then DlqOk else DlqFailed)
      ensures outcome == Ok <==> !NeverSucceeds(f, c.item in catalog, maxRetries)
    {
      ghost var s0 := View();
      var done;
      ghost var own;
      done, own := RetryLoop(w, c, x, f);
      if done {
        return Ok;
      }
      ghost var s1 := View();
      var sent := SendToDlq(w, offset, RetriesExhausted, x, f.send);
      FollowsThen(s0, s1, View(), w, own, [SendStep(w, f.send)]);
      outcome := if sent then DlqOk else DlqFailed;
    }

    /** `for attempt in range(1, max_retries + 1)` */
    method RetryLoop(ghost w: nat, c: Click, ghost x: Worker, f: Faults) returns (done: bool, ghost own: seq<Step>)
      requires Inv(View()) && InLoop(View(), w, x, 1) && x.next < |log| && log[x.next] == Some(c)
      modifies this
      ensures Inv(View()) && Follows(old(View()), View(), w, own)
      ensures LoopSteps(w, f, c.item in catalog, 1, maxRetries) == if done then own else own + [SendStep(w, f.send)]
      ensures done ==> w in workers && workers[w] == x.(next := x.next + 1, phase := Ready) && Settled(View(), c.event)
      ensures done && f.marked ==> c.event in markers
      ensures !done ==> w in workers && workers[w] == x.(phase := Sending(RetriesExhausted))
      ensures done != NeverSucceeds(f, c.item in catalog, maxRetries)
    {
      FollowsSelf(View(), w);
      own := [];
      ghost var known := c.item in catalog;
      for attempt := 1 to maxRetries + 1
        invariant Inv(View()) && Looped(old(View()), View(), w, f, known, attempt, maxRetries, own)
        invariant InLoop(View(), w, x, attempt)
        invariant x.next < |log| && log[x.next] == Some(c)
      {
        ghost var s := View();
        done := OneAttempt(w, c, x, attempt, f);
        OneMoreAttempt(old(View()), s, View(), w, f, known, attempt, maxRetries, own);
        own := own + CallsFrom(w, f, attempt, known, 0, 9);
        if done {
          return;
        }
      }
      done := false;
    }

    /** The body of the `try`: enrich, then mark. */
    method OneAttempt(ghost w: nat, c: Click, ghost x: Worker, attempt: nat, f: Faults) returns (done: bool)
      requires Inv(View()) && attempt <= maxRetries && InLoop(View(), w, x, attempt)
      requires x.next < |log| && log[x.next] == Some(c)
      modifies this
      ensures Inv(View()) && Follows(old(View()), View(), w, CallsFrom(w, f, attempt, c.item in catalog, 0, 9))
      ensures done ==> w in workers && workers[w] == x.(next := x.next + 1, phase := Ready) && Settled(View(), c.event)
      ensures done && f.marked ==> c.event in markers
      ensures !done ==> InLoop(View(), w, x, attempt + 1)
      ensures done == Succeeds(f, attempt, c.item in catalog)
    {
      ghost var s0, known := View(), c.item in catalog;
      assert WorkerOk(s0, w, s0.workers[w]);
      var raised := ApplyEnrichment(w, c, x, attempt, f);
      if raised {
        CallsStop(w, f, attempt, known, 0, 8, 9);
        return false;
      }
      CallsThen(w, f, attempt, known, 0, 8, 9);
      ghost var s1 := View();
      done := CloseAndMark(w, c, x, attempt, f);
      FollowsThen(s0, s1, View(), w, CallsFrom(w, f, attempt, known, 0, 8), CallsFrom(w, f, attempt, known, 8, 9));
    }

    /** Leave the session, then mark the event processed. */
    method CloseAndMark(ghost w: nat, c: Click, ghost x: Worker, attempt: nat, f: Faults) returns (done: bool)
      requires InAttempt(View(), w, x, c, attempt, if c.item in catalog then EFFECTS else 0)
      modifies this
      ensures Inv(View()) && Follows(old(View()), View(), w, CallsFrom(w, f, attempt, c.item in catalog, 8, 9))
      ensures done ==> w in workers && workers[w] == x.(next := x.next + 1, phase := Ready) && Settled(View(), c.event)
      ensures done && f.marked ==> c.event in markers
      ensures !done ==> InLoop(View(), w, x, attempt + 1)
      ensures done == f.calls(attempt, 8).Fine?
    {
      OneCall(w, f, attempt, c.item in catalog, 8);
      var raised := Reading(w, c, x, attempt, if c.item in catalog then EFFECTS else 0, f.calls(attempt, 8));
      if raised {
        return false;
      }
      ghost var s := View();
      MarkCompletes(s, w, f.marked);
      MarkProcessed(w, c.event, f.marked);
      FollowsThen(old(View()), s, View(), w, [], [Mark(w, f.marked)]);
      assert [] + [Mark(w, f.marked)] == [Mark(w, f.marked)];
      return true;
    }

    /** One poll cycle of `_worker_loop` on this partition: fetch `n` records, handle them until the first
        DLQ failure, commit behind the last one handled. A failed commit may or may not have landed. `fs` is
        what befalls each record; `looks` tells for each where its marker was looked for and what was done. */
    method PollCycle(ghost w: nat, n: nat, fs: nat -> Faults, commitLands: bool)
      returns (handled: nat, ghost looks: seq<Look>)
      requires Inv(View()) && w !in View().workers && 0 < n && committed + n <= |log|
      modifies this
      ensures Inv(View()) && w !in workers
      ensures handled <= n && AccountedBelow(View(), old(committed) + handled)
      ensures handled < n ==> fs(old(committed) + handled).send.NotAcked?
      ensures handled > 0 && commitLands ==> committed == old(committed) + handled
      ensures |looks| == (if handled < n then handled + 1 else n)
      ensures Covers(looks, old(log), old(committed), fs) && AllOk(looks, w)
      ensures Cycled(old(View()), View(), w, n, looks, commitLands)
    {
      var start := committed;
      Fetch(w, n);
      handled, looks := HandleAndCommit(w, start, n, fs, commitLands);
    }

    /** The rest of the cycle, behind the fetch. */
    method HandleAndCommit(ghost w: nat, start: nat, n: nat, fs: nat -> Faults, lands: bool)
      returns (handled: nat, ghost looks: seq<Look>)
      requires Inv(View()) && w in workers && workers[w] == Worker(start, start + n, start, Ready) && start + n <= |log|
      modifies this
      ensures Inv(View()) && w !in workers
      ensures handled <= n && AccountedBelow(View(), start + handled)
      ensures handled < n ==> fs(start + handled).send.NotAcked?
      ensures handled > 0 && lands ==> committed == start + handled
      ensures |looks| == (if handled < n then handled + 1 else n)
      ensures Covers(looks, old(log), start, fs) && AllOk(looks, w)
      ensures ChainedThenCommit(old(View()), looks, View(), w, lands)
    {
      ghost var s1 := View();
      var last;
      last, looks := HandleRecords(w, start, n, fs);
      ghost var s2 := View();
      CommitOffsets(w, last, lands);
      handled := if last.Some? then last.value + 1 - start else 0;
      AccountedAfterCommit(s2, View(), w, lands, start + handled);
    }

    /** The loop over the records of one partition. */
    method HandleRecords(ghost w: nat, start: nat, n: nat, fs: nat -> Faults)
      returns (lastCommittable: Option<nat>, ghost looks: seq<Look>)
      requires Inv(View()) && w in workers && workers[w] == Worker(start, start + n, start, Ready) && start + n <= |log|
      modifies this
      ensures var end := if lastCommittable.Some? then lastCommittable.value + 1 else start;
              && start <= end <= start + n && AccountedBelow(View(), end) && (lastCommittable.Some? ==> end > start)
              && (end < start + n ==> fs(end).send.NotAcked?)
              && w in workers && workers[w] == Worker(start, start + n, end, if end < start + n then Broken else Ready)
              && |looks| == if end < start + n then end - start + 1 else n
      ensures Inv(View()) && Chained(old(View()), looks, View(), w)
      ensures AllOk(looks, w) && Covers(looks, old(log), start, fs)
    {
      ghost var s0 := View();
      assert WorkerOk(s0, w, workers[w]);
      ChainStarts(s0, w);
      lastCommittable, looks := None, [];
      for offset := start to start + n
        invariant start + n <= |s0.log| && s0.log <= log
        invariant Inv(View()) && AccountedBelow(View(), offset)
        invariant |looks| == offset - start && Chained(s0, looks, View(), w)
        invariant AllOk(looks, w) && Covers(looks, s0.log, start, fs)
        invariant w in workers && workers[w] == Worker(start, start + n, offset, Ready)
        invariant lastCommittable == if offset > start then Some(offset - 1) else None
      {
        var outcome;
        outcome, looks := HandleNext(w, start, offset, fs, s0, looks);
        if outcome == DlqFailed {
          return;
        }
        lastCommittable := Some(offset);
      }
    }

    /** One turn of that loop. */
    method HandleNext(ghost w: nat, ghost start: nat, offset: nat, fs: nat -> Faults, ghost s0: State,
                      ghost looks: seq<Look>) returns (outcome: Outcome, ghost looks': seq<Look>)
      requires Inv(View()) && AtRecord(View(), w) && View().workers[w].next == offset
      requires offset == start + |looks| < |s0.log| && s0.log <= log
      requires Chained(s0, looks, View(), w) && AllOk(looks, w) && Covers(looks, s0.log, start, fs)
      modifies this
      ensures Inv(View()) && old(log) <= log && |looks'| == |looks| + 1
      ensures Chained(s0, looks', View(), w) && AllOk(looks', w) && Covers(looks', s0.log, start, fs)
      ensures var x := old(View()).workers[w];
              w in workers && workers[w] == if outcome == DlqFailed then x.(phase := Broken)
                                            else x.(next := x.next + 1, phase := Ready)
      ensures AccountedBelow(View(), workers[w].next)
      ensures outcome == DlqFailed ==> fs(offset).send.NotAcked?
    {
      ghost var look;
      outcome, look := Looked(w, offset, fs(offset));
      OneMoreLook(s0, looks, look, w);
      OneMoreOk(looks, look, w, s0.log, start, fs);
      looks' := looks + [look];
    }

    method Looked(ghost w: nat, offset: nat, f: Faults) returns (outcome: Outcome, ghost look: Look)
      requires Inv(View()) && AtRecord(View(), w) && View().workers[w].next == offset
      modifies this
      ensures Inv(View()) && old(log) <= log
      ensures look.entry == old(log)[offset] && look.f == f && look.at == old(View()) && look.end == View()
      ensures LookOk(look, w)
      ensures var x := old(View()).workers[w];
              w in workers && workers[w] == if outcome == DlqFailed then x.(phase := Broken)
                                            else x.(next := x.next + 1, phase := Ready)
      ensures AccountedBelow(View(), workers[w].next)
      ensures outcome == DlqFailed ==> f.send.NotAcked?
    {
      ghost var s, entry, before := View(), log[offset], View();
      outcome, before := ProcessOne(w, offset, f);
      look := Look(entry, f, s, before, View());
      FollowsGrows(before, View(), w, StepsOf(look, w));
      assert WorkerOk(View(), w, workers[w]);
    }

    /** `getmany`: the worker now holds the next n records from the committed offset on. */
    ghost method Fetch(w: nat, n: nat)
      requires Inv(View()) && w !in View().workers && 0 < n && committed + n <= |log|
      modifies this
      ensures Inv(View()) && Follows(old(View()), View(), w, [Poll(w, n)])
      ensures w in workers && workers[w] == Worker(committed, committed + n, committed, Ready)
      ensures log == old(log) && committed == old(committed)
    {
      Take(View(), w, Poll(w, n));
    }

    /** Commit behind the last record handled, if there is one. */
    method CommitOffsets(ghost w: nat, lastCommittable: Option<nat>, lands: bool)
      requires Inv(View()) && w in workers
      requires var x := workers[w];
               && (x.phase == Broken || (x.phase == Ready && x.next == x.end)) && x.start <= x.next
               && lastCommittable == if x.next > x.start then Some(x.next - 1) else None
      modifies this
      ensures Inv(View()) && Follows(old(View()), View(), w, [Commit(w, lands)]) && w !in workers
      ensures lastCommittable.Some? && lands ==> committed == lastCommittable.value + 1
    {
      ghost var s0 := View();
      Yield(w);
      ghost var s := View();
      if lastCommittable.Some? && lands {
        committed := lastCommittable.value + 1;
      }
      Take(s, w, Commit(w, lands));
      FollowsOthersThenStep(s0, s, w, Commit(w, lands));
    }
  }

  /** The attempts before this one failed, and `own` are their steps. */
  ghost predicate Looped(s0: State, s: State, w: nat, f: Faults, known: bool, attempt: nat, maxRetries: nat,
                         own: seq<Step>)
  {
    && Follows(s0, s, w, own)
    && LoopSteps(w, f, known, 1, maxRetries) == own + LoopSteps(w, f, known, attempt, maxRetries)
    && forall a :: 1 <= a < attempt ==> !Succeeds(f, a, known)
  }

  lemma OneMoreAttempt(s0: State, s: State, t: State, w: nat, f: Faults, known: bool, attempt: nat, maxRetries: nat,
                       own: seq<Step>)
    requires Inv(s) && Looped(s0, s, w, f, known, attempt, maxRetries, own) && 1 <= attempt <= maxRetries
    requires Follows(s, t, w, CallsFrom(w, f, attempt, known, 0, 9))
    ensures Grows(s, t)
    ensures var next := own + CallsFrom(w, f, attempt, known, 0, 9);
            if Succeeds(f, attempt, known)
            then Follows(s0, t, w, next) && LoopSteps(w, f, known, 1, maxRetries) == next
                 && !NeverSucceeds(f, known, maxRetries)
            else Looped(s0, t, w, f, known, attempt + 1, maxRetries, next)
  {
    var steps := CallsFrom(w, f, attempt, known, 0, 9);
    FollowsThen(s0, s, t, w, own, steps);
    FollowsGrows(s, t, w, steps);
    var rest := if Succeeds(f, attempt, known) then [] else LoopSteps(w, f, known, attempt + 1, maxRetries);
    Associative(own, steps, rest);
    assert own + steps + [] == own + steps;
  }

  /** One record after another, then the commit. */
  ghost predicate ChainedThenCommit(s: State, looks: seq<Look>, t: State, w: nat, lands: bool) {
    exists last :: Chained(s, looks, last, w) && Follows(last, t, w, [Commit(w, lands)])
  }

  lemma AccountedAfterCommit(s: State, t: State, w: nat, lands: bool, end: nat)
    requires Inv(s) && AccountedBelow(s, end) && Follows(s, t, w, [Commit(w, lands)])
    ensures AccountedBelow(t, end)
  {
    FollowsGrows(s, t, w, [Commit(w, lands)]);
    AccountedStays(s, t, end);
  }

  /** A whole cycle: the fetch, one record after another, the commit. */
  ghost predicate Cycled(s: State, t: State, w: nat, n: nat, looks: seq<Look>, lands: bool) {
    exists first :: Follows(s, first, w, [Poll(w, n)]) && ChainedThenCommit(first, looks, t, w, lands)
  }

  /** Over the whole cycle the worker takes exactly these steps, so it is a run of the state machine. */
  lemma CycleSteps(s: State, t: State, w: nat, n: nat, looks: seq<Look>, lands: bool)
    requires Cycled(s, t, w, n, looks, lands) && AllOk(looks, w)
    ensures Follows(s, t, w, [Poll(w, n)] + AllSteps(looks, w) + [Commit(w, lands)]) && Reaches(s, t)
  {
    var first :| Follows(s, first, w, [Poll(w, n)]) && ChainedThenCommit(first, looks, t, w, lands);
    var last :| Chained(first, looks, last, w) && Follows(last, t, w, [Commit(w, lands)]);
    ChainFollows(first, looks, last, w);
    FollowsThen(s, first, last, w, [Poll(w, n)], AllSteps(looks, w));
    FollowsThen(s, last, t, w, [Poll(w, n)] + AllSteps(looks, w), [Commit(w, lands)]);
    FollowsReaches(s, t, w, [Poll(w, n)] + AllSteps(looks, w) + [Commit(w, lands)]);
  }

  /** One delivery begins for each click of the cycle whose marker is not found. */
  lemma CycleBegins(s: State, t: State, w: nat, n: nat, looks: seq<Look>, lands: bool)
    requires Inv(s) && Cycled(s, t, w, n, looks, lands) && AllOk(looks, w)
    ensures Begun(t.deliveries, w) == Begun(s.deliveries, w) + UnskippedOf(looks)
  {
    var a, b, c := [Poll(w, n)], AllSteps(looks, w), [Commit(w, lands)];
    CycleSteps(s, t, w, n, looks, lands);
    FollowsBegins(s, t, w, a + b + c);
    StepsBegin(looks, w);
    NoneFresh(a);
    NoneFresh(c);
    FreshAppend(a, b);
    FreshAppend(a + b, c);
  }
}
