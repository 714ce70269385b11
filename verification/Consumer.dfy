/** The enrichment consumer (src/click_rec/kafka/consumer.py, src/click_rec/kafka/enrichment.py) as a state
    machine over one partition: any number of workers, each step an await that may fail, be lost or be cut
    off by a crash, with arbitrary interleaving. Rebalances are just several workers on the partition at
    once; nothing fences a worker that lost it. A poll starts at the committed offset (FetchPosition.dfy
    treats the case where it does not). */
module Consumer {
  import opened Lists

  /** The part of a validated click that decides what happens to it. */
  datatype Click = Click(event: string, user: string, item: string)

  /** A record of the partition: its parse result, or nothing for a poison pill. */
  type Entry = Option<Click>

  /** The side effects of one event, in execution order: the co-click commit, the recent-clicks write, the
      popularity counter, the category set, the global set, the profile publish. */
  const EFFECTS: nat := 6

  datatype Effect = Effect(event: string, kind: nat)

  /** Running(k): the current attempt has applied its first k effects. */
  datatype Status = Running(applied: nat) | Exhausted | Completed | Abandoned

  /** One run of the pipeline for one record, past the marker check. `counts[k]` is how often it applied
      effect k over all its attempts. */
  datatype Delivery = Delivery(worker: nat, offset: nat, event: string, known: bool,
                               attempts: nat, status: Status, counts: seq<nat>)

  datatype Reason = Poison | RetriesExhausted
  datatype DlqRow = DlqRow(offset: nat, reason: Reason)

  datatype Phase = Ready | Busy(d: nat) | Sending(reason: Reason) | Broken

  /** A worker in a poll cycle: it fetched [start, end) and has handled [start, next). */
  datatype Worker = Worker(start: nat, end: nat, next: nat, phase: Phase)

  datatype State = State(
    maxRetries: nat,
    catalog: set<string>,
    log: seq<Entry>,
    committed: nat,
    markers: set<string>,
    effects: seq<Effect>,
    dlq: seq<DlqRow>,
    deliveries: seq<Delivery>,
    workers: map<nat, Worker>)

  datatype Step =
    | Append(entry: Entry)
    | MarkerExpires(event: string)
    | Poll(w: nat, n: nat)
    | TakePoison(w: nat)
    | TakeMarked(w: nat)
    | TakeFresh(w: nat, readError: bool)
    | Apply(w: nat)
    | Fault(w: nat, applied: bool)
    | Mark(w: nat, stored: bool)
    | SendDlq(w: nat, acked: bool, stored: bool)
    | Commit(w: nat, landed: bool)
    | Crash(w: nat)

  function Init(maxRetries: nat, catalog: set<string>): State {
    State(maxRetries, catalog, [], 0, {}, [], [], [], map[])
  }

  // ---------------------------------------------------------------- steps

  predicate InPhase(s: State, w: nat, p: Phase) {
    w in s.workers && s.workers[w].phase == p
  }

  /** Worker w is about to handle record `next`. */
  predicate AtRecord(s: State, w: nat) {
    InPhase(s, w, Ready) && s.workers[w].next < s.workers[w].end && s.workers[w].next < |s.log|
  }

  function Record(s: State, w: nat): Entry
    requires AtRecord(s, w)
  {
    s.log[s.workers[w].next]
  }

  /** Worker w is inside the retry loop, with the current attempt having applied its first k effects. */
  predicate Attempting(s: State, w: nat) {
    && w in s.workers && s.workers[w].phase.Busy? && s.workers[w].phase.d < |s.deliveries|
    && s.deliveries[s.workers[w].phase.d].status.Running?
    && |s.deliveries[s.workers[w].phase.d].counts| == EFFECTS
  }

  function Current(s: State, w: nat): Delivery
    requires Attempting(s, w)
  {
    s.deliveries[s.workers[w].phase.d]
  }

  predicate Enabled(s: State, step: Step) {
    match step
    case Append(_) => true
    case MarkerExpires(_) => true
    case Poll(w, n) => w !in s.workers && n > 0 && s.committed + n <= |s.log|
    case TakePoison(w) => AtRecord(s, w) && Record(s, w).None?
    case TakeMarked(w) => AtRecord(s, w) && Record(s, w).Some? && Record(s, w).value.event in s.markers
    case TakeFresh(w, readError) =>
      AtRecord(s, w) && Record(s, w).Some? && (readError || Record(s, w).value.event !in s.markers)
    case Apply(w) => Attempting(s, w) && Current(s, w).known && Current(s, w).status.applied < EFFECTS
    case Fault(w, applied) =>
      Attempting(s, w) && (applied ==> Current(s, w).known && Current(s, w).status.applied < EFFECTS)
    case Mark(w, _) => Attempting(s, w) && Current(s, w).status.applied == (if Current(s, w).known then EFFECTS else 0)
    case SendDlq(w, acked, stored) => w in s.workers && s.workers[w].phase.Sending? && (acked ==> stored)
    case Commit(w, _) =>
      w in s.workers &&
        (s.workers[w].phase == Broken || (s.workers[w].phase == Ready && s.workers[w].next == s.workers[w].end))
    case Crash(w) => w in s.workers
  }

  function SetWorker(s: State, w: nat, x: Worker): State {
    s.(workers := s.workers[w := x])
  }

  /** The record is handled: go on with the next one. */
  function Advance(s: State, w: nat): State
    requires w in s.workers
  {
    SetWorker(s, w, s.workers[w].(next := s.workers[w].next + 1, phase := Ready))
  }

  function SetDelivery(s: State, w: nat, x: Delivery): State
    requires Attempting(s, w)
  {
    s.(deliveries := s.deliveries[s.workers[w].phase.d := x])
  }

  /** The next effect of the current attempt happens. */
  function ApplyNext(s: State, w: nat): State
    requires Attempting(s, w) && Current(s, w).status.applied < EFFECTS
  {
    var d := Current(s, w);
    var k := d.status.applied;
    SetDelivery(s, w, d.(status := Running(k + 1), counts := d.counts[k := d.counts[k] + 1]))
    .(effects := s.effects + [Effect(d.event, k)])
  }

  /** The attempt raises: start the next one, or give up and go to the DLQ. */
  function Retry(s: State, w: nat): State
    requires Attempting(s, w)
  {
    var d := Current(s, w);
    if d.attempts < s.maxRetries then SetDelivery(s, w, d.(attempts := d.attempts + 1, status := Running(0)))
    else
      var t := SetDelivery(s, w, d.(status := Exhausted));
      SetWorker(t, w, s.workers[w].(phase := Sending(RetriesExhausted)))
  }

  /** A new delivery enters the retry loop; with a retry limit of 0 the loop body never runs. */
  function Begin(s: State, w: nat): State
    requires AtRecord(s, w) && Record(s, w).Some?
  {
    var c, x := Record(s, w).value, s.workers[w];
    var loops := s.maxRetries > 0;
    var d := Delivery(w, x.next, c.event, c.item in s.catalog, if loops then 1 else 0,
                      if loops then Running(0) else Exhausted, seq(EFFECTS, _ => 0));
    SetWorker(s.(deliveries := s.deliveries + [d]), w,
              x.(phase := if loops then Busy(|s.deliveries|) else Sending(RetriesExhausted)))
  }

  function Do(s: State, step: Step): State
    requires Enabled(s, step)
  {
    match step
    case Append(entry) => s.(log := s.log + [entry])
    case MarkerExpires(event) => s.(markers := s.markers - {event})
    case Poll(w, n) => SetWorker(s, w, Worker(s.committed, s.committed + n, s.committed, Ready))
    case TakePoison(w) => SetWorker(s, w, s.workers[w].(phase := Sending(Poison)))
    case TakeMarked(w) => Advance(s, w)
    case TakeFresh(w, _) => Begin(s, w)
    case Apply(w) => ApplyNext(s, w)
    case Fault(w, applied) => if applied then Retry(ApplyNext(s, w), w) else Retry(s, w)
    case Mark(w, stored) =>
      var d := Current(s, w);
      var t := Advance(SetDelivery(s, w, d.(status := Completed)), w);
      if stored then t.(markers := t.markers + {d.event}) else t
    case SendDlq(w, acked, stored) =>
      var x := s.workers[w];
      var t := if stored then s.(dlq := s.dlq + [DlqRow(x.next, x.phase.reason)]) else s;
      if acked then Advance(t, w) else SetWorker(t, w, x.(phase := Broken))
    case Commit(w, landed) =>
      var x := s.workers[w];
      s.(workers := s.workers - {w}, committed := if landed && x.next > x.start then x.next else s.committed)
    case Crash(w) =>
      var t := if Attempting(s, w) then SetDelivery(s, w, Current(s, w).(status := Abandoned)) else s;
      t.(workers := s.workers - {w})
  }

  /** The state after a run, or nothing when some step was not enabled. */
  function Run(s: State, steps: seq<Step>): Option<State>
    decreases |steps|
  {
    if steps == [] then Some(s)
    else if Enabled(s, steps[0]) then Run(Do(s, steps[0]), steps[1..])
    else None
  }

  ghost predicate Reaches(s: State, t: State) {
    exists steps :: Run(s, steps) == Some(t)
  }

  // ---------------------------------------------------------------- the invariant

  /** Some delivery of the event ran to completion at least once, or found its item unknown. */
  ghost predicate Settled(s: State, event: string) {
    exists d :: 0 <= d < |s.deliveries| && Settles(s.deliveries[d], event)
  }

  predicate Settles(d: Delivery, event: string) {
    d.event == event && |d.counts| == EFFECTS && (d.known ==> forall k :: 0 <= k < EFFECTS ==> d.counts[k] >= 1)
  }

  predicate OnDlq(s: State, o: nat) {
    exists r :: 0 <= r < |s.dlq| && s.dlq[r].offset == o
  }

  /** What a committed offset promises about the record below it. */
  ghost predicate Accounted(s: State, o: nat) {
    o < |s.log| && (OnDlq(s, o) || (s.log[o].Some? && Settled(s, s.log[o].value.event)))
  }

  ghost predicate AccountedBelow(s: State, n: nat) {
    forall o: nat :: o < n ==> Accounted(s, o)
  }

  /** Within one delivery the effects keep their order: none ran more often than the one before it. */
  predicate DeliveryOk(d: Delivery, maxRetries: nat) {
    && |d.counts| == EFFECTS
    && d.attempts <= maxRetries
    && (forall k :: 0 <= k < EFFECTS - 1 ==> d.counts[k] >= d.counts[k + 1])
    && d.counts[0] <= d.attempts
    && (!d.known ==> d.counts[0] == 0)
    && (d.status.Running? ==> RunningOk(d))
  }

  predicate RunningOk(d: Delivery)
    requires |d.counts| == EFFECTS && d.status.Running?
  {
    var k := d.status.applied;
    && k <= EFFECTS
    && (k > 0 ==> d.known)
    && (k == 0 ==> d.counts[0] < d.attempts)
    && (0 < k < EFFECTS ==> d.counts[k - 1] > d.counts[k])
    && (k == EFFECTS ==> d.counts[EFFECTS - 1] >= 1)
  }

  predicate BusyOk(s: State, w: nat, x: Worker)
    requires x.phase.Busy?
  {
    var d := x.phase.d;
    && d < |s.deliveries| && s.deliveries[d].status.Running?
    && s.deliveries[d].worker == w && s.deliveries[d].offset == x.next
    && x.next < |s.log| && s.log[x.next].Some? && s.log[x.next].value.event == s.deliveries[d].event
    && s.deliveries[d].known == (s.log[x.next].value.item in s.catalog)
  }

  ghost predicate WorkerOk(s: State, w: nat, x: Worker) {
    && x.start <= x.next <= x.end <= |s.log|
    && AccountedBelow(s, x.next)
    && (x.phase.Busy? ==> BusyOk(s, w, x))
    && (x.phase.Busy? || x.phase.Sending? ==> x.next < x.end)
  }

  ghost predicate Inv(s: State) {
    && s.committed <= |s.log|
    && AccountedBelow(s, s.committed)
    && (forall e :: e in s.markers ==> Settled(s, e))
    && (forall d :: 0 <= d < |s.deliveries| ==> DeliveryOk(s.deliveries[d], s.maxRetries))
    && (forall w :: w in s.workers ==> WorkerOk(s, w, s.workers[w]))
  }

  /** Later states keep what was accounted for. */
  ghost predicate Grows(s: State, t: State) {
    && s.log <= t.log && s.dlq <= t.dlq && |s.deliveries| <= |t.deliveries|
    && s.catalog == t.catalog && s.maxRetries == t.maxRetries
    && (forall d :: 0 <= d < |s.deliveries| ==> DeliveryGrows(s.deliveries[d], t.deliveries[d]))
  }

  predicate DeliveryGrows(a: Delivery, b: Delivery) {
    && a.event == b.event && a.known == b.known && a.offset == b.offset && a.worker == b.worker
    && |a.counts| == |b.counts| && forall k :: 0 <= k < |a.counts| ==> a.counts[k] <= b.counts[k]
  }

  lemma SettledStays(s: State, t: State, event: string)
    requires Grows(s, t) && Settled(s, event)
    ensures Settled(t, event)
  {
    var d :| 0 <= d < |s.deliveries| && Settles(s.deliveries[d], event);
    assert DeliveryGrows(s.deliveries[d], t.deliveries[d]);
    assert Settles(t.deliveries[d], event);
  }

  lemma AccountedStays(s: State, t: State, n: nat)
    requires Grows(s, t) && AccountedBelow(s, n)
    ensures AccountedBelow(t, n)
  {
    forall o: nat | o < n
      ensures Accounted(t, o)
    {
      assert Accounted(s, o);
      if OnDlq(s, o) {
        var r :| 0 <= r < |s.dlq| && s.dlq[r].offset == o;
        assert t.dlq[r].offset == o;
      } else {
        SettledStays(s, t, s.log[o].value.event);
      }
    }
  }

  lemma DoGrows(s: State, step: Step)
    requires Inv(s) && Enabled(s, step)
    ensures Grows(s, Do(s, step))
  {
    if step.Apply? || step.Fault? {
      AttemptGrows(s, step);
    }
  }

  lemma AttemptGrows(s: State, step: Step)
    requires Inv(s) && Enabled(s, step) && (step.Apply? || step.Fault?)
    ensures Grows(s, Do(s, step))
  {
    var w := step.w;
    assert DeliveryOk(Current(s, w), s.maxRetries);
    if step.Apply? {
      ApplyNextOk(s, w);
    } else if step.applied {
      ApplyNextOk(s, w);
      RetryOk(ApplyNext(s, w), w);
      GrowsTransitive(s, ApplyNext(s, w), Do(s, step));
    } else {
      RetryOk(s, w);
    }
  }

  /** Everything but the worker that moves is untouched by a step of worker w. */
  lemma OtherWorkersOk(s: State, t: State, v: nat)
    requires Grows(s, t) && v in s.workers && WorkerOk(s, v, s.workers[v])
    requires forall d :: 0 <= d < |s.deliveries| && s.deliveries[d].worker == v ==> t.deliveries[d] == s.deliveries[d]
    ensures WorkerOk(t, v, s.workers[v])
  {
    AccountedStays(s, t, s.workers[v].next);
  }

  function Actor(step: Step): Option<nat> {
    match step
    case Append(_) => None
    case MarkerExpires(_) => None
    case Poll(w, _) => Some(w)
    case TakePoison(w) => Some(w)
    case TakeMarked(w) => Some(w)
    case TakeFresh(w, _) => Some(w)
    case Apply(w) => Some(w)
    case Fault(w, _) => Some(w)
    case Mark(w, _) => Some(w)
    case SendDlq(w, _, _) => Some(w)
    case Commit(w, _) => Some(w)
    case Crash(w) => Some(w)
  }

  /** A step leaves the other workers and their deliveries alone. */
  lemma StepIsLocal(s: State, step: Step, v: nat)
    requires Inv(s) && Enabled(s, step) && Actor(step) != Some(v)
    ensures v in Do(s, step).workers <==> v in s.workers
    ensures v in s.workers ==> Do(s, step).workers[v] == s.workers[v]
    ensures forall d :: 0 <= d < |s.deliveries| && s.deliveries[d].worker == v ==>
              Do(s, step).deliveries[d] == s.deliveries[d]
  {
    if Actor(step).Some? {
      var w := Actor(step).value;
      if w in s.workers {
        assert WorkerOk(s, w, s.workers[w]);
      }
    }
  }

  lemma DeliveriesStayOk(s: State, step: Step)
    requires Inv(s) && Enabled(s, step)
    ensures forall d :: 0 <= d < |Do(s, step).deliveries| ==> DeliveryOk(Do(s, step).deliveries[d], s.maxRetries)
  {
    if step.Apply? {
      ApplyNextOk(s, step.w);
    } else if step.Fault? {
      FaultOk(s, step.w, step.applied);
    }
  }

  lemma FaultOk(s: State, w: nat, applied: bool)
    requires Inv(s) && Enabled(s, Fault(w, applied))
    ensures var t := Do(s, Fault(w, applied));
            forall d :: 0 <= d < |t.deliveries| ==> DeliveryOk(t.deliveries[d], s.maxRetries)
  {
    assert DeliveryOk(Current(s, w), s.maxRetries);
    if applied {
      ApplyNextOk(s, w);
      RetryOk(ApplyNext(s, w), w);
    } else {
      RetryOk(s, w);
    }
  }

  lemma ApplyNextOk(s: State, w: nat)
    requires Attempting(s, w) && Current(s, w).known && Current(s, w).status.applied < EFFECTS
    requires DeliveryOk(Current(s, w), s.maxRetries)
    ensures Attempting(ApplyNext(s, w), w) && DeliveryOk(Current(ApplyNext(s, w), w), s.maxRetries)
    ensures Grows(s, ApplyNext(s, w))
  {
  }

  lemma RetryOk(s: State, w: nat)
    requires Attempting(s, w) && DeliveryOk(Current(s, w), s.maxRetries)
    ensures DeliveryOk(Retry(s, w).deliveries[s.workers[w].phase.d], s.maxRetries) && Grows(s, Retry(s, w))
  {
  }

  lemma CompletedSettles(s: State, w: nat)
    requires Attempting(s, w) && DeliveryOk(Current(s, w), s.maxRetries)
    requires Current(s, w).status.applied == if Current(s, w).known then EFFECTS else 0
    ensures Settles(Current(s, w), Current(s, w).event)
  {
    var c := Current(s, w).counts;
    assert c[0] >= c[1] >= c[2] >= c[3] >= c[4] >= c[5];
  }

  lemma MarkersStaySettled(s: State, step: Step)
    requires Inv(s) && Enabled(s, step)
    ensures forall e :: e in Do(s, step).markers ==> Settled(Do(s, step), e)
  {
    var t := Do(s, step);
    DoGrows(s, step);
    forall e | e in t.markers
      ensures Settled(t, e)
    {
      if e in s.markers {
        SettledStays(s, t, e);
      } else {
        CompletedSettles(s, step.w);
        assert Settles(t.deliveries[s.workers[step.w].phase.d], e);
      }
    }
  }

  /** Handling a record accounts for it. */
  lemma AdvanceAccounts(s: State, step: Step)
    requires Inv(s) && Enabled(s, step)
    requires step.TakeMarked? || step.Mark? || (step.SendDlq? && step.acked)
    ensures AccountedBelow(Do(s, step), s.workers[step.w].next + 1)
  {
    var t, x := Do(s, step), s.workers[step.w];
    DoGrows(s, step);
    assert WorkerOk(s, step.w, x);
    AccountedStays(s, t, x.next);
    match step
    case TakeMarked(w) =>
      SettledStays(s, t, Record(s, w).value.event);
    case Mark(w, _) =>
      CompletedSettles(s, w);
      assert Settles(t.deliveries[x.phase.d], s.log[x.next].value.event);
    case SendDlq(w, _, _) =>
      assert t.dlq[|s.dlq|].offset == x.next;
  }

  lemma ActorStaysOk(s: State, step: Step, w: nat)
    requires Inv(s) && Enabled(s, step) && Actor(step) == Some(w)
    ensures w in Do(s, step).workers ==> WorkerOk(Do(s, step), w, Do(s, step).workers[w])
  {
    var t := Do(s, step);
    DoGrows(s, step);
    if step.Poll? {
      AccountedStays(s, t, s.committed);
    } else {
      assert WorkerOk(s, w, s.workers[w]);
      AccountedStays(s, t, s.workers[w].next);
      if step.TakeMarked? || step.Mark? || (step.SendDlq? && step.acked) {
        AdvanceAccounts(s, step);
      }
    }
  }

  /** Every step, whatever its faults, keeps the invariant. */
  lemma StepKeepsInv(s: State, step: Step)
    requires Inv(s) && Enabled(s, step)
    ensures Inv(Do(s, step))
  {
    var t := Do(s, step);
    DoGrows(s, step);
    DeliveriesStayOk(s, step);
    MarkersStaySettled(s, step);
    forall v | v in t.workers
      ensures WorkerOk(t, v, t.workers[v])
    {
      if Actor(step) == Some(v) {
        ActorStaysOk(s, step, v);
      } else {
        StepIsLocal(s, step, v);
        OtherWorkersOk(s, t, v);
      }
    }
    AccountedStays(s, t, s.committed);
    if step.Commit? {
      assert WorkerOk(s, step.w, s.workers[step.w]);
      AccountedStays(s, t, s.workers[step.w].next);
    }
  }

  lemma {:induction false} RunKeepsInv(s: State, steps: seq<Step>)
    requires Inv(s) && Run(s, steps).Some?
    ensures Inv(Run(s, steps).value) && Grows(s, Run(s, steps).value)
    decreases |steps|
  {
    if steps != [] {
      var u := Do(s, steps[0]);
      StepKeepsInv(s, steps[0]);
      DoGrows(s, steps[0]);
      RunKeepsInv(u, steps[1..]);
      GrowsTransitive(s, u, Run(s, steps).value);
    }
  }

  lemma GrowsTransitive(s: State, t: State, u: State)
    requires Grows(s, t) && Grows(t, u)
    ensures Grows(s, u)
  {
    forall d | 0 <= d < |s.deliveries|
      ensures DeliveryGrows(s.deliveries[d], u.deliveries[d])
    {
      assert DeliveryGrows(s.deliveries[d], t.deliveries[d]);
      assert DeliveryGrows(t.deliveries[d], u.deliveries[d]);
    }
  }

  // ---------------------------------------------------------------- safety over whole runs

  /** No loss: in every reachable state every record below the committed offset is on the DLQ, or its event
      was fully enriched or skipped as unknown; a poison pill, having no event, is on the DLQ. */
  lemma NothingLost(maxRetries: nat, catalog: set<string>, steps: seq<Step>)
    requires Run(Init(maxRetries, catalog), steps).Some?
    ensures var s := Run(Init(maxRetries, catalog), steps).value;
            && s.committed <= |s.log|
            && (forall o: nat :: o < s.committed ==> Accounted(s, o))
            && (forall o: nat :: o < s.committed && o < |s.log| && s.log[o].None? ==> OnDlq(s, o))
  {
    RunKeepsInv(Init(maxRetries, catalog), steps);
    var s := Run(Init(maxRetries, catalog), steps).value;
    forall o: nat | o < s.committed && o < |s.log| && s.log[o].None?
      ensures OnDlq(s, o)
    {
      assert Accounted(s, o);
    }
  }

  // ---------------------------------------------------------------- counting side effects

  /** How often effect `kind` of the event happened. */
  function Happened(effects: seq<Effect>, event: string, kind: nat): nat {
    if effects == [] then 0
    else Happened(effects[..|effects| - 1], event, kind) +
         if effects[|effects| - 1] == Effect(event, kind) then 1 else 0
  }

  function OfDelivery(d: Delivery, event: string, kind: nat): nat {
    if d.event == event && kind < |d.counts| then d.counts[kind] else 0
  }

  function TotalOver(deliveries: seq<Delivery>, event: string, kind: nat): nat {
    if deliveries == [] then 0
    else TotalOver(deliveries[..|deliveries| - 1], event, kind) + OfDelivery(deliveries[|deliveries| - 1], event, kind)
  }

  /** Deliveries of the event that passed the marker check. */
  function Unmarked(deliveries: seq<Delivery>, event: string): nat {
    if deliveries == [] then 0
    else Unmarked(deliveries[..|deliveries| - 1], event) + if deliveries[|deliveries| - 1].event == event then 1 else 0
  }

  lemma {:induction false} TotalAfterUpdate(ds: seq<Delivery>, i: nat, d: Delivery, event: string, kind: nat)
    requires i < |ds|
    ensures TotalOver(ds[i := d], event, kind) + OfDelivery(ds[i], event, kind) ==
            TotalOver(ds, event, kind) + OfDelivery(d, event, kind)
  {
    var n := |ds| - 1;
    if i < n {
      TotalAfterUpdate(ds[..n], i, d, event, kind);
      assert ds[i := d][..n] == ds[..n][i := d];
    } else {
      assert ds[i := d][..n] == ds[..n];
    }
  }

  ghost predicate Balanced(s: State) {
    forall event, kind: nat :: Happened(s.effects, event, kind) == TotalOver(s.deliveries, event, kind)
  }

  lemma ApplyNextBalanced(s: State, w: nat)
    requires Balanced(s) && Attempting(s, w) && Current(s, w).status.applied < EFFECTS
    ensures Balanced(ApplyNext(s, w))
  {
    var t := ApplyNext(s, w);
    var d := Current(s, w);
    forall event, kind: nat
      ensures Happened(t.effects, event, kind) == TotalOver(t.deliveries, event, kind)
    {
      TotalAfterUpdate(s.deliveries, s.workers[w].phase.d, Current(t, w), event, kind);
      assert t.effects[..|t.effects| - 1] == s.effects;
    }
  }

  lemma SameCountsBalanced(s: State, t: State, i: nat, d: Delivery)
    requires Balanced(s) && t.effects == s.effects && i < |s.deliveries|
    requires t.deliveries == s.deliveries[i := d]
             && d.event == s.deliveries[i].event && d.counts == s.deliveries[i].counts
    ensures Balanced(t)
  {
    forall event, kind: nat
      ensures Happened(t.effects, event, kind) == TotalOver(t.deliveries, event, kind)
    {
      TotalAfterUpdate(s.deliveries, i, d, event, kind);
    }
  }

  lemma StepKeepsBalance(s: State, step: Step)
    requires Balanced(s) && Enabled(s, step)
    ensures Balanced(Do(s, step))
  {
    var t := Do(s, step);
    match step
    case Apply(w) => ApplyNextBalanced(s, w);
    case Fault(w, applied) =>
      var i := s.workers[w].phase.d;
      if applied {
        ApplyNextBalanced(s, w);
        SameCountsBalanced(ApplyNext(s, w), t, i, t.deliveries[i]);
      } else {
        SameCountsBalanced(s, t, i, t.deliveries[i]);
      }
    case Mark(w, _) => SameCountsBalanced(s, t, s.workers[w].phase.d, t.deliveries[s.workers[w].phase.d]);
    case Crash(w) =>
      if Attempting(s, w) {
        SameCountsBalanced(s, t, s.workers[w].phase.d, t.deliveries[s.workers[w].phase.d]);
      }
    case TakeFresh(w, _) =>
      assert t.deliveries[..|t.deliveries| - 1] == s.deliveries;
    case _ =>
  }

  lemma {:induction false} RunKeepsBalance(s: State, steps: seq<Step>)
    requires Balanced(s) && Run(s, steps).Some?
    ensures Balanced(Run(s, steps).value)
    decreases |steps|
  {
    if steps != [] {
      StepKeepsBalance(s, steps[0]);
      RunKeepsBalance(Do(s, steps[0]), steps[1..]);
    }
  }

  lemma {:induction false} TotalsInOrder(ds: seq<Delivery>, maxRetries: nat, event: string, kind: nat)
    requires forall d :: 0 <= d < |ds| ==> DeliveryOk(ds[d], maxRetries)
    requires kind + 1 < EFFECTS
    ensures TotalOver(ds, event, kind) >= TotalOver(ds, event, kind + 1)
  {
    if ds != [] {
      var n := |ds| - 1;
      TotalsInOrder(ds[..n], maxRetries, event, kind);
      assert DeliveryOk(ds[n], maxRetries);
    }
  }

  lemma {:induction false} CommitsBounded(ds: seq<Delivery>, maxRetries: nat, event: string)
    requires forall d :: 0 <= d < |ds| ==> DeliveryOk(ds[d], maxRetries)
    ensures TotalOver(ds, event, 0) <= maxRetries * Unmarked(ds, event)
  {
    if ds != [] {
      var n := |ds| - 1;
      CommitsBounded(ds[..n], maxRetries, event);
      assert DeliveryOk(ds[n], maxRetries);
      var u := Unmarked(ds[..n], event);
      assert maxRetries * (u + 1) == maxRetries * u + maxRetries;
    }
  }

  /** The side-effect chain: in every reachable state no effect of an event happened more often than the one
      before it in the pipeline, and there were at most max_retries co-click commits per unmarked delivery. */
  lemma EffectChainAndDriftBound(maxRetries: nat, catalog: set<string>, steps: seq<Step>, event: string, kind: nat)
    requires Run(Init(maxRetries, catalog), steps).Some?
    ensures var s := Run(Init(maxRetries, catalog), steps).value;
            && (kind + 1 < EFFECTS ==> Happened(s.effects, event, kind) >= Happened(s.effects, event, kind + 1))
            && Happened(s.effects, event, 0) <= maxRetries * Unmarked(s.deliveries, event)
  {
    var s0 := Init(maxRetries, catalog);
    RunKeepsInv(s0, steps);
    RunKeepsBalance(s0, steps);
    var ds := Run(s0, steps).value.deliveries;
    if kind + 1 < EFFECTS {
      TotalsInOrder(ds, maxRetries, event, kind);
    }
    CommitsBounded(ds, maxRetries, event);
  }

  lemma {:induction false} SettledHappened(ds: seq<Delivery>, d: nat, event: string, kind: nat)
    requires d < |ds| && Settles(ds[d], event) && ds[d].known && kind < EFFECTS
    ensures TotalOver(ds, event, kind) >= 1
  {
    var n := |ds| - 1;
    if d < n {
      SettledHappened(ds[..n], d, event, kind);
    }
  }

  /** A set marker means that every effect of its event happened, unless the item was found unknown. */
  lemma MarkerMeansEnriched(maxRetries: nat, catalog: set<string>, steps: seq<Step>, event: string)
    requires Run(Init(maxRetries, catalog), steps).Some?
    requires event in Run(Init(maxRetries, catalog), steps).value.markers
    ensures var s := Run(Init(maxRetries, catalog), steps).value;
            || (forall kind: nat :: kind < EFFECTS ==> Happened(s.effects, event, kind) >= 1)
            || exists d :: 0 <= d < |s.deliveries| && s.deliveries[d].event == event && !s.deliveries[d].known
  {
    var s0 := Init(maxRetries, catalog);
    RunKeepsInv(s0, steps);
    RunKeepsBalance(s0, steps);
    var s := Run(s0, steps).value;
    var d :| 0 <= d < |s.deliveries| && Settles(s.deliveries[d], event);
    if s.deliveries[d].known {
      forall kind: nat | kind < EFFECTS
        ensures Happened(s.effects, event, kind) >= 1
      {
        SettledHappened(s.deliveries, d, event, kind);
      }
    }
  }

  // ---------------------------------------------------------------- exactly once

  predicate AttemptsEvent(s: State, w: nat, event: string) {
    Attempting(s, w) && Current(s, w).event == event
  }

  predicate Live(s: State, event: string, d: nat) {
    d < |s.deliveries| && s.deliveries[d].event == event && s.deliveries[d].status.Running?
  }

  /** A step that is smooth for `event`: nothing fails, expires, crashes or is lost after its first commit,
      and no delivery of it starts while another is running or its marker is set. */
  ghost predicate Smooth(s: State, step: Step, event: string) {
    match step
    case Fault(w, applied) => AttemptsEvent(s, w, event) ==> !applied && Current(s, w).status.applied == 0
    case Crash(w) => AttemptsEvent(s, w, event) ==> Current(s, w).status.applied == 0
    case Mark(w, stored) => AttemptsEvent(s, w, event) ==> stored
    case MarkerExpires(e) => e != event
    case TakeFresh(w, _) =>
      AtRecord(s, w) && Record(s, w).Some? && Record(s, w).value.event == event ==>
        event !in s.markers && forall d: nat :: !Live(s, event, d)
    case _ => true
  }

  ghost predicate SmoothRun(s: State, steps: seq<Step>, event: string)
    decreases |steps|
  {
    steps != [] && Enabled(s, steps[0]) ==>
      Smooth(s, steps[0], event) && SmoothRun(Do(s, steps[0]), steps[1..], event)
  }

  /** A running delivery of the event whose current attempt is past the commit. */
  predicate PastCommit(s: State, event: string, d: nat) {
    Live(s, event, d) && s.deliveries[d].status.applied > 0
  }

  /** At most one commit so far; if there was one, its delivery is still running past it, or left the marker. */
  ghost predicate AtMostOnce(s: State, event: string) {
    var commits := TotalOver(s.deliveries, event, 0);
    && (forall d: nat, d': nat :: Live(s, event, d) && Live(s, event, d') ==> d == d')
    && (event in s.markers ==> forall d: nat :: !Live(s, event, d))
    && commits <= 1
    && (commits == 1 ==> event in s.markers || exists d: nat :: PastCommit(s, event, d))
    && (forall d: nat :: PastCommit(s, event, d) ==> commits == 1)
  }

  lemma SmoothStep(s: State, step: Step, event: string)
    requires Inv(s) && Enabled(s, step) && Smooth(s, step, event) && AtMostOnce(s, event)
    ensures AtMostOnce(Do(s, step), event)
  {
    match step
    case Apply(_) =>
      SmoothAttempt(s, step, event);
    case Mark(_, _) =>
      SmoothAttempt(s, step, event);
    case Fault(w, applied) =>
      SmoothFault(s, w, applied, event);
    case Crash(w) =>
      SmoothCrash(s, w, event);
    case TakeFresh(w, _) =>
      SmoothStart(s, Do(s, step), event);
    case _ =>
      SameDeliveries(s, Do(s, step), event);
  }

  lemma SmoothAttempt(s: State, step: Step, event: string)
    requires Inv(s) && Enabled(s, step) && Smooth(s, step, event) && AtMostOnce(s, event)
    requires step.Apply? || step.Mark?
    ensures AtMostOnce(Do(s, step), event)
  {
    var i := s.workers[step.w].phase.d;
    assert DeliveryOk(s.deliveries[i], s.maxRetries);
    assert AttemptsEvent(s, step.w, event) ==> Live(s, event, i);
    SmoothUpdate(s, Do(s, step), i, event);
  }

  lemma SmoothCrash(s: State, w: nat, event: string)
    requires Inv(s) && Enabled(s, Crash(w)) && Smooth(s, Crash(w), event) && AtMostOnce(s, event)
    ensures AtMostOnce(Do(s, Crash(w)), event)
  {
    var t := Do(s, Crash(w));
    if Attempting(s, w) {
      assert AttemptsEvent(s, w, event) ==> Live(s, event, s.workers[w].phase.d);
      SmoothUpdate(s, t, s.workers[w].phase.d, event);
    } else {
      SameDeliveries(s, t, event);
    }
  }

  lemma SmoothFault(s: State, w: nat, applied: bool, event: string)
    requires Inv(s) && Enabled(s, Fault(w, applied)) && Smooth(s, Fault(w, applied), event) && AtMostOnce(s, event)
    ensures AtMostOnce(Do(s, Fault(w, applied)), event)
  {
    var t := Do(s, Fault(w, applied));
    var i := s.workers[w].phase.d;
    if applied {
      var u := ApplyNext(s, w);
      SmoothUpdate(s, u, i, event);
      SmoothUpdate(u, t, i, event);
    } else {
      assert AttemptsEvent(s, w, event) ==> Live(s, event, i);
      SmoothUpdate(s, t, i, event);
    }
  }

  lemma SameDeliveries(s: State, t: State, event: string)
    requires AtMostOnce(s, event) && t.deliveries == s.deliveries && (event in t.markers <==> event in s.markers)
    ensures AtMostOnce(t, event)
  {
    assert forall d: nat :: Live(t, event, d) <==> Live(s, event, d);
    assert forall d: nat :: PastCommit(t, event, d) <==> PastCommit(s, event, d);
  }

  lemma SmoothStart(s: State, t: State, event: string)
    requires AtMostOnce(s, event) && t.markers == s.markers && |t.deliveries| == |s.deliveries| + 1
    requires t.deliveries[..|s.deliveries|] == s.deliveries
    requires var b := t.deliveries[|s.deliveries|];
             && |b.counts| == EFFECTS && b.counts[0] == 0 && (b.status.Running? ==> b.status.applied == 0)
             && (b.event == event ==> event !in s.markers && forall d: nat :: !Live(s, event, d))
    ensures AtMostOnce(t, event)
  {
    var n := |s.deliveries|;
    forall d: nat | d < n
      ensures t.deliveries[d] == s.deliveries[d]
    {
      assert t.deliveries[d] == t.deliveries[..n][d];
    }
    assert forall d: nat :: d < n ==> (Live(t, event, d) <==> Live(s, event, d));
    forall d: nat
      ensures PastCommit(t, event, d) <==> PastCommit(s, event, d)
    {
      assert Live(t, event, d) && d != n ==> Live(s, event, d);
    }
    assert t.deliveries[..|t.deliveries| - 1] == s.deliveries;
  }

  /** One delivery changes: nothing counted and still at the start, or moved past the commit, or marked. */
  lemma SmoothUpdate(s: State, t: State, i: nat, event: string)
    requires i < |s.deliveries| && |t.deliveries| == |s.deliveries|
             && t.deliveries == s.deliveries[i := t.deliveries[i]]
    requires t.deliveries[i].event == s.deliveries[i].event && s.deliveries[i].status.Running?
    requires |s.deliveries[i].counts| == |t.deliveries[i].counts| == EFFECTS
    requires AtMostOnce(s, event)
    requires s.deliveries[i].event != event ==> (event in t.markers <==> event in s.markers)
    requires s.deliveries[i].event == event ==>
      var a, b := s.deliveries[i], t.deliveries[i];
      || (event !in t.markers && b.counts == a.counts && a.status.applied == 0
          && (b.status.Running? ==> b.status.applied == 0))
      || (event !in t.markers && b.status.Running? && b.status.applied > 0
          && b.counts[0] == a.counts[0] + if a.status.applied == 0 then 1 else 0)
      || (event in t.markers && b.counts == a.counts && !b.status.Running?)
    ensures AtMostOnce(t, event)
  {
    TotalAfterUpdate(s.deliveries, i, t.deliveries[i], event, 0);
    forall d: nat | d != i
      ensures Live(t, event, d) <==> Live(s, event, d)
      ensures PastCommit(t, event, d) <==> PastCommit(s, event, d)
    {
      assert d < |s.deliveries| ==> t.deliveries[d] == s.deliveries[d];
    }
    if s.deliveries[i].event == event {
      assert Live(s, event, i);
      assert PastCommit(s, event, i) <==> s.deliveries[i].status.applied > 0;
      assert forall d: nat :: Live(t, event, d) ==> d == i;
      assert forall d: nat :: PastCommit(s, event, d) ==> d == i;
      assert PastCommit(t, event, i) <==> t.deliveries[i].status.Running? && t.deliveries[i].status.applied > 0;
    } else {
      assert !Live(t, event, i) && !Live(s, event, i);
      assert forall d: nat :: PastCommit(t, event, d) <==> PastCommit(s, event, d);
    }
  }

  lemma {:induction false} SmoothRunAtMostOnce(s: State, steps: seq<Step>, event: string)
    requires Inv(s) && AtMostOnce(s, event) && Run(s, steps).Some? && SmoothRun(s, steps, event)
    ensures AtMostOnce(Run(s, steps).value, event)
    decreases |steps|
  {
    if steps != [] {
      SmoothStep(s, steps[0], event);
      StepKeepsInv(s, steps[0]);
      SmoothRunAtMostOnce(Do(s, steps[0]), steps[1..], event);
    }
  }

  lemma {:induction false} TotalsBelowFirst(ds: seq<Delivery>, maxRetries: nat, event: string, kind: nat)
    requires forall d :: 0 <= d < |ds| ==> DeliveryOk(ds[d], maxRetries)
    requires kind < EFFECTS
    ensures TotalOver(ds, event, kind) <= TotalOver(ds, event, 0)
  {
    if kind > 0 {
      TotalsInOrder(ds, maxRetries, event, kind - 1);
      TotalsBelowFirst(ds, maxRetries, event, kind - 1);
    }
  }

  /** In a run that is smooth for an event, every side effect of it happens at most once, and exactly once
      when its marker is set and its item was known. */
  lemma ExactlyOnceWhenSmooth(maxRetries: nat, catalog: set<string>, steps: seq<Step>, event: string, kind: nat)
    requires Run(Init(maxRetries, catalog), steps).Some?
    requires SmoothRun(Init(maxRetries, catalog), steps, event)
    requires kind < EFFECTS
    ensures var s := Run(Init(maxRetries, catalog), steps).value;
            && Happened(s.effects, event, kind) <= 1
            && (event in s.markers &&
                (forall d :: 0 <= d < |s.deliveries| && s.deliveries[d].event == event ==> s.deliveries[d].known)
                ==> Happened(s.effects, event, kind) == 1)
  {
    var s0 := Init(maxRetries, catalog);
    RunKeepsInv(s0, steps);
    RunKeepsBalance(s0, steps);
    SmoothRunAtMostOnce(s0, steps, event);
    var s := Run(s0, steps).value;
    TotalsBelowFirst(s.deliveries, maxRetries, event, kind);
    if event in s.markers {
      MarkerMeansEnriched(maxRetries, catalog, steps, event);
    }
  }

  /** Smoothness must rule out overlapping deliveries: two workers on one partition, as after a rebalance,
      commit the same event twice without any fault at all. */
  lemma OverlapCommitsTwice()
    ensures var steps := [Append(Some(Click("e", "u", "i"))), Poll(1, 1), Poll(2, 1)]
                         + ([TakeFresh(1, false), TakeFresh(2, false)] + [Apply(1), Apply(2)]);
            && Run(Init(3, {"i"}), steps).Some?
            && Happened(Run(Init(3, {"i"}), steps).value.effects, "e", 0) == 2
  {
    OverlapPolls();
    OverlapStarts();
    OverlapCommits();
    var poll, start, commit := [Append(Some(Click("e", "u", "i"))), Poll(1, 1), Poll(2, 1)],
                               [TakeFresh(1, false), TakeFresh(2, false)], [Apply(1), Apply(2)];
    RunThrough(BothPolled(), start, BothStarted(), commit);
    RunThrough(Init(3, {"i"}), poll, BothPolled(), start + commit);
  }

  lemma RunThrough(s: State, a: seq<Step>, t: State, b: seq<Step>)
    requires Run(s, a) == Some(t)
    ensures Run(s, a + b) == Run(t, b)
  {
    RunAppend(s, a, b);
  }

  /** Two workers that both fetched the only record. */
  function BothPolled(): State {
    State(3, {"i"}, [Some(Click("e", "u", "i"))], 0, {}, [], [], [],
          map[1 := Worker(0, 1, 0, Ready), 2 := Worker(0, 1, 0, Ready)])
  }

  /** A first attempt at the record that has not applied anything yet. */
  function Attempt(w: nat): Delivery {
    Delivery(w, 0, "e", true, 1, Running(0), [0, 0, 0, 0, 0, 0])
  }

  /** Both workers found no marker and are in their first attempt. */
  function BothStarted(): State {
    BothPolled().(deliveries := [Attempt(1), Attempt(2)],
                  workers := map[1 := Worker(0, 1, 0, Busy(0)), 2 := Worker(0, 1, 0, Busy(1))])
  }

  lemma OverlapPolls()
    ensures Run(Init(3, {"i"}), [Append(Some(Click("e", "u", "i"))), Poll(1, 1), Poll(2, 1)]) == Some(BothPolled())
  {
    var a, b, c := Append(Some(Click("e", "u", "i"))), Poll(1, 1), Poll(2, 1);
    var s0 := Init(3, {"i"});
    var s1 := s0.(log := [Some(Click("e", "u", "i"))]);
    var s2 := s1.(workers := map[1 := Worker(0, 1, 0, Ready)]);
    assert Do(s0, a) == s1;
    assert Do(s1, b) == s2;
    assert Do(s2, c) == BothPolled();
    RunTwo(s1, b, c);
    RunFirst(s0, [a, b, c]);
  }

  lemma OverlapStarts()
    ensures Run(BothPolled(), [TakeFresh(1, false), TakeFresh(2, false)]) == Some(BothStarted())
  {
    var s3 := BothPolled();
    var s4 := s3.(deliveries := [Attempt(1)], workers := s3.workers[1 := Worker(0, 1, 0, Busy(0))]);
    var none: seq<nat> := seq(EFFECTS, _ => 0);
    assert none == [0, 0, 0, 0, 0, 0];
    assert Do(s3, TakeFresh(1, false)).deliveries == [Attempt(1)];
    assert Do(s3, TakeFresh(1, false)) == s4;
    assert Do(s4, TakeFresh(2, false)).deliveries == [Attempt(1)] + [Attempt(2)];
    assert Do(s4, TakeFresh(2, false)).workers == BothStarted().workers;
    assert Do(s4, TakeFresh(2, false)) == BothStarted();
    RunTwo(s3, TakeFresh(1, false), TakeFresh(2, false));
  }

  lemma OverlapCommits()
    ensures Run(BothStarted(), [Apply(1), Apply(2)]).Some?
    ensures Happened(Run(BothStarted(), [Apply(1), Apply(2)]).value.effects, "e", 0) == 2
  {
    var s5 := BothStarted();
    var s6 := Do(s5, Apply(1));
    var one := [Effect("e", 0)];
    assert s6.effects == one;
    var s7 := Do(s6, Apply(2));
    assert s7.effects == one + one && (one + one)[..1] == one && one[..0] == [];
    assert Happened(one, "e", 0) == 1;
    RunTwo(s5, Apply(1), Apply(2));
  }

  lemma RunTwo(s: State, a: Step, b: Step)
    requires Enabled(s, a) && Enabled(Do(s, a), b)
    ensures Run(s, [a, b]) == Some(Do(Do(s, a), b))
  {
    RunFirst(Do(s, a), [b]);
    RunFirst(s, [a, b]);
  }

  lemma RunFirst(s: State, steps: seq<Step>)
    requires steps != [] && Enabled(s, steps[0])
    ensures Run(s, steps) == Run(Do(s, steps[0]), steps[1..])
  {
  }

  lemma {:induction false} RunAppend(s: State, a: seq<Step>, b: seq<Step>)
    requires Run(s, a).Some?
    ensures Run(s, a + b) == Run(Run(s, a).value, b)
    decreases |a|
  {
    if a == [] {
      assert a + b == b;
    } else {
      assert (a + b)[0] == a[0] && (a + b)[1..] == a[1..] + b;
      RunAppend(Do(s, a[0]), a[1..], b);
    }
  }
}
