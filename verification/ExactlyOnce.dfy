/** When the enrichment consumer handles an event exactly once: without faults, precisely when no two
    deliveries of it overlap. Rebalances without a listener (src/click_rec/kafka/consumer.py) allow overlaps. */
module ExactlyOnce {
  import opened Lists
  import opened Consumer

  /** Worker w is about to start on a record of the event. */
  predicate Starts(s: State, w: nat, event: string) {
    AtRecord(s, w) && Record(s, w).Some? && Record(s, w).value.event == event
  }

  /** Nothing fails for the event: no exception or crash in its pipeline, and its marker is read, stored and kept. */
  predicate Faultless(s: State, step: Step, event: string) {
    match step
    case Fault(w, _) => !AttemptsEvent(s, w, event)
    case Crash(w) => !AttemptsEvent(s, w, event)
    case Mark(w, stored) => AttemptsEvent(s, w, event) ==> stored
    case MarkerExpires(e) => e != event
    case TakeFresh(w, readError) => Starts(s, w, event) ==> !readError
    case _ => true
  }

  ghost predicate FaultlessRun(s: State, steps: seq<Step>, event: string)
    decreases |steps|
  {
    steps != [] && Enabled(s, steps[0]) ==>
      Faultless(s, steps[0], event) && FaultlessRun(Do(s, steps[0]), steps[1..], event)
  }

  /** A delivery of the event starts while another one is running. */
  ghost predicate Overlaps(s: State, step: Step, event: string) {
    step.TakeFresh? && Starts(s, step.w, event) && exists d: nat :: Live(s, event, d)
  }

  ghost predicate OverlapFree(s: State, steps: seq<Step>, event: string)
    decreases |steps|
  {
    steps != [] && Enabled(s, steps[0]) ==>
      !Overlaps(s, steps[0], event) && OverlapFree(Do(s, steps[0]), steps[1..], event)
  }

  lemma {:induction false} OverlapFreeIsSmooth(s: State, steps: seq<Step>, event: string)
    requires FaultlessRun(s, steps, event) && OverlapFree(s, steps, event)
    ensures SmoothRun(s, steps, event)
    decreases |steps|
  {
    if steps != [] && Enabled(s, steps[0]) {
      OverlapFreeIsSmooth(Do(s, steps[0]), steps[1..], event);
    }
  }

  // ---------------------------------------------------------------- one effect of each kind per delivery

  /** A delivery without faults: the effects applied so far happened once each. */
  predicate Clean(d: Delivery) {
    && |d.counts| == EFFECTS
    && match d.status
       case Running(k) => forall j :: 0 <= j < EFFECTS ==> d.counts[j] == if j < k then 1 else 0
       case Completed => forall j :: 0 <= j < EFFECTS ==> d.counts[j] == if d.known then 1 else 0
       case _ => false
  }

  ghost predicate AllClean(s: State, event: string) {
    forall d :: 0 <= d < |s.deliveries| && s.deliveries[d].event == event ==> Clean(s.deliveries[d])
  }

  lemma StepKeepsClean(s: State, step: Step, event: string)
    requires AllClean(s, event) && s.maxRetries > 0 && Enabled(s, step) && Faultless(s, step, event)
    ensures AllClean(Do(s, step), event) && Do(s, step).maxRetries == s.maxRetries
  {
    match step
    case Apply(w) =>
      assert AttemptsEvent(s, w, event) ==> Clean(Current(s, w));
    case Mark(w, _) =>
      assert AttemptsEvent(s, w, event) ==> Clean(Current(s, w));
    case Fault(w, applied) =>
      FaultKeepsClean(s, w, applied, event);
    case _ =>
  }

  lemma FaultKeepsClean(s: State, w: nat, applied: bool, event: string)
    requires AllClean(s, event) && Enabled(s, Fault(w, applied)) && !AttemptsEvent(s, w, event)
    ensures var t := Do(s, Fault(w, applied)); AllClean(t, event) && t.maxRetries == s.maxRetries
  {
    var t, i := Do(s, Fault(w, applied)), s.workers[w].phase.d;
    assert t.deliveries == s.deliveries[i := t.deliveries[i]] && t.deliveries[i].event == s.deliveries[i].event;
  }

  lemma {:induction false} RunKeepsClean(s: State, steps: seq<Step>, event: string)
    requires AllClean(s, event) && s.maxRetries > 0 && Run(s, steps).Some? && FaultlessRun(s, steps, event)
    ensures AllClean(Run(s, steps).value, event)
    decreases |steps|
  {
    if steps != [] {
      StepKeepsClean(s, steps[0], event);
      RunKeepsClean(Do(s, steps[0]), steps[1..], event);
    }
  }

  /** Finished clean deliveries contribute one effect of each kind each. */
  lemma {:induction false} OneEffectEach(ds: seq<Delivery>, event: string, kind: nat)
    requires forall d :: 0 <= d < |ds| && ds[d].event == event ==>
               Clean(ds[d]) && ds[d].known && ds[d].status.Completed?
    requires kind < EFFECTS
    ensures TotalOver(ds, event, kind) == Unmarked(ds, event)
  {
    if ds != [] {
      OneEffectEach(ds[..|ds| - 1], event, kind);
    }
  }

  // ---------------------------------------------------------------- counting deliveries

  lemma {:induction false} UnmarkedGrows(a: seq<Delivery>, b: seq<Delivery>, event: string)
    requires |a| <= |b| && forall i :: 0 <= i < |a| ==> a[i].event == b[i].event
    ensures Unmarked(a, event) <= Unmarked(b, event)
  {
    if b != [] {
      var init := b[..|b| - 1];
      if |a| == |b| {
        UnmarkedGrows(a[..|a| - 1], init, event);
      } else {
        UnmarkedGrows(a, init, event);
      }
    }
  }

  lemma {:induction false} OneIsCounted(ds: seq<Delivery>, d: nat, event: string)
    requires d < |ds| && ds[d].event == event
    ensures Unmarked(ds, event) >= 1
  {
    if d < |ds| - 1 {
      OneIsCounted(ds[..|ds| - 1], d, event);
    }
  }

  lemma {:induction false} NeverFewer(s: State, steps: seq<Step>, event: string)
    requires Inv(s) && Run(s, steps).Some?
    ensures Unmarked(s.deliveries, event) <= Unmarked(Run(s, steps).value.deliveries, event)
    decreases |steps|
  {
    if steps != [] {
      var t := Do(s, steps[0]);
      DoGrows(s, steps[0]);
      forall i | 0 <= i < |s.deliveries|
        ensures s.deliveries[i].event == t.deliveries[i].event
      {
        assert DeliveryGrows(s.deliveries[i], t.deliveries[i]);
      }
      UnmarkedGrows(s.deliveries, t.deliveries, event);
      StepKeepsInv(s, steps[0]);
      NeverFewer(t, steps[1..], event);
    }
  }

  /** An overlap leaves at least two deliveries behind. */
  lemma {:induction false} OverlapMakesTwo(s: State, steps: seq<Step>, event: string)
    requires Inv(s) && Run(s, steps).Some? && !OverlapFree(s, steps, event)
    ensures Unmarked(Run(s, steps).value.deliveries, event) >= 2
    decreases |steps|
  {
    var t := Do(s, steps[0]);
    StepKeepsInv(s, steps[0]);
    if Overlaps(s, steps[0], event) {
      var d: nat :| Live(s, event, d);
      OneIsCounted(s.deliveries, d, event);
      assert t.deliveries[..|t.deliveries| - 1] == s.deliveries;
      NeverFewer(t, steps[1..], event);
    } else {
      OverlapMakesTwo(t, steps[1..], event);
    }
  }

  // ---------------------------------------------------------------- the theorem

  /** The event was delivered, its item was always known, and no delivery of it is still running. */
  ghost predicate Finished(s: State, event: string) {
    && (exists d :: 0 <= d < |s.deliveries| && s.deliveries[d].event == event)
    && (forall d :: 0 <= d < |s.deliveries| && s.deliveries[d].event == event ==> s.deliveries[d].known)
    && (forall d: nat :: !Live(s, event, d))
  }

  /** Without faults every delivery leaves exactly one effect of each kind. */
  lemma EffectsCountDeliveries(maxRetries: nat, catalog: set<string>, steps: seq<Step>, event: string, kind: nat)
    requires maxRetries > 0 && kind < EFFECTS
    requires Run(Init(maxRetries, catalog), steps).Some? && FaultlessRun(Init(maxRetries, catalog), steps, event)
    requires Finished(Run(Init(maxRetries, catalog), steps).value, event)
    ensures var s := Run(Init(maxRetries, catalog), steps).value;
            Happened(s.effects, event, kind) == Unmarked(s.deliveries, event) >= 1
  {
    var s0 := Init(maxRetries, catalog);
    RunKeepsBalance(s0, steps);
    RunKeepsClean(s0, steps, event);
    var s := Run(s0, steps).value;
    forall d | 0 <= d < |s.deliveries| && s.deliveries[d].event == event
      ensures s.deliveries[d].status.Completed?
    {
      assert Clean(s.deliveries[d]) && !Live(s, event, d);
    }
    OneEffectEach(s.deliveries, event, kind);
    var d :| 0 <= d < |s.deliveries| && s.deliveries[d].event == event;
    OneIsCounted(s.deliveries, d, event);
  }

  /** Exactly once: in a run in which nothing fails for the event, and which finishes it, each of its side
      effects happens exactly once if and only if no two of its deliveries overlap. */
  lemma ExactlyOnceIff(maxRetries: nat, catalog: set<string>, steps: seq<Step>, event: string, kind: nat)
    requires maxRetries > 0 && kind < EFFECTS
    requires Run(Init(maxRetries, catalog), steps).Some? && FaultlessRun(Init(maxRetries, catalog), steps, event)
    requires Finished(Run(Init(maxRetries, catalog), steps).value, event)
    ensures Happened(Run(Init(maxRetries, catalog), steps).value.effects, event, kind) == 1
            <==> OverlapFree(Init(maxRetries, catalog), steps, event)
  {
    var s0 := Init(maxRetries, catalog);
    EffectsCountDeliveries(maxRetries, catalog, steps, event, kind);
    if OverlapFree(s0, steps, event) {
      OverlapFreeIsSmooth(s0, steps, event);
      ExactlyOnceWhenSmooth(maxRetries, catalog, steps, event, kind);
    } else {
      OverlapMakesTwo(s0, steps, event);
    }
  }
}
