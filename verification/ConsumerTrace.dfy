/** The steps one worker takes (src/click_rec/kafka/consumer.py, src/click_rec/kafka/enrichment.py) among those of
    all others: what a record makes the worker do, given what befalls its calls and whether its marker is found. */
module ConsumerTrace {
  import opened Lists
  import opened Consumer

  /** The steps of worker w in a run. */
  function Own(steps: seq<Step>, w: nat): seq<Step>
    decreases |steps|
  {
    if steps == [] then []
    else OwnHead(steps[0], w) + Own(steps[1..], w)
  }

  function OwnHead(step: Step, w: nat): seq<Step> {
    if Actor(step) == Some(w) then [step] else []
  }

  lemma Associative(a: seq<Step>, b: seq<Step>, c: seq<Step>)
    ensures a + (b + c) == a + b + c
  {
  }

  /** t comes from s by a run in which worker w takes exactly the steps `own`, and others any. */
  ghost predicate Follows(s: State, t: State, w: nat, own: seq<Step>) {
    exists steps :: Run(s, steps) == Some(t) && Own(steps, w) == own
  }

  lemma {:induction false} OwnAppend(a: seq<Step>, b: seq<Step>, w: nat)
    ensures Own(a + b, w) == Own(a, w) + Own(b, w)
    decreases |a|
  {
    if a == [] {
      assert a + b == b;
    } else {
      assert (a + b)[0] == a[0] && (a + b)[1..] == a[1..] + b;
      OwnAppend(a[1..], b, w);
      Associative(OwnHead(a[0], w), Own(a[1..], w), Own(b, w));
    }
  }

  lemma {:induction false} OwnNone(steps: seq<Step>, w: nat)
    requires Own(steps, w) == []
    ensures forall i :: 0 <= i < |steps| ==> Actor(steps[i]) != Some(w)
    decreases |steps|
  {
    if steps != [] {
      OwnNone(steps[1..], w);
      assert Own(steps, w) == OwnHead(steps[0], w) + Own(steps[1..], w);
      var rest := steps[1..];
      assert forall i :: 1 <= i < |steps| ==> steps[i] == rest[i - 1];
    }
  }

  lemma FollowsSelf(s: State, w: nat)
    ensures Follows(s, s, w, [])
  {
    assert Run(s, []) == Some(s) && Own([], w) == [];
  }

  lemma FollowsThen(s: State, t: State, u: State, w: nat, a: seq<Step>, b: seq<Step>)
    requires Follows(s, t, w, a) && Follows(t, u, w, b)
    ensures Follows(s, u, w, a + b)
  {
    var x :| Run(s, x) == Some(t) && Own(x, w) == a;
    var y :| Run(t, y) == Some(u) && Own(y, w) == b;
    RunAppend(s, x, y);
    OwnAppend(x, y, w);
    assert Run(s, x + y) == Some(u);
  }

  lemma FollowsStep(s: State, w: nat, step: Step)
    requires Enabled(s, step) && Actor(step) == Some(w)
    ensures Follows(s, Do(s, step), w, [step])
  {
    assert [step][1..] == [];
    assert Run(s, [step]) == Run(Do(s, step), []);
    assert Own([step], w) == [step] + Own([], w);
  }

  /** Others first, then one step of ours. */
  lemma FollowsOthersThenStep(s: State, t: State, w: nat, step: Step)
    requires Follows(s, t, w, []) && Enabled(t, step) && Actor(step) == Some(w)
    ensures Follows(s, Do(t, step), w, [step])
  {
    FollowsStep(t, w, step);
    FollowsThen(s, t, Do(t, step), w, [], [step]);
    assert [] + [step] == [step];
  }

  lemma FollowsReaches(s: State, t: State, w: nat, own: seq<Step>)
    requires Follows(s, t, w, own)
    ensures Reaches(s, t)
  {
    var steps :| Run(s, steps) == Some(t) && Own(steps, w) == own;
  }

  lemma FollowsGrows(s: State, t: State, w: nat, own: seq<Step>)
    requires Inv(s) && Follows(s, t, w, own)
    ensures Grows(s, t)
  {
    var steps :| Run(s, steps) == Some(t) && Own(steps, w) == own;
    RunKeepsInv(s, steps);
  }

  // ---------------------------------------------------------------- deliveries begun by one worker

  /** How many deliveries worker w has begun. */
  function Begun(deliveries: seq<Delivery>, w: nat): nat {
    if deliveries == [] then 0
    else Begun(deliveries[..|deliveries| - 1], w) + if deliveries[|deliveries| - 1].worker == w then 1 else 0
  }

  function Fresh(own: seq<Step>): nat {
    if own == [] then 0 else (if own[0].TakeFresh? then 1 else 0) + Fresh(own[1..])
  }

  lemma {:induction false} SameBegun(a: seq<Delivery>, b: seq<Delivery>, w: nat)
    requires |a| == |b| && forall i :: 0 <= i < |a| ==> a[i].worker == b[i].worker
    ensures Begun(a, w) == Begun(b, w)
  {
    if a != [] {
      SameBegun(a[..|a| - 1], b[..|b| - 1], w);
    }
  }

  lemma StepBegins(s: State, step: Step, w: nat)
    requires Inv(s) && Enabled(s, step)
    ensures Begun(Do(s, step).deliveries, w) ==
            Begun(s.deliveries, w) + if step == TakeFresh(w, true) || step == TakeFresh(w, false) then 1 else 0
  {
    var t := Do(s, step);
    if step.TakeFresh? {
      assert t.deliveries[..|t.deliveries| - 1] == s.deliveries;
    } else {
      DoGrows(s, step);
      forall i | 0 <= i < |s.deliveries|
        ensures s.deliveries[i].worker == t.deliveries[i].worker
      {
        assert DeliveryGrows(s.deliveries[i], t.deliveries[i]);
      }
      SameBegun(s.deliveries, t.deliveries, w);
    }
  }

  lemma {:induction false} RunBegins(s: State, steps: seq<Step>, w: nat)
    requires Inv(s) && Run(s, steps).Some?
    ensures Begun(Run(s, steps).value.deliveries, w) == Begun(s.deliveries, w) + Fresh(Own(steps, w))
    decreases |steps|
  {
    if steps != [] {
      StepBegins(s, steps[0], w);
      StepKeepsInv(s, steps[0]);
      RunBegins(Do(s, steps[0]), steps[1..], w);
      if Actor(steps[0]) == Some(w) {
        assert Own(steps, w)[0] == steps[0] && Own(steps, w)[1..] == Own(steps[1..], w);
      } else {
        assert Own(steps, w) == Own(steps[1..], w);
      }
    }
  }

  /** Worker w begins one delivery for each TakeFresh among its steps. */
  lemma FollowsBegins(s: State, t: State, w: nat, own: seq<Step>)
    requires Inv(s) && Follows(s, t, w, own)
    ensures Begun(t.deliveries, w) == Begun(s.deliveries, w) + Fresh(own)
  {
    var steps :| Run(s, steps) == Some(t) && Own(steps, w) == own;
    RunBegins(s, steps, w);
  }

  // ---------------------------------------------------------------- what a record makes the worker do

  /** How one awaited call ends; one that raises may have taken effect. */
  datatype Call = Fine | Raises(applied: bool)

  /** How a publish to the DLQ ends. */
  datatype Send = Acked | NotAcked(stored: bool)

  /** What befalls one record: the marker read errs; how the calls of each attempt end (0 resolves the item,
      1 reads the session, 2 to 7 are the effects, 8 closes the session); whether the marker write lands; how
      the DLQ publish ends. */
  datatype Faults = Faults(readErrs: bool, calls: (nat, nat) -> Call, marked: bool, send: Send)

  /** No call of the attempt raises. */
  predicate Succeeds(f: Faults, attempt: nat, known: bool) {
    AllFine(f, attempt, known, 0, 9)
  }

  function CallStep(w: nat, call: Call): Step {
    if call.Fine? then Apply(w) else Fault(w, call.applied)
  }

  /** Which calls an attempt makes: all nine for a known item, the first and the last for an unknown one. */
  predicate Makes(known: bool, k: nat) {
    known || k < 1 || k > 7
  }

  /** What call k of an attempt makes the worker do. A call that changes nothing shows only when it raises. */
  function CallSteps(w: nat, f: Faults, attempt: nat, known: bool, k: nat): seq<Step> {
    var call := f.calls(attempt, k);
    if !Makes(known, k) then []
    else if k < 2 then (if call.Fine? then [] else [Fault(w, false)])
    else if k < 8 then [CallStep(w, call)]
    else [if call.Fine? then Mark(w, f.marked) else Fault(w, false)]
  }

  /** None of the calls from `from` up to `end` that the attempt makes raises. */
  predicate AllFine(f: Faults, attempt: nat, known: bool, from: nat, end: nat) {
    forall k :: from <= k < end && Makes(known, k) ==> f.calls(attempt, k).Fine?
  }

  /** The calls from `from` up to `end`, in order, until one raises. */
  function CallsFrom(w: nat, f: Faults, attempt: nat, known: bool, from: nat, end: nat): seq<Step>
    decreases end - from
  {
    if from >= end then []
    else
      CallSteps(w, f, attempt, known, from) +
        if Makes(known, from) && f.calls(attempt, from).Raises? then []
        else CallsFrom(w, f, attempt, known, from + 1, end)
  }

  lemma {:induction false} CallsSplit(w: nat, f: Faults, attempt: nat, known: bool, from: nat, mid: nat, end: nat)
    requires from <= mid <= end
    ensures CallsFrom(w, f, attempt, known, from, end) == CallsFrom(w, f, attempt, known, from, mid) +
              if AllFine(f, attempt, known, from, mid) then CallsFrom(w, f, attempt, known, mid, end) else []
    decreases mid - from
  {
    if from < mid {
      var stops := Makes(known, from) && f.calls(attempt, from).Raises?;
      if !stops {
        CallsSplit(w, f, attempt, known, from + 1, mid, end);
        Associative(CallSteps(w, f, attempt, known, from), CallsFrom(w, f, attempt, known, from + 1, mid),
                    if AllFine(f, attempt, known, from, mid) then CallsFrom(w, f, attempt, known, mid, end) else []);
      }
    }
  }

  /** Calls up to `mid` all go well: what follows is added. */
  lemma CallsThen(w: nat, f: Faults, attempt: nat, known: bool, from: nat, mid: nat, end: nat)
    requires from <= mid <= end && AllFine(f, attempt, known, from, mid)
    ensures CallsFrom(w, f, attempt, known, from, end) ==
            CallsFrom(w, f, attempt, known, from, mid) + CallsFrom(w, f, attempt, known, mid, end)
  {
    CallsSplit(w, f, attempt, known, from, mid, end);
  }

  lemma CallsFollow(s: State, t: State, u: State, w: nat, f: Faults, attempt: nat, known: bool,
                    from: nat, mid: nat, end: nat)
    requires from <= mid <= end && AllFine(f, attempt, known, from, mid)
    requires Follows(s, t, w, CallsFrom(w, f, attempt, known, from, mid))
    requires Follows(t, u, w, CallsFrom(w, f, attempt, known, mid, end))
    ensures Follows(s, u, w, CallsFrom(w, f, attempt, known, from, end))
    ensures AllFine(f, attempt, known, from, end) <==> AllFine(f, attempt, known, mid, end)
  {
    CallsThen(w, f, attempt, known, from, mid, end);
    FollowsThen(s, t, u, w, CallsFrom(w, f, attempt, known, from, mid), CallsFrom(w, f, attempt, known, mid, end));
  }

  /** One of the calls up to `mid` raises: nothing follows. */
  lemma CallsStop(w: nat, f: Faults, attempt: nat, known: bool, from: nat, mid: nat, end: nat)
    requires from <= mid <= end && !AllFine(f, attempt, known, from, mid)
    ensures CallsFrom(w, f, attempt, known, from, end) == CallsFrom(w, f, attempt, known, from, mid)
    ensures !AllFine(f, attempt, known, from, end)
  {
    CallsSplit(w, f, attempt, known, from, mid, end);
  }

  lemma OneCall(w: nat, f: Faults, attempt: nat, known: bool, k: nat)
    ensures CallsFrom(w, f, attempt, known, k, k + 1) == CallSteps(w, f, attempt, known, k)
  {
  }

  /** An unknown item ends the attempt behind its lookup. */
  lemma {:induction false} UnknownSkips(w: nat, f: Faults, attempt: nat, k: nat)
    requires 1 <= k <= 8
    ensures CallsFrom(w, f, attempt, false, k, 8) == []
    decreases 8 - k
  {
    if k < 8 {
      UnknownSkips(w, f, attempt, k + 1);
    }
  }

  /** The retry loop from an attempt on: up to the first that succeeds; when all have failed, the DLQ. */
  function LoopSteps(w: nat, f: Faults, known: bool, attempt: nat, maxRetries: nat): seq<Step>
    decreases maxRetries + 1 - attempt
  {
    if attempt > maxRetries then [SendStep(w, f.send)]
    else
      CallsFrom(w, f, attempt, known, 0, 9) +
        if Succeeds(f, attempt, known) then [] else LoopSteps(w, f, known, attempt + 1, maxRetries)
  }

  predicate NeverSucceeds(f: Faults, known: bool, maxRetries: nat) {
    forall a :: 1 <= a <= maxRetries ==> !Succeeds(f, a, known)
  }

  function SendStep(w: nat, send: Send): Step {
    SendDlq(w, send.Acked?, send.Acked? || send.stored)
  }

  /** The marker read finds the event processed. */
  predicate FindsMarker(before: State, c: Click, f: Faults) {
    !f.readErrs && c.event in before.markers
  }

  /** Everything a worker does for one record, `before` being the state in which it looks for the marker. */
  function RecordSteps(w: nat, before: State, entry: Entry, f: Faults): seq<Step> {
    match entry
    case None => [TakePoison(w), SendStep(w, f.send)]
    case Some(c) =>
      if FindsMarker(before, c, f) then [TakeMarked(w)]
      else [TakeFresh(w, f.readErrs)] + LoopSteps(w, f, c.item in before.catalog, 1, before.maxRetries)
  }

  // ---------------------------------------------------------------- begun once per record that is not marked

  lemma {:induction false} FreshAppend(a: seq<Step>, b: seq<Step>)
    ensures Fresh(a + b) == Fresh(a) + Fresh(b)
    decreases |a|
  {
    if a == [] {
      assert a + b == b;
    } else {
      assert (a + b)[0] == a[0] && (a + b)[1..] == a[1..] + b;
      FreshAppend(a[1..], b);
    }
  }

  lemma {:induction false} NoneFresh(own: seq<Step>)
    requires forall i :: 0 <= i < |own| ==> !own[i].TakeFresh?
    ensures Fresh(own) == 0
    decreases |own|
  {
    if own != [] {
      assert forall i :: 0 <= i < |own[1..]| ==> own[1..][i] == own[i + 1];
      NoneFresh(own[1..]);
    }
  }

  lemma {:induction false} CallsNotFresh(w: nat, f: Faults, attempt: nat, known: bool, from: nat, end: nat)
    ensures Fresh(CallsFrom(w, f, attempt, known, from, end)) == 0
    decreases end - from
  {
    if from < end {
      var first := CallSteps(w, f, attempt, known, from);
      NoneFresh(first);
      if Makes(known, from) && f.calls(attempt, from).Raises? {
        assert first + [] == first;
      } else {
        CallsNotFresh(w, f, attempt, known, from + 1, end);
        FreshAppend(first, CallsFrom(w, f, attempt, known, from + 1, end));
      }
    }
  }

  lemma {:induction false} LoopNotFresh(w: nat, f: Faults, known: bool, attempt: nat, maxRetries: nat)
    ensures Fresh(LoopSteps(w, f, known, attempt, maxRetries)) == 0
    decreases maxRetries + 1 - attempt
  {
    if attempt > maxRetries {
      NoneFresh([SendStep(w, f.send)]);
    } else {
      var first := CallsFrom(w, f, attempt, known, 0, 9);
      CallsNotFresh(w, f, attempt, known, 0, 9);
      if !Succeeds(f, attempt, known) {
        LoopNotFresh(w, f, known, attempt + 1, maxRetries);
        FreshAppend(first, LoopSteps(w, f, known, attempt + 1, maxRetries));
      } else {
        FreshAppend(first, []);
      }
    }
  }

  /** A record begins a delivery exactly when it is a click whose marker is not found. */
  lemma RecordBegins(w: nat, before: State, entry: Entry, f: Faults)
    ensures Fresh(RecordSteps(w, before, entry, f)) == Unskipped(entry, before, f)
  {
    if entry.Some? && !FindsMarker(before, entry.value, f) {
      var take, loop := [TakeFresh(w, f.readErrs)],
                        LoopSteps(w, f, entry.value.item in before.catalog, 1, before.maxRetries);
      LoopNotFresh(w, f, entry.value.item in before.catalog, 1, before.maxRetries);
      FreshAppend(take, loop);
      assert take[1..] == [];
    } else {
      NoneFresh(RecordSteps(w, before, entry, f));
    }
  }

  // ---------------------------------------------------------------- several records, one after another

  /** A handled record: what befell it, and the states in which its turn came, its marker was looked for, and it
      was done with. */
  datatype Look = Look(entry: Entry, f: Faults, at: State, before: State, end: State)

  function StepsOf(look: Look, w: nat): seq<Step> {
    RecordSteps(w, look.before, look.entry, look.f)
  }

  /** Between those states the worker takes exactly the steps the record calls for. */
  ghost predicate LookOk(look: Look, w: nat) {
    Follows(look.at, look.before, w, []) && Follows(look.before, look.end, w, StepsOf(look, w))
  }

  ghost predicate AllOk(looks: seq<Look>, w: nat) {
    forall look {:trigger LookOk(look, w)} :: look in looks ==> LookOk(look, w)
  }

  /** The records from offset `start` on. */
  ghost predicate Covers(looks: seq<Look>, log: seq<Entry>, start: nat, fs: nat -> Faults) {
    && start + |looks| <= |log|
    && forall k :: 0 <= k < |looks| ==> looks[k].entry == log[start + k] && looks[k].f == fs(start + k)
  }

  /** One record after another leads from s to t; in between, the worker does nothing. */
  ghost predicate Chained(s: State, looks: seq<Look>, t: State, w: nat) {
    forall k {:trigger Linked(s, looks, t, w, k)} :: 0 <= k <= |looks| ==> Linked(s, looks, t, w, k)
  }

  ghost predicate Linked(s: State, looks: seq<Look>, t: State, w: nat, k: nat)
    requires k <= |looks|
  {
    Follows(if k == 0 then s else looks[k - 1].end, if k == |looks| then t else looks[k].at, w, [])
  }

  lemma ChainStarts(s: State, w: nat)
    ensures Chained(s, [], s, w)
  {
    FollowsSelf(s, w);
  }

  lemma OneMoreLook(s: State, looks: seq<Look>, look: Look, w: nat)
    requires Chained(s, looks, look.at, w)
    ensures Chained(s, looks + [look], look.end, w)
  {
    var next := looks + [look];
    forall k: nat | k <= |next|
      ensures Linked(s, next, look.end, w, k)
    {
      if k < |next| {
        assert Linked(s, looks, look.at, w, k);
      } else {
        FollowsSelf(look.end, w);
      }
    }
  }

  lemma ChainedInit(s: State, looks: seq<Look>, t: State, w: nat)
    requires looks != [] && Chained(s, looks, t, w)
    ensures Chained(s, looks[..|looks| - 1], looks[|looks| - 1].at, w)
    ensures Follows(looks[|looks| - 1].end, t, w, [])
  {
    var init, at := looks[..|looks| - 1], looks[|looks| - 1].at;
    forall k: nat | k <= |init|
      ensures Linked(s, init, at, w, k)
    {
      assert Linked(s, looks, t, w, k);
    }
    assert Linked(s, looks, t, w, |looks|);
  }

  function AllSteps(looks: seq<Look>, w: nat): seq<Step> {
    if looks == [] then [] else AllSteps(looks[..|looks| - 1], w) + StepsOf(looks[|looks| - 1], w)
  }

  function UnskippedOf(looks: seq<Look>): nat {
    if looks == [] then 0
    else
      var look := looks[|looks| - 1];
      UnskippedOf(looks[..|looks| - 1]) + Unskipped(look.entry, look.before, look.f)
  }

  /** 1 for a click whose marker is not found. */
  function Unskipped(entry: Entry, before: State, f: Faults): nat {
    if entry.Some? && !FindsMarker(before, entry.value, f) then 1 else 0
  }

  lemma {:induction false} ChainFollows(s: State, looks: seq<Look>, t: State, w: nat)
    requires Chained(s, looks, t, w) && AllOk(looks, w)
    ensures Follows(s, t, w, AllSteps(looks, w))
  {
    if looks == [] {
      assert Linked(s, looks, t, w, 0);
    } else {
      var init, look := looks[..|looks| - 1], looks[|looks| - 1];
      forall l | l in init
        ensures LookOk(l, w)
      {
        assert l in looks;
      }
      ChainedInit(s, looks, t, w);
      ChainFollows(s, init, look.at, w);
      assert LookOk(look, w);
      OneMoreFollowed(s, look.at, look.before, look.end, w, AllSteps(init, w), StepsOf(look, w));
      FollowsThen(s, look.end, t, w, AllSteps(init, w) + StepsOf(look, w), []);
      assert AllSteps(init, w) + StepsOf(look, w) + [] == AllSteps(looks, w);
    }
  }

  lemma OneMoreFollowed(s0: State, s: State, before: State, t: State, w: nat, own: seq<Step>, more: seq<Step>)
    requires Follows(s0, s, w, own) && Follows(s, before, w, []) && Follows(before, t, w, more)
    ensures Follows(s0, t, w, own + more)
  {
    FollowsThen(s0, s, before, w, own, []);
    assert own + [] == own;
    FollowsThen(s0, before, t, w, own, more);
  }

  /** One delivery begins for each click whose marker is not found. */
  lemma {:induction false} StepsBegin(looks: seq<Look>, w: nat)
    ensures Fresh(AllSteps(looks, w)) == UnskippedOf(looks)
  {
    if looks != [] {
      var init, look := looks[..|looks| - 1], looks[|looks| - 1];
      StepsBegin(init, w);
      RecordBegins(w, look.before, look.entry, look.f);
      FreshAppend(AllSteps(init, w), StepsOf(look, w));
    }
  }

  lemma OneMoreOk(looks: seq<Look>, look: Look, w: nat, log: seq<Entry>, start: nat, fs: nat -> Faults)
    requires AllOk(looks, w) && Covers(looks, log, start, fs) && LookOk(look, w) && start + |looks| < |log|
    requires look.entry == log[start + |looks|] && look.f == fs(start + |looks|)
    ensures AllOk(looks + [look], w) && Covers(looks + [look], log, start, fs)
  {
  }
}
