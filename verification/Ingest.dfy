/** Ingestion of one event id at the API edge (src/click_rec/api/routers/events.py,
    src/click_rec/cache/redis_client.py): claim the id in Redis, publish to Kafka, release the claim when
    Kafka is unavailable. Any number of attempts for the id run concurrently; every call may fail before or
    after taking effect. Claims of different ids are different keys and do not interact. */
module Ingest {
  import opened Lists

  datatype Status = Accepted | Duplicate | Unavailable | InternalError

  datatype Phase = Claiming | Publishing | Releasing | Answered(status: Status) | Crashed

  /** `copies`: messages on the topic; `acks`: publishes the broker acknowledged; `claimErrors` and `expiries`:
      failed dedupe calls and claims that ran out. */
  datatype State = State(claimed: bool, attempts: seq<Phase>, acks: nat, copies: nat, claimErrors: nat, expiries: nat)

  datatype Step =
    | Arrive
    | Claim(i: nat)
    | FindClaimed(i: nat)
    | ClaimError(i: nat, taken: bool)
    | ClaimRaises(i: nat)
    | Ack(i: nat)
    | KafkaUnavailable(i: nat, delivered: bool)
    | PublishRaises(i: nat, delivered: bool)
    | Release(i: nat)
    | ReleaseError(i: nat, done: bool)
    | Crash(i: nat)
    | Expire

  const Init: State := State(false, [], 0, 0, 0, 0)

  function Bit(b: bool): nat {
    if b then 1 else 0
  }

  predicate At(s: State, i: nat, p: Phase) {
    i < |s.attempts| && s.attempts[i] == p
  }

  predicate Enabled(s: State, step: Step) {
    match step
    case Arrive => true
    case Claim(i) => At(s, i, Claiming) && !s.claimed
    case FindClaimed(i) => At(s, i, Claiming) && s.claimed
    case ClaimError(i, taken) => At(s, i, Claiming) && (taken ==> !s.claimed)
    case ClaimRaises(i) => At(s, i, Claiming)
    case Ack(i) => At(s, i, Publishing)
    case KafkaUnavailable(i, _) => At(s, i, Publishing)
    case PublishRaises(i, _) => At(s, i, Publishing)
    case Release(i) => At(s, i, Releasing)
    case ReleaseError(i, _) => At(s, i, Releasing)
    case Crash(i) => i < |s.attempts| && !s.attempts[i].Answered?
    case Expire => s.claimed
  }

  function Set(s: State, i: nat, p: Phase): State
    requires i < |s.attempts|
  {
    s.(attempts := s.attempts[i := p])
  }

  function Do(s: State, step: Step): State
    requires Enabled(s, step)
  {
    match step
    case Arrive => s.(attempts := s.attempts + [Claiming])
    case Claim(i) => Set(s, i, Publishing).(claimed := true)
    case FindClaimed(i) => Set(s, i, Answered(Duplicate))
    case ClaimError(i, taken) => Set(s, i, Publishing).(claimed := s.claimed || taken, claimErrors := s.claimErrors + 1)
    case ClaimRaises(i) => Set(s, i, Answered(InternalError))
    case Ack(i) => Set(s, i, Answered(Accepted)).(acks := s.acks + 1, copies := s.copies + 1)
    case KafkaUnavailable(i, delivered) => Set(s, i, Releasing).(copies := s.copies + Bit(delivered))
    case PublishRaises(i, delivered) => Set(s, i, Answered(InternalError)).(copies := s.copies + Bit(delivered))
    case Release(i) => Set(s, i, Answered(Unavailable)).(claimed := false)
    case ReleaseError(i, done) => Set(s, i, Answered(Unavailable)).(claimed := s.claimed && !done)
    case Crash(i) => Set(s, i, Crashed)
    case Expire => s.(claimed := false, expiries := s.expiries + 1)
  }

  function Run(s: State, steps: seq<Step>): Option<State>
    decreases |steps|
  {
    if steps == [] then Some(s)
    else if Enabled(s, steps[0]) then Run(Do(s, steps[0]), steps[1..])
    else None
  }

  // ---------------------------------------------------------------- how often an event is published

  predicate InFlight(p: Phase) {
    p.Publishing? || p.Releasing?
  }

  function Flying(attempts: seq<Phase>): nat {
    if attempts == [] then 0 else Flying(attempts[..|attempts| - 1]) + Bit(InFlight(attempts[|attempts| - 1]))
  }

  lemma {:induction false} FlyingAfterUpdate(attempts: seq<Phase>, i: nat, p: Phase)
    requires i < |attempts|
    ensures Flying(attempts[i := p]) + Bit(InFlight(attempts[i])) == Flying(attempts) + Bit(InFlight(p))
    ensures Accepteds(attempts[i := p]) + Bit(attempts[i] == Answered(Accepted)) ==
            Accepteds(attempts) + Bit(p == Answered(Accepted))
  {
    var n := |attempts| - 1;
    if i < n {
      FlyingAfterUpdate(attempts[..n], i, p);
      assert attempts[i := p][..n] == attempts[..n][i := p];
    } else {
      assert attempts[i := p][..n] == attempts[..n];
    }
  }

  /** The right to publish: one for the free key, one for each claim error or expiry. It is spent by passing
      the gate, and comes back only when a failed publish releases. A release is not owner-checked, but the
      attempt that releases another's claim gives up its own right. */
  predicate Rights(s: State) {
    && s.acks + Flying(s.attempts) + Bit(!s.claimed) <= 1 + s.claimErrors + s.expiries
    && s.acks == Accepteds(s.attempts)
  }

  /** Attempts answered "accepted". */
  function Accepteds(attempts: seq<Phase>): nat {
    if attempts == [] then 0
    else Accepteds(attempts[..|attempts| - 1]) + Bit(attempts[|attempts| - 1] == Answered(Accepted))
  }

  lemma StepKeepsRights(s: State, step: Step)
    requires Rights(s) && Enabled(s, step)
    ensures Rights(Do(s, step))
  {
    var t := Do(s, step);
    if step.Arrive? {
      assert t.attempts[..|t.attempts| - 1] == s.attempts;
    } else if !step.Expire? {
      FlyingAfterUpdate(s.attempts, step.i, t.attempts[step.i]);
    }
  }

  lemma {:induction false} RunKeepsRights(s: State, steps: seq<Step>)
    requires Rights(s) && Run(s, steps).Some?
    ensures Rights(Run(s, steps).value)
    decreases |steps|
  {
    if steps != [] {
      StepKeepsRights(s, steps[0]);
      RunKeepsRights(Do(s, steps[0]), steps[1..]);
    }
  }

  /** Acknowledged publishes, and with them "accepted" answers, of an event id never exceed 1 + claim errors +
      claim expiries, in any interleaving of attempts, failures and releases. */
  lemma AcksBounded(steps: seq<Step>)
    requires Run(Init, steps).Some?
    ensures var s := Run(Init, steps).value;
            Accepteds(s.attempts) == s.acks <= 1 + s.claimErrors + s.expiries
  {
    RunKeepsRights(Init, steps);
  }

  /** Publishes that raised although the message was stored. */
  function LostAcks(steps: seq<Step>): nat {
    if steps == [] then 0
    else LostAcks(steps[1..]) +
         Bit((steps[0].KafkaUnavailable? || steps[0].PublishRaises?) && steps[0].delivered)
  }

  lemma {:induction false} CopiesCounted(s: State, steps: seq<Step>)
    requires Run(s, steps).Some?
    ensures Run(s, steps).value.copies + s.acks == s.copies + Run(s, steps).value.acks + LostAcks(steps)
    decreases |steps|
  {
    if steps != [] {
      CopiesCounted(Do(s, steps[0]), steps[1..]);
    }
  }

  /** The copies on the topic exceed that bound only by publishes whose acknowledgement was lost. */
  lemma CopiesBounded(steps: seq<Step>)
    requires Run(Init, steps).Some?
    ensures var s := Run(Init, steps).value; s.copies <= 1 + s.claimErrors + s.expiries + LostAcks(steps)
  {
    AcksBounded(steps);
    CopiesCounted(Init, steps);
  }

  // ---------------------------------------------------------------- what "duplicate" is worth

  /** With the key held and nothing delivered, the last attempt that could still publish or release ends without
      either: its publish fails with an error other than connection or timeout, its release fails, or it dies. */
  predicate Strands(s: State, step: Step) {
    && s.claimed && s.copies == 0 && Flying(s.attempts) == 1
    && match step
       case PublishRaises(_, delivered) => !delivered
       case ReleaseError(_, done) => !done
       case Crash(i) => i < |s.attempts| && InFlight(s.attempts[i])
       case _ => false
  }

  ghost predicate NeverStrands(s: State, steps: seq<Step>)
    decreases |steps|
  {
    steps != [] && Enabled(s, steps[0]) ==> !Strands(s, steps[0]) && NeverStrands(Do(s, steps[0]), steps[1..])
  }

  /** A "duplicate" answer would be true: the event is on the topic, or an attempt is still publishing or about to
      release. */
  predicate ClaimBacked(s: State) {
    s.claimed ==> s.copies > 0 || Flying(s.attempts) > 0
  }

  ghost predicate AlwaysBacked(s: State, steps: seq<Step>)
    decreases |steps|
  {
    ClaimBacked(s) && (steps != [] && Enabled(s, steps[0]) ==> AlwaysBacked(Do(s, steps[0]), steps[1..]))
  }

  lemma BackedUnlessStranded(s: State, step: Step)
    requires ClaimBacked(s) && Enabled(s, step)
    ensures ClaimBacked(Do(s, step)) <==> !Strands(s, step)
  {
    var t := Do(s, step);
    if step.Arrive? {
      assert t.attempts[..|t.attempts| - 1] == s.attempts;
    } else if !step.Expire? {
      FlyingAfterUpdate(s.attempts, step.i, t.attempts[step.i]);
    }
  }

  lemma {:induction false} BackedRun(s: State, steps: seq<Step>)
    requires ClaimBacked(s) && Run(s, steps).Some?
    ensures AlwaysBacked(s, steps) <==> NeverStrands(s, steps)
    ensures NeverStrands(s, steps) ==> ClaimBacked(Run(s, steps).value)
    decreases |steps|
  {
    if steps != [] {
      var t := Do(s, steps[0]);
      BackedUnlessStranded(s, steps[0]);
      if ClaimBacked(t) {
        BackedRun(t, steps[1..]);
      }
    }
  }

  /** "Duplicate" is truthful at every point of a run exactly when no step of it strands the claim. */
  lemma TruthfulIffNeverStranded(steps: seq<Step>)
    requires Run(Init, steps).Some?
    ensures AlwaysBacked(Init, steps) <==> NeverStrands(Init, steps)
  {
    BackedRun(Init, steps);
  }

  /** Then an attempt that is about to be told "duplicate" is told the truth. */
  lemma DuplicateIsTruthful(steps: seq<Step>, i: nat)
    requires Run(Init, steps).Some? && NeverStrands(Init, steps)
    requires Enabled(Run(Init, steps).value, FindClaimed(i))
    ensures var s := Run(Init, steps).value; s.copies > 0 || Flying(s.attempts) > 0
  {
    BackedRun(Init, steps);
  }

  /** A publish that fails with any other exception strands the claim: the retry is told "duplicate" although
      nothing was ever published. */
  lemma StrandedClaimLosesEvent()
    ensures var steps := [Arrive, Claim(0), PublishRaises(0, false), Arrive, FindClaimed(1)];
            && Run(Init, steps).Some?
            && Run(Init, steps).value == State(true, [Answered(InternalError), Answered(Duplicate)], 0, 0, 0, 0)
  {
    var a, b, c, d, e := Arrive, Claim(0), PublishRaises(0, false), Arrive, FindClaimed(1);
    var s1 := Do(Init, a);
    var s2 := Do(s1, b);
    var s3 := Do(s2, c);
    var s4 := Do(s3, d);
    assert Do(s4, e).attempts == [Answered(InternalError), Answered(Duplicate)];
    RunFirst(s4, [e]);
    RunFirst(s3, [d, e]);
    RunFirst(s2, [c, d, e]);
    RunFirst(s1, [b, c, d, e]);
    RunFirst(Init, [a, b, c, d, e]);
  }

  lemma RunFirst(s: State, steps: seq<Step>)
    requires steps != [] && Enabled(s, steps[0])
    ensures Run(s, steps) == Run(Do(s, steps[0]), steps[1..])
  {
  }

  // ---------------------------------------------------------------- the code

  function Actor(step: Step): Option<nat> {
    match step
    case Arrive => None
    case Expire => None
    case _ => Some(step.i)
  }

  ghost predicate Reaches(s: State, t: State) {
    exists steps :: Run(s, steps) == Some(t)
  }

  /** The steps of attempt i in a run. */
  function Own(steps: seq<Step>, i: nat): seq<Step>
    decreases |steps|
  {
    if steps == [] then []
    else (if Actor(steps[0]) == Some(i) then [steps[0]] else []) + Own(steps[1..], i)
  }

  /** t comes from s by a run in which attempt i takes exactly the steps `own`, and others any. */
  ghost predicate Follows(s: State, t: State, i: nat, own: seq<Step>) {
    exists steps :: Run(s, steps) == Some(t) && Own(steps, i) == own
  }

  lemma {:induction false} OthersLeaveAlone(s: State, steps: seq<Step>, i: nat)
    requires Run(s, steps).Some? && Own(steps, i) == [] && i < |s.attempts|
    ensures At(Run(s, steps).value, i, s.attempts[i])
    decreases |steps|
  {
    if steps != [] {
      assert Actor(steps[0]) != Some(i);
      OthersLeaveAlone(Do(s, steps[0]), steps[1..], i);
    }
  }

  /** The others leave the attempt where it is. */
  lemma OthersUndisturbed(s: State, t: State, i: nat)
    requires Follows(s, t, i, []) && i < |s.attempts|
    ensures At(t, i, s.attempts[i])
  {
    var steps :| Run(s, steps) == Some(t) && Own(steps, i) == [];
    OthersLeaveAlone(s, steps, i);
  }

  lemma {:induction false} RunAppend(s: State, a: seq<Step>, b: seq<Step>)
    requires Run(s, a).Some?
    ensures Run(s, a + b) == Run(Run(s, a).value, b)
    decreases |a|
  {
    if a == [] {
      assert a + b == b;
    } else {
      assert (a + b)[0] == a[0] && (a + b)[1..] == a[1..] + b;
      RunAppend(Do(s, a[0]), a[1..], b);
    }
  }

  lemma {:induction false} OwnAppend(a: seq<Step>, b: seq<Step>, i: nat)
    ensures Own(a + b, i) == Own(a, i) + Own(b, i)
    decreases |a|
  {
    if a == [] {
      assert a + b == b;
    } else {
      assert (a + b)[0] == a[0] && (a + b)[1..] == a[1..] + b;
      OwnAppend(a[1..], b, i);
    }
  }

  lemma FollowsThen(s: State, t: State, u: State, i: nat, a: seq<Step>, b: seq<Step>)
    requires Follows(s, t, i, a) && Follows(t, u, i, b)
    ensures Follows(s, u, i, a + b)
  {
    var x :| Run(s, x) == Some(t) && Own(x, i) == a;
    var y :| Run(t, y) == Some(u) && Own(y, i) == b;
    RunAppend(s, x, y);
    OwnAppend(x, y, i);
    assert Run(s, x + y) == Some(u);
  }

  lemma FollowsStep(s: State, i: nat, step: Step)
    requires Enabled(s, step) && Actor(step) == Some(i)
    ensures Follows(s, Do(s, step), i, [step])
  {
    RunFirst(s, [step]);
    assert Run(s, [step]) == Some(Do(s, step)) && Own([step], i) == [step] + Own([], i);
  }

  /** A whole call is a run. */
  lemma CallReaches(s: State, before: State, t: State, i: nat, own: seq<Step>)
    requires Follows(Do(s, Arrive), before, i, []) && Follows(before, t, i, own)
    ensures Reaches(s, t)
  {
    FollowsThen(Do(s, Arrive), before, t, i, [], own);
    var steps :| Run(Do(s, Arrive), steps) == Some(t) && Own(steps, i) == [] + own;
    RunFirst(s, [Arrive] + steps);
    assert ([Arrive] + steps)[1..] == steps;
  }

  /** How a publish ends; one that fails may have been delivered. */
  datatype PublishEnd = Acknowledged | Unreachable(delivered: bool) | OtherError(delivered: bool)

  /** What befalls one call: the dedupe call raises, or errs (and may have set the key all the same); how the
      publish ends; the release errs (and may have been done all the same). */
  datatype Faults = Faults(claimRaises: bool, claimErrs: bool, claimTaken: bool, publish: PublishEnd,
                           releaseErrs: bool, releaseDone: bool)

  /** What the dedupe call does on finding the state `before`. */
  function ClaimStep(i: nat, before: State, f: Faults): Step {
    if f.claimRaises then ClaimRaises(i)
    else if f.claimErrs then ClaimError(i, f.claimTaken && !before.claimed)
    else if before.claimed then FindClaimed(i)
    else Claim(i)
  }

  /** What an attempt that passed the gate does. */
  function PublishSteps(i: nat, f: Faults): seq<Step> {
    match f.publish
    case Acknowledged => [Ack(i)]
    case Unreachable(delivered) => [KafkaUnavailable(i, delivered), ReleaseStep(i, f)]
    case OtherError(delivered) => [PublishRaises(i, delivered)]
  }

  function ReleaseStep(i: nat, f: Faults): Step {
    if f.releaseErrs then ReleaseError(i, f.releaseDone) else Release(i)
  }

  /** Everything an attempt does from its dedupe call on. */
  function CallSteps(i: nat, before: State, f: Faults): seq<Step> {
    var gate := ClaimStep(i, before, f);
    [gate] + if gate.Claim? || gate.ClaimError? then PublishSteps(i, f) else []
  }

  function ClaimErrorsIn(steps: seq<Step>): nat {
    if steps == [] then 0 else Bit(steps[0].ClaimError?) + ClaimErrorsIn(steps[1..])
  }

  function AcksIn(steps: seq<Step>): nat {
    if steps == [] then 0 else Bit(steps[0].Ack?) + AcksIn(steps[1..])
  }

  /** The other attempts' steps. */
  function Rest(steps: seq<Step>, i: nat): seq<Step>
    decreases |steps|
  {
    if steps == [] then []
    else (if Actor(steps[0]) == Some(i) then [] else [steps[0]]) + Rest(steps[1..], i)
  }

  lemma CountsBehind(step: Step, rest: seq<Step>)
    ensures ClaimErrorsIn([step] + rest) == Bit(step.ClaimError?) + ClaimErrorsIn(rest)
    ensures AcksIn([step] + rest) == Bit(step.Ack?) + AcksIn(rest)
    ensures [] + rest == rest
  {
    assert ([step] + rest)[1..] == rest;
  }

  lemma StepCounts(s: State, step: Step)
    requires Enabled(s, step)
    ensures Do(s, step).claimErrors == s.claimErrors + Bit(step.ClaimError?)
    ensures Do(s, step).acks == s.acks + Bit(step.Ack?)
  {
  }

  /** The counters count what each attempt does. */
  lemma {:induction false} CountedByAttempt(s: State, steps: seq<Step>, i: nat)
    requires Run(s, steps).Some?
    ensures var t := Run(s, steps).value;
            && t.claimErrors == s.claimErrors + ClaimErrorsIn(Own(steps, i)) + ClaimErrorsIn(Rest(steps, i))
            && t.acks == s.acks + AcksIn(Own(steps, i)) + AcksIn(Rest(steps, i))
    decreases |steps|
  {
    if steps != [] {
      CountedByAttempt(Do(s, steps[0]), steps[1..], i);
      CountsBehind(steps[0], Own(steps[1..], i));
      CountsBehind(steps[0], Rest(steps[1..], i));
      StepCounts(s, steps[0]);
    }
  }

  /** A call adds a claim error exactly when its dedupe call errs without raising, and an acknowledged publish
      exactly when it passes the gate and the broker acknowledges. */
  lemma CallCounts(i: nat, before: State, f: Faults)
    ensures ClaimErrorsIn(CallSteps(i, before, f)) == Bit(!f.claimRaises && f.claimErrs)
    ensures AcksIn(CallSteps(i, before, f)) ==
            Bit(Passes(before, f) && f.publish.Acknowledged?)
  {
    CountsBehind(ClaimStep(i, before, f), []);
    CountsBehind(ClaimStep(i, before, f), PublishSteps(i, f));
    CountsBehind(PublishSteps(i, f)[0], []);
    CountsBehind(PublishSteps(i, f)[0], [ReleaseStep(i, f)]);
    CountsBehind(ReleaseStep(i, f), []);
    if f.publish.Unreachable? {
      assert PublishSteps(i, f) == [PublishSteps(i, f)[0]] + [ReleaseStep(i, f)];
    } else {
      assert PublishSteps(i, f) == [PublishSteps(i, f)[0]] + [];
    }
  }

  /** The stores an event id touches, and the code of `_ingest_one` over them. */
  class EventKey {
    var claimed: bool
    var copies: nat
    ghost var attempts: seq<Phase>
    ghost var acks: nat
    ghost var claimErrors: nat
    ghost var expiries: nat

    ghost function View(): State
      reads this
    {
      State(claimed, attempts, acks, copies, claimErrors, expiries)
    }

    /** A free key, and no attempt yet. */
    constructor ()
      ensures View() == Init
    {
      claimed, copies, attempts, acks, claimErrors, expiries := false, 0, [], 0, 0, 0;
    }

    /** Awaiting: other attempts and the key's TTL take any number of steps. */
    method Yield(ghost i: nat)
      requires i < |attempts|
      modifies this
      ensures Follows(old(View()), View(), i, []) && At(View(), i, old(attempts)[i])
    {
      assert Run(View(), []) == Some(View()) && Own([], i) == [];
      OthersUndisturbed(View(), View(), i);
    }

    /** The bookkeeping of a step, after the stores have been changed as the step says. */
    ghost method Step(s: State, step: Step)
      requires Enabled(s, step) && Do(s, step).claimed == claimed && Do(s, step).copies == copies
      modifies this`attempts, this`acks, this`claimErrors, this`expiries
      ensures View() == Do(s, step)
    {
      var t := Do(s, step);
      attempts, acks, claimErrors, expiries := t.attempts, t.acks, t.claimErrors, t.expiries;
    }

    /** `dedupe_event_id`: SET NX EX; an error counts as a claim. `before` is the state the call finds. */
    method DedupeEventId(ghost i: nat, f: Faults) returns (claim: bool, raised: bool, ghost before: State)
      requires At(View(), i, Claiming)
      modifies this
      ensures Follows(old(View()), before, i, []) && Follows(before, View(), i, [ClaimStep(i, before, f)])
      ensures At(View(), i, if raised then Answered(InternalError)
                            else if claim then Publishing else Answered(Duplicate))
      ensures raised == f.claimRaises
      ensures !raised ==> claim == (f.claimErrs || !before.claimed)
      ensures !raised && !f.claimErrs ==> claimed
    {
      Yield(i);
      before := View();
      raised := f.claimRaises;
      claim := !raised && (f.claimErrs || !claimed);
      if !raised {
        claimed := claimed || !f.claimErrs || f.claimTaken;
      }
      FollowsStep(before, i, ClaimStep(i, before, f));
      Step(before, ClaimStep(i, before, f));
    }

    /** `release_event_id`: an unconditional delete; an error is swallowed. */
    method ReleaseEventId(ghost i: nat, f: Faults)
      requires At(View(), i, Releasing)
      modifies this
      ensures Follows(old(View()), View(), i, [ReleaseStep(i, f)]) && At(View(), i, Answered(Unavailable))
      ensures !f.releaseErrs || f.releaseDone ==> !claimed
    {
      Yield(i);
      ghost var s := View();
      if !f.releaseErrs || f.releaseDone {
        claimed := false;
      }
      FollowsStep(s, i, ReleaseStep(i, f));
      Step(s, ReleaseStep(i, f));
      FollowsThen(old(View()), s, View(), i, [], [ReleaseStep(i, f)]);
      assert [] + [ReleaseStep(i, f)] == [ReleaseStep(i, f)];
    }

    /** `publish_event`. */
    method PublishEvent(ghost i: nat, f: Faults)
      requires At(View(), i, Publishing)
      modifies this
      ensures Follows(old(View()), View(), i, [PublishSteps(i, f)[0]])
      ensures At(View(), i, match f.publish
                            case Acknowledged => Answered(Accepted)
                            case Unreachable(_) => Releasing
                            case OtherError(_) => Answered(InternalError))
    {
      Yield(i);
      ghost var s := View();
      if f.publish.Acknowledged? || f.publish.delivered {
        copies := copies + 1;
      }
      ghost var step := PublishSteps(i, f)[0];
      FollowsStep(s, i, step);
      Step(s, step);
      FollowsThen(old(View()), s, View(), i, [], [step]);
      assert [] + [step] == [step];
    }

    /** `_ingest_one`. `before` is the state in which it tries to claim. It answers "duplicate" exactly when the
        dedupe call works and finds the key held; an attempt that passes the gate is answered as its publish ends;
        after an unavailable Kafka and a release that took effect the key is free, so a retry can claim again. */
    method IngestOne(f: Faults) returns (status: Status, ghost i: nat, ghost before: State)
      modifies this
      ensures Reaches(old(View()), View()) && i == |old(attempts)| && At(View(), i, Answered(status))
      ensures Follows(Do(old(View()), Arrive), before, i, []) && Follows(before, View(), i, CallSteps(i, before, f))
      ensures status == Duplicate <==> !f.claimRaises && !f.claimErrs && before.claimed
      ensures status == Accepted <==> Passes(before, f) && f.publish.Acknowledged?
      ensures status == Unavailable <==> Passes(before, f) && f.publish.Unreachable?
      ensures status == InternalError <==> f.claimRaises || (Passes(before, f) && f.publish.OtherError?)
      ensures status == Unavailable && (!f.releaseErrs || f.releaseDone) ==>
                !claimed && Enabled(Do(View(), Arrive), Claim(|attempts|))
    {
      i := |attempts|;
      ghost var s0 := View();
      Step(s0, Arrive);
      var claim, raised;
      claim, raised, before := DedupeEventId(i, f);
      ghost var s := View();
      CallReaches(s0, before, s, i, [ClaimStep(i, before, f)]);
      if raised {
        return InternalError, i, before;
      }
      if !claim {
        return Duplicate, i, before;
      }
      status := PublishOrRelease(i, f);
      FollowsThen(before, s, View(), i, [ClaimStep(i, before, f)], PublishSteps(i, f));
      CallReaches(s0, before, View(), i, CallSteps(i, before, f));
    }

    /** Behind the gate. */
    method PublishOrRelease(ghost i: nat, f: Faults) returns (status: Status)
      requires At(View(), i, Publishing)
      modifies this
      ensures Follows(old(View()), View(), i, PublishSteps(i, f)) && At(View(), i, Answered(status))
      ensures status == match f.publish
                        case Acknowledged => Accepted
                        case Unreachable(_) => Unavailable
                        case OtherError(_) => InternalError
      ensures status == Unavailable && (!f.releaseErrs || f.releaseDone) ==> !claimed
    {
      PublishEvent(i, f);
      if f.publish.Acknowledged? {
        return Accepted;
      }
      if f.publish.OtherError? {
        return InternalError;
      }
      ghost var s := View();
      ReleaseEventId(i, f);
      FollowsThen(old(View()), s, View(), i, [PublishSteps(i, f)[0]], [ReleaseStep(i, f)]);
      assert [PublishSteps(i, f)[0]] + [ReleaseStep(i, f)] == PublishSteps(i, f);
      return Unavailable;
    }
  }

  /** The attempt gets past the dedupe call. */
  predicate Passes(before: State, f: Faults) {
    !f.claimRaises && (f.claimErrs || !before.claimed)
  }
}
