/** Stampede-protected cache-aside reads of one item (src/click_rec/cache/cache_aside.py) as a state machine:
    any number of concurrent callers, a lock with a TTL, and every Redis call free to fail before or after
    taking effect. The item table does not change. */
module CacheAside {
  import opened Lists

  datatype Item = Item(id: string, title: string, category: string, brand: string, price: real)

  /** JSON serialisation of an item, and its inverse. */
  datatype Codec = Codec(serialize: Item -> string, deserialize: string -> Item)

  const NULL_SENTINEL: string := "null"

  /** The row, if there is one, can be read back from its serialised form, which is not the sentinel. */
  predicate Faithful(codec: Codec, row: Option<Item>) {
    row.Some? ==>
      codec.deserialize(codec.serialize(row.value)) == row.value && codec.serialize(row.value) != NULL_SENTINEL
  }

  /** `_populate_cache`'s payload. */
  function Encode(codec: Codec, row: Option<Item>): string {
    if row.Some? then codec.serialize(row.value) else NULL_SENTINEL
  }

  /** `_deserialize_item` */
  function Decode(codec: Codec, raw: string): Option<Item> {
    if raw == NULL_SENTINEL then None else Some(codec.deserialize(raw))
  }

  /** Exactly what faithfulness means: the cached form of the row, or of its absence, decodes to it. */
  lemma DecodeEncode(codec: Codec, row: Option<Item>)
    ensures Decode(codec, Encode(codec, row)) == row <==> Faithful(codec, row)
  {
  }

  /** Every row has a faithful codec. */
  lemma FaithfulCodecExists(row: Option<Item>) returns (codec: Codec)
    ensures Faithful(codec, row)
  {
    var item := if row.Some? then row.value else Item("", "", "", "", 0.0);
    codec := Codec(_ => "{}", _ => item);
  }

  datatype Answer = Returned(item: Option<Item>) | Raised

  datatype Phase =
    | Getting | Locking | Waiting | Reading
    | Filling | Storing(row: Option<Item>) | Releasing(outcome: Answer)
    | Finished(answer: Answer) | Crashed

  /** A call of `get_item_cached`. Its position in the list of callers is its unique caller id. */
  datatype Caller = Caller(phase: Phase, won: bool, fellBack: bool, selects: nat, releaseErred: bool, polls: nat)

  datatype State = State(db: Option<Item>, cache: Option<string>, lock: Option<nat>, callers: seq<Caller>)

  datatype Step =
    | Arrive
    | NoRedis(i: nat) | GetHit(i: nat) | GetMiss(i: nat) | GetError(i: nat)
    | LockWon(i: nat) | LockLost(i: nat) | LockError(i: nat, taken: bool)
    | PollHit(i: nat) | PollMiss(i: nat) | PollError(i: nat) | WaitTimeout(i: nat)
    | Select(i: nat) | SelectRaises(i: nat)
    | FillSelect(i: nat) | FillRaises(i: nat)
    | Store(i: nat) | StoreError(i: nat, stored: bool) | StoreRaises(i: nat)
    | Release(i: nat) | ReleaseError(i: nat, done: bool)
    | Crash(i: nat)
    | LockExpires | CacheExpires

  function Init(db: Option<Item>): State {
    State(db, None, None, [])
  }

  predicate In(s: State, i: nat, p: Phase) {
    i < |s.callers| && s.callers[i].phase == p
  }

  /** Between winning the lock and releasing it. */
  predicate Fills(c: Caller) {
    c.phase.Filling? || c.phase.Storing? || c.phase.Releasing?
  }

  predicate Enabled(s: State, step: Step) {
    match step
    case Arrive => true
    case NoRedis(i) => In(s, i, Getting)
    case GetHit(i) => In(s, i, Getting) && s.cache.Some?
    case GetMiss(i) => In(s, i, Getting) && s.cache.None?
    case GetError(i) => In(s, i, Getting)
    case LockWon(i) => In(s, i, Locking) && s.lock.None?
    case LockLost(i) => In(s, i, Locking) && s.lock.Some?
    case LockError(i, taken) => In(s, i, Locking) && (taken ==> s.lock.None?)
    case PollHit(i) => In(s, i, Waiting) && s.cache.Some?
    case PollMiss(i) => In(s, i, Waiting) && s.cache.None?
    case PollError(i) => In(s, i, Waiting)
    case WaitTimeout(i) => In(s, i, Waiting)
    case Select(i) => In(s, i, Reading)
    case SelectRaises(i) => In(s, i, Reading)
    case FillSelect(i) => In(s, i, Filling)
    case FillRaises(i) => In(s, i, Filling)
    case Store(i) => i < |s.callers| && s.callers[i].phase.Storing?
    case StoreError(i, _) => i < |s.callers| && s.callers[i].phase.Storing?
    case StoreRaises(i) => i < |s.callers| && s.callers[i].phase.Storing?
    case Release(i) => i < |s.callers| && s.callers[i].phase.Releasing?
    case ReleaseError(i, _) => i < |s.callers| && s.callers[i].phase.Releasing?
    case Crash(i) => i < |s.callers| && !s.callers[i].phase.Finished?
    case LockExpires => true
    case CacheExpires => true
  }

  function Set(s: State, i: nat, c: Caller): State
    requires i < |s.callers|
  {
    s.(callers := s.callers[i := c])
  }

  function To(s: State, i: nat, p: Phase): State
    requires i < |s.callers|
  {
    Set(s, i, s.callers[i].(phase := p))
  }

  /** Give up on Redis: answer from the database, without populating the cache. */
  function FallBack(s: State, i: nat): State
    requires i < |s.callers|
  {
    Set(s, i, s.callers[i].(phase := Reading, fellBack := true))
  }

  /** A SELECT is executed, whether or not it returns. */
  function Selected(s: State, i: nat, p: Phase): State
    requires i < |s.callers|
  {
    Set(s, i, s.callers[i].(phase := p, selects := s.callers[i].selects + 1))
  }

  /** The Lua script: delete the lock only if it is still ours. */
  function Unlock(lock: Option<nat>, i: nat): Option<nat> {
    if lock == Some(i) then None else lock
  }

  function Do(codec: Codec, s: State, step: Step): State
    requires Enabled(s, step)
  {
    match step
    case Arrive => s.(callers := s.callers + [Caller(Getting, false, false, 0, false, 0)])
    case NoRedis(i) => FallBack(s, i)
    case GetHit(i) => To(s, i, Finished(Returned(Decode(codec, s.cache.value))))
    case GetMiss(i) => To(s, i, Locking)
    case GetError(i) => FallBack(s, i)
    case LockWon(i) => Set(s.(lock := Some(i)), i, s.callers[i].(phase := Filling, won := true))
    case LockLost(i) => To(s, i, Waiting)
    case LockError(i, taken) => FallBack(if taken then s.(lock := Some(i)) else s, i)
    case PollHit(i) => To(s, i, Finished(Returned(Decode(codec, s.cache.value))))
    case PollMiss(i) => Set(s, i, s.callers[i].(polls := s.callers[i].polls + 1))
    case PollError(i) => FallBack(s, i)
    case WaitTimeout(i) => FallBack(s, i)
    case Select(i) => Selected(s, i, Finished(Returned(s.db)))
    case SelectRaises(i) => Selected(s, i, Finished(Raised))
    case FillSelect(i) => Selected(s, i, Storing(s.db))
    case FillRaises(i) => Selected(s, i, Releasing(Raised))
    case Store(i) =>
      var row := s.callers[i].phase.row;
      To(s.(cache := Some(Encode(codec, row))), i, Releasing(Returned(row)))
    case StoreError(i, stored) =>
      var row := s.callers[i].phase.row;
      To(if stored then s.(cache := Some(Encode(codec, row))) else s, i, Releasing(Returned(row)))
    case StoreRaises(i) => To(s, i, Releasing(Raised))
    case Release(i) => To(s.(lock := Unlock(s.lock, i)), i, Finished(s.callers[i].phase.outcome))
    case ReleaseError(i, done) =>
      Set(if done then s.(lock := Unlock(s.lock, i)) else s, i,
          s.callers[i].(phase := Finished(s.callers[i].phase.outcome), releaseErred := true))
    case Crash(i) => To(s, i, Crashed)
    case LockExpires => s.(lock := None)
    case CacheExpires => s.(cache := None)
  }

  function Run(codec: Codec, s: State, steps: seq<Step>): Option<State>
    decreases |steps|
  {
    if steps == [] then Some(s)
    else if Enabled(s, steps[0]) then Run(codec, Do(codec, s, steps[0]), steps[1..])
    else None
  }

  // ---------------------------------------------------------------- the invariant

  function Bit(b: bool): nat {
    if b then 1 else 0
  }

  /** SELECTs a caller still owes for having won the lock or fallen back. */
  function Owed(c: Caller): nat {
    Bit(c.phase.Filling? || c.phase.Reading?)
  }

  predicate CallerOk(s: State, i: nat, c: Caller) {
    && (c.phase.Getting? || c.phase.Locking? || c.phase.Waiting? ==>
          !c.won && !c.fellBack && c.selects == 0 && s.lock != Some(i))
    && (Fills(c) ==> c.won)
    && (c.phase.Reading? ==> c.fellBack)
    && !(c.won && c.fellBack)
    && (c.phase.Storing? ==> c.phase.row == s.db)
    && (c.phase.Releasing? && c.phase.outcome.Returned? ==> c.phase.outcome.item == s.db)
    && (c.phase.Finished? && c.phase.answer.Returned? ==> c.phase.answer.item == s.db)
    && (c.phase.Finished? && c.won && !c.releaseErred ==> s.lock != Some(i))
    && (!c.phase.Crashed? ==> c.selects + Owed(c) == Bit(c.won) + Bit(c.fellBack))
    && c.selects <= Bit(c.won) + Bit(c.fellBack)
  }

  ghost predicate Inv(codec: Codec, s: State) {
    && (s.cache.Some? ==> s.cache.value == Encode(codec, s.db))
    && (s.lock.Some? ==> s.lock.value < |s.callers|)
    && (forall i: nat :: i < |s.callers| ==> CallerOk(s, i, s.callers[i]))
  }

  /** The caller that takes the step; arrivals and expiries belong to nobody. */
  function Actor(step: Step): Option<nat> {
    match step
    case Arrive => None
    case LockExpires => None
    case CacheExpires => None
    case _ => Some(step.i)
  }

  /** A step leaves the other callers alone, and hands the lock to nobody but its actor. */
  lemma StepIsLocal(codec: Codec, s: State, step: Step, i: nat)
    requires Enabled(s, step) && i < |s.callers| && Actor(step) != Some(i)
    ensures var t := Do(codec, s, step);
            && |t.callers| >= |s.callers| && t.callers[i] == s.callers[i] && t.db == s.db
            && (t.lock == Some(i) ==> s.lock == Some(i))
  {
  }

  /** Before the lock is decided, or reading the database without it. */
  predicate Outside(c: Caller) {
    c.phase.Getting? || c.phase.Locking? || c.phase.Waiting? || c.phase.Reading?
  }

  lemma OutsiderStaysOk(codec: Codec, s: State, step: Step, i: nat)
    requires Faithful(codec, s.db) && Inv(codec, s) && Enabled(s, step) && Actor(step) == Some(i)
    requires Outside(s.callers[i]) && !step.Crash?
    ensures var t := Do(codec, s, step); i < |t.callers| && CallerOk(t, i, t.callers[i])
  {
    DecodeEncode(codec, s.db);
    assert CallerOk(s, i, s.callers[i]);
  }

  lemma FillerStaysOk(codec: Codec, s: State, step: Step, i: nat)
    requires Inv(codec, s) && Enabled(s, step) && Actor(step) == Some(i)
    requires !Outside(s.callers[i]) || step.Crash?
    ensures var t := Do(codec, s, step); i < |t.callers| && CallerOk(t, i, t.callers[i])
  {
    assert CallerOk(s, i, s.callers[i]);
  }

  lemma ActorStaysOk(codec: Codec, s: State, step: Step, i: nat)
    requires Faithful(codec, s.db) && Inv(codec, s) && Enabled(s, step) && Actor(step) == Some(i)
    ensures var t := Do(codec, s, step); i < |t.callers| && CallerOk(t, i, t.callers[i])
  {
    if Outside(s.callers[i]) && !step.Crash? {
      OutsiderStaysOk(codec, s, step, i);
    } else {
      FillerStaysOk(codec, s, step, i);
    }
  }

  lemma SharedStaysOk(codec: Codec, s: State, step: Step)
    requires Inv(codec, s) && Enabled(s, step)
    ensures var t := Do(codec, s, step);
            && t.db == s.db && |s.callers| <= |t.callers| <= |s.callers| + 1
            && (t.cache.Some? ==> t.cache.value == Encode(codec, t.db))
            && (t.lock.Some? ==> t.lock.value < |t.callers|)
  {
    if Actor(step).Some? {
      assert CallerOk(s, step.i, s.callers[step.i]);
    }
  }

  lemma StepKeepsInv(codec: Codec, s: State, step: Step)
    requires Faithful(codec, s.db) && Inv(codec, s) && Enabled(s, step)
    ensures Inv(codec, Do(codec, s, step)) && Do(codec, s, step).db == s.db
  {
    var t := Do(codec, s, step);
    SharedStaysOk(codec, s, step);
    forall i: nat | i < |t.callers|
      ensures CallerOk(t, i, t.callers[i])
    {
      if Actor(step) == Some(i) {
        ActorStaysOk(codec, s, step, i);
      } else if i < |s.callers| {
        StepIsLocal(codec, s, step, i);
        assert CallerOk(s, i, s.callers[i]);
      } else {
        assert step == Arrive;
      }
    }
  }

  lemma {:induction false} RunKeepsInv(codec: Codec, s: State, steps: seq<Step>)
    requires Faithful(codec, s.db) && Inv(codec, s) && Run(codec, s, steps).Some?
    ensures Inv(codec, Run(codec, s, steps).value) && Run(codec, s, steps).value.db == s.db
    decreases |steps|
  {
    if steps != [] {
      StepKeepsInv(codec, s, steps[0]);
      RunKeepsInv(codec, Do(codec, s, steps[0]), steps[1..]);
    }
  }

  // ---------------------------------------------------------------- transparency and lock ownership

  /** Transparency: in every interleaving, with any errors, expiries and timeouts, a call that returns returns
      exactly the database answer; and a filler that is gone no longer owns the lock unless its release erred. */
  lemma TransparentAndUnlocked(codec: Codec, db: Option<Item>, steps: seq<Step>, i: nat)
    requires Faithful(codec, db) && Run(codec, Init(db), steps).Some?
    requires i < |Run(codec, Init(db), steps).value.callers|
    ensures var s := Run(codec, Init(db), steps).value;
            var c := s.callers[i];
            && (c.phase.Finished? && c.phase.answer.Returned? ==> c.phase.answer.item == db)
            && (c.phase.Finished? && c.won && !c.releaseErred ==> s.lock != Some(i))
            && (c.phase.Finished? && !c.won && !c.fellBack ==> c.selects == 0)
  {
    RunKeepsInv(codec, Init(db), steps);
    var s := Run(codec, Init(db), steps).value;
    assert CallerOk(s, i, s.callers[i]);
  }

  predicate NoLockExpiry(steps: seq<Step>) {
    forall k :: 0 <= k < |steps| ==> steps[k] != LockExpires
  }

  /** Whoever is between winning and releasing holds the lock. */
  ghost predicate FillersHoldLock(s: State) {
    forall i: nat :: i < |s.callers| && Fills(s.callers[i]) ==> s.lock == Some(i)
  }

  lemma {:induction false} FillersKeepLock(codec: Codec, s: State, steps: seq<Step>)
    requires Run(codec, s, steps).Some? && NoLockExpiry(steps) && FillersHoldLock(s)
    ensures FillersHoldLock(Run(codec, s, steps).value)
    decreases |steps|
  {
    if steps != [] {
      assert steps[0] != LockExpires;
      assert forall k :: 0 <= k < |steps[1..]| ==> steps[1..][k] == steps[k + 1];
      FillersKeepLock(codec, Do(codec, s, steps[0]), steps[1..]);
    }
  }

  /** Mutual exclusion: without a lock expiry at most one caller is between winning and releasing. */
  lemma OneFillerAtATime(codec: Codec, db: Option<Item>, steps: seq<Step>, i: nat, j: nat)
    requires Run(codec, Init(db), steps).Some? && NoLockExpiry(steps)
    requires var s := Run(codec, Init(db), steps).value;
             i < |s.callers| && j < |s.callers| && Fills(s.callers[i]) && Fills(s.callers[j])
    ensures i == j && Run(codec, Init(db), steps).value.lock == Some(i)
  {
    FillersKeepLock(codec, Init(db), steps);
  }

  /** A lock tenure ends only by expiry or by its own holder's release: no step of another caller takes it away. */
  lemma {:induction false} TenureIsSafe(codec: Codec, s: State, steps: seq<Step>, j: nat)
    requires Run(codec, s, steps).Some? && NoLockExpiry(steps) && s.lock == Some(j)
    requires forall k :: 0 <= k < |steps| ==> steps[k] != Release(j) && steps[k] != ReleaseError(j, true)
    ensures Run(codec, s, steps).value.lock == Some(j)
    decreases |steps|
  {
    if steps != [] {
      assert steps[0] != LockExpires && steps[0] != Release(j) && steps[0] != ReleaseError(j, true);
      assert forall k :: 0 <= k < |steps[1..]| ==> steps[1..][k] == steps[k + 1];
      TenureIsSafe(codec, Do(codec, s, steps[0]), steps[1..], j);
    }
  }

  // ---------------------------------------------------------------- counting SELECTs

  function Selects(callers: seq<Caller>): nat {
    if callers == [] then 0 else Selects(callers[..|callers| - 1]) + callers[|callers| - 1].selects
  }

  function Wins(callers: seq<Caller>): nat {
    if callers == [] then 0 else Wins(callers[..|callers| - 1]) + Bit(callers[|callers| - 1].won)
  }

  function FallBacks(callers: seq<Caller>): nat {
    if callers == [] then 0 else FallBacks(callers[..|callers| - 1]) + Bit(callers[|callers| - 1].fellBack)
  }

  predicate AllFinished(s: State) {
    forall i :: 0 <= i < |s.callers| ==> s.callers[i].phase.Finished?
  }

  lemma {:induction false} SumsAgree(callers: seq<Caller>)
    requires forall i :: 0 <= i < |callers| ==> callers[i].selects == Bit(callers[i].won) + Bit(callers[i].fellBack)
    ensures Selects(callers) == Wins(callers) + FallBacks(callers)
  {
    if callers != [] {
      SumsAgree(callers[..|callers| - 1]);
    }
  }

  /** In every finished run, SELECTs = lock wins + fail-open and timeout reads. */
  lemma SelectsAccounted(codec: Codec, db: Option<Item>, steps: seq<Step>)
    requires Faithful(codec, db) && Run(codec, Init(db), steps).Some?
    requires AllFinished(Run(codec, Init(db), steps).value)
    ensures var s := Run(codec, Init(db), steps).value;
            Selects(s.callers) == Wins(s.callers) + FallBacks(s.callers)
  {
    RunKeepsInv(codec, Init(db), steps);
    var s := Run(codec, Init(db), steps).value;
    forall i | 0 <= i < |s.callers|
      ensures s.callers[i].selects == Bit(s.callers[i].won) + Bit(s.callers[i].fellBack)
    {
      assert CallerOk(s, i, s.callers[i]);
    }
    SumsAgree(s.callers);
  }

  // ---------------------------------------------------------------- exactly one SELECT

  /** No error, timeout, expiry, exception or crash. */
  predicate Smooth(step: Step) {
    step.Arrive? || step.GetHit? || step.GetMiss? || step.LockWon? || step.LockLost? || step.PollHit? || step.PollMiss?
    || step.FillSelect? || step.Store? || step.Release?
  }

  predicate AllSmooth(steps: seq<Step>) {
    forall k :: 0 <= k < |steps| ==> Smooth(steps[k])
  }

  predicate LockAttempt(step: Step) {
    step.LockWon? || step.LockLost?
  }

  /** Some lock attempt comes after a release. */
  ghost predicate AttemptAfterRelease(steps: seq<Step>) {
    exists a, b :: 0 <= a < b < |steps| && steps[a].Release? && LockAttempt(steps[b])
  }

  /** The same, scanning forward; `released` tells whether a release has been seen already. */
  predicate Late(released: bool, steps: seq<Step>)
    decreases |steps|
  {
    steps != [] && ((released && LockAttempt(steps[0])) || Late(released || steps[0].Release?, steps[1..]))
  }

  lemma {:induction false} LateMeans(released: bool, steps: seq<Step>)
    ensures Late(released, steps) <==>
            AttemptAfterRelease(steps) || (released && exists b :: 0 <= b < |steps| && LockAttempt(steps[b]))
    decreases |steps|
  {
    if steps != [] {
      var rest := steps[1..];
      LateMeans(released || steps[0].Release?, rest);
      assert forall k :: 0 <= k < |rest| ==> rest[k] == steps[k + 1];
      if AttemptAfterRelease(rest) {
        var a, b :| 0 <= a < b < |rest| && rest[a].Release? && LockAttempt(rest[b]);
        assert steps[a + 1].Release? && LockAttempt(steps[b + 1]);
      }
      if exists b :: 0 <= b < |rest| && LockAttempt(rest[b]) {
        var b :| 0 <= b < |rest| && LockAttempt(rest[b]);
        assert LockAttempt(steps[b + 1]);
      }
      if AttemptAfterRelease(steps) {
        var a, b :| 0 <= a < b < |steps| && steps[a].Release? && LockAttempt(steps[b]);
        assert LockAttempt(rest[b - 1]);
        if a > 0 {
          assert rest[a - 1].Release?;
        }
      }
      if exists b :: 0 <= b < |steps| && LockAttempt(steps[b]) {
        var b :| 0 <= b < |steps| && LockAttempt(steps[b]);
        if b > 0 {
          assert LockAttempt(rest[b - 1]);
        }
      }
    }
  }

  /** A smooth cold start: `wins` lock wins so far; until the first release there is at most one, and after it
      none unless somebody attempts the lock again. */
  ghost predicate Cold(s: State, released: bool, late: bool) {
    var wins := Wins(s.callers);
    && FillersHoldLock(s)
    && (s.lock.Some? ==> s.lock.value < |s.callers| && Fills(s.callers[s.lock.value]))
    && (forall i: nat :: i < |s.callers| ==> !s.callers[i].phase.Reading? && !s.callers[i].fellBack)
    && (!released ==> !late && wins == Bit(s.lock.Some?))
    && (released && !late ==> wins == 1 && s.lock.None?)
    && (late ==> wins >= 2)
    && (wins == 0 ==> s.cache.None?)
    && (forall i: nat :: i < |s.callers| && (s.callers[i].phase.Finished? || s.callers[i].phase.Waiting?) ==> wins > 0)
  }

  lemma {:induction false} WinsAfterUpdate(callers: seq<Caller>, i: nat, c: Caller)
    requires i < |callers|
    ensures Wins(callers[i := c]) + Bit(callers[i].won) == Wins(callers) + Bit(c.won)
  {
    var n := |callers| - 1;
    if i < n {
      WinsAfterUpdate(callers[..n], i, c);
      assert callers[i := c][..n] == callers[..n][i := c];
    } else {
      assert callers[i := c][..n] == callers[..n];
    }
  }

  lemma SmoothStep(codec: Codec, s: State, step: Step, released: bool, late: bool)
    requires Inv(codec, s) && Enabled(s, step) && Smooth(step) && Cold(s, released, late)
    ensures Cold(Do(codec, s, step), released || step.Release?, late || (released && LockAttempt(step)))
  {
    match step
    case Arrive => SmoothArrive(codec, s, released, late);
    case LockWon(i) => SmoothWin(codec, s, i, released, late);
    case Release(i) => SmoothRelease(codec, s, i, released, late);
    case _ => SmoothMove(codec, s, step, released, late);
  }

  lemma SmoothArrive(codec: Codec, s: State, released: bool, late: bool)
    requires Cold(s, released, late)
    ensures Cold(Do(codec, s, Arrive), released, late)
  {
    var t := Do(codec, s, Arrive);
    assert t.callers[..|t.callers| - 1] == s.callers;
    assert forall i: nat :: i < |s.callers| ==> t.callers[i] == s.callers[i];
  }

  lemma SmoothWin(codec: Codec, s: State, i: nat, released: bool, late: bool)
    requires Inv(codec, s) && Enabled(s, LockWon(i)) && Cold(s, released, late)
    ensures Cold(Do(codec, s, LockWon(i)), released, late || released)
  {
    var t := Do(codec, s, LockWon(i));
    assert CallerOk(s, i, s.callers[i]);
    WinsAfterUpdate(s.callers, i, t.callers[i]);
    assert t.callers == s.callers[i := t.callers[i]];
  }

  lemma SmoothRelease(codec: Codec, s: State, i: nat, released: bool, late: bool)
    requires Inv(codec, s) && Enabled(s, Release(i)) && Cold(s, released, late)
    ensures Cold(Do(codec, s, Release(i)), true, late)
  {
    var t := Do(codec, s, Release(i));
    assert CallerOk(s, i, s.callers[i]);
    WinsAfterUpdate(s.callers, i, t.callers[i]);
    WinnersCount(s.callers, i);
    assert t.callers == s.callers[i := t.callers[i]];
  }

  /** Steps that neither take nor release the lock. */
  lemma SmoothMove(codec: Codec, s: State, step: Step, released: bool, late: bool)
    requires Inv(codec, s) && Enabled(s, step) && Cold(s, released, late)
    requires step.GetHit? || step.GetMiss? || step.LockLost? || step.PollHit?
             || step.PollMiss? || step.FillSelect? || step.Store?
    ensures Cold(Do(codec, s, step), released, late || (released && LockAttempt(step)))
  {
    var i := step.i;
    assert CallerOk(s, i, s.callers[i]);
    if s.callers[i].won {
      WinnersCount(s.callers, i);
    }
    SmoothUpdate(s, Do(codec, s, step), i, released, late);
  }

  lemma SmoothUpdate(s: State, t: State, i: nat, released: bool, late: bool)
    requires Cold(s, released, late) && i < |s.callers| == |t.callers|
    requires t == s.(cache := t.cache, callers := s.callers[i := t.callers[i]])
    requires var c, d := s.callers[i], t.callers[i];
             && d.won == c.won && !d.fellBack && !d.phase.Reading? && Fills(d) == Fills(c)
             && (d.phase.Finished? || d.phase.Waiting? || t.cache.Some? ==> Wins(s.callers) > 0)
    ensures Cold(t, released, late)
  {
    WinsAfterUpdate(s.callers, i, t.callers[i]);
  }

  lemma {:induction false} WinnersCount(callers: seq<Caller>, i: nat)
    requires i < |callers| && callers[i].won
    ensures Wins(callers) > 0
  {
    var n := |callers| - 1;
    if i < n {
      WinnersCount(callers[..n], i);
    }
  }

  lemma {:induction false} SmoothRun(codec: Codec, s: State, steps: seq<Step>, released: bool, late: bool)
    returns (r: bool)
    requires Faithful(codec, s.db) && Inv(codec, s) && Run(codec, s, steps).Some? && AllSmooth(steps)
             && Cold(s, released, late)
    ensures Cold(Run(codec, s, steps).value, r, late || Late(released, steps))
    decreases |steps|
  {
    if steps == [] {
      r := released;
    } else {
      var rest := steps[1..];
      assert Smooth(steps[0]);
      assert forall k :: 0 <= k < |rest| ==> rest[k] == steps[k + 1];
      SmoothStep(codec, s, steps[0], released, late);
      StepKeepsInv(codec, s, steps[0]);
      r := SmoothRun(codec, Do(codec, s, steps[0]), rest, released || steps[0].Release?,
                     late || (released && LockAttempt(steps[0])));
    }
  }

  /** The docstring's "exactly one executes the SELECT" holds of exactly those smooth finished runs in which
      no caller attempts the lock after a release. */
  lemma ExactlyOneSelectIff(codec: Codec, db: Option<Item>, steps: seq<Step>)
    requires Faithful(codec, db) && Run(codec, Init(db), steps).Some? && AllSmooth(steps)
    requires var s := Run(codec, Init(db), steps).value; s.callers != [] && AllFinished(s)
    ensures Selects(Run(codec, Init(db), steps).value.callers) == 1 <==> !AttemptAfterRelease(steps)
  {
    var s := Run(codec, Init(db), steps).value;
    SelectsAccounted(codec, db, steps);
    LateMeans(false, steps);
    var r := SmoothRun(codec, Init(db), steps, false, false);
    NoFallBacks(s.callers);
    assert s.callers[0].phase.Finished?;
    assert s.lock.Some? ==> Fills(s.callers[s.lock.value]);
  }

  lemma {:induction false} NoFallBacks(callers: seq<Caller>)
    requires forall i: nat :: i < |callers| ==> !callers[i].fellBack
    ensures FallBacks(callers) == 0
  {
    if callers != [] {
      NoFallBacks(callers[..|callers| - 1]);
    }
  }

  // ---------------------------------------------------------------- a run with two SELECTs

  lemma {:induction false} RunAppend(codec: Codec, s: State, a: seq<Step>, b: seq<Step>)
    requires Run(codec, s, a).Some?
    ensures Run(codec, s, a + b) == Run(codec, Run(codec, s, a).value, b)
    decreases |a|
  {
    if a == [] {
      assert a + b == b;
    } else {
      assert (a + b)[0] == a[0] && (a + b)[1..] == a[1..] + b;
      RunAppend(codec, Do(codec, s, a[0]), a[1..], b);
    }
  }

  lemma RunFour(codec: Codec, s: State, a: Step, b: Step, c: Step, d: Step)
    requires Enabled(s, a) && Enabled(Do(codec, s, a), b) && Enabled(Do(codec, Do(codec, s, a), b), c)
    requires Enabled(Do(codec, Do(codec, Do(codec, s, a), b), c), d)
    ensures Run(codec, s, [a, b, c, d]) == Some(Do(codec, Do(codec, Do(codec, Do(codec, s, a), b), c), d))
  {
    var t := Do(codec, s, a);
    var u := Do(codec, t, b);
    var v := Do(codec, u, c);
    assert [a, b, c, d][1..] == [b, c, d] && [b, c, d][1..] == [c, d] && [c, d][1..] == [d] && [d][1..] == [];
    assert Run(codec, v, [d]) == Some(Do(codec, v, d));
    assert Run(codec, u, [c, d]) == Run(codec, v, [d]);
    assert Run(codec, t, [b, c, d]) == Run(codec, u, [c, d]);
  }

  function Missing(): Caller {
    Caller(Locking, false, false, 0, false, 0)
  }

  function Filled(db: Option<Item>): Caller {
    Caller(Finished(Returned(db)), true, false, 1, false, 0)
  }

  /** Two callers miss; the second attempts the lock only after the first has filled the cache and released.
      Nobody re-reads the cache after winning, so the table is read twice. */
  lemma TwoSelects(codec: Codec, db: Option<Item>)
    ensures var steps := [Arrive, Arrive, GetMiss(0), GetMiss(1)]
                         + [LockWon(0), FillSelect(0), Store(0), Release(0)]
                         + [LockWon(1), FillSelect(1), Store(1), Release(1)];
            && Run(codec, Init(db), steps) ==
               Some(State(db, Some(Encode(codec, db)), None, [Filled(db), Filled(db)]))
            && Selects([Filled(db), Filled(db)]) == 2
  {
    var a := [Arrive, Arrive, GetMiss(0), GetMiss(1)];
    var b := [LockWon(0), FillSelect(0), Store(0), Release(0)];
    var c := [LockWon(1), FillSelect(1), Store(1), Release(1)];
    var s1 := State(db, None, None, [Missing(), Missing()]);
    var s2 := State(db, Some(Encode(codec, db)), None, [Filled(db), Missing()]);
    var s3 := State(db, Some(Encode(codec, db)), None, [Filled(db), Filled(db)]);
    BothMiss(codec, db);
    FirstFills(codec, db);
    SecondFills(codec, db);
    RunAppend(codec, Init(db), a, b);
    RunAppend(codec, Init(db), a + b, c);
    assert [Filled(db), Filled(db)][..1] == [Filled(db)];
    assert Selects([Filled(db)]) == 1;
  }

  lemma BothMiss(codec: Codec, db: Option<Item>)
    ensures Run(codec, Init(db), [Arrive, Arrive, GetMiss(0), GetMiss(1)]) ==
            Some(State(db, None, None, [Missing(), Missing()]))
  {
    RunFour(codec, Init(db), Arrive, Arrive, GetMiss(0), GetMiss(1));
    var s := Do(codec, Do(codec, Do(codec, Do(codec, Init(db), Arrive), Arrive), GetMiss(0)), GetMiss(1));
    assert s.callers == [Missing(), Missing()];
  }

  lemma FirstFills(codec: Codec, db: Option<Item>)
    ensures Run(codec, State(db, None, None, [Missing(), Missing()]),
                [LockWon(0), FillSelect(0), Store(0), Release(0)]) ==
            Some(State(db, Some(Encode(codec, db)), None, [Filled(db), Missing()]))
  {
    var s := State(db, None, None, [Missing(), Missing()]);
    RunFour(codec, s, LockWon(0), FillSelect(0), Store(0), Release(0));
    var t := Do(codec, Do(codec, Do(codec, Do(codec, s, LockWon(0)), FillSelect(0)), Store(0)), Release(0));
    assert t.callers == [Filled(db), Missing()];
  }

  lemma SecondFills(codec: Codec, db: Option<Item>)
    ensures Run(codec, State(db, Some(Encode(codec, db)), None, [Filled(db), Missing()]),
                [LockWon(1), FillSelect(1), Store(1), Release(1)]) ==
            Some(State(db, Some(Encode(codec, db)), None, [Filled(db), Filled(db)]))
  {
    var s := State(db, Some(Encode(codec, db)), None, [Filled(db), Missing()]);
    RunFour(codec, s, LockWon(1), FillSelect(1), Store(1), Release(1));
    var t := Do(codec, Do(codec, Do(codec, Do(codec, s, LockWon(1)), FillSelect(1)), Store(1)), Release(1));
    assert t.callers == [Filled(db), Filled(db)];
  }
}
