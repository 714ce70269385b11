/** `get_item_cached` statement by statement (src/click_rec/cache/cache_aside.py), over the shared cache and
    lock keys of one item. Every await lets the other callers and the key expiries take any steps, and every
    Redis call may fail before or after taking effect. The code is proved to be a run of the state machine
    of CacheAside.dfy, so all its theorems hold of it. */
module CacheAsideClient {
  import opened Lists
  import opened CacheAside

  ghost predicate Reaches(codec: Codec, s: State, t: State) {
    exists steps :: Run(codec, s, steps) == Some(t)
  }

  /** t comes from s by steps of others than caller i. */
  ghost predicate Others(codec: Codec, s: State, t: State, i: nat) {
    exists steps :: Run(codec, s, steps) == Some(t) && forall k :: 0 <= k < |steps| ==> Actor(steps[k]) != Some(i)
  }

  lemma {:induction false} OthersLeaveAlone(codec: Codec, s: State, steps: seq<Step>, i: nat)
    requires Run(codec, s, steps).Some? && forall k :: 0 <= k < |steps| ==> Actor(steps[k]) != Some(i)
    requires i < |s.callers|
    ensures var t := Run(codec, s, steps).value;
            i < |t.callers| && t.callers[i] == s.callers[i]
    decreases |steps|
  {
    if steps != [] {
      assert Actor(steps[0]) != Some(i);
      assert forall k :: 0 <= k < |steps[1..]| ==> steps[1..][k] == steps[k + 1];
      OthersLeaveAlone(codec, Do(codec, s, steps[0]), steps[1..], i);
    }
  }

  /** What fails during one call: GET, the lock SET (which may be taken all the same), the k-th poll, the
      SELECT, the cache SET (which may be stored all the same), populating for another reason, and the release
      (which may be done all the same). `maxPolls` polls fit before the deadline. */
  datatype Faults = Faults(get: bool, lock: bool, lockTaken: bool, poll: nat -> bool, maxPolls: nat, selectRaises: bool,
                           store: bool, stored: bool, storeRaises: bool, release: bool, released: bool)

  ghost predicate PollFails(f: Faults) {
    exists k :: 0 <= k < f.maxPolls && f.poll(k)
  }

  /** The faults, and whether Redis was ever started, call for this step of caller i. Which of the steps that fit is
      taken, the state decides. */
  predicate Fits(s: State, step: Step, i: nat, f: Faults, started: bool)
    requires i < |s.callers|
  {
    var polls := s.callers[i].polls;
    match step
    case NoRedis(_) => !started
    case GetHit(_) => started && !f.get
    case GetMiss(_) => started && !f.get
    case GetError(_) => started && f.get
    case LockWon(_) => !f.lock
    case LockLost(_) => !f.lock
    case LockError(_, taken) => f.lock && taken == (f.lockTaken && s.lock.None?)
    case PollHit(_) => polls < f.maxPolls && !f.poll(polls)
    case PollMiss(_) => polls < f.maxPolls && !f.poll(polls)
    case PollError(_) => polls < f.maxPolls && f.poll(polls)
    case WaitTimeout(_) => polls == f.maxPolls
    case Select(_) => !f.selectRaises
    case SelectRaises(_) => f.selectRaises
    case FillSelect(_) => !f.selectRaises
    case FillRaises(_) => f.selectRaises
    case Store(_) => !f.storeRaises && !f.store
    case StoreError(_, stored) => !f.storeRaises && f.store && stored == f.stored
    case StoreRaises(_) => f.storeRaises
    case Release(_) => !f.release
    case ReleaseError(_, done) => f.release && done == f.released
    case _ => false
  }

  /** Every step that caller i takes in the run fits. */
  ghost predicate Played(codec: Codec, s: State, steps: seq<Step>, i: nat, f: Faults, started: bool)
    decreases |steps|
  {
    steps != [] ==>
      && Enabled(s, steps[0])
      && (Actor(steps[0]) == Some(i) ==> i < |s.callers| && Fits(s, steps[0], i, f, started))
      && Played(codec, Do(codec, s, steps[0]), steps[1..], i, f, started)
  }

  /** t comes from s by a run in which caller i takes only steps that fit, and others any. */
  ghost predicate Plays(codec: Codec, s: State, t: State, i: nat, f: Faults, started: bool) {
    exists steps :: Run(codec, s, steps) == Some(t) && Played(codec, s, steps, i, f, started)
  }

  lemma {:induction false} PlayedAppend(codec: Codec, s: State, a: seq<Step>, b: seq<Step>, i: nat, f: Faults,
                                        started: bool)
    requires Run(codec, s, a).Some? && Played(codec, s, a, i, f, started)
    requires Played(codec, Run(codec, s, a).value, b, i, f, started)
    ensures Played(codec, s, a + b, i, f, started)
    decreases |a|
  {
    if a == [] {
      assert a + b == b;
    } else {
      assert (a + b)[0] == a[0] && (a + b)[1..] == a[1..] + b;
      PlayedAppend(codec, Do(codec, s, a[0]), a[1..], b, i, f, started);
    }
  }

  lemma PlaysThen(codec: Codec, s: State, t: State, u: State, i: nat, f: Faults, started: bool)
    requires Plays(codec, s, t, i, f, started) && Plays(codec, t, u, i, f, started)
    ensures Plays(codec, s, u, i, f, started)
  {
    var a :| Run(codec, s, a) == Some(t) && Played(codec, s, a, i, f, started);
    var b :| Run(codec, t, b) == Some(u) && Played(codec, t, b, i, f, started);
    RunAppend(codec, s, a, b);
    PlayedAppend(codec, s, a, b, i, f, started);
    assert Run(codec, s, a + b) == Some(u);
  }

  lemma PlaysSelf(codec: Codec, s: State, i: nat, f: Faults, started: bool)
    ensures Plays(codec, s, s, i, f, started)
  {
    assert Run(codec, s, []) == Some(s) && Played(codec, s, [], i, f, started);
  }

  lemma PlaysStep(codec: Codec, s: State, step: Step, i: nat, f: Faults, started: bool)
    requires Enabled(s, step)
    requires Actor(step) == Some(i) ==> i < |s.callers| && Fits(s, step, i, f, started)
    ensures Plays(codec, s, Do(codec, s, step), i, f, started)
  {
    var t := Do(codec, s, step);
    assert [step][1..] == [];
    assert Run(codec, s, [step]) == Run(codec, t, []);
    assert Played(codec, t, [], i, f, started);
    assert Played(codec, s, [step], i, f, started);
  }

  lemma ReachesTransitive(codec: Codec, s: State, t: State, u: State)
    requires Reaches(codec, s, t) && Reaches(codec, t, u)
    ensures Reaches(codec, s, u)
  {
    var a :| Run(codec, s, a) == Some(t);
    var b :| Run(codec, t, b) == Some(u);
    RunAppend(codec, s, a, b);
    assert Run(codec, s, a + b) == Some(u);
  }

  /** Any run is a play, as long as caller i takes no part. */
  lemma {:induction false} OthersPlay(codec: Codec, s: State, steps: seq<Step>, i: nat, f: Faults, started: bool)
    requires Run(codec, s, steps).Some? && forall k :: 0 <= k < |steps| ==> Actor(steps[k]) != Some(i)
    ensures Played(codec, s, steps, i, f, started)
    decreases |steps|
  {
    if steps != [] {
      assert Actor(steps[0]) != Some(i);
      assert forall k :: 0 <= k < |steps[1..]| ==> steps[1..][k] == steps[k + 1];
      OthersPlay(codec, Do(codec, s, steps[0]), steps[1..], i, f, started);
    }
  }

  lemma PlaysReaches(codec: Codec, s: State, t: State, i: nat, f: Faults, started: bool)
    requires Plays(codec, s, t, i, f, started)
    ensures Reaches(codec, s, t)
  {
    var steps :| Run(codec, s, steps) == Some(t) && Played(codec, s, steps, i, f, started);
  }

  /** What a caller may rely on across an await. */
  ghost predicate Undisturbed(codec: Codec, s: State, t: State, i: nat) {
    && Inv(codec, t) && Others(codec, s, t, i) && t.db == s.db
    && (i < |s.callers| ==> i < |t.callers| && t.callers[i] == s.callers[i])
  }

  lemma OthersUndisturbed(codec: Codec, s: State, t: State, i: nat)
    requires Faithful(codec, s.db) && Inv(codec, s) && Others(codec, s, t, i)
    ensures Undisturbed(codec, s, t, i)
  {
    var steps :| Run(codec, s, steps) == Some(t) && forall k :: 0 <= k < |steps| ==> Actor(steps[k]) != Some(i);
    RunKeepsInv(codec, s, steps);
    if i < |s.callers| {
      OthersLeaveAlone(codec, s, steps, i);
    }
  }

  /** An await, and then a step that fits. */
  lemma AwaitThenStep(codec: Codec, s: State, t: State, step: Step, i: nat, f: Faults, started: bool)
    requires Others(codec, s, t, i) && Enabled(t, step) && Actor(step) == Some(i)
    requires i < |t.callers| && Fits(t, step, i, f, started)
    ensures Plays(codec, s, Do(codec, t, step), i, f, started)
  {
    var steps :| Run(codec, s, steps) == Some(t) && forall k :: 0 <= k < |steps| ==> Actor(steps[k]) != Some(i);
    OthersPlay(codec, s, steps, i, f, started);
    PlaysStep(codec, t, step, i, f, started);
    PlaysThen(codec, s, t, Do(codec, t, step), i, f, started);
  }

  /** A whole call is a run. */
  lemma CallReaches(codec: Codec, s: State, t: State, i: nat, f: Faults, started: bool)
    requires Plays(codec, Do(codec, s, Arrive), t, i, f, started)
    ensures Reaches(codec, s, t)
  {
    PlaysStep(codec, s, Arrive, i, f, started);
    PlaysThen(codec, s, Do(codec, s, Arrive), t, i, f, started);
    PlaysReaches(codec, s, t, i, f, started);
  }

  class ItemKey {
    const codec: Codec
    const db: Option<Item>
    const redisStarted: bool
    var cache: Option<string>
    var lock: Option<nat>
    var arrivals: nat
    ghost var callers: seq<Caller>

    ghost function View(): State
      reads this
    {
      State(db, cache, lock, callers)
    }

    ghost predicate Valid()
      reads this
    {
      Faithful(codec, db) && Inv(codec, View()) && |callers| == arrivals
    }

    /** A cold cache in front of this row, and nobody there yet. */
    constructor (codec: Codec, db: Option<Item>, redisStarted: bool)
      requires Faithful(codec, db)
      ensures this.codec == codec && this.redisStarted == redisStarted
      ensures Valid() && View() == Init(db)
    {
      this.codec, this.db, this.redisStarted := codec, db, redisStarted;
      cache, lock, arrivals, callers := None, None, 0, [];
    }

    /** Caller i stands at phase p. */
    ghost predicate At(i: nat, p: Phase)
      reads this
    {
      Valid() && In(View(), i, p)
    }

    /** Awaiting: other callers and key expiries take any number of steps. */
    method Yield(ghost i: nat)
      requires Valid()
      modifies this
      ensures Valid() && Undisturbed(codec, old(View()), View(), i)
    {
      assert Run(codec, View(), []) == Some(View());
      assert Others(codec, View(), View(), i);
      OthersUndisturbed(codec, View(), View(), i);
    }

    /** The bookkeeping of one step of caller i, after the stores have been changed as the step says. */
    ghost method Step(s: State, step: Step)
      requires Faithful(codec, s.db) && Inv(codec, s) && Enabled(s, step) && s.db == db
      requires Do(codec, s, step).cache == cache && Do(codec, s, step).lock == lock
      requires |Do(codec, s, step).callers| == arrivals
      modifies this`callers
      ensures Valid() && View() == Do(codec, s, step)
    {
      StepKeepsInv(codec, s, step);
      callers := Do(codec, s, step).callers;
    }

    /** `get_item_cached` for the caller with id `me`. It takes exactly the steps that the faults call for, so it
        falls back only when Redis is missing, fails or the wait runs out, and only the database, or a failure outside
        Redis while populating, makes it raise. `stored` is the state right behind the fill. */
    method GetItemCached(f: Faults) returns (answer: Answer, ghost me: nat, ghost stored: State)
      requires Valid()
      modifies this
      ensures Valid() && Reaches(codec, old(View()), View())
      ensures Plays(codec, Do(codec, old(View()), Arrive), View(), me, f, redisStarted)
      ensures me == |old(callers)| < |callers| && callers[me].phase == Finished(answer)
      ensures answer.Returned? ==> answer.item == db
      ensures answer == Raised <==> Raises(callers[me], f)
      ensures callers[me].selects == Bit(callers[me].won) + Bit(callers[me].fellBack)
      ensures callers[me].fellBack ==>
                !redisStarted || f.get || f.lock || PollFails(f) || callers[me].polls == f.maxPolls
      ensures callers[me].releaseErred ==> f.release
      ensures callers[me].won && !f.release ==> lock != Some(me)
      ensures callers[me].won ==> Stored(Do(codec, old(View()), Arrive), stored, View(), f)
    {
      ghost var s0 := View();
      var id := arrivals;
      me := id;
      arrivals := arrivals + 1;
      Step(s0, Arrive);
      answer, stored := Answered(id, f);
      CallReaches(codec, s0, View(), me, f, redisStarted);
      assert CallerOk(View(), me, callers[me]);
    }

    /** A call raises exactly when its SELECT does, or when populating the cache fails outside Redis. */
    predicate Raises(c: Caller, f: Faults) {
      (c.won && (f.selectRaises || f.storeRaises)) || (c.fellBack && f.selectRaises)
    }

    /** In between, the cache held the row, unless the fill failed. */
    ghost predicate Stored(s: State, stored: State, t: State, f: Faults) {
      && Reaches(codec, s, stored) && Reaches(codec, stored, t)
      && (!f.selectRaises && !f.storeRaises && !f.store ==> stored.cache == Some(Encode(codec, db)))
    }

    /** The body of the call: fast path, lock, fill or wait. */
    method Answered(i: nat, f: Faults) returns (answer: Answer, ghost stored: State)
      requires At(i, Getting) && !callers[i].releaseErred && callers[i].polls == 0
      modifies this
      ensures At(i, Finished(answer)) && Plays(codec, old(View()), View(), i, f, redisStarted)
      ensures answer == Raised <==> Raises(callers[i], f)
      ensures callers[i].fellBack ==> !redisStarted || f.get || f.lock || PollFails(f) || callers[i].polls == f.maxPolls
      ensures callers[i].releaseErred ==> f.release
      ensures callers[i].won ==> Stored(old(View()), stored, View(), f)
    {
      ghost var s0 := View();
      stored := s0;
      assert CallerOk(s0, i, callers[i]);
      if !redisStarted {
        Step(s0, NoRedis(i));
        PlaysStep(codec, s0, NoRedis(i), i, f, redisStarted);
        ghost var s1 := View();
        answer := FetchFromDb(i, f);
        PlaysThen(codec, s0, s1, View(), i, f, redisStarted);
        return;
      }
      var decided;
      ghost var found;
      decided, answer, found := FastPath(i, f);
      if decided {
        return;
      }
      ghost var s1 := View();
      answer, stored := LockThenFillOrWait(i, f);
      PlaysThen(codec, s0, s1, View(), i, f, redisStarted);
      if callers[i].won {
        PlaysReaches(codec, s0, s1, i, f, redisStarted);
        ReachesTransitive(codec, s0, s1, stored);
      }
    }

    /** Behind a miss: win the lock and fill, lose it and wait, or fall back. */
    method LockThenFillOrWait(i: nat, f: Faults) returns (answer: Answer, ghost stored: State)
      requires redisStarted && At(i, Locking) && !callers[i].releaseErred && callers[i].polls == 0
      modifies this
      ensures At(i, Finished(answer)) && Plays(codec, old(View()), View(), i, f, redisStarted)
      ensures answer == Raised <==> Raises(callers[i], f)
      ensures callers[i].fellBack ==> f.lock || PollFails(f) || callers[i].polls == f.maxPolls
      ensures callers[i].releaseErred ==> f.release
      ensures callers[i].won ==> Stored(old(View()), stored, View(), f)
    {
      ghost var s1 := View();
      stored := s1;
      var acquired, erred, _ := TryLock(i, f);
      ghost var s2 := View();
      if erred {
        answer := FetchFromDb(i, f);
      } else if acquired {
        answer, stored := Fill(i, f);
        PlaysReaches(codec, s1, s2, i, f, redisStarted);
        ReachesTransitive(codec, s1, s2, stored);
      } else {
        answer := WaitForFiller(i, f);
      }
      PlaysThen(codec, s1, s2, View(), i, f, redisStarted);
    }

    /** `_fetch_from_db` on a fallback path; the SELECT itself may raise. */
    method FetchFromDb(i: nat, f: Faults) returns (answer: Answer)
      requires At(i, Reading)
      modifies this
      ensures At(i, Finished(answer)) && Plays(codec, old(View()), View(), i, f, redisStarted)
      ensures answer == if f.selectRaises then Raised else Returned(db)
      ensures Kept(old(callers)[i], callers[i])
    {
      Yield(i);
      ghost var s := View();
      ghost var step := if f.selectRaises then SelectRaises(i) else Select(i);
      AwaitThenStep(codec, old(View()), s, step, i, f, redisStarted);
      Step(s, step);
      answer := if f.selectRaises then Raised else Returned(db);
    }

    /** The plain GET: a hit answers, an error falls back to the database, a miss goes on. `before` is the state
        the call finds. */
    method FastPath(i: nat, f: Faults) returns (decided: bool, answer: Answer, ghost before: State)
      requires redisStarted && At(i, Getting)
      modifies this
      ensures Plays(codec, old(View()), View(), i, f, redisStarted)
      ensures if decided then At(i, Finished(answer)) else At(i, Locking)
      ensures callers[i].fellBack == f.get && !callers[i].won && (f.get ==> decided)
      ensures Undisturbed(codec, old(View()), before, i)
      ensures !f.get ==> decided == before.cache.Some?
      ensures decided ==> (answer == Raised <==> f.get && f.selectRaises)
      ensures callers[i].releaseErred == old(callers)[i].releaseErred && callers[i].polls == old(callers)[i].polls
    {
      ghost var s0 := View();
      Yield(i);
      before := View();
      assert CallerOk(before, i, callers[i]);
      ghost var step := if f.get then GetError(i) else if cache.Some? then GetHit(i) else GetMiss(i);
      AwaitThenStep(codec, s0, before, step, i, f, redisStarted);
      Step(before, step);
      if f.get {
        ghost var s := View();
        answer := FetchFromDb(i, f);
        PlaysThen(codec, s0, s, View(), i, f, redisStarted);
        return true, answer, before;
      }
      if cache.Some? {
        return true, Returned(Decode(codec, cache.value)), before;
      }
      return false, Raised, before;
    }

    /** SET NX PX. `before` is the state the call finds. */
    method TryLock(i: nat, f: Faults) returns (acquired: bool, erred: bool, ghost before: State)
      requires At(i, Locking)
      modifies this
      ensures Plays(codec, old(View()), View(), i, f, redisStarted)
      ensures At(i, if erred then Reading else if acquired then Filling else Waiting)
      ensures erred == f.lock == callers[i].fellBack && callers[i].won == (!erred && acquired)
      ensures Undisturbed(codec, old(View()), before, i)
      ensures !erred ==> acquired == before.lock.None?
      ensures lock == if acquired then Some(i) else before.lock
      ensures callers[i].releaseErred == old(callers)[i].releaseErred && callers[i].polls == old(callers)[i].polls
    {
      Yield(i);
      before := View();
      assert CallerOk(before, i, callers[i]);
      erred := f.lock;
      acquired := lock.None? && (!f.lock || f.lockTaken);
      if acquired {
        lock := Some(i);
      }
      ghost var step := if erred then LockError(i, acquired) else if acquired then LockWon(i) else LockLost(i);
      AwaitThenStep(codec, old(View()), before, step, i, f, redisStarted);
      Step(before, step);
    }

    /** `_wait_for_filler`: poll until the key appears, an error, or the deadline; then read the table. */
    method WaitForFiller(i: nat, f: Faults) returns (answer: Answer)
      requires At(i, Waiting) && callers[i].polls == 0
      modifies this
      ensures At(i, Finished(answer)) && Plays(codec, old(View()), View(), i, f, redisStarted)
      ensures answer == Raised <==> callers[i].fellBack && f.selectRaises
      ensures callers[i].fellBack ==> PollFails(f) || callers[i].polls == f.maxPolls
      ensures callers[i].releaseErred == old(callers)[i].releaseErred && callers[i].won == old(callers)[i].won
    {
      ghost var s0 := View();
      PlaysSelf(codec, s0, i, f, redisStarted);
      var polls, erred := 0, false;
      while polls < f.maxPolls
        invariant At(i, Waiting) && Plays(codec, s0, View(), i, f, redisStarted) && !erred
        invariant polls == callers[i].polls <= f.maxPolls
        invariant callers[i].releaseErred == s0.callers[i].releaseErred && callers[i].won == s0.callers[i].won
      {
        ghost var s1 := View();
        var hit;
        hit, erred, answer := Poll(i, polls, f);
        PlaysThen(codec, s0, s1, View(), i, f, redisStarted);
        if hit {
          return;
        }
        if erred {
          break;
        }
        polls := polls + 1;
      }
      if !erred {
        ghost var s2 := View();
        Step(s2, WaitTimeout(i));
        PlaysStep(codec, s2, WaitTimeout(i), i, f, redisStarted);
        PlaysThen(codec, s0, s2, View(), i, f, redisStarted);
      }
      ghost var s3 := View();
      answer := FetchFromDb(i, f);
      PlaysThen(codec, s0, s3, View(), i, f, redisStarted);
    }

    /** One GET of the waiting loop. */
    method Poll(i: nat, polls: nat, f: Faults) returns (hit: bool, erred: bool, answer: Answer)
      requires At(i, Waiting) && callers[i].polls == polls < f.maxPolls
      modifies this
      ensures Plays(codec, old(View()), View(), i, f, redisStarted)
      ensures At(i, if hit then Finished(answer) else if erred then Reading else Waiting)
      ensures erred == f.poll(polls) == callers[i].fellBack && (hit ==> !erred && answer.Returned?)
      ensures callers[i].polls == if hit || erred then polls else polls + 1
      ensures callers[i].releaseErred == old(callers)[i].releaseErred && callers[i].won == old(callers)[i].won
    {
      Yield(i);
      ghost var s := View();
      assert CallerOk(s, i, callers[i]);
      erred := f.poll(polls);
      hit := !erred && cache.Some?;
      answer := if hit then Returned(Decode(codec, cache.value)) else Raised;
      ghost var step := if erred then PollError(i) else if hit then PollHit(i) else PollMiss(i);
      AwaitThenStep(codec, old(View()), s, step, i, f, redisStarted);
      Step(s, step);
    }

    /** The lock is ours: read the table, populate the cache, and release in any case. `stored` is the state right
        behind the populating. */
    method Fill(i: nat, f: Faults) returns (answer: Answer, ghost stored: State)
      requires At(i, Filling)
      modifies this
      ensures At(i, Finished(answer)) && Plays(codec, old(View()), View(), i, f, redisStarted)
      ensures answer == if f.selectRaises || f.storeRaises then Raised else Returned(db)
      ensures callers[i].releaseErred ==> f.release || old(callers)[i].releaseErred
      ensures callers[i].won && !callers[i].fellBack
      ensures Stored(old(View()), stored, View(), f)
    {
      ghost var s0 := View();
      Yield(i);
      ghost var s1 := View();
      assert CallerOk(s1, i, callers[i]);
      ghost var step := if f.selectRaises then FillRaises(i) else FillSelect(i);
      AwaitThenStep(codec, s0, s1, step, i, f, redisStarted);
      Step(s1, step);
      ghost var s2 := View();
      answer := Raised;
      PlaysSelf(codec, s2, i, f, redisStarted);
      if !f.selectRaises {
        answer := PopulateCache(i, db, f);
      }
      stored := View();
      PlaysThen(codec, s0, s2, stored, i, f, redisStarted);
      ghost var before := ReleaseLock(i, answer, f);
      PlaysThen(codec, s0, stored, View(), i, f, redisStarted);
      PlaysReaches(codec, s0, stored, i, f, redisStarted);
      PlaysReaches(codec, stored, View(), i, f, redisStarted);
    }

    /** `_populate_cache`: a Redis error leaves the cache as it is, or written; anything else raises. */
    method PopulateCache(i: nat, row: Option<Item>, f: Faults) returns (answer: Answer)
      requires At(i, Storing(row))
      modifies this
      ensures At(i, Releasing(answer)) && Plays(codec, old(View()), View(), i, f, redisStarted)
      ensures answer == if f.storeRaises then Raised else Returned(row)
      ensures !f.storeRaises && !f.store ==> cache == Some(Encode(codec, row))
      ensures Kept(old(callers)[i], callers[i])
    {
      Yield(i);
      ghost var s := View();
      if !f.storeRaises && (!f.store || f.stored) {
        cache := Some(Encode(codec, row));
      }
      ghost var step := if f.storeRaises then StoreRaises(i) else if f.store then StoreError(i, f.stored) else Store(i);
      AwaitThenStep(codec, old(View()), s, step, i, f, redisStarted);
      Step(s, step);
      answer := if f.storeRaises then Raised else Returned(row);
    }

    /** `_release_lock`: the owner-checked delete; an error is swallowed. `before` is the state the call finds. */
    method ReleaseLock(i: nat, outcome: Answer, f: Faults) returns (ghost before: State)
      requires At(i, Releasing(outcome))
      modifies this
      ensures At(i, Finished(outcome)) && Plays(codec, old(View()), View(), i, f, redisStarted)
      ensures Undisturbed(codec, old(View()), before, i)
      ensures lock == (if before.lock == Some(i) && (!f.release || f.released) then None else before.lock)
      ensures !f.release ==> lock != Some(i)
      ensures callers[i].releaseErred == (f.release || old(callers)[i].releaseErred)
      ensures callers[i].fellBack == old(callers)[i].fellBack && callers[i].won == old(callers)[i].won
    {
      Yield(i);
      before := View();
      if !f.release || f.released {
        if lock == Some(i) {
          lock := None;
        }
      }
      ghost var step := if f.release then ReleaseError(i, f.released) else Release(i);
      AwaitThenStep(codec, old(View()), before, step, i, f, redisStarted);
      Step(before, step);
    }

    /** The step changed nothing about the caller but its phase and its SELECTs. */
    predicate Kept(before: Caller, after: Caller) {
      after.won == before.won && after.fellBack == before.fellBack && after.releaseErred == before.releaseErred
      && after.polls == before.polls
    }
  }
}
