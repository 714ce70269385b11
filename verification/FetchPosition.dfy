/** The poll loop with the consumer's real fetch position (src/click_rec/kafka/consumer.py): `getmany` continues
    behind the last batch it returned, whatever part of it was handled; only a restart or a rebalance goes back
    to the committed offset. One partition, one owner at a time. */
module FetchPosition {
  import opened Lists
  import opened ConsumerLoop

  /** A batch of `fetched` records of which the first `handled` were handled before a DLQ failure broke the
      loop off (or all of them); its commit may not land. A restart also stands for a rebalance or a crash. */
  datatype Cycle = Restart | Batch(fetched: nat, handled: nat, lands: bool)

  /** `held`: offsets whose latest fetch did not handle them. `done`: offsets handled at least once.
      `gap`: a batch of this session broke off. */
  datatype State = State(committed: nat, position: nat, held: set<nat>, done: set<nat>, gap: bool)

  predicate WellFormed(cycles: seq<Cycle>) {
    forall i :: 0 <= i < |cycles| && cycles[i].Batch? ==>
      0 < cycles[i].fetched && cycles[i].handled <= cycles[i].fetched
  }

  function Range(a: nat, b: nat): (r: set<nat>)
    ensures forall o :: o in r <==> a <= o < b
  {
    if b <= a then {} else Range(a, b - 1) + {b - 1}
  }

  function Next(s: State, c: Cycle): State {
    match c
    case Restart => s.(position := s.committed, gap := false)
    case Batch(fetched, handled, lands) =>
      var split, end := s.position + handled, s.position + fetched;
      State(if lands && handled > 0 then split else s.committed,
            end,
            s.held - Range(s.position, split) + Range(split, end),
            s.done + Range(s.position, split),
            s.gap || handled < fetched)
  }

  function Run(cycles: seq<Cycle>): State {
    if cycles == [] then State(0, 0, {}, {}, false)
    else Next(Run(cycles[..|cycles| - 1]), cycles[|cycles| - 1])
  }

  /** What the worker promises about a failed record: its offset is held back, and the records behind the
      failure with it, until a later poll has re-fetched and handled them. */
  predicate HoldsBack(s: State) {
    forall o :: o in s.held ==> s.committed <= o
  }

  predicate NothingLost(s: State) {
    forall o: nat :: o < s.committed ==> o in s.done
  }

  /** A commit that lands in a session in which an earlier batch broke off. */
  predicate OvertakesAt(cycles: seq<Cycle>, i: nat, j: nat) {
    && i < j < |cycles|
    && cycles[i].Batch? && cycles[i].handled < cycles[i].fetched
    && cycles[j].Batch? && cycles[j].lands && cycles[j].handled > 0
    && forall k :: i < k < j ==> cycles[k].Batch?
  }

  ghost predicate Overtakes(cycles: seq<Cycle>) {
    exists i: nat, j: nat :: OvertakesAt(cycles, i, j)
  }

  /** Batch i broke off, and the session went on without a restart. */
  predicate BrokenOff(cycles: seq<Cycle>, i: nat) {
    && i < |cycles| && cycles[i].Batch? && cycles[i].handled < cycles[i].fetched
    && forall k :: i < k < |cycles| ==> cycles[k].Batch?
  }

  lemma BrokenOffStays(cycles: seq<Cycle>, i: nat)
    requires cycles != [] && i < |cycles| - 1
    ensures BrokenOff(cycles, i) <==> BrokenOff(cycles[..|cycles| - 1], i) && cycles[|cycles| - 1].Batch?
  {
    var n := |cycles| - 1;
    assert forall k :: 0 <= k < n ==> cycles[..n][k] == cycles[k];
  }

  /** The session's gap flag means that a batch broke off after the last restart. */
  lemma {:induction false} GapMeans(cycles: seq<Cycle>)
    ensures Run(cycles).gap <==> exists i: nat :: BrokenOff(cycles, i)
  {
    if cycles != [] {
      var n := |cycles| - 1;
      GapMeans(cycles[..n]);
      forall i: nat | i < n
        ensures BrokenOff(cycles, i) <==> BrokenOff(cycles[..n], i) && cycles[n].Batch?
      {
        BrokenOffStays(cycles, i);
      }
      assert BrokenOff(cycles, n) <==> cycles[n].Batch? && cycles[n].handled < cycles[n].fetched;
    }
  }

  lemma OvertakesStep(cycles: seq<Cycle>)
    requires cycles != []
    ensures var n := |cycles| - 1;
            Overtakes(cycles) <==>
            Overtakes(cycles[..n]) ||
            (Run(cycles[..n]).gap && cycles[n].Batch? && cycles[n].lands && cycles[n].handled > 0)
  {
    var n := |cycles| - 1;
    var init := cycles[..n];
    GapMeans(init);
    if Overtakes(cycles) {
      var i: nat, j: nat :| OvertakesAt(cycles, i, j);
      assert forall k :: i < k < j ==> k < n ==> init[k] == cycles[k];
      if j < n {
        assert OvertakesAt(init, i, j);
      } else {
        assert BrokenOff(init, i);
      }
    }
    if Overtakes(init) {
      var i: nat, j: nat :| OvertakesAt(init, i, j);
      assert forall k :: 0 <= k < n ==> init[k] == cycles[k];
      assert OvertakesAt(cycles, i, j);
    }
    if Run(init).gap && cycles[n].Batch? && cycles[n].lands && cycles[n].handled > 0 {
      var i: nat :| BrokenOff(init, i);
      assert forall k :: 0 <= k < n ==> init[k] == cycles[k];
      assert OvertakesAt(cycles, i, n);
    }
  }

  /** Before any overtaking commit: held records lie at or behind the committed offset, and without a gap
      even behind the fetch position; with a gap, one held record lies in front of the position. */
  predicate Sound(s: State) {
    && s.committed <= s.position
    && (forall o :: o in s.held ==> s.committed <= o)
    && (!s.gap ==> forall o :: o in s.held ==> s.position <= o)
    && (s.gap ==> exists o :: o in s.held && o < s.position)
    && (forall o: nat :: o < s.committed ==> o in s.done)
    && (!s.gap ==> forall o: nat :: o < s.position ==> o in s.done)
  }

  /** After one: some held record lies below the committed offset, where no fetch will reach it again. */
  predicate Passed(s: State) {
    s.committed <= s.position && exists o :: o in s.held && o < s.committed
  }

  lemma {:induction false} RunSoundOrPassed(cycles: seq<Cycle>)
    requires WellFormed(cycles)
    ensures if Overtakes(cycles) then Passed(Run(cycles)) else Sound(Run(cycles))
  {
    if cycles == [] {
      assert !Overtakes(cycles);
    } else {
      var n := |cycles| - 1;
      var s, c := Run(cycles[..n]), cycles[n];
      RunSoundOrPassed(cycles[..n]);
      OvertakesStep(cycles);
      if Overtakes(cycles[..n]) {
        PassedForGood(s, c);
      } else if Overtakes(cycles) {
        var o :| o in s.held && o < s.position;
        assert o in Next(s, c).held;
      } else {
        SoundStep(s, c);
      }
    }
  }

  lemma PassedForGood(s: State, c: Cycle)
    requires Passed(s) && (c.Batch? ==> c.handled <= c.fetched)
    ensures Passed(Next(s, c))
  {
    var o :| o in s.held && o < s.committed;
    assert o in Next(s, c).held;
  }

  lemma SoundStep(s: State, c: Cycle)
    requires Sound(s) && (c.Batch? ==> 0 < c.fetched && c.handled <= c.fetched)
    requires !(s.gap && c.Batch? && c.lands && c.handled > 0)
    ensures Sound(Next(s, c))
  {
    var t := Next(s, c);
    if c.Batch? {
      if s.gap {
        var o :| o in s.held && o < s.position;
        assert o in t.held;
      } else if t.gap {
        assert s.position + c.handled in t.held;
      }
    }
  }

  /** The promise to hold failed records back is kept exactly by the runs in which no commit lands in a
      session after one of its batches broke off. */
  lemma HoldsBackIff(cycles: seq<Cycle>)
    requires WellFormed(cycles)
    ensures HoldsBack(Run(cycles)) <==> !Overtakes(cycles)
  {
    RunSoundOrPassed(cycles);
  }

  /** In such runs no record below the committed offset is lost. */
  lemma NoLossUnlessOvertaken(cycles: seq<Cycle>)
    requires WellFormed(cycles) && !Overtakes(cycles)
    ensures NothingLost(Run(cycles))
  {
    RunSoundOrPassed(cycles);
  }

  /** In a single session an overtaking commit always loses records. */
  lemma {:induction false} OvertakingLosesInOneSession(cycles: seq<Cycle>)
    requires WellFormed(cycles) && forall i :: 0 <= i < |cycles| ==> cycles[i].Batch?
    ensures NothingLost(Run(cycles)) <==> !Overtakes(cycles)
  {
    RunSoundOrPassed(cycles);
    HeldNeverDone(cycles);
    if Overtakes(cycles) {
      var o :| o in Run(cycles).held && o < Run(cycles).committed;
      assert o !in Run(cycles).done;
    }
  }

  lemma {:induction false} HeldNeverDone(cycles: seq<Cycle>)
    requires WellFormed(cycles) && forall i :: 0 <= i < |cycles| ==> cycles[i].Batch?
    ensures Run(cycles).held !! Run(cycles).done
    ensures forall o :: o in Run(cycles).held || o in Run(cycles).done ==> o < Run(cycles).position
  {
    if cycles != [] {
      HeldNeverDone(cycles[..|cycles| - 1]);
    }
  }

  // ---------------------------------------------------------------- which records are lost

  /** Batch i fetched record o and broke off before it. */
  predicate InGap(cycles: seq<Cycle>, i: nat, o: nat) {
    && i < |cycles| && cycles[i].Batch?
    && var p := Run(cycles[..i]).position; p + cycles[i].handled <= o < p + cycles[i].fetched
  }

  /** A commit overtakes a batch that broke off before a record no earlier batch had handled. */
  predicate LosesAt(cycles: seq<Cycle>, i: nat, j: nat, o: nat) {
    OvertakesAt(cycles, i, j) && InGap(cycles, i, o) && o !in Run(cycles[..i]).done
  }

  /** Below the committed offset and never handled. */
  predicate Lost(s: State, o: nat) {
    s.committed <= s.position && o < s.committed && o !in s.done
  }

  lemma {:induction false} CommittedBehindPosition(cycles: seq<Cycle>)
    requires WellFormed(cycles)
    ensures Run(cycles).committed <= Run(cycles).position
  {
    if cycles != [] {
      CommittedBehindPosition(cycles[..|cycles| - 1]);
    }
  }

  /** What was handled stays handled. */
  lemma {:induction false} DoneGrows(cycles: seq<Cycle>, i: nat)
    requires i <= |cycles|
    ensures Run(cycles[..i]).done <= Run(cycles).done
    decreases |cycles|
  {
    if i == |cycles| {
      assert cycles[..i] == cycles;
    } else {
      var init := cycles[..|cycles| - 1];
      DoneGrows(init, i);
      assert init[..i] == cycles[..i];
    }
  }

  /** A lost record is never fetched again, whatever follows: more batches, restarts or rebalances. */
  lemma {:induction false} LostForGood(cycles: seq<Cycle>, n: nat, o: nat)
    requires WellFormed(cycles) && n <= |cycles| && Lost(Run(cycles[..n]), o)
    ensures Lost(Run(cycles), o)
    decreases |cycles|
  {
    if n == |cycles| {
      assert cycles[..n] == cycles;
    } else {
      var init := cycles[..|cycles| - 1];
      assert init[..n] == cycles[..n];
      LostForGood(init, n, o);
    }
  }

  /** While the session lasts, the fetch position stays past the gap. */
  lemma {:induction false} PassedOver(cycles: seq<Cycle>, i: nat, t: nat, o: nat)
    requires WellFormed(cycles) && i < t <= |cycles| && InGap(cycles, i, o) && o !in Run(cycles[..i]).done
    requires forall k :: i < k < t ==> cycles[k].Batch?
    ensures o < Run(cycles[..t]).position && o !in Run(cycles[..t]).done
    decreases t
  {
    assert cycles[..t][..t - 1] == cycles[..t - 1];
    if t > i + 1 {
      PassedOver(cycles, i, t - 1, o);
    }
  }

  lemma OvertakenIsLost(cycles: seq<Cycle>, i: nat, j: nat, o: nat)
    requires WellFormed(cycles) && LosesAt(cycles, i, j, o)
    ensures Lost(Run(cycles), o)
  {
    PassedOver(cycles, i, j, o);
    RunNext(cycles, j);
    OvertakingLoses(Run(cycles[..j]), cycles[j], o);
    LostForGood(cycles, j + 1, o);
  }

  lemma RunNext(cycles: seq<Cycle>, j: nat)
    requires j < |cycles|
    ensures Run(cycles[..j + 1]) == Next(Run(cycles[..j]), cycles[j])
  {
    assert cycles[..j + 1][..j] == cycles[..j];
  }

  lemma OvertakingLoses(s: State, c: Cycle, o: nat)
    requires o < s.position && o !in s.done && c.Batch? && c.lands && 0 < c.handled <= c.fetched
    ensures Lost(Next(s, c), o)
  {
  }

  /** A record between committed offset and fetch position that was never handled lies in a gap of this session. */
  lemma {:induction false} SessionGap(cycles: seq<Cycle>, o: nat) returns (i: nat)
    requires WellFormed(cycles) && Run(cycles).committed <= o < Run(cycles).position && o !in Run(cycles).done
    ensures InGap(cycles, i, o) && forall k :: i < k < |cycles| ==> cycles[k].Batch?
  {
    var n := |cycles| - 1;
    var init := cycles[..n];
    CommittedBehindPosition(init);
    if o >= Run(init).position {
      i := n;
    } else {
      i := SessionGap(init, o);
      assert init[..i] == cycles[..i];
      assert forall k :: 0 <= k < n ==> init[k] == cycles[k];
    }
  }

  lemma {:induction false} LossIsOvertaking(cycles: seq<Cycle>) returns (i: nat, j: nat, o: nat)
    requires WellFormed(cycles) && !NothingLost(Run(cycles))
    ensures LosesAt(cycles, i, j, o)
  {
    var n := |cycles| - 1;
    var init := cycles[..n];
    assert forall k :: 0 <= k < n ==> init[k] == cycles[k];
    if !NothingLost(Run(init)) {
      i, j, o := LossIsOvertaking(init);
      assert init[..i] == cycles[..i];
    } else {
      o :| o < Run(cycles).committed && o !in Run(cycles).done;
      CommittedBehindPosition(init);
      j := n;
      i := SessionGap(init, o);
      assert init[..i] == cycles[..i];
      DoneGrows(init, i);
    }
  }

  /** No loss, exactly, over any sessions: some record below the committed offset was never handled if and only
      if a commit landed in a session after a batch of it broke off before a record that was new to it. */
  lemma NothingLostIff(cycles: seq<Cycle>)
    requires WellFormed(cycles)
    ensures NothingLost(Run(cycles)) <==> !exists i: nat, j: nat, o: nat :: LosesAt(cycles, i, j, o)
  {
    if !NothingLost(Run(cycles)) {
      var i, j, o := LossIsOvertaking(cycles);
    }
    if i: nat, j: nat, o: nat :| LosesAt(cycles, i, j, o) {
      OvertakenIsLost(cycles, i, j, o);
    }
  }

  /** A losing run: the DLQ is down for the first record, the second is handled and committed. The first is
      never fetched again, whatever follows. */
  lemma LosingRun(rest: seq<Cycle>)
    requires WellFormed(rest)
    ensures var cycles := [Batch(1, 0, false), Batch(1, 1, true)] + rest;
            WellFormed(cycles) && Lost(Run(cycles), 0)
  {
    var a, b := Batch(1, 0, false), Batch(1, 1, true);
    var cycles := [a, b] + rest;
    assert [a, b][..1] == [a] && [a][..0] == [] && cycles[..2] == [a, b];
    var s1 := Run([a]);
    assert s1 == Next(Run([]), a);
    assert s1.position == 1 && s1.done == {};
    var s2 := Run([a, b]);
    assert s2 == Next(s1, b);
    assert s2.done == Range(1, 2);
    LostForGood(cycles, 2, 0);
  }

  // ---------------------------------------------------------------- the commit dict

  datatype TpBatch = TpBatch(tp: nat, first: nat, outcomes: seq<Outcome>)

  /** k is the number of records handled before the first DLQ failure. */
  predicate HandledPrefix(outcomes: seq<Outcome>, k: nat) {
    && k <= |outcomes|
    && (forall j :: 0 <= j < k ==> outcomes[j] != DlqFailed)
    && (k < |outcomes| ==> outcomes[k] == DlqFailed)
  }

  /** What `commits` must say about one partition's batch. */
  ghost predicate CommitsBehind(commits: map<nat, nat>, b: TpBatch) {
    forall k: nat :: HandledPrefix(b.outcomes, k) ==>
      if k == 0 then b.tp !in commits else b.tp in commits && commits[b.tp] == b.first + k
  }

  /** The loop over partitions and records that fills `commits`: behind the highest successfully handled
      offset of each partition, and nothing for a partition whose first record already failed. */
  method BuildCommits(batch: seq<TpBatch>) returns (commits: map<nat, nat>)
    requires forall b, c :: 0 <= b < c < |batch| ==> batch[b].tp != batch[c].tp
    ensures forall b :: 0 <= b < |batch| ==> CommitsBehind(commits, batch[b])
    ensures forall tp :: tp in commits ==> exists b :: 0 <= b < |batch| && batch[b].tp == tp
  {
    commits := map[];
    for b := 0 to |batch|
      invariant forall c :: 0 <= c < b ==> CommitsBehind(commits, batch[c])
      invariant forall tp :: tp in commits ==> exists c :: 0 <= c < b && batch[c].tp == tp
    {
      ghost var before := commits;
      var last := LastCommittable(batch[b]);
      if last.Some? {
        commits := commits[batch[b].tp := last.value + 1];
      }
      forall c | 0 <= c < b
        ensures CommitsBehind(commits, batch[c])
      {
        assert CommitsBehind(before, batch[c]);
        assert batch[c].tp != batch[b].tp;
      }
    }
  }

  /** The inner loop, with its break on the first failure. */
  method LastCommittable(b: TpBatch) returns (last: Option<nat>)
    ensures forall k: nat :: HandledPrefix(b.outcomes, k) ==> last == if k == 0 then None else Some(b.first + k - 1)
    ensures exists k: nat :: HandledPrefix(b.outcomes, k)
  {
    last := None;
    var i := 0;
    while i < |b.outcomes| && b.outcomes[i] != DlqFailed
      invariant 0 <= i <= |b.outcomes|
      invariant forall j :: 0 <= j < i ==> b.outcomes[j] != DlqFailed
      invariant last == if i == 0 then None else Some(b.first + i - 1)
    {
      last := Some(b.first + i);
      i := i + 1;
    }
    assert HandledPrefix(b.outcomes, i);
    assert forall k: nat :: HandledPrefix(b.outcomes, k) ==> k == i;
  }
}
