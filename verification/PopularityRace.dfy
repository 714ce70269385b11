/** The popularity refresher (src/click_rec/cache/popularity_refresher.py) command by command, with clicks
    (src/click_rec/kafka/enrichment.py) arriving between any two of them, over whole runs. One refresher works on
    a key at a time, and completes the refreshes it begins. */
module PopularityRace {
  import opened Arithmetic
  import opened ZSets
  import opened Popularity

  /** How far the current refresh is: trimmed, read, and rewritten. */
  datatype Phase = Idle | Trimmed | HasRead(read: ZSet) | HasWritten(read: ZSet)

  datatype State = State(zset: ZSet, phase: Phase)

  datatype Action = Click(item: string) | Trim | Read | Write | Remove

  /** A command out of turn does nothing. */
  function Next(s: State, a: Action, decay: real, max: nat): State {
    match a
    case Click(m) => s.(zset := Increment(s.zset, m))
    case Trim => if s.phase.Idle? then State(Top(s.zset, max), Trimmed) else s
    case Read => if s.phase.Trimmed? then s.(phase := HasRead(s.zset)) else s
    case Write =>
      if s.phase.HasRead? then State(Overwrite(s.zset, Decayed(s.phase.read, decay)), HasWritten(s.phase.read)) else s
    case Remove =>
      if s.phase.HasWritten? then State(s.zset - (s.phase.read.Keys - Decayed(s.phase.read, decay).Keys), Idle) else s
  }

  function RunFrom(s: State, actions: seq<Action>, decay: real, max: nat): State {
    if actions == [] then s
    else Next(RunFrom(s, actions[..|actions| - 1], decay, max), actions[|actions| - 1], decay, max)
  }

  const Start: State := State(map[], Idle)

  function Run(actions: seq<Action>, decay: real, max: nat): State {
    RunFrom(Start, actions, decay, max)
  }

  /** Clicks on an item since the refresher last read the set. */
  function SinceRead(actions: seq<Action>, m: string, decay: real, max: nat): nat {
    if actions == [] then 0
    else
      var init := actions[..|actions| - 1];
      match actions[|actions| - 1]
      case Click(i) => SinceRead(init, m, decay, max) + if i == m then 1 else 0
      case Read => if Run(init, decay, max).phase.Trimmed? then 0 else SinceRead(init, m, decay, max)
      case _ => SinceRead(init, m, decay, max)
  }

  predicate AtMostPerRefresh(actions: seq<Action>, m: string, c: nat, decay: real, max: nat) {
    forall k :: 0 <= k <= |actions| ==> SinceRead(actions[..k], m, decay, max) <= c
  }

  /** The refresh under way has read the item's score and not yet replaced or removed it: it is behind the read, or
      behind the rewrite and the item is still to be removed. */
  predicate Pending(s: State, m: string, decay: real) {
    match s.phase
    case HasRead(_) => true
    case HasWritten(read) => m in read && m !in Decayed(read, decay)
    case _ => false
  }

  /** The item's score as the refresh under way read it. */
  function ReadScore(s: State, m: string): real {
    match s.phase
    case HasRead(read) => Score(read, m)
    case HasWritten(read) => Score(read, m)
    case _ => 0.0
  }

  // ---------------------------------------------------------------- the bound

  /** Where an item's score stands after k clicks since the last read, with base = bound * decay = bound - c. */
  predicate Within(s: State, m: string, k: real, base: real, bound: real, decay: real) {
    && 0.0 <= Score(s.zset, m)
    && 0.0 <= ReadScore(s, m) <= bound
    && if Pending(s, m, decay) then Score(s.zset, m) == ReadScore(s, m) + k else Score(s.zset, m) <= base + k
  }

  lemma NextWithin(s: State, a: Action, m: string, k: real, base: real, bound: real, decay: real, max: nat)
    requires DecayFactor(decay) && Scaled(bound, decay) == base && 0.0 <= base <= bound
    requires Within(s, m, k, base, bound, decay) && 0.0 <= k && base + k <= bound
    ensures var k' := if a == Click(m) then k + 1.0 else if a.Read? && s.phase.Trimmed? then 0.0 else k;
            Within(Next(s, a, decay, max), m, k', base, bound, decay)
  {
    if a.Write? && s.phase.HasRead? {
      DecayStaysBelow(Score(s.phase.read, m), bound, decay);
    }
  }

  lemma {:induction false} RunWithin(actions: seq<Action>, m: string, c: nat, base: real, bound: real,
                                     decay: real, max: nat)
    requires DecayFactor(decay) && Scaled(bound, decay) == base && base + c as real == bound && 0.0 <= base
    requires AtMostPerRefresh(actions, m, c, decay, max)
    ensures Within(Run(actions, decay, max), m, SinceRead(actions, m, decay, max) as real, base, bound, decay)
  {
    if actions != [] {
      var init := actions[..|actions| - 1];
      assert forall k :: 0 <= k <= |init| ==> init[..k] == actions[..k];
      RunWithin(init, m, c, base, bound, decay, max);
      assert init[..|init|] == init;
      var a := actions[|actions| - 1];
      NextWithin(Run(init, decay, max), a, m, SinceRead(init, m, decay, max) as real, base, bound, decay, max);
    }
  }

  /** With at most c clicks on an item between two reads, and clicks falling anywhere into the refreshes: its
      score is never negative, and it exceeds c / (1 - decay) if and only if the item is pending and the score that
      was read, with the clicks since then, does. In particular the bound holds outside refreshes and for members
      already rewritten, and is exceeded by at most the clicks since the read. */
  lemma RacedScoreBounded(actions: seq<Action>, m: string, c: nat, decay: real, max: nat)
    requires DecayFactor(decay) && AtMostPerRefresh(actions, m, c, decay, max)
    ensures var s, bound := Run(actions, decay, max), c as real / (1.0 - decay);
            var k := SinceRead(actions, m, decay, max) as real;
            && 0.0 <= Score(s.zset, m)
            && (Score(s.zset, m) > bound <==> Pending(s, m, decay) && ReadScore(s, m) + k > bound)
            && Score(s.zset, m) <= if Pending(s, m, decay) then bound + k else bound
  {
    var bound := c as real / (1.0 - decay);
    BoundSplits(c as real, decay, bound);
    var base := Scaled(bound, decay);
    RunWithin(actions, m, c, base, bound, decay, max);
    assert actions[..|actions|] == actions;
    WithinBounds(Run(actions, decay, max), m, SinceRead(actions, m, decay, max) as real, base, bound, decay);
  }

  lemma BoundSplits(c: real, decay: real, bound: real)
    requires DecayFactor(decay) && 0.0 <= c && bound == c / (1.0 - decay)
    ensures 0.0 <= Scaled(bound, decay) && Scaled(bound, decay) + c == bound
  {
    Quotient(c, 1.0 - decay);
    NonNegativeProduct(bound, decay);
    assert bound * decay == bound - bound * (1.0 - decay);
  }

  lemma WithinBounds(s: State, m: string, k: real, base: real, bound: real, decay: real)
    requires Within(s, m, k, base, bound, decay) && 0.0 <= k && base + k <= bound
    ensures Score(s.zset, m) > bound <==> Pending(s, m, decay) && ReadScore(s, m) + k > bound
    ensures 0.0 <= Score(s.zset, m) <= if Pending(s, m, decay) then bound + k else bound
  {
  }

  lemma OneMoreAction(actions: seq<Action>, a: Action, m: string, decay: real, max: nat)
    ensures Run(actions + [a], decay, max) == Next(Run(actions, decay, max), a, decay, max)
    ensures SinceRead(actions + [a], m, decay, max) ==
            if a == Click(m) then SinceRead(actions, m, decay, max) + 1
            else if a.Read? && Run(actions, decay, max).phase.Trimmed? then 0 else SinceRead(actions, m, decay, max)
  {
    assert (actions + [a])[..|actions|] == actions;
  }

  /** Inside a refresh the plain bound does not hold: one click per refresh, and a score above 1 / (1 - 0.1). */
  lemma OvershootInsideRefresh()
    ensures var actions := [Click("a"), Trim, Read, Click("a")];
            && AtMostPerRefresh(actions, "a", 1, 0.1, 1)
            && Score(Run(actions, 0.1, 1).zset, "a") == 2.0 > 1.0 / (1.0 - 0.1)
  {
    OneClickPerRefresh();
    OvershootToRead();
    OneMoreAction([Click("a"), Trim, Read], Click("a"), "a", 0.1, 1);
    assert [Click("a"), Trim, Read] + [Click("a")] == [Click("a"), Trim, Read, Click("a")];
  }

  lemma OvershootToRead()
    ensures var z: ZSet := map["a" := 1.0]; Run([Click("a"), Trim, Read], 0.1, 1) == State(z, HasRead(z))
    ensures SinceRead([Click("a"), Trim, Read], "a", 0.1, 1) == 0
    ensures SinceRead([Click("a"), Trim], "a", 0.1, 1) == 1 == SinceRead([Click("a")], "a", 0.1, 1)
  {
    var c, z: ZSet := Click("a"), map["a" := 1.0];
    assert Higher(z, "a") == {};
    assert Top(z, 1) == z;
    OneMoreAction([], c, "a", 0.1, 1);
    OneMoreAction([c], Trim, "a", 0.1, 1);
    OneMoreAction([c, Trim], Read, "a", 0.1, 1);
    assert [] + [c] == [c] && [c] + [Trim] == [c, Trim] && [c, Trim] + [Read] == [c, Trim, Read];
    assert Run([c], 0.1, 1).zset == z;
  }

  lemma OneClickPerRefresh()
    ensures AtMostPerRefresh([Click("a"), Trim, Read, Click("a")], "a", 1, 0.1, 1)
  {
    var c := Click("a");
    var actions := [c, Trim, Read, c];
    OvershootToRead();
    OneMoreAction([c, Trim, Read], c, "a", 0.1, 1);
    assert [c, Trim, Read] + [c] == actions;
    forall k | 0 <= k <= 4
      ensures SinceRead(actions[..k], "a", 0.1, 1) <= 1
    {
      assert actions[..k] == if k == 0 then [] else if k == 1 then [c] else if k == 2 then [c, Trim]
                             else if k == 3 then [c, Trim, Read] else actions;
    }
  }

  // ---------------------------------------------------------------- one refresh as a whole

  function AsClicks(items: seq<string>): (actions: seq<Action>)
    ensures |actions| == |items|
  {
    seq(|items|, i requires 0 <= i < |items| => Click(items[i]))
  }

  lemma {:induction false} RunClicks(s: State, items: seq<string>, decay: real, max: nat)
    ensures RunFrom(s, AsClicks(items), decay, max) == s.(zset := IncrementAll(s.zset, items))
  {
    if items != [] {
      var init := items[..|items| - 1];
      RunClicks(s, init, decay, max);
      assert AsClicks(items)[..|items| - 1] == AsClicks(init);
    }
  }

  lemma {:induction false} RunAppend(s: State, a: seq<Action>, b: seq<Action>, decay: real, max: nat)
    ensures RunFrom(s, a + b, decay, max) == RunFrom(RunFrom(s, a, decay, max), b, decay, max)
  {
    if b == [] {
      assert a + b == a;
    } else {
      var init := b[..|b| - 1];
      RunAppend(s, a, init, decay, max);
      assert (a + b)[..|a + b| - 1] == a + init;
    }
  }

  /** A command and the clicks behind it. */
  lemma CommandThenClicks(s: State, a: Action, items: seq<string>, decay: real, max: nat)
    ensures var t := Next(s, a, decay, max);
            RunFrom(s, [a] + AsClicks(items), decay, max) == t.(zset := IncrementAll(t.zset, items))
  {
    assert [a][..0] == [];
    assert RunFrom(s, [a], decay, max) == Next(s, a, decay, max);
    RunAppend(s, [a], AsClicks(items), decay, max);
    RunClicks(Next(s, a, decay, max), items, decay, max);
  }

  /** Command by command, a refresh with clicks c0, c1, c2, c3 behind its four commands is RacedRefresh. */
  lemma RefreshIsRaced(z: ZSet, c0: seq<string>, c1: seq<string>, c2: seq<string>, c3: seq<string>,
                       decay: real, max: nat)
    ensures RunFrom(State(z, Idle), ([Trim] + AsClicks(c0)) + (([Read] + AsClicks(c1))
                                    + (([Write] + AsClicks(c2)) + ([Remove] + AsClicks(c3)))), decay, max)
         == State(RacedRefresh(IncrementAll(Top(z, max), c0), decay, c1, c2, c3), Idle)
  {
    var a, b, c, d := [Trim] + AsClicks(c0), [Read] + AsClicks(c1), [Write] + AsClicks(c2), [Remove] + AsClicks(c3);
    var s0 := State(z, Idle);
    var s1 := State(IncrementAll(Top(z, max), c0), Trimmed);
    var s2 := State(IncrementAll(s1.zset, c1), HasRead(s1.zset));
    var s3 := State(IncrementAll(Overwrite(s2.zset, Decayed(s1.zset, decay)), c2), HasWritten(s1.zset));
    CommandThenClicks(s0, Trim, c0, decay, max);
    CommandThenClicks(s1, Read, c1, decay, max);
    CommandThenClicks(s2, Write, c2, decay, max);
    CommandThenClicks(s3, Remove, c3, decay, max);
    RunAppend(s0, a, b + (c + d), decay, max);
    RunAppend(s1, b, c + d, decay, max);
    RunAppend(s2, c, d, decay, max);
  }
}
