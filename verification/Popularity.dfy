/** `items:top:*` sorted sets: ZINCRBY per click (src/click_rec/kafka/enrichment.py), trimmed and
    decayed by `_refresh_one_category` (src/click_rec/cache/popularity_refresher.py).
    `decay` stands for exp(-interval / half_life), a factor strictly between 0 and 1. */
module Popularity {
  import opened Arithmetic
  import opened Order
  import opened ZSets

  const FLOOR: real := 0.000001

  predicate DecayFactor(decay: real) {
    0.0 < decay < 1.0
  }

  function Score(z: ZSet, m: string): real {
    if m in z then z[m] else 0.0
  }

  /** ZINCRBY key 1 member */
  function Increment(z: ZSet, m: string): ZSet {
    z[m := Score(z, m) + 1.0]
  }

  function IncrementAll(z: ZSet, clicks: seq<string>): ZSet {
    if clicks == [] then z
    else Increment(IncrementAll(z, clicks[..|clicks| - 1]), clicks[|clicks| - 1])
  }

  /** `float(score) * decay` */
  function Scaled(score: real, decay: real): real {
    score * decay
  }

  /** The members that stay above the noise floor, at their decayed scores. */
  function Decayed(read: ZSet, decay: real): ZSet {
    map m | m in read && Scaled(read[m], decay) > FLOOR :: Scaled(read[m], decay)
  }

  /** ZADD of a mapping: listed members are overwritten, the others stay. */
  function Overwrite(z: ZSet, scores: ZSet): ZSet {
    z + scores
  }

  /** One uninterrupted tick. */
  function Tick(z: ZSet, decay: real, max: nat): ZSet {
    Decayed(Top(z, max), decay)
  }

  class TopKey {
    var zset: ZSet

    constructor ()
      ensures zset == map[]
    {
      zset := map[];
    }

    method Click(item: string)
      modifies this
      ensures zset == Increment(old(zset), item)
    {
      zset := zset[item := (if item in zset then zset[item] else 0.0) + 1.0];
    }

    /** `_refresh_one_category` with nothing interleaved. */
    method RefreshOneCategory(decay: real, max: nat)
      modifies this
      ensures zset == Tick(old(zset), decay, max)
    {
      zset := Top(zset, max);                       // ZREMRANGEBYRANK
      var members := zset.Keys;                     // ZRANGE 0 -1 WITHSCORES
      ghost var read := zset;
      if members != {} {
        var decayed, toRemove := DecayMembers(zset, decay);
        if decayed != map[] {
          zset := Overwrite(zset, decayed);         // ZADD
        }
        if toRemove != {} {
          zset := zset - toRemove;                  // ZREM
        }
      }
      RewriteIsDecayed(read, decay);
    }
  }

  lemma RewriteIsDecayed(read: ZSet, decay: real)
    ensures var d := Decayed(read, decay);
            && Overwrite(read, d) - (read.Keys - d.Keys) == d
            && (d == map[] ==> read - (read.Keys - d.Keys) == d)
            && (read.Keys - d.Keys == {} ==> Overwrite(read, d) == d)
            && (read.Keys == {} ==> read == d)
  {
    assert Decayed(read, decay).Keys <= read.Keys;
  }

  /** The loop that splits the members read into those to rewrite and those to remove. */
  method DecayMembers(read: ZSet, decay: real) returns (decayed: ZSet, toRemove: set<string>)
    ensures decayed == Decayed(read, decay)
    ensures toRemove == read.Keys - decayed.Keys
  {
    decayed := map[];
    var todo := read.Keys;
    while todo != {}
      invariant todo <= read.Keys
      invariant forall m :: m in decayed <==> m in read && m !in todo && Scaled(read[m], decay) > FLOOR
      invariant forall m :: m in decayed ==> decayed[m] == Scaled(read[m], decay)
      decreases todo
    {
      var m :| m in todo;
      var newScore := Scaled(read[m], decay);
      if newScore > FLOOR {
        decayed := decayed[m := newScore];
      }
      todo := todo - {m};
    }
    toRemove := set m | m in read && m !in decayed;
  }

  // ---------------------------------------------------------------- one tick

  /** After a tick at most `max` members remain, each a top member of the old set at its decayed score,
      and the survivors rank as they did before. */
  lemma TickIsDecayedTop(z: ZSet, decay: real, max: nat)
    requires DecayFactor(decay)
    ensures |Tick(z, decay, max)| <= max
    ensures forall m :: m in Tick(z, decay, max) <==> m in Top(z, max) && Scaled(z[m], decay) > FLOOR
    ensures forall m :: m in Tick(z, decay, max) ==> Tick(z, decay, max)[m] == Scaled(z[m], decay)
    ensures forall m, n :: m in Tick(z, decay, max) && n in Tick(z, decay, max) ==>
              (Beats(Tick(z, decay, max)[m], m, Tick(z, decay, max)[n], n) <==> Beats(z[m], m, z[n], n))
  {
    TopSize(z, max);
    SubsetSize(Tick(z, decay, max).Keys, Top(z, max).Keys);
    forall m, n | m in Tick(z, decay, max) && n in Tick(z, decay, max)
      ensures Beats(Tick(z, decay, max)[m], m, Tick(z, decay, max)[n], n) <==> Beats(z[m], m, z[n], n)
    {
      ScalingKeepsOrder(z[m], z[n], decay);
    }
  }

  /** In numbers: a top member stays while its score times the factor exceeds one millionth, with that product. */
  lemma TickOfMember(z: ZSet, m: string, decay: real, max: nat)
    requires m in Top(z, max)
    ensures m in Tick(z, decay, max) <==> z[m] * decay > 1.0 / 1000000.0
    ensures m in Tick(z, decay, max) ==> Tick(z, decay, max)[m] == z[m] * decay
  {
    assert Top(z, max)[m] == z[m];
  }

  lemma ScalingKeepsOrder(x: real, y: real, k: real)
    requires k > 0.0
    ensures Scaled(x, k) > Scaled(y, k) <==> x > y
    ensures Scaled(x, k) == Scaled(y, k) <==> x == y
  {
    if x > y {
      assert (x - y) * k > 0.0;
    } else if y > x {
      assert (y - x) * k > 0.0;
    }
  }

  // ---------------------------------------------------------------- whole runs

  datatype Event = Clicked(item: string) | Ticked

  function Run(events: seq<Event>, decay: real, max: nat): ZSet {
    if events == [] then map[]
    else Step(Run(events[..|events| - 1], decay, max), events[|events| - 1], decay, max)
  }

  function Step(z: ZSet, e: Event, decay: real, max: nat): ZSet {
    match e
    case Clicked(m) => Increment(z, m)
    case Ticked => Tick(z, decay, max)
  }

  /** Clicks on `m` since the last tick. */
  function SinceTick(events: seq<Event>, m: string): nat {
    if events == [] then 0
    else
      match events[|events| - 1]
      case Ticked => 0
      case Clicked(i) => SinceTick(events[..|events| - 1], m) + if i == m then 1 else 0
  }

  predicate AtMostPerInterval(events: seq<Event>, m: string, c: nat) {
    forall k :: 0 <= k <= |events| ==> SinceTick(events[..k], m) <= c
  }

  /** With at most c clicks on an item between two ticks, its score never exceeds c / (1 - decay). */
  lemma ScoreBounded(events: seq<Event>, m: string, c: nat, decay: real, max: nat)
    requires DecayFactor(decay) && AtMostPerInterval(events, m, c)
    ensures 0.0 <= Score(Run(events, decay, max), m) <= c as real / (1.0 - decay)
  {
    var bound := c as real / (1.0 - decay);
    Quotient(c as real, 1.0 - decay);
    assert Scaled(bound, decay) == bound - bound * (1.0 - decay);
    ScoreBoundedSinceTick(events, m, c, decay, max, bound);
    assert events[..|events|] == events;
  }

  /** The invariant behind it: right after a tick the score is at most bound * decay = bound - c. */
  lemma {:induction false} ScoreBoundedSinceTick(events: seq<Event>, m: string, c: nat, decay: real,
                                                 max: nat, bound: real)
    requires DecayFactor(decay) && AtMostPerInterval(events, m, c)
    requires bound >= 0.0 && Scaled(bound, decay) + c as real == bound
    ensures 0.0 <= Score(Run(events, decay, max), m) <= Scaled(bound, decay) + SinceTick(events, m) as real
  {
    DecayStaysBelow(0.0, bound, decay);
    if events != [] {
      var n := |events| - 1;
      var before := events[..n];
      assert AtMostPerInterval(before, m, c) by {
        forall k | 0 <= k <= |before|
          ensures SinceTick(before[..k], m) <= c
        {
          assert before[..k] == events[..k];
        }
      }
      ScoreBoundedSinceTick(before, m, c, decay, max, bound);
      assert SinceTick(events[..n], m) <= c;
      DecayStaysBelow(Score(Run(before, decay, max), m), bound, decay);
    }
  }

  lemma DecayStaysBelow(s: real, bound: real, decay: real)
    requires DecayFactor(decay) && 0.0 <= s <= bound
    ensures 0.0 <= Scaled(s, decay) <= Scaled(bound, decay)
  {
    assert (bound - s) * decay >= 0.0;
    assert s * decay >= 0.0;
  }

  // ---------------------------------------------------------------- idle items disappear

  function Power(x: real, n: nat): real {
    if n == 0 then 1.0 else x * Power(x, n - 1)
  }

  lemma {:induction false} Bernoulli(x: real, n: nat)
    requires x >= 0.0
    ensures Power(1.0 + x, n) >= 1.0 + n as real * x >= 1.0
  {
    if n > 0 {
      Bernoulli(x, n - 1);
      BernoulliStep(x, Power(1.0 + x, n - 1), (n - 1) as real);
    }
  }

  lemma BernoulliStep(x: real, p: real, k: real)
    requires x >= 0.0 && p >= 1.0 + k * x >= 1.0
    ensures (1.0 + x) * p >= 1.0 + (k + 1.0) * x >= 1.0
  {
    NonNegativeProduct(p - 1.0, x);
    assert (1.0 + x) * p == p + (p - 1.0) * x + x;
  }

  lemma {:induction false} PowerCancels(x: real, y: real, n: nat)
    requires x * y == 1.0
    ensures Power(x, n) * Power(y, n) == 1.0
  {
    if n > 0 {
      PowerCancels(x, y, n - 1);
      var p, q := Power(x, n - 1), Power(y, n - 1);
      assert (x * p) * (y * q) == (x * y) * (p * q);
    }
  }

  lemma {:induction false} PowerPositive(x: real, n: nat)
    requires x > 0.0
    ensures Power(x, n) > 0.0
  {
    if n > 0 {
      PowerPositive(x, n - 1);
    }
  }

  /** Number of ticks after which a score of at most `score` has fallen to the floor. */
  function TicksToFloor(score: real, decay: real): (n: nat)
    requires DecayFactor(decay) && 0.0 <= score
    ensures n > 0
  {
    Quotient(1.0 - decay, decay);
    assert (1.0 - decay) / decay != 0.0;
    Quotient(score / FLOOR, (1.0 - decay) / decay);
    (score / FLOOR / ((1.0 - decay) / decay)).Floor + 1
  }

  lemma TicksToFloorSuffice(score: real, decay: real, n: nat)
    requires DecayFactor(decay) && 0.0 <= score
    ensures n >= TicksToFloor(score, decay) ==> Scaled(score, Power(decay, n)) <= FLOOR
  {
    if n >= TicksToFloor(score, decay) {
      ReachesFloor(score, decay, n);
    }
  }

  lemma ReachesFloor(score: real, decay: real, n: nat)
    requires DecayFactor(decay) && 0.0 <= score && n >= TicksToFloor(score, decay)
    ensures Scaled(score, Power(decay, n)) <= FLOOR
  {
    var x, ratio := (1.0 - decay) / decay, score / FLOOR;
    Quotient(1.0 - decay, decay);
    assert x > 0.0;
    Quotient(ratio, x);
    ScaleUp(n as real, ratio / x, x);
    FallsToFloor(ratio, decay, x, n);
    assert score == ratio * FLOOR;
    Unfloored(score, ratio, Power(decay, n));
  }

  lemma FallsToFloor(ratio: real, decay: real, x: real, n: nat)
    requires x > 0.0 && 0.0 < decay && decay * (1.0 + x) == 1.0 && n as real * x >= ratio
    ensures ratio * Power(decay, n) <= 1.0
  {
    Bernoulli(x, n);
    PowerCancels(decay, 1.0 + x, n);
    PowerPositive(decay, n);
    SmallEnough(ratio, Power(decay, n), Power(1.0 + x, n));
  }

  lemma Unfloored(score: real, ratio: real, p: real)
    requires score == ratio * FLOOR && ratio * p <= 1.0
    ensures Scaled(score, p) <= FLOOR
  {
    assert ratio * FLOOR * p == (ratio * p) * FLOOR;
  }

  lemma ScaleUp(n: real, q: real, x: real)
    requires x > 0.0 && n >= q
    ensures n * x >= q * x
  {
    NonNegativeProduct(n - q, x);
    assert (n - q) * x == n * x - q * x;
  }

  lemma SmallEnough(ratio: real, p: real, u: real)
    requires p > 0.0 && u >= ratio && p * u == 1.0
    ensures ratio * p <= 1.0
  {
    assert p * (u - ratio) >= 0.0;
  }

  function TicksIn(events: seq<Event>): nat {
    if events == [] then 0
    else TicksIn(events[..|events| - 1]) + if events[|events| - 1] == Ticked then 1 else 0
  }

  /** An item that is no longer clicked decays geometrically, whatever happens to the others. */
  lemma {:induction false} IdleDecays(before: seq<Event>, idle: seq<Event>, m: string, decay: real, max: nat)
    requires Clicked(m) !in idle
    ensures var z, z0 := Run(before + idle, decay, max), Run(before, decay, max);
            m in z ==> m in z0 && z[m] == Scaled(z0[m], Power(decay, TicksIn(idle)))
                       && (TicksIn(idle) > 0 ==> z[m] > FLOOR)
  {
    if idle == [] {
      assert before + idle == before;
    } else {
      var n := |idle| - 1;
      assert (before + idle)[..|before + idle| - 1] == before + idle[..n];
      assert (before + idle)[|before + idle| - 1] == idle[n];
      IdleDecays(before, idle[..n], m, decay, max);
      IdleStep(Run(before + idle[..n], decay, max), m, idle[n], decay, max);
      var z0 := Run(before, decay, max);
      if m in z0 {
        ScaledTwice(z0[m], TicksIn(idle[..n]), decay);
      }
    }
  }

  lemma IdleStep(z: ZSet, m: string, e: Event, decay: real, max: nat)
    requires e != Clicked(m)
    ensures m in Step(z, e, decay, max) ==>
              && m in z
              && Step(z, e, decay, max)[m] == (if e == Ticked then Scaled(z[m], decay) else z[m])
              && (e == Ticked ==> Step(z, e, decay, max)[m] > FLOOR)
  {
  }

  lemma ScaledTwice(s: real, n: nat, k: real)
    ensures Scaled(Scaled(s, Power(k, n)), k) == Scaled(s, Power(k, n + 1))
  {
  }

  /** An item that is not clicked again is gone after TicksToFloor(its score) ticks at the latest. */
  lemma IdleItemIsRemoved(before: seq<Event>, idle: seq<Event>, m: string, decay: real, max: nat)
    requires DecayFactor(decay) && Clicked(m) !in idle
    ensures Score(Run(before, decay, max), m) >= 0.0
    ensures TicksIn(idle) >= TicksToFloor(Score(Run(before, decay, max), m), decay) ==>
              m !in Run(before + idle, decay, max)
  {
    ScoreNonNegative(before, m, decay, max);
    if TicksIn(idle) >= TicksToFloor(Score(Run(before, decay, max), m), decay) {
      IdleItemFalls(before, idle, m, decay, max);
    }
  }

  lemma {:induction false} ScoreNonNegative(events: seq<Event>, m: string, decay: real, max: nat)
    requires DecayFactor(decay)
    ensures Score(Run(events, decay, max), m) >= 0.0
  {
    if events != [] {
      ScoreNonNegative(events[..|events| - 1], m, decay, max);
    }
  }

  lemma IdleItemFalls(before: seq<Event>, idle: seq<Event>, m: string, decay: real, max: nat)
    requires DecayFactor(decay) && Clicked(m) !in idle && Score(Run(before, decay, max), m) >= 0.0
    requires TicksIn(idle) >= TicksToFloor(Score(Run(before, decay, max), m), decay)
    ensures m !in Run(before + idle, decay, max)
  {
    IdleDecays(before, idle, m, decay, max);
    TicksToFloorSuffice(Score(Run(before, decay, max), m), decay, TicksIn(idle));
  }

  // ---------------------------------------------------------------- the refresher race

  /** A refresh with clicks arriving between ZRANGE and ZADD (`c1`), between ZADD and ZREM (`c2`)
      and after ZREM (`c3`). `z` is the set as ZRANGE reads it. */
  function RacedRefresh(z: ZSet, decay: real, c1: seq<string>, c2: seq<string>, c3: seq<string>): ZSet {
    var decayed := Decayed(z, decay);
    var atAdd := Overwrite(IncrementAll(z, c1), decayed);
    var atRemove := IncrementAll(atAdd, c2) - (z.Keys - decayed.Keys);
    IncrementAll(atRemove, c3)
  }

  function Clicks(clicks: seq<string>, m: string): nat {
    if clicks == [] then 0
    else Clicks(clicks[..|clicks| - 1], m) + if clicks[|clicks| - 1] == m then 1 else 0
  }

  lemma {:induction false} IncrementAllScore(z: ZSet, clicks: seq<string>, m: string)
    ensures Score(IncrementAll(z, clicks), m) == Score(z, m) + Clicks(clicks, m) as real
  {
    if clicks != [] {
      IncrementAllScore(z, clicks[..|clicks| - 1], m);
    }
  }

  /** What the race does to each member: clicks between ZRANGE and ZADD on a survivor are overwritten,
      clicks up to ZREM on a dropped member are removed with it, everything else is kept. */
  lemma RacedScore(z: ZSet, decay: real, c1: seq<string>, c2: seq<string>, c3: seq<string>, m: string)
    ensures Score(RacedRefresh(z, decay, c1, c2, c3), m) ==
            if m in Decayed(z, decay) then Scaled(z[m], decay) + (Clicks(c2, m) + Clicks(c3, m)) as real
            else if m in z then Clicks(c3, m) as real
            else (Clicks(c1, m) + Clicks(c2, m) + Clicks(c3, m)) as real
  {
    var decayed := Decayed(z, decay);
    var atAdd := Overwrite(IncrementAll(z, c1), decayed);
    var atRemove := IncrementAll(atAdd, c2) - (z.Keys - decayed.Keys);
    IncrementAllScore(z, c1, m);
    IncrementAllScore(atAdd, c2, m);
    IncrementAllScore(atRemove, c3, m);
  }

  /** The race is bounded: against a decay that loses nothing, a member's score falls short by at most the
      clicks that arrived between ZRANGE and ZREM plus the floor, and never exceeds it. */
  lemma RaceBounded(z: ZSet, decay: real, c1: seq<string>, c2: seq<string>, c3: seq<string>, m: string)
    requires DecayFactor(decay)
    requires 0.0 <= Score(z, m)
    ensures var exact := Scaled(Score(z, m), decay) + (Clicks(c1, m) + Clicks(c2, m) + Clicks(c3, m)) as real;
            exact - (Clicks(c1, m) + Clicks(c2, m)) as real - FLOOR
              <= Score(RacedRefresh(z, decay, c1, c2, c3), m) <= exact
  {
    RacedScore(z, decay, c1, c2, c3, m);
    DecayStaysBelow(0.0, Score(z, m), decay);
  }

  /** Without interleaved clicks the raced refresh is the uninterrupted one. */
  lemma RaceFreeIsTick(z: ZSet, decay: real, max: nat)
    ensures RacedRefresh(Top(z, max), decay, [], [], []) == Tick(z, decay, max)
  {
  }
}
