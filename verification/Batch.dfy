/** `/events/batch` (src/click_rec/api/routers/events.py): group by user, process the groups concurrently,
    each group in order, and put the results back into input order. */
module Batch {
  import opened Lists
  import opened StableSort

  datatype Event = Event(user: string, id: Option<string>)

  /** `eventId` is empty in an error for an event that came without an id. */
  datatype Result = Accepted(eventId: string) | Duplicate(eventId: string) | Error(eventId: string)

  /** A result that belongs to the event: ids the client supplied come back unchanged. */
  predicate ResultFor(e: Event, r: Result) {
    match r
    case Error(id) => id == (if e.id.Some? then e.id.value else "")
    case _ => e.id.Some? ==> r.eventId == e.id.value
  }

  /** How one call of `_ingest_one` ends: acknowledged, found claimed, or failed with or without having tried
      to publish. `newId` is the id generated for an event that came without one. */
  datatype Attempt = Acked(newId: string) | FoundClaimed(newId: string) | Failed(tried: bool)

  /** What befalls a batch: how each event's call ends, and after how many of their events groups are cut off
      by an exception outside `Exception`. */
  datatype Fates = Fates(attempts: nat -> Attempt, cuts: string -> Option<nat>)

  function Answer(e: Event, a: Attempt): Result {
    match a
    case Acked(newId) => Accepted(if e.id.Some? then e.id.value else newId)
    case FoundClaimed(newId) => Duplicate(if e.id.Some? then e.id.value else newId)
    case Failed(_) => BatchError(e)
  }

  function Tried(a: Attempt): bool {
    a.Acked? || (a.Failed? && a.tried)
  }

  /** The group of this user, of the given size, is cut off. A cut while the last call is in flight still counts. */
  predicate CutOff(fates: Fates, user: string, size: nat) {
    fates.cuts(user).Some? && fates.cuts(user).value <= size
  }

  /** How many of its events the group gets to process. */
  function End(fates: Fates, user: string, size: nat): nat {
    if CutOff(fates, user, size) then fates.cuts(user).value else size
  }

  /** What the response must say about event i. */
  function Expected(events: seq<Event>, fates: Fates, i: nat): Result
    requires i < |events|
  {
    var user := events[i].user;
    if CutOff(fates, user, |Positions(events, user)|) then BatchError(events[i])
    else Answer(events[i], fates.attempts(i))
  }

  /** Event i gets its turn: fewer of its user's events stand before it than the group processes. */
  predicate Reached(events: seq<Event>, fates: Fates, i: nat)
    requires i < |events|
  {
    var user := events[i].user;
    |Positions(events[..i], user)| < End(fates, user, |Positions(events, user)|)
  }

  /** Event i is in a group that is cut off: by an exception behind at most as many events as the user sent. */
  predicate Dropped(events: seq<Event>, fates: Fates, i: nat)
    requires i < |events|
  {
    match fates.cuts(events[i].user)
    case None => false
    case Some(n) => n <= |Positions(events, events[i].user)|
  }

  /** A result belongs to its event. An event is answered "accepted" exactly when its call was acknowledged and
      its group not cut off, "duplicate" exactly when its call found the key claimed and its group was not cut off,
      and with an error otherwise. An accepted event got its turn and was published; a duplicate was not. */
  lemma ExpectedIsSound(events: seq<Event>, fates: Fates, i: nat)
    requires i < |events|
    ensures var r, a := Expected(events, fates, i), fates.attempts(i);
            && ResultFor(events[i], r)
            && (r.Accepted? <==> a.Acked? && !Dropped(events, fates, i))
            && (r.Duplicate? <==> a.FoundClaimed? && !Dropped(events, fates, i))
            && (events[i].id.None? && !r.Error? ==> r.eventId == a.newId)
            && (r.Accepted? ==> Reached(events, fates, i) && Tried(a))
            && (r.Duplicate? ==> Reached(events, fates, i) && !Tried(a))
    ensures Tried(fates.attempts(i)) <==> fates.attempts(i) in {Failed(true)} || fates.attempts(i).Acked?
    ensures Reached(events, fates, i) <==>
            var rank, cut := |Positions(events[..i], events[i].user)|, fates.cuts(events[i].user);
            cut == None || rank < cut.value
  {
    RankOfPosition(events, i);
  }

  function BatchError(e: Event): Result {
    Error(if e.id.Some? then e.id.value else "")
  }

  function Users(events: seq<Event>): (users: seq<string>)
    ensures |users| == |events|
    ensures forall i :: 0 <= i < |events| ==> users[i] == events[i].user
  {
    seq(|events|, i requires 0 <= i < |events| => events[i].user)
  }

  /** The positions of a user's events, in input order. */
  function Positions(events: seq<Event>, user: string): seq<nat> {
    if events == [] then []
    else
      var n := |events| - 1;
      Positions(events[..n], user) + if events[n].user == user then [n] else []
  }

  lemma {:induction false} PositionsExact(events: seq<Event>, user: string)
    ensures forall i: nat :: i in Positions(events, user) <==> i < |events| && events[i].user == user
    ensures forall p, q :: 0 <= p < q < |Positions(events, user)| ==>
              Positions(events, user)[p] < Positions(events, user)[q]
  {
    if events != [] {
      var n := |events| - 1;
      PositionsExact(events[..n], user);
      var init := Positions(events[..n], user);
      assert forall p :: 0 <= p < |init| ==> init[p] in init;
    }
  }

  /** Event i stands in its user's group behind exactly the user's events before it. */
  lemma {:induction false} RankOfPosition(events: seq<Event>, i: nat)
    requires i < |events|
    ensures var user := events[i].user;
            var rank := |Positions(events[..i], user)|;
            rank < |Positions(events, user)| && Positions(events, user)[rank] == i
  {
    var n := |events| - 1;
    if i < n {
      RankOfPosition(events[..n], i);
      assert events[..n][..i] == events[..i];
    }
  }

  function GroupOf(groups: map<string, seq<nat>>, user: string): seq<nat> {
    if user in groups then groups[user] else []
  }

  /** The dict after the first idx events. */
  ghost predicate Grouped(events: seq<Event>, idx: nat, order: seq<string>, groups: map<string, seq<nat>>)
    requires idx <= |events|
  {
    && order == Dedup(Users(events[..idx]))
    && (forall u :: u in groups <==> u in order)
    && (forall u :: GroupOf(groups, u) == Positions(events[..idx], u))
  }

  lemma PositionsOfPrefix(events: seq<Event>, idx: nat, u: string)
    requires idx < |events|
    ensures Positions(events[..idx + 1], u) ==
            Positions(events[..idx], u) + if events[idx].user == u then [idx] else []
  {
    assert events[..idx + 1][..idx] == events[..idx];
  }

  lemma UsersOfPrefix(events: seq<Event>, idx: nat)
    requires idx < |events|
    ensures Dedup(Users(events[..idx + 1])) ==
            WithUser(Dedup(Users(events[..idx])), events[idx].user)
  {
    var users := Users(events[..idx + 1]);
    assert users[..|users| - 1] == Users(events[..idx]);
    DedupDistinct(Users(events[..idx]));
  }

  /** Dict keys keep the order of first insertion. */
  function WithUser(order: seq<string>, user: string): seq<string> {
    if user in order then order else order + [user]
  }

  lemma OneMoreGrouped(events: seq<Event>, idx: nat, order: seq<string>, groups: map<string, seq<nat>>)
    requires idx < |events| && Grouped(events, idx, order, groups)
    ensures var user := events[idx].user;
            Grouped(events, idx + 1, WithUser(order, user), groups[user := GroupOf(groups, user) + [idx]])
  {
    var user := events[idx].user;
    UsersOfPrefix(events, idx);
    var next := groups[user := GroupOf(groups, user) + [idx]];
    forall u
      ensures GroupOf(next, u) == Positions(events[..idx + 1], u)
    {
      PositionsOfPrefix(events, idx, u);
      assert GroupOf(groups, u) == Positions(events[..idx], u);
    }
  }

  /** `groups.setdefault(ev.user_id, []).append((idx, ev))` */
  method GroupByUser(events: seq<Event>) returns (order: seq<string>, groups: map<string, seq<nat>>)
    ensures order == Dedup(Users(events))
    ensures forall u :: u in groups <==> u in order
    ensures forall u :: u in groups ==> groups[u] == Positions(events, u)
  {
    order, groups := [], map[];
    for idx := 0 to |events|
      invariant Grouped(events, idx, order, groups)
    {
      OneMoreGrouped(events, idx, order, groups);
      var user := events[idx].user;
      order, groups := WithUser(order, user), groups[user := GroupOf(groups, user) + [idx]];
    }
    AllGrouped(events, order, groups);
  }

  lemma AllGrouped(events: seq<Event>, order: seq<string>, groups: map<string, seq<nat>>)
    requires Grouped(events, |events|, order, groups)
    ensures order == Dedup(Users(events))
    ensures forall u :: u in groups ==> groups[u] == Positions(events, u)
  {
    assert events[..|events|] == events;
    forall u | u in groups
      ensures groups[u] == Positions(events, u)
    {
      assert GroupOf(groups, u) == Positions(events[..|events|], u);
    }
  }

  /** Publish attempts of one user happen in input order, each event at most once. */
  predicate PerUserOrder(events: seq<Event>, log: seq<nat>) {
    && (forall p :: 0 <= p < |log| ==> log[p] < |events|)
    && (forall p, q :: 0 <= p < q < |log| && events[log[p]].user == events[log[q]].user ==> log[p] < log[q])
  }

  /** The events in `done` have their results, and those that were tried are in the publish log. */
  ghost predicate ResultsOk(events: seq<Event>, fates: Fates, done: set<nat>, results: map<nat, Result>,
                            log: seq<nat>) {
    && (forall i :: i in done ==> i < |events| && i in results && results[i] == Answer(events[i], fates.attempts(i)))
    && (forall i :: i in log <==> i in done && Tried(fates.attempts(i)))
  }

  /** Of this group exactly the first k events are done. */
  ghost predicate DoneUpTo(events: seq<Event>, u: string, group: seq<nat>, k: nat, done: set<nat>) {
    && group == Positions(events, u) && k <= |group|
    && (forall p :: 0 <= p < k ==> group[p] in done)
    && (forall i :: i in done && i < |events| && events[i].user == u ==> i in group[..k])
  }

  /** The groups while they run: `next[u]` events of user u are done. */
  ghost predicate Running(events: seq<Event>, groups: map<string, seq<nat>>, next: map<string, nat>, done: set<nat>,
                          log: seq<nat>)
  {
    && next.Keys == groups.Keys
    && (forall u :: u in groups ==> DoneUpTo(events, u, groups[u], next[u], done))
    && PerUserOrder(events, log)
    && (forall p :: 0 <= p < |log| ==> log[p] in done)
  }

  lemma GroupAfter(events: seq<Event>, v: string, group: seq<nat>, k: nat, done: set<nat>, i: nat)
    requires DoneUpTo(events, v, group, k, done) && i < |events|
    ensures events[i].user != v ==> DoneUpTo(events, v, group, k, done + {i})
    ensures k < |group| && group[k] == i ==> DoneUpTo(events, v, group, k + 1, done + {i})
  {
    if k < |group| && group[k] == i {
      assert group[..k + 1] == group[..k] + [i];
    }
  }

  lemma OneMoreDone(events: seq<Event>, groups: map<string, seq<nat>>, next: map<string, nat>, done: set<nat>,
                    log: seq<nat>, u: string, attempted: bool)
    requires Running(events, groups, next, done, log)
    requires u in groups && next[u] < |groups[u]|
    ensures var i := groups[u][next[u]];
            && i < |events| && events[i].user == u
            && Running(events, groups, next[u := next[u] + 1], done + {i}, if attempted then log + [i] else log)
  {
    var i := groups[u][next[u]];
    assert DoneUpTo(events, u, groups[u], next[u], done);
    PositionsExact(events, u);
    assert i in Positions(events, u);
    forall v | v in groups
      ensures DoneUpTo(events, v, groups[v], next[u := next[u] + 1][v], done + {i})
    {
      assert DoneUpTo(events, v, groups[v], next[v], done);
      GroupAfter(events, v, groups[v], next[v], done, i);
    }
    LogAfter(events, u, groups[u], next[u], done, log);
  }

  lemma LogAfter(events: seq<Event>, u: string, group: seq<nat>, k: nat, done: set<nat>, log: seq<nat>)
    requires DoneUpTo(events, u, group, k, done) && k < |group|
    requires group[k] < |events| && events[group[k]].user == u
    requires PerUserOrder(events, log) && forall p :: 0 <= p < |log| ==> log[p] in done
    ensures PerUserOrder(events, log + [group[k]])
  {
    LoggedBefore(events, u, group, k, done, log);
  }

  lemma LoggedBefore(events: seq<Event>, u: string, group: seq<nat>, k: nat, done: set<nat>, log: seq<nat>)
    requires DoneUpTo(events, u, group, k, done) && k < |group|
    requires forall p :: 0 <= p < |log| ==> log[p] < |events| && log[p] in done
    ensures forall p :: 0 <= p < |log| && events[log[p]].user == u ==> log[p] < group[k]
  {
    PositionsExact(events, u);
    forall p | 0 <= p < |log| && events[log[p]].user == u
      ensures log[p] < group[k]
    {
      assert log[p] in group[..k];
    }
  }

  /** `ingest_batch`, for any fates and any interleaving of the groups. */
  method IngestBatch(events: seq<Event>, fates: Fates) returns (response: seq<Result>, log: seq<nat>)
    ensures |response| == |events|
    ensures forall i :: 0 <= i < |events| ==> response[i] == Expected(events, fates, i)
    ensures forall i :: 0 <= i < |events| ==>
              (response[i].Accepted? <==> fates.attempts(i).Acked? && !Dropped(events, fates, i))
    ensures forall i :: 0 <= i < |events| ==>
              (response[i].Duplicate? <==> fates.attempts(i).FoundClaimed? && !Dropped(events, fates, i))
    ensures forall i :: 0 <= i < |events| ==> ResultFor(events[i], response[i])
    ensures forall i :: 0 <= i < |events| ==>
              (response[i].Accepted? ==> i in log) && (response[i].Duplicate? ==> i !in log)
    ensures PerUserOrder(events, log)
    ensures forall i: nat :: i in log <==> i < |events| && Reached(events, fates, i) && Tried(fates.attempts(i))
  {
    var order, groups := GroupByUser(events);
    DedupDistinct(Users(events));
    var results, failed;
    results, failed, log := RunGroups(events, fates, order, groups);
    var flat := Flatten(events, fates, order, groups, results, failed);
    AllAnswered(events, flat);
    response := SortByIndex(flat, |events|);
    forall i | 0 <= i < |events|
      ensures response[i] == Expected(events, fates, i)
    {
      var p :| 0 <= p < |flat| && flat[p] == Entry(i, response[i]);
      assert AsExpected(events, fates, flat[p]);
    }
    ResponseIsSound(events, fates, response, log);
  }

  lemma ResponseIsSound(events: seq<Event>, fates: Fates, response: seq<Result>, log: seq<nat>)
    requires |response| == |events| && forall i :: 0 <= i < |events| ==> response[i] == Expected(events, fates, i)
    requires forall i: nat :: i in log <==> i < |events| && Reached(events, fates, i) && Tried(fates.attempts(i))
    ensures forall i :: 0 <= i < |events| ==>
              (response[i].Accepted? <==> fates.attempts(i).Acked? && !Dropped(events, fates, i))
    ensures forall i :: 0 <= i < |events| ==>
              (response[i].Duplicate? <==> fates.attempts(i).FoundClaimed? && !Dropped(events, fates, i))
    ensures forall i :: 0 <= i < |events| ==> ResultFor(events[i], response[i])
    ensures forall i :: 0 <= i < |events| ==>
              (response[i].Accepted? ==> i in log) && (response[i].Duplicate? ==> i !in log)
  {
    forall i | 0 <= i < |events|
      ensures response[i].Accepted? <==> fates.attempts(i).Acked? && !Dropped(events, fates, i)
      ensures response[i].Duplicate? <==> fates.attempts(i).FoundClaimed? && !Dropped(events, fates, i)
      ensures ResultFor(events[i], response[i])
      ensures (response[i].Accepted? ==> i in log) && (response[i].Duplicate? ==> i !in log)
    {
      ExpectedIsSound(events, fates, i);
    }
  }

  /** The group's events have their results. */
  ghost predicate GroupAnswered(events: seq<Event>, fates: Fates, group: seq<nat>, results: map<nat, Result>) {
    forall p :: 0 <= p < |group| ==>
      group[p] < |events| && group[p] in results
      && results[group[p]] == Answer(events[group[p]], fates.attempts(group[p]))
  }

  /** One more result leaves the others as they were. */
  lemma OneMoreResult(events: seq<Event>, fates: Fates, done: set<nat>, results: map<nat, Result>,
                      log: seq<nat>, i: nat)
    requires ResultsOk(events, fates, done, results, log) && i < |events|
    ensures ResultsOk(events, fates, done + {i}, results[i := Answer(events[i], fates.attempts(i))],
                      if Tried(fates.attempts(i)) then log + [i] else log)
  {
  }

  /** `asyncio.gather` over the groups, any interleaving of their steps. A group cut off while a call is in
      flight is the run in which that call ends and the group is cut off next: its results are dropped either way. */
  method RunGroups(events: seq<Event>, fates: Fates, order: seq<string>, groups: map<string, seq<nat>>)
    returns (results: map<nat, Result>, failed: set<string>, log: seq<nat>)
    requires Distinct(order) && forall u :: u in groups <==> u in order
    requires order == Dedup(Users(events))
    requires forall u :: u in groups ==> groups[u] == Positions(events, u)
    ensures forall u :: u in failed <==> u in groups && CutOff(fates, u, |groups[u]|)
    ensures forall u :: u in groups && u !in failed ==> GroupAnswered(events, fates, groups[u], results)
    ensures PerUserOrder(events, log)
    ensures forall i: nat :: i in log <==> i < |events| && Reached(events, fates, i) && Tried(fates.attempts(i))
  {
    var next: map<string, nat> := map u | u in groups :: 0;
    results, failed, log := map[], {}, [];
    ghost var done: set<nat> := {};
    var todo := groups.Keys;
    NothingDone(events, groups, next);
    while todo != {}
      invariant Running(events, groups, next, done, log)
      invariant ResultsOk(events, fates, done, results, log)
      invariant todo <= groups.Keys && Ended(fates, groups, next, todo)
      invariant forall u :: u in failed <==> u in groups && u !in todo && CutOff(fates, u, |groups[u]|)
      decreases Remaining(order, groups, next), todo
    {
      var u :| u in todo;
      if next[u] < End(fates, u, |groups[u]|) {
        ghost var before := next;
        results, next, log, done := RunOne(events, fates, groups, results, next, log, done, u);
        RemainingShrinks(order, groups, before, u);
        StillEnded(fates, groups, before, todo, u);
      } else {
        OneMoreEnded(fates, groups, next, todo, u);
        failed := if CutOff(fates, u, |groups[u]|) then failed + {u} else failed;
        todo := todo - {u};
      }
    }
    GroupsAreAnswered(events, fates, groups, next, done, results, log);
    LogIsExact(events, fates, groups, next, done, log);
  }

  /** The groups behind us ran to their end, the others not past it. */
  ghost predicate Ended(fates: Fates, groups: map<string, seq<nat>>, next: map<string, nat>, todo: set<string>) {
    forall u :: u in groups ==>
      && u in next && next[u] <= End(fates, u, |groups[u]|)
      && (u !in todo ==> next[u] == End(fates, u, |groups[u]|))
  }

  lemma StillEnded(fates: Fates, groups: map<string, seq<nat>>, next: map<string, nat>, todo: set<string>, u: string)
    requires Ended(fates, groups, next, todo) && u in todo && u in groups && next[u] < End(fates, u, |groups[u]|)
    ensures Ended(fates, groups, next[u := next[u] + 1], todo)
  {
  }

  lemma OneMoreEnded(fates: Fates, groups: map<string, seq<nat>>, next: map<string, nat>, todo: set<string>, u: string)
    requires Ended(fates, groups, next, todo) && u in groups && next[u] >= End(fates, u, |groups[u]|)
    ensures Ended(fates, groups, next, todo - {u})
  {
  }

  lemma NothingDone(events: seq<Event>, groups: map<string, seq<nat>>, next: map<string, nat>)
    requires forall u :: u in groups ==> groups[u] == Positions(events, u)
    requires next.Keys == groups.Keys && forall u :: u in next ==> next[u] == 0
    ensures Running(events, groups, next, {}, [])
  {
    forall u | u in groups
      ensures DoneUpTo(events, u, groups[u], next[u], {})
    {
    }
  }

  lemma GroupsAreAnswered(events: seq<Event>, fates: Fates, groups: map<string, seq<nat>>, next: map<string, nat>,
                          done: set<nat>, results: map<nat, Result>, log: seq<nat>)
    requires Running(events, groups, next, done, log) && ResultsOk(events, fates, done, results, log)
    requires Ended(fates, groups, next, {})
    ensures forall u :: u in groups && !CutOff(fates, u, |groups[u]|) ==>
              GroupAnswered(events, fates, groups[u], results)
  {
    forall u | u in groups && !CutOff(fates, u, |groups[u]|)
      ensures GroupAnswered(events, fates, groups[u], results)
    {
      assert DoneUpTo(events, u, groups[u], next[u], done);
    }
  }

  /** In the end exactly the events that got their turn are done. */
  lemma LogIsExact(events: seq<Event>, fates: Fates, groups: map<string, seq<nat>>, next: map<string, nat>,
                   done: set<nat>, log: seq<nat>)
    requires Running(events, groups, next, done, log) && Ended(fates, groups, next, {})
    requires forall u :: u in groups <==> u in Dedup(Users(events))
    requires forall i :: i in done ==> i < |events|
    ensures forall i: nat :: i in done <==> i < |events| && Reached(events, fates, i)
  {
    DedupDistinct(Users(events));
    forall i: nat | i < |events|
      ensures i in done <==> Reached(events, fates, i)
    {
      var u := events[i].user;
      assert Users(events)[i] == u;
      assert DoneUpTo(events, u, groups[u], next[u], done);
      RankOfPosition(events, i);
      InPrefixIff(events, i, next[u]);
    }
  }

  lemma InPrefixIff(events: seq<Event>, i: nat, k: nat)
    requires i < |events| && k <= |Positions(events, events[i].user)|
    ensures i in Positions(events, events[i].user)[..k] <==> |Positions(events[..i], events[i].user)| < k
  {
    var group, rank := Positions(events, events[i].user), |Positions(events[..i], events[i].user)|;
    RankOfPosition(events, i);
    PositionsExact(events, events[i].user);
    if rank < k {
      assert group[..k][rank] == i;
    }
    if p :| 0 <= p < k && group[p] == i {
      assert p == rank;
    }
  }

  /** One turn of a group's loop: its next event is processed and its result kept. */
  method RunOne(events: seq<Event>, fates: Fates, groups: map<string, seq<nat>>, results: map<nat, Result>,
                next: map<string, nat>, log: seq<nat>, ghost done: set<nat>, u: string)
    returns (results': map<nat, Result>, next': map<string, nat>, log': seq<nat>, ghost done': set<nat>)
    requires Running(events, groups, next, done, log) && ResultsOk(events, fates, done, results, log)
    requires u in groups && next[u] < |groups[u]|
    ensures Running(events, groups, next', done', log') && ResultsOk(events, fates, done', results', log')
    ensures next' == next[u := next[u] + 1]
  {
    var i := groups[u][next[u]];
    OneMoreDone(events, groups, next, done, log, u, Tried(fates.attempts(i)));
    OneMoreResult(events, fates, done, results, log, i);
    results' := results[i := Answer(events[i], fates.attempts(i))];
    log' := if Tried(fates.attempts(i)) then log + [i] else log;
    next' := next[u := next[u] + 1];
    done' := done + {i};
  }

  /** Events not yet done, over the groups in `order`. */
  function Remaining(order: seq<string>, groups: map<string, seq<nat>>, next: map<string, nat>): nat {
    if order == [] then 0
    else
      var u := order[|order| - 1];
      Remaining(order[..|order| - 1], groups, next) +
        if u in groups && u in next && next[u] <= |groups[u]| then |groups[u]| - next[u] else 0
  }

  lemma {:induction false} RemainingShrinks(order: seq<string>, groups: map<string, seq<nat>>,
                                            next: map<string, nat>, u: string)
    requires u in groups && u in next && next[u] < |groups[u]| && Distinct(order)
    ensures Remaining(order, groups, next[u := next[u] + 1]) ==
            Remaining(order, groups, next) - if u in order then 1 else 0
  {
    if order != [] {
      var init := order[..|order| - 1];
      RemainingShrinks(init, groups, next, u);
      assert order == init + [order[|order| - 1]];
    }
  }

  // ---------------------------------------------------------------- putting the answers back in order

  datatype Entry = Entry(index: nat, result: Result)

  function Indices(flat: seq<Entry>): (ids: seq<nat>)
    ensures |ids| == |flat|
    ensures forall p :: 0 <= p < |flat| ==> ids[p] == flat[p].index
  {
    seq(|flat|, p requires 0 <= p < |flat| => flat[p].index)
  }

  predicate AsExpected(events: seq<Event>, fates: Fates, entry: Entry) {
    entry.index < |events| && entry.result == Expected(events, fates, entry.index)
  }

  /** Each entry answers its event as expected, and no event is answered twice. */
  ghost predicate Answers(events: seq<Event>, fates: Fates, flat: seq<Entry>) {
    && Distinct(Indices(flat))
    && (forall p :: 0 <= p < |flat| ==> AsExpected(events, fates, flat[p]))
  }

  /** Exactly the events of the listed users are answered. */
  ghost predicate Covers(events: seq<Event>, flat: seq<Entry>, users: seq<string>) {
    forall i: nat :: i < |events| ==> (i in Indices(flat) <==> events[i].user in users)
  }

  /** `for group, (user_id, items) in zip(...)`: the group's results, or an error for each of its events. */
  method Flatten(events: seq<Event>, fates: Fates, order: seq<string>, groups: map<string, seq<nat>>,
                 results: map<nat, Result>, failed: set<string>) returns (flat: seq<Entry>)
    requires order == Dedup(Users(events)) && Distinct(order)
    requires forall u :: u in order ==> u in groups && groups[u] == Positions(events, u)
    requires forall u :: u in order ==> (u in failed <==> CutOff(fates, u, |groups[u]|))
    requires forall u :: u in order && u !in failed ==> GroupAnswered(events, fates, groups[u], results)
    ensures Answers(events, fates, flat) && Covers(events, flat, order)
  {
    flat := [];
    for k := 0 to |order|
      invariant Answers(events, fates, flat) && Covers(events, flat, order[..k])
    {
      var u := order[k];
      var group := GroupEntries(events, fates, u, groups[u], results, u in failed);
      assert u !in order[..k];
      GroupAdded(events, fates, flat, group, order[..k], u);
      flat := flat + group;
      assert order[..k + 1] == order[..k] + [u];
    }
    assert order[..|order|] == order;
  }

  method GroupEntries(events: seq<Event>, fates: Fates, u: string, items: seq<nat>,
                      results: map<nat, Result>, failed: bool)
    returns (entries: seq<Entry>)
    requires items == Positions(events, u) && (failed <==> CutOff(fates, u, |items|))
    requires !failed ==> GroupAnswered(events, fates, items, results)
    ensures Indices(entries) == items && Answers(events, fates, entries)
  {
    PositionsExact(events, u);
    entries := [];
    for p := 0 to |items|
      invariant |entries| == p
      invariant forall q :: 0 <= q < p ==>
                  entries[q].index == items[q] && AsExpected(events, fates, entries[q])
    {
      var i := items[p];
      assert i in items;
      entries := entries + [Entry(i, if failed then BatchError(events[i]) else results[i])];
    }
    assert Indices(entries) == items;
  }

  lemma GroupAdded(events: seq<Event>, fates: Fates, flat: seq<Entry>, group: seq<Entry>, users: seq<string>, u: string)
    requires Answers(events, fates, flat) && Covers(events, flat, users) && u !in users
    requires Answers(events, fates, group) && Indices(group) == Positions(events, u)
    ensures Answers(events, fates, flat + group) && Covers(events, flat + group, users + [u])
  {
    GroupIsNew(events, flat, group, users, u);
    IndicesStayDistinct(flat, group);
    GroupCovers(events, flat, group, users, u);
  }

  lemma IndicesStayDistinct(flat: seq<Entry>, group: seq<Entry>)
    requires Distinct(Indices(flat)) && Distinct(Indices(group))
    requires forall p, q :: 0 <= p < |flat| && 0 <= q < |group| ==> Indices(flat)[p] != Indices(group)[q]
    ensures Distinct(Indices(flat + group))
  {
    DistinctConcat(Indices(flat), Indices(group));
    assert Indices(flat + group) == Indices(flat) + Indices(group);
  }

  lemma GroupIsNew(events: seq<Event>, flat: seq<Entry>, group: seq<Entry>, users: seq<string>, u: string)
    requires Covers(events, flat, users) && u !in users
    requires Indices(group) == Positions(events, u)
    ensures forall p, q :: 0 <= p < |flat| && 0 <= q < |group| ==> Indices(flat)[p] != Indices(group)[q]
  {
    PositionsExact(events, u);
    forall p, q | 0 <= p < |flat| && 0 <= q < |group|
      ensures Indices(flat)[p] != Indices(group)[q]
    {
      assert Indices(flat)[p] in Indices(flat);
      assert Indices(group)[q] in Positions(events, u);
    }
  }

  lemma GroupCovers(events: seq<Event>, flat: seq<Entry>, group: seq<Entry>, users: seq<string>, u: string)
    requires Covers(events, flat, users)
    requires Indices(group) == Positions(events, u)
    ensures Covers(events, flat + group, users + [u])
  {
    PositionsExact(events, u);
    assert Indices(flat + group) == Indices(flat) + Indices(group);
    forall i: nat | i < |events|
      ensures i in Indices(flat + group) <==> events[i].user in users + [u]
    {
      assert i in Indices(flat) <==> events[i].user in users;
      assert i in Indices(group) <==> events[i].user == u;
    }
  }

  lemma DistinctConcat<T>(a: seq<T>, b: seq<T>)
    requires Distinct(a) && Distinct(b)
    requires forall p, q :: 0 <= p < |a| && 0 <= q < |b| ==> a[p] != b[q]
    ensures Distinct(a + b)
  {
  }

  function UpTo(n: nat): (s: seq<nat>)
    ensures |s| == n && forall i :: 0 <= i < n ==> s[i] == i
  {
    seq(n, i => i)
  }

  lemma AllAnswered(events: seq<Event>, flat: seq<Entry>)
    requires Distinct(Indices(flat)) && Covers(events, flat, Dedup(Users(events)))
    requires forall p :: 0 <= p < |flat| ==> flat[p].index < |events|
    ensures |flat| == |events|
  {
    DedupDistinct(Users(events));
    forall i: nat
      ensures i in Indices(flat) <==> i in UpTo(|events|)
    {
      if i < |events| {
        assert Users(events)[i] == events[i].user;
        assert UpTo(|events|)[i] == i;
      }
    }
    SameMembersSameLength(Indices(flat), UpTo(|events|));
  }

  lemma {:induction false} IncreasingIsIdentity(s: seq<nat>, p: nat)
    requires forall q :: 0 <= q < |s| ==> s[q] < |s|
    requires forall q, r :: 0 <= q < r < |s| ==> s[q] < s[r]
    requires p < |s|
    ensures s[p] >= p
    decreases p
  {
    if p > 0 {
      IncreasingIsIdentity(s, p - 1);
    }
  }

  lemma {:induction false} IncreasingFromAbove(s: seq<nat>, p: nat)
    requires forall q :: 0 <= q < |s| ==> s[q] < |s|
    requires forall q, r :: 0 <= q < r < |s| ==> s[q] < s[r]
    requires p < |s|
    ensures s[p] <= p
    decreases |s| - p
  {
    if p + 1 < |s| {
      IncreasingFromAbove(s, p + 1);
    }
  }

  /** `flat.sort(key=lambda p: p[0])`, then the results alone. */
  method SortByIndex(flat: seq<Entry>, n: nat) returns (response: seq<Result>)
    requires |flat| == n && Distinct(Indices(flat))
    requires forall p :: 0 <= p < |flat| ==> flat[p].index < n
    ensures |response| == n
    ensures forall i :: 0 <= i < n ==> Entry(i, response[i]) in flat
  {
    var keys := seq(|flat|, p requires 0 <= p < |flat| => flat[p].index as real);
    var ord := SortedIndices(keys);
    SortedIndicesCorrect(keys);
    response := seq(n, p requires 0 <= p < n && ord[p] < n => flat[ord[p]].result);
    ghost var sorted := seq(n, p requires 0 <= p < n && ord[p] < n => flat[ord[p]].index);
    forall q, r | 0 <= q < r < n
      ensures sorted[q] < sorted[r]
    {
      assert Before(keys, ord[q], ord[r]);
      assert Indices(flat)[ord[q]] != Indices(flat)[ord[r]];
    }
    forall i | 0 <= i < n
      ensures Entry(i, response[i]) in flat
    {
      IncreasingIsIdentity(sorted, i);
      IncreasingFromAbove(sorted, i);
      assert flat[ord[i]] == Entry(i, response[i]);
    }
  }
}
