/** LLM re-ranking of the hybrid list (src/click_rec/llm/re_ranker.py) and its use by the search
    route (src/click_rec/api/routers/search.py). The LLM's parsed answer is an arbitrary list. */
module Reranker {
  import opened Lists
  import opened StableSort

  datatype Ranked = Ranked(id: string, score: real, rationale: Option<string>)
  datatype Pick = Pick(id: string, rank: nat, rationale: string)

  function Ids(items: seq<Ranked>): (ids: seq<string>)
    ensures |ids| == |items|
    ensures forall i :: 0 <= i < |items| ==> ids[i] == items[i].id
  {
    seq(|items|, i requires 0 <= i < |items| => items[i].id)
  }

  function Ranks(picks: seq<Pick>): seq<real> {
    seq(|picks|, i requires 0 <= i < |picks| => picks[i].rank as real)
  }

  /** Pick a is walked before pick b: the better, that is the smaller, rank first, and the earlier one of equals. */
  predicate Outranks(picks: seq<Pick>, a: nat, b: nat) {
    && a < |picks| && b < |picks|
    && (picks[a].rank < picks[b].rank || (picks[a].rank == picks[b].rank && a < b))
  }

  /** Pick b is the one that places `id`: lowest rank, and first among equals. */
  ghost predicate Places(picks: seq<Pick>, b: nat, id: string) {
    && b < |picks| && picks[b].id == id
    && forall q: nat :: q < |picks| && picks[q].id == id && q != b ==> Outranks(picks, b, q)
  }

  predicate Mentioned(picks: seq<Pick>, id: string) {
    exists b :: 0 <= b < |picks| && picks[b].id == id
  }

  /** The candidates the LLM did not mention, in their original order. */
  function Unmentioned(cands: seq<Ranked>, picks: seq<Pick>): seq<Ranked> {
    if cands == [] then []
    else
      var init, c := Unmentioned(cands[..|cands| - 1], picks), cands[|cands| - 1];
      if Mentioned(picks, c.id) then init else init + [c]
  }

  /** out[j] is the candidate placed by pick b, with that pick's rationale and nothing else changed. */
  ghost predicate IsPlaced(r: Ranked, cands: seq<Ranked>, picks: seq<Pick>, b: nat) {
    && Places(picks, b, r.id)
    && r.rationale == Some(picks[b].rationale)
    && exists i :: 0 <= i < |cands| && r == cands[i].(rationale := r.rationale)
  }

  /** The first k entries are the picked candidates in the order of the picks that place them, each with
      its rationale; the rest are the unmentioned ones, untouched and in their original order. */
  ghost predicate IsReordered(cands: seq<Ranked>, picks: seq<Pick>, out: seq<Ranked>, k: nat, src: seq<nat>) {
    && k <= |out| && |src| == k
    && (forall j :: 0 <= j < k ==> IsPlaced(out[j], cands, picks, src[j]))
    && (forall i, j :: 0 <= i < j < k ==> Outranks(picks, src[i], src[j]))
    && out[k..] == Unmentioned(cands, picks)
  }

  /** `_reorder`. Unknown ids are dropped, repeats keep their best placement, omissions keep their order. */
  method Reorder(cands: seq<Ranked>, picks: seq<Pick>) returns (out: seq<Ranked>, ghost k: nat, ghost src: seq<nat>)
    requires Distinct(Ids(cands))
    ensures IsReordered(cands, picks, out, k, src)
    ensures Distinct(Ids(out)) && |out| == |cands|
    ensures forall id :: id in Ids(out) <==> id in Ids(cands)
  {
    var byId := IndexById(cands);
    var head, seen;
    head, seen, src := PlacePicks(byId, picks);
    k := |head|;
    PlacedAreCandidates(cands, byId, picks, head, src);
    IdsOfHead(cands, byId, picks, head, seen);
    PlacedOnce(byId, picks, head, src);
    PermutationOfCandidates(cands, picks, head);
    out := PadWithOmitted(cands, picks, head, seen);
    assert out[..k] == head && out[k..] == Unmentioned(cands, picks);
    assert forall j :: 0 <= j < k ==> out[j] == out[..k][j];
  }

  /** out[j] is a copy of the candidate of its id with the rationale of pick src[j]. */
  ghost predicate PlacedBy(byId: map<string, Ranked>, picks: seq<Pick>, r: Ranked, b: nat) {
    && Places(picks, b, r.id)
    && r.id in byId && r == byId[r.id].(rationale := Some(picks[b].rationale))
  }

  /** The first loop: walk the picks by rank, place each known id once. */
  method PlacePicks(byId: map<string, Ranked>, picks: seq<Pick>)
    returns (out: seq<Ranked>, seen: set<string>, ghost src: seq<nat>)
    requires forall id :: id in byId ==> byId[id].id == id
    ensures |src| == |out|
    ensures forall j :: 0 <= j < |out| ==> PlacedBy(byId, picks, out[j], src[j])
    ensures forall i, j :: 0 <= i < j < |out| ==> Outranks(picks, src[i], src[j])
    ensures forall id :: id in seen <==> id in byId && Mentioned(picks, id)
    ensures forall id :: id in seen <==> exists j :: 0 <= j < |out| && out[j].id == id
  {
    var ord := SortedIndices(Ranks(picks));
    SortedIndicesCorrect(Ranks(picks));
    out, seen, src := [], {}, [];
    for p := 0 to |ord|
      invariant Walked(byId, picks, ord, p, out, seen, src)
    {
      var pick := picks[ord[p]];
      WalkOn(byId, picks, ord, p, out, seen, src);
      if pick.id in byId && pick.id !in seen {
        out := out + [byId[pick.id].(rationale := Some(pick.rationale))];
        src := src + [ord[p]];
        seen := seen + {pick.id};
      }
    }
    WalkedAll(byId, picks, ord, out, seen, src);
  }

  function IdSet(items: seq<Ranked>): set<string> {
    set r | r in items :: r.id
  }

  /** The known ids among the first p picks by rank. */
  function KnownSoFar(byId: map<string, Ranked>, picks: seq<Pick>, ord: seq<nat>, p: nat): set<string>
    requires p <= |ord| && forall q :: 0 <= q < |ord| ==> ord[q] < |picks|
  {
    set q | 0 <= q < p && picks[ord[q]].id in byId :: picks[ord[q]].id
  }

  /** What holds after the first p picks by rank. */
  ghost predicate Walked(byId: map<string, Ranked>, picks: seq<Pick>, ord: seq<nat>, p: nat,
                         out: seq<Ranked>, seen: set<string>, src: seq<nat>)
    requires IsStableOrder(Ranks(picks), ord) && p <= |ord|
  {
    && |src| == |out|
    && (forall j :: 0 <= j < |out| ==> PlacedBy(byId, picks, out[j], src[j]))
    && (forall i, j :: 0 <= i < j < |out| ==> Outranks(picks, src[i], src[j]))
    && (p < |ord| ==> forall j :: 0 <= j < |out| ==> Outranks(picks, src[j], ord[p]))
    && seen == KnownSoFar(byId, picks, ord, p) == IdSet(out)
  }

  lemma WalkOn(byId: map<string, Ranked>, picks: seq<Pick>, ord: seq<nat>, p: nat,
               out: seq<Ranked>, seen: set<string>, src: seq<nat>)
    requires forall id :: id in byId ==> byId[id].id == id
    requires IsStableOrder(Ranks(picks), ord) && p < |ord| && Walked(byId, picks, ord, p, out, seen, src)
    ensures var pick := picks[ord[p]];
            if pick.id in byId && pick.id !in seen
            then Walked(byId, picks, ord, p + 1, out + [byId[pick.id].(rationale := Some(pick.rationale))],
                        seen + {pick.id}, src + [ord[p]])
            else Walked(byId, picks, ord, p + 1, out, seen, src)
  {
    var pick := picks[ord[p]];
    assert KnownSoFar(byId, picks, ord, p + 1) ==
           KnownSoFar(byId, picks, ord, p) + if pick.id in byId then {pick.id} else {};
    assert p + 1 < |ord| ==> Outranks(picks, ord[p], ord[p + 1]);
    if pick.id in byId && pick.id !in seen {
      forall q | 0 <= q < p
        ensures picks[ord[q]].id != pick.id
      {
        assert picks[ord[q]].id in byId ==> picks[ord[q]].id in KnownSoFar(byId, picks, ord, p);
      }
      FirstInOrderPlaces(picks, ord, p);
      var placed := byId[pick.id].(rationale := Some(pick.rationale));
      IdSetGrows(out, placed);
    }
  }

  lemma IdSetGrows(out: seq<Ranked>, r: Ranked)
    ensures IdSet(out + [r]) == IdSet(out) + {r.id}
  {
    assert forall x :: x in out + [r] <==> x in out || x == r;
  }

  lemma WalkedAll(byId: map<string, Ranked>, picks: seq<Pick>, ord: seq<nat>,
                  out: seq<Ranked>, seen: set<string>, src: seq<nat>)
    requires IsStableOrder(Ranks(picks), ord) && Walked(byId, picks, ord, |ord|, out, seen, src)
    ensures forall id :: id in seen <==> id in byId && Mentioned(picks, id)
    ensures forall id :: id in seen <==> exists j :: 0 <= j < |out| && out[j].id == id
  {
    forall id | id in byId && Mentioned(picks, id)
      ensures id in seen
    {
      var b :| 0 <= b < |picks| && picks[b].id == id;
      assert b in ord;
      var q :| 0 <= q < |ord| && ord[q] == b;
      assert picks[ord[q]].id in KnownSoFar(byId, picks, ord, |ord|);
    }
    forall id | id in seen
      ensures exists j :: 0 <= j < |out| && out[j].id == id
    {
      var r :| r in out && r.id == id;
    }
  }

  /** The second loop: append the candidates not seen so far. */
  method PadWithOmitted(cands: seq<Ranked>, picks: seq<Pick>, head: seq<Ranked>, placed: set<string>)
    returns (out: seq<Ranked>)
    requires Distinct(Ids(cands))
    requires forall id :: id in placed <==> id in Ids(cands) && Mentioned(picks, id)
    ensures out == head + Unmentioned(cands, picks)
  {
    out := head;
    var seen := placed;
    for i := 0 to |cands|
      invariant out == head + Unmentioned(cands[..i], picks)
      invariant forall j :: i <= j < |cands| ==> (cands[j].id in seen <==> cands[j].id in placed)
    {
      assert cands[..i + 1][..i] == cands[..i];
      assert Ids(cands)[i] == cands[i].id;
      assert forall j :: i < j < |cands| ==> Ids(cands)[i] != Ids(cands)[j];
      if cands[i].id !in seen {
        out := out + [cands[i]];
        seen := seen + {cands[i].id};
      }
    }
    assert cands[..|cands|] == cands;
  }

  lemma PlacedAreCandidates(cands: seq<Ranked>, byId: map<string, Ranked>, picks: seq<Pick>,
                            head: seq<Ranked>, src: seq<nat>)
    requires |src| == |head|
    requires forall id :: id in byId ==> byId[id] in cands
    requires forall j :: 0 <= j < |head| ==> PlacedBy(byId, picks, head[j], src[j])
    ensures forall j :: 0 <= j < |head| ==> IsPlaced(head[j], cands, picks, src[j])
  {
    forall j | 0 <= j < |head|
      ensures IsPlaced(head[j], cands, picks, src[j])
    {
      var c := byId[head[j].id];
      assert c in cands;
      var i :| 0 <= i < |cands| && cands[i] == c;
      assert head[j] == cands[i].(rationale := head[j].rationale);
    }
  }

  /** Two entries of one id would be placed by the same pick, but the placing picks are strictly ordered. */
  lemma PlacedOnce(byId: map<string, Ranked>, picks: seq<Pick>, head: seq<Ranked>, src: seq<nat>)
    requires |src| == |head|
    requires forall j :: 0 <= j < |head| ==> PlacedBy(byId, picks, head[j], src[j])
    requires forall i, j :: 0 <= i < j < |head| ==> Outranks(picks, src[i], src[j])
    ensures Distinct(Ids(head))
  {
    forall i, j | 0 <= i < j < |head|
      ensures head[i].id != head[j].id
    {
      assert Outranks(picks, src[i], src[j]);
      assert PlacedBy(byId, picks, head[i], src[i]) && PlacedBy(byId, picks, head[j], src[j]);
    }
  }

  lemma IdsOfHead(cands: seq<Ranked>, byId: map<string, Ranked>, picks: seq<Pick>, head: seq<Ranked>, seen: set<string>)
    requires forall id :: id in byId <==> id in Ids(cands)
    requires forall id :: id in seen <==> id in byId && Mentioned(picks, id)
    requires forall id :: id in seen <==> exists j :: 0 <= j < |head| && head[j].id == id
    ensures forall id :: id in Ids(head) <==> id in Ids(cands) && Mentioned(picks, id)
  {
    forall id
      ensures id in Ids(head) <==> id in seen
    {
      if id in seen {
        var j :| 0 <= j < |head| && head[j].id == id;
        assert Ids(head)[j] == id;
      }
    }
  }

  /** `{c.item.id: c for c in candidates}` */
  method IndexById(cands: seq<Ranked>) returns (byId: map<string, Ranked>)
    requires Distinct(Ids(cands))
    ensures forall id :: id in byId <==> id in Ids(cands)
    ensures forall id :: id in byId ==> byId[id] in cands && byId[id].id == id
  {
    byId := map[];
    for i := 0 to |cands|
      invariant forall id :: id in byId <==> id in Ids(cands)[..i]
      invariant forall id :: id in byId ==> byId[id] in cands && byId[id].id == id
    {
      byId := byId[cands[i].id := cands[i]];
      assert Ids(cands)[..i + 1] == Ids(cands)[..i] + [cands[i].id];
    }
    assert Ids(cands)[..|cands|] == Ids(cands);
  }

  lemma FirstInOrderPlaces(picks: seq<Pick>, ord: seq<nat>, p: nat)
    requires IsStableOrder(Ranks(picks), ord) && p < |ord|
    requires forall q :: 0 <= q < p ==> picks[ord[q]].id != picks[ord[p]].id
    ensures Places(picks, ord[p], picks[ord[p]].id)
  {
    forall b: nat | b < |picks| && picks[b].id == picks[ord[p]].id && b != ord[p]
      ensures Outranks(picks, ord[p], b)
    {
      assert b in ord;
      var q :| 0 <= q < |ord| && ord[q] == b;
    }
  }

  lemma {:induction false} UnmentionedExact(cands: seq<Ranked>, picks: seq<Pick>)
    requires Distinct(Ids(cands))
    ensures forall r :: r in Unmentioned(cands, picks) <==> r in cands && !Mentioned(picks, r.id)
    ensures Distinct(Ids(Unmentioned(cands, picks)))
  {
    if cands != [] {
      var rest, c := cands[..|cands| - 1], cands[|cands| - 1];
      assert cands == rest + [c];
      assert Ids(rest) == Ids(cands)[..|cands| - 1];
      assert Distinct(Ids(rest)) by {
        assert forall i, j :: 0 <= i < j < |rest| ==> Ids(cands)[i] != Ids(cands)[j];
      }
      UnmentionedExact(rest, picks);
      LastIsNew(cands, Unmentioned(rest, picks));
    }
  }

  lemma LastIsNew(cands: seq<Ranked>, some: seq<Ranked>)
    requires cands != [] && Distinct(Ids(cands))
    requires forall r :: r in some ==> r in cands[..|cands| - 1]
    ensures forall j :: 0 <= j < |some| ==> some[j].id != cands[|cands| - 1].id
  {
    var n := |cands| - 1;
    forall j | 0 <= j < |some|
      ensures some[j].id != cands[n].id
    {
      assert some[j] in some;
      var i :| 0 <= i < n && cands[..n][i] == some[j];
      assert Ids(cands)[i] != Ids(cands)[n];
    }
  }

  /** The output is a permutation of the candidates. */
  lemma PermutationOfCandidates(cands: seq<Ranked>, picks: seq<Pick>, head: seq<Ranked>)
    requires Distinct(Ids(cands)) && Distinct(Ids(head))
    requires forall id :: id in Ids(head) <==> id in Ids(cands) && Mentioned(picks, id)
    ensures var out := head + Unmentioned(cands, picks);
            && Distinct(Ids(out)) && |out| == |cands|
            && forall id :: id in Ids(out) <==> id in Ids(cands)
  {
    var tail := Unmentioned(cands, picks);
    var out := head + tail;
    UnmentionedExact(cands, picks);
    assert Ids(out) == Ids(head) + Ids(tail);
    forall id
      ensures id in Ids(tail) <==> id in Ids(cands) && !Mentioned(picks, id)
    {
      if id in Ids(tail) {
        var j :| 0 <= j < |tail| && Ids(tail)[j] == id;
        assert tail[j] in cands;
        var i :| 0 <= i < |cands| && cands[i] == tail[j];
        assert Ids(cands)[i] == id;
      }
      if id in Ids(cands) && !Mentioned(picks, id) {
        var i :| 0 <= i < |cands| && Ids(cands)[i] == id;
        assert cands[i] in tail;
        var j :| 0 <= j < |tail| && tail[j] == cands[i];
        assert Ids(tail)[j] == id;
      }
    }
    SameMembersSameLength(Ids(out), Ids(cands));
  }

  // ---------------------------------------------------------------- the callers

  lemma HeadOfDistinct(cands: seq<Ranked>, k: nat)
    requires Distinct(Ids(cands))
    ensures Ids(Head(cands, k)) == Head(Ids(cands), k)
    ensures Distinct(Ids(Head(cands, k)))
    ensures forall id :: id in Ids(Head(cands, k)) ==> id in Ids(cands)
  {
  }

  /** `rerank_top_k`: the first `inputK` candidates, reordered; nothing when there are none or the LLM failed. */
  method RerankTopK(cands: seq<Ranked>, inputK: nat, answer: Option<seq<Pick>>) returns (r: Option<seq<Ranked>>)
    requires Distinct(Ids(cands))
    ensures r.Some? <==> cands != [] && answer.Some?
    ensures r.Some? ==> |r.value| == |Head(cands, inputK)| && Distinct(Ids(r.value))
    ensures r.Some? ==> forall id :: id in Ids(r.value) <==> id in Ids(Head(cands, inputK))
    ensures r.Some? ==> exists k, src :: IsReordered(Head(cands, inputK), answer.value, r.value, k, src)
  {
    if cands == [] || answer == None {
      return None;
    }
    HeadOfDistinct(cands, inputK);
    var out, k, src := Reorder(Head(cands, inputK), answer.value);
    return Some(out);
  }

  /** The tail of the search route: `(reranked or hybrid)[:limit]`. An empty list counts as no answer. After a
      re-ranking the page is the head of the re-ordered list `full`, whose first k entries were picked by `src`. */
  method SearchResponse(hybrid: seq<Ranked>, useLlm: bool, inputK: nat, answer: Option<seq<Pick>>, limit: nat)
    returns (response: seq<Ranked>, ghost full: seq<Ranked>, ghost k: nat, ghost src: seq<nat>)
    requires Distinct(Ids(hybrid))
    ensures useLlm && answer.Some? && inputK > 0 && hybrid != [] ==>
              IsReordered(Head(hybrid, inputK), answer.value, full, k, src) && response == Head(full, limit)
    ensures Distinct(Ids(response))
    ensures forall id :: id in Ids(response) ==> id in Ids(hybrid)
    ensures !useLlm || answer == None || inputK == 0 ==> response == Head(hybrid, limit)
    ensures |response| == if useLlm && answer.Some? && inputK > 0 then Min(Min(|hybrid|, inputK), limit)
                          else Min(|hybrid|, limit)
    // A full page comes back exactly when no re-ranking happened, or when the page or the hybrid list
    // fits into the re-ranker's input; otherwise re-ranking silently shortens the page.
    ensures |response| == Min(|hybrid|, limit) <==>
            !useLlm || answer == None || inputK == 0 || limit <= inputK || |hybrid| <= inputK
  {
    if !useLlm || hybrid == [] {
      HeadOfDistinct(hybrid, limit);
      return Head(hybrid, limit), [], 0, [];
    }
    var reranked := RerankTopK(hybrid, inputK, answer);
    HeadOfDistinct(hybrid, inputK);
    var chosen := if reranked.Some? && reranked.value != [] then reranked.value else hybrid;
    assert |chosen| == if answer.Some? && inputK > 0 then Min(|hybrid|, inputK) else |hybrid|;
    HeadOfDistinct(chosen, limit);
    response := Head(chosen, limit);
    full, k, src := chosen, 0, [];
    if answer.Some? && inputK > 0 {
      k, src :| IsReordered(Head(hybrid, inputK), answer.value, chosen, k, src);
    }
  }

  function Min(a: nat, b: nat): nat {
    if a < b then a else b
  }
}
