/**
 * The per-request layer of weighted ranking: finalizeRankedIDs in
 * internal/graphqlapi/schema.go adds viewer boosts to cached base scores, orders
 * the candidates and cuts out one page.
 */
module RankFinalize {
  import opened Sorting
  import opened Events

  datatype Boost = Boost(pubkeys: set<string>, weight: real)
  datatype Ranked = Ranked(event: Event, score: real)

  function BoostSum(boosts: seq<Boost>, pubkey: string): real {
    if boosts == [] then 0.0
    else
      var last := boosts[|boosts| - 1];
      BoostSum(boosts[..|boosts| - 1], pubkey) + if pubkey in last.pubkeys then last.weight else 0.0
  }

  /** What is known about one request, apart from the page: scores, boosts and the jitter of each id. */
  datatype Request = Request(base: map<string, real>, boosts: seq<Boost>, jitter: string -> real)

  predicate Ahead(r: Request, a: Ranked, b: Ranked) {
    var scoreA, scoreB := a.score + r.jitter(a.event.id), b.score + r.jitter(b.event.id);
    if scoreA != scoreB then scoreA > scoreB else Newer(a.event, b.event)
  }

  function Order(r: Request): (Ranked, Ranked) -> bool {
    (a, b) => Ahead(r, a, b)
  }

  /** The entry a scored candidate gets in the ranking. */
  function Entry(r: Request, e: Event): Ranked
    requires e.id in r.base
  {
    Ranked(e, r.base[e.id] + BoostSum(r.boosts, e.pubkey))
  }

  /** What a ranking contains: one entry for each candidate that has a base score. */
  ghost function Entries(r: Request, candidates: set<Event>): set<Ranked> {
    set e | e in candidates && e.id in r.base :: Entry(r, e)
  }

  function Ids(ranked: seq<Ranked>): (ids: seq<string>)
    ensures |ids| == |ranked| && forall i :: 0 <= i < |ids| ==> ids[i] == ranked[i].event.id
  {
    seq(|ranked|, i requires 0 <= i < |ranked| => ranked[i].event.id)
  }

  /** A complete ranking of the candidates, best first. */
  ghost predicate IsRanking(r: Request, candidates: set<Event>, full: seq<Ranked>) {
    SortedBy(Order(r), full) && Elements(full) == Entries(r, candidates)
  }

  function Page<T>(s: seq<T>, offset: int, limit: int): seq<T> {
    if limit <= 0 then []
    else
      var from := if offset < 0 then 0 else offset;
      if from >= |s| then [] else Take(s[from..], limit)
  }

  method FinalizeRankedIDs(candidates: seq<Event>, r: Request, offset: int, limit: int)
    returns (out: seq<string>)
    requires IdsDetermine(Elements(candidates))
    ensures exists full :: IsRanking(r, Elements(candidates), full) && out == Page(Ids(full), offset, limit)
  {
    var ranked: seq<Ranked> := [];
    var added: set<string> := {};
    for i := 0 to |candidates|
      invariant forall id :: id in added <==> exists e :: e in candidates[..i] && e.id == id && id in r.base
      invariant forall x :: x in ranked <==> x in Entries(r, Elements(candidates[..i]))
      invariant Distinct(ranked)
    {
      var candidate := candidates[i];
      assert candidates[..i + 1] == candidates[..i] + [candidate];
      assert Elements(candidates[..i + 1]) == Elements(candidates[..i]) + {candidate};
      if candidate.id in r.base {
        var score := r.base[candidate.id];
        for j := 0 to |r.boosts|
          invariant score == r.base[candidate.id] + BoostSum(r.boosts[..j], candidate.pubkey)
        {
          assert r.boosts[..j + 1][..j] == r.boosts[..j];
          if candidate.pubkey in r.boosts[j].pubkeys {
            score := score + r.boosts[j].weight;
          }
        }
        assert r.boosts[..|r.boosts|] == r.boosts;
        var entry := Ranked(candidate, score);
        assert entry == Entry(r, candidate);
        if candidate.id !in added {
          forall x | x in ranked ensures x != entry {
            assert x.event in candidates[..i];
          }
          AppendDistinct(ranked, entry);
          added := added + {candidate.id};
          ranked := ranked + [entry];
        } else {
          var e :| e in candidates[..i] && e.id == candidate.id;
          assert e in Elements(candidates) && candidate in Elements(candidates);
          assert e in Elements(candidates[..i]);
        }
      }
    }
    assert candidates[..|candidates|] == candidates;
    assert Elements(ranked) == Entries(r, Elements(candidates));
    AheadOrders(r, Elements(candidates));
    SortSorts(Order(r), ranked);
    ghost var full := Sort(Order(r), ranked);
    assert IsRanking(r, Elements(candidates), full);
    var sorted := Sort(Order(r), ranked);
    out := [];
    if limit <= 0 {
      return;
    }
    var from := if offset < 0 then 0 else offset;
    if from >= |sorted| {
      return;
    }
    sorted := sorted[from..];
    if |sorted| > limit {
      sorted := sorted[..limit];
    }
    out := Ids(sorted);
  }

  lemma AheadOrders(r: Request, candidates: set<Event>)
    requires IdsDetermine(candidates)
    ensures Orders(Order(r), Entries(r, candidates))
  {
    NewerOrders(candidates);
  }

  /** The ranking is canonical: it depends on the set of candidates only, never on their order. */
  lemma RankingIsCanonical(r: Request, candidates: set<Event>, a: seq<Ranked>, b: seq<Ranked>)
    requires IdsDetermine(candidates) && IsRanking(r, candidates, a) && IsRanking(r, candidates, b)
    ensures a == b
  {
    AheadOrders(r, candidates);
    SortedUnique(Order(r), a, b, Entries(r, candidates));
  }

  /** A ranking lists every scored candidate id exactly once. */
  lemma RankingListsEachIdOnce(r: Request, candidates: set<Event>, full: seq<Ranked>)
    requires IdsDetermine(candidates) && IsRanking(r, candidates, full)
    ensures Distinct(Ids(full))
    ensures forall id :: id in Ids(full) <==> id in r.base && exists e :: e in candidates && e.id == id
  {
    var dom := Entries(r, candidates);
    AheadOrders(r, candidates);
    SortedIsDistinct(Order(r), full, dom);
    forall i, j | 0 <= i < j < |full| ensures full[i].event.id != full[j].event.id {
      assert full[i] in Elements(full) && full[j] in Elements(full);
    }
    forall id ensures id in Ids(full) <==> id in r.base && exists e :: e in candidates && e.id == id {
      if id in Ids(full) {
        var i :| 0 <= i < |full| && Ids(full)[i] == id;
        assert full[i] in Elements(full);
      }
      if e :| e in candidates && e.id == id && id in r.base {
        assert Entry(r, e) in Elements(full);
        var i :| 0 <= i < |full| && full[i] == Entry(r, e);
        assert Ids(full)[i] == id;
      }
    }
  }

  /** The pages a client reads by advancing the offset one page at a time. */
  function PagesFrom<T>(s: seq<T>, offset: nat, size: nat): seq<T>
    requires size > 0
    decreases if offset < |s| then |s| - offset else 0
  {
    if offset >= |s| then [] else Page(s, offset, size) + PagesFrom(s, offset + size, size)
  }

  /** Consecutive pages concatenate to the whole ranking: no entry is repeated or skipped. */
  lemma {:induction false} PagesCoverRanking<T>(s: seq<T>, offset: nat, size: nat)
    requires size > 0 && offset <= |s|
    ensures PagesFrom(s, offset, size) == s[offset..]
    decreases |s| - offset
  {
    if offset + size < |s| {
      PagesCoverRanking(s, offset + size, size);
      assert s[offset..][..size] == s[offset..offset + size];
      assert s[offset..offset + size] + s[offset + size..] == s[offset..];
    }
  }

  /** Base scores with every boost folded in beforehand. */
  function FoldBoosts(r: Request, candidates: seq<Event>): map<string, real> {
    if candidates == [] then map[]
    else
      var e := candidates[0];
      var rest := FoldBoosts(r, candidates[1..]);
      if e.id in r.base then rest[e.id := r.base[e.id] + BoostSum(r.boosts, e.pubkey)] else rest
  }

  lemma {:induction false} FoldedScore(r: Request, candidates: seq<Event>)
    requires IdsDetermine(Elements(candidates))
    ensures forall e :: e in candidates && e.id in r.base ==>
      e.id in FoldBoosts(r, candidates) && FoldBoosts(r, candidates)[e.id] == Entry(r, e).score
    ensures FoldBoosts(r, candidates).Keys <= r.base.Keys
  {
    if candidates != [] {
      assert candidates == [candidates[0]] + candidates[1..];
      assert Elements(candidates[1..]) <= Elements(candidates) by {
        forall e | e in candidates[1..] ensures e in candidates {}
      }
      assert candidates[0] in Elements(candidates);
      FoldedScore(r, candidates[1..]);
      forall e | e in candidates && e.id in r.base
        ensures e.id in FoldBoosts(r, candidates) && FoldBoosts(r, candidates)[e.id] == Entry(r, e).score
      {
        assert e in Elements(candidates);
      }
    }
  }

  /** Adding the boosts late ranks exactly as folding them into the base scores would. */
  lemma BoostsFoldIntoBase(r: Request, candidates: seq<Event>, late: seq<Ranked>, folded: seq<Ranked>)
    requires IdsDetermine(Elements(candidates))
    requires IsRanking(r, Elements(candidates), late)
    requires IsRanking(Request(FoldBoosts(r, candidates), [], r.jitter), Elements(candidates), folded)
    ensures late == folded
  {
    var r' := Request(FoldBoosts(r, candidates), [], r.jitter);
    FoldedScore(r, candidates);
    assert Entries(r', Elements(candidates)) == Entries(r, Elements(candidates));
    assert SortedBy(Order(r), folded) by {
      forall i, j | 0 <= i < j < |folded| ensures Order(r)(folded[i], folded[j]) {
        assert Order(r')(folded[i], folded[j]);
      }
    }
    RankingIsCanonical(r, Elements(candidates), late, folded);
  }

  // ---------------------------------------------------------------------------
  // Scores and places
  // ---------------------------------------------------------------------------

  /** A boost adds its weight for the authors it names, and all of them add up. */
  lemma BoostsAddUp(boosts: seq<Boost>, boost: Boost, pubkey: string)
    ensures BoostSum([], pubkey) == 0.0
    ensures BoostSum(boosts + [boost], pubkey) ==
      if pubkey in boost.pubkeys then BoostSum(boosts, pubkey) + boost.weight else BoostSum(boosts, pubkey)
  {
    assert (boosts + [boost])[..|boosts|] == boosts;
  }

  /** The final score of a candidate. */
  function Final(r: Request, e: Event): real
    requires e.id in r.base
  {
    r.base[e.id] + BoostSum(r.boosts, e.pubkey) + r.jitter(e.id)
  }

  /**
   * Of two entries the earlier has the higher final score; of equal scores, the later time; of
   * equal times, the greater id.
   */
  lemma HigherComesFirst(r: Request, candidates: set<Event>, full: seq<Ranked>, i: nat, j: nat)
    requires IsRanking(r, candidates, full) && i < j < |full|
    ensures full[i].event in candidates && full[i].event.id in r.base && full[j].event in candidates
      && full[j].event.id in r.base
    ensures var a, b := full[i].event, full[j].event;
      || Final(r, a) > Final(r, b)
      || (Final(r, a) == Final(r, b) && a.createdAt > b.createdAt)
      || (Final(r, a) == Final(r, b) && a.createdAt == b.createdAt && StringLess(b.id, a.id))
  {
    assert full[i] in Elements(full) && full[j] in Elements(full);
    assert Order(r)(full[i], full[j]);
  }

  /**
   * The i-th id of a page is the one at offset + i; a negative offset counts as none, and no page
   * is longer than the limit.
   */
  lemma PlacesOnPage<T>(s: seq<T>, offset: int, limit: int)
    ensures var from := if offset < 0 then 0 else offset;
      var rest := if from < |s| then |s| - from else 0;
      && |Page(s, offset, limit)| == (if limit <= 0 then 0 else if limit < rest then limit else rest)
      && forall i :: 0 <= i < |Page(s, offset, limit)| ==> Page(s, offset, limit)[i] == s[from + i]
  {
  }
}
