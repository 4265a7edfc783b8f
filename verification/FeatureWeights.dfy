/**
 * Compiling rank terms to feature-table weights: featureWeightsFromTerms and the live
 * path weightedRankBaseScores in internal/graphqlapi/schema.go, against the score
 * expression that internal/clickhouse/read.go scans note_rank_features with.
 */
module FeatureWeights {
  import opened RankShares
  import opened Wrappers

  // ---------------------------------------------------------------------------
  // Rank terms
  // ---------------------------------------------------------------------------

  datatype Transform = Identity | Log1p | RecencyHalfLife

  datatype Metric = Actors | Likes | Replies | Reposts | Quotes | ZapSats | OtherMetric(name: string)

  datatype Term =
    | PubkeyScore(weight: real, source: string, target: string, fallback: real, minFollowers: nat)
    | CandidateField(weight: real, field: string, transform: Transform, halfLife: real)
    | DerivedMetric(weight: real, derived: string, transform: Transform)
    | References(weight: real, empty: bool, gate: string, query: Query, metric: Metric, transform: Transform)

  // ---------------------------------------------------------------------------
  // Compiling
  // ---------------------------------------------------------------------------

  datatype Weights = Weights(likes: real, reposts: real, replies: real, quotes: real, zapSats: real,
                             actors: real, author: real, quality: real, recency: real)

  datatype Compiled = Compiled(weights: Weights, halfLife: real, minFollowers: nat)

  /** The term has a feature column that can stand for it. */
  predicate Accepted(t: Term) {
    match t
    case PubkeyScore(_, source, target, fallback, _) =>
      source == "vertex" && fallback == 0.0 && (target == "" || target == "AUTHOR")
    case CandidateField(_, field, transform, _) => field == "CREATED_AT" && transform.RecencyHalfLife?
    case DerivedMetric(_, derived, _) => derived == "contribution_quality"
    case References(_, _, gate, _, metric, transform) =>
      gate != "" && if metric.Actors? then transform.Identity? else !metric.OtherMetric? && transform.Log1p?
  }

  datatype Slot = AuthorSlot | RecencySlot | QualitySlot | CountSlot(metric: Metric)

  function SlotOf(t: Term): Slot {
    match t
    case PubkeyScore(_, _, _, _, _) => AuthorSlot
    case CandidateField(_, _, _, _) => RecencySlot
    case DerivedMetric(_, _, _) => QualitySlot
    case References(_, _, _, _, metric, _) => CountSlot(metric)
  }

  function At(w: Weights, slot: Slot): real {
    match slot
    case AuthorSlot => w.author
    case RecencySlot => w.recency
    case QualitySlot => w.quality
    case CountSlot(metric) =>
      match metric
      case Actors => w.actors
      case Likes => w.likes
      case Replies => w.replies
      case Reposts => w.reposts
      case Quotes => w.quotes
      case ZapSats => w.zapSats
      case OtherMetric(_) => 0.0
  }

  /** The weights of all terms of the slot, added up. */
  function WeightOf(terms: seq<Term>, slot: Slot): real {
    if terms == [] then 0.0
    else
      var last := terms[|terms| - 1];
      WeightOf(terms[..|terms| - 1], slot) + if SlotOf(last) == slot then last.weight else 0.0
  }

  /** Every weight of the record is the sum of its terms' weights. */
  ghost predicate TakesSums(terms: seq<Term>, w: Weights) {
    forall slot: Slot :: At(w, slot) == WeightOf(terms, slot)
  }

  function LastHalfLife(terms: seq<Term>): real {
    if terms == [] then 0.0
    else
      var last := terms[|terms| - 1];
      if last.CandidateField? then last.halfLife else LastHalfLife(terms[..|terms| - 1])
  }

  function RaisedFloor(floor: nat, t: Term): nat {
    if t.PubkeyScore? && t.minFollowers > floor then t.minFollowers else floor
  }

  function HighestFloor(terms: seq<Term>): nat {
    if terms == [] then 0
    else
      RaisedFloor(HighestFloor(terms[..|terms| - 1]), terms[|terms| - 1])
  }

  ghost predicate Compiles(terms: seq<Term>, c: Compiled) {
    TakesSums(terms, c.weights) && c.halfLife == LastHalfLife(terms) && c.minFollowers == HighestFloor(terms)
  }

  ghost predicate AddsWeight(t: Term, before: Weights, after: Weights) {
    forall slot :: At(after, slot) == At(before, slot) + if slot == SlotOf(t) then t.weight else 0.0
  }

  method AddReferences(t: Term, before: Weights) returns (r: Option<Weights>)
    requires t.References?
    ensures r.Some? <==> Accepted(t)
    ensures r.Some? ==> AddsWeight(t, before, r.value)
  {
    if t.gate == "" {
      return None;
    }
    var w := before;
    match t.metric {
      case Actors =>
        if t.transform != Identity { return None; }
        w := w.(actors := w.actors + t.weight);
      case Likes =>
        if t.transform != Log1p { return None; }
        w := w.(likes := w.likes + t.weight);
      case Replies =>
        if t.transform != Log1p { return None; }
        w := w.(replies := w.replies + t.weight);
      case Reposts =>
        if t.transform != Log1p { return None; }
        w := w.(reposts := w.reposts + t.weight);
      case Quotes =>
        if t.transform != Log1p { return None; }
        w := w.(quotes := w.quotes + t.weight);
      case ZapSats =>
        if t.transform != Log1p { return None; }
        w := w.(zapSats := w.zapSats + t.weight);
      case OtherMetric(_) =>
        return None;
    }
    r := Some(w);
  }

  method AddTerm(t: Term, before: Compiled) returns (r: Option<Compiled>)
    ensures r.Some? <==> Accepted(t)
    ensures r.Some? ==> AddsWeight(t, before.weights, r.value.weights)
    ensures r.Some? ==> r.value.halfLife == if t.CandidateField? then t.halfLife else before.halfLife
    ensures r.Some? ==> r.value.minFollowers == RaisedFloor(before.minFollowers, t)
  {
    var c := before;
    match t {
      case PubkeyScore(weight, source, target, fallback, floor) =>
        if source != "vertex" || fallback != 0.0 || (target != "" && target != "AUTHOR") {
          return None;
        }
        c := c.(weights := c.weights.(author := c.weights.author + weight));
        if floor > c.minFollowers {
          c := c.(minFollowers := floor);
        }
      case CandidateField(weight, field, transform, seconds) =>
        if field != "CREATED_AT" || transform != RecencyHalfLife {
          return None;
        }
        c := c.(weights := c.weights.(recency := c.weights.recency + weight), halfLife := seconds);
      case DerivedMetric(weight, derived, _) =>
        if derived != "contribution_quality" {
          return None;
        }
        c := c.(weights := c.weights.(quality := c.weights.quality + weight));
      case References(_, _, _, _, _, _) =>
        var w := AddReferences(t, c.weights);
        if w.None? {
          return None;
        }
        c := c.(weights := w.value);
    }
    r := Some(c);
  }

  method FeatureWeightsFromTerms(terms: seq<Term>) returns (r: Option<Compiled>)
    ensures r.Some? <==> terms != [] && forall t :: t in terms ==> Accepted(t)
    ensures r.Some? ==> Compiles(terms, r.value)
  {
    if |terms| == 0 {
      return None;
    }
    var c := Compiled(Weights(0.0, 0.0, 0.0, 0.0, 0.0, 0.0, 0.0, 0.0, 0.0), 0.0, 0);
    for i := 0 to |terms|
      invariant forall t :: t in terms[..i] ==> Accepted(t)
      invariant Compiles(terms[..i], c)
    {
      assert terms[..i + 1] == terms[..i] + [terms[i]] && terms[..i + 1][..i] == terms[..i];
      var next := AddTerm(terms[i], c);
      if next.None? {
        assert terms[i] in terms && !Accepted(terms[i]);
        return None;
      }
      c := next.value;
    }
    assert terms[..|terms|] == terms;
    r := Some(c);
  }

  // ---------------------------------------------------------------------------
  // The live path
  // ---------------------------------------------------------------------------

  datatype Candidate = Candidate(id: string, pubkey: string, createdAt: real)

  /** What the store and the clock answer, and the math library. */
  datatype World = World(
    author: (string, string) -> Option<Author>, derived: (string, string) -> Option<real>,
    rows: (Query, string) -> Option<nat>, fails: Term -> bool,
    math: Library, now: real)

  function Transformed(world: World, v: real, transform: Transform): real {
    if transform.Log1p? then world.math.log1p(v) else v
  }

  function Age(world: World, e: Candidate): real {
    if world.now < e.createdAt then 0.0 else world.now - e.createdAt
  }

  predicate PerCandidate(t: Term) {
    t.PubkeyScore? || t.CandidateField?
  }

  /** What one candidate adds for a term that is applied candidate by candidate. */
  function CandidateShare(world: World, t: Term, e: Candidate): real
    requires PerCandidate(t)
  {
    t.weight * match t
    case PubkeyScore(_, source, _, fallback, floor) =>
      var author := world.author(source, e.pubkey);
      if author.Some? && author.value.followers >= floor then author.value.score else fallback
    case CandidateField(_, field, transform, halfLife) =>
      if field != "CREATED_AT" then 0.0
      else if transform.RecencyHalfLife? then world.math.decay(Age(world, e), halfLife)
      else Transformed(world, e.createdAt, transform)
  }

  /** What a term that is applied id by id adds. */
  function IdShare(world: World, t: Term, id: string): real
    requires !PerCandidate(t)
  {
    t.weight * match t
    case DerivedMetric(_, derived, transform) =>
      var v := world.derived(derived, id);
      if v.Some? then Transformed(world, v.value, transform) else 0.0
    case References(_, empty, _, query, _, transform) =>
      var n := world.rows(query, id);
      if !empty && n.Some? then Transformed(world, n.value as real, transform) else 0.0
  }

  /** A candidate that is listed twice is scored twice by the per-candidate terms. */
  function OccurrenceSum(world: World, t: Term, candidates: seq<Candidate>, id: string): real
    requires PerCandidate(t)
  {
    if candidates == [] then 0.0
    else
      var last := candidates[|candidates| - 1];
      OccurrenceSum(world, t, candidates[..|candidates| - 1], id)
        + if last.id == id then CandidateShare(world, t, last) else 0.0
  }

  function TermShare(world: World, t: Term, candidates: seq<Candidate>, id: string): real {
    if PerCandidate(t) then OccurrenceSum(world, t, candidates, id) else IdShare(world, t, id)
  }

  function LiveScore(world: World, terms: seq<Term>, candidates: seq<Candidate>, id: string): real {
    if terms == [] then 0.0
    else LiveScore(world, terms[..|terms| - 1], candidates, id) + TermShare(world, terms[|terms| - 1], candidates, id)
  }

  /** The term asks the store for something. */
  predicate Queries(t: Term) {
    !t.CandidateField? && !(t.References? && t.empty)
  }

  /** Exactly the distinct non-empty ids of the candidates. */
  ghost predicate AreTheIds(candidates: seq<Candidate>, ids: seq<string>) {
    && (forall i, j :: 0 <= i < j < |ids| ==> ids[i] != ids[j])
    && (forall id :: id in ids <==> id != "" && exists e :: e in candidates && e.id == id)
  }

  method CandidateIDs(candidates: seq<Candidate>) returns (ids: seq<string>, scores: map<string, real>)
    ensures AreTheIds(candidates, ids) && scores.Keys == (set id | id in ids)
      && forall id :: id in ids ==> scores[id] == 0.0
  {
    ids, scores := [], map[];
    for i := 0 to |candidates|
      invariant AreTheIds(candidates[..i], ids) && scores.Keys == (set id | id in ids)
      invariant forall id :: id in ids ==> scores[id] == 0.0
    {
      var id := candidates[i].id;
      assert candidates[..i + 1] == candidates[..i] + [candidates[i]];
      if id == "" || id in scores {
        continue;
      }
      scores := scores[id := 0.0];
      ids := ids + [id];
    }
    assert candidates[..|candidates|] == candidates;
  }

  /** Every id gained the candidate shares of its occurrences, and no other id was added but "". */
  ghost predicate Gained(world: World, t: Term, candidates: seq<Candidate>, ids: seq<string>,
                         before: map<string, real>, after: map<string, real>)
    requires PerCandidate(t)
  {
    && (forall id :: id in ids ==>
          id in before && id in after && after[id] == before[id] + OccurrenceSum(world, t, candidates, id))
    && after.Keys <= before.Keys + {""}
  }

  lemma GainsOne(world: World, t: Term, candidates: seq<Candidate>, i: nat, ids: seq<string>,
                 before: map<string, real>, scores: map<string, real>, score: real)
    requires PerCandidate(t) && i < |candidates| && Gained(world, t, candidates[..i], ids, before, scores)
    requires candidates[i].id in ids || candidates[i].id == ""
    requires candidates[i].id in ids ==> score == scores[candidates[i].id] + CandidateShare(world, t, candidates[i])
    ensures Gained(world, t, candidates[..i + 1], ids, before, scores[candidates[i].id := score])
  {
    assert candidates[..i + 1][..i] == candidates[..i];
  }

  lemma GainsNothing(world: World, t: Term, candidates: seq<Candidate>, i: nat, ids: seq<string>,
                     before: map<string, real>, scores: map<string, real>)
    requires PerCandidate(t) && i < |candidates| && Gained(world, t, candidates[..i], ids, before, scores)
    requires candidates[i].id in ids ==> CandidateShare(world, t, candidates[i]) == 0.0
    ensures Gained(world, t, candidates[..i + 1], ids, before, scores)
  {
    assert candidates[..i + 1][..i] == candidates[..i];
  }

  method ApplyPubkeyScore(world: World, t: Term, candidates: seq<Candidate>, ids: seq<string>,
                          before: map<string, real>)
    returns (scores: map<string, real>)
    requires t.PubkeyScore? && AreTheIds(candidates, ids) && forall id :: id in ids ==> id in before
    ensures Gained(world, t, candidates, ids, before, scores)
  {
    scores := before;
    for i := 0 to |candidates|
      invariant Gained(world, t, candidates[..i], ids, before, scores)
    {
      var e := candidates[i];
      if e.id !in ids {
        GainsNothing(world, t, candidates, i, ids, before, scores);
        continue;
      }
      var author := world.author(t.source, e.pubkey);
      var value := if author.Some? && author.value.followers >= t.minFollowers then author.value.score else t.fallback;
      var score := scores[e.id] + t.weight * value;
      GainsOne(world, t, candidates, i, ids, before, scores, score);
      scores := scores[e.id := score];
    }
    assert candidates[..|candidates|] == candidates;
  }

  method ApplyCandidateField(world: World, t: Term, candidates: seq<Candidate>, ids: seq<string>,
                             before: map<string, real>)
    returns (scores: map<string, real>)
    requires t.CandidateField? && AreTheIds(candidates, ids) && forall id :: id in ids ==> id in before
    ensures Gained(world, t, candidates, ids, before, scores)
  {
    scores := before;
    for i := 0 to |candidates|
      invariant Gained(world, t, candidates[..i], ids, before, scores)
    {
      var e := candidates[i];
      if t.field != "CREATED_AT" {
        GainsNothing(world, t, candidates, i, ids, before, scores);
        continue;
      }
      assert e in candidates;
      var value := if t.transform.RecencyHalfLife? then world.math.decay(Age(world, e), t.halfLife)
                   else Transformed(world, e.createdAt, t.transform);
      var score := (if e.id in scores then scores[e.id] else 0.0) + t.weight * value;
      GainsOne(world, t, candidates, i, ids, before, scores, score);
      scores := scores[e.id := score];
    }
    assert candidates[..|candidates|] == candidates;
  }

  /** Every id up to position n gained its share, and the later ones nothing yet. */
  ghost predicate GainedUpTo(world: World, t: Term, ids: seq<string>, n: nat, before: map<string, real>,
                             after: map<string, real>)
    requires !PerCandidate(t)
  {
    && after.Keys == before.Keys && (forall id :: id in ids ==> id in before)
    && (forall j :: 0 <= j < |ids| ==>
          after[ids[j]] == before[ids[j]] + if j < n then IdShare(world, t, ids[j]) else 0.0)
  }

  method ApplyDerivedMetric(world: World, t: Term, ids: seq<string>, before: map<string, real>)
    returns (scores: map<string, real>)
    requires t.DerivedMetric? && forall i, j :: 0 <= i < j < |ids| ==> ids[i] != ids[j]
    requires forall id :: id in ids ==> id in before
    ensures GainedUpTo(world, t, ids, |ids|, before, scores)
  {
    scores := before;
    for i := 0 to |ids|
      invariant GainedUpTo(world, t, ids, i, before, scores)
    {
      var value := world.derived(t.derived, ids[i]);
      if value.None? {
        continue;
      }
      scores := scores[ids[i] := scores[ids[i]] + t.weight * Transformed(world, value.value, t.transform)];
    }
  }

  method ApplyReferences(world: World, t: Term, ids: seq<string>, before: map<string, real>)
    returns (scores: map<string, real>)
    requires t.References? && !t.empty && forall i, j :: 0 <= i < j < |ids| ==> ids[i] != ids[j]
    requires forall id :: id in ids ==> id in before
    ensures GainedUpTo(world, t, ids, |ids|, before, scores)
  {
    scores := before;
    for i := 0 to |ids|
      invariant GainedUpTo(world, t, ids, i, before, scores)
    {
      var rows := world.rows(t.query, ids[i]);
      if rows.None? {
        continue;
      }
      scores := scores[ids[i] := scores[ids[i]] + t.weight * Transformed(world, rows.value as real, t.transform)];
    }
  }

  /** The live base scores: a failing query ends the ranking; otherwise every id gets the sum of all its terms. */
  method WeightedRankBaseScores(world: World, candidates: seq<Candidate>, terms: seq<Term>)
    returns (r: Result<map<string, real>, string>)
    ensures r.Err? <==>
      (exists e :: e in candidates && e.id != "") && exists t :: t in terms && Queries(t) && world.fails(t)
    ensures r.Ok? ==> forall e :: e in candidates && e.id != "" ==>
      e.id in r.value && r.value[e.id] == LiveScore(world, terms, candidates, e.id)
    ensures r.Ok? ==> forall id :: id in r.value && id != "" ==> exists e :: e in candidates && e.id == id
    ensures r.Ok? && IdsDetermine(candidates) ==> forall e :: e in candidates && e.id != "" ==>
      r.value[e.id] == AllWorth(world, terms, e, Copies(candidates, e.id))
  {
    if IdsDetermine(candidates) {
      LiveScoreIsWorth(world, terms, candidates);
    }
    var ids, scores := CandidateIDs(candidates);
    if |ids| == 0 {
      assert forall e :: e in candidates && e.id != "" ==> e.id in ids;
      return Ok(scores);
    }
    assert ids[0] in ids;
    for i := 0 to |terms|
      invariant Scored(world, terms[..i], candidates, ids, scores)
      invariant forall t :: t in terms[..i] && Queries(t) ==> !world.fails(t)
    {
      var t := terms[i];
      assert terms[..i + 1] == terms[..i] + [t] && terms[..i + 1][..i] == terms[..i];
      if Queries(t) && world.fails(t) {
        assert t in terms;
        return Err("query failed");
      }
      if t.References? && t.empty {
        continue;
      }
      scores := ApplyTerm(world, t, terms[..i], candidates, ids, scores);
    }
    assert terms[..|terms|] == terms;
    r := Ok(scores);
  }

  /** Every id has its score for the terms so far, and no other key than "" is there. */
  ghost predicate Scored(world: World, terms: seq<Term>, candidates: seq<Candidate>, ids: seq<string>,
                         scores: map<string, real>) {
    && (forall id :: id in ids ==> id in scores && scores[id] == LiveScore(world, terms, candidates, id))
    && (forall id :: id in scores ==> id in ids || id == "")
  }

  method ApplyTerm(world: World, t: Term, ghost terms: seq<Term>, candidates: seq<Candidate>, ids: seq<string>,
                   before: map<string, real>)
    returns (scores: map<string, real>)
    requires AreTheIds(candidates, ids) && Scored(world, terms, candidates, ids, before) && !(t.References? && t.empty)
    ensures Scored(world, terms + [t], candidates, ids, scores)
  {
    assert (terms + [t])[..|terms|] == terms;
    match t
    case PubkeyScore(_, _, _, _, _) => scores := ApplyPubkeyScore(world, t, candidates, ids, before);
    case CandidateField(_, _, _, _) => scores := ApplyCandidateField(world, t, candidates, ids, before);
    case DerivedMetric(_, _, _) => scores := ApplyDerivedMetric(world, t, ids, before);
    case References(_, _, _, _, _, _) => scores := ApplyReferences(world, t, ids, before);
  }

  // ---------------------------------------------------------------------------
  // What a term is worth
  // ---------------------------------------------------------------------------

  /** What one term is worth to a candidate that is listed once, whether or not it can be compiled. */
  function Worth(world: World, t: Term, e: Candidate): real {
    match t
    case PubkeyScore(weight, source, _, fallback, floor) =>
      var author := world.author(source, e.pubkey);
      if author.None? || author.value.followers < floor then weight * fallback else weight * author.value.score
    case CandidateField(weight, "CREATED_AT", RecencyHalfLife, halfLife) =>
      weight * world.math.decay(if world.now < e.createdAt then 0.0 else world.now - e.createdAt, halfLife)
    case CandidateField(weight, "CREATED_AT", Log1p, _) => weight * world.math.log1p(e.createdAt)
    case CandidateField(weight, "CREATED_AT", Identity, _) => weight * e.createdAt
    case CandidateField(_, _, _, _) => 0.0
    case DerivedMetric(weight, derived, transform) =>
      (match world.derived(derived, e.id)
       case None => 0.0
       case Some(v) => if transform == Log1p then weight * world.math.log1p(v) else weight * v)
    case References(_, true, _, _, _, _) => 0.0
    case References(weight, false, _, query, _, transform) =>
      (match world.rows(query, e.id)
       case None => 0.0
       case Some(n) => if transform == Log1p then weight * world.math.log1p(n as real) else weight * n as real)
  }

  /** What all terms are worth; author scores and candidate fields once for each listing. */
  function AllWorth(world: World, terms: seq<Term>, e: Candidate, copies: nat): real {
    if terms == [] then 0.0
    else
      var t := terms[|terms| - 1];
      AllWorth(world, terms[..|terms| - 1], e, copies) + WorthOfAll(world, t, e, copies)
  }

  function WorthOfAll(world: World, t: Term, e: Candidate, copies: nat): real {
    if t.PubkeyScore? || t.CandidateField? then copies as real * Worth(world, t, e) else Worth(world, t, e)
  }

  lemma ShareIsWorth(world: World, t: Term, e: Candidate)
    ensures PerCandidate(t) ==> CandidateShare(world, t, e) == Worth(world, t, e)
    ensures !PerCandidate(t) ==> IdShare(world, t, e.id) == Worth(world, t, e)
  {
  }

  lemma TermShareIsWorth(world: World, t: Term, candidates: seq<Candidate>, e: Candidate)
    requires IdsDetermine(candidates) && e in candidates
    ensures TermShare(world, t, candidates, e.id) == WorthOfAll(world, t, e, Copies(candidates, e.id))
  {
    ShareIsWorth(world, t, e);
    if PerCandidate(t) {
      OccurrencesCount(world, t, candidates, e, CandidateShare(world, t, e));
    }
  }

  lemma {:induction false} LiveScoreOfOne(world: World, terms: seq<Term>, candidates: seq<Candidate>, e: Candidate)
    requires IdsDetermine(candidates) && e in candidates
    ensures LiveScore(world, terms, candidates, e.id) == AllWorth(world, terms, e, Copies(candidates, e.id))
  {
    if terms != [] {
      var front, t, copies := terms[..|terms| - 1], terms[|terms| - 1], Copies(candidates, e.id);
      assert LiveScore(world, front, candidates, e.id) == AllWorth(world, front, e, copies) by {
        LiveScoreOfOne(world, front, candidates, e);
      }
      assert TermShare(world, t, candidates, e.id) == WorthOfAll(world, t, e, copies) by {
        TermShareIsWorth(world, t, candidates, e);
      }
    }
  }

  lemma LiveScoreIsWorth(world: World, terms: seq<Term>, candidates: seq<Candidate>)
    requires IdsDetermine(candidates)
    ensures forall e :: e in candidates ==>
      LiveScore(world, terms, candidates, e.id) == AllWorth(world, terms, e, Copies(candidates, e.id))
  {
    forall e | e in candidates
      ensures LiveScore(world, terms, candidates, e.id) == AllWorth(world, terms, e, Copies(candidates, e.id))
    {
      LiveScoreOfOne(world, terms, candidates, e);
    }
  }

  /** One recency term and one listing: the weight times the decay of the candidate's age. */
  lemma RecencyOfOne(world: World, candidates: seq<Candidate>, e: Candidate, weight: real, halfLife: real)
    requires IdsDetermine(candidates) && e in candidates && Copies(candidates, e.id) == 1
    ensures LiveScore(world, [CandidateField(weight, "CREATED_AT", RecencyHalfLife, halfLife)], candidates, e.id)
      == weight * world.math.decay(if world.now < e.createdAt then 0.0 else world.now - e.createdAt, halfLife)
  {
    var t := CandidateField(weight, "CREATED_AT", RecencyHalfLife, halfLife);
    LiveScoreOfOne(world, [t], candidates, e);
    assert [t][..0] == [];
    assert AllWorth(world, [t], e, 1) == 1.0 * Worth(world, t, e);
  }

  /** Of several half-lives the last one is compiled. */
  lemma LastHalfLifeWins(terms: seq<Term>, t: Term)
    ensures LastHalfLife(terms + [t]) == if t.CandidateField? then t.halfLife else LastHalfLife(terms)
  {
    assert (terms + [t])[..|terms|] == terms;
  }

  /** The forms that are accepted. */
  lemma AcceptedForms(weight: real, name: string, target: string, value: real, floor: nat, transform: Transform,
                      empty: bool, gate: string, query: Query, metric: Metric)
    ensures Accepted(PubkeyScore(weight, name, target, value, floor)) <==>
      name == "vertex" && value == 0.0 && target in {"", "AUTHOR"}
    ensures Accepted(CandidateField(weight, name, transform, value)) <==>
      (name, transform) == ("CREATED_AT", RecencyHalfLife)
    ensures Accepted(DerivedMetric(weight, name, transform)) <==> name == "contribution_quality"
    ensures Accepted(References(weight, empty, gate, query, metric, transform)) <==>
      gate != "" && (metric, transform) in
        {(Actors, Identity), (Likes, Log1p), (Replies, Log1p), (Reposts, Log1p), (Quotes, Log1p), (ZapSats, Log1p)}
  {
  }

  // ---------------------------------------------------------------------------
  // The scan over the feature table
  // ---------------------------------------------------------------------------

  /** How read.go scores a row, with the metrics of the named queries in the count columns. */
  function ScanScore(m: Library, c: Compiled, column: Metric -> Query, row: Row): real {
    var w := c.weights;
    w.likes * m.log1p(row.count(column(Likes)) as real)
    + w.replies * m.log1p(row.count(column(Replies)) as real)
    + w.reposts * m.log1p(row.count(column(Reposts)) as real)
    + w.quotes * m.log1p(row.count(column(Quotes)) as real)
    + w.zapSats * m.log1p(row.count(column(ZapSats)) as real)
    + w.actors * row.count(column(Actors)) as real
    + w.author * (var a := row.author.GetOr(Author(0, 0.0)); if a.followers >= c.minFollowers then a.score else 0.0)
    + w.quality * row.quality.GetOr(0.0)
    + w.recency * m.decay(row.age, if c.halfLife <= 0.0 then 86400.0 else c.halfLife)
  }

  // ---------------------------------------------------------------------------
  // Both paths as shares
  // ---------------------------------------------------------------------------

  function ScanHalfLife(c: Compiled): real {
    if c.halfLife <= 0.0 then 86400.0 else c.halfLife
  }

  /** The shares of the scan: one per feature column. */
  function ScanShares(c: Compiled, column: Metric -> Query): seq<Share> {
    var w := c.weights;
    [Share(Logged(column(Likes)), w.likes)] + [Share(Logged(column(Replies)), w.replies)]
    + [Share(Logged(column(Reposts)), w.reposts)] + [Share(Logged(column(Quotes)), w.quotes)]
    + [Share(Logged(column(ZapSats)), w.zapSats)] + [Share(Plain(column(Actors)), w.actors)]
    + [Share(Floor(c.minFollowers), w.author)] + [Share(Quality(false), w.quality)]
    + [Share(HalfLife(ScanHalfLife(c)), w.recency)]
  }

  lemma NineParts(a1: Share, a2: Share, a3: Share, a4: Share, a5: Share, a6: Share, a7: Share, a8: Share, a9: Share,
                  f: Share -> real)
    ensures Sum([a1] + [a2] + [a3] + [a4] + [a5] + [a6] + [a7] + [a8] + [a9], f)
         == f(a1) + f(a2) + f(a3) + f(a4) + f(a5) + f(a6) + f(a7) + f(a8) + f(a9)
  {
    var s5 := [a1] + [a2] + [a3] + [a4] + [a5];
    FiveParts(a1, a2, a3, a4, a5, f);
    OneMore(s5, a6, f);
    OneMore(s5 + [a6], a7, f);
    OneMore(s5 + [a6] + [a7], a8, f);
    OneMore(s5 + [a6] + [a7] + [a8], a9, f);
  }

  lemma FiveParts(a1: Share, a2: Share, a3: Share, a4: Share, a5: Share, f: Share -> real)
    ensures Sum([a1] + [a2] + [a3] + [a4] + [a5], f) == f(a1) + f(a2) + f(a3) + f(a4) + f(a5)
  {
    assert [] + [a1] == [a1];
    OneMore([], a1, f);
    OneMore([a1], a2, f);
    OneMore([a1] + [a2], a3, f);
    OneMore([a1] + [a2] + [a3], a4, f);
    OneMore([a1] + [a2] + [a3] + [a4], a5, f);
  }

  lemma ScanIsWeighted(m: Library, c: Compiled, column: Metric -> Query, row: Row)
    ensures Score(m, ScanShares(c, column), row) == ScanScore(m, c, column, row)
  {
    var w := c.weights;
    NineParts(Share(Logged(column(Likes)), w.likes), Share(Logged(column(Replies)), w.replies),
              Share(Logged(column(Reposts)), w.reposts), Share(Logged(column(Quotes)), w.quotes),
              Share(Logged(column(ZapSats)), w.zapSats), Share(Plain(column(Actors)), w.actors),
              Share(Floor(c.minFollowers), w.author), Share(Quality(false), w.quality),
              Share(HalfLife(ScanHalfLife(c)), w.recency), Parts(m, row));
  }

  /** The shares of one accepted term, for an id that is listed `copies` times. */
  function TermShares(t: Term, copies: nat): seq<Share> {
    match t
    case PubkeyScore(weight, _, _, _, floor) => [Share(Floor(floor), copies as real * weight)]
    case CandidateField(weight, _, _, halfLife) => [Share(HalfLife(halfLife), copies as real * weight)]
    case DerivedMetric(weight, _, transform) => [Share(Quality(transform.Log1p?), weight)]
    case References(weight, empty, _, query, metric, _) =>
      if empty then [] else [Share(if metric.Actors? then Plain(query) else Logged(query), weight)]
  }

  function LiveShares(terms: seq<Term>, copies: nat): seq<Share> {
    if terms == [] then [] else LiveShares(terms[..|terms| - 1], copies) + TermShares(terms[|terms| - 1], copies)
  }

  function RowOf(world: World, e: Candidate): Row {
    Row(world.author("vertex", e.pubkey), world.derived("contribution_quality", e.id),
        (q: Query) => world.rows(q, e.id).GetOr(0), Age(world, e))
  }

  function Copies(candidates: seq<Candidate>, id: string): nat {
    if candidates == [] then 0
    else Copies(candidates[..|candidates| - 1], id) + if candidates[|candidates| - 1].id == id then 1 else 0
  }

  /** An id determines its candidate. */
  ghost predicate IdsDetermine(candidates: seq<Candidate>) {
    forall a, b :: a in candidates && b in candidates && a.id == b.id ==> a == b
  }

  /** The share, once for every occurrence of the id. */
  function Repeated(candidates: seq<Candidate>, id: string, share: real): real {
    if candidates == [] then 0.0
    else
      Repeated(candidates[..|candidates| - 1], id, share)
      + if candidates[|candidates| - 1].id == id then share else 0.0
  }

  lemma {:induction false} RepeatedIs(candidates: seq<Candidate>, id: string, share: real)
    ensures Repeated(candidates, id, share) == Copies(candidates, id) as real * share
  {
    if candidates != [] {
      var front := candidates[..|candidates| - 1];
      RepeatedIs(front, id, share);
      OneMoreWeight(Repeated(front, id, share), Copies(front, id) as real, 1.0, share);
    }
  }

  lemma {:induction false} OccurrencesRepeat(world: World, t: Term, candidates: seq<Candidate>, e: Candidate)
    requires PerCandidate(t) && forall a :: a in candidates && a.id == e.id ==> a == e
    ensures OccurrenceSum(world, t, candidates, e.id) == Repeated(candidates, e.id, CandidateShare(world, t, e))
  {
    if candidates != [] {
      OccurrencesRepeat(world, t, candidates[..|candidates| - 1], e);
    }
  }

  lemma OccurrencesCount(world: World, t: Term, candidates: seq<Candidate>, e: Candidate, one: real)
    requires PerCandidate(t) && one == CandidateShare(world, t, e)
      && forall a :: a in candidates && a.id == e.id ==> a == e
    ensures OccurrenceSum(world, t, candidates, e.id) == Copies(candidates, e.id) as real * one
  {
    OccurrencesRepeat(world, t, candidates, e);
    RepeatedIs(candidates, e.id, one);
  }

  lemma OccurrencesTotal(world: World, t: Term, candidates: seq<Candidate>, e: Candidate, total: real)
    requires PerCandidate(t) && total == Copies(candidates, e.id) as real * CandidateShare(world, t, e)
    requires forall a :: a in candidates && a.id == e.id ==> a == e
    ensures OccurrenceSum(world, t, candidates, e.id) == total
  {
    OccurrencesCount(world, t, candidates, e, CandidateShare(world, t, e));
  }

  lemma Reassociates(n: real, w: real, v: real, scaled: real, share: real)
    requires scaled == n * w && share == w * v
    ensures n * share == scaled * v
  {
  }

  lemma SingleShare(m: Library, share: Share, row: Row)
    ensures Score(m, [share], row) == share.weight * Value(m, share.key, row)
  {
    OneMore([], share, Parts(m, row));
    assert [] + [share] == [share];
  }

  lemma IdTermIsWeighted(world: World, t: Term, e: Candidate, copies: nat)
    requires Accepted(t) && !PerCandidate(t) && world.math.log1p(0.0) == 0.0
    ensures IdShare(world, t, e.id) == Score(world.math, TermShares(t, copies), RowOf(world, e))
  {
    var shares := TermShares(t, copies);
    if shares != [] {
      SingleShare(world.math, shares[0], RowOf(world, e));
    }
  }

  lemma CandidateShareIs(world: World, t: Term, e: Candidate, copies: nat, share: Share, value: real, total: real)
    requires Accepted(t) && PerCandidate(t) && TermShares(t, copies) == [share]
    requires value == Value(world.math, share.key, RowOf(world, e))
      && total == copies as real * CandidateShare(world, t, e)
    ensures total == share.weight * value
  {
    Reassociates(copies as real, t.weight, value, share.weight, CandidateShare(world, t, e));
  }

  lemma TotalIsScored(world: World, t: Term, e: Candidate, copies: nat, total: real)
    requires Accepted(t) && PerCandidate(t) && total == copies as real * CandidateShare(world, t, e)
    ensures total == Score(world.math, TermShares(t, copies), RowOf(world, e))
  {
    var share := TermShares(t, copies)[0];
    var value := Value(world.math, share.key, RowOf(world, e));
    assert Score(world.math, [share], RowOf(world, e)) == share.weight * value by {
      SingleShare(world.math, share, RowOf(world, e));
    }
    CandidateShareIs(world, t, e, copies, share, value, total);
  }

  lemma CandidateTermIsWeighted(world: World, t: Term, candidates: seq<Candidate>, e: Candidate, copies: nat)
    requires Accepted(t) && PerCandidate(t) && copies == Copies(candidates, e.id)
    requires forall a :: a in candidates && a.id == e.id ==> a == e
    ensures OccurrenceSum(world, t, candidates, e.id) == Score(world.math, TermShares(t, copies), RowOf(world, e))
  {
    var total := copies as real * CandidateShare(world, t, e);
    OccurrencesTotal(world, t, candidates, e, total);
    TotalIsScored(world, t, e, copies, total);
  }

  lemma TermIsWeighted(world: World, t: Term, candidates: seq<Candidate>, e: Candidate)
    requires Accepted(t) && world.math.log1p(0.0) == 0.0 && forall a :: a in candidates && a.id == e.id ==> a == e
    ensures TermShare(world, t, candidates, e.id)
      == Score(world.math, TermShares(t, Copies(candidates, e.id)), RowOf(world, e))
  {
    if PerCandidate(t) {
      CandidateTermIsWeighted(world, t, candidates, e, Copies(candidates, e.id));
    } else {
      IdTermIsWeighted(world, t, e, Copies(candidates, e.id));
    }
  }

  /** The live score of an id is the weighted sum of the shares of all terms. */
  lemma {:induction false} LiveIsWeighted(world: World, terms: seq<Term>, candidates: seq<Candidate>, e: Candidate)
    requires (forall t :: t in terms ==> Accepted(t)) && world.math.log1p(0.0) == 0.0
    requires forall a :: a in candidates && a.id == e.id ==> a == e
    ensures LiveScore(world, terms, candidates, e.id)
      == Score(world.math, LiveShares(terms, Copies(candidates, e.id)), RowOf(world, e))
  {
    if terms != [] {
      var front, last := terms[..|terms| - 1], terms[|terms| - 1];
      var copies := Copies(candidates, e.id);
      LiveIsWeighted(world, front, candidates, e);
      TermIsWeighted(world, last, candidates, e);
      SumCat(LiveShares(front, copies), TermShares(last, copies), Parts(world.math, RowOf(world, e)));
    }
  }

  // ---------------------------------------------------------------------------
  // When compiling preserves scores
  // ---------------------------------------------------------------------------

  /** With the given library, the compiled weights score every row as the live terms do. */
  ghost predicate PreservesScores(m: Library, terms: seq<Term>, c: Compiled, column: Metric -> Query, copies: nat) {
    forall row: Row :: row.age >= 0.0 ==> Score(m, LiveShares(terms, copies), row) == ScanScore(m, c, column, row)
  }

  /** Parsing leaves no half-life that is not positive. */
  ghost predicate Parsed(terms: seq<Term>) {
    forall t :: t in terms && t.CandidateField? ==> t.halfLife > 0.0
  }

  lemma {:induction false} LiveHalfLives(terms: seq<Term>, copies: nat)
    requires Parsed(terms)
    ensures PositiveHalfLives(LiveShares(terms, copies))
  {
    if terms != [] {
      LiveHalfLives(terms[..|terms| - 1], copies);
      assert terms[|terms| - 1] in terms;
    }
  }

  lemma PreservedIsSame(m: Library, terms: seq<Term>, c: Compiled, column: Metric -> Query, copies: nat)
    ensures PreservesScores(m, terms, c, column, copies) <==>
      SameScores(m, LiveShares(terms, copies), ScanShares(c, column))
  {
    forall row ensures Score(m, ScanShares(c, column), row) == ScanScore(m, c, column, row) {
      ScanIsWeighted(m, c, column, row);
    }
    if PreservesScores(m, terms, c, column, copies) {
      forall row: Row | row.age >= 0.0
        ensures Score(m, LiveShares(terms, copies), row) == Score(m, ScanShares(c, column), row)
      {
      }
    }
  }

  /**
   * For any one math library: accepted terms keep their scores exactly when, for every
   * floor, half-life, transform and query, the weights of the live terms add up to what
   * the scan puts there.
   */
  lemma PreservedIff(m: Library, terms: seq<Term>, c: Compiled, column: Metric -> Query, copies: nat)
    requires Lawful(m) && Parsed(terms) && (forall t :: t in terms ==> Accepted(t)) && Compiles(terms, c)
    ensures PreservesScores(m, terms, c, column, copies) <==>
      SameWeights(LiveShares(terms, copies), ScanShares(c, column))
  {
    LiveHalfLives(terms, copies);
    SameSharesIff(m, LiveShares(terms, copies), ScanShares(c, column));
    PreservedIsSame(m, terms, c, column, copies);
  }

  /** One floor, one half-life, no transform on derived metrics, and references that the columns hold. */
  ghost predicate SharedParameters(terms: seq<Term>, column: Metric -> Query) {
    && (forall t, u :: t in terms && u in terms && t.PubkeyScore? && u.PubkeyScore? ==>
         t.minFollowers == u.minFollowers)
    && (forall t, u :: t in terms && u in terms && t.CandidateField? && u.CandidateField? ==>
         t.halfLife == u.halfLife > 0.0)
    && (forall t :: t in terms && t.DerivedMetric? ==> !t.transform.Log1p?)
    && (forall t :: t in terms && t.References? ==> !t.empty && t.query == column(t.metric))
  }

  /** Where the scan puts the weights of a slot. */
  function SlotKey(slot: Slot, c: Compiled, column: Metric -> Query): Key {
    match slot
    case AuthorSlot => Floor(c.minFollowers)
    case RecencySlot => HalfLife(ScanHalfLife(c))
    case QualitySlot => Quality(false)
    case CountSlot(metric) => if metric.Actors? then Plain(column(metric)) else Logged(column(metric))
  }

  /** The weights that nine slots put on a key. */
  function NineSlots(at: Slot -> real, key: Key, c: Compiled, column: Metric -> Query): real {
    OneSlot(at, CountSlot(Likes), key, c, column) + OneSlot(at, CountSlot(Replies), key, c, column)
    + OneSlot(at, CountSlot(Reposts), key, c, column) + OneSlot(at, CountSlot(Quotes), key, c, column)
    + OneSlot(at, CountSlot(ZapSats), key, c, column) + OneSlot(at, CountSlot(Actors), key, c, column)
    + OneSlot(at, AuthorSlot, key, c, column) + OneSlot(at, QualitySlot, key, c, column)
      + OneSlot(at, RecencySlot, key, c, column)
  }

  function OneSlot(at: Slot -> real, slot: Slot, key: Key, c: Compiled, column: Metric -> Query): real {
    if SlotKey(slot, c, column) == key then at(slot) else 0.0
  }

  lemma FiveKeys(a1: Share, a2: Share, a3: Share, a4: Share, a5: Share, key: Key)
    ensures KeyWeight([a1] + [a2] + [a3] + [a4] + [a5], key)
      == AtKey(a1, key) + AtKey(a2, key) + AtKey(a3, key) + AtKey(a4, key) + AtKey(a5, key)
  {
    assert [] + [a1] == [a1];
    OneMoreKey([], a1, key);
    OneMoreKey([a1], a2, key);
    OneMoreKey([a1] + [a2], a3, key);
    OneMoreKey([a1] + [a2] + [a3], a4, key);
    OneMoreKey([a1] + [a2] + [a3] + [a4], a5, key);
  }

  function AtKey(share: Share, key: Key): real {
    if share.key == key then share.weight else 0.0
  }

  lemma NineKeys(a1: Share, a2: Share, a3: Share, a4: Share, a5: Share, a6: Share, a7: Share, a8: Share, a9: Share,
                 key: Key)
    ensures KeyWeight([a1] + [a2] + [a3] + [a4] + [a5] + [a6] + [a7] + [a8] + [a9], key)
         == AtKey(a1, key) + AtKey(a2, key) + AtKey(a3, key) + AtKey(a4, key) + AtKey(a5, key)
          + AtKey(a6, key) + AtKey(a7, key) + AtKey(a8, key) + AtKey(a9, key)
  {
    var s5 := [a1] + [a2] + [a3] + [a4] + [a5];
    FiveKeys(a1, a2, a3, a4, a5, key);
    OneMoreKey(s5, a6, key);
    OneMoreKey(s5 + [a6], a7, key);
    OneMoreKey(s5 + [a6] + [a7], a8, key);
    OneMoreKey(s5 + [a6] + [a7] + [a8], a9, key);
  }

  lemma ScanKeyWeight(c: Compiled, column: Metric -> Query, key: Key, at: Slot -> real)
    requires forall slot :: at(slot) == At(c.weights, slot)
    ensures KeyWeight(ScanShares(c, column), key) == NineSlots(at, key, c, column)
  {
    var w := c.weights;
    NineKeys(Share(Logged(column(Likes)), w.likes), Share(Logged(column(Replies)), w.replies),
             Share(Logged(column(Reposts)), w.reposts), Share(Logged(column(Quotes)), w.quotes),
             Share(Logged(column(ZapSats)), w.zapSats), Share(Plain(column(Actors)), w.actors),
             Share(Floor(c.minFollowers), w.author), Share(Quality(false), w.quality),
             Share(HalfLife(ScanHalfLife(c)), w.recency), key);
  }

  /** Every term puts its weight where the scan puts the weights of its slot. */
  ghost predicate InPlace(terms: seq<Term>, c: Compiled, column: Metric -> Query) {
    forall t :: t in terms ==> Accepted(t) && TermShares(t, 1) == [Share(SlotKey(SlotOf(t), c, column), t.weight)]
  }

  lemma OneSlotGrows(a: Slot -> real, b: Slot -> real, hit: Slot, weight: real, key: Key, c: Compiled,
                     column: Metric -> Query)
    requires !(hit.CountSlot? && hit.metric.OtherMetric?)
    requires forall slot :: b(slot) == a(slot) + if slot == hit then weight else 0.0
    ensures NineSlots(b, key, c, column) == NineSlots(a, key, c, column)
      + if SlotKey(hit, c, column) == key then weight else 0.0
  {
    forall slot ensures OneSlot(b, slot, key, c, column)
      == OneSlot(a, slot, key, c, column) + if slot == hit && SlotKey(hit, c, column) == key then weight else 0.0
    {
    }
  }

  function WeightsOf(terms: seq<Term>): Slot -> real {
    (slot: Slot) => WeightOf(terms, slot)
  }

  lemma {:induction false} LiveKeyWeight(terms: seq<Term>, c: Compiled, column: Metric -> Query, key: Key)
    requires InPlace(terms, c, column)
    ensures KeyWeight(LiveShares(terms, 1), key) == NineSlots(WeightsOf(terms), key, c, column)
  {
    if terms != [] {
      var front, last := terms[..|terms| - 1], terms[|terms| - 1];
      assert last in terms;
      LiveKeyWeight(front, c, column, key);
      OneMoreKey(LiveShares(front, 1), Share(SlotKey(SlotOf(last), c, column), last.weight), key);
      OneSlotGrows(WeightsOf(front), WeightsOf(terms), SlotOf(last), last.weight, key, c, column);
    }
  }

  lemma SharedFloor(terms: seq<Term>, t: Term)
    requires t.PubkeyScore? && t in terms
    requires forall u :: u in terms && u.PubkeyScore? ==> u.minFollowers == t.minFollowers
    ensures HighestFloor(terms) == t.minFollowers
  {
    FloorIsSome(terms);
  }

  /** The highest floor is above no term's floor, and is the floor of some term or zero. */
  lemma {:induction false} FloorIsSome(terms: seq<Term>)
    ensures forall u :: u in terms && u.PubkeyScore? ==> u.minFollowers <= HighestFloor(terms)
    ensures HighestFloor(terms) == 0
      || exists u :: u in terms && u.PubkeyScore? && u.minFollowers == HighestFloor(terms)
  {
    if terms != [] {
      var front, last := terms[..|terms| - 1], terms[|terms| - 1];
      assert terms == front + [last];
      FloorIsSome(front);
    }
  }

  lemma {:induction false} SharedHalfLife(terms: seq<Term>, t: Term)
    requires t.CandidateField? && t in terms
    requires forall u :: u in terms && u.CandidateField? ==> u.halfLife == t.halfLife
    ensures LastHalfLife(terms) == t.halfLife
  {
    var front, last := terms[..|terms| - 1], terms[|terms| - 1];
    assert terms == front + [last];
    if !last.CandidateField? {
      SharedHalfLife(front, t);
    }
  }

  /** A term that counts once for each listing, for an id that is listed once. */
  lemma OnceIsOnce(t: Term)
    ensures t.PubkeyScore? ==> TermShares(t, 1) == [Share(Floor(t.minFollowers), t.weight)]
    ensures t.CandidateField? ==> TermShares(t, 1) == [Share(HalfLife(t.halfLife), t.weight)]
  {
    assert 1 as real * t.weight == t.weight;
  }

  lemma SharedTermIsInPlace(terms: seq<Term>, c: Compiled, column: Metric -> Query, t: Term)
    requires t in terms && Accepted(t) && Compiles(terms, c) && SharedParameters(terms, column)
    ensures TermShares(t, 1) == [Share(SlotKey(SlotOf(t), c, column), t.weight)]
  {
    OnceIsOnce(t);
    match t
    case PubkeyScore(_, _, _, _, _) =>
      SharedFloor(terms, t);
      assert SlotKey(AuthorSlot, c, column) == Floor(t.minFollowers);
    case CandidateField(_, _, _, _) =>
      SharedHalfLife(terms, t);
      assert SlotKey(RecencySlot, c, column) == HalfLife(t.halfLife);
    case _ =>
  }

  lemma SharedIsInPlace(terms: seq<Term>, c: Compiled, column: Metric -> Query)
    requires (forall t :: t in terms ==> Accepted(t)) && Compiles(terms, c) && SharedParameters(terms, column)
    ensures InPlace(terms, c, column)
  {
    forall t | t in terms ensures TermShares(t, 1) == [Share(SlotKey(SlotOf(t), c, column), t.weight)] {
      SharedTermIsInPlace(terms, c, column, t);
    }
  }

  /** With any library, accepted terms with shared parameters keep their scores, duplicates included. */
  lemma SharedParametersSuffice(m: Library, terms: seq<Term>, c: Compiled, column: Metric -> Query)
    requires (forall t :: t in terms ==> Accepted(t)) && Compiles(terms, c) && SharedParameters(terms, column)
    ensures PreservesScores(m, terms, c, column, 1)
  {
    SharedIsInPlace(terms, c, column);
    forall key ensures KeyWeight(LiveShares(terms, 1), key) == KeyWeight(ScanShares(c, column), key) {
      LiveKeyWeight(terms, c, column, key);
      ScanKeyWeight(c, column, key, WeightsOf(terms));
    }
    forall row: Row | row.age >= 0.0
      ensures Score(m, LiveShares(terms, 1), row) == Score(m, ScanShares(c, column), row)
    {
      PartsAreProportional(m, row);
      SameWeightsSameSum(LiveShares(terms, 1), ScanShares(c, column), Parts(m, row), Values(m, row));
    }
    PreservedIsSame(m, terms, c, column, 1);
  }

  /** The scan of the feature table then gives each candidate its live base score. */
  lemma ScanEqualsLive(world: World, terms: seq<Term>, candidates: seq<Candidate>, e: Candidate, c: Compiled,
                       column: Metric -> Query)
    requires (forall t :: t in terms ==> Accepted(t)) && world.math.log1p(0.0) == 0.0
    requires forall a :: a in candidates && a.id == e.id ==> a == e
    requires PreservesScores(world.math, terms, c, column, Copies(candidates, e.id))
    ensures LiveScore(world, terms, candidates, e.id) == ScanScore(world.math, c, column, RowOf(world, e))
    ensures RowOf(world, e) == Row(world.author("vertex", e.pubkey), world.derived("contribution_quality", e.id),
                                   RowOf(world, e).count, if world.now < e.createdAt then 0.0
                                     else world.now - e.createdAt)
    ensures forall q :: RowOf(world, e).count(q) == if world.rows(q, e.id).Some? then world.rows(q, e.id).value else 0
  {
    LiveIsWeighted(world, terms, candidates, e);
    assert RowOf(world, e).age >= 0.0;
  }

  lemma SharesOfTwo(t: Term, u: Term, copies: nat)
    ensures LiveShares([t, u], copies) == TermShares(t, copies) + TermShares(u, copies)
    ensures HighestFloor([t, u]) == RaisedFloor(RaisedFloor(0, t), u)
  {
    assert [t, u][..1] == [t] && [t][..0] == [];
    assert LiveShares([t], copies) == TermShares(t, copies) && HighestFloor([t]) == RaisedFloor(0, t);
  }

  /** Acceptance alone is not enough: two floors are compiled to the higher one. */
  lemma TwoFloorsDiffer(m: Library, column: Metric -> Query, c: Compiled)
    requires Lawful(m)
    requires Compiles([PubkeyScore(1.0, "vertex", "AUTHOR", 0.0, 0), PubkeyScore(1.0, "vertex", "AUTHOR", 0.0, 10)], c)
    ensures !PreservesScores(m, [PubkeyScore(1.0, "vertex", "AUTHOR", 0.0, 0),
                                 PubkeyScore(1.0, "vertex", "AUTHOR", 0.0, 10)], c, column, 1)
  {
    var low, high := PubkeyScore(1.0, "vertex", "AUTHOR", 0.0, 0), PubkeyScore(1.0, "vertex", "AUTHOR", 0.0, 10);
    LiveFloorWeight(low, high);
    ScanFloorWeight(c, column);
    PreservedIff(m, [low, high], c, column, 1);
  }

  /** The live path gives the lower floor its own term's weight. */
  lemma LiveFloorWeight(low: Term, high: Term)
    requires low == PubkeyScore(1.0, "vertex", "AUTHOR", 0.0, 0)
      && high == PubkeyScore(1.0, "vertex", "AUTHOR", 0.0, 10)
    ensures KeyWeight(LiveShares([low, high], 1), Floor(0)) == 1.0 && HighestFloor([low, high]) == 10
  {
    SharesOfTwo(low, high, 1);
    TwoKeyWeight(low, high, Floor(0));
  }

  /** The scan gives a floor below the compiled one none. */
  lemma ScanFloorWeight(c: Compiled, column: Metric -> Query)
    requires c.minFollowers > 0
    ensures KeyWeight(ScanShares(c, column), Floor(0)) == 0.0
  {
    ScanKeyWeight(c, column, Floor(0), (slot: Slot) => At(c.weights, slot));
  }

  lemma TwoKeyWeight(t: Term, u: Term, key: Key)
    requires t.PubkeyScore? && u.PubkeyScore?
    ensures KeyWeight(TermShares(t, 1) + TermShares(u, 1), key)
         == (if key == Floor(t.minFollowers) then t.weight else 0.0)
           + (if key == Floor(u.minFollowers) then u.weight else 0.0)
  {
    var a, b := Share(Floor(t.minFollowers), t.weight), Share(Floor(u.minFollowers), u.weight);
    OneMoreKey([], a, key);
    OneMoreKey([a], b, key);
    assert TermShares(t, 1)[0] == a && TermShares(u, 1)[0] == b;
    assert [] + [a] == [a] == TermShares(t, 1) && TermShares(u, 1) == [b];
  }
}
