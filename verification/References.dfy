/**
 * Batched reference resolution: loadSelectedReferencesBatch and its helpers in
 * internal/graphqlapi/schema.go. One loop resolves the references of a whole page
 * of events; the theorem is that each event gets what it would get alone.
 */
module References {
  import opened Wrappers
  import opened Sorting
  import opened Events

  // ---------------------------------------------------------------------------
  // Selecting reference ids from the tags of one event
  // ---------------------------------------------------------------------------

  datatype TagPredicate = TagPredicate(key: string, value: string, values: seq<string>, marker: string,
                                       markers: seq<string>, excludeMarkers: seq<string>, index: int)

  datatype SelectInput = SelectInput(selectors: seq<TagPredicate>, fallback: Option<TagPredicate>,
                                     fallbackLast: bool, limit: int, maxDepth: nat, excludeSelf: bool)

  predicate TagMatches(tag: seq<string>, p: TagPredicate) {
    && |tag| > 0 && tag[0] == p.key
    && p.index < |tag|
    && (p.value != "" ==> |tag| >= 2 && tag[1] == p.value)
    && (p.values != [] ==> |tag| >= 2 && tag[1] in p.values)
    && (p.marker != "" ==> |tag| >= 4 && tag[3] == p.marker)
    && (p.markers != [] ==> |tag| >= 4 && tag[3] in p.markers)
    && (|tag| >= 4 ==> tag[3] !in p.excludeMarkers)
  }

  predicate IsHex64(s: string) {
    |s| == 64 && forall i :: 0 <= i < |s| ==> '0' <= s[i] <= '9' || 'a' <= s[i] <= 'f'
  }

  predicate Eligible(event: Event, tag: seq<string>, p: TagPredicate, excludeSelf: bool) {
    TagMatches(tag, p) && |tag| >= 2 && IsHex64(tag[1]) && !(excludeSelf && tag[1] == event.id)
  }

  /** The ids that eligible tags carry, in tag order, repetitions included. */
  function EligibleIDs(event: Event, tags: seq<seq<string>>, p: TagPredicate, excludeSelf: bool): seq<string> {
    if tags == [] then []
    else
      var last := tags[|tags| - 1];
      EligibleIDs(event, tags[..|tags| - 1], p, excludeSelf)
      + if Eligible(event, last, p, excludeSelf) then [last[1]] else []
  }

  /** First occurrences only. */
  function Dedup(s: seq<string>): (r: seq<string>)
    ensures Distinct(r)
    ensures forall x :: x in r <==> x in s
  {
    if s == [] then []
    else
      var front := Dedup(s[..|s| - 1]);
      assert s == s[..|s| - 1] + [s[|s| - 1]];
      if s[|s| - 1] in front then front else front + [s[|s| - 1]]
  }

  function Reverse<T>(s: seq<T>): seq<T> {
    if s == [] then [] else [s[|s| - 1]] + Reverse(s[..|s| - 1])
  }

  /** The first `limit` distinct eligible ids, reading the tags forwards or backwards. */
  function Matching(event: Event, p: TagPredicate, limit: int, excludeSelf: bool, fromLast: bool): seq<string> {
    if limit <= 0 then []
    else
      var tags := if fromLast then Reverse(event.tags) else event.tags;
      Take(Dedup(EligibleIDs(event, tags, p, excludeSelf)), limit)
  }

  lemma {:induction false} DedupPrefix(s: seq<string>, i: nat)
    requires i <= |s|
    ensures Dedup(s[..i]) <= Dedup(s)
    decreases |s|
  {
    if i == |s| {
      assert s[..i] == s;
    } else {
      assert s[..|s| - 1][..i] == s[..i];
      DedupPrefix(s[..|s| - 1], i);
    }
  }

  lemma {:induction false} EligiblePrefix(event: Event, tags: seq<seq<string>>, p: TagPredicate, excludeSelf: bool,
                                          i: nat)
    requires i <= |tags|
    ensures EligibleIDs(event, tags[..i], p, excludeSelf) <= EligibleIDs(event, tags, p, excludeSelf)
    decreases |tags|
  {
    if i == |tags| {
      assert tags[..i] == tags;
    } else {
      assert tags[..|tags| - 1][..i] == tags[..i];
      EligiblePrefix(event, tags[..|tags| - 1], p, excludeSelf, i);
    }
  }

  lemma {:induction false} ReverseAt<T>(s: seq<T>)
    ensures |Reverse(s)| == |s|
    ensures forall k :: 0 <= k < |s| ==> Reverse(s)[k] == s[|s| - 1 - k]
  {
    if s != [] { ReverseAt(s[..|s| - 1]); }
  }

  lemma InReadingOrder(tags: seq<seq<string>>, fromLast: bool)
    ensures var read := if fromLast then Reverse(tags) else tags;
      |read| == |tags| && forall k :: 0 <= k < |tags| ==> read[k] == tags[if fromLast then |tags| - 1 - k else k]
  {
    ReverseAt(tags);
  }

  /** What the next tag adds to the ids found so far. */
  lemma NextTag(event: Event, tags: seq<seq<string>>, p: TagPredicate, excludeSelf: bool, k: nat, out: seq<string>)
    requires k < |tags| && out == Dedup(EligibleIDs(event, tags[..k], p, excludeSelf))
    ensures Dedup(EligibleIDs(event, tags[..k + 1], p, excludeSelf))
         == if Eligible(event, tags[k], p, excludeSelf) && tags[k][1] !in out then out + [tags[k][1]] else out
  {
    assert tags[..k + 1][..k] == tags[..k];
    var ids := EligibleIDs(event, tags[..k], p, excludeSelf);
    if Eligible(event, tags[k], p, excludeSelf) {
      assert (ids + [tags[k][1]])[..|ids|] == ids;
    } else {
      assert ids + [] == ids;
    }
  }

  /** Once `limit` ids are found the remaining tags cannot change the answer. */
  lemma EnoughTags(event: Event, tags: seq<seq<string>>, p: TagPredicate, excludeSelf: bool, k: nat, limit: nat)
    requires k <= |tags| && |Dedup(EligibleIDs(event, tags[..k], p, excludeSelf))| == limit
    ensures Take(Dedup(EligibleIDs(event, tags, p, excludeSelf)), limit)
      == Dedup(EligibleIDs(event, tags[..k], p, excludeSelf))
  {
    EligiblePrefix(event, tags, p, excludeSelf, k);
    var all := EligibleIDs(event, tags, p, excludeSelf);
    var some := EligibleIDs(event, tags[..k], p, excludeSelf);
    assert all[..|some|] == some;
    DedupPrefix(all, |some|);
  }

  method ReadTag(event: Event, ghost tags: seq<seq<string>>, p: TagPredicate, excludeSelf: bool, ghost k: nat,
                 tag: seq<string>, found: seq<string>, known: set<string>)
    returns (out: seq<string>, seen: set<string>)
    requires k < |tags| && tag == tags[k] && found == Dedup(EligibleIDs(event, tags[..k], p, excludeSelf))
    requires forall id :: id in known <==> id in found
    ensures out == Dedup(EligibleIDs(event, tags[..k + 1], p, excludeSelf)) && |out| <= |found| + 1
    ensures forall id :: id in seen <==> id in out
  {
    out, seen := found, known;
    NextTag(event, tags, p, excludeSelf, k, out);
    if Eligible(event, tag, p, excludeSelf) && tag[1] !in seen {
      seen := seen + {tag[1]};
      out := out + [tag[1]];
    }
  }

  method MatchingReferenceIDs(event: Event, p: TagPredicate, limit: int, excludeSelf: bool, fromLast: bool)
    returns (out: seq<string>)
    ensures out == Matching(event, p, limit, excludeSelf, fromLast)
  {
    out := [];
    if limit <= 0 {
      return;
    }
    ghost var tags := if fromLast then Reverse(event.tags) else event.tags;
    InReadingOrder(event.tags, fromLast);
    out := ScanTags(event, tags, p, limit, excludeSelf, fromLast);
  }

  method ScanTags(event: Event, ghost tags: seq<seq<string>>, p: TagPredicate, limit: nat, excludeSelf: bool,
                  fromLast: bool)
    returns (out: seq<string>)
    requires limit > 0 && |tags| == |event.tags|
    requires forall k :: 0 <= k < |tags| ==> tags[k] == event.tags[if fromLast then |tags| - 1 - k else k]
    ensures out == Take(Dedup(EligibleIDs(event, tags, p, excludeSelf)), limit)
  {
    out := [];
    var seen: set<string> := {};
    var k := 0;
    while k < |event.tags|
      invariant 0 <= k <= |event.tags|
      invariant out == Dedup(EligibleIDs(event, tags[..k], p, excludeSelf))
      invariant forall id :: id in seen <==> id in out
      invariant |out| < limit
    {
      var tag := event.tags[if fromLast then |event.tags| - 1 - k else k];
      out, seen := ReadTag(event, tags, p, excludeSelf, k, tag, out, seen);
      k := k + 1;
      if |out| >= limit {
        EnoughTags(event, tags, p, excludeSelf, k, limit);
        return;
      }
    }
    assert tags[..k] == tags;
  }

  /** The first selector that yields anything decides; the fallback is tried last. */
  function SelectFrom(event: Event, input: SelectInput, k: nat): seq<string>
    requires k <= |input.selectors|
    decreases |input.selectors| - k
  {
    if k < |input.selectors| then
      var ids := Matching(event, input.selectors[k], input.limit, input.excludeSelf, false);
      if ids != [] then ids else SelectFrom(event, input, k + 1)
    else if input.fallback.None? then []
    else Matching(event, input.fallback.value, input.limit, input.excludeSelf, input.fallbackLast)
  }

  function Selected(event: Event, input: SelectInput): seq<string> {
    SelectFrom(event, input, 0)
  }

  method SelectReferenceIDs(event: Event, input: SelectInput) returns (ids: seq<string>)
    ensures ids == Selected(event, input)
  {
    for k := 0 to |input.selectors|
      invariant Selected(event, input) == SelectFrom(event, input, k)
    {
      ids := MatchingReferenceIDs(event, input.selectors[k], input.limit, input.excludeSelf, false);
      if ids != [] {
        return;
      }
    }
    if input.fallback.None? {
      return [];
    }
    ids := MatchingReferenceIDs(event, input.fallback.value, input.limit, input.excludeSelf, input.fallbackLast);
  }

  lemma {:induction false} EligibleAreHex(event: Event, tags: seq<seq<string>>, p: TagPredicate, excludeSelf: bool)
    ensures forall id :: id in EligibleIDs(event, tags, p, excludeSelf) ==>
      IsHex64(id) && !(excludeSelf && id == event.id)
  {
    if tags != [] {
      EligibleAreHex(event, tags[..|tags| - 1], p, excludeSelf);
    }
  }

  lemma {:induction false} SelectedAreHex(event: Event, input: SelectInput, k: nat)
    requires k <= |input.selectors|
    ensures Distinct(SelectFrom(event, input, k))
    ensures |SelectFrom(event, input, k)| <= if input.limit > 0 then input.limit else 0
    ensures forall id :: id in SelectFrom(event, input, k) ==> IsHex64(id) && !(input.excludeSelf && id == event.id)
    decreases |input.selectors| - k
  {
    if k < |input.selectors| {
      EligibleAreHex(event, event.tags, input.selectors[k], input.excludeSelf);
      SelectedAreHex(event, input, k + 1);
    } else if input.fallback.Some? {
      EligibleAreHex(event, event.tags, input.fallback.value, input.excludeSelf);
      EligibleAreHex(event, Reverse(event.tags), input.fallback.value, input.excludeSelf);
    }
  }

  // ---------------------------------------------------------------------------
  // Following references for one source
  // ---------------------------------------------------------------------------

  /** Where one source stands: the ids it currently selects and the ids it has ever selected. */
  datatype Walk = Walk(ids: seq<string>, visited: set<string>)

  type Library = m: map<string, Event> | forall id :: id in m ==> m[id].id == id

  function AppendUnique(out: seq<string>, id: string): seq<string> {
    if id == "" || id in out then out else out + [id]
  }

  /** Take up the candidates that were never visited. */
  function Absorb(candidates: seq<string>, w: Walk): Walk {
    if candidates == [] then w
    else
      var w' := Absorb(candidates[..|candidates| - 1], w);
      var last := candidates[|candidates| - 1];
      if last in w'.visited then w' else Walk(AppendUnique(w'.ids, last), w'.visited + {last})
  }

  /** One selected id is replaced by what it newly references; it stays when there is nothing new. */
  function Visit(events: Library, input: SelectInput, id: string, w: Walk): Walk {
    if id !in events then w.(ids := AppendUnique(w.ids, id))
    else
      var w' := Absorb(Selected(events[id], input), w);
      if w'.visited == w.visited then w.(ids := AppendUnique(w.ids, id)) else w'
  }

  function RoundFrom(events: Library, input: SelectInput, ids: seq<string>, k: nat, w: Walk): Walk
    requires k <= |ids|
    decreases |ids| - k
  {
    if k == |ids| then w
    else
      var w' := Visit(events, input, ids[k], w);
      if ids[k] in events && |w'.ids| >= input.limit then w' else RoundFrom(events, input, ids, k + 1, w')
  }

  function Round(events: Library, input: SelectInput, w: Walk): Walk {
    RoundFrom(events, input, w.ids, 0, Walk([], w.visited))
  }

  /** Exactly n rounds, with no early exit. */
  function Rounds(events: Library, input: SelectInput, w: Walk, n: nat): Walk {
    if n == 0 then w else Round(events, input, Rounds(events, input, w, n - 1))
  }

  function Start(event: Event, input: SelectInput): Walk {
    var ids := Selected(event, input);
    Walk(ids, {event.id} + Elements(ids))
  }

  /** The events that exist among the ids, first occurrences in order. */
  function Collect(events: Library, ids: seq<string>): seq<Event> {
    if ids == [] then []
    else
      var front, last := Collect(events, ids[..|ids| - 1]), ids[|ids| - 1];
      if last in events && last !in ids[..|ids| - 1] then front + [events[last]] else front
  }

  /** What one event resolves to, by the plain algorithm: all rounds, for that event only. */
  function Resolve(events: Library, input: SelectInput, event: Event): seq<Event> {
    Collect(events, Rounds(events, input, Start(event, input), input.maxDepth).ids)
  }

  ghost predicate WalkInv(w: Walk) {
    Distinct(w.ids) && Elements(w.ids) <= w.visited && "" !in w.ids
  }

  lemma {:induction false} AbsorbInv(candidates: seq<string>, w: Walk)
    requires WalkInv(w) && "" !in candidates
    ensures var w' := Absorb(candidates, w);
      WalkInv(w') && w.ids <= w'.ids && w.visited <= w'.visited
      && (w'.visited != w.visited ==> exists x :: x in w'.ids && x !in w.visited)
  {
    if candidates != [] {
      AbsorbInv(candidates[..|candidates| - 1], w);
      var w1, last := Absorb(candidates[..|candidates| - 1], w), candidates[|candidates| - 1];
      if last !in w1.visited {
        assert last !in Elements(w1.ids);
        AppendDistinct(w1.ids, last);
        var w' := Absorb(candidates, w);
        assert w'.ids == w1.ids + [last];
        assert last in w'.ids && last !in w.visited;
      }
    }
  }

  /** One visit keeps the invariant; if it visits anything new, a new id is selected. */
  lemma VisitInv(events: Library, input: SelectInput, id: string, w: Walk)
    requires WalkInv(w) && id != "" && id in w.visited
    ensures var w' := Visit(events, input, id, w);
      WalkInv(w') && w.ids <= w'.ids && w.visited <= w'.visited
      && (w'.visited != w.visited ==> exists x :: x in w'.ids && x !in w.visited)
  {
    if id in events {
      SelectedAreHex(events[id], input, 0);
      AbsorbInv(Selected(events[id], input), w);
    }
    if id !in w.ids {
      AppendDistinct(w.ids, id);
    }
  }

  lemma {:induction false} RoundFromInv(events: Library, input: SelectInput, ids: seq<string>, k: nat, w: Walk,
                                        base: set<string>)
    requires k <= |ids| && WalkInv(w) && base <= w.visited && Elements(ids) <= base && "" !in ids
    requires w.visited == base || exists x :: x in w.ids && x !in base
    ensures var w' := RoundFrom(events, input, ids, k, w);
      WalkInv(w') && base <= w'.visited
      && (w'.visited == base || exists x :: x in w'.ids && x !in base)
    decreases |ids| - k
  {
    if k < |ids| {
      assert ids[k] in Elements(ids);
      VisitInv(events, input, ids[k], w);
      var w' := Visit(events, input, ids[k], w);
      if w.visited != base {
        var x :| x in w.ids && x !in base;
        assert x in w'.ids;
      }
      RoundFromInv(events, input, ids, k + 1, w', base);
    }
  }

  /** A source whose list a round leaves unchanged is at a fixpoint: nothing new was visited either. */
  lemma UnchangedIsFixpoint(events: Library, input: SelectInput, w: Walk)
    requires WalkInv(w)
    ensures WalkInv(Round(events, input, w))
    ensures Round(events, input, w).ids == w.ids ==> Round(events, input, w) == w
  {
    RoundFromInv(events, input, w.ids, 0, Walk([], w.visited), w.visited);
    var w' := Round(events, input, w);
    assert forall x :: x in w.ids ==> x in Elements(w.ids);
  }

  lemma StartInv(event: Event, input: SelectInput)
    ensures WalkInv(Start(event, input))
  {
    SelectedAreHex(event, input, 0);
  }

  lemma {:induction false} RoundsInv(events: Library, input: SelectInput, w: Walk, n: nat)
    requires WalkInv(w)
    ensures WalkInv(Rounds(events, input, w, n))
  {
    if n > 0 {
      RoundsInv(events, input, w, n - 1);
      UnchangedIsFixpoint(events, input, Rounds(events, input, w, n - 1));
    }
  }

  lemma {:induction false} FixpointStays(events: Library, input: SelectInput, w: Walk, n: nat, m: nat)
    requires n <= m && Rounds(events, input, w, n + 1) == Rounds(events, input, w, n)
    ensures Rounds(events, input, w, m) == Rounds(events, input, w, n)
    decreases m - n
  {
    if n < m {
      FixpointStays(events, input, w, n, m - 1);
    }
  }

  // ---------------------------------------------------------------------------
  // What resolution means
  // ---------------------------------------------------------------------------

  /** `id` is reached from `event` by following at most `hops` + 1 selected references. */
  ghost predicate Reaches(events: Library, input: SelectInput, event: Event, id: string, hops: nat)
    decreases hops
  {
    || id in Selected(event, input)
    || (hops > 0 && exists mid :: mid in events && Reaches(events, input, event, mid, hops - 1)
                                  && id in Selected(events[mid], input))
  }

  lemma {:induction false} ReachesMore(events: Library, input: SelectInput, event: Event, id: string, a: nat, b: nat)
    requires a <= b && Reaches(events, input, event, id, a)
    ensures Reaches(events, input, event, id, b)
    decreases a
  {
    if id !in Selected(event, input) {
      var mid :| mid in events && Reaches(events, input, event, mid, a - 1) && id in Selected(events[mid], input);
      ReachesMore(events, input, event, mid, a - 1, b - 1);
    }
  }

  lemma {:induction false} AbsorbFrom(candidates: seq<string>, w: Walk)
    ensures forall x :: x in Absorb(candidates, w).ids ==> x in w.ids || (x in candidates && x !in w.visited)
    ensures w.visited <= Absorb(candidates, w).visited
  {
    if candidates != [] {
      AbsorbFrom(candidates[..|candidates| - 1], w);
      assert candidates == candidates[..|candidates| - 1] + [candidates[|candidates| - 1]];
    }
  }

  lemma {:induction false} RoundFromReaches(events: Library, input: SelectInput, event: Event, ids: seq<string>,
                                            k: nat, w: Walk, hops: nat)
    requires k <= |ids| && event.id in w.visited
    requires forall x :: x in ids ==> Reaches(events, input, event, x, hops)
    requires forall x :: x in w.ids ==> Reaches(events, input, event, x, hops + 1)
    requires input.excludeSelf ==> event.id !in ids && event.id !in w.ids
    ensures var w' := RoundFrom(events, input, ids, k, w);
      && event.id in w'.visited
      && (forall x :: x in w'.ids ==> Reaches(events, input, event, x, hops + 1))
      && (input.excludeSelf ==> event.id !in w'.ids)
    decreases |ids| - k
  {
    if k < |ids| {
      ReachesMore(events, input, event, ids[k], hops, hops + 1);
      if ids[k] in events {
        AbsorbFrom(Selected(events[ids[k]], input), w);
      }
      RoundFromReaches(events, input, event, ids, k + 1, Visit(events, input, ids[k], w), hops);
    }
  }

  lemma {:induction false} RoundsReach(events: Library, input: SelectInput, event: Event, n: nat)
    ensures var w := Rounds(events, input, Start(event, input), n);
      && event.id in w.visited
      && (forall x :: x in w.ids ==> Reaches(events, input, event, x, n))
      && (input.excludeSelf ==> event.id !in w.ids)
  {
    SelectedAreHex(event, input, 0);
    if n > 0 {
      RoundsReach(events, input, event, n - 1);
      var w := Rounds(events, input, Start(event, input), n - 1);
      RoundFromReaches(events, input, event, w.ids, 0, Walk([], w.visited), n - 1);
    }
  }

  lemma {:induction false} CollectMembers(events: Library, ids: seq<string>)
    ensures forall e :: e in Collect(events, ids) <==> e.id in ids && e.id in events && events[e.id] == e
    ensures Distinct(Collect(events, ids))
  {
    if ids != [] {
      var front, last := ids[..|ids| - 1], ids[|ids| - 1];
      assert ids == front + [last];
      CollectMembers(events, front);
      if last in events && last !in front {
        AppendDistinct(Collect(events, front), events[last]);
      }
    }
  }

  /**
   * Every resolved event exists in the store, is reached within maxDepth + 1 selected
   * references, appears once, and is never the source itself when self-references are excluded.
   */
  lemma ResolvedAreReachable(events: Library, input: SelectInput, event: Event)
    ensures Distinct(Resolve(events, input, event))
    ensures forall e :: e in Resolve(events, input, event) ==>
      && e.id in events && events[e.id] == e
      && Reaches(events, input, event, e.id, input.maxDepth)
      && (input.excludeSelf ==> e.id != event.id)
  {
    RoundsReach(events, input, event, input.maxDepth);
    CollectMembers(events, Rounds(events, input, Start(event, input), input.maxDepth).ids);
  }

  // ---------------------------------------------------------------------------
  // What a round replaces
  // ---------------------------------------------------------------------------

  /** What the k-th id references; nothing if it is not in the store. */
  function References(events: Library, input: SelectInput, ids: seq<string>, k: nat): seq<string>
    requires k < |ids|
  {
    if ids[k] in events then Selected(events[ids[k]], input) else []
  }

  /** Everything that the first k ids reference. */
  function Offered(events: Library, input: SelectInput, ids: seq<string>, k: nat): set<string>
    requires k <= |ids|
  {
    if k == 0 then {} else Offered(events, input, ids, k - 1) + Elements(References(events, input, ids, k - 1))
  }

  function Without(s: seq<string>, seen: set<string>): seq<string> {
    if s == [] then []
    else
      var front, last := Without(s[..|s| - 1], seen), s[|s| - 1];
      if last in seen then front else front + [last]
  }

  /** What the k-th id gives way to: the references nobody knew and no id before it has; or itself, without any. */
  function Replacement(events: Library, input: SelectInput, w: Walk, k: nat): seq<string>
    requires k < |w.ids|
  {
    var novel := Without(References(events, input, w.ids, k), w.visited + Offered(events, input, w.ids, k));
    if novel == [] then [w.ids[k]] else novel
  }

  function Replacements(events: Library, input: SelectInput, w: Walk, n: nat): seq<string>
    requires n <= |w.ids|
  {
    if n == 0 then [] else Replacements(events, input, w, n - 1) + Replacement(events, input, w, n - 1)
  }

  /** The limit is reached after the k-th id, and that one was fetched. */
  predicate FullAfter(events: Library, input: SelectInput, w: Walk, k: nat)
    requires k < |w.ids|
  {
    w.ids[k] in events && |Replacements(events, input, w, k + 1)| >= input.limit
  }

  /** A round takes the first n ids: all, or those up to the first that fills the limit. */
  predicate Takes(events: Library, input: SelectInput, w: Walk, n: nat) {
    && n <= |w.ids| && (n < |w.ids| ==> n > 0 && FullAfter(events, input, w, n - 1))
    && (n > 0 ==> NoneFills(events, input, w, n - 1))
  }

  predicate NoneFills(events: Library, input: SelectInput, w: Walk, n: nat)
    requires n <= |w.ids|
  {
    forall k :: 0 <= k < n ==> !FullAfter(events, input, w, k)
  }

  lemma {:induction false} AbsorbAppends(candidates: seq<string>, w: Walk)
    requires Distinct(candidates) && "" !in candidates && Elements(w.ids) <= w.visited
    ensures Absorb(candidates, w) == Walk(w.ids + Without(candidates, w.visited), w.visited + Elements(candidates))
  {
    if candidates == [] {
      assert w.ids + [] == w.ids;
    } else {
      var front, last := candidates[..|candidates| - 1], candidates[|candidates| - 1];
      AbsorbAppends(front, w);
      LastIsAnother(candidates);
      WithoutMembers(front, w.visited);
      assert last !in w.visited ==> last !in w.ids + Without(front, w.visited);
    }
  }

  lemma LastIsAnother(s: seq<string>)
    requires s != [] && Distinct(s)
    ensures var front, last := s[..|s| - 1], s[|s| - 1];
      last !in front && Elements(s) == Elements(front) + {last} && Distinct(front) && last in s
        && forall x :: x in front ==> x in s
  {
  }

  lemma VisitReplaces(events: Library, input: SelectInput, w: Walk, k: nat, so: Walk)
    requires WalkInv(w) && k < |w.ids| && so.visited == w.visited + Offered(events, input, w.ids, k)
    requires Elements(so.ids) <= so.visited && w.ids[k] !in so.ids && w.ids[k] != ""
    ensures var id := w.ids[k];
      Visit(events, input, id, so) == Walk(so.ids + Replacement(events, input, w, k),
                                          w.visited + Offered(events, input, w.ids, k + 1))
    ensures forall x :: x in Replacement(events, input, w, k) ==> x == w.ids[k] || x !in so.visited
  {
    if w.ids[k] in events {
      var candidates := Selected(events[w.ids[k]], input);
      SelectedAreHex(events[w.ids[k]], input, 0);
      AbsorbAppends(candidates, so);
      WithoutMembers(candidates, so.visited);
      var novel := Without(candidates, so.visited);
      if novel == [] {
        assert forall x :: x in candidates ==> x !in novel;
        assert so.visited + Elements(candidates) == so.visited;
      } else {
        assert novel[0] in novel && novel[0] in Elements(candidates) && novel[0] !in so.visited;
      }
    }
  }

  /** What the walk is after the first k ids, none of which has filled the limit. */
  ghost predicate SoFar(events: Library, input: SelectInput, w: Walk, k: nat, so: Walk) {
    && k <= |w.ids|
    && so == Walk(Replacements(events, input, w, k), w.visited + Offered(events, input, w.ids, k))
    && Elements(so.ids) <= so.visited
    && (forall j :: k <= j < |w.ids| ==> w.ids[j] !in so.ids)
  }

  lemma NextSoFar(events: Library, input: SelectInput, w: Walk, k: nat, so: Walk)
    requires WalkInv(w) && k < |w.ids| && SoFar(events, input, w, k, so)
    ensures SoFar(events, input, w, k + 1, Visit(events, input, w.ids[k], so))
  {
    assert w.ids[k] in Elements(w.ids);
    VisitReplaces(events, input, w, k, so);
    var next := Visit(events, input, w.ids[k], so);
    forall x | x in Replacement(events, input, w, k) ensures x in next.visited {
      assert x == w.ids[k] || x in References(events, input, w.ids, k) by {
        WithoutMembers(References(events, input, w.ids, k), w.visited + Offered(events, input, w.ids, k));
      }
    }
    forall j | k + 1 <= j < |w.ids| ensures w.ids[j] !in next.ids {
      assert w.ids[j] in Elements(w.ids) && w.ids[j] in so.visited && w.ids[j] != w.ids[k];
    }
  }

  lemma {:induction false} WithoutMembers(s: seq<string>, seen: set<string>)
    ensures forall x :: x in Without(s, seen) <==> x in s && x !in seen
  {
    if s != [] {
      WithoutMembers(s[..|s| - 1], seen);
      assert s == s[..|s| - 1] + [s[|s| - 1]];
    }
  }

  lemma RoundFromStep(events: Library, input: SelectInput, w: Walk, k: nat, so: Walk, next: Walk)
    requires k < |w.ids| && next == Visit(events, input, w.ids[k], so) && SoFar(events, input, w, k + 1, next)
    ensures RoundFrom(events, input, w.ids, k, so) ==
      if FullAfter(events, input, w, k) then next else RoundFrom(events, input, w.ids, k + 1, next)
  {
  }

  lemma {:induction false} RoundFromReplaces(events: Library, input: SelectInput, w: Walk, k: nat, so: Walk,
                                             result: Walk)
    returns (n: nat)
    requires WalkInv(w) && SoFar(events, input, w, k, so) && NoneFills(events, input, w, k)
    requires result == RoundFrom(events, input, w.ids, k, so)
    ensures Takes(events, input, w, n)
    ensures result == Walk(Replacements(events, input, w, n), w.visited + Offered(events, input, w.ids, n))
    decreases |w.ids| - k
  {
    n := k;
    if k < |w.ids| {
      var next, full := Visit(events, input, w.ids[k], so), FullAfter(events, input, w, k);
      assert SoFar(events, input, w, k + 1, next) by {
        NextSoFar(events, input, w, k, so);
      }
      assert result == if full then next else RoundFrom(events, input, w.ids, k + 1, next) by {
        RoundFromStep(events, input, w, k, so, next);
      }
      n := k + 1;
      if !full {
        assert NoneFills(events, input, w, k + 1);
        n := RoundFromReplaces(events, input, w, k + 1, next, result);
      }
    }
  }

  /**
   * What a round is: ids are replaced, in order, by references that are new to the
   * source and to the ids before them; an id without any stays; and the round ends
   * once `limit` ids are there after a fetched one.
   */
  lemma RoundReplaces(events: Library, input: SelectInput, w: Walk) returns (n: nat)
    requires WalkInv(w)
    ensures Takes(events, input, w, n)
    ensures Round(events, input, w)
      == Walk(Replacements(events, input, w, n), w.visited + Offered(events, input, w.ids, n))
  {
    n := RoundFromReplaces(events, input, w, 0, Walk([], w.visited), Round(events, input, w));
  }

  /** The k-th id references something new to the source and to the ids before it. */
  predicate Advances(events: Library, input: SelectInput, w: Walk, k: nat)
    requires k < |w.ids|
  {
    exists c :: c in References(events, input, w.ids, k) && c !in w.visited + Offered(events, input, w.ids, k)
  }

  lemma ReplacedIff(events: Library, input: SelectInput, w: Walk, j: nat, k: nat)
    requires WalkInv(w) && j < |w.ids| && k < |w.ids|
    ensures w.ids[k] in Replacement(events, input, w, j) <==> j == k && !Advances(events, input, w, k)
  {
    assert w.ids[k] in Elements(w.ids);
    WithoutMembers(References(events, input, w.ids, j), w.visited + Offered(events, input, w.ids, j));
    var novel := Without(References(events, input, w.ids, j), w.visited + Offered(events, input, w.ids, j));
    assert Advances(events, input, w, j) <==> novel != [] by {
      if novel != [] {
        assert novel[0] in novel;
      }
    }
  }

  /** Which ids of the old list are left after a round: those taken that lead to nothing new. */
  lemma SurvivesIff(events: Library, input: SelectInput, w: Walk, k: nat) returns (n: nat)
    requires WalkInv(w) && k < |w.ids|
    ensures Takes(events, input, w, n)
    ensures w.ids[k] in Round(events, input, w).ids <==> k < n && !Advances(events, input, w, k)
  {
    n := RoundReplaces(events, input, w);
    assert OnlyIn(events, input, w, k, !Advances(events, input, w, k)) by {
      forall j: nat | j < |w.ids|
        ensures w.ids[k] in Replacement(events, input, w, j) <==> j == k && !Advances(events, input, w, k)
      {
        ReplacedIff(events, input, w, j, k);
      }
    }
    OwnReplacement(events, input, w, k, !Advances(events, input, w, k), n);
  }

  /** The k-th id is in no replacement but its own, and in that one if it stays. */
  ghost predicate OnlyIn(events: Library, input: SelectInput, w: Walk, k: nat, stays: bool)
    requires k < |w.ids|
  {
    forall j: nat :: j < |w.ids| ==> (w.ids[k] in Replacement(events, input, w, j) <==> j == k && stays)
  }

  function Flat(parts: seq<seq<string>>): seq<string> {
    if parts == [] then [] else Flat(parts[..|parts| - 1]) + parts[|parts| - 1]
  }

  lemma {:induction false} FlatMembers(parts: seq<seq<string>>, x: string)
    ensures x in Flat(parts) <==> exists j :: 0 <= j < |parts| && x in parts[j]
  {
    if parts != [] {
      var front := parts[..|parts| - 1];
      FlatMembers(front, x);
      assert forall j :: 0 <= j < |front| ==> front[j] == parts[j];
    }
  }

  lemma {:induction false} FlatReplacements(events: Library, input: SelectInput, w: Walk, n: nat)
    returns (parts: seq<seq<string>>)
    requires n <= |w.ids|
    ensures |parts| == n && forall j :: 0 <= j < n ==> parts[j] == Replacement(events, input, w, j)
    ensures Replacements(events, input, w, n) == Flat(parts)
  {
    parts := [];
    if n > 0 {
      var front := FlatReplacements(events, input, w, n - 1);
      parts := front + [Replacement(events, input, w, n - 1)];
      assert parts[..n - 1] == front;
    }
  }

  lemma OwnReplacement(events: Library, input: SelectInput, w: Walk, k: nat, stays: bool, n: nat)
    requires k < |w.ids| && n <= |w.ids| && OnlyIn(events, input, w, k, stays)
    ensures w.ids[k] in Replacements(events, input, w, n) <==> k < n && stays
  {
    var parts := FlatReplacements(events, input, w, n);
    FlatMembers(parts, w.ids[k]);
  }

  // ---------------------------------------------------------------------------
  // Chains of references
  // ---------------------------------------------------------------------------

  /**
   * The event selects just the first id, each id but the last is in the store and
   * selects just the next one; at the last the hops are used up or nothing new is selected.
   */
  ghost predicate IsChain(events: Library, input: SelectInput, event: Event, ids: seq<string>) {
    && 0 < |ids| <= input.maxDepth + 1 && Selected(event, input) == [ids[0]]
    && Distinct(ids) && event.id !in ids
    && (forall k :: 0 <= k < |ids| - 1 ==> ids[k] in events && Selected(events[ids[k]], input) == [ids[k + 1]])
    && (|ids| - 1 == input.maxDepth || ids[|ids| - 1] !in events
        || forall c :: c in Selected(events[ids[|ids| - 1]], input) ==> c == event.id || c in ids)
  }

  /** What a chain leads to. */
  function EndOf(events: Library, ids: seq<string>): seq<Event>
    requires ids != []
  {
    if ids[|ids| - 1] in events then [events[ids[|ids| - 1]]] else []
  }

  /** One id that leads to one new id gives way to it; one that leads to nothing new stays. */
  lemma SingleStep(events: Library, input: SelectInput, id: string, visited: set<string>, next: seq<string>)
    requires id != "" && id in visited && |next| <= 1
    requires Without(if id in events then Selected(events[id], input) else [], visited) == next
    ensures Round(events, input, Walk([id], visited)).ids == if next == [] then [id] else next
    ensures next == [] ==> Round(events, input, Walk([id], visited)).visited == visited
  {
    var w := Walk([id], visited);
    var n := RoundReplaces(events, input, w);
    assert Offered(events, input, w.ids, 0) == {} && visited + {} == visited;
    assert Replacements(events, input, w, 1) == [] + Replacement(events, input, w, 0);
    if next == [] {
      UnchangedIsFixpoint(events, input, w);
    }
  }

  lemma {:induction false} NothingNew(s: seq<string>, seen: set<string>)
    requires forall x :: x in s ==> x in seen
    ensures Without(s, seen) == []
  {
    if s != [] {
      NothingNew(s[..|s| - 1], seen);
      assert s[|s| - 1] in s;
    }
  }

  lemma SingleWithout(c: string, seen: set<string>)
    ensures Without([c], seen) == if c in seen then [] else [c]
  {
    assert [c][..0] == [];
  }

  lemma StepKnows(events: Library, input: SelectInput, id: string, visited: set<string>, next: string)
    requires id != "" && id in visited && id in events && Selected(events[id], input) == [next] && next !in visited
    ensures Round(events, input, Walk([id], visited)) == Walk([next], visited + {next})
  {
    assert Round(events, input, Walk([id], visited)).ids == [next] by {
      SingleWithout(next, visited);
      SingleStep(events, input, id, visited, [next]);
    }
    assert Round(events, input, Walk([id], visited)).visited == visited + {next} by {
      OfferedOne(events, input, [id]);
      VisitedAfter(events, input, id, visited);
      assert Elements([next]) == {next};
    }
  }

  lemma VisitedAfter(events: Library, input: SelectInput, id: string, visited: set<string>)
    requires id != "" && id in visited
    ensures Round(events, input, Walk([id], visited)).visited == visited + Offered(events, input, [id], 1)
  {
    var n := RoundReplaces(events, input, Walk([id], visited));
  }

  lemma OfferedOne(events: Library, input: SelectInput, ids: seq<string>)
    requires |ids| == 1
    ensures Offered(events, input, ids, 0) == {}
      && Offered(events, input, ids, 1) == Elements(References(events, input, ids, 0))
  {
    assert {} + Elements(References(events, input, ids, 0)) == Elements(References(events, input, ids, 0));
  }

  /** After n rounds a source of a chain selects its n-th id, and has visited those up to it. */
  lemma {:induction false} ChainAt(events: Library, input: SelectInput, event: Event, ids: seq<string>, n: nat)
    requires IsChain(events, input, event, ids) && n < |ids|
    ensures Rounds(events, input, Start(event, input), n) == Walk([ids[n]], {event.id} + Elements(ids[..n + 1]))
  {
    if n == 0 {
      assert ids[..1] == [ids[0]];
    } else {
      ChainAt(events, input, event, ids, n - 1);
      StartInv(event, input);
      RoundsInv(events, input, Start(event, input), n - 1);
      var visited := {event.id} + Elements(ids[..n]);
      assert ids[n - 1] in Walk([ids[n - 1]], visited).ids && ids[n - 1] in ids[..n];
      assert ids[n] !in visited;
      assert ids[n - 1] in events && Selected(events[ids[n - 1]], input) == [ids[n]];
      StepKnows(events, input, ids[n - 1], visited, ids[n]);
      assert Elements(ids[..n + 1]) == Elements(ids[..n]) + {ids[n]};
      assert visited + {ids[n]} == {event.id} + Elements(ids[..n + 1]);
    }
  }

  /** The end of a chain that is not used up is where the source stays. */
  lemma ChainEnds(events: Library, input: SelectInput, event: Event, ids: seq<string>)
    requires IsChain(events, input, event, ids)
    ensures Rounds(events, input, Start(event, input), input.maxDepth).ids == [ids[|ids| - 1]]
  {
    var n, last := |ids| - 1, ids[|ids| - 1];
    ChainAt(events, input, event, ids, n);
    if n < input.maxDepth {
      var visited := {event.id} + Elements(ids);
      assert ids[..n + 1] == ids;
      StartInv(event, input);
      RoundsInv(events, input, Start(event, input), n);
      assert last in Walk([last], visited).ids && last in ids;
      var candidates := if last in events then Selected(events[last], input) else [];
      NothingNew(candidates, visited);
      SingleStep(events, input, last, visited, []);
      FixpointStays(events, input, Start(event, input), n, input.maxDepth);
    }
  }

  lemma CollectOne(events: Library, id: string)
    ensures Collect(events, [id]) == if id in events then [events[id]] else []
  {
    assert [id][..0] == [];
  }

  /** An event with a chain of references resolves to what the chain leads to, and to nothing on the way. */
  lemma ChainResolves(events: Library, input: SelectInput, event: Event, ids: seq<string>)
    requires IsChain(events, input, event, ids)
    ensures Resolve(events, input, event) == EndOf(events, ids)
  {
    ChainEnds(events, input, event, ids);
    CollectOne(events, ids[|ids| - 1]);
  }

  /** With no hops, an event resolves to the events it selects, in that order. */
  lemma WithoutHops(events: Library, input: SelectInput, event: Event)
    requires input.maxDepth == 0 && forall id :: id in Selected(event, input) ==> id in events
    ensures |Resolve(events, input, event)| == |Selected(event, input)|
    ensures forall i :: 0 <= i < |Selected(event, input)| ==>
      Resolve(events, input, event)[i] == events[Selected(event, input)[i]]
  {
    SelectedAreHex(event, input, 0);
    CollectInOrder(events, Selected(event, input));
  }

  lemma {:induction false} CollectInOrder(events: Library, ids: seq<string>)
    requires Distinct(ids) && forall id :: id in ids ==> id in events
    ensures |Collect(events, ids)| == |ids| && forall i :: 0 <= i < |ids| ==> Collect(events, ids)[i] == events[ids[i]]
  {
    if ids != [] {
      CollectInOrder(events, ids[..|ids| - 1]);
      assert ids[|ids| - 1] in ids;
    }
  }

  // ---------------------------------------------------------------------------
  // The store
  // ---------------------------------------------------------------------------

  /** A deterministic event table; queries for the id lists in `failing` fail. */
  datatype Store = Store(events: Library, failing: set<seq<string>>)

  function EffectiveLimit(limit: nat): nat {
    if limit == 0 || limit > 500 then 50 else limit
  }

  /** QueryEvents by ids: the newest rows, one per id, cut at the effective limit. */
  function QueryEvents(store: Store, ids: seq<string>, limit: nat): Result<seq<Event>, string> {
    if ids in store.failing then Err("query failed")
    else Ok(Take(Sort(Newer, Collect(store.events, ids)), EffectiveLimit(limit)))
  }

  /** A chunk of at most 500 ids, asked for with its own length, never hits the row cap. */
  lemma ChunkIsComplete(store: Store, ids: seq<string>)
    requires 0 < |ids| <= 500 && ids !in store.failing
    ensures var rows := QueryEvents(store, ids, |ids|).value;
      forall e :: e in rows <==> e.id in ids && e.id in store.events && store.events[e.id] == e
  {
    CollectMembers(store.events, ids);
    CollectLength(store.events, ids);
    SortKeeps(Newer, Collect(store.events, ids));
    SameMultiset(Sort(Newer, Collect(store.events, ids)), Collect(store.events, ids));
  }

  lemma {:induction false} CollectLength(events: Library, ids: seq<string>)
    ensures |Collect(events, ids)| <= |ids|
  {
    if ids != [] { CollectLength(events, ids[..|ids| - 1]); }
  }

  /** Asking for more than 500 rows at once would lose rows: the store then returns 50. */
  lemma LargeRequestsAreCut(store: Store, ids: seq<string>)
    requires |ids| > 500 && ids !in store.failing && |Collect(store.events, ids)| > 50
    ensures exists e :: e in Collect(store.events, ids) && e !in QueryEvents(store, ids, |ids|).value
  {
    var all := Collect(store.events, ids);
    CollectMembers(store.events, ids);
    SortKeeps(Newer, all);
    SameMultiset(Sort(Newer, all), all);
    var sorted := Sort(Newer, all);
    assert sorted[50] !in sorted[..50];
    assert sorted[50] in all;
  }

  method UniqueStrings(values: seq<string>) returns (out: seq<string>)
    ensures Distinct(out)
    ensures forall v :: v in out <==> v in values && v != ""
  {
    out := [];
    for i := 0 to |values|
      invariant Distinct(out)
      invariant forall v :: v in out <==> v in values[..i] && v != ""
    {
      assert values[..i + 1] == values[..i] + [values[i]];
      if values[i] != "" && values[i] !in out {
        AppendDistinct(out, values[i]);
        out := out + [values[i]];
      }
    }
    assert values[..|values|] == values;
    SortKeeps(StringLess, out);
    SameMultiset(Sort(StringLess, out), out);
    out := Sort(StringLess, out);
  }

  method AddRows(out: map<string, Event>, rows: seq<Event>) returns (r: map<string, Event>)
    ensures forall id :: id in r <==> id in out || exists e :: e in rows && e.id == id
    ensures forall id :: id in r ==> (id in out && r[id] == out[id]) || (r[id] in rows && r[id].id == id)
  {
    r := out;
    for i := 0 to |rows|
      invariant forall id :: id in r <==> id in out || exists e :: e in rows[..i] && e.id == id
      invariant forall id :: id in r ==> (id in out && r[id] == out[id]) || (r[id] in rows[..i] && r[id].id == id)
    {
      assert rows[..i + 1] == rows[..i] + [rows[i]];
      r := r[rows[i].id := rows[i]];
    }
    assert rows[..|rows|] == rows;
  }

  /** `found` is what the store has under `ids`. */
  ghost predicate Found(store: Store, ids: seq<string>, found: map<string, Event>) {
    && (forall id :: id in found <==> id in ids && id in store.events)
    && (forall id :: id in found ==> found[id] == store.events[id])
  }

  lemma FoundChunk(store: Store, done: seq<string>, batch: seq<string>, rows: seq<Event>,
                   before: map<string, Event>, after: map<string, Event>)
    requires Found(store, done, before)
    requires forall e :: e in rows <==> e.id in batch && e.id in store.events && store.events[e.id] == e
    requires forall id :: id in after <==> id in before || exists e :: e in rows && e.id == id
    requires forall id :: id in after ==>
      (id in before && after[id] == before[id]) || (after[id] in rows && after[id].id == id)
    ensures Found(store, done + batch, after)
  {
    forall id ensures id in after <==> id in done + batch && id in store.events {
      if id in batch && id in store.events {
        assert store.events[id] in rows;
      }
    }
  }

  lemma TakeChunk(ids: seq<string>, start: nat, end: nat)
    requires start < |ids| && end == if start + 500 > |ids| then |ids| else start + 500
    ensures Take(ids, start) == ids[..start] && Take(ids, start + 500) == ids[..start] + ids[start..end]
  {
    assert ids[..end] == ids[..start] + ids[start..end];
    assert ids[..|ids|] == ids;
  }

  /** Everything the store has under the given ids, fetched 500 ids at a time. */
  method QueryEventsByIDs(store: Store, wanted: seq<string>) returns (r: Result<map<string, Event>, string>)
    ensures r.Ok? ==> forall id :: id in r.value <==> id in wanted && id != "" && id in store.events
    ensures r.Ok? ==> forall id :: id in r.value ==> r.value[id] == store.events[id]
    ensures store.failing == {} ==> r.Ok?
  {
    var ids := UniqueStrings(wanted);
    var out: map<string, Event> := map[];
    var start := 0;
    while start < |ids|
      invariant 0 <= start
      invariant Found(store, Take(ids, start), out)
    {
      var end := if start + 500 > |ids| then |ids| else start + 500;
      var batch := ids[start..end];
      var rows := QueryEvents(store, batch, |batch|);
      if rows.Err? {
        return Err(rows.error);
      }
      ChunkIsComplete(store, batch);
      var more := AddRows(out, rows.value);
      FoundChunk(store, ids[..start], batch, rows.value, out, more);
      TakeChunk(ids, start, end);
      out := more;
      start := start + 500;
    }
    r := Ok(out);
  }

  // ---------------------------------------------------------------------------
  // The batched loop
  // ---------------------------------------------------------------------------

  ghost predicate Agrees(events: Library, fetched: map<string, Event>) {
    forall id :: id in fetched ==> id in events && fetched[id] == events[id]
  }

  /** `fetched` agrees with the store, and knows about every id of `ids` that exists. */
  ghost predicate Knows(events: Library, fetched: map<string, Event>, ids: seq<string>) {
    && Agrees(events, fetched)
    && (forall id :: id in ids && id in events ==> id in fetched)
  }

  ghost predicate AllKnow(events: Library, fetched: map<string, Event>, walks: map<string, Walk>) {
    forall s :: s in walks ==> Knows(events, fetched, walks[s].ids)
  }

  method AppendUniqueReferenceID(out: seq<string>, seen: set<string>, id: string)
    returns (out': seq<string>, seen': set<string>)
    requires seen == Elements(out)
    ensures out' == AppendUnique(out, id) && seen' == Elements(out')
  {
    out', seen' := out, seen;
    if id != "" && id !in seen {
      out', seen' := out + [id], seen + {id};
    }
  }

  lemma AbsorbGrows(candidates: seq<string>, j: nat, w: Walk)
    requires j < |candidates|
    ensures var before, last := Absorb(candidates[..j], w), candidates[j];
      Absorb(candidates[..j + 1], w) ==
        if last in before.visited then before else Walk(AppendUnique(before.ids, last), before.visited + {last})
  {
    assert candidates[..j + 1][..j] == candidates[..j];
  }

  /** The body of the per-source loop: one round for one source, on shared fetched events. */
  method AdvanceSource(ghost events: Library, fetched: map<string, Event>, input: SelectInput,
                       ids: seq<string>, visited: set<string>)
    returns (nextIDs: seq<string>, visited': set<string>)
    requires Knows(events, fetched, ids)
    ensures Walk(nextIDs, visited') == Round(events, input, Walk(ids, visited))
  {
    nextIDs, visited' := [], visited;
    var seenNext: set<string> := {};
    for k := 0 to |ids|
      invariant seenNext == Elements(nextIDs)
      invariant Round(events, input, Walk(ids, visited)) == RoundFrom(events, input, ids, k, Walk(nextIDs, visited'))
    {
      var id := ids[k];
      ghost var w := Walk(nextIDs, visited');
      if id !in fetched {
        nextIDs, seenNext := AppendUniqueReferenceID(nextIDs, seenNext, id);
      } else {
        var candidates := SelectReferenceIDs(fetched[id], input);
        var advanced := false;
        for j := 0 to |candidates|
          invariant seenNext == Elements(nextIDs)
          invariant Walk(nextIDs, visited') == Absorb(candidates[..j], w)
          invariant w.visited <= visited' && (advanced <==> visited' != w.visited)
          invariant !advanced ==> nextIDs == w.ids
        {
          AbsorbGrows(candidates, j, w);
          if candidates[j] !in visited' {
            visited' := visited' + {candidates[j]};
            nextIDs, seenNext := AppendUniqueReferenceID(nextIDs, seenNext, candidates[j]);
            advanced := true;
          }
        }
        assert candidates[..|candidates|] == candidates;
        if !advanced {
          nextIDs, seenNext := AppendUniqueReferenceID(nextIDs, seenNext, id);
        }
        assert Walk(nextIDs, visited') == Visit(events, input, id, w);
        if |nextIDs| >= input.limit {
          return;
        }
      }
      assert Walk(nextIDs, visited') == Visit(events, input, id, w);
    }
  }

  /** The page of events, one per id. */
  ghost predicate PageOf(page: seq<Event>, sources: map<string, Event>) {
    && (forall e :: e in page ==> e.id in sources && sources[e.id] == e)
    && (forall id :: id in sources ==> sources[id] in page && sources[id].id == id)
  }

  /** Every source has done exactly n rounds. */
  ghost predicate AtRound(events: Library, input: SelectInput, sources: map<string, Event>,
                          walks: map<string, Walk>, n: nat) {
    && walks.Keys == sources.Keys
    && forall id :: id in sources ==> SourceAt(events, input, sources[id], walks[id], n)
  }

  ghost predicate SourceAt(events: Library, input: SelectInput, source: Event, walk: Walk, n: nat) {
    walk == Rounds(events, input, Start(source, input), n)
  }

  method SelectedReferenceFetchIDs(walks: map<string, Walk>, fetched: map<string, Event>) returns (ids: seq<string>)
    ensures forall id :: id in ids <==> id != "" && id !in fetched && exists s :: s in walks && id in walks[s].ids
  {
    ids := [];
    var seen: set<string> := {};
    var todo := walks.Keys;
    while todo != {}
      invariant todo <= walks.Keys && seen == Elements(ids)
      invariant forall id :: id in ids <==>
        id != "" && id !in fetched && exists s :: s in walks && s !in todo && id in walks[s].ids
    {
      var s :| s in todo;
      var list := walks[s].ids;
      for k := 0 to |list|
        invariant seen == Elements(ids)
        invariant forall id :: id in ids <==> (id != "" && id !in fetched &&
          ((exists s' :: s' in walks && s' !in todo && id in walks[s'].ids) || id in list[..k]))
      {
        assert list[..k + 1] == list[..k] + [list[k]];
        if list[k] !in fetched {
          ids, seen := AppendUniqueReferenceID(ids, seen, list[k]);
        }
      }
      assert list[..|list|] == list;
      todo := todo - {s};
    }
  }

  /** Query for every selected id that was not fetched yet. */
  method FetchSelected(store: Store, fetched: map<string, Event>, walks: map<string, Walk>)
    returns (r: Result<map<string, Event>, string>)
    requires Agrees(store.events, fetched)
    ensures store.failing == {} ==> r.Ok?
    ensures r.Ok? ==> Agrees(store.events, r.value)
    ensures r.Ok? ==>
      forall s, id :: s in walks && id in walks[s].ids && id != "" && id in store.events ==> id in r.value
  {
    var fetchIDs := SelectedReferenceFetchIDs(walks, fetched);
    if |fetchIDs| == 0 {
      return Ok(fetched);
    }
    var more := QueryEventsByIDs(store, fetchIDs);
    if more.Err? {
      return Err(more.error);
    }
    r := Ok(fetched + more.value);
  }

  /** All sources but those still to do have advanced from round n to the next. */
  ghost predicate PartlyAdvanced(events: Library, input: SelectInput, sources: map<string, Event>,
                                 walks: map<string, Walk>, walks': map<string, Walk>, todo: set<string>, n: nat) {
    && walks.Keys == walks'.Keys == sources.Keys
    && (forall s :: s in todo && s in walks ==> walks'[s] == walks[s])
    && (forall s :: s in walks && s !in todo ==> SourceAt(events, input, sources[s], walks'[s], n + 1))
  }

  lemma OneMoreAdvanced(events: Library, input: SelectInput, sources: map<string, Event>,
                        walks: map<string, Walk>, walks': map<string, Walk>, todo: set<string>, n: nat,
                        s: string, next: Walk)
    requires PartlyAdvanced(events, input, sources, walks, walks', todo, n) && s in todo && s in walks
    requires SourceAt(events, input, sources[s], next, n + 1)
    ensures PartlyAdvanced(events, input, sources, walks, walks'[s := next], todo - {s}, n)
    ensures next == walks[s] && walks' == walks ==> walks'[s := next] == walks
  {
  }

  /** Advance every source by one round, in whatever order the map yields them. */
  method AdvanceAll(ghost events: Library, fetched: map<string, Event>, input: SelectInput,
                    ghost sources: map<string, Event>, walks: map<string, Walk>, ghost n: nat)
    returns (walks': map<string, Walk>, changed: bool)
    requires AtRound(events, input, sources, walks, n)
    requires AllKnow(events, fetched, walks)
    ensures AtRound(events, input, sources, walks', n + 1)
    ensures !changed ==> walks' == walks
  {
    walks', changed := walks, false;
    var todo := walks.Keys;
    while todo != {}
      invariant todo <= walks.Keys
      invariant PartlyAdvanced(events, input, sources, walks, walks', todo, n)
      invariant !changed ==> walks' == walks
    {
      var s :| s in todo;
      var next, differs := AdvanceOne(events, fetched, input, sources[s], walks[s], n);
      if differs {
        changed := true;
      }
      OneMoreAdvanced(events, input, sources, walks, walks', todo, n, s, next);
      walks' := walks'[s := next];
      todo := todo - {s};
    }
  }

  method AdvanceOne(ghost events: Library, fetched: map<string, Event>, input: SelectInput, ghost source: Event,
                    walk: Walk, ghost n: nat)
    returns (next: Walk, differs: bool)
    requires SourceAt(events, input, source, walk, n) && Knows(events, fetched, walk.ids)
    ensures SourceAt(events, input, source, next, n + 1)
    ensures differs <==> next.ids != walk.ids
    ensures !differs ==> next == walk
  {
    var nextIDs, visited := AdvanceSource(events, fetched, input, walk.ids, walk.visited);
    next := Walk(nextIDs, visited);
    StartInv(source, input);
    RoundsInv(events, input, Start(source, input), n);
    UnchangedIsFixpoint(events, input, walk);
    differs := walk.ids != nextIDs;
  }

  lemma CollectGrows(events: Library, ids: seq<string>, k: nat)
    requires k < |ids|
    ensures ids[..k + 1] == ids[..k] + [ids[k]]
    ensures Collect(events, ids[..k + 1]) ==
      Collect(events, ids[..k]) + if ids[k] in events && ids[k] !in ids[..k] then [events[ids[k]]] else []
  {
    assert ids[..k + 1][..k] == ids[..k];
  }

  method CollectEvents(ghost events: Library, fetched: map<string, Event>, ids: seq<string>)
    returns (ordered: seq<Event>)
    requires Knows(events, fetched, ids)
    ensures ordered == Collect(events, ids)
  {
    ordered := [];
    var seen: set<string> := {};
    for k := 0 to |ids|
      invariant ordered == Collect(events, ids[..k])
      invariant forall id :: id in seen <==> id in ids[..k] && id in events
    {
      CollectGrows(events, ids, k);
      if ids[k] !in seen && ids[k] in fetched {
        seen := seen + {ids[k]};
        ordered := ordered + [fetched[ids[k]]];
      }
    }
    assert ids[..|ids|] == ids;
  }

  /** The first selections of every event of the page. */
  method StartAll(page: seq<Event>, input: SelectInput)
    returns (walks: map<string, Walk>, ghost sources: map<string, Event>)
    requires IdsDetermine(Elements(page))
    ensures PageOf(page, sources)
    ensures forall events: Library :: AtRound(events, input, sources, walks, 0)
  {
    walks, sources := map[], map[];
    for k := 0 to |page|
      invariant PageOf(page[..k], sources)
      invariant walks.Keys == sources.Keys
      invariant forall id :: id in sources ==> walks[id] == Start(sources[id], input)
    {
      var event := page[k];
      assert page[..k + 1] == page[..k] + [event];
      forall e | e in page[..k] && e.id == event.id ensures e == event {
        assert e in Elements(page) && event in Elements(page);
      }
      var ids := SelectReferenceIDs(event, input);
      walks := walks[event.id := Walk(ids, {event.id} + Elements(ids))];
      sources := sources[event.id := event];
    }
    assert page[..|page|] == page;
  }

  /**
   * Batching preserves meaning: whatever page an event is resolved with, it gets
   * what the plain algorithm gives for that event alone.
   */
  method LoadSelectedReferencesBatch(store: Store, page: seq<Event>, input: SelectInput)
    returns (r: Result<map<string, seq<Event>>, string>)
    requires IdsDetermine(Elements(page))
    ensures store.failing == {} ==> r.Ok?
    ensures r.Ok? ==> forall id :: id in r.value <==> exists e :: e in page && e.id == id
    ensures r.Ok? ==> forall e :: e in page ==> e.id in r.value && r.value[e.id] == Resolve(store.events, input, e)
    ensures r.Ok? ==> forall e, ids :: e in page && IsChain(store.events, input, e, ids) ==>
      r.value[e.id] == EndOf(store.events, ids)
  {
    var walks, sources := StartAll(page, input);
    var fetched: map<string, Event> := map[];
    var depth := 0;
    while true
      invariant 0 <= depth <= input.maxDepth
      invariant Agrees(store.events, fetched)
      invariant AtRound(store.events, input, sources, walks, depth)
      decreases input.maxDepth - depth
    {
      var now := FetchSelected(store, fetched, walks);
      if now.Err? {
        return Err(now.error);
      }
      fetched := now.value;
      AllKnown(store.events, input, sources, walks, depth, fetched);
      if depth >= input.maxDepth {
        break;
      }
      var changed;
      walks, changed := AdvanceAll(store.events, fetched, input, sources, walks, depth);
      if !changed {
        Settled(store.events, input, sources, walks, depth);
        break;
      }
      depth := depth + 1;
    }
    r := EmitAll(store.events, fetched, input, sources, walks);
    PageAnswered(store.events, input, page, sources, r.value);
    forall e, ids | e in page && IsChain(store.events, input, e, ids)
      ensures r.value[e.id] == EndOf(store.events, ids)
    {
      ChainResolves(store.events, input, e, ids);
    }
  }

  /** What is right for the sources is right for the page. */
  lemma PageAnswered(events: Library, input: SelectInput, page: seq<Event>, sources: map<string, Event>,
                     out: map<string, seq<Event>>)
    requires PageOf(page, sources) && out.Keys == sources.Keys
    requires forall id :: id in sources ==> out[id] == Resolve(events, input, sources[id])
    ensures forall id :: id in out <==> exists e :: e in page && e.id == id
    ensures forall e :: e in page ==> e.id in out && out[e.id] == Resolve(events, input, e)
  {
  }

  /** After a fetch, everything that exists among the selected ids is known. */
  lemma AllKnown(events: Library, input: SelectInput, sources: map<string, Event>, walks: map<string, Walk>, n: nat,
                 fetched: map<string, Event>)
    requires AtRound(events, input, sources, walks, n)
    requires Agrees(events, fetched)
    requires forall s, id :: s in walks && id in walks[s].ids && id != "" && id in events ==> id in fetched
    ensures AllKnow(events, fetched, walks)
  {
    forall s | s in walks ensures Knows(events, fetched, walks[s].ids) {
      assert SourceAt(events, input, sources[s], walks[s], n);
      StartInv(sources[s], input);
      RoundsInv(events, input, Start(sources[s], input), n);
    }
  }

  /** When no source changed, all of them are where maxDepth rounds would have left them. */
  lemma Settled(events: Library, input: SelectInput, sources: map<string, Event>, walks: map<string, Walk>, n: nat)
    requires n <= input.maxDepth
    requires AtRound(events, input, sources, walks, n) && AtRound(events, input, sources, walks, n + 1)
    ensures AtRound(events, input, sources, walks, input.maxDepth)
  {
    forall id | id in sources
      ensures SourceAt(events, input, sources[id], walks[id], input.maxDepth)
    {
      assert SourceAt(events, input, sources[id], walks[id], n);
      assert SourceAt(events, input, sources[id], walks[id], n + 1);
      FixpointStays(events, input, Start(sources[id], input), n, input.maxDepth);
    }
  }

  method EmitAll(ghost events: Library, fetched: map<string, Event>, input: SelectInput,
                 ghost sources: map<string, Event>, walks: map<string, Walk>)
    returns (r: Result<map<string, seq<Event>>, string>)
    requires AtRound(events, input, sources, walks, input.maxDepth)
    requires AllKnow(events, fetched, walks)
    ensures r.Ok? && r.value.Keys == sources.Keys
    ensures forall id :: id in sources ==> r.value[id] == Resolve(events, input, sources[id])
  {
    var out: map<string, seq<Event>> := map[];
    var todo := walks.Keys;
    while todo != {}
      invariant todo <= walks.Keys && out.Keys == walks.Keys - todo
      invariant forall id :: id in out ==> out[id] == Resolve(events, input, sources[id])
    {
      var s :| s in todo;
      assert SourceAt(events, input, sources[s], walks[s], input.maxDepth);
      var ordered := CollectEvents(events, fetched, walks[s].ids);
      out := out[s := ordered];
      todo := todo - {s};
    }
    r := Ok(out);
  }
}
