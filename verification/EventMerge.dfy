/**
 * Merging per-source event pages into one page: mergeEventsDescDedup in
 * internal/graphqlapi/dm_social.go and its twin mergeDmEnvelopes in
 * internal/appview/handler.go.
 */
module EventMerge {
  import opened Sorting
  import opened Events

  function Flatten(lists: seq<seq<Event>>): seq<Event> {
    if lists == [] then [] else Flatten(lists[..|lists| - 1]) + lists[|lists| - 1]
  }

  ghost predicate SeenIs(seen: set<string>, merged: seq<Event>) {
    forall id :: id in seen <==> exists e :: e in merged && e.id == id
  }

  /** The events gathered so far are exactly those of `input`, one per id. */
  ghost predicate Gathered(merged: seq<Event>, input: seq<Event>) {
    && Distinct(merged)
    && (forall e :: e in merged <==> e in input)
  }

  /** One page out of many: gather the unseen events, sort newest first, truncate. */
  method MergeEventsDescDedup(limit: int, lists: seq<seq<Event>>) returns (merged: seq<Event>)
    requires IdsDetermine(Elements(Flatten(lists)))
    ensures IsTop(Newer, merged, if limit > 0 then limit else |Elements(Flatten(lists))|, Elements(Flatten(lists)))
    ensures forall sets :: limit > 0 && ArePages(limit, lists, sets) ==> IsTop(Newer, merged, limit, Union(sets))
  {
    var seen: set<string> := {};
    merged := [];
    for i := 0 to |lists|
      invariant SeenIs(seen, merged)
      invariant Gathered(merged, Flatten(lists[..i]))
    {
      var list := lists[i];
      ghost var before := Flatten(lists[..i]);
      assert lists[..i + 1][..i] == lists[..i];
      FlattenPrefix(lists, i + 1);
      for j := 0 to |list|
        invariant SeenIs(seen, merged)
        invariant Gathered(merged, before + list[..j])
      {
        var ev := list[j];
        assert list[..j + 1] == list[..j] + [ev];
        assert ev in Elements(Flatten(lists)) by {
          assert ev in Flatten(lists[..i + 1]);
        }
        if ev.id !in seen {
          seen := seen + {ev.id};
          GatherFresh(merged, before + list[..j], ev);
          merged := merged + [ev];
        } else {
          var e :| e in merged && e.id == ev.id;
          assert e in before + list[..j];
          assert e in Flatten(lists[..i + 1]);
          assert e in Elements(Flatten(lists));
        }
        assert before + list[..j + 1] == (before + list[..j]) + [ev];
      }
      assert list[..|list|] == list;
    }
    assert lists[..|lists|] == lists;
    ghost var all := Elements(Flatten(lists));
    assert Elements(merged) == all;
    NewerOrders(all);
    SortSorts(Newer, merged);
    DistinctCounts(merged);
    merged := Sort(Newer, merged);
    TakeIsTop(Newer, merged, if limit > 0 then limit else |merged|);
    if limit > 0 && |merged| > limit {
      merged := merged[..limit];
    }
    forall sets | limit > 0 && ArePages(limit, lists, sets) ensures IsTop(Newer, merged, limit, Union(sets)) {
      TopOfUnion(limit, lists, sets, merged);
    }
  }

  lemma GatherFresh(merged: seq<Event>, input: seq<Event>, ev: Event)
    requires Gathered(merged, input) && ev !in merged
    ensures Gathered(merged + [ev], input + [ev])
  {
  }

  lemma {:induction false} FlattenPrefix(lists: seq<seq<Event>>, i: nat)
    requires i <= |lists|
    ensures forall e :: e in Flatten(lists[..i]) ==> e in Flatten(lists)
    decreases |lists|
  {
    if i < |lists| {
      FlattenPrefix(lists[..|lists| - 1], i);
      assert lists[..|lists| - 1][..i] == lists[..i];
    } else {
      assert lists[..i] == lists;
    }
  }

  ghost function Union(sets: seq<set<Event>>): set<Event> {
    set k, e | 0 <= k < |sets| && e in sets[k] :: e
  }

  lemma {:induction false} FlattenMembers(lists: seq<seq<Event>>)
    ensures forall e :: e in Flatten(lists) <==> exists k :: 0 <= k < |lists| && e in lists[k]
  {
    if lists != [] {
      var front := lists[..|lists| - 1];
      FlattenMembers(front);
      forall e ensures e in Flatten(lists) <==> exists k :: 0 <= k < |lists| && e in lists[k] {
        if e in Flatten(front) {
          var k :| 0 <= k < |front| && e in front[k];
          assert e in lists[k];
        }
        if k :| 0 <= k < |lists| && e in lists[k] {
          if k < |front| { assert e in front[k]; }
        }
      }
    }
  }

  /** Every list is the first `limit` events of its own set, newest first. */
  ghost predicate ArePages(limit: nat, lists: seq<seq<Event>>, sets: seq<set<Event>>) {
    && |lists| == |sets|
    && IdsDetermine(Union(sets))
    && forall k :: 0 <= k < |lists| ==> IsTop(Newer, lists[k], limit, sets[k])
  }

  /**
   * Top-k of a union: when every input page is the first `limit` events of its own
   * set, the first `limit` of the merged pages are the first `limit` of the union.
   */
  lemma TopOfUnion(limit: nat, lists: seq<seq<Event>>, sets: seq<set<Event>>, merged: seq<Event>)
    requires ArePages(limit, lists, sets)
    requires IsTop(Newer, merged, limit, Elements(Flatten(lists)))
    ensures IsTop(Newer, merged, limit, Union(sets))
  {
    var all, got := Union(sets), Elements(Flatten(lists));
    NewerOrders(all);
    FlattenMembers(lists);
    assert got <= all;
    Cardinality(got, all);
    forall x | x in all && x !in got ensures |merged| == limit && forall y | y in merged :: Newer(y, x) {
      var k :| 0 <= k < |sets| && x in sets[k];
      assert Elements(lists[k]) <= got;
      MissedByItsPage(limit, lists[k], sets[k], merged, got, all, x);
    }
    if x :| x in all && x !in got {
      Cardinality(got + {x}, all);
    } else {
      assert got == all;
    }
  }

  lemma Cardinality(a: set<Event>, b: set<Event>)
    requires a <= b
    ensures |a| <= |b|
  {
    assert b == a + (b - a);
  }

  /** An event its own page already cut off comes after every event of the merged page. */
  lemma MissedByItsPage(limit: nat, page: seq<Event>, s: set<Event>, merged: seq<Event>,
                        got: set<Event>, all: set<Event>, x: Event)
    requires Orders(Newer, all) && s <= all && got <= all && Elements(page) <= got
    requires IsTop(Newer, page, limit, s) && IsTop(Newer, merged, limit, got)
    requires x in s && x !in got
    ensures |merged| == limit
    ensures forall y :: y in merged ==> Newer(y, x)
  {
    assert x !in page;
    SortedIsDistinct(Newer, page, all);
    DistinctCounts(page);
    Cardinality(Elements(page) + {x}, s);
    assert |page| == limit;
    Cardinality(Elements(page), got);
    SortedIsDistinct(Newer, merged, all);
    DistinctCounts(merged);
    forall y | y in merged && y !in page ensures Newer(y, x) {
      // the page is as long as the merged list and misses y, so the merged list misses some z of the page
      if Elements(page) <= Elements(merged) {
        Cardinality(Elements(page) + {y}, Elements(merged));
      }
      var z :| z in Elements(page) && z !in Elements(merged);
      assert z in got && Newer(y, z) && Newer(z, x);
    }
  }

  /** A merged page is newest first, and nothing outside it is newer than anything in it. */
  lemma NewestFirst(merged: seq<Event>, limit: nat, all: set<Event>)
    requires IsTop(Newer, merged, limit, all)
    ensures forall i, j :: 0 <= i < j < |merged| ==>
      merged[i].createdAt > merged[j].createdAt
      || (merged[i].createdAt == merged[j].createdAt && StringLess(merged[j].id, merged[i].id))
    ensures forall x, y :: x in all && x !in merged && y in merged ==> y.createdAt >= x.createdAt
  {
  }

  /** A page shorter than the limit has everything. */
  lemma ShortPageIsAll(merged: seq<Event>, limit: nat, all: set<Event>, x: Event)
    requires IdsDetermine(all) && IsTop(Newer, merged, limit, all) && x in all && x !in merged
    ensures |merged| == limit
  {
    assert Elements(merged) <= all;
    assert |Elements(merged)| == |merged| by {
      NewerOrders(all);
      SortedIsDistinct(Newer, merged, all);
      DistinctCounts(merged);
    }
    Cardinality(Elements(merged) + {x}, all);
  }
}
