/**
 * What reference selection finds, in terms of the tags of one event: the laws of
 * matchingReferenceIDs and selectReferenceIDs in internal/graphqlapi/schema.go.
 */
module ReferenceSelection {
  import opened Sorting
  import opened Events
  import opened References

  /** The k-th tag names the id, under the key and with the value and the marker asked for. */
  predicate Names(event: Event, p: TagPredicate, k: nat, id: string) {
    && k < |event.tags| && |event.tags[k]| >= 2 && p.index < |event.tags[k]|
    && event.tags[k][0] == p.key && event.tags[k][1] == id
    && (p.value == "" || id == p.value) && (p.values == [] || id in p.values)
    && MarkerFits(p, event.tags[k])
  }

  predicate MarkerFits(p: TagPredicate, tag: seq<string>) {
    if |tag| < 4 then p.marker == "" && p.markers == []
    else
      && (p.marker == "" || tag[3] == p.marker) && (p.markers == [] || tag[3] in p.markers)
      && tag[3] !in p.excludeMarkers
  }

  /** 64 lower-case hexadecimal digits, and not the event's own id when that is excluded. */
  predicate MayName(event: Event, excludeSelf: bool, id: string) {
    && |id| == 64 && (forall i :: 0 <= i < 64 ==> '0' <= id[i] <= '9' || 'a' <= id[i] <= 'f')
    && (excludeSelf ==> id != event.id)
  }

  /** The k-th of the tags is eligible and carries the id. */
  predicate Carries(event: Event, tags: seq<seq<string>>, p: TagPredicate, excludeSelf: bool, k: nat, id: string) {
    k < |tags| && Eligible(event, tags[k], p, excludeSelf) && tags[k][1] == id
  }

  ghost predicate CarriedBefore(event: Event, tags: seq<seq<string>>, p: TagPredicate, excludeSelf: bool, n: nat,
                                id: string) {
    exists k: nat :: k < n && Carries(event, tags, p, excludeSelf, k, id)
  }

  ghost predicate FindsCarried(event: Event, tags: seq<seq<string>>, p: TagPredicate, excludeSelf: bool, n: nat,
                               out: seq<string>) {
    forall id :: id in out <==> CarriedBefore(event, tags, p, excludeSelf, n, id)
  }

  /** The i-th id found is carried before every tag, of the first n, with an id that is not among those up to it. */
  ghost predicate FoundFirst(event: Event, tags: seq<seq<string>>, p: TagPredicate, excludeSelf: bool, n: nat,
                             out: seq<string>, i: nat)
    requires i < |out|
  {
    forall k: nat, id :: k < n && Carries(event, tags, p, excludeSelf, k, id) && id !in out[..i + 1] ==>
      CarriedBefore(event, tags, p, excludeSelf, k, out[i])
  }

  ghost predicate FoundInOrder(event: Event, tags: seq<seq<string>>, p: TagPredicate, excludeSelf: bool, n: nat,
                               out: seq<string>)
  {
    forall i: nat :: i < |out| ==> FoundFirst(event, tags, p, excludeSelf, n, out, i)
  }

  function With(event: Event, tags: seq<seq<string>>, p: TagPredicate, excludeSelf: bool, n: nat,
                out: seq<string>): seq<string>
    requires n < |tags|
  {
    if Eligible(event, tags[n], p, excludeSelf) && tags[n][1] !in out then out + [tags[n][1]] else out
  }

  lemma FindsNext(event: Event, tags: seq<seq<string>>, p: TagPredicate, excludeSelf: bool, n: nat, out: seq<string>)
    requires n < |tags| && FindsCarried(event, tags, p, excludeSelf, n, out)
    ensures FindsCarried(event, tags, p, excludeSelf, n + 1, With(event, tags, p, excludeSelf, n, out))
  {
    var more := With(event, tags, p, excludeSelf, n, out);
    forall id ensures id in more <==> CarriedBefore(event, tags, p, excludeSelf, n + 1, id) {
      if CarriedBefore(event, tags, p, excludeSelf, n + 1, id) {
        var k: nat :| k < n + 1 && Carries(event, tags, p, excludeSelf, k, id);
        assert k < n ==> CarriedBefore(event, tags, p, excludeSelf, n, id);
      } else {
        assert !Carries(event, tags, p, excludeSelf, n, id);
        assert !CarriedBefore(event, tags, p, excludeSelf, n, id);
      }
    }
  }

  lemma OrderNext(event: Event, tags: seq<seq<string>>, p: TagPredicate, excludeSelf: bool, n: nat, out: seq<string>,
                  i: nat)
    requires n < |tags| && FindsCarried(event, tags, p, excludeSelf, n, out)
      && FoundInOrder(event, tags, p, excludeSelf, n, out)
    requires i < |With(event, tags, p, excludeSelf, n, out)|
    ensures FoundFirst(event, tags, p, excludeSelf, n + 1, With(event, tags, p, excludeSelf, n, out), i)
  {
    var more := With(event, tags, p, excludeSelf, n, out);
    FindsNext(event, tags, p, excludeSelf, n, out);
    forall k: nat, id | k < n + 1 && Carries(event, tags, p, excludeSelf, k, id) ensures id in more {
      assert CarriedBefore(event, tags, p, excludeSelf, n + 1, id);
    }
    if i < |out| {
      assert more[..i + 1] == out[..i + 1] && out[i] in out && more[i] == out[i];
      assert FoundFirst(event, tags, p, excludeSelf, n, out, i)
        && CarriedBefore(event, tags, p, excludeSelf, n, out[i]);
    } else {
      assert more[..i + 1] == more;
    }
  }

  lemma {:induction false} AllFound(event: Event, tags: seq<seq<string>>, p: TagPredicate, excludeSelf: bool, n: nat)
    requires n <= |tags|
    ensures var out := Dedup(EligibleIDs(event, tags[..n], p, excludeSelf));
      FindsCarried(event, tags, p, excludeSelf, n, out) && FoundInOrder(event, tags, p, excludeSelf, n, out)
  {
    if n > 0 {
      var out := Dedup(EligibleIDs(event, tags[..n - 1], p, excludeSelf));
      AllFound(event, tags, p, excludeSelf, n - 1);
      NextTag(event, tags, p, excludeSelf, n - 1, out);
      FindsNext(event, tags, p, excludeSelf, n - 1, out);
      var more := With(event, tags, p, excludeSelf, n - 1, out);
      forall i: nat | i < |more| ensures FoundFirst(event, tags, p, excludeSelf, n, more, i) {
        OrderNext(event, tags, p, excludeSelf, n - 1, out, i);
      }
    }
  }

  lemma EligibleIff(event: Event, p: TagPredicate, excludeSelf: bool, k: nat, id: string)
    requires k < |event.tags|
    ensures Eligible(event, event.tags[k], p, excludeSelf) && event.tags[k][1] == id <==>
      Names(event, p, k, id) && MayName(event, excludeSelf, id)
  {
  }

  function Read(event: Event, fromLast: bool): seq<seq<string>> {
    if fromLast then Reverse(event.tags) else event.tags
  }

  function Turned(event: Event, fromLast: bool, k: int): int {
    if fromLast then |event.tags| - 1 - k else k
  }

  lemma CarriesIff(event: Event, p: TagPredicate, excludeSelf: bool, fromLast: bool, k: nat, id: string)
    requires k < |event.tags|
    ensures |Read(event, fromLast)| == |event.tags| && 0 <= Turned(event, fromLast, k) < |event.tags|
    ensures Carries(event, Read(event, fromLast), p, excludeSelf, k, id) <==>
      Names(event, p, Turned(event, fromLast, k), id) && MayName(event, excludeSelf, id)
  {
    InReadingOrder(event.tags, fromLast);
    EligibleIff(event, p, excludeSelf, Turned(event, fromLast, k), id);
  }

  /** The tag at m is read before the one at k and names the id. */
  predicate NamesBefore(event: Event, p: TagPredicate, m: nat, k: nat, id: string, fromLast: bool) {
    (if fromLast then m > k else m < k) && Names(event, p, m, id)
  }

  ghost predicate NamedBefore(event: Event, p: TagPredicate, k: nat, id: string, fromLast: bool) {
    exists m: nat :: NamesBefore(event, p, m, k, id, fromLast)
  }

  ghost predicate Named(event: Event, p: TagPredicate, id: string) {
    exists k: nat :: Names(event, p, k, id)
  }

  lemma NameIsCarried(event: Event, p: TagPredicate, excludeSelf: bool, fromLast: bool, k: nat, id: string)
    requires Names(event, p, k, id) && MayName(event, excludeSelf, id)
    ensures 0 <= Turned(event, fromLast, k) < |Read(event, fromLast)| == |event.tags|
    ensures Carries(event, Read(event, fromLast), p, excludeSelf, Turned(event, fromLast, k), id)
  {
    var r := Turned(event, fromLast, k);
    CarriesIff(event, p, excludeSelf, fromLast, r, id);
  }

  /** Every id found is one that may be named and that a tag names. */
  lemma FoundAreNamed(event: Event, p: TagPredicate, limit: int, excludeSelf: bool, fromLast: bool, id: string)
    requires id in Matching(event, p, limit, excludeSelf, fromLast)
    ensures MayName(event, excludeSelf, id) && Named(event, p, id)
  {
    var tags := Read(event, fromLast);
    InReadingOrder(event.tags, fromLast);
    AllFound(event, tags, p, excludeSelf, |tags|);
    assert tags[..|tags|] == tags;
    assert id in Dedup(EligibleIDs(event, tags, p, excludeSelf));
    assert CarriedBefore(event, tags, p, excludeSelf, |tags|, id);
    var k: nat :| k < |tags| && Carries(event, tags, p, excludeSelf, k, id);
    CarriesIff(event, p, excludeSelf, fromLast, k, id);
  }

  /** Every named id that may be is found, unless `limit` others are. */
  lemma NamedAreFound(event: Event, p: TagPredicate, limit: int, excludeSelf: bool, fromLast: bool, k: nat, id: string)
    requires Names(event, p, k, id) && MayName(event, excludeSelf, id)
    ensures |Matching(event, p, limit, excludeSelf, fromLast)| < limit ==>
      id in Matching(event, p, limit, excludeSelf, fromLast)
  {
    if limit > 0 {
      var tags := Read(event, fromLast);
      NameIsCarried(event, p, excludeSelf, fromLast, k, id);
      AllFound(event, tags, p, excludeSelf, |tags|);
      assert tags[..|tags|] == tags;
      assert CarriedBefore(event, tags, p, excludeSelf, |tags|, id);
    }
  }

  /** The i-th id found is named before every tag that names one not found up to it: first come, first served. */
  lemma FoundInReadingOrder(event: Event, p: TagPredicate, limit: int, excludeSelf: bool, fromLast: bool,
                            i: nat, k: nat, id: string)
    requires i < |Matching(event, p, limit, excludeSelf, fromLast)|
    requires id !in Matching(event, p, limit, excludeSelf, fromLast)[..i + 1]
    requires Names(event, p, k, id) && MayName(event, excludeSelf, id)
    ensures NamedBefore(event, p, k, Matching(event, p, limit, excludeSelf, fromLast)[i], fromLast)
  {
    var tags, r := Read(event, fromLast), Turned(event, fromLast, k);
    var all := Dedup(EligibleIDs(event, tags, p, excludeSelf));
    NameIsCarried(event, p, excludeSelf, fromLast, k, id);
    AllFound(event, tags, p, excludeSelf, |tags|);
    assert tags[..|tags|] == tags;
    assert Matching(event, p, limit, excludeSelf, fromLast)[..i + 1] == all[..i + 1];
    assert FoundFirst(event, tags, p, excludeSelf, |tags|, all, i);
    var m: nat :| m < r && Carries(event, tags, p, excludeSelf, m, all[i]);
    CarriesIff(event, p, excludeSelf, fromLast, m, all[i]);
    assert NamesBefore(event, p, Turned(event, fromLast, m), k, all[i], fromLast);
  }

  /** The first selector under which anything is found decides; without one, the fallback does. */
  lemma {:induction false} FirstMatchDecides(event: Event, input: SelectInput, from: nat, k: nat)
    requires from <= k <= |input.selectors|
    requires forall j :: from <= j < k ==>
      Matching(event, input.selectors[j], input.limit, input.excludeSelf, false) == []
    requires k < |input.selectors| ==> Matching(event, input.selectors[k], input.limit, input.excludeSelf, false) != []
    ensures SelectFrom(event, input, from) ==
      if k < |input.selectors| then Matching(event, input.selectors[k], input.limit, input.excludeSelf, false)
      else if input.fallback.None? then []
      else Matching(event, input.fallback.value, input.limit, input.excludeSelf, input.fallbackLast)
    decreases k - from
  {
    if from < k {
      FirstMatchDecides(event, input, from + 1, k);
    }
  }
}
