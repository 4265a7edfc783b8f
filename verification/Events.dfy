/** The event view shared by the read paths, and its newest-first total order. */
module Events {
  import opened Sorting

  datatype Event = Event(id: string, pubkey: string, createdAt: int, tags: seq<seq<string>>)

  /** Byte order of strings. */
  predicate StringLess(a: string, b: string) {
    b != [] && (a == [] || a[0] < b[0] || (a[0] == b[0] && StringLess(a[1..], b[1..])))
  }

  lemma {:induction false} StringLessIsStrict(a: string, b: string)
    ensures !StringLess(a, a)
    ensures !(StringLess(a, b) && StringLess(b, a))
    ensures a != b ==> StringLess(a, b) || StringLess(b, a)
  {
    if a != [] {
      StringLessIsStrict(a[1..], if b != [] then b[1..] else b);
      assert b != [] ==> (a == [a[0]] + a[1..] && b == [b[0]] + b[1..]);
    }
  }

  lemma {:induction false} StringLessTransitive(a: string, b: string, c: string)
    requires StringLess(a, b) && StringLess(b, c)
    ensures StringLess(a, c)
  {
    if a != [] && a[0] == b[0] == c[0] {
      StringLessTransitive(a[1..], b[1..], c[1..]);
    }
  }

  /** ORDER BY created_at DESC, id DESC. */
  predicate Newer(a: Event, b: Event) {
    a.createdAt > b.createdAt || (a.createdAt == b.createdAt && StringLess(b.id, a.id))
  }

  /** An event id determines the event. */
  ghost predicate IdsDetermine(s: set<Event>) {
    forall a, b :: a in s && b in s && a.id == b.id ==> a == b
  }

  lemma NewerOrders(s: set<Event>)
    requires IdsDetermine(s)
    ensures Orders(Newer, s)
  {
    forall x, y | x in s && y in s ensures !Newer(x, x) && (x != y ==> Newer(x, y) || Newer(y, x)) {
      StringLessIsStrict(x.id, y.id);
    }
    forall x, y, z | x in s && y in s && z in s && Newer(x, y) && Newer(y, z) ensures Newer(x, z) {
      if x.createdAt == z.createdAt {
        StringLessTransitive(z.id, y.id, x.id);
      }
    }
  }

  /**
   * Of two strings the one with the smaller character at the first difference is less, and a string
   * is less than its extensions.
   */
  lemma {:induction false} FirstDifferenceDecides(common: string, a: string, b: string)
    requires a != [] && b != [] && a[0] != b[0]
    ensures StringLess(common + a, common + b) <==> a[0] < b[0]
    ensures StringLess(common, common + a) && !StringLess(common + a, common)
  {
    if common == [] {
      assert common + a == a && common + b == b;
    } else {
      assert (common + a)[1..] == common[1..] + a && (common + b)[1..] == common[1..] + b;
      FirstDifferenceDecides(common[1..], a, b);
    }
  }
}
