/**
 * Weighted sums of a row's features, which both ranking paths of
 * internal/graphqlapi/schema.go and internal/clickhouse/read.go compute, and when
 * two such sums agree on every row.
 */
module RankShares {
  import opened Wrappers

  /** What a reference term aggregates: its event filter, tag and metric definition. */
  type Query(==, !new)

  datatype Author = Author(followers: nat, score: real)

  /** The math library: log(1 + x), and the recency of an age under a half-life. */
  datatype Library = Library(log1p: real -> real, decay: (real, real) -> real)

  /** One candidate's features; a count is what the query aggregates for it. */
  datatype Row = Row(author: Option<Author>, quality: Option<real>, count: Query -> nat, age: real)

  /** What a weight multiplies. */
  datatype Key =
    | Floor(followers: nat)
    | HalfLife(seconds: real)
    | Quality(logged: bool)
    | Logged(query: Query)
    | Plain(query: Query)

  datatype Share = Share(key: Key, weight: real)

  function Value(m: Library, k: Key, row: Row): real {
    match k
    case Floor(followers) =>
      if row.author.Some? && row.author.value.followers >= followers then row.author.value.score else 0.0
    case HalfLife(seconds) => m.decay(row.age, seconds)
    case Quality(logged) =>
      var q := row.quality.GetOr(0.0);
      if logged then m.log1p(q) else q
    case Logged(query) => m.log1p(row.count(query) as real)
    case Plain(query) => row.count(query) as real
  }

  // ---------------------------------------------------------------------------
  // Sums over shares
  // ---------------------------------------------------------------------------

  function Sum(shares: seq<Share>, f: Share -> real): real {
    if shares == [] then 0.0 else Sum(shares[..|shares| - 1], f) + f(shares[|shares| - 1])
  }

  /** What the shares of one key come to. */
  function SumAt(shares: seq<Share>, key: Key, f: Share -> real): real {
    if shares == [] then 0.0
    else
      var last := shares[|shares| - 1];
      SumAt(shares[..|shares| - 1], key, f) + if last.key == key then f(last) else 0.0
  }

  /** The weights of all shares of the key, added up. */
  function KeyWeight(shares: seq<Share>, key: Key): real {
    if shares == [] then 0.0
    else
      var last := shares[|shares| - 1];
      KeyWeight(shares[..|shares| - 1], key) + if last.key == key then last.weight else 0.0
  }

  /** What each share comes to for a row. */
  function Parts(m: Library, row: Row): Share -> real {
    (s: Share) => s.weight * Value(m, s.key, row)
  }

  function Score(m: Library, shares: seq<Share>, row: Row): real {
    Sum(shares, Parts(m, row))
  }

  lemma OneMore(shares: seq<Share>, last: Share, f: Share -> real)
    ensures Sum(shares + [last], f) == Sum(shares, f) + f(last)
  {
    assert (shares + [last])[..|shares|] == shares;
  }

  lemma OneMoreKey(shares: seq<Share>, last: Share, key: Key)
    ensures KeyWeight(shares + [last], key) == KeyWeight(shares, key) + if last.key == key then last.weight else 0.0
  {
    assert (shares + [last])[..|shares|] == shares;
  }

  lemma {:induction false} SumCat(a: seq<Share>, b: seq<Share>, f: Share -> real)
    ensures Sum(a + b, f) == Sum(a, f) + Sum(b, f)
    decreases |b|
  {
    if b == [] {
      assert a + b == a;
    } else {
      assert (a + b)[..|a + b| - 1] == a + b[..|b| - 1];
      SumCat(a, b[..|b| - 1], f);
    }
  }

  lemma {:induction false} KeyWeightCat(a: seq<Share>, b: seq<Share>, key: Key)
    ensures KeyWeight(a + b, key) == KeyWeight(a, key) + KeyWeight(b, key)
    decreases |b|
  {
    if b == [] {
      assert a + b == a;
    } else {
      assert (a + b)[..|a + b| - 1] == a + b[..|b| - 1];
      KeyWeightCat(a, b[..|b| - 1], key);
    }
  }

  function Negated(shares: seq<Share>): seq<Share> {
    if shares == [] then []
    else
      var last := shares[|shares| - 1];
      Negated(shares[..|shares| - 1]) + [Share(last.key, -last.weight)]
  }

  lemma {:induction false} NegatedSum(shares: seq<Share>, f: Share -> real)
    requires forall s: Share :: f(Share(s.key, -s.weight)) == -f(s)
    ensures Sum(Negated(shares), f) == -Sum(shares, f)
  {
    if shares != [] {
      var front, last := shares[..|shares| - 1], shares[|shares| - 1];
      NegatedSum(front, f);
      OneMore(Negated(front), Share(last.key, -last.weight), f);
    }
  }

  lemma {:induction false} NegatedWeight(shares: seq<Share>, key: Key)
    ensures KeyWeight(Negated(shares), key) == -KeyWeight(shares, key)
  {
    if shares != [] {
      var front, last := shares[..|shares| - 1], shares[|shares| - 1];
      NegatedWeight(front, key);
      OneMoreKey(Negated(front), Share(last.key, -last.weight), key);
    }
  }

  function Without(shares: seq<Share>, key: Key): seq<Share> {
    if shares == [] then []
    else
      var last, kept := shares[|shares| - 1], Without(shares[..|shares| - 1], key);
      if last.key == key then kept else kept + [last]
  }

  lemma {:induction false} WithoutKey(shares: seq<Share>, key: Key)
    ensures forall s :: s in Without(shares, key) ==> s in shares && s.key != key
    ensures shares != [] && shares[|shares| - 1].key == key ==> |Without(shares, key)| < |shares|
    ensures |Without(shares, key)| <= |shares|
  {
    if shares != [] {
      WithoutKey(shares[..|shares| - 1], key);
    }
  }

  lemma {:induction false} TakeOut(shares: seq<Share>, key: Key, f: Share -> real)
    ensures Sum(shares, f) == Sum(Without(shares, key), f) + SumAt(shares, key, f)
  {
    if shares != [] {
      TakeOut(shares[..|shares| - 1], key, f);
      OneMore(Without(shares[..|shares| - 1], key), shares[|shares| - 1], f);
    }
  }

  lemma {:induction false} TakeOutWeights(shares: seq<Share>, key: Key, other: Key)
    ensures KeyWeight(Without(shares, key), other) == if other == key then 0.0 else KeyWeight(shares, other)
  {
    if shares != [] {
      var kept, last := Without(shares[..|shares| - 1], key), shares[|shares| - 1];
      TakeOutWeights(shares[..|shares| - 1], key, other);
      OneMoreKey(kept, last, other);
    }
  }

  lemma OneMoreWeight(sum: real, total: real, weight: real, v: real)
    requires sum == total * v
    ensures sum + weight * v == (total + weight) * v
  {
  }

  /** Where shares of a key are worth x per weight, they come to the key's weight times x. */
  lemma {:induction false} SumAtIs(shares: seq<Share>, key: Key, f: Share -> real, x: real)
    requires forall w: real :: f(Share(key, w)) == w * x
    ensures SumAt(shares, key, f) == KeyWeight(shares, key) * x
  {
    if shares != [] {
      var front, last := shares[..|shares| - 1], shares[|shares| - 1];
      SumAtIs(front, key, f, x);
      if last.key == key {
        assert last == Share(key, last.weight);
        OneMoreWeight(SumAt(front, key, f), KeyWeight(front, key), last.weight, x);
      }
    }
  }

  /** Shares are worth a fixed value per weight. */
  ghost predicate Proportional(f: Share -> real, v: Key -> real) {
    forall key, w: real :: f(Share(key, w)) == w * v(key)
  }

  function Values(m: Library, row: Row): Key -> real {
    (k: Key) => Value(m, k, row)
  }

  lemma PartsAreProportional(m: Library, row: Row)
    ensures Proportional(Parts(m, row), Values(m, row))
  {
  }

  /** Shares whose weights cancel key by key come to nothing. */
  lemma {:induction false} CancellingShares(shares: seq<Share>, f: Share -> real, v: Key -> real)
    requires Proportional(f, v) && forall k :: KeyWeight(shares, k) == 0.0
    ensures Sum(shares, f) == 0.0
    decreases |shares|
  {
    if shares != [] {
      var key := shares[|shares| - 1].key;
      var rest := Without(shares, key);
      WithoutKey(shares, key);
      TakeOut(shares, key, f);
      SumAtIs(shares, key, f, v(key));
      forall k ensures KeyWeight(rest, k) == 0.0 {
        TakeOutWeights(shares, key, k);
      }
      CancellingShares(rest, f, v);
    }
  }

  lemma NegatedPart(f: Share -> real, v: Key -> real)
    requires Proportional(f, v)
    ensures forall s: Share :: f(Share(s.key, -s.weight)) == -f(s)
  {
    forall s: Share ensures f(Share(s.key, -s.weight)) == -f(s) {
      assert s == Share(s.key, s.weight);
      assert f(Share(s.key, -s.weight)) == (-s.weight) * v(s.key);
      assert f(Share(s.key, s.weight)) == s.weight * v(s.key);
    }
  }

  /** Shares whose weights agree key by key come to the same. */
  lemma SameWeightsSameSum(a: seq<Share>, b: seq<Share>, f: Share -> real, v: Key -> real)
    requires Proportional(f, v) && forall k :: KeyWeight(a, k) == KeyWeight(b, k)
    ensures Sum(a, f) == Sum(b, f)
  {
    forall k ensures KeyWeight(a + Negated(b), k) == 0.0 {
      KeyWeightCat(a, Negated(b), k);
      NegatedWeight(b, k);
    }
    CancellingShares(a + Negated(b), f, v);
    SumCat(a, Negated(b), f);
    NegatedPart(f, v);
    NegatedSum(b, f);
  }

  // ---------------------------------------------------------------------------
  // Telling weights apart by rows
  // ---------------------------------------------------------------------------

  /** What the proofs need to know of log1p and of pow(0.5, age / halfLife). */
  ghost predicate Lawful(m: Library) {
    LogLaws(m) && DecayLaws(m)
  }

  ghost predicate LogLaws(m: Library) {
    m.log1p(0.0) == 0.0 && m.log1p(2.0) != 2.0 * m.log1p(1.0)
  }

  /**
   * At age zero nothing has faded; each second multiplies by the same factor; distinct half-lives
   * have distinct factors.
   */
  ghost predicate DecayLaws(m: Library) {
    && (forall h: real :: h > 0.0 ==> m.decay(0.0, h) == 1.0)
    && (forall age: real, later: real, h: real :: age >= 0.0 && later == age + 1.0 && h > 0.0 ==>
          m.decay(later, h) == m.decay(age, h) * m.decay(1.0, h))
    && (forall h: real, k: real :: h > 0.0 && k > 0.0 && h != k ==> m.decay(1.0, h) != m.decay(1.0, k))
  }

  lemma {:induction false} SumsDiffer(shares: seq<Share>, f: Share -> real, g: Share -> real, d: Share -> real)
    requires forall s: Share :: d(s) == f(s) - g(s)
    ensures Sum(shares, f) - Sum(shares, g) == Sum(shares, d)
  {
    if shares != [] {
      SumsDiffer(shares[..|shares| - 1], f, g, d);
    }
  }

  lemma {:induction false} TwoKeys(shares: seq<Share>, d: Share -> real, k: Key, l: Key)
    requires k != l && forall s: Share :: s.key != k && s.key != l ==> d(s) == 0.0
    ensures Sum(shares, d) == SumAt(shares, k, d) + SumAt(shares, l, d)
  {
    if shares != [] {
      TwoKeys(shares[..|shares| - 1], d, k, l);
    }
  }

  /** Valuations that differ by x at one key and by y at another only. */
  ghost predicate DifferAt(u: Key -> real, v: Key -> real, k: Key, x: real, l: Key, y: real) {
    k != l && forall key :: u(key) - v(key) == if key == k then x else if key == l then y else 0.0
  }

  lemma PartsDiffer(w: real, u: real, v: real, d: real)
    requires u - v == d
    ensures w * u - w * v == w * d
  {
  }

  lemma PartsDifferAt(f: Share -> real, u: Key -> real, g: Share -> real, v: Key -> real, k: Key, x: real, l: Key,
                      y: real)
    requires Proportional(f, u) && Proportional(g, v) && DifferAt(u, v, k, x, l, y)
    ensures forall w: real :: f(Share(k, w)) - g(Share(k, w)) == w * x
    ensures forall w: real :: f(Share(l, w)) - g(Share(l, w)) == w * y
    ensures forall s: Share :: s.key != k && s.key != l ==> f(s) - g(s) == 0.0
  {
    forall key, w: real ensures f(Share(key, w)) - g(Share(key, w)) == w * (u(key) - v(key)) {
      PartsDiffer(w, u(key), v(key), u(key) - v(key));
    }
    forall s: Share | s.key != k && s.key != l ensures f(s) - g(s) == 0.0 {
      assert s == Share(s.key, s.weight);
    }
  }

  /** Two rows that differ in two keys only tell what those keys weigh together. */
  lemma DifferenceIsWeight(shares: seq<Share>, f: Share -> real, u: Key -> real, g: Share -> real, v: Key -> real,
                           k: Key, x: real, l: Key, y: real)
    requires Proportional(f, u) && Proportional(g, v) && DifferAt(u, v, k, x, l, y)
    ensures Sum(shares, f) - Sum(shares, g) == KeyWeight(shares, k) * x + KeyWeight(shares, l) * y
  {
    var d := (s: Share) => f(s) - g(s);
    PartsDifferAt(f, u, g, v, k, x, l, y);
    SumsDiffer(shares, f, g, d);
    TwoKeys(shares, d, k, l);
    SumAtIs(shares, k, d, x);
    SumAtIs(shares, l, d, y);
  }

  /** The row with no author, no quality, no counts, and the given age. */
  function Bare(age: real): Row {
    Row(None, None, (_: Query) => 0, age)
  }

  /** The shares score every row 0. */
  ghost predicate ScoresZero(m: Library, shares: seq<Share>) {
    forall row: Row :: row.age >= 0.0 ==> Score(m, shares, row) == 0.0
  }

  lemma RowsEquation(m: Library, shares: seq<Share>, r: Row, q: Row, k: Key, x: real, l: Key, y: real)
    requires ScoresZero(m, shares) && r.age >= 0.0 && q.age >= 0.0 && DifferAt(Values(m, r), Values(m, q), k, x, l, y)
    ensures KeyWeight(shares, k) * x + KeyWeight(shares, l) * y == 0.0
  {
    PartsAreProportional(m, r);
    PartsAreProportional(m, q);
    DifferenceIsWeight(shares, Parts(m, r), Values(m, r), Parts(m, q), Values(m, q), k, x, l, y);
    assert Score(m, shares, r) == 0.0 && Score(m, shares, q) == 0.0;
  }

  lemma FloorWeighsZero(m: Library, shares: seq<Share>, followers: nat)
    requires ScoresZero(m, shares)
    ensures KeyWeight(shares, Floor(followers)) == 0.0
  {
    var high := Bare(0.0).(author := Some(Author(followers, 1.0)));
    var low := if followers == 0 then Bare(0.0) else Bare(0.0).(author := Some(Author(followers - 1, 1.0)));
    RowsEquation(m, shares, high, low, Floor(followers), 1.0, Quality(false), 0.0);
  }

  lemma TwoEquations(p: real, l: real, one: real, two: real)
    requires p * 1.0 + l * one == 0.0 && p * 2.0 + l * two == 0.0 && two != 2.0 * one
    ensures p == 0.0 && l == 0.0
  {
    assert l * (two - 2.0 * one) == 0.0;
  }

  lemma QualityRows(m: Library, q: real)
    requires m.log1p(0.0) == 0.0
    ensures DifferAt(Values(m, Bare(0.0).(quality := Some(q))), Values(m, Bare(0.0)), Quality(false), q, Quality(true),
                     m.log1p(q))
  {
  }

  lemma QualityWeighsZero(m: Library, shares: seq<Share>)
    requires LogLaws(m) && ScoresZero(m, shares)
    ensures KeyWeight(shares, Quality(false)) == 0.0 && KeyWeight(shares, Quality(true)) == 0.0
  {
    QualityRows(m, 1.0);
    QualityRows(m, 2.0);
    RowsEquation(m, shares, Bare(0.0).(quality := Some(1.0)), Bare(0.0), Quality(false), 1.0, Quality(true),
                 m.log1p(1.0));
    RowsEquation(m, shares, Bare(0.0).(quality := Some(2.0)), Bare(0.0), Quality(false), 2.0, Quality(true),
                 m.log1p(2.0));
    TwoEquations(KeyWeight(shares, Quality(false)), KeyWeight(shares, Quality(true)), m.log1p(1.0), m.log1p(2.0));
  }

  function Counting(query: Query, n: nat): Row {
    Bare(0.0).(count := (q: Query) => if q == query then n else 0)
  }

  lemma CountingRows(m: Library, query: Query, n: nat, x: real)
    requires m.log1p(0.0) == 0.0 && x == n as real
    ensures Counting(query, n).age == 0.0
    ensures DifferAt(Values(m, Counting(query, n)), Values(m, Bare(0.0)), Plain(query), x, Logged(query), m.log1p(x))
  {
  }

  lemma QueryWeighsZero(m: Library, shares: seq<Share>, query: Query)
    requires LogLaws(m) && ScoresZero(m, shares)
    ensures KeyWeight(shares, Plain(query)) == 0.0 && KeyWeight(shares, Logged(query)) == 0.0
  {
    CountingRows(m, query, 1, 1.0);
    CountingRows(m, query, 2, 2.0);
    RowsEquation(m, shares, Counting(query, 1), Bare(0.0), Plain(query), 1.0, Logged(query), m.log1p(1.0));
    RowsEquation(m, shares, Counting(query, 2), Bare(0.0), Plain(query), 2.0, Logged(query), m.log1p(2.0));
    TwoEquations(KeyWeight(shares, Plain(query)), KeyWeight(shares, Logged(query)), m.log1p(1.0), m.log1p(2.0));
  }

  // ---------------------------------------------------------------------------
  // Decays of distinct half-lives are independent
  // ---------------------------------------------------------------------------

  /** Only half-lives, and only positive ones. */
  ghost predicate Fading(shares: seq<Share>) {
    forall s :: s in shares ==> s.key.HalfLife? && s.key.seconds > 0.0
  }

  ghost predicate PositiveHalfLives(shares: seq<Share>) {
    forall s :: s in shares && s.key.HalfLife? ==> s.key.seconds > 0.0
  }

  function Mapped(shares: seq<Share>, g: Share -> Share): seq<Share> {
    if shares == [] then [] else Mapped(shares[..|shares| - 1], g) + [g(shares[|shares| - 1])]
  }

  lemma {:induction false} MappedSum(shares: seq<Share>, g: Share -> Share, f: Share -> real, h: Share -> real)
    requires forall s :: s in shares ==> f(g(s)) == h(s)
    ensures Sum(Mapped(shares, g), f) == Sum(shares, h)
  {
    if shares != [] {
      var front, last := shares[..|shares| - 1], shares[|shares| - 1];
      MappedSum(front, g, f, h);
      OneMore(Mapped(front, g), g(last), f);
      assert last in shares;
    }
  }

  lemma {:induction false} MappedWeight(shares: seq<Share>, g: Share -> Share, key: Key, w: Share -> real)
    requires forall s :: g(s).key == s.key && w(s) == g(s).weight
    ensures KeyWeight(Mapped(shares, g), key) == SumAt(shares, key, w)
  {
    if shares != [] {
      var front, last := shares[..|shares| - 1], shares[|shares| - 1];
      MappedWeight(front, g, key, w);
      OneMoreKey(Mapped(front, g), g(last), key);
    }
  }

  lemma {:induction false} MappedKeys(shares: seq<Share>, g: Share -> Share)
    requires forall s :: g(s).key == s.key
    ensures |Mapped(shares, g)| == |shares| && (Fading(shares) ==> Fading(Mapped(shares, g)))
  {
    if shares != [] {
      MappedKeys(shares[..|shares| - 1], g);
    }
  }

  lemma ScaleStep(k: real, f: real, dk: real, df: real, c: real)
    requires k == c * f && dk == c * df
    ensures k + dk == c * (f + df)
  {
  }

  lemma {:induction false} ScaledSum(shares: seq<Share>, f: Share -> real, k: Share -> real, c: real)
    requires forall s :: k(s) == c * f(s)
    ensures Sum(shares, k) == c * Sum(shares, f)
  {
    if shares != [] {
      var front, last := shares[..|shares| - 1], shares[|shares| - 1];
      ScaledSum(front, f, k, c);
      ScaleStep(Sum(front, k), Sum(front, f), k(last), f(last), c);
    }
  }

  lemma {:induction false} AbsentWeighsZero(shares: seq<Share>, key: Key)
    requires forall s :: s in shares ==> s.key != key
    ensures KeyWeight(shares, key) == 0.0
  {
    if shares != [] {
      AbsentWeighsZero(shares[..|shares| - 1], key);
      assert shares[|shares| - 1] in shares;
    }
  }

  lemma NoProduct(x: real, y: real)
    requires x * y == 0.0 && y != 0.0
    ensures x == 0.0
  {
  }

  lemma Cancels(w: real, now: real, next: real, c: real)
    requires next == now * c
    ensures w * next - c * (w * now) == 0.0
  {
  }

  lemma HalfLifePart(m: Library, h: real, age: real, w: real)
    ensures Parts(m, Bare(age))(Share(HalfLife(h), w)) == w * m.decay(age, h)
  {
  }

  /** What the shares of one half-life come to at an age. */
  lemma HalfLifeSum(m: Library, shares: seq<Share>, h: real, age: real, now: real)
    requires now == m.decay(age, h)
    ensures SumAt(shares, HalfLife(h), Parts(m, Bare(age))) == KeyWeight(shares, HalfLife(h)) * now
  {
    forall w: real ensures Parts(m, Bare(age))(Share(HalfLife(h), w)) == w * now {
      HalfLifePart(m, h, age, w);
    }
    SumAtIs(shares, HalfLife(h), Parts(m, Bare(age)), now);
  }

  function Damper(factor: Key -> real): Share -> Share {
    (s: Share) => Share(s.key, s.weight * factor(s.key))
  }

  /** How much more than c is left of a share after a second. */
  function Factors(m: Library, c: real): Key -> real {
    (key: Key) => if key.HalfLife? then m.decay(1.0, key.seconds) - c else 0.0
  }

  lemma DampedTerm(w: real, now: real, next: real, step: real, c: real, x: real)
    requires next == now * step && x == step - c
    ensures (w * x) * now == w * next - c * (w * now)
  {
    assert w * (now * step) == (w * step) * now;
    assert w * x == w * step - w * c;
  }

  lemma NextSecond(m: Library, age: real, h: real)
    requires DecayLaws(m) && age >= 0.0 && h > 0.0
    ensures m.decay(age + 1.0, h) == m.decay(age, h) * m.decay(1.0, h)
  {
    var later := age + 1.0;
    assert m.decay(later, h) == m.decay(age, h) * m.decay(1.0, h);
  }

  lemma DampedParts(m: Library, c: real, age: real, s: Share)
    requires s.key.HalfLife? && m.decay(age + 1.0, s.key.seconds)
      == m.decay(age, s.key.seconds) * m.decay(1.0, s.key.seconds)
    ensures Parts(m, Bare(age))(Damper(Factors(m, c))(s)) == Parts(m, Bare(age + 1.0))(s) - c * Parts(m, Bare(age))(s)
  {
    var h := s.key.seconds;
    DampedTerm(s.weight, m.decay(age, h), m.decay(age + 1.0, h), m.decay(1.0, h), c, Factors(m, c)(s.key));
  }

  /** What a share is worth a second later beyond c times what it is worth now. */
  function Leftover(f: Share -> real, g: Share -> real, c: real): Share -> real {
    (s: Share) => g(s) - c * f(s)
  }

  lemma AllDampedParts(m: Library, shares: seq<Share>, c: real, age: real, f: Share -> real, g: Share -> real,
                       damper: Share -> Share)
    requires DecayLaws(m) && Fading(shares) && age >= 0.0
    requires f == Parts(m, Bare(age)) && g == Parts(m, Bare(age + 1.0)) && damper == Damper(Factors(m, c))
    ensures forall s :: s in shares ==> f(damper(s)) == Leftover(f, g, c)(s)
  {
    forall s | s in shares ensures f(damper(s)) == Leftover(f, g, c)(s) {
      NextSecond(m, age, s.key.seconds);
      DampedParts(m, c, age, s);
    }
  }

  lemma LeftoverVanishes(shares: seq<Share>, f: Share -> real, g: Share -> real, c: real)
    requires Sum(shares, f) == 0.0 && Sum(shares, g) == 0.0
    ensures Sum(shares, Leftover(f, g, c)) == 0.0
  {
    var k := (s: Share) => c * f(s);
    SumsDiffer(shares, g, k, Leftover(f, g, c));
    ScaledSum(shares, f, k, c);
  }

  lemma DampedWeight(shares: seq<Share>, factor: Key -> real, key: Key, x: real)
    requires x == factor(key)
    ensures KeyWeight(Mapped(shares, Damper(factor)), key) == KeyWeight(shares, key) * x
  {
    var w := (s: Share) => Damper(factor)(s).weight;
    MappedWeight(shares, Damper(factor), key, w);
    SumAtIs(shares, key, w, x);
  }

  /** The sum is zero on bare rows of every age. */
  ghost predicate Vanishes(m: Library, shares: seq<Share>) {
    forall age: real :: age >= 0.0 ==> Score(m, shares, Bare(age)) == 0.0
  }

  /** A half-life leaves nothing over its own factor. */
  lemma HalfLifeLeavesNothing(m: Library, shares: seq<Share>, h: real, age: real, c: real)
    requires DecayLaws(m) && h > 0.0 && age >= 0.0 && c == m.decay(1.0, h)
    ensures SumAt(shares, HalfLife(h), Leftover(Parts(m, Bare(age)), Parts(m, Bare(age + 1.0)), c)) == 0.0
  {
    var d := Leftover(Parts(m, Bare(age)), Parts(m, Bare(age + 1.0)), c);
    forall w: real ensures d(Share(HalfLife(h), w)) == w * 0.0 {
      NextSecond(m, age, h);
      Cancels(w, m.decay(age, h), m.decay(age + 1.0, h), c);
    }
    SumAtIs(shares, HalfLife(h), d, 0.0);
  }

  /** Where a key adds nothing to a sum that is zero, the rest, mapped to the same parts, is zero. */
  lemma MappedRestVanishes(shares: seq<Share>, key: Key, f: Share -> real, d: Share -> real, damper: Share -> Share)
    requires Sum(shares, d) == 0.0 && SumAt(shares, key, d) == 0.0
    requires forall s :: s in Without(shares, key) ==> f(damper(s)) == d(s)
    ensures Sum(Mapped(Without(shares, key), damper), f) == 0.0
  {
    TakeOut(shares, key, d);
    MappedSum(Without(shares, key), damper, f, d);
  }

  /** Fading shares that vanish still do once one half-life is taken out and the rest damped by its factor. */
  lemma DampedRestVanishes(m: Library, shares: seq<Share>, h: real, age: real, c: real)
    requires DecayLaws(m) && Fading(shares) && h > 0.0 && age >= 0.0 && c == m.decay(1.0, h)
    requires Score(m, shares, Bare(age)) == 0.0 && Score(m, shares, Bare(age + 1.0)) == 0.0
    ensures Score(m, Mapped(Without(shares, HalfLife(h)), Damper(Factors(m, c))), Bare(age)) == 0.0
  {
    var f, g, damper := Parts(m, Bare(age)), Parts(m, Bare(age + 1.0)), Damper(Factors(m, c));
    WithoutKey(shares, HalfLife(h));
    HalfLifeLeavesNothing(m, shares, h, age, c);
    LeftoverVanishes(shares, f, g, c);
    AllDampedParts(m, Without(shares, HalfLife(h)), c, age, f, g, damper);
    MappedRestVanishes(shares, HalfLife(h), f, Leftover(f, g, c), damper);
  }

  /** The weights of the remaining half-lives are zero once their damped weights are. */
  lemma RestWeighsZero(m: Library, rest: seq<Share>, h: real, key: Key)
    requires DecayLaws(m) && Fading(rest) && h > 0.0 && (forall s :: s in rest ==> s.key != HalfLife(h))
    requires KeyWeight(Mapped(rest, Damper(Factors(m, m.decay(1.0, h)))), key) == 0.0
    ensures KeyWeight(rest, key) == 0.0
  {
    if key.HalfLife? && key.seconds > 0.0 && key.seconds != h {
      var x := m.decay(1.0, key.seconds) - m.decay(1.0, h);
      DampedWeight(rest, Factors(m, m.decay(1.0, h)), key, x);
      NoProduct(KeyWeight(rest, key), x);
    } else {
      AbsentWeighsZero(rest, key);
    }
  }

  /** Decays of distinct half-lives are independent: a sum that vanishes at every age has no weights. */
  lemma {:induction false} FadingWeighsZero(m: Library, shares: seq<Share>, key: Key)
    requires DecayLaws(m) && Fading(shares) && Vanishes(m, shares)
    ensures KeyWeight(shares, key) == 0.0
    decreases |shares|
  {
    if shares != [] {
      var last := shares[|shares| - 1].key;
      assert shares[|shares| - 1] in shares;
      var h, rest := last.seconds, Without(shares, last);
      WithoutKey(shares, last);
      MappedKeys(rest, Damper(Factors(m, m.decay(1.0, h))));
      forall age: real | age >= 0.0
        ensures Score(m, Mapped(rest, Damper(Factors(m, m.decay(1.0, h)))), Bare(age)) == 0.0
      {
        assert Score(m, shares, Bare(age)) == 0.0 && Score(m, shares, Bare(age + 1.0)) == 0.0;
        DampedRestVanishes(m, shares, h, age, m.decay(1.0, h));
      }
      forall k ensures KeyWeight(rest, k) == 0.0 {
        FadingWeighsZero(m, Mapped(rest, Damper(Factors(m, m.decay(1.0, h)))), k);
        RestWeighsZero(m, rest, h, k);
      }
      LastWeighsZero(m, shares, h);
      TakeOutWeights(shares, last, key);
    }
  }

  lemma LastWeighsZero(m: Library, shares: seq<Share>, h: real)
    requires DecayLaws(m) && h > 0.0 && Vanishes(m, shares)
      && forall k :: KeyWeight(Without(shares, HalfLife(h)), k) == 0.0
    ensures KeyWeight(shares, HalfLife(h)) == 0.0
  {
    PartsAreProportional(m, Bare(0.0));
    TakeOut(shares, HalfLife(h), Parts(m, Bare(0.0)));
    HalfLifeSum(m, shares, h, 0.0, 1.0);
    CancellingShares(Without(shares, HalfLife(h)), Parts(m, Bare(0.0)), Values(m, Bare(0.0)));
    assert Score(m, shares, Bare(0.0)) == 0.0;
  }

  function OnlyFading(shares: seq<Share>): seq<Share> {
    if shares == [] then []
    else
      var last, kept := shares[|shares| - 1], OnlyFading(shares[..|shares| - 1]);
      if last.key.HalfLife? then kept + [last] else kept
  }

  /** On bare rows only the half-lives count. */
  lemma {:induction false} BareRowsFade(m: Library, shares: seq<Share>, age: real)
    requires LogLaws(m)
    ensures Score(m, OnlyFading(shares), Bare(age)) == Score(m, shares, Bare(age))
  {
    if shares != [] {
      BareRowsFade(m, shares[..|shares| - 1], age);
      OneMore(OnlyFading(shares[..|shares| - 1]), shares[|shares| - 1], Parts(m, Bare(age)));
    }
  }

  lemma {:induction false} OnlyFadingKeeps(shares: seq<Share>, h: real)
    requires PositiveHalfLives(shares)
    ensures KeyWeight(OnlyFading(shares), HalfLife(h)) == KeyWeight(shares, HalfLife(h)) && Fading(OnlyFading(shares))
  {
    if shares != [] {
      OnlyFadingKeeps(shares[..|shares| - 1], h);
      OneMoreKey(OnlyFading(shares[..|shares| - 1]), shares[|shares| - 1], HalfLife(h));
    }
  }

  lemma HalfLifeWeighsZero(m: Library, shares: seq<Share>, h: real)
    requires Lawful(m) && PositiveHalfLives(shares) && ScoresZero(m, shares)
    ensures KeyWeight(shares, HalfLife(h)) == 0.0
  {
    forall age: real | age >= 0.0 ensures Score(m, OnlyFading(shares), Bare(age)) == 0.0 {
      BareRowsFade(m, shares, age);
      assert Score(m, shares, Bare(age)) == 0.0;
    }
    OnlyFadingKeeps(shares, h);
    FadingWeighsZero(m, OnlyFading(shares), HalfLife(h));
  }

  lemma KeyWeighsZero(m: Library, shares: seq<Share>, key: Key)
    requires Lawful(m) && PositiveHalfLives(shares) && ScoresZero(m, shares)
    ensures KeyWeight(shares, key) == 0.0
  {
    match key
    case Floor(followers) => FloorWeighsZero(m, shares, followers);
    case HalfLife(h) => HalfLifeWeighsZero(m, shares, h);
    case Quality(_) => QualityWeighsZero(m, shares);
    case Logged(query) => QueryWeighsZero(m, shares, query);
    case Plain(query) => QueryWeighsZero(m, shares, query);
  }

  // ---------------------------------------------------------------------------
  // When two sums agree on every row
  // ---------------------------------------------------------------------------

  ghost predicate SameWeights(a: seq<Share>, b: seq<Share>) {
    forall k :: KeyWeight(a, k) == KeyWeight(b, k)
  }

  /** The two lists score every row alike, with the one given library. */
  ghost predicate SameScores(m: Library, a: seq<Share>, b: seq<Share>) {
    forall row: Row :: row.age >= 0.0 ==> Score(m, a, row) == Score(m, b, row)
  }

  lemma {:induction false} NegatedHalfLives(shares: seq<Share>)
    requires PositiveHalfLives(shares)
    ensures PositiveHalfLives(Negated(shares))
  {
    if shares != [] {
      NegatedHalfLives(shares[..|shares| - 1]);
    }
  }

  lemma DifferenceScoresZero(m: Library, a: seq<Share>, b: seq<Share>)
    requires SameScores(m, a, b)
    ensures ScoresZero(m, a + Negated(b))
  {
    forall row: Row | row.age >= 0.0 ensures Score(m, a + Negated(b), row) == 0.0 {
      PartsAreProportional(m, row);
      SumCat(a, Negated(b), Parts(m, row));
      NegatedPart(Parts(m, row), Values(m, row));
      NegatedSum(b, Parts(m, row));
      assert Score(m, a, row) == Score(m, b, row);
    }
  }

  lemma SameScoresSameWeight(m: Library, a: seq<Share>, b: seq<Share>, key: Key)
    requires Lawful(m) && PositiveHalfLives(a) && PositiveHalfLives(b) && SameScores(m, a, b)
    ensures KeyWeight(a, key) == KeyWeight(b, key)
  {
    DifferenceScoresZero(m, a, b);
    NegatedHalfLives(b);
    KeyWeighsZero(m, a + Negated(b), key);
    KeyWeightCat(a, Negated(b), key);
    NegatedWeight(b, key);
  }

  /** For any one library: two lists of shares score every row alike exactly when their weights agree key by key. */
  lemma SameSharesIff(m: Library, a: seq<Share>, b: seq<Share>)
    requires Lawful(m) && PositiveHalfLives(a) && PositiveHalfLives(b)
    ensures SameScores(m, a, b) <==> SameWeights(a, b)
  {
    if SameWeights(a, b) {
      forall row: Row | row.age >= 0.0 ensures Score(m, a, row) == Score(m, b, row) {
        PartsAreProportional(m, row);
        SameWeightsSameSum(a, b, Parts(m, row), Values(m, row));
      }
    }
    if SameScores(m, a, b) {
      forall k ensures KeyWeight(a, k) == KeyWeight(b, k) {
        SameScoresSameWeight(m, a, b, k);
      }
    }
  }

  // ---------------------------------------------------------------------------
  // The laws can be met
  // ---------------------------------------------------------------------------

  function Power(base: real, n: nat): real {
    if n == 0 then 1.0 else Power(base, n - 1) * base
  }

  /** A library whose factor for a half-life is the half-life itself, applied once per full second. */
  function StepLibrary(): Library {
    Library((x: real) => if x == 1.0 then 1.0 else 0.0,
            (age: real, h: real) => if age >= 0.0 then Power(h, age.Floor) else 0.0)
  }

  lemma StepFactor(h: real)
    ensures StepLibrary().decay(0.0, h) == 1.0 && StepLibrary().decay(1.0, h) == h
  {
    assert Power(h, 1) == Power(h, 0) * h;
  }

  /** One instance of the law that each second multiplies by the same factor. */
  ghost predicate FadesBySecond(m: Library, age: real, h: real) {
    m.decay(age + 1.0, h) == m.decay(age, h) * m.decay(1.0, h)
  }

  lemma StepFades(age: real, h: real)
    requires age >= 0.0
    ensures FadesBySecond(StepLibrary(), age, h)
  {
    assert (age + 1.0).Floor == age.Floor + 1;
    StepFactor(h);
  }

  lemma LawsFromInstances(m: Library)
    requires LogLaws(m) && forall h: real :: m.decay(0.0, h) == 1.0 && m.decay(1.0, h) == h
    requires forall age: real, h: real :: age >= 0.0 ==> FadesBySecond(m, age, h)
    ensures Lawful(m)
  {
    forall age: real, later: real, h: real | age >= 0.0 && later == age + 1.0 && h > 0.0
      ensures m.decay(later, h) == m.decay(age, h) * m.decay(1.0, h)
    {
      assert FadesBySecond(m, age, h);
    }
  }

  /** The laws asked of a library are consistent. */
  lemma LawfulLibraryExists()
    ensures Lawful(StepLibrary())
  {
    var m := StepLibrary();
    forall h: real ensures m.decay(0.0, h) == 1.0 && m.decay(1.0, h) == h {
      StepFactor(h);
    }
    forall age: real, h: real | age >= 0.0 ensures FadesBySecond(m, age, h) {
      StepFades(age, h);
    }
    LawsFromInstances(m);
  }
}
