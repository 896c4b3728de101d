/** What paths cost, and which shift of traffic between two of them makes both cost the same. */
module Balance {
  /** What an update reads of a path: times in ms, rate in bit/s, pending length in bytes. */
  datatype Link = Link(minRtt: nat, rate: nat, pending: nat)

  /** What a path's rate leaves over its share of the traffic. */
  function Slack(link: Link, share: real, load: real): real {
    link.rate as real - share * load
  }

  /** The time, in ms, that the pending bytes take. */
  function Backlog(link: Link): real
    requires link.rate > 0
  {
    link.pending as real * 8000.0 / link.rate as real
  }

  /** In the time of the backlog the path sends the pending bits, no more and no less. */
  lemma BacklogDrains(link: Link, drain: real)
    requires link.rate > 0
    ensures drain == Backlog(link) <==> drain * link.rate as real == 8000.0 * link.pending as real
  {
    var rate := link.rate as real;
    assert Backlog(link) * rate == 8000.0 * link.pending as real;
    if drain * rate == Backlog(link) * rate {
      assert (drain - Backlog(link)) * rate == 0.0;
    }
  }

  /** The part of a path's cost that does not depend on its share. */
  function Fixed(link: Link, w: real): real
    requires link.rate > 0
  {
    (link.minRtt / 2) as real + w * Backlog(link)
  }

  /** The part that does: the slack is shared by t ms of weighted packets. */
  function Queued(m: real, t: real, slack: real): real
    requires slack != 0.0
  {
    m * t / slack
  }

  /** The cost of a path over an interval of t ms, for packets of l bits. */
  function CostOf(link: Link, slack: real, t: nat, l: real, w: real): real
    requires slack != 0.0 && link.rate > 0
  {
    Fixed(link, w) + Queued((1.0 - w) * l, t as real, slack)
  }

  /** The packets of l bits that come in t ms wait for as long as the slack takes for them, weighted by 1 - w. */
  ghost predicate Waits(wait: real, slack: real, t: nat, l: real, w: real) {
    wait * slack == (1.0 - w) * l * t as real
  }

  /** A cost is half the minimum round trip, what packets wait, and the weighted time in which the path sends its
      pending bytes. */
  lemma CostIsDelay(link: Link, slack: real, t: nat, l: real, w: real, wait: real, drain: real)
    requires slack != 0.0 && link.rate > 0 && Waits(wait, slack, t, l, w)
    requires drain * link.rate as real == 8000.0 * link.pending as real
    ensures CostOf(link, slack, t, l, w) == (link.minRtt / 2) as real + wait + w * drain
  {
    BacklogDrains(link, drain);
    var queued := Queued((1.0 - w) * l, t as real, slack);
    assert queued * slack == (1.0 - w) * l * t as real;
    assert (queued - wait) * slack == 0.0;
  }

  /** How much later the cheapest path is than the costliest, in packets' worth of delay. */
  function Lag(best: Link, worst: Link, w: real, l: real): real
    requires best.rate > 0 && worst.rate > 0 && (1.0 - w) * l != 0.0
  {
    ((best.minRtt / 2) as real - (worst.minRtt / 2) as real) / ((1.0 - w) * l)
    + (w / ((1.0 - w) * l)) * (Backlog(best) - Backlog(worst))
  }

  /** t ms over the difference of the inverse slacks. */
  function Spread(t: real, p: real, q: real): real
    requires p != 0.0 && q != 0.0
  {
    t * (1.0 / q - 1.0 / p)
  }

  datatype Quadratic = Quadratic(a: real, b: real, c: real) {
    function At(x: real): real {
      a * x * x + b * x + c
    }

    function Discriminant(): real {
      b * b - 4.0 * a * c
    }

    function Slope(x: real): real {
      2.0 * a * x + b
    }

    /** Where the slope is u. */
    function WithSlope(u: real): real
      requires a != 0.0
    {
      (-b + u) / (2.0 * a)
    }
  }

  function Square(x: real): real {
    x * x
  }

  function Times(x: real, y: real): real {
    x * y
  }

  /** The equation that an update solves. */
  function Solved(k: real, load: real, sBest: real, sWorst: real): Quadratic {
    Quadratic(-k * load * load, load - (2.0 - k * (sWorst - sBest)), sWorst - sBest + k * sWorst * sBest)
  }

  /** The equation that the comment above it derives. */
  function Derived(k: real, load: real, sBest: real, sWorst: real): Quadratic {
    Balancing(k, 1.0, load, sBest, sWorst)
  }

  /** The equation whose roots level the costs over an interval of t ms. */
  function Balancing(k: real, t: real, load: real, sBest: real, sWorst: real): Quadratic {
    Quadratic(-k * load * load, load * (2.0 * t - k * (sWorst - sBest)), t * (sWorst - sBest) + k * sWorst * sBest)
  }

  /** With a shift of x from the costlier to the cheaper path, both cost the same. */
  predicate Levels(best: Link, worst: Link, w: real, l: real, t: nat, load: real, sBest: real, sWorst: real, x: real)
    requires best.rate > 0 && worst.rate > 0
    requires sBest - x * load != 0.0 && sWorst + x * load != 0.0
  {
    CostOf(best, sBest - x * load, t, l, w) == CostOf(worst, sWorst + x * load, t, l, w)
  }

  // ---- costs, lag and the levelling equation ----

  lemma SameCost(f: real, g: real, k: real, m: real, t: real, p: real, q: real)
    requires m != 0.0 && p != 0.0 && q != 0.0 && k * m == f - g
    ensures f + Queued(m, t, p) == g + Queued(m, t, q) <==> k == Spread(t, p, q)
  {
    var d := 1.0 / q - 1.0 / p;
    assert m * t / p == m * (t * (1.0 / p)) && m * t / q == m * (t * (1.0 / q));
    assert m * t / q - m * t / p == m * (t * d);
  }

  lemma CostsEqualAt(best: Link, worst: Link, w: real, l: real, t: nat, p: real, q: real, k: real)
    requires best.rate > 0 && worst.rate > 0 && (1.0 - w) * l != 0.0 && p != 0.0 && q != 0.0
    requires k * ((1.0 - w) * l) == Fixed(best, w) - Fixed(worst, w)
    ensures CostOf(best, p, t, l, w) == CostOf(worst, q, t, l, w) <==> k == Spread(t as real, p, q)
  {
    SameCost(Fixed(best, w), Fixed(worst, w), k, (1.0 - w) * l, t as real, p, q);
  }

  /** Two paths cost the same exactly when their lag is t times the difference of their inverse slacks. */
  lemma CostsEqualIff(best: Link, worst: Link, w: real, l: real, t: nat, p: real, q: real)
    requires best.rate > 0 && worst.rate > 0 && (1.0 - w) * l != 0.0 && p != 0.0 && q != 0.0
    ensures CostOf(best, p, t, l, w) == CostOf(worst, q, t, l, w)
       <==> Lag(best, worst, w, l) == Spread(t as real, p, q)
  {
    CostsEqualAt(best, worst, w, l, t, p, q, Lag(best, worst, w, l));
  }

  lemma FractionsDiffer(k: real, t: real, p: real, q: real)
    requires p != 0.0 && q != 0.0
    ensures k == Spread(t, p, q) <==> k * p * q == t * (p - q)
  {
    var d := 1.0 / q - 1.0 / p;
    assert 1.0 / p * p == 1.0 && 1.0 / q * q == 1.0;
    assert d * (p * q) == (1.0 / q * q) * p - (1.0 / p * p) * q;
    assert (t * d) * (p * q) == t * (d * (p * q));
  }

  lemma Expand(k: real, t: real, load: real, sBest: real, sWorst: real, x: real, p: real, q: real)
    requires p == sBest - x * load && q == sWorst + x * load
    ensures Balancing(k, t, load, sBest, sWorst).At(x) == k * p * q - t * (p - q)
  {
    var y := x * load;
    assert k * (sBest - y) * (sWorst + y) == k * sBest * sWorst + k * sBest * y - k * y * sWorst - k * y * y;
    assert load * (2.0 * t - k * (sWorst - sBest)) * x == 2.0 * t * y - k * sWorst * y + k * sBest * y;
    assert -k * load * load * x * x == -k * y * y;
  }

  /** The shifts that level the costs are exactly the roots of the levelling equation. */
  lemma LevelsIff(best: Link, worst: Link, w: real, l: real, t: nat, load: real, sBest: real, sWorst: real, x: real)
    requires best.rate > 0 && worst.rate > 0 && (1.0 - w) * l != 0.0
    requires sBest - x * load != 0.0 && sWorst + x * load != 0.0
    ensures Levels(best, worst, w, l, t, load, sBest, sWorst, x)
       <==> Balancing(Lag(best, worst, w, l), t as real, load, sBest, sWorst).At(x) == 0.0
  {
    var k, p, q := Lag(best, worst, w, l), sBest - x * load, sWorst + x * load;
    CostsEqualIff(best, worst, w, l, t, p, q);
    FractionsDiffer(k, t as real, p, q);
    Expand(k, t as real, load, sBest, sWorst, x, p, q);
  }

  /** The comment derives the levelling equation for an interval of one millisecond: over any
      other, its roots level the costs only where they leave both paths the same slack. */
  lemma DerivedLevelsIff(best: Link, worst: Link, w: real, l: real, t: nat, load: real, sBest: real, sWorst: real,
                         x: real)
    requires best.rate > 0 && worst.rate > 0 && (1.0 - w) * l != 0.0
    requires sBest - x * load != 0.0 && sWorst + x * load != 0.0
    ensures Derived(Lag(best, worst, w, l), load, sBest, sWorst).At(x) == 0.0 ==>
              (Levels(best, worst, w, l, t, load, sBest, sWorst, x)
               <==> t == 1 || sBest - x * load == sWorst + x * load)
  {
    var k, p, q := Lag(best, worst, w, l), sBest - x * load, sWorst + x * load;
    LevelsIff(best, worst, w, l, t, load, sBest, sWorst, x);
    Expand(k, t as real, load, sBest, sWorst, x, p, q);
    Expand(k, 1.0, load, sBest, sWorst, x, p, q);
    if Derived(k, load, sBest, sWorst).At(x) == 0.0 {
      TwoTimes(k * p * q, t as real, p - q);
    }
  }

  lemma TwoTimes(product: real, t: real, d: real)
    requires product - 1.0 * d == 0.0
    ensures product - t * d == 0.0 <==> t == 1.0 || d == 0.0
  {
    assert product - t * d == (1.0 - t) * d;
    ZeroTimes(1.0 - t, d);
  }

  lemma ZeroTimes(a: real, b: real)
    ensures a * b == 0.0 <==> a == 0.0 || b == 0.0
  {
  }

  /** Where two quadratics with the same leading coefficient can vanish together. */
  function Meeting(e: Quadratic, f: Quadratic): real
    requires e.b != f.b
  {
    (f.c - e.c) / (e.b - f.b)
  }

  lemma CommonRootIff(e: Quadratic, f: Quadratic, x: real)
    requires e.a == f.a && e.At(x) == 0.0
    ensures f.At(x) == 0.0 <==> if e.b == f.b then e.c == f.c else x == Meeting(e, f)
  {
    if e.b != f.b {
      MeetingIff(e.b - f.b, f.c - e.c, x);
    }
  }

  lemma MeetingIff(d: real, g: real, x: real)
    requires d != 0.0
    ensures d * x == g <==> x == g / d
  {
    assert d * (g / d) == g;
  }

  /** The equation solved differs from the one derived in the linear part only, where it takes from the load what should
      multiply it. */
  lemma SolvedBesideDerived(k: real, load: real, sBest: real, sWorst: real)
    ensures var e, d := Solved(k, load, sBest, sWorst), Derived(k, load, sBest, sWorst);
            e.a == d.a && e.c == d.c && d.b == Times(load, load - e.b)
  {
    var gap := sWorst - sBest;
    assert Solved(k, load, sBest, sWorst).b == load - (2.0 - k * gap);
    assert Derived(k, load, sBest, sWorst).b == load * (2.0 * 1.0 - k * gap);
  }

  /** A root of the equation an update solves levels the costs exactly where both equations can vanish together:
      at one point if their linear parts differ, and else only if their constant parts agree. */
  lemma SolvedLevelsIff(best: Link, worst: Link, w: real, l: real, t: nat, load: real, sBest: real, sWorst: real,
                        x: real)
    requires best.rate > 0 && worst.rate > 0 && (1.0 - w) * l != 0.0
    requires sBest - x * load != 0.0 && sWorst + x * load != 0.0
    ensures var k := Lag(best, worst, w, l);
            var e, f := Solved(k, load, sBest, sWorst), Balancing(k, t as real, load, sBest, sWorst);
            e.At(x) == 0.0 ==>
              (Levels(best, worst, w, l, t, load, sBest, sWorst, x)
               <==> if e.b == f.b then t == 1 || sBest == sWorst else x == Meeting(e, f))
  {
    var k := Lag(best, worst, w, l);
    var e, f := Solved(k, load, sBest, sWorst), Balancing(k, t as real, load, sBest, sWorst);
    LevelsIff(best, worst, w, l, t, load, sBest, sWorst, x);
    ConstantsAgreeIff(k, t as real, load, sBest, sWorst);
    if e.At(x) == 0.0 {
      CommonRootIff(e, f, x);
    }
  }

  lemma ConstantsAgreeIff(k: real, t: real, load: real, sBest: real, sWorst: real)
    ensures Solved(k, load, sBest, sWorst).c == Balancing(k, t, load, sBest, sWorst).c <==> t == 1.0 || sBest == sWorst
  {
    assert t * (sWorst - sBest) - (sWorst - sBest) == (t - 1.0) * (sWorst - sBest);
    ZeroTimes(t - 1.0, sWorst - sBest);
  }

  lemma SmallerInverse(p: real, q: real)
    requires 0.0 < p < q
    ensures 1.0 / q < 1.0 / p
  {
    assert 1.0 / p * p == 1.0 && 1.0 / q * q == 1.0;
    assert (1.0 / p - 1.0 / q) * (p * q) == q - p;
  }

  lemma LaterIsFurther(t: real, p: real, q: real, p': real, q': real)
    requires t > 0.0 && 0.0 < p' < p && 0.0 < q < q'
    ensures Spread(t, p', q') < Spread(t, p, q)
  {
    SmallerInverse(p', p);
    SmallerInverse(q, q');
    var d := (1.0 / q - 1.0 / p) - (1.0 / q' - 1.0 / p');
    assert t * d > 0.0;
    assert t * d == t * (1.0 / q - 1.0 / p) - t * (1.0 / q' - 1.0 / p');
  }

  lemma Further(x: real, y: real, load: real)
    requires x < y && load > 0.0
    ensures x * load < y * load
  {
    assert (y - x) * load > 0.0;
  }

  lemma OneLevel(best: Link, worst: Link, w: real, l: real, t: nat, p: real, q: real, p': real, q': real)
    requires best.rate > 0 && worst.rate > 0 && (1.0 - w) * l != 0.0 && t > 0
    requires 0.0 < p' < p && 0.0 < q < q'
    requires CostOf(best, p, t, l, w) == CostOf(worst, q, t, l, w)
    ensures CostOf(best, p', t, l, w) != CostOf(worst, q', t, l, w)
  {
    CostsEqualIff(best, worst, w, l, t, p, q);
    CostsEqualIff(best, worst, w, l, t, p', q');
    LaterIsFurther(t as real, p, q, p', q');
  }

  /** While both paths keep some slack, at most one shift levels the costs. */
  lemma OneShiftLevels(best: Link, worst: Link, w: real, l: real, t: nat, load: real, sBest: real, sWorst: real,
                       x: real, y: real)
    requires best.rate > 0 && worst.rate > 0 && (1.0 - w) * l != 0.0 && t > 0 && load > 0.0 && x < y
    requires sBest - y * load > 0.0 && sWorst + x * load > 0.0
    ensures sBest - x * load > 0.0 && sWorst + y * load > 0.0
    ensures || !Levels(best, worst, w, l, t, load, sBest, sWorst, x)
            || !Levels(best, worst, w, l, t, load, sBest, sWorst, y)
  {
    var u, v := x * load, y * load;
    Further(x, y, load);
    assert u < v;
    if Levels(best, worst, w, l, t, load, sBest, sWorst, x) {
      OneLevel(best, worst, w, l, t, sBest - u, sWorst + u, sBest - v, sWorst + v);
    }
  }

  // ---- the amount an update moves ----

  /** The division that finds a single root is possible. */
  predicate Rooted(e: Quadratic) {
    e.a == 0.0 && e.Discriminant() >= 0.0 ==> e.b != 0.0
  }

  /** The root an update takes. `sqrt` stands for the library's square root. */
  function Root(e: Quadratic, sqrt: real -> real): real
    requires Rooted(e) && e.Discriminant() >= 0.0
  {
    if e.a == 0.0 then -e.c / e.b else e.WithSlope(sqrt(e.Discriminant()))
  }

  /** How much share to move: the root, but neither less than nothing nor more than there
      is; everything, if there is no root. */
  function Amount(e: Quadratic, share: real, sqrt: real -> real): (delta: real)
    requires share >= 0.0 && Rooted(e)
    ensures 0.0 <= delta <= share
  {
    if e.Discriminant() < 0.0 then share
    else
      var root := Root(e, sqrt);
      if root < 0.0 then 0.0 else if root > share then share else root
  }

  /** The square root is right for this argument. */
  predicate Right(sqrt: real -> real, d: real) {
    sqrt(d) >= 0.0 && Square(sqrt(d)) == d
  }

  /** The root that an update does not take. */
  function OtherRoot(e: Quadratic, sqrt: real -> real): real
    requires Rooted(e) && e.Discriminant() >= 0.0
  {
    if e.a == 0.0 then -e.c / e.b else e.WithSlope(-sqrt(e.Discriminant()))
  }

  lemma SquaresEqual(u: real, s: real)
    requires Square(u) == Square(s)
    ensures u == s || u == -s
  {
    assert (u - s) * (u + s) == Square(u) - Square(s);
    ZeroTimes(u - s, u + s);
  }

  lemma SlopeIff(e: Quadratic, x: real, u: real)
    requires e.a != 0.0
    ensures e.Slope(x) == u <==> x == e.WithSlope(u)
  {
    MeetingIff(2.0 * e.a, -e.b + u, x);
  }

  lemma ZeroIff(e: Quadratic, x: real)
    requires e.a != 0.0
    ensures e.At(x) == 0.0 <==> Square(e.Slope(x)) == e.Discriminant()
  {
    ZeroTimes(4.0 * e.a, e.At(x));
  }

  lemma NegatedSquare(s: real)
    ensures Square(-s) == Square(s)
  {
  }

  lemma FlatIff(e: Quadratic, x: real)
    requires e.a == 0.0 && e.b != 0.0
    ensures e.At(x) == 0.0 <==> x == -e.c / e.b
    ensures e.Slope(x) == e.b
  {
    assert e.a * x * x == 0.0;
    MeetingIff(e.b, -e.c, x);
  }

  /** The one root is where the slope is the square root, the other where it is its negative. */
  lemma RootsAre(e: Quadratic, sqrt: real -> real, x: real)
    requires Rooted(e) && e.Discriminant() >= 0.0 && Right(sqrt, e.Discriminant()) && (e.a == 0.0 ==> e.b != 0.0)
    ensures e.At(x) == 0.0 <==> x == Root(e, sqrt) || x == OtherRoot(e, sqrt)
    ensures e.At(x) == 0.0 && e.Slope(x) > 0.0 ==> x == Root(e, sqrt)
    ensures x == Root(e, sqrt) && e.a != 0.0 ==> e.Slope(x) == sqrt(e.Discriminant())
  {
    var s := sqrt(e.Discriminant());
    if e.a == 0.0 {
      FlatIff(e, x);
    } else {
      SlopeIff(e, x, s);
      SlopeIff(e, x, -s);
      ZeroIff(e, x);
      NegatedSquare(s);
      if e.At(x) == 0.0 {
        SquaresEqual(e.Slope(x), s);
      }
    }
  }

  // ---- the shift that levels the costs ----

  lemma SquareNatural(x: real)
    ensures Square(x) >= 0.0
  {
  }

  lemma SquarePositive(x: real)
    requires x != 0.0
    ensures Square(x) > 0.0
  {
    SquareNatural(x);
    ZeroTimes(x, x);
  }

  lemma PositiveProduct(a: real, b: real)
    requires a > 0.0 && b > 0.0
    ensures a * b > 0.0
  {
  }

  lemma NotPositiveProduct(a: real, b: real)
    requires a <= 0.0 && b >= 0.0
    ensures a * b <= 0.0
  {
  }

  lemma ProductSquared(a: real, b: real)
    ensures Square(a * b) == Square(a) * Square(b)
  {
  }

  lemma SquareOfSum(a: real, b: real)
    ensures Square(a + b) == Square(a - b) + 4.0 * (a * b)
  {
  }

  lemma LeadingZero(k: real, load: real)
    requires load != 0.0
    ensures -k * load * load == 0.0 ==> k == 0.0
  {
    ZeroTimes(k, load);
    ZeroTimes(-k * load, load);
  }

  lemma AlwaysRooted(k: real, t: real, load: real, sBest: real, sWorst: real)
    requires t > 0.0 && load > 0.0
    ensures var f := Balancing(k, t, load, sBest, sWorst);
            f.Discriminant() > 0.0 && (f.a == 0.0 ==> k == 0.0 && f.b > 0.0)
  {
    SquarePositive(load);
    SquarePositive(t);
    SquareNatural(k);
    SquareNatural(sBest + sWorst);
    LeadingZero(k, load);
    PositiveProduct(load, 2.0 * t);
  }

  /** The slope of the levelling equation, by the slacks that the shift leaves. */
  lemma SlopeAt(k: real, t: real, load: real, sBest: real, sWorst: real, x: real, p: real, q: real)
    requires p == sBest - x * load && q == sWorst + x * load
    ensures Balancing(k, t, load, sBest, sWorst).Slope(x) == Times(load, k * (p - q) + 2.0 * t)
  {
    var y := x * load;
    assert k * (p - q) == -(k * (sWorst - sBest)) - 2.0 * (k * y);
    assert load * (2.0 * t - k * (sWorst - sBest)) + load * (-2.0 * (k * y))
        == load * (2.0 * t - k * (sWorst - sBest) - 2.0 * (k * y));
  }

  lemma NaturalFactor(u: real, m: real)
    requires m > 0.0 && u * m >= 0.0
    ensures u >= 0.0
  {
    if u < 0.0 {
      PositiveProduct(-u, m);
    }
  }

  /** At a root that leaves both paths some slack, it is positive. */
  lemma SlopePositive(k: real, t: real, load: real, p: real, q: real)
    requires t > 0.0 && load > 0.0 && p > 0.0 && q > 0.0 && k * p * q == t * (p - q)
    ensures Times(load, k * (p - q) + 2.0 * t) > 0.0
  {
    var d, m := p - q, p * q;
    PositiveProduct(p, q);
    assert k * p * q == k * m;
    SquareNatural(d);
    NotPositiveProduct(-t, Square(d));
    assert -t * Square(d) == -(t * Square(d));
    NaturalFactor(k * d, m);
    PositiveProduct(load, k * d + 2.0 * t);
  }

  /** A shift that leaves some slack on both paths levels the costs only as the root that the code's formula takes -
      of the levelling equation. */
  lemma LevelIsRoot(k: real, t: real, load: real, sBest: real, sWorst: real, sqrt: real -> real, x: real)
    requires t > 0.0 && load > 0.0 && sBest - x * load > 0.0 && sWorst + x * load > 0.0
    requires Right(sqrt, Balancing(k, t, load, sBest, sWorst).Discriminant())
    ensures var f := Balancing(k, t, load, sBest, sWorst);
            Rooted(f) && f.Discriminant() >= 0.0 && (f.At(x) == 0.0 ==> x == Root(f, sqrt))
  {
    var f := Balancing(k, t, load, sBest, sWorst);
    var p, q := sBest - x * load, sWorst + x * load;
    AlwaysRooted(k, t, load, sBest, sWorst);
    if f.At(x) == 0.0 {
      Expand(k, t, load, sBest, sWorst, x, p, q);
      SlopeAt(k, t, load, sBest, sWorst, x, p, q);
      SlopePositive(k, t, load, p, q);
      RootsAre(f, sqrt, x);
    }
  }

  lemma RootKeepsSlack(k: real, t: real, p: real, q: real)
    requires t > 0.0 && p + q > 0.0 && k * p * q == t * (p - q) && k * (p - q) + 2.0 * t > 0.0
    ensures p > 0.0 && q > 0.0
  {
    var d, m := p - q, p * q;
    assert k * p * q == k * m;
    if k == 0.0 {
      ZeroTimes(t, d);
    } else {
      SquareOfSum(p, q);
      SlackProduct(k, t, k * d, p + q, m, d);
    }
  }

  lemma SlackProduct(k: real, t: real, m: real, sum: real, product: real, d: real)
    requires k != 0.0 && t > 0.0 && sum > 0.0 && m == k * d && m + 2.0 * t > 0.0
    requires k * product == t * d && Square(sum) == Square(d) + 4.0 * product
    ensures product > 0.0
  {
    SquarePositive(k);
    SquarePositive(sum);
    PositiveProduct(Square(k), Square(sum));
    ProductSquared(k, d);
    assert Square(k) * (Square(d) + 4.0 * product) == Square(k) * Square(d) + 4.0 * (Square(k) * product);
    assert m * (m + 4.0 * t) == Square(m) + 4.0 * (t * m);
    if product <= 0.0 {
      NotPositiveProduct(product, Square(k));
      NotPositiveProduct(m, m + 4.0 * t);
    }
  }

  /** Rooted, with a right square root. */
  predicate Solvable(e: Quadratic, sqrt: real -> real) {
    Rooted(e) && e.Discriminant() >= 0.0 && Right(sqrt, e.Discriminant())
  }

  lemma BalancingSolvable(k: real, t: real, load: real, sBest: real, sWorst: real, sqrt: real -> real)
    requires t > 0.0 && load > 0.0
    requires Right(sqrt, Balancing(k, t, load, sBest, sWorst).Discriminant())
    ensures Solvable(Balancing(k, t, load, sBest, sWorst), sqrt)
  {
    AlwaysRooted(k, t, load, sBest, sWorst);
  }

  /** The root of the levelling equation leaves both paths some slack. */
  lemma RootLeavesSlack(k: real, t: real, load: real, sBest: real, sWorst: real, sqrt: real -> real, x: real)
    requires t > 0.0 && load > 0.0 && sBest + sWorst > 0.0
    requires var f := Balancing(k, t, load, sBest, sWorst); Solvable(f, sqrt) && x == Root(f, sqrt)
    ensures Balancing(k, t, load, sBest, sWorst).At(x) == 0.0
    ensures sBest - x * load > 0.0 && sWorst + x * load > 0.0
  {
    var f := Balancing(k, t, load, sBest, sWorst);
    AlwaysRooted(k, t, load, sBest, sWorst);
    var p, q := sBest - x * load, sWorst + x * load;
    RootsAre(f, sqrt, x);
    if f.a == 0.0 {
      FlatIff(f, x);
    }
    Expand(k, t, load, sBest, sWorst, x, p, q);
    SlopeAt(k, t, load, sBest, sWorst, x, p, q);
    PositiveFactor(load, k * (p - q) + 2.0 * t);
    RootKeepsSlack(k, t, p, q);
  }

  lemma PositiveFactor(load: real, u: real)
    requires load > 0.0 && Times(load, u) > 0.0
    ensures u > 0.0
  {
    if u <= 0.0 {
      NotPositiveProduct(u, load);
    }
  }

  /** Exactly one shift that leaves both paths some slack levels their costs: the root r that the code's formula
      gives for the levelling equation. It always exists. */
  lemma LevellingShift(best: Link, worst: Link, w: real, l: real, t: nat, load: real, sBest: real, sWorst: real,
                       sqrt: real -> real, r: real)
    requires best.rate > 0 && worst.rate > 0 && (1.0 - w) * l != 0.0
    requires t > 0 && load > 0.0 && sBest + sWorst > 0.0
    requires Right(sqrt, Balancing(Lag(best, worst, w, l), t as real, load, sBest, sWorst).Discriminant())
    ensures var f := Balancing(Lag(best, worst, w, l), t as real, load, sBest, sWorst);
            && Solvable(f, sqrt)
            && (r == Root(f, sqrt) <==>
                && sBest - r * load > 0.0 && sWorst + r * load > 0.0
                && Levels(best, worst, w, l, t, load, sBest, sWorst, r))
  {
    var k := Lag(best, worst, w, l);
    var f := Balancing(k, t as real, load, sBest, sWorst);
    BalancingSolvable(k, t as real, load, sBest, sWorst, sqrt);
    if r == Root(f, sqrt) {
      RootLeavesSlack(k, t as real, load, sBest, sWorst, sqrt, r);
      LevelsIff(best, worst, w, l, t, load, sBest, sWorst, r);
    } else if sBest - r * load > 0.0 && sWorst + r * load > 0.0 {
      LevelsIff(best, worst, w, l, t, load, sBest, sWorst, r);
      LevelIsRoot(k, t as real, load, sBest, sWorst, sqrt, r);
    }
  }

  /** Whatever slack they leave, the shifts that level the costs are the two roots. */
  lemma RootsLevelIff(best: Link, worst: Link, w: real, l: real, t: nat, load: real, sBest: real, sWorst: real,
                      sqrt: real -> real, x: real)
    requires best.rate > 0 && worst.rate > 0 && (1.0 - w) * l != 0.0 && t > 0 && load > 0.0
    requires sBest - x * load != 0.0 && sWorst + x * load != 0.0
    requires Right(sqrt, Balancing(Lag(best, worst, w, l), t as real, load, sBest, sWorst).Discriminant())
    ensures var f := Balancing(Lag(best, worst, w, l), t as real, load, sBest, sWorst);
            && Solvable(f, sqrt)
            && (Levels(best, worst, w, l, t, load, sBest, sWorst, x) <==> x == Root(f, sqrt) || x == OtherRoot(f, sqrt))
  {
    var k := Lag(best, worst, w, l);
    BalancingSolvable(k, t as real, load, sBest, sWorst, sqrt);
    AlwaysRooted(k, t as real, load, sBest, sWorst);
    LevelsIff(best, worst, w, l, t, load, sBest, sWorst, x);
    RootsAre(Balancing(k, t as real, load, sBest, sWorst), sqrt, x);
  }

  // ---- when the amount moved levels the costs ----

  /** The equation an update solves and the levelling equation have the same root, by their coefficients alone. */
  predicate RootsMeet(e: Quadratic, f: Quadratic) {
    if e.b == f.b then e.c == f.c
    else
      var x := Meeting(e, f);
      e.At(x) == 0.0 && (e.a == 0.0 || e.Slope(x) >= 0.0)
  }

  lemma RootsMeetIff(e: Quadratic, f: Quadratic, sqrt: real -> real)
    requires e.a == f.a && Rooted(e) && e.Discriminant() >= 0.0 && Right(sqrt, e.Discriminant())
    ensures f.At(Root(e, sqrt)) == 0.0 <==> RootsMeet(e, f)
  {
    var r := Root(e, sqrt);
    RootsAre(e, sqrt, r);
    CommonRootIff(e, f, r);
    if e.b != f.b {
      var x := Meeting(e, f);
      RootsAre(e, sqrt, x);
      if e.At(x) == 0.0 && e.a != 0.0 && e.Slope(x) >= 0.0 {
        NaturalSlope(e, sqrt, x);
      }
    }
  }

  lemma NaturalSlope(e: Quadratic, sqrt: real -> real, x: real)
    requires e.a != 0.0 && e.Discriminant() >= 0.0 && Right(sqrt, e.Discriminant())
    requires e.At(x) == 0.0 && e.Slope(x) >= 0.0
    ensures x == Root(e, sqrt)
  {
    var s := sqrt(e.Discriminant());
    ZeroIff(e, x);
    SquaresEqual(e.Slope(x), s);
  }

  lemma ZeroShift(load: real, sBest: real, sWorst: real, x: real)
    requires x == 0.0
    ensures sBest - x * load == sBest && sWorst + x * load == sWorst
  {
    assert x * load == 0.0;
  }

  /** The costs are the same already. */
  predicate Tied(best: Link, worst: Link, w: real, l: real, t: nat, sBest: real, sWorst: real)
    requires best.rate > 0 && worst.rate > 0
  {
    sBest != 0.0 && sWorst != 0.0 && CostOf(best, sBest, t, l, w) == CostOf(worst, sWorst, t, l, w)
  }

  /** When the amount moved levels the costs: where everything is moved, if that is one of the two levelling shifts;
      where nothing is moved, if the costs were the same before; and where the root is, if both equations have it by
      their coefficients. */
  lemma AmountLevelsIff(best: Link, worst: Link, w: real, l: real, t: nat, load: real, sBest: real, sWorst: real,
                        share: real, sqrt: real -> real, x: real)
    requires best.rate > 0 && worst.rate > 0 && (1.0 - w) * l != 0.0 && share >= 0.0 && t > 0 && load > 0.0
    requires sBest - x * load != 0.0 && sWorst + x * load != 0.0
    requires Right(sqrt, Balancing(Lag(best, worst, w, l), t as real, load, sBest, sWorst).Discriminant())
    requires var e := Solved(Lag(best, worst, w, l), load, sBest, sWorst);
             Rooted(e) && (e.Discriminant() >= 0.0 ==> Right(sqrt, e.Discriminant())) && x == Amount(e, share, sqrt)
    ensures var k := Lag(best, worst, w, l);
            var e, f := Solved(k, load, sBest, sWorst), Balancing(k, t as real, load, sBest, sWorst);
            && Solvable(f, sqrt)
            && (Levels(best, worst, w, l, t, load, sBest, sWorst, x) <==>
                 if e.Discriminant() < 0.0 || Root(e, sqrt) > share
                 then share == Root(f, sqrt) || share == OtherRoot(f, sqrt)
                 else if Root(e, sqrt) < 0.0 then Tied(best, worst, w, l, t, sBest, sWorst)
                 else RootsMeet(e, f))
  {
    var k := Lag(best, worst, w, l);
    var e, f := Solved(k, load, sBest, sWorst), Balancing(k, t as real, load, sBest, sWorst);
    RootsLevelIff(best, worst, w, l, t, load, sBest, sWorst, sqrt, x);
    if e.Discriminant() >= 0.0 && Root(e, sqrt) <= share {
      if Root(e, sqrt) < 0.0 {
        ZeroShift(load, sBest, sWorst, x);
      } else {
        LevelsIff(best, worst, w, l, t, load, sBest, sWorst, x);
        RootsMeetIff(e, f, sqrt);
      }
    }
  }

  /** Without an interval, shifts change no cost. */
  lemma NoIntervalLevelsIff(best: Link, worst: Link, w: real, l: real, load: real, sBest: real, sWorst: real, x: real)
    requires best.rate > 0 && worst.rate > 0 && (1.0 - w) * l != 0.0
    requires sBest - x * load != 0.0 && sWorst + x * load != 0.0
    ensures Levels(best, worst, w, l, 0, load, sBest, sWorst, x) <==> Lag(best, worst, w, l) == 0.0
  {
    CostsEqualIff(best, worst, w, l, 0, sBest - x * load, sWorst + x * load);
  }

  lemma UnlaggedEquations(t: real, load: real, sBest: real, sWorst: real, x: real)
    ensures Balancing(0.0, t, load, sBest, sWorst).At(x) == t * (2.0 * Times(x, load) - (sBest - sWorst))
    ensures Solved(0.0, load, sBest, sWorst) == Quadratic(0.0, load - 2.0, -(sBest - sWorst))
  {
    assert load * (2.0 * t) * x == t * (2.0 * (x * load));
  }

  /** The root that an update takes when the lag is nothing, by the difference of the slacks. */
  function UnlaggedRoot(load: real, gap: real): real
    requires load != 2.0
  {
    gap / (load - 2.0)
  }

  lemma UnlaggedLevelsAt(best: Link, worst: Link, w: real, l: real, t: nat, load: real, sBest: real, sWorst: real,
                         x: real)
    requires best.rate > 0 && worst.rate > 0 && (1.0 - w) * l != 0.0 && t > 0 && Lag(best, worst, w, l) == 0.0
    requires sBest - x * load != 0.0 && sWorst + x * load != 0.0
    ensures Levels(best, worst, w, l, t, load, sBest, sWorst, x) <==> 2.0 * Times(x, load) == sBest - sWorst
  {
    LevelsIff(best, worst, w, l, t, load, sBest, sWorst, x);
    assert Balancing(Lag(best, worst, w, l), t as real, load, sBest, sWorst)
        == Balancing(0.0, t as real, load, sBest, sWorst);
    UnlaggedEquations(t as real, load, sBest, sWorst, x);
    ZeroTimes(t as real, 2.0 * Times(x, load) - (sBest - sWorst));
  }

  /** Between paths whose other costs are alike, an update levels the costs only if they were the same already, or
      if all of the worst path's share happens to be half of what their slacks differ by. */
  lemma UnlaggedLevelsIff(best: Link, worst: Link, w: real, l: real, t: nat, load: real, sBest: real, sWorst: real,
                          share: real, sqrt: real -> real, x: real)
    requires best.rate > 0 && worst.rate > 0 && (1.0 - w) * l != 0.0 && share >= 0.0 && t > 0
    requires Lag(best, worst, w, l) == 0.0 && load > 0.0 && load != 2.0
    requires sBest - x * load != 0.0 && sWorst + x * load != 0.0
    requires Rooted(Solved(0.0, load, sBest, sWorst)) && x == Amount(Solved(0.0, load, sBest, sWorst), share, sqrt)
    ensures Levels(best, worst, w, l, t, load, sBest, sWorst, x) <==>
              || sBest == sWorst
              || (UnlaggedRoot(load, sBest - sWorst) > share && 2.0 * Times(share, load) == sBest - sWorst)
  {
    UnlaggedLevelsAt(best, worst, w, l, t, load, sBest, sWorst, x);
  }

  /** A path compared with itself lags by nothing, and then nothing is moved. */
  lemma SelfMovesNothing(link: Link, w: real, l: real, load: real, slack: real, share: real, sqrt: real -> real)
    requires link.rate > 0 && (1.0 - w) * l != 0.0 && share >= 0.0
    requires Rooted(Solved(Lag(link, link, w, l), load, slack, slack))
    ensures Amount(Solved(Lag(link, link, w, l), load, slack, slack), share, sqrt) == 0.0
  {
    assert Lag(link, link, w, l) == 0.0;
    var e := Solved(Lag(link, link, w, l), load, slack, slack);
    assert e.a == 0.0 && e.c == 0.0;
    assert e.Discriminant() == e.b * e.b;
  }
}
