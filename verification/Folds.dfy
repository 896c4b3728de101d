/** Running a step function over a list, and what survives such a run. */
module Folds {
  function Fold<S, A>(f: (S, A) -> S, s: S, xs: seq<A>): S {
    if xs == [] then s else f(Fold(f, s, xs[..|xs| - 1]), xs[|xs| - 1])
  }

  lemma {:induction false} FoldAppend<S, A>(f: (S, A) -> S, s: S, xs: seq<A>, ys: seq<A>)
    ensures Fold(f, s, xs + ys) == Fold(f, Fold(f, s, xs), ys)
    decreases |ys|
  {
    if ys == [] {
      assert xs + ys == xs;
    } else {
      FoldAppend(f, s, xs, ys[..|ys| - 1]);
      assert (xs + ys)[..|xs + ys| - 1] == xs + ys[..|ys| - 1];
    }
  }

  ghost predicate LosesNothing<S(!new), A(!new)>(f: (S, A) -> S) {
    forall s, t, a :: f(s, a) == f(t, a) ==> s == t
  }

  lemma {:induction false} FoldLosesNothing<S(!new), A(!new)>(f: (S, A) -> S, s: S, t: S, xs: seq<A>)
    requires LosesNothing(f) && Fold(f, s, xs) == Fold(f, t, xs)
    ensures s == t
    decreases |xs|
  {
    if xs != [] {
      FoldLosesNothing(f, s, t, xs[..|xs| - 1]);
    }
  }

  function Repeat<T>(f: T -> T, x: T, n: nat): T {
    if n == 0 then x else f(Repeat(f, x, n - 1))
  }

  lemma RepeatTwice<T>(f: T -> T, x: T, n: nat)
    ensures Repeat(f, x, n + 2) == f(f(Repeat(f, x, n)))
  {
    assert Repeat(f, x, n + 2) == f(Repeat(f, x, n + 1));
  }

  lemma RepeatEight<T>(f: T -> T, x: T, n: nat)
    requires n >= 8
    ensures Repeat(f, x, n) == f(f(f(f(f(f(f(f(Repeat(f, x, n - 8)))))))))
  {
    RepeatTwice(f, x, n - 2);
    RepeatTwice(f, x, n - 4);
    RepeatTwice(f, x, n - 6);
    RepeatTwice(f, x, n - 8);
  }

  function FoldRight<S, A>(f: (S, A) -> S, s: S, xs: seq<A>): S
    decreases |xs|
  {
    if xs == [] then s else f(FoldRight(f, s, xs[1..]), xs[0])
  }

  lemma {:induction false} FoldRightFollows<S(!new), A(!new)>(f: (S, A) -> S, g: S -> S, rel: (S, S) -> bool,
                                                              s: S, t: S, xs: seq<A>)
    requires rel(s, t) && forall s, t, a :: rel(s, t) ==> rel(f(s, a), g(t))
    ensures rel(FoldRight(f, s, xs), Repeat(g, t, |xs|))
    decreases |xs|
  {
    if xs != [] {
      FoldRightFollows(f, g, rel, s, t, xs[1..]);
    }
  }

  lemma {:induction false} RepeatClimbs<T(!new)>(g: T -> T, rel: (T, T) -> bool, t: T, n: nat, m: nat)
    requires n <= m && (forall s :: rel(t, s)) && forall r, s :: rel(r, s) ==> rel(g(r), g(s))
    ensures rel(Repeat(g, t, n), Repeat(g, t, m))
  {
    if n > 0 {
      RepeatClimbs(g, rel, t, n - 1, m - 1);
    }
  }

  ghost predicate Distributes<T(!new)>(f: T -> T, plus: (T, T) -> T) {
    forall x, y :: f(plus(x, y)) == plus(f(x), f(y))
  }

  lemma {:induction false} RepeatDistributes<T(!new)>(f: T -> T, plus: (T, T) -> T, x: T, y: T, n: nat)
    requires Distributes(f, plus)
    ensures Repeat(f, plus(x, y), n) == plus(Repeat(f, x, n), Repeat(f, y, n))
  {
    if n > 0 {
      RepeatDistributes(f, plus, x, y, n - 1);
    }
  }

  /** The n lowest digits of x, lowest first. */
  function Digits<T>(odd: T -> bool, half: T -> T, x: T, n: nat): (d: seq<bool>)
    ensures |d| == n
  {
    if n == 0 then [] else Digits(odd, half, x, n - 1) + [odd(Repeat(half, x, n - 1))]
  }

  ghost predicate Absorbs<T(!new)>(f: (T, bool) -> T, odd: T -> bool, half: T -> T, plus: (T, T) -> T, step: T -> T) {
    forall r, x :: step(plus(r, x)) == plus(f(r, odd(x)), half(x))
  }

  /** Feeding in digits one by one is stepping from the state with the whole number added in. */
  lemma {:induction false} FeedDigits<T(!new)>(f: (T, bool) -> T, odd: T -> bool, half: T -> T, plus: (T, T) -> T,
                                              step: T -> T, r: T, x: T, n: nat)
    requires Absorbs(f, odd, half, plus, step)
    ensures Repeat(step, plus(r, x), n) == plus(Fold(f, r, Digits(odd, half, x, n)), Repeat(half, x, n))
  {
    if n > 0 {
      FeedDigits(f, odd, half, plus, step, r, x, n - 1);
      var d := Digits(odd, half, x, n);
      assert d[..|d| - 1] == Digits(odd, half, x, n - 1);
    }
  }

  lemma {:induction false} RepeatFront<T>(f: T -> T, x: T, n: nat)
    ensures Repeat(f, x, n + 1) == Repeat(f, f(x), n)
  {
    if n > 0 {
      RepeatFront(f, x, n - 1);
    }
  }

  lemma {:induction false} RepeatLosesNothing<T(!new)>(f: T -> T, x: T, y: T, n: nat)
    requires forall x, y :: f(x) == f(y) ==> x == y
    requires Repeat(f, x, n) == Repeat(f, y, n)
    ensures x == y
  {
    if n > 0 {
      RepeatLosesNothing(f, x, y, n - 1);
    }
  }

  lemma {:induction false} DigitsFront<T>(odd: T -> bool, half: T -> T, x: T, n: nat)
    ensures Digits(odd, half, x, n + 1) == [odd(x)] + Digits(odd, half, half(x), n)
  {
    if n > 0 {
      DigitsFront(odd, half, x, n - 1);
      RepeatFront(half, x, n - 1);
    }
  }

  function FlatMap<A, B>(g: A -> seq<B>, xs: seq<A>): seq<B> {
    if xs == [] then [] else FlatMap(g, xs[..|xs| - 1]) + g(xs[|xs| - 1])
  }

  lemma {:induction false} FlatMapAppend<A, B>(g: A -> seq<B>, xs: seq<A>, ys: seq<A>)
    ensures FlatMap(g, xs + ys) == FlatMap(g, xs) + FlatMap(g, ys)
    decreases |ys|
  {
    if ys == [] {
      assert xs + ys == xs;
    } else {
      var all, k := xs + ys, |ys| - 1;
      FlatMapAppend(g, xs, ys[..k]);
      assert all[..|all| - 1] == xs + ys[..k] && all[|all| - 1] == ys[k];
    }
  }

  lemma {:induction false} FlatMapLength<A(!new), B>(g: A -> seq<B>, xs: seq<A>, n: nat)
    requires forall x :: |g(x)| == n
    ensures |FlatMap(g, xs)| == n * |xs|
    decreases |xs|
  {
    if xs != [] {
      FlatMapLength(g, xs[..|xs| - 1], n);
      assert n * |xs| == n * (|xs| - 1) + n;
    }
  }

  lemma {:induction false} FlatMapLosesNothing<A(!new), B>(g: A -> seq<B>, xs: seq<A>, ys: seq<A>, n: nat)
    requires forall x :: |g(x)| == n
    requires forall x, y :: g(x) == g(y) ==> x == y
    requires |xs| == |ys| && FlatMap(g, xs) == FlatMap(g, ys)
    ensures xs == ys
    decreases |xs|
  {
    if xs != [] {
      var k := |xs| - 1;
      SamePieces(FlatMap(g, xs[..k]), g(xs[k]), FlatMap(g, ys[..k]), g(ys[k]));
      FlatMapLosesNothing(g, xs[..k], ys[..k], n);
      assert xs == xs[..k] + [xs[k]] && ys == ys[..k] + [ys[k]];
    }
  }

  lemma SamePieces<B>(a: seq<B>, b: seq<B>, c: seq<B>, d: seq<B>)
    requires a + b == c + d && |b| == |d|
    ensures a == c && b == d
  {
    assert |a| == |c|;
    assert (a + b)[..|a|] == a && (c + d)[..|a|] == c;
    assert (a + b)[|a|..] == b && (c + d)[|a|..] == d;
  }

  // ---- two runs side by side ----

  /** How far apart two runs end that began `d` apart, when `next` says what one element each adds. */
  function Apart<D, A>(next: (D, A, A) -> D, d: D, xs: seq<A>, ys: seq<A>): D
    requires |xs| == |ys|
  {
    if xs == [] then d
    else
      var k := |xs| - 1;
      next(Apart(next, d, xs[..k], ys[..k]), xs[k], ys[k])
  }

  lemma {:induction false} FoldApart<S(!new), A(!new), B, D(!new)>(f: (S, B) -> S, g: A -> seq<B>, minus: (S, S) -> D,
                                                                   next: (D, A, A) -> D, r: S, q: S, xs: seq<A>,
                                                                   ys: seq<A>)
    requires |xs| == |ys|
    requires forall r, q, x, y :: minus(Fold(f, r, g(x)), Fold(f, q, g(y))) == next(minus(r, q), x, y)
    ensures minus(Fold(f, r, FlatMap(g, xs)), Fold(f, q, FlatMap(g, ys))) == Apart(next, minus(r, q), xs, ys)
    decreases |xs|
  {
    if xs != [] {
      var k := |xs| - 1;
      FoldApart(f, g, minus, next, r, q, xs[..k], ys[..k]);
      FoldAppend(f, r, FlatMap(g, xs[..k]), g(xs[k]));
      FoldAppend(f, q, FlatMap(g, ys[..k]), g(ys[k]));
    }
  }

  ghost predicate Commutes<D(!new)>(plus: (D, D) -> D) {
    forall x, y :: plus(x, y) == plus(y, x)
  }

  ghost predicate Associates<D(!new)>(plus: (D, D) -> D) {
    forall x, y, z :: plus(plus(x, y), z) == plus(x, plus(y, z))
  }

  lemma Regroup<D(!new)>(plus: (D, D) -> D, r: D, x: D, q: D, y: D)
    requires Commutes(plus) && Associates(plus)
    ensures plus(plus(r, x), plus(q, y)) == plus(plus(r, q), plus(x, y))
  {
    assert plus(plus(r, x), plus(q, y)) == plus(r, plus(x, plus(q, y)));
    assert plus(x, plus(q, y)) == plus(plus(x, q), y) == plus(plus(q, x), y) == plus(q, plus(x, y));
    assert plus(plus(r, q), plus(x, y)) == plus(r, plus(q, plus(x, y)));
  }

  /** Running over an element is one step from the state with the element's word added. */
  ghost predicate Feeds<D(!new), A(!new), B>(f: (D, B) -> D, g: A -> seq<B>, step: D -> D, plus: (D, D) -> D,
                                             word: A -> D) {
    forall r, x :: Fold(f, r, g(x)) == step(plus(r, word(x)))
  }

  ghost predicate StepsOn<D(!new), A(!new)>(next: (D, A, A) -> D, step: D -> D, plus: (D, D) -> D, word: A -> D) {
    forall d, x, y :: next(d, x, y) == step(plus(d, plus(word(x), word(y))))
  }

  lemma FeedApart<D(!new), A(!new), B>(f: (D, B) -> D, g: A -> seq<B>, step: D -> D, plus: (D, D) -> D, word: A -> D,
                                       next: (D, A, A) -> D, r: D, q: D, xs: seq<A>, ys: seq<A>)
    requires |xs| == |ys| && Commutes(plus) && Associates(plus) && Distributes(step, plus)
    requires Feeds(f, g, step, plus, word) && StepsOn(next, step, plus, word)
    ensures plus(Fold(f, r, FlatMap(g, xs)), Fold(f, q, FlatMap(g, ys))) == Apart(next, plus(r, q), xs, ys)
  {
    forall r, q, x, y ensures plus(Fold(f, r, g(x)), Fold(f, q, g(y))) == next(plus(r, q), x, y) {
      Regroup(plus, r, word(x), q, word(y));
    }
    FoldApart(f, g, plus, next, r, q, xs, ys);
  }

  lemma ApartOne<D(!new), A(!new)>(next: (D, A, A) -> D, step: D -> D, plus: (D, D) -> D, word: A -> D, zero: D,
                                   xs: seq<A>, ys: seq<A>)
    requires |xs| == |ys| == 1 && StepsOn(next, step, plus, word) && forall d :: plus(zero, d) == d
    ensures Apart(next, zero, xs, ys) == step(plus(word(xs[0]), word(ys[0])))
  {
    assert Apart(next, zero, xs[..0], ys[..0]) == zero;
  }

  lemma ApartTwo<D(!new), A(!new)>(next: (D, A, A) -> D, step: D -> D, plus: (D, D) -> D, word: A -> D, zero: D,
                                   up: D -> D, xs: seq<A>, ys: seq<A>, d: D, e: D)
    requires |xs| == |ys| == 2 && StepsOn(next, step, plus, word) && forall d :: plus(zero, d) == d
    requires d == plus(word(xs[0]), word(ys[0])) && e == plus(word(xs[1]), word(ys[1]))
    requires Distributes(step, plus) && step(up(e)) == e
    ensures Apart(next, zero, xs, ys) == step(step(plus(d, up(e))))
  {
    ApartOne(next, step, plus, word, zero, xs[..1], ys[..1]);
  }

  lemma ApartThree<D(!new), A(!new)>(next: (D, A, A) -> D, step: D -> D, plus: (D, D) -> D, word: A -> D, zero: D,
                                     up: D -> D, xs: seq<A>, ys: seq<A>, c: D, d: D, e: D)
    requires |xs| == |ys| == 3 && StepsOn(next, step, plus, word) && forall d :: plus(zero, d) == d
    requires c == plus(word(xs[0]), word(ys[0])) && d == plus(word(xs[1]), word(ys[1]))
    requires e == plus(word(xs[2]), word(ys[2]))
    requires Distributes(step, plus) && step(up(d)) == d && step(up(e)) == e && step(up(up(e))) == up(e)
    ensures Apart(next, zero, xs, ys) == step(step(step(plus(plus(c, up(d)), up(up(e))))))
  {
    ApartTwo(next, step, plus, word, zero, up, xs[..2], ys[..2], c, d);
  }
}
