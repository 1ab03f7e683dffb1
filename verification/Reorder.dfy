/** Lists of steps that commute pairwise may be run in any order. */
module Reorder {
  import opened Common

  function Run<S, E>(f: (S, E) -> S, s: S, es: seq<E>): S
    decreases |es|
  {
    if es == [] then s else Run(f, f(s, es[0]), es[1..])
  }

  /** Steps with different keys commute in every state. */
  ghost predicate Commuting<S(!new), E(!new), K(!new)>(f: (S, E) -> S, key: E -> K) {
    forall s, a, b | key(a) != key(b) :: f(f(s, a), b) == f(f(s, b), a)
  }

  ghost predicate Distinct<E, K(!new)>(es: seq<E>, key: E -> K) {
    forall i, j | 0 <= i < j < |es| :: key(es[i]) != key(es[j])
  }

  lemma WithoutMultiset<E>(es: seq<E>, i: nat)
    requires i < |es|
    ensures multiset(es) == multiset(Without(es, i)) + multiset{es[i]}
  {
    assert es == es[..i] + [es[i]] + es[i + 1..];
  }

  /** A step may be moved to the front past steps with other keys. */
  lemma {:induction false} MoveToFront<S(!new), E(!new), K(!new)>(f: (S, E) -> S, key: E -> K, s: S, es: seq<E>, i: nat)
    requires Commuting(f, key) && i < |es|
    requires forall k | 0 <= k < i :: key(es[k]) != key(es[i])
    ensures Run(f, s, es) == Run(f, f(s, es[i]), Without(es, i))
    decreases i
  {
    var rest := es[1..];
    if i == 0 {
      assert Without(es, 0) == rest;
    } else {
      var b, e := es[0], es[i];
      assert rest[i - 1] == e && Without(es, i)[1..] == Without(rest, i - 1);
      MoveToFront(f, key, f(s, b), rest, i - 1);
      assert f(f(s, b), e) == f(f(s, e), b);
    }
  }

  /** The first step of one list, found in a reordering of it. */
  lemma FindFirst<E>(es: seq<E>, fs: seq<E>) returns (i: nat)
    requires multiset(es) == multiset(fs) && es != []
    ensures i < |fs| && fs[i] == es[0]
    ensures multiset(es[1..]) == multiset(Without(fs, i))
    ensures forall k | 0 <= k < i :: fs[k] in es[1..]
  {
    var e, rest := es[0], es[1..];
    assert es == [e] + rest;
    assert multiset(es) == multiset{e} + multiset(rest);
    assert e in multiset(fs);
    i :| 0 <= i < |fs| && fs[i] == e;
    var others := Without(fs, i);
    WithoutMultiset(fs, i);
    assert multiset(rest) == multiset(es) - multiset{e};
    assert multiset(others) == multiset(fs) - multiset{e};
    forall k | 0 <= k < i
      ensures fs[k] in rest
    {
      assert others[k] in multiset(others);
      assert others[k] in multiset(rest);
    }
  }

  lemma {:induction false} AnyOrder<S(!new), E(!new), K(!new)>(f: (S, E) -> S, key: E -> K,
                                                               s: S, es: seq<E>, fs: seq<E>)
    requires Commuting(f, key) && Distinct(es, key) && multiset(es) == multiset(fs)
    ensures Run(f, s, es) == Run(f, s, fs)
    decreases |es|
  {
    if es == [] {
      assert fs == [] by { assert |multiset(fs)| == 0; }
    } else {
      var i := FindFirst(es, fs);
      forall k | 0 <= k < i
        ensures key(fs[k]) != key(fs[i])
      {
        var j :| 0 <= j < |es[1..]| && es[1..][j] == fs[k];
        assert es[j + 1] == fs[k];
      }
      MoveToFront(f, key, s, fs, i);
      AnyOrder(f, key, f(s, es[0]), es[1..], Without(fs, i));
    }
  }

  function Mapped<E, F>(g: E -> F, es: seq<E>): (r: seq<F>)
    ensures |r| == |es|
  {
    seq(|es|, i requires 0 <= i < |es| => g(es[i]))
  }

  /** On pictures of h rows and w columns, a step of f is, transposed, the turned step of g. */
  ghost predicate TransposedSteps<A(!new), E(!new)>(f: (Grid<A>, E) -> Grid<A>, g: (Grid<A>, E) -> Grid<A>,
                                                    turn: E -> E, h: nat, w: nat)
  {
    forall p, e | |p| == h && Rect(p, w) ::
      |f(p, e)| == h && Rect(f(p, e), w) && Transposed(f(p, e), w) == g(Transposed(p, w), turn(e))
  }

  /** What holds of a step holds of a run. */
  lemma {:induction false} RunTransposed<A(!new), E(!new)>(f: (Grid<A>, E) -> Grid<A>, g: (Grid<A>, E) -> Grid<A>,
                                                           turn: E -> E, pic: Grid<A>, w: nat, es: seq<E>)
    requires Rect(pic, w) && TransposedSteps(f, g, turn, |pic|, w)
    ensures |Run(f, pic, es)| == |pic| && Rect(Run(f, pic, es), w)
    ensures Transposed(Run(f, pic, es), w) == Run(g, Transposed(pic, w), Mapped(turn, es))
    decreases |es|
  {
    if es != [] {
      RunTransposed(f, g, turn, f(pic, es[0]), w, es[1..]);
      assert Mapped(turn, es)[1..] == Mapped(turn, es[1..]);
    }
  }

  // Edges of a picture.

  /** A four-line segment of an edge with its parameters: row y, column x of its first Q sample. */
  datatype Edge<P> = Edge(y: nat, x: nat, p: P)

  function Turn<P>(e: Edge<P>): Edge<P> { Edge(e.x, e.y, e.p) }

  function Position<P>(e: Edge<P>): (nat, nat) { (e.y, e.x) }

  /** A filtering step as a value, for pictures w samples wide and edges of one direction. */
  function StepOf<A, P>(step: (Grid<A>, Edge<P>, nat, bool) -> Grid<A>, w: nat, vertical: bool):
    (Grid<A>, Edge<P>) -> Grid<A>
  {
    (pic: Grid<A>, e: Edge<P>) => step(pic, e, w, vertical)
  }

  /** Steps at different positions commute, and a step at a vertical edge is, transposed, the step
      at the turned horizontal edge. */
  ghost predicate Orderly<A(!new), P(!new)>(step: (Grid<A>, Edge<P>, nat, bool) -> Grid<A>) {
    && (forall pic, a, b, w, vertical | Position(a) != Position(b) ::
          step(step(pic, a, w, vertical), b, w, vertical) == step(step(pic, b, w, vertical), a, w, vertical))
    && (forall pic, e, w | Rect(pic, w) ::
          && |step(pic, e, w, true)| == |pic| && Rect(step(pic, e, w, true), w)
          && Transposed(step(pic, e, w, true), w) == step(Transposed(pic, w), Turn(e), |pic|, false))
  }

  /** Filtering distinct edges of one direction in any order gives the same picture. */
  lemma OrderIrrelevant<A(!new), P(!new)>(step: (Grid<A>, Edge<P>, nat, bool) -> Grid<A>, pic: Grid<A>,
                                          es: seq<Edge<P>>, fs: seq<Edge<P>>, w: nat, vertical: bool)
    requires Orderly(step) && Distinct(es, Position) && multiset(es) == multiset(fs)
    ensures Run(StepOf(step, w, vertical), pic, es) == Run(StepOf(step, w, vertical), pic, fs)
  {
    AnyOrder(StepOf(step, w, vertical), Position, pic, es, fs);
  }

  /** Filtering the turned horizontal edges of the transposed picture one after the other is
      filtering vertical edges and transposing, for whole lists of edges. */
  lemma PictureTransposed<A(!new), P(!new)>(step: (Grid<A>, Edge<P>, nat, bool) -> Grid<A>, pic: Grid<A>,
                                            es: seq<Edge<P>>, w: nat)
    requires Orderly(step) && Rect(pic, w)
    ensures var v := Run(StepOf(step, w, true), pic, es);
      && |v| == |pic| && Rect(v, w)
      && Transposed(v, w) == Run(StepOf(step, |pic|, false), Transposed(pic, w), Mapped(Turn, es))
  {
    RunTransposed(StepOf(step, w, true), StepOf(step, |pic|, false), Turn, pic, w, es);
  }
}
