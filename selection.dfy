/**
 * Keeping some elements of a sequence and mapping each kept one to a record, in order.
 * `api_now_playing` and `pause_all` both do this over the players of all sessions.
 */
module Selection {

  /** The images under `f` of the elements of `xs` that `keep` accepts, in the order of `xs`. */
  function Select<S, T>(xs: seq<S>, keep: S -> bool, f: S -> T): seq<T>
  {
    if xs == [] then []
    else Select(xs[..|xs| - 1], keep, f) + (if keep(xs[|xs| - 1]) then [f(xs[|xs| - 1])] else [])
  }

  /** Appending one element adds its image exactly when it is kept: one step of a loop that appends. */
  lemma SelectSnoc<S, T>(xs: seq<S>, x: S, keep: S -> bool, f: S -> T)
    ensures Select(xs + [x], keep, f) == Select(xs, keep, f) + (if keep(x) then [f(x)] else [])
  {
    assert (xs + [x])[..|xs|] == xs;
  }

  /** Selecting from a concatenation selects from each part, the first part's results first. */
  lemma {:induction false} SelectAppend<S, T>(a: seq<S>, b: seq<S>, keep: S -> bool, f: S -> T)
    ensures Select(a + b, keep, f) == Select(a, keep, f) + Select(b, keep, f)
    decreases |b|
  {
    if b == [] {
      assert a + b == a;
    } else {
      var init, last := b[..|b| - 1], b[|b| - 1];
      assert b == init + [last];
      assert a + b == (a + init) + [last];
      SelectAppend(a, init, keep, f);
      SelectSnoc(a + init, last, keep, f);
      SelectSnoc(init, last, keep, f);
    }
  }

  /**
   * The selection is exactly the kept elements, in their original order: `pos` lists the
   * positions of the kept elements of `xs`, strictly increasing, every kept position appears,
   * and the k-th selected value is the image of the element at `pos[k]`.
   */
  lemma {:induction false} SelectPositions<S, T>(xs: seq<S>, keep: S -> bool, f: S -> T) returns (pos: seq<int>)
    ensures |pos| == |Select(xs, keep, f)|
    ensures forall k :: 0 <= k < |pos| ==>
              0 <= pos[k] < |xs| && keep(xs[pos[k]]) && Select(xs, keep, f)[k] == f(xs[pos[k]])
    ensures forall k, l :: 0 <= k < l < |pos| ==> pos[k] < pos[l]
    ensures forall m :: 0 <= m < |xs| && keep(xs[m]) ==> m in pos
    decreases |xs|
  {
    if xs == [] {
      pos := [];
    } else {
      var n := |xs| - 1;
      var init := xs[..n];
      assert xs == init + [xs[n]];
      pos := SelectPositions(init, keep, f);
      SelectSnoc(init, xs[n], keep, f);
      if keep(xs[n]) {
        pos := pos + [n];
      }
    }
  }

  /** A value is selected exactly when it is the image of some kept element. */
  lemma SelectMembership<S, T>(xs: seq<S>, keep: S -> bool, f: S -> T, y: T)
    ensures y in Select(xs, keep, f) <==> exists m :: 0 <= m < |xs| && keep(xs[m]) && y == f(xs[m])
  {
    var sel := Select(xs, keep, f);
    var pos := SelectPositions(xs, keep, f);
    if y in sel {
      var k :| 0 <= k < |sel| && sel[k] == y;
      assert keep(xs[pos[k]]) && y == f(xs[pos[k]]);
    }
    if exists m :: 0 <= m < |xs| && keep(xs[m]) && y == f(xs[m]) {
      var m :| 0 <= m < |xs| && keep(xs[m]) && y == f(xs[m]);
      assert m in pos;
      var k :| 0 <= k < |pos| && pos[k] == m;
      assert sel[k] == y;
    }
  }
}
