/**
  Row-major planes. A plane of height `h` and width `w` is a sequence of `h`
  rows of `w` samples; on the wire it is the rows laid end to end, which is
  what numpy's `tobytes()` produces and what `reshape(h, w)` undoes.
 */
module Grid {

  predicate IsGrid<T>(g: seq<seq<T>>, h: nat, w: nat)
  {
    |g| == h && forall i :: 0 <= i < |g| ==> |g[i]| == w
  }

  /** Two planes of the same height whose rows pairwise have the same width. */
  predicate SameShape<S, T>(a: seq<seq<S>>, b: seq<seq<T>>)
  {
    |a| == |b| && forall i :: 0 <= i < |a| ==> |a[i]| == |b[i]|
  }

  /** The rows laid end to end (`tobytes` order). */
  function Flat<T>(g: seq<seq<T>>): seq<T>
  {
    if |g| == 0 then [] else g[0] + Flat(g[1..])
  }

  /** `reshape(h, w)`: cut `h * w` samples into `h` rows of `w`. */
  function Rows<T>(s: seq<T>, h: nat, w: nat): (g: seq<seq<T>>)
    requires |s| == h * w
    ensures IsGrid(g, h, w)
    ensures Flat(g) == s
    decreases h
  {
    if h == 0 then []
    else
      assert |s| == (h - 1) * w + w;
      [s[..w]] + Rows(s[w..], h - 1, w)
  }

  lemma {:induction false} FlatLength<T>(g: seq<seq<T>>, h: nat, w: nat)
    requires IsGrid(g, h, w)
    ensures |Flat(g)| == h * w
    decreases h
  {
    if h > 0 {
      FlatLength(g[1..], h - 1, w);
      assert h * w == (h - 1) * w + w;
    }
  }

  /** Reshaping the flattened plane gives the plane back. */
  lemma {:induction false} RowsOfFlat<T>(g: seq<seq<T>>, h: nat, w: nat)
    requires IsGrid(g, h, w)
    ensures |Flat(g)| == h * w
    ensures Rows(Flat(g), h, w) == g
    decreases h
  {
    FlatLength(g, h, w);
    if h > 0 {
      RowsOfFlat(g[1..], h - 1, w);
      assert Flat(g)[..w] == g[0];
      assert Flat(g)[w..] == Flat(g[1..]);
    }
  }

  /** A value occurs in the flattened plane iff it sits at some pixel. */
  lemma {:induction false} InFlat<T>(g: seq<seq<T>>, x: T)
    ensures x in Flat(g) <==> exists i, j :: 0 <= i < |g| && 0 <= j < |g[i]| && g[i][j] == x
    decreases |g|
  {
    if |g| > 0 {
      InFlat(g[1..], x);
      if x in Flat(g[1..]) {
        var i, j :| 0 <= i < |g[1..]| && 0 <= j < |g[1..][i]| && g[1..][i][j] == x;
        assert g[i + 1][j] == x;
      }
      if exists i, j :: 0 <= i < |g| && 0 <= j < |g[i]| && g[i][j] == x {
        var i, j :| 0 <= i < |g| && 0 <= j < |g[i]| && g[i][j] == x;
        if i > 0 {
          assert g[1..][i - 1][j] == x;
        } else {
          assert x in g[0];
        }
      }
    }
  }
}
