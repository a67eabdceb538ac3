/** The search for the last opaque row of an image's first column. */
module Squash {

  /** Row `y` (from 0) is opaque: its alpha is not 0. */
  predicate Opaque(alpha: seq<nat>, y: nat)
    requires y < |alpha|
  {
    alpha[y] != 0
  }

  /** A row boundary with an opaque row or the top above it and a transparent row or the bottom below. */
  ghost predicate Boundary(alpha: seq<nat>, p: nat) {
    && p <= |alpha|
    && (p > 0 ==> Opaque(alpha, p - 1))
    && (p < |alpha| ==> !Opaque(alpha, p))
  }

  /** `k` opaque rows and below them only transparent ones. */
  ghost predicate OpaqueDownTo(alpha: seq<nat>, k: nat) {
    k <= |alpha| && forall y :: 0 <= y < |alpha| ==> (Opaque(alpha, y) <==> y < k)
  }

  /**
    * detectVerticalSquash, on the alpha values of the column. It ends for every column, at a boundary,
    * and on a column that is opaque above and transparent below, at the one between.
    */
  method DetectVerticalSquash(alpha: seq<nat>) returns (ratio: real)
    requires alpha != []
    ensures exists p: nat ::
              Boundary(alpha, p) && ratio == if p == 0 then 1.0 else p as real / |alpha| as real
    ensures forall k: nat :: OpaqueDownTo(alpha, k) ==> ratio == if k == 0 then 1.0 else k as real / |alpha| as real
  {
    var ih := |alpha|;
    var sy, ey, py := 0, ih, ih;
    while py > sy
      invariant 0 <= sy <= py <= ey <= ih
      invariant sy == 0 || Opaque(alpha, sy - 1)
      invariant 0 < ey && (!Opaque(alpha, ey - 1) || sy == ih || (sy == 0 && py == ey == ih))
      invariant py == (ey + sy) / 2 || (sy == 0 && py == ey == ih)
      decreases ey - sy, py
    {
      if alpha[py - 1] == 0 {
        ey := py;
      } else {
        sy := py;
      }
      py := (ey + sy) / 2;
    }
    assert Boundary(alpha, py);
    ratio := if py == 0 then 1.0 else py as real / ih as real;
  }
}
