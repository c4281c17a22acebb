/** Grid model of a block: grid points, OPS iteration ranges and the
    point-wise sums that an OPS reduction computes over a range. */
module Grid {

  /** A grid point of a block, by its three indices. */
  datatype Point = Point(i: int, j: int, k: int)

  /** An OPS iteration range, the six integers of `int* iterRng`: the
      half-open box [istart, iend) x [jstart, jend) x [kstart, kend). */
  datatype Box = Box(istart: int, iend: int, jstart: int, jend: int, kstart: int, kend: int)
  {
    predicate Contains(p: Point) {
      istart <= p.i < iend && jstart <= p.j < jend && kstart <= p.k < kend
    }
  }

  /** The named ranges a block hands out through `BlockIterRng`. */
  datatype RangeName = Whole | Bulk | Imin | Imax | Jmin | Jmax | Kmin | Kmax

  /** The six single-layer face ranges, in the order the envelope copy visits them. */
  const Faces: seq<RangeName> := [Imin, Imax, Jmin, Jmax, Kmin, Kmax]

  /** The points of row (j, k) of `b` from index `i0` on. */
  function Row(b: Box, j: int, k: int, i0: int): seq<Point>
    decreases b.iend - i0
  {
    if i0 >= b.iend then [] else [Point(i0, j, k)] + Row(b, j, k, i0 + 1)
  }

  /** The points of plane k of `b` from row `j0` on. */
  function Plane(b: Box, k: int, j0: int): seq<Point>
    decreases b.jend - j0
  {
    if j0 >= b.jend then [] else Row(b, j0, k, b.istart) + Plane(b, k, j0 + 1)
  }

  /** The points of `b` from plane `k0` on. */
  function Layers(b: Box, k0: int): seq<Point>
    decreases b.kend - k0
  {
    if k0 >= b.kend then [] else Plane(b, k0, b.jstart) + Layers(b, k0 + 1)
  }

  /** The points an `ops_par_loop` over range `b` visits, each once. */
  function Points(b: Box): seq<Point> {
    Layers(b, b.kstart)
  }

  predicate Distinct(ps: seq<Point>) {
    forall x, y :: 0 <= x < y < |ps| ==> ps[x] != ps[y]
  }

  lemma {:induction false} RowMembers(b: Box, j: int, k: int, i0: int, p: Point)
    ensures p in Row(b, j, k, i0) <==> p.j == j && p.k == k && i0 <= p.i < b.iend
    decreases b.iend - i0
  {
    if i0 < b.iend {
      RowMembers(b, j, k, i0 + 1, p);
    }
  }

  lemma {:induction false} PlaneMembers(b: Box, k: int, j0: int, p: Point)
    ensures p in Plane(b, k, j0) <==>
            p.k == k && j0 <= p.j < b.jend && b.istart <= p.i < b.iend
    decreases b.jend - j0
  {
    if j0 < b.jend {
      RowMembers(b, j0, k, b.istart, p);
      PlaneMembers(b, k, j0 + 1, p);
    }
  }

  lemma {:induction false} LayersMembers(b: Box, k0: int, p: Point)
    ensures p in Layers(b, k0) <==>
            k0 <= p.k < b.kend && b.jstart <= p.j < b.jend && b.istart <= p.i < b.iend
    decreases b.kend - k0
  {
    if k0 < b.kend {
      PlaneMembers(b, k0, b.jstart, p);
      LayersMembers(b, k0 + 1, p);
    }
  }

  /** A range's enumeration visits exactly the points the range contains. */
  lemma PointsCover(b: Box, p: Point)
    ensures p in Points(b) <==> b.Contains(p)
  {
    LayersMembers(b, b.kstart, p);
  }

  lemma DistinctAppend(xs: seq<Point>, ys: seq<Point>)
    requires Distinct(xs) && Distinct(ys)
    requires forall p :: p in xs ==> p !in ys
    ensures Distinct(xs + ys)
  {
    forall x, y | 0 <= x < y < |xs + ys|
      ensures (xs + ys)[x] != (xs + ys)[y]
    {
      if y < |xs| {
      } else if x >= |xs| {
        assert (xs + ys)[x] == ys[x - |xs|] && (xs + ys)[y] == ys[y - |xs|];
      } else {
        assert (xs + ys)[x] == xs[x] && (xs + ys)[y] == ys[y - |xs|];
        assert xs[x] in xs;
      }
    }
  }

  lemma {:induction false} RowDistinct(b: Box, j: int, k: int, i0: int)
    ensures Distinct(Row(b, j, k, i0))
    decreases b.iend - i0
  {
    if i0 < b.iend {
      RowDistinct(b, j, k, i0 + 1);
      RowMembers(b, j, k, i0 + 1, Point(i0, j, k));
      DistinctAppend([Point(i0, j, k)], Row(b, j, k, i0 + 1));
    }
  }

  lemma {:induction false} PlaneDistinct(b: Box, k: int, j0: int)
    ensures Distinct(Plane(b, k, j0))
    decreases b.jend - j0
  {
    if j0 < b.jend {
      RowDistinct(b, j0, k, b.istart);
      PlaneDistinct(b, k, j0 + 1);
      forall p | p in Row(b, j0, k, b.istart)
        ensures p !in Plane(b, k, j0 + 1)
      {
        RowMembers(b, j0, k, b.istart, p);
        PlaneMembers(b, k, j0 + 1, p);
      }
      DistinctAppend(Row(b, j0, k, b.istart), Plane(b, k, j0 + 1));
    }
  }

  lemma {:induction false} LayersDistinct(b: Box, k0: int)
    ensures Distinct(Layers(b, k0))
    decreases b.kend - k0
  {
    if k0 < b.kend {
      PlaneDistinct(b, k0, b.jstart);
      LayersDistinct(b, k0 + 1);
      forall p | p in Plane(b, k0, b.jstart)
        ensures p !in Layers(b, k0 + 1)
      {
        PlaneMembers(b, k0, b.jstart, p);
        LayersMembers(b, k0 + 1, p);
      }
      DistinctAppend(Plane(b, k0, b.jstart), Layers(b, k0 + 1));
    }
  }

  /** No point of a range is visited twice, so a reduction over it counts
      every point exactly once. */
  lemma PointsDistinct(b: Box)
    ensures Distinct(Points(b))
  {
    LayersDistinct(b, b.kstart);
  }

  /** The value an OPS_INC reduction accumulates over the points `ps`. */
  function SumOver(ps: seq<Point>, g: Point -> real): real {
    if ps == [] then 0.0 else g(ps[0]) + SumOver(ps[1..], g)
  }

  /** A reduction whose every contribution is zero yields zero. */
  lemma {:induction false} SumOverZero(ps: seq<Point>, g: Point -> real)
    requires forall p :: p in ps ==> g(p) == 0.0
    ensures SumOver(ps, g) == 0.0
  {
    if ps != [] {
      assert ps[0] in ps;
      SumOverZero(ps[1..], g);
    }
  }

  /** A reduction only reads the integrand at the points it visits. */
  lemma {:induction false} SumOverCongruent(ps: seq<Point>, g: Point -> real, h: Point -> real)
    requires forall p :: p in ps ==> g(p) == h(p)
    ensures SumOver(ps, g) == SumOver(ps, h)
  {
    if ps != [] {
      assert ps[0] in ps;
      SumOverCongruent(ps[1..], g, h);
    }
  }

  /** When `pre + blk` starts `full`, `blk` follows `pre` in `full`. */
  lemma SliceAfterPrefix<T>(pre: seq<T>, blk: seq<T>, full: seq<T>)
    requires pre + blk <= full
    ensures |pre| + |blk| <= |full| && full[|pre| .. |pre| + |blk|] == blk
  {
    assert (pre + blk)[|pre| .. |pre| + |blk|] == blk;
  }

  lemma Assoc<T>(a: seq<T>, b: seq<T>, c: seq<T>)
    ensures a + (b + c) == (a + b) + c
  {
  }

  lemma AppendThree<T>(pre: seq<T>, a: T, b: T, c: T)
    ensures pre + [a] + [b] + [c] == pre + [a, b, c]
  {
  }

  lemma AppendSix<T>(pre: seq<T>, a: T, b: T, c: T, d: T, e: T, f: T)
    ensures pre + [a] + [b] + [c] + [d] + [e] + [f] == pre + [a, b, c, d, e, f]
  {
  }

  /** Regroupings of a concatenation of eight pieces. */
  lemma RegroupHalves<T>(a: seq<T>, b: seq<T>, c: seq<T>, d: seq<T>, e: seq<T>, f: seq<T>, g: seq<T>, h: seq<T>)
    ensures a + b + c + d + e + f + g + h == ((a + b) + (c + d)) + ((e + f) + (g + h))
  {
  }

  lemma RegroupAroundThird<T>(a: seq<T>, b: seq<T>, c: seq<T>, d: seq<T>, e: seq<T>, f: seq<T>, g: seq<T>, h: seq<T>)
    ensures a + b + c + d + e + f + g + h == (a + b) + c + (d + ((e + f) + (g + h)))
  {
  }

  lemma RegroupLastTwo<T>(a: seq<T>, b: seq<T>, c: seq<T>, d: seq<T>, e: seq<T>, f: seq<T>, g: seq<T>, h: seq<T>)
    ensures a + b + c + d + e + f + g + h == ((a + b) + (c + d)) + (e + f) + g + h
  {
  }
}
