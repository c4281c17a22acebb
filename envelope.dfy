/** The distribution copies of `CopyDistribution3D` (over each block's Whole
    range) and `CopyBlockEnvelopDistribution3D` (over each block's six
    single-layer face ranges), both launched as `KerCopyf`. */
module Envelope {
  import opened Grid
  import opened Model
  import opened Ops

  /** Which ranges of a block a copy covers. */
  datatype CopyKind = WholeDomain | BlockEnvelope

  /** The ranges a copy of `kind` launches `KerCopyf` over on block `b`, in
      launch order. */
  function RangesOf(cfg: Config, kind: CopyKind, b: nat): (rs: seq<Box>)
    ensures |rs| == if kind == WholeDomain then 1 else 6
  {
    match kind
    case WholeDomain => [cfg.iterRng(b, Whole)]
    case BlockEnvelope =>
      [cfg.iterRng(b, Imin), cfg.iterRng(b, Imax), cfg.iterRng(b, Jmin),
       cfg.iterRng(b, Jmax), cfg.iterRng(b, Kmin), cfg.iterRng(b, Kmax)]
  }

  /** The `KerCopyf` launches from `src` to `dest` on block `b` over the ranges `rs`. */
  function Copies(b: nat, rs: seq<Box>, dest: FieldId, src: FieldId): (es: seq<Event>)
    ensures |es| == |rs|
    ensures forall q :: 0 <= q < |rs| ==> es[q] == ParLoop(CopyF(b, rs[q], dest, src))
    decreases |rs|
  {
    if rs == [] then []
    else Copies(b, rs[..|rs| - 1], dest, src) + [ParLoop(CopyF(b, rs[|rs| - 1], dest, src))]
  }

  /** The envelope copy of block `b`: one launch per face, in the order
      Imin, Imax, Jmin, Jmax, Kmin, Kmax. */
  lemma EnvelopeCopies(cfg: Config, b: nat, dest: FieldId, src: FieldId)
    ensures Copies(b, RangesOf(cfg, BlockEnvelope, b), dest, src) ==
            [ParLoop(CopyF(b, cfg.iterRng(b, Imin), dest, src)), ParLoop(CopyF(b, cfg.iterRng(b, Imax), dest, src)),
             ParLoop(CopyF(b, cfg.iterRng(b, Jmin), dest, src)), ParLoop(CopyF(b, cfg.iterRng(b, Jmax), dest, src)),
             ParLoop(CopyF(b, cfg.iterRng(b, Kmin), dest, src)), ParLoop(CopyF(b, cfg.iterRng(b, Kmax), dest, src))]
  {
  }

  /** The whole-range copy of block `b`: a single launch. */
  lemma WholeCopies(cfg: Config, b: nat, dest: FieldId, src: FieldId)
    ensures Copies(b, RangesOf(cfg, WholeDomain, b), dest, src) == [ParLoop(CopyF(b, cfg.iterRng(b, Whole), dest, src))]
  {
  }

  /** The copy over blocks 0 .. n-1, block by block. */
  function CopyEvents(cfg: Config, kind: CopyKind, dest: FieldId, src: FieldId, n: nat): seq<Event> {
    if n == 0 then []
    else CopyEvents(cfg, kind, dest, src, n - 1) + Copies(n - 1, RangesOf(cfg, kind, n - 1), dest, src)
  }

  /** The whole-domain copy over one more block adds that block's launch. */
  lemma WholeCopySnoc(cfg: Config, n: nat, dest: FieldId, src: FieldId)
    ensures CopyEvents(cfg, WholeDomain, dest, src, n + 1) ==
            CopyEvents(cfg, WholeDomain, dest, src, n) + [ParLoop(CopyF(n, cfg.iterRng(n, Whole), dest, src))]
  {
    WholeCopies(cfg, n, dest, src);
  }

  /** Whether point `p` lies in one of the ranges `rs`. */
  predicate Covered(rs: seq<Box>, p: Point)
    decreases |rs|
  {
    rs != [] && (Covered(rs[..|rs| - 1], p) || rs[|rs| - 1].Contains(p))
  }

  /** `Covered` as a statement about the positions of `rs`. */
  lemma {:induction false} CoveredIndex(rs: seq<Box>, p: Point)
    ensures Covered(rs, p) <==> exists q :: 0 <= q < |rs| && rs[q].Contains(p)
    decreases |rs|
  {
    if rs != [] {
      var init := rs[..|rs| - 1];
      CoveredIndex(init, p);
      if Covered(init, p) {
        var q :| 0 <= q < |init| && init[q].Contains(p);
        assert rs[q] == init[q];
      }
      if exists q :: 0 <= q < |rs| && rs[q].Contains(p) {
        var q :| 0 <= q < |rs| && rs[q].Contains(p);
        if q < |init| {
          assert init[q] == rs[q];
        }
      }
    }
  }

  /** One `KerCopyf` launch, seen at component `c` of field `id` at point
      `p` of block `b'`. */
  lemma CopyFAt(kb: KernelBodies, mid: State, b: nat, r: Box, dest: FieldId, src: FieldId,
                b': nat, id: FieldId, p: Point, c: nat)
    requires b < |mid.blocks| && b' < |mid.blocks|
    ensures var t := Step(kb, mid, ParLoop(CopyF(b, r, dest, src)));
            b' < |t.blocks| &&
            t.blocks[b'].Get(id)(p, c) ==
            if b' == b && id == dest && r.Contains(p) then mid.blocks[b].Get(src)(p, c) else mid.blocks[b'].Get(id)(p, c)
  {
  }

  /** A field the copy into `dest` cannot touch. */
  function Other(dest: FieldId): FieldId {
    if dest == F then FStage else F
  }

  /** A copy launches nothing but `KerCopyf` into `dest`. */
  lemma {:induction false} CopyEventsAreCopies(cfg: Config, kind: CopyKind, dest: FieldId, src: FieldId, n: nat)
    ensures forall e :: e in CopyEvents(cfg, kind, dest, src, n) ==> Spares(e, Other(dest))
  {
    if n > 0 {
      var last := Copies(n - 1, RangesOf(cfg, kind, n - 1), dest, src);
      CopyEventsAreCopies(cfg, kind, dest, src, n - 1);
      assert forall e :: e in last ==> Spares(e, Other(dest)) by {
        forall e | e in last
          ensures Spares(e, Other(dest))
        {
          var q :| 0 <= q < |last| && last[q] == e;
        }
      }
    }
  }

  /** `KerCopyf` launches leave the number of blocks, the handles and the
      residual slots alone. */
  lemma CopiesShape(kb: KernelBodies, s: State, b: nat, rs: seq<Box>, dest: FieldId, src: FieldId)
    ensures var s' := Replay(kb, s, Copies(b, rs, dest, src));
            |s'.blocks| == |s.blocks| && s'.handles == s.handles && s'.residual == s.residual
  {
    var es := Copies(b, rs, dest, src);
    assert forall e :: e in es ==> Spares(e, Other(dest)) by {
      forall e | e in es
        ensures Spares(e, Other(dest))
      {
        var q :| 0 <= q < |es| && es[q] == e;
      }
    }
    ReplaySpares(kb, s, es, Other(dest));
  }

  lemma CopyShape(kb: KernelBodies, s: State, cfg: Config, kind: CopyKind, dest: FieldId, src: FieldId, n: nat)
    ensures var s' := Replay(kb, s, CopyEvents(cfg, kind, dest, src, n));
            |s'.blocks| == |s.blocks| && s'.handles == s.handles && s'.residual == s.residual
  {
    CopyEventsAreCopies(cfg, kind, dest, src, n);
    ReplaySpares(kb, s, CopyEvents(cfg, kind, dest, src, n), Other(dest));
  }

  /** Whether `e` is a `KerCopyf` launch from `src` to `dest`. */
  predicate IsCopy(e: Event, dest: FieldId, src: FieldId) {
    e.ParLoop? && e.call.CopyF? && e.call.dest == dest && e.call.src == src
  }

  /** Whether `e` is a `KerCopyf` launch on block `b` whose range holds `p`. */
  predicate CopyHits(e: Event, b: nat, p: Point) {
    e.ParLoop? && e.call.CopyF? && e.call.block == b && e.call.range.Contains(p)
  }

  /** Whether one of the launches `es` copies point `p` of block `b`. */
  predicate Hits(es: seq<Event>, b: nat, p: Point) {
    exists i :: 0 <= i < |es| && CopyHits(es[i], b, p)
  }

  /** A point is copied by two traces run one after the other exactly when
      one of them copies it. */
  lemma HitsAppend(xs: seq<Event>, ys: seq<Event>, b: nat, p: Point)
    ensures Hits(xs + ys, b, p) <==> Hits(xs, b, p) || Hits(ys, b, p)
  {
    var all := xs + ys;
    if Hits(all, b, p) {
      var i :| 0 <= i < |all| && CopyHits(all[i], b, p);
      if i < |xs| {
        assert all[i] == xs[i];
      } else {
        assert all[i] == ys[i - |xs|];
      }
    }
    if Hits(xs, b, p) {
      var i :| 0 <= i < |xs| && CopyHits(xs[i], b, p);
      assert all[i] == xs[i];
    }
    if Hits(ys, b, p) {
      var i :| 0 <= i < |ys| && CopyHits(ys[i], b, p);
      assert all[|xs| + i] == ys[i];
    }
  }

  /** The launches of block `blk` over `rs` copy point `p` of block `b`
      exactly when `blk` is `b` and one of the ranges holds `p`. */
  lemma HitsCopies(blk: nat, rs: seq<Box>, dest: FieldId, src: FieldId, b: nat, p: Point)
    ensures Hits(Copies(blk, rs, dest, src), b, p) <==> blk == b && Covered(rs, p)
  {
    var es := Copies(blk, rs, dest, src);
    CoveredIndex(rs, p);
    if Hits(es, b, p) {
      var i :| 0 <= i < |es| && CopyHits(es[i], b, p);
      assert es[i] == ParLoop(CopyF(blk, rs[i], dest, src));
    }
    if blk == b && Covered(rs, p) {
      var q :| 0 <= q < |rs| && rs[q].Contains(p);
      assert CopyHits(es[q], b, p);
    }
  }

  /** Copies over blocks 0 .. n-1, block `b` over the ranges `rsOf(b)`:
      `CopyEvents` with the ranges left open. */
  function BlockCopies(rsOf: nat -> seq<Box>, dest: FieldId, src: FieldId, n: nat): seq<Event> {
    if n == 0 then [] else BlockCopies(rsOf, dest, src, n - 1) + Copies(n - 1, rsOf(n - 1), dest, src)
  }

  lemma {:induction false} CopyEventsBlocks(cfg: Config, kind: CopyKind, dest: FieldId, src: FieldId, n: nat)
    ensures CopyEvents(cfg, kind, dest, src, n) == BlockCopies((b: nat) => RangesOf(cfg, kind, b), dest, src, n)
  {
    if n > 0 {
      CopyEventsBlocks(cfg, kind, dest, src, n - 1);
    }
  }

  /** Blocks 0 .. n-1 copy point `p` of block `b` exactly when `b` is one
      of them and block `b`'s own launches copy it. */
  lemma {:induction false} HitsBlocks(rsOf: nat -> seq<Box>, dest: FieldId, src: FieldId, n: nat, b: nat, p: Point)
    ensures Hits(BlockCopies(rsOf, dest, src, n), b, p) <==> b < n && Hits(Copies(b, rsOf(b), dest, src), b, p)
  {
    if n > 0 {
      var pre := BlockCopies(rsOf, dest, src, n - 1);
      var last := Copies(n - 1, rsOf(n - 1), dest, src);
      HitsBlocks(rsOf, dest, src, n - 1, b, p);
      HitsAppend(pre, last, b, p);
      if b != n - 1 {
        HitsCopies(n - 1, rsOf(n - 1), dest, src, b, p);
      }
    }
  }

  /** The copy over blocks 0 .. n-1 copies point `p` of block `b` exactly
      when `b` is one of those blocks and one of its ranges holds `p`. */
  lemma HitsCopyEvents(cfg: Config, kind: CopyKind, dest: FieldId, src: FieldId, n: nat, b: nat, p: Point)
    ensures Hits(CopyEvents(cfg, kind, dest, src, n), b, p) <==> b < n && Covered(RangesOf(cfg, kind, b), p)
  {
    CopyEventsBlocks(cfg, kind, dest, src, n);
    HitsBlocks((b: nat) => RangesOf(cfg, kind, b), dest, src, n, b, p);
    HitsCopies(b, RangesOf(cfg, kind, b), dest, src, b, p);
  }

  /** The copy launches nothing but `KerCopyf` from `src` to `dest`. */
  lemma {:induction false} CopyEventsCopy(cfg: Config, kind: CopyKind, dest: FieldId, src: FieldId, n: nat)
    ensures forall e :: e in CopyEvents(cfg, kind, dest, src, n) ==> IsCopy(e, dest, src)
  {
    if n > 0 {
      var last := Copies(n - 1, RangesOf(cfg, kind, n - 1), dest, src);
      CopyEventsCopy(cfg, kind, dest, src, n - 1);
      assert forall e :: e in last ==> IsCopy(e, dest, src) by {
        forall e | e in last
          ensures IsCopy(e, dest, src)
        {
          var q :| 0 <= q < |last| && last[q] == e;
        }
      }
    }
  }

  /** A run of `KerCopyf` launches from `src` to `dest`, seen at one
      component of one field at one point of one block. */
  lemma {:induction false} CopiesAt(kb: KernelBodies, s: State, es: seq<Event>, dest: FieldId, src: FieldId,
                                    b: nat, id: FieldId, p: Point, c: nat)
    requires b < |s.blocks| && forall e :: e in es ==> IsCopy(e, dest, src)
    ensures var s' := Replay(kb, s, es);
            |s'.blocks| == |s.blocks| &&
            s'.blocks[b].Get(id)(p, c) ==
            if id == dest && Hits(es, b, p) then s.blocks[b].Get(src)(p, c) else s.blocks[b].Get(id)(p, c)
    decreases |es|
  {
    if es != [] {
      var init := es[..|es| - 1];
      var e := es[|es| - 1];
      assert forall x :: x in init ==> x in es;
      var mid := Replay(kb, s, init);
      assert e in es;
      assert es == init + [e];
      HitsAppend(init, [e], b, p);
      assert Hits([e], b, p) == CopyHits(e, b, p) by {
        assert [e][0] == e;
      }
      CopiesAt(kb, s, init, dest, src, b, id, p, c);
      CopiesAt(kb, s, init, dest, src, b, src, p, c);
      if e.call.block < |mid.blocks| {
        CopyFAt(kb, mid, e.call.block, e.call.range, dest, src, b, id, p, c);
      }
    }
  }

  /** The copy over blocks 0 .. n-1, seen at one component of one field at
      one point of one block. */
  lemma CopyAt(kb: KernelBodies, s: State, cfg: Config, kind: CopyKind, dest: FieldId, src: FieldId, n: nat,
               b: nat, id: FieldId, p: Point, c: nat)
    requires b < |s.blocks|
    ensures var s' := Replay(kb, s, CopyEvents(cfg, kind, dest, src, n));
            b < |s'.blocks| &&
            s'.blocks[b].Get(id)(p, c) ==
            if b < n && id == dest && Covered(RangesOf(cfg, kind, b), p) then s.blocks[b].Get(src)(p, c) else s.blocks[b].Get(id)(p, c)
  {
    CopyEventsCopy(cfg, kind, dest, src, n);
    CopiesAt(kb, s, CopyEvents(cfg, kind, dest, src, n), dest, src, b, id, p, c);
    HitsCopyEvents(cfg, kind, dest, src, n, b, p);
  }

  /** What a copy does to the state: on each of blocks 0 .. n-1 the
      destination field takes the source field's values at the points of the
      copied ranges and keeps its own everywhere else; every other field,
      every other block, the handles and the residual slots are unchanged. */
  lemma CopyEffect(kb: KernelBodies, s: State, cfg: Config, kind: CopyKind, dest: FieldId, src: FieldId, n: nat)
    requires n <= |s.blocks|
    ensures var s' := Replay(kb, s, CopyEvents(cfg, kind, dest, src, n));
            |s'.blocks| == |s.blocks| && s'.handles == s.handles && s'.residual == s.residual &&
            (forall b, id, p, c :: 0 <= b < |s.blocks| ==>
               s'.blocks[b].Get(id)(p, c) ==
               if b < n && id == dest && Covered(RangesOf(cfg, kind, b), p) then s.blocks[b].Get(src)(p, c) else s.blocks[b].Get(id)(p, c))
  {
    CopyShape(kb, s, cfg, kind, dest, src, n);
    forall b, id, p, c | 0 <= b < |s.blocks|
      ensures Replay(kb, s, CopyEvents(cfg, kind, dest, src, n)).blocks[b].Get(id)(p, c) ==
              if b < n && id == dest && Covered(RangesOf(cfg, kind, b), p) then s.blocks[b].Get(src)(p, c) else s.blocks[b].Get(id)(p, c)
    {
      CopyAt(kb, s, cfg, kind, dest, src, n, b, id, p, c);
    }
  }

  /** A point lies in a block's envelope exactly when one of its six face
      ranges contains it. */
  lemma EnvelopeCovered(cfg: Config, b: nat, p: Point)
    ensures Covered(RangesOf(cfg, BlockEnvelope, b), p) <==> exists q :: 0 <= q < 6 && cfg.iterRng(b, Faces[q]).Contains(p)
  {
    var rs := RangesOf(cfg, BlockEnvelope, b);
    assert forall q :: 0 <= q < 6 ==> rs[q] == cfg.iterRng(b, Faces[q]);
    CoveredIndex(rs, p);
  }

  /** `CopyBlockEnvelopDistribution3D`: on every block, `fDest` takes
      `fSrc`'s values on the union of the six face ranges and is unchanged at
      every point outside it; nothing else changes. */
  lemma EnvelopeCopyEffect(kb: KernelBodies, s: State, cfg: Config, dest: FieldId, src: FieldId)
    requires cfg.blockNum == |s.blocks|
    ensures var s' := Replay(kb, s, CopyEvents(cfg, BlockEnvelope, dest, src, cfg.blockNum));
            |s'.blocks| == |s.blocks| && s'.handles == s.handles && s'.residual == s.residual &&
            (forall b, id, p, c :: 0 <= b < |s.blocks| && id != dest ==> s'.blocks[b].Get(id)(p, c) == s.blocks[b].Get(id)(p, c)) &&
            (forall b, p, c :: 0 <= b < |s.blocks| && (exists q :: 0 <= q < 6 && cfg.iterRng(b, Faces[q]).Contains(p)) ==>
               s'.blocks[b].Get(dest)(p, c) == s.blocks[b].Get(src)(p, c)) &&
            (forall b, p, c :: 0 <= b < |s.blocks| && (forall q :: 0 <= q < 6 ==> !cfg.iterRng(b, Faces[q]).Contains(p)) ==>
               s'.blocks[b].Get(dest)(p, c) == s.blocks[b].Get(dest)(p, c))
  {
    CopyEffect(kb, s, cfg, BlockEnvelope, dest, src, cfg.blockNum);
    forall b, p | 0 <= b < |s.blocks|
      ensures Covered(RangesOf(cfg, BlockEnvelope, b), p) <==> exists q :: 0 <= q < 6 && cfg.iterRng(b, Faces[q]).Contains(p)
    {
      EnvelopeCovered(cfg, b, p);
    }
  }

  /** `CopyDistribution3D`: on every block, `fDest` agrees with `fSrc` on
      the whole range and is unchanged outside it. */
  lemma WholeCopyEffect(kb: KernelBodies, s: State, cfg: Config, dest: FieldId, src: FieldId)
    requires cfg.blockNum == |s.blocks|
    ensures var s' := Replay(kb, s, CopyEvents(cfg, WholeDomain, dest, src, cfg.blockNum));
            |s'.blocks| == |s.blocks| && s'.handles == s.handles && s'.residual == s.residual &&
            (forall b, id, p, c :: 0 <= b < |s.blocks| && id != dest ==> s'.blocks[b].Get(id)(p, c) == s.blocks[b].Get(id)(p, c)) &&
            (forall b, p, c :: 0 <= b < |s.blocks| ==>
               s'.blocks[b].Get(dest)(p, c) ==
               if cfg.WholeRange(b).Contains(p) then s.blocks[b].Get(src)(p, c) else s.blocks[b].Get(dest)(p, c))
  {
    CopyEffect(kb, s, cfg, WholeDomain, dest, src, cfg.blockNum);
    forall b, p | 0 <= b < |s.blocks|
      ensures Covered(RangesOf(cfg, WholeDomain, b), p) <==> cfg.WholeRange(b).Contains(p)
    {
      CoveredIndex(RangesOf(cfg, WholeDomain, b), p);
    }
  }

  lemma {:induction false} CopyLength(cfg: Config, kind: CopyKind, dest: FieldId, src: FieldId, n: nat)
    ensures |CopyEvents(cfg, kind, dest, src, n)| == n * |RangesOf(cfg, kind, 0)|
  {
    if n > 0 {
      CopyLength(cfg, kind, dest, src, n - 1);
      var m := |RangesOf(cfg, kind, 0)|;
      assert n * m == (n - 1) * m + m;
    }
  }

  /** The copy's trace for blocks 0 .. b-1 is where its trace for blocks
      0 .. n-1 starts. */
  lemma {:induction false} CopyPrefix(cfg: Config, kind: CopyKind, dest: FieldId, src: FieldId, b: nat, n: nat)
    requires b <= n
    ensures CopyEvents(cfg, kind, dest, src, b) <= CopyEvents(cfg, kind, dest, src, n)
    decreases n
  {
    if b < n {
      CopyPrefix(cfg, kind, dest, src, b, n - 1);
    }
  }

  lemma CopySnoc(cfg: Config, kind: CopyKind, dest: FieldId, src: FieldId, n: nat)
    ensures CopyEvents(cfg, kind, dest, src, n + 1) ==
            CopyEvents(cfg, kind, dest, src, n) + Copies(n, RangesOf(cfg, kind, n), dest, src)
  {
  }

  /** A trace that starts with `pre + piece` holds `piece` right after `pre`. */
  lemma PieceAt<T>(all: seq<T>, pre: seq<T>, piece: seq<T>)
    requires pre + piece <= all
    ensures |pre| + |piece| <= |all| && forall q :: 0 <= q < |piece| ==> all[|pre| + q] == piece[q]
  {
    forall q | 0 <= q < |piece|
      ensures all[|pre| + q] == piece[q]
    {
      assert all[|pre| + q] == (pre + piece)[|pre| + q];
    }
  }

  /** Blocks form the outer loop in index order: block b's `KerCopyf`
      launches follow those of blocks 0 .. b-1, one per range of the block in
      launch order (for the envelope Imin, Imax, Jmin, Jmax, Kmin, Kmax, six
      per block; for the whole copy one over Whole), each from `src` to
      `dest`. */
  lemma CopyLayout(cfg: Config, kind: CopyKind, dest: FieldId, src: FieldId, n: nat, b: nat)
    requires b < n
    ensures var start := |CopyEvents(cfg, kind, dest, src, b)|;
            var rs := RangesOf(cfg, kind, b);
            start == b * |rs| && start + |rs| <= |CopyEvents(cfg, kind, dest, src, n)| &&
            forall q :: 0 <= q < |rs| ==> CopyEvents(cfg, kind, dest, src, n)[start + q] == ParLoop(CopyF(b, rs[q], dest, src))
  {
    var rs := RangesOf(cfg, kind, b);
    var pre := CopyEvents(cfg, kind, dest, src, b);
    var piece := Copies(b, rs, dest, src);
    CopyLength(cfg, kind, dest, src, b);
    CopySnoc(cfg, kind, dest, src, b);
    CopyPrefix(cfg, kind, dest, src, b + 1, n);
    PieceAt(CopyEvents(cfg, kind, dest, src, n), pre, piece);
  }
}
