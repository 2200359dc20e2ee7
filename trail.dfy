/** The appearance of a game body (GamePhysObject): the square drawn at the
    body's position and the fading trail of earlier squares it leaves
    behind. Only sizes and positions are kept; colours are left out. */
module Trail {
  import opened Util

  /** CENTER_BORDER_FACTOR: the inner square's size relative to the outer one. */
  const CenterBorderFactor: real := 0.8
  /** TRAIL_LIFE_FRAMES: a trail square shrinks by 1/60 of the body size per frame. */
  const TrailLifeFrames: int := 60
  /** FRAMESKIP: frames to wait between two new trail squares. */
  const FrameSkip: int := 6

  /** A centred square as drawn: centre and the two side lengths. */
  datatype Box = Box(x: real, y: real, w: real, h: real)

  /** One trail entry: the outer square (the map key) and its inner square. */
  datatype Frame = Frame(outer: Box, inner: Box)

  function Item(b: Box): RenderObject
  {
    RectItem(b.x, b.y, b.w, b.h)
  }

  /** The outer and inner squares of a body of this size at `at`. */
  function Current(at: Vec, size: real): (f: Frame)
    ensures f.outer.w == f.outer.h == size
    ensures f.inner.w == f.inner.h == size * CenterBorderFactor
  {
    Frame(Box(at.x, at.y, size, size), Box(at.x, at.y, size * CenterBorderFactor, size * CenterBorderFactor))
  }

  /** deltaSize: how much a trail square shrinks per frame. */
  function Delta(size: real): real
  {
    size / TrailLifeFrames as real
  }

  /** A square and its inner square share a centre, are square, the inner
      one is CenterBorderFactor of the outer one, and the outer one has a
      positive size. */
  predicate Proportioned(f: Frame)
  {
    && f.outer.w == f.outer.h && f.outer.w > 0.0
    && f.inner.x == f.outer.x && f.inner.y == f.outer.y
    && f.inner.w == f.inner.h == f.outer.w * CenterBorderFactor
  }

  /** Both squares shrink by `delta`, the inner one proportionally. */
  function Shrink(f: Frame, delta: real): Frame
  {
    Frame(f.outer.(w := f.outer.w - delta, h := f.outer.h - delta),
          f.inner.(w := f.inner.w - delta * CenterBorderFactor, h := f.inner.h - delta * CenterBorderFactor))
  }

  /** One frame of ageing: squares no wider than `delta` are removed and the
      others shrink, in trail order. */
  function Aged(trail: seq<Frame>, delta: real): (r: seq<Frame>)
    ensures |r| <= |trail|
  {
    if trail == [] then []
    else
      var last := trail[|trail| - 1];
      Aged(trail[..|trail| - 1], delta) + (if last.outer.w <= delta then [] else [Shrink(last, delta)])
  }

  /** The render items of a trail: each entry's outer square, then its inner one. */
  function Items(trail: seq<Frame>): (r: seq<RenderObject>)
    ensures |r| == 2 * |trail|
  {
    if trail == [] then []
    else
      var last := trail[|trail| - 1];
      Items(trail[..|trail| - 1]) + [Item(last.outer), Item(last.inner)]
  }

  /** An entry that survives ageing is an entry of the old trail shrunk by
      exactly `delta`, and it was wider than `delta`. */
  lemma {:induction false} AgedFrom(trail: seq<Frame>, delta: real, g: Frame)
    requires g in Aged(trail, delta)
    ensures exists f :: f in trail && f.outer.w > delta && g == Shrink(f, delta)
  {
    var last := trail[|trail| - 1];
    if g in Aged(trail[..|trail| - 1], delta) {
      AgedFrom(trail[..|trail| - 1], delta, g);
      var f :| f in trail[..|trail| - 1] && f.outer.w > delta && g == Shrink(f, delta);
      assert f in trail;
    } else {
      assert last in trail;
    }
  }

  /** Entries wider than `delta` all survive, and nothing else does. */
  lemma {:induction false} AgedKeeps(trail: seq<Frame>, delta: real)
    ensures |Aged(trail, delta)| == |Wider(trail, delta)|
  {
    if trail != [] {
      AgedKeeps(trail[..|trail| - 1], delta);
    }
  }

  /** The entries of a trail wider than `delta`, in order. */
  function Wider(trail: seq<Frame>, delta: real): seq<Frame>
  {
    if trail == [] then []
    else
      var last := trail[|trail| - 1];
      Wider(trail[..|trail| - 1], delta) + (if last.outer.w > delta then [last] else [])
  }

  /** Every entry shrunk by `delta`, in order. */
  function ShrinkAll(fs: seq<Frame>, delta: real): (r: seq<Frame>)
    ensures |r| == |fs| && forall k :: 0 <= k < |fs| ==> r[k] == Shrink(fs[k], delta)
  {
    seq(|fs|, k requires 0 <= k < |fs| => Shrink(fs[k], delta))
  }

  /** Ageing is exactly: keep the entries wider than `delta`, in order, and
      shrink each of them by `delta`. */
  lemma {:induction false} AgedExact(trail: seq<Frame>, delta: real)
    ensures Aged(trail, delta) == ShrinkAll(Wider(trail, delta), delta)
  {
    if trail != [] {
      var front := trail[..|trail| - 1];
      var last := trail[|trail| - 1];
      AgedExact(front, delta);
      var tail := if last.outer.w > delta then [last] else [];
      assert ShrinkAll(Wider(front, delta) + tail, delta) == ShrinkAll(Wider(front, delta), delta) + ShrinkAll(tail, delta);
    }
  }

  /** Ageing keeps every entry proportioned. */
  lemma {:induction false} AgedProportioned(trail: seq<Frame>, delta: real)
    requires forall k :: 0 <= k < |trail| ==> Proportioned(trail[k])
    ensures forall k :: 0 <= k < |Aged(trail, delta)| ==> Proportioned(Aged(trail, delta)[k])
  {
    if trail != [] {
      AgedProportioned(trail[..|trail| - 1], delta);
    }
  }

  /** `k` frames of ageing. */
  function AgedTimes(trail: seq<Frame>, delta: real, k: nat): seq<Frame>
  {
    if k == 0 then trail else Aged(AgedTimes(trail, delta, k - 1), delta)
  }

  /** A trail entry whose width is 60 deltas (one body size) is still
      there after k < 60 frames of ageing, shrunk by k deltas. */
  lemma {:induction false} Lifespan(f: Frame, d: real, k: nat)
    requires Proportioned(f) && f.outer.w == 60.0 * d
    requires k < TrailLifeFrames
    ensures AgedTimes([f], d, k) == [Shrink(f, k as real * d)]
  {
    if k > 0 {
      var j := k - 1;
      Lifespan(f, d, j);
      WidthLeft(j, d);
      NextMultiple(j, k, d);
      LifespanStep(f, d, j as real * d, k as real * d);
    }
  }

  /** One more frame of ageing on an entry already shrunk by m, while it is
      still wider than one delta. */
  lemma LifespanStep(f: Frame, d: real, m: real, m': real)
    requires f.outer.w - m > d && m + d == m'
    ensures Aged([Shrink(f, m)], d) == [Shrink(f, m')]
  {
    AgedSingle(Shrink(f, m), d);
    ShrinkTwice(f, m, d, m');
  }

  /** A square is drawn for TRAIL_LIFE_FRAMES frames: the 60th frame of
      ageing removes the entry. */
  lemma Expires(f: Frame, d: real)
    requires Proportioned(f) && f.outer.w == 60.0 * d
    ensures AgedTimes([f], d, TrailLifeFrames) == []
  {
    Lifespan(f, d, TrailLifeFrames - 1);
    AgedSingle(Shrink(f, 59.0 * d), d);
  }

  /** Ageing a one-entry trail. */
  lemma AgedSingle(g: Frame, d: real)
    ensures g.outer.w > d ==> Aged([g], d) == [Shrink(g, d)]
    ensures g.outer.w <= d ==> Aged([g], d) == []
  {
    assert [g][..0] == [];
  }

  /** Before its j-th frame of ageing (j < 59) an entry of 60 deltas is
      still wider than one delta. */
  lemma WidthLeft(j: int, d: real)
    requires 0 <= j <= 58 && d > 0.0
    ensures 60.0 * d - j as real * d > d
  {
    var r := 59.0 - j as real;
    assert r >= 1.0;
    assert 60.0 * d - j as real * d - d == r * d;
  }

  lemma NextMultiple(j: int, k: int, d: real)
    requires k == j + 1
    ensures j as real * d + d == k as real * d
  {
  }

  lemma ShrinkTwice(f: Frame, a: real, b: real, c: real)
    requires a + b == c
    ensures Shrink(Shrink(f, a), b) == Shrink(f, c)
  {
  }

  /** The ageing pass of render: shrink every entry wider than `delta` and
      drop the rest. */
  method AgeTrail(trail: seq<Frame>, delta: real) returns (kept: seq<Frame>)
    ensures kept == Aged(trail, delta)
  {
    kept := [];
    var k := 0;
    while k != |trail|
      invariant 0 <= k <= |trail|
      invariant kept == Aged(trail[..k], delta)
    {
      var t := trail[k];
      assert trail[..k + 1][..k] == trail[..k];
      if t.outer.w > delta {
        kept := kept + [Shrink(t, delta)];
      }
      k := k + 1;
    }
    assert trail[..k] == trail;
  }

  /** The output array of render: two items per trail entry, then the
      current outer and inner squares. */
  method Emit(trail: seq<Frame>, current: Frame) returns (items: seq<RenderObject>)
    ensures items == Items(trail) + [Item(current.outer), Item(current.inner)]
  {
    var retV := new RenderObject[(|trail| + 1) * 2];
    var j := 0;
    while j != |trail|
      invariant 0 <= j <= |trail|
      invariant retV[..2 * j] == Items(trail[..j])
    {
      assert trail[..j + 1][..j] == trail[..j];
      retV[2 * j] := Item(trail[j].outer);
      retV[2 * j + 1] := Item(trail[j].inner);
      assert retV[..2 * j + 2] == retV[..2 * j] + [retV[2 * j], retV[2 * j + 1]];
      j := j + 1;
    }
    assert trail[..j] == trail;
    retV[2 * j] := Item(current.outer);
    retV[2 * j + 1] := Item(current.inner);
    assert retV[..] == retV[..2 * j] + [retV[2 * j], retV[2 * j + 1]];
    items := retV[..];
  }

  /** The rendering state of one game body. The body's position belongs to
      the physics engine and is passed in to Render. */
  class Appearance {
    var size: real
    /** Frames rendered since the last trail entry was added. */
    var frameCounter: int
    /** The trail, oldest entry first. */
    var trail: seq<Frame>

    ghost predicate Valid()
      reads this
    {
      && size > 0.0
      && 0 <= frameCounter <= FrameSkip
      && forall k :: 0 <= k < |trail| ==> Proportioned(trail[k])
    }

    /** A new body has an empty trail and a zero frame counter. */
    constructor(size: real)
      requires size > 0.0
      ensures this.size == size && frameCounter == 0 && trail == []
      ensures Valid()
    {
      this.size := size;
      frameCounter := 0;
      trail := [];
    }

    /** clearTrail: the trail becomes empty; the counter is kept. */
    method ClearTrail()
      requires Valid()
      modifies this
      ensures trail == [] && size == old(size) && frameCounter == old(frameCounter)
      ensures Valid()
    {
      trail := [];
    }

    /** render, sizes only: age the trail, emit every surviving entry and
        then the current squares, and add the current squares to the trail
        once FRAMESKIP frames have passed. */
    method Render(at: Vec) returns (items: seq<RenderObject>)
      requires Valid()
      modifies this
      ensures Valid() && size == old(size)
      ensures items == Items(Aged(old(trail), Delta(size))) + [Item(Current(at, size).outer), Item(Current(at, size).inner)]
      ensures |items| == (|Aged(old(trail), Delta(size))| + 1) * 2
      ensures trail == Aged(old(trail), Delta(size)) + (if old(frameCounter) >= FrameSkip then [Current(at, size)] else [])
      ensures frameCounter == (if old(frameCounter) >= FrameSkip then 1 else old(frameCounter) + 1)
    {
      var current := Current(at, size);
      AgedProportioned(trail, Delta(size));
      var kept := AgeTrail(trail, Delta(size));
      items := Emit(kept, current);
      if frameCounter >= FrameSkip {
        trail, frameCounter := kept + [current], 1;
      } else {
        trail, frameCounter := kept, frameCounter + 1;
      }
    }
  }
}
