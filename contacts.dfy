/** The value-level definitions behind PhysEngine.dynamicCollision: the
    per-body contact lists (dCollisionParity) and what resolving a new
    contact does to the two bodies and to the listener log. */
module Contacts {
  import opened Util
  import opened Bodies
  import opened Collision

  /** One listener call `collision(other, dx, dy)` made by the engine on
      `body`; `other` is None for a screen edge. */
  datatype Contact = Contact(body: int, other: Option<int>, dx: int, dy: int)

  predicate NoDup(s: seq<int>)
  {
    forall a, b :: 0 <= a < b < |s| ==> s[a] != s[b]
  }

  /** ArrayList.remove(Object): drops the first occurrence, if there is one. */
  function RemoveFirst(s: seq<int>, x: int): (r: seq<int>)
    ensures x !in s ==> r == s
    ensures x in s ==> |r| == |s| - 1
    ensures forall y :: y != x ==> (y in r <==> y in s)
  {
    if s == [] then []
    else if s[0] == x then s[1..]
    else [s[0]] + RemoveFirst(s[1..], x)
  }

  /** On a duplicate-free list the first occurrence is the only one. */
  lemma {:induction false} RemoveFirstNoDup(s: seq<int>, x: int)
    requires NoDup(s)
    ensures NoDup(RemoveFirst(s, x)) && x !in RemoveFirst(s, x)
  {
    if s != [] {
      if s[0] == x {
        assert x !in s[1..] by {
          forall n | 0 <= n < |s| - 1
            ensures s[1..][n] != x
          {
            assert s[0] != s[n + 1];
          }
        }
      } else {
        RemoveFirstNoDup(s[1..], x);
        var r := RemoveFirst(s[1..], x);
        assert s[0] !in r by {
          assert s[0] !in s[1..];
        }
      }
    }
  }

  /** The contact relation over bodies 0 .. n-1: each list is duplicate free
      and never names its own body, and q is in p's list iff p is in q's. */
  ghost predicate ContactsValid(d: map<int, seq<int>>, n: int)
  {
    && (forall a :: a in d ==> 0 <= a < n && NoDup(d[a]))
    && (forall a, b :: a in d && b in d[a] ==> b != a && b in d && a in d[b])
  }

  /** Every body has a list (what tick's putIfAbsent guarantees). */
  ghost predicate Complete(d: map<int, seq<int>>, n: int)
  {
    forall a :: 0 <= a < n ==> a in d
  }

  /** Both ArrayList.remove calls of a non-touching examined pair. */
  function RemovePair(d: map<int, seq<int>>, p: int, c: int): map<int, seq<int>>
    requires p in d && c in d
  {
    d[p := RemoveFirst(d[p], c)][c := RemoveFirst(d[c], p)]
  }

  /** Both ArrayList.add calls of a newly registered contact. */
  function AddPair(d: map<int, seq<int>>, p: int, c: int): map<int, seq<int>>
    requires p in d && c in d
  {
    d[p := d[p] + [c]][c := d[c] + [p]]
  }

  /** Removing a pair keeps the relation valid and drops exactly that pair. */
  lemma RemovePairEffect(d: map<int, seq<int>>, n: int, p: int, c: int)
    requires ContactsValid(d, n) && p in d && c in d && p != c
    ensures ContactsValid(RemovePair(d, p, c), n)
    ensures RemovePair(d, p, c).Keys == d.Keys
    ensures c !in RemovePair(d, p, c)[p] && p !in RemovePair(d, p, c)[c]
    ensures forall a, b :: a in d && b != a && (a, b) != (p, c) && (a, b) != (c, p) ==> (b in RemovePair(d, p, c)[a] <==> b in d[a])
  {
    RemoveFirstNoDup(d[p], c);
    RemoveFirstNoDup(d[c], p);
  }

  /** Adding a pair that is not yet related keeps the relation valid and adds exactly that pair. */
  lemma AddPairEffect(d: map<int, seq<int>>, n: int, p: int, c: int)
    requires ContactsValid(d, n) && p in d && c in d && p != c && c !in d[p]
    ensures ContactsValid(AddPair(d, p, c), n)
    ensures AddPair(d, p, c).Keys == d.Keys
    ensures c in AddPair(d, p, c)[p] && p in AddPair(d, p, c)[c]
    ensures forall a, b :: a in d && b != a && (a, b) != (p, c) && (a, b) != (c, p) ==> (b in AddPair(d, p, c)[a] <==> b in d[a])
  {
    var r := AddPair(d, p, c);
    assert p !in d[c];
    assert NoDup(r[p]) by {
      forall x, y | 0 <= x < y < |r[p]|
        ensures r[p][x] != r[p][y]
      {
        if y == |r[p]| - 1 {
          assert r[p][x] in d[p];
        }
      }
    }
    assert NoDup(r[c]) by {
      forall x, y | 0 <= x < y < |r[c]|
        ensures r[c][x] != r[c][y]
      {
        if y == |r[c]| - 1 {
          assert r[c][x] in d[c];
        }
      }
    }
  }

  function Rects(bodies: seq<Body>): (rs: seq<Rect>)
    ensures |rs| == |bodies|
    ensures forall k :: 0 <= k < |bodies| ==> rs[k] == Bounds(bodies[k])
  {
    seq(|bodies|, k requires 0 <= k < |bodies| => Bounds(bodies[k]))
  }

  /** The X and Y overlaps of an examined pair, the first body's box first. */
  function XOverlap(rp: Rect, rc: Rect): int { Colliding(rp.minX, rp.maxX, rc.minX, rc.maxX) }
  function YOverlap(rp: Rect, rc: Rect): int { Colliding(rp.minY, rp.maxY, rc.minY, rc.maxY) }

  /** Two boxes touch when, on both axes, colliding is not 0: the interval
      that starts first ends at least a unit after the later start. */
  predicate Touching(rp: Rect, rc: Rect)
  {
    XOverlap(rp, rc) != 0 && YOverlap(rp, rc) != 0
  }

  lemma TouchingSymmetric(rp: Rect, rc: Rect)
    requires rp.minX != rc.minX && rp.minY != rc.minY
    ensures Touching(rp, rc) <==> Touching(rc, rp)
  {
    CollidingAntisymmetric(rp.minX, rp.maxX, rc.minX, rc.maxX);
    CollidingAntisymmetric(rp.minY, rp.maxY, rc.minY, rc.maxY);
  }

  /** The velocity change of a newly registered contact between p and c:
      each axis goes through dynamicCollisionCalc, scaled by the overlap over
      p's width (X) or height (Y). Everything else is kept. */
  function Resolve(bodies: seq<Body>, p: int, c: int, penalty: real, transfer: real): (r: seq<Body>)
    requires 0 <= p < |bodies| && 0 <= c < |bodies| && p != c
    requires Bounds(bodies[p]).Width() > 0.0 && Bounds(bodies[p]).Height() > 0.0
    ensures |r| == |bodies|
    ensures forall k :: 0 <= k < |r| && k != p && k != c ==> r[k] == bodies[k]
    ensures forall k :: 0 <= k < |r| ==> r[k] == bodies[k].(velocity := r[k].velocity)
  {
    var rp, rc := Bounds(bodies[p]), Bounds(bodies[c]);
    var x, y := XOverlap(rp, rc), YOverlap(rp, rc);
    var modX := Abs(x as real / (rp.maxX - rp.minX));
    var modY := Abs(y as real / (rp.minY - rp.maxY));
    var vp, vc := bodies[p].velocity, bodies[c].velocity;
    var vX := DynamicCollisionCalc(vp.x, vc.x, modX, penalty, transfer);
    var vY := DynamicCollisionCalc(vp.y, vc.y, modY, penalty, transfer);
    bodies[p := bodies[p].(velocity := Vec(vX.0, vY.0))][c := bodies[c].(velocity := Vec(vX.1, vY.1))]
  }

  /** Resolution gives both bodies the same added velocity on each axis, so
      the difference of their reflected velocities survives. */
  lemma ResolveExchange(bodies: seq<Body>, p: int, c: int, penalty: real, transfer: real)
    requires 0 <= p < |bodies| && 0 <= c < |bodies| && p != c
    requires Bounds(bodies[p]).Width() > 0.0 && Bounds(bodies[p]).Height() > 0.0
    ensures var r := Resolve(bodies, p, c, penalty, transfer);
            var mx := Reflections(bodies[p].velocity.x, bodies[c].velocity.x, penalty);
            var my := Reflections(bodies[p].velocity.y, bodies[c].velocity.y, penalty);
            r[p].velocity.x - r[c].velocity.x == mx.0 - mx.1 && r[p].velocity.y - r[c].velocity.y == my.0 - my.1
  {
    var rp, rc := Bounds(bodies[p]), Bounds(bodies[c]);
    var modX := Abs(XOverlap(rp, rc) as real / (rp.maxX - rp.minX));
    var modY := Abs(YOverlap(rp, rc) as real / (rp.minY - rp.maxY));
    DynamicCalcExchange(bodies[p].velocity.x, bodies[c].velocity.x, modX, penalty, transfer);
    DynamicCalcExchange(bodies[p].velocity.y, bodies[c].velocity.y, modY, penalty, transfer);
  }

  /** A list of pairs each naming two distinct bodies of a list of size n. */
  predicate PairsIn(order: seq<(int, int)>, n: int)
  {
    forall k :: 0 <= k < |order| ==> 0 <= order[k].0 < n && 0 <= order[k].1 < n && order[k].0 != order[k].1
  }

  /** The new contacts resolved one after another, each on the velocities
      the earlier ones left. */
  function ResolveAll(bodies: seq<Body>, order: seq<(int, int)>, penalty: real, transfer: real): (r: seq<Body>)
    requires PairsIn(order, |bodies|) && Sized(bodies)
    ensures |r| == |bodies|
    ensures forall k :: 0 <= k < |r| ==> r[k] == bodies[k].(velocity := r[k].velocity)
    decreases |order|
  {
    if order == [] then bodies
    else
      var before := ResolveAll(bodies, order[..|order| - 1], penalty, transfer);
      var (p, c) := order[|order| - 1];
      Resolve(before, p, c, penalty, transfer)
  }

  /** Resolution changes velocities only, so every box stays where it was. */
  lemma ResolveAllKeepsRects(bodies: seq<Body>, order: seq<(int, int)>, penalty: real, transfer: real)
    requires PairsIn(order, |bodies|) && Sized(bodies)
    ensures Rects(ResolveAll(bodies, order, penalty, transfer)) == Rects(bodies)
    ensures Sized(ResolveAll(bodies, order, penalty, transfer))
  {
    var r := ResolveAll(bodies, order, penalty, transfer);
    forall k | 0 <= k < |r|
      ensures Bounds(r[k]) == Bounds(bodies[k])
    {
      BoundsIgnoreVelocity(bodies[k], r[k].velocity);
    }
  }

  /** A body that is in no resolved pair keeps its velocity. */
  lemma {:induction false} ResolveAllUntouched(bodies: seq<Body>, order: seq<(int, int)>, penalty: real, transfer: real, k: int)
    requires PairsIn(order, |bodies|) && Sized(bodies) && 0 <= k < |bodies|
    requires forall m :: 0 <= m < |order| ==> order[m].0 != k && order[m].1 != k
    ensures ResolveAll(bodies, order, penalty, transfer)[k] == bodies[k]
    decreases |order|
  {
    if order != [] {
      ResolveAllUntouched(bodies, order[..|order| - 1], penalty, transfer, k);
    }
  }

  /** The two listener calls of a new contact: p.collision(c, x, y), then
      c.collision(p, -x, -y). */
  function PairEvents(rects: seq<Rect>, p: int, c: int): (e: seq<Contact>)
    requires 0 <= p < |rects| && 0 <= c < |rects|
    ensures |e| == 2 && e[0].body == p && e[1].body == c && e[0].other == Some(c) && e[1].other == Some(p)
    ensures e[1].dx == -e[0].dx && e[1].dy == -e[0].dy
    ensures Touching(rects[p], rects[c]) ==> e[0].dx != 0 && e[0].dy != 0
  {
    var x, y := XOverlap(rects[p], rects[c]), YOverlap(rects[p], rects[c]);
    [Contact(p, Some(c), x, y), Contact(c, Some(p), -x, -y)]
  }

  function Events(rects: seq<Rect>, order: seq<(int, int)>): (e: seq<Contact>)
    requires PairsIn(order, |rects|)
    ensures |e| == 2 * |order|
    decreases |order|
  {
    if order == [] then []
    else Events(rects, order[..|order| - 1]) + PairEvents(rects, order[|order| - 1].0, order[|order| - 1].1)
  }

  /** Every new contact is reported by a call on each of its two bodies. */
  lemma {:induction false} EventsOfOrder(rects: seq<Rect>, order: seq<(int, int)>, m: int)
    requires PairsIn(order, |rects|) && 0 <= m < |order|
    ensures Events(rects, order)[2 * m] == PairEvents(rects, order[m].0, order[m].1)[0]
    ensures Events(rects, order)[2 * m + 1] == PairEvents(rects, order[m].0, order[m].1)[1]
    decreases |order|
  {
    if m < |order| - 1 {
      EventsOfOrder(rects, order[..|order| - 1], m);
    }
  }

  /** One more new contact: resolved on the velocities the earlier ones left,
      and reported after their calls. */
  lemma ResolveAppend(bodies: seq<Body>, order: seq<(int, int)>, p: int, c: int, penalty: real, transfer: real)
    requires PairsIn(order, |bodies|) && Sized(bodies)
    requires 0 <= p < |bodies| && 0 <= c < |bodies| && p != c
    ensures PairsIn(order + [(p, c)], |bodies|)
    ensures ResolveAll(bodies, order + [(p, c)], penalty, transfer) == Resolve(ResolveAll(bodies, order, penalty, transfer), p, c, penalty, transfer)
  {
    assert (order + [(p, c)])[..|order|] == order;
  }

  /** One more new contact is reported after the calls of the earlier ones. */
  lemma EventsAppend(rects: seq<Rect>, order: seq<(int, int)>, p: int, c: int)
    requires PairsIn(order, |rects|)
    requires 0 <= p < |rects| && 0 <= c < |rects| && p != c
    ensures PairsIn(order + [(p, c)], |rects|)
    ensures Events(rects, order + [(p, c)]) == Events(rects, order) + PairEvents(rects, p, c)
  {
    assert (order + [(p, c)])[..|order|] == order;
  }
}
