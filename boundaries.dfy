/** The screen-edge phase of PhysEngine (staticCollision) as functions of one
    body, its flag list from the previous tick and the arena size. */
module Boundaries {
  import opened Util
  import opened Bodies
  import opened Collision
  import opened Contacts

  /** The static-collision flags LEFT, RIGHT, TOP and BOTTOM (NONE is None). */
  datatype Flag = Left | Right | Top | Bottom

  /** The X-axis violation: LEFT when minX <= 0, else RIGHT when maxX reaches the width. */
  function XFlag(r: Rect, width: real): Option<Flag>
  {
    if r.minX <= 0.0 || r.maxX >= width then Some(if r.minX <= 0.0 then Left else Right) else None
  }

  /** The Y-axis violation: TOP when minY <= 0, else BOTTOM when maxY reaches the height. */
  function YFlag(r: Rect, height: real): Option<Flag>
  {
    if r.minY <= 0.0 || r.maxY >= height then Some(if r.minY <= 0.0 then Top else Bottom) else None
  }

  /** LEFT takes precedence over RIGHT and TOP over BOTTOM; each axis yields
      only its own two flags. */
  lemma AxisFlags(r: Rect, width: real, height: real)
    ensures XFlag(r, width) == Some(Left) <==> r.minX <= 0.0
    ensures XFlag(r, width) == Some(Right) <==> r.minX > 0.0 && r.maxX >= width
    ensures XFlag(r, width) == None <==> r.minX > 0.0 && r.maxX < width
    ensures YFlag(r, height) == Some(Top) <==> r.minY <= 0.0
    ensures YFlag(r, height) == Some(Bottom) <==> r.minY > 0.0 && r.maxY >= height
    ensures YFlag(r, height) == None <==> r.minY > 0.0 && r.maxY < height
  {
  }

  function AsSet(f: Option<Flag>): set<Flag>
  {
    if f.Some? then {f.value} else {}
  }

  /** The flags a body holds after the phase: exactly this tick's violations. */
  function Flags(r: Rect, width: real, height: real): set<Flag>
  {
    AsSet(XFlag(r, width)) + AsSet(YFlag(r, height))
  }

  /** A body holds a flag iff it violates that edge now; at most one flag per axis. */
  lemma FlagsExact(r: Rect, width: real, height: real)
    ensures forall f :: f in Flags(r, width, height) <==> Some(f) == XFlag(r, width) || Some(f) == YFlag(r, height)
    ensures |Flags(r, width, height)| <= 2
    ensures !(Left in Flags(r, width, height) && Right in Flags(r, width, height))
    ensures !(Top in Flags(r, width, height) && Bottom in Flags(r, width, height))
  {
  }

  /** The flags body k held on the last tick (every body has an entry once
      tick has registered it; an unregistered body is read as holding none). */
  function Held(parity: map<int, set<Flag>>, k: int): set<Flag>
  {
    if k in parity then parity[k] else {}
  }

  /** A violation that was not already flagged on the previous tick. */
  predicate IsNew(f: Option<Flag>, parity: set<Flag>)
  {
    f.Some? && f.value !in parity
  }

  /** The velocity after the phase: an axis is reflected only when it is
      violated and its flag is new. */
  function StaticVelocity(b: Body, parity: set<Flag>, width: real, height: real, penalty: real): (v: Vec)
  {
    var r := Bounds(b);
    Vec(if IsNew(XFlag(r, width), parity) then StaticCollisionCalc(b.velocity.x, penalty) else b.velocity.x,
        if IsNew(YFlag(r, height), parity) then StaticCollisionCalc(b.velocity.y, penalty) else b.velocity.y)
  }

  /** A body inside the arena, or resting against an edge it already touched,
      keeps its velocity; a changed axis is never faster and points away from
      its old direction. */
  lemma StaticVelocityEffect(b: Body, parity: set<Flag>, width: real, height: real, penalty: real)
    requires penalty >= 0.0
    ensures var v, r := StaticVelocity(b, parity, width, height, penalty), Bounds(b);
            && (!IsNew(XFlag(r, width), parity) ==> v.x == b.velocity.x)
            && (!IsNew(YFlag(r, height), parity) ==> v.y == b.velocity.y)
            && (IsNew(XFlag(r, width), parity) ==>
                  v.x * b.velocity.x <= 0.0 && Abs(v.x) == if Abs(b.velocity.x) <= penalty then 0.0 else Abs(b.velocity.x) - penalty)
            && (IsNew(YFlag(r, height), parity) ==>
                  v.y * b.velocity.y <= 0.0 && Abs(v.y) == if Abs(b.velocity.y) <= penalty then 0.0 else Abs(b.velocity.y) - penalty)
            && Abs(v.x) <= Abs(b.velocity.x) && Abs(v.y) <= Abs(b.velocity.y)
  {
    StaticCalcNeverFaster(b.velocity.x, penalty);
    StaticCalcNeverFaster(b.velocity.y, penalty);
  }

  /** The listener's direction for a flag: LEFT/TOP -1, RIGHT/BOTTOM 1, none 0. */
  function Sign(f: Option<Flag>): int
  {
    match f
    case None => 0
    case Some(Left) => -1
    case Some(Top) => -1
    case Some(Right) => 1
    case Some(Bottom) => 1
  }

  /** The listener call of body k: at most one, and only when some violated
      flag is new, with no other body and the signs of both axes. */
  function StaticEvent(k: int, b: Body, parity: set<Flag>, width: real, height: real): seq<Contact>
  {
    var r := Bounds(b);
    var ax, ay := XFlag(r, width), YFlag(r, height);
    if IsNew(ax, parity) || IsNew(ay, parity) then [Contact(k, None, Sign(ax), Sign(ay))] else []
  }

  /** At most one call per body, made iff some violated flag is new, naming no
      other body and giving each axis's direction (0 for an axis in bounds). */
  lemma StaticEventShape(k: int, b: Body, parity: set<Flag>, width: real, height: real)
    ensures |StaticEvent(k, b, parity, width, height)| <= 1
    ensures |StaticEvent(k, b, parity, width, height)| == 1
            <==> IsNew(XFlag(Bounds(b), width), parity) || IsNew(YFlag(Bounds(b), height), parity)
    ensures |StaticEvent(k, b, parity, width, height)| == 1 ==>
            var e := StaticEvent(k, b, parity, width, height)[0];
            && e.body == k && e.other == None
            && e.dx == Sign(XFlag(Bounds(b), width)) && e.dy == Sign(YFlag(Bounds(b), height))
            && -1 <= e.dx <= 1 && -1 <= e.dy <= 1
            && (e.dx == 0 <==> XFlag(Bounds(b), width) == None)
            && (e.dy == 0 <==> YFlag(Bounds(b), height) == None)
  {
  }

  /** The listener calls of the phase over bodies 0 .. n-1, in list order. */
  function StaticEvents(bodies: seq<Body>, parity: map<int, set<Flag>>, width: real, height: real, n: nat): (e: seq<Contact>)
    requires n <= |bodies|
    ensures |e| <= n
  {
    if n == 0 then []
    else StaticEvents(bodies, parity, width, height, n - 1)
         + StaticEvent(n - 1, bodies[n - 1], Held(parity, n - 1), width, height)
  }

  /** The listener calls of the phase name bodies below n, in increasing order. */
  lemma {:induction false} StaticEventsOrdered(bodies: seq<Body>, parity: map<int, set<Flag>>, width: real, height: real, n: nat)
    requires n <= |bodies|
    ensures forall a :: 0 <= a < |StaticEvents(bodies, parity, width, height, n)| ==> 0 <= StaticEvents(bodies, parity, width, height, n)[a].body < n
    ensures forall a, b :: 0 <= a < b < |StaticEvents(bodies, parity, width, height, n)| ==> StaticEvents(bodies, parity, width, height, n)[a].body < StaticEvents(bodies, parity, width, height, n)[b].body
  {
    if n > 0 {
      StaticEventsOrdered(bodies, parity, width, height, n - 1);
      var before := StaticEvents(bodies, parity, width, height, n - 1);
      var last := StaticEvent(n - 1, bodies[n - 1], Held(parity, n - 1), width, height);
      var e := before + last;
      assert e == StaticEvents(bodies, parity, width, height, n);
      StaticEventShape(n - 1, bodies[n - 1], Held(parity, n - 1), width, height);
      assert forall a :: 0 <= a < |e| ==> 0 <= e[a].body < n by {
        forall a | 0 <= a < |e|
          ensures 0 <= e[a].body < n
        {
          if a >= |before| {
            assert |last| == 1;
            assert e[a] == last[0];
            assert last[0].body == n - 1;
          } else {
            assert e[a] == before[a];
            assert 0 <= before[a].body < n - 1;
          }
        }
      }
    }
  }

  /** Some listener call in `e` is made on body k. */
  ghost predicate Reported(e: seq<Contact>, k: int)
  {
    exists m :: 0 <= m < |e| && e[m].body == k
  }

  lemma ReportedAppend(before: seq<Contact>, last: seq<Contact>, k: int)
    ensures Reported(before + last, k) <==> Reported(before, k) || Reported(last, k)
  {
    var e := before + last;
    if Reported(e, k) {
      var m :| 0 <= m < |e| && e[m].body == k;
      if m < |before| {
        assert before[m].body == k;
      } else {
        assert last[m - |before|].body == k;
      }
    }
    if Reported(before, k) {
      var m :| 0 <= m < |before| && before[m].body == k;
      assert e[m].body == k;
    }
    if Reported(last, k) {
      var m :| 0 <= m < |last| && last[m].body == k;
      assert e[|before| + m].body == k;
    }
  }

  /** The calls for the last body handled are about that body alone. */
  lemma StaticEventsLast(bodies: seq<Body>, parity: map<int, set<Flag>>, width: real, height: real, n: nat)
    requires 0 < n <= |bodies|
    ensures Reported(StaticEvents(bodies, parity, width, height, n), n - 1)
            <==> IsNew(XFlag(Bounds(bodies[n - 1]), width), Held(parity, n - 1)) || IsNew(YFlag(Bounds(bodies[n - 1]), height), Held(parity, n - 1))
  {
    var before := StaticEvents(bodies, parity, width, height, n - 1);
    var last := StaticEvent(n - 1, bodies[n - 1], Held(parity, n - 1), width, height);
    ReportedAppend(before, last, n - 1);
    StaticEventShape(n - 1, bodies[n - 1], Held(parity, n - 1), width, height);
    StaticEventsOrdered(bodies, parity, width, height, n - 1);
    assert !Reported(before, n - 1);
  }

  /** Handling body n-1 adds no call for an earlier body. */
  lemma StaticEventsEarlier(bodies: seq<Body>, parity: map<int, set<Flag>>, width: real, height: real, n: nat, k: int)
    requires 0 < n <= |bodies| && 0 <= k < n - 1
    ensures Reported(StaticEvents(bodies, parity, width, height, n), k) <==> Reported(StaticEvents(bodies, parity, width, height, n - 1), k)
  {
    var before := StaticEvents(bodies, parity, width, height, n - 1);
    var last := StaticEvent(n - 1, bodies[n - 1], Held(parity, n - 1), width, height);
    ReportedAppend(before, last, k);
    StaticEventShape(n - 1, bodies[n - 1], Held(parity, n - 1), width, height);
    assert !Reported(last, k);
  }

  /** A screen-edge listener call is made for body k iff one of its violated
      flags is new. */
  lemma {:induction false} StaticEventsFor(bodies: seq<Body>, parity: map<int, set<Flag>>, width: real, height: real, n: nat, k: int)
    requires n <= |bodies|
    requires 0 <= k < n
    ensures Reported(StaticEvents(bodies, parity, width, height, n), k)
            <==> IsNew(XFlag(Bounds(bodies[k]), width), Held(parity, k)) || IsNew(YFlag(Bounds(bodies[k]), height), Held(parity, k))
  {
    if k < n - 1 {
      StaticEventsEarlier(bodies, parity, width, height, n, k);
      StaticEventsFor(bodies, parity, width, height, n - 1, k);
    } else {
      StaticEventsLast(bodies, parity, width, height, n);
    }
  }

  /** The first n bodies after the phase: only velocities change. */
  function StaticBodies(bodies: seq<Body>, parity: map<int, set<Flag>>, width: real, height: real, penalty: real, n: nat): (r: seq<Body>)
    requires n <= |bodies|
    ensures |r| == n
  {
    if n == 0 then []
    else StaticBodies(bodies, parity, width, height, penalty, n - 1)
         + [bodies[n - 1].(velocity := StaticVelocity(bodies[n - 1], Held(parity, n - 1), width, height, penalty))]
  }

  /** Body k after the phase is body k with its new velocity. */
  lemma {:induction false} StaticBodiesAt(bodies: seq<Body>, parity: map<int, set<Flag>>, width: real, height: real, penalty: real, n: nat)
    requires n <= |bodies|
    ensures forall k :: 0 <= k < n ==>
      StaticBodies(bodies, parity, width, height, penalty, n)[k] == bodies[k].(velocity := StaticVelocity(bodies[k], Held(parity, k), width, height, penalty))
  {
    if n > 0 {
      StaticBodiesAt(bodies, parity, width, height, penalty, n - 1);
    }
  }

  /** The phase moves nothing, so every box stays where it was. */
  lemma StaticBodiesKeepRects(bodies: seq<Body>, parity: map<int, set<Flag>>, width: real, height: real, penalty: real)
    ensures Rects(StaticBodies(bodies, parity, width, height, penalty, |bodies|)) == Rects(bodies)
  {
    var r := StaticBodies(bodies, parity, width, height, penalty, |bodies|);
    StaticBodiesAt(bodies, parity, width, height, penalty, |bodies|);
    forall k | 0 <= k < |r|
      ensures Bounds(r[k]) == Bounds(bodies[k])
    {
      BoundsIgnoreVelocity(bodies[k], r[k].velocity);
    }
  }

  /** The flag register after the phase has handled bodies 0 .. n-1. */
  function StaticParity(bodies: seq<Body>, parity: map<int, set<Flag>>, width: real, height: real, n: nat): map<int, set<Flag>>
    requires n <= |bodies|
  {
    if n == 0 then parity
    else StaticParity(bodies, parity, width, height, n - 1)[n - 1 := Flags(Bounds(bodies[n - 1]), width, height)]
  }

  /** Each handled body holds exactly its current violations; every other
      entry is kept. */
  lemma {:induction false} StaticParityAt(bodies: seq<Body>, parity: map<int, set<Flag>>, width: real, height: real, n: nat)
    requires n <= |bodies|
    ensures forall j :: j in StaticParity(bodies, parity, width, height, n) <==> j in parity || 0 <= j < n
    ensures forall j :: 0 <= j < n ==> StaticParity(bodies, parity, width, height, n)[j] == Flags(Bounds(bodies[j]), width, height)
    ensures forall j :: j in parity && !(0 <= j < n) ==> StaticParity(bodies, parity, width, height, n)[j] == parity[j]
  {
    if n > 0 {
      StaticParityAt(bodies, parity, width, height, n - 1);
    }
  }

  /** An entry the phase has not reached yet is still the one from the last tick. */
  lemma {:induction false} StaticParityPending(bodies: seq<Body>, parity: map<int, set<Flag>>, width: real, height: real, n: nat, j: int)
    requires n <= |bodies| && j in parity && j >= n
    ensures j in StaticParity(bodies, parity, width, height, n)
    ensures StaticParity(bodies, parity, width, height, n)[j] == parity[j]
  {
    if n > 0 {
      StaticParityPending(bodies, parity, width, height, n - 1, j);
    }
  }
}
