/** PhysEngine: the simulated bodies, the two collision-parity registers and
    the tuning fields, advanced by `Tick` through the fixed pipeline
    boundary collision, body collision, gravity, (empty) N-body gravity, motion.
    Bodies are identified by their index in `simulated`. */
module Physics {
  import opened Util
  import opened Bodies
  import opened Collision
  import opened Contacts
  import opened Boundaries
  import opened Narrow

  /** putIfAbsent for bodies 0 .. n-1: existing entries are kept, missing ones get `empty`. */
  function Registered<T>(m: map<int, T>, n: int, empty: T): map<int, T>
    decreases n
  {
    if n <= 0 then m
    else
      var r := Registered(m, n - 1, empty);
      if n - 1 in r then r else r[n - 1 := empty]
  }

  /** Every body gets an entry; existing entries are kept, the new ones are empty. */
  lemma {:induction false} RegisteredAt<T>(m: map<int, T>, n: int, empty: T)
    ensures forall k :: k in Registered(m, n, empty) <==> k in m || 0 <= k < n
    ensures forall k :: k in m ==> Registered(m, n, empty)[k] == m[k]
    ensures forall k :: k in Registered(m, n, empty) && k !in m ==> Registered(m, n, empty)[k] == empty
    decreases n
  {
    if n > 0 {
      RegisteredAt(m, n - 1, empty);
    }
  }

  /** New empty contact lists keep the relation valid. */
  lemma RegisteredValid(d: map<int, seq<int>>, n: int)
    requires ContactsValid(d, n)
    ensures ContactsValid(Registered(d, n, []), n) && Complete(Registered(d, n, []), n)
  {
    var r := Registered(d, n, []);
    RegisteredAt(d, n, []);
    forall a, b | a in r && b in r[a]
      ensures b != a && b in r && a in r[b]
    {
      assert a in d;
    }
  }

  /** staticGravity: every velocity gains `g`. */
  function Accelerated(bodies: seq<Body>, g: Vec): (r: seq<Body>)
    ensures |r| == |bodies|
    ensures forall k :: 0 <= k < |r| ==> r[k] == bodies[k].(velocity := bodies[k].velocity.Plus(g))
  {
    seq(|bodies|, k requires 0 <= k < |bodies| => bodies[k].(velocity := bodies[k].velocity.Plus(g)))
  }

  /** updatePosition: every position gains its body's velocity. */
  function Moved(bodies: seq<Body>): (r: seq<Body>)
    ensures |r| == |bodies|
    ensures forall k :: 0 <= k < |r| ==> r[k] == bodies[k].(coords := bodies[k].coords.Plus(bodies[k].velocity))
  {
    seq(|bodies|, k requires 0 <= k < |bodies| => bodies[k].(coords := bodies[k].coords.Plus(bodies[k].velocity)))
  }

  /** The box size depends on the shape only, so motion keeps bodies sized. */
  lemma MovedSized(bodies: seq<Body>, g: Vec)
    requires Sized(bodies)
    ensures Sized(Moved(Accelerated(bodies, g)))
  {
  }

  /** The body the screen-edge phase reaches next is still untouched. */
  lemma StaticPendingBody(s0: seq<Body>, p0: map<int, set<Flag>>, width: real, height: real, penalty: real,
                          k: nat, bodies: seq<Body>)
    requires k < |s0|
    requires bodies == StaticBodies(s0, p0, width, height, penalty, k) + s0[k..]
    ensures k < |bodies| && bodies[k] == s0[k]
  {
  }

  /** One more body through the screen-edge phase: the loop invariant of
      staticCollision moves from k to k + 1. */
  lemma StaticStep(s0: seq<Body>, p0: map<int, set<Flag>>, width: real, height: real, penalty: real,
                   k: nat, bodies: seq<Body>, parity: map<int, set<Flag>>, events: seq<Contact>,
                   held: set<Flag>, v: Vec, event: seq<Contact>, flags: set<Flag>)
    requires k < |s0| && held == Held(p0, k)
    requires bodies == StaticBodies(s0, p0, width, height, penalty, k) + s0[k..]
    requires parity == StaticParity(s0, p0, width, height, k)
    requires events == StaticEvents(s0, p0, width, height, k)
    requires v == StaticVelocity(s0[k], held, width, height, penalty)
    requires event == StaticEvent(k, s0[k], held, width, height)
    requires flags == Flags(Bounds(s0[k]), width, height)
    ensures k < |bodies|
    ensures bodies[k := s0[k].(velocity := v)] == StaticBodies(s0, p0, width, height, penalty, k + 1) + s0[k + 1..]
    ensures parity[k := flags] == StaticParity(s0, p0, width, height, k + 1)
    ensures events + event == StaticEvents(s0, p0, width, height, k + 1)
  {
    StaticStepBodies(s0, p0, width, height, penalty, k, bodies, v);
  }

  /** One more body through the screen-edge phase. */
  lemma StaticStepBodies(s0: seq<Body>, p0: map<int, set<Flag>>, width: real, height: real, penalty: real,
                         k: nat, bodies: seq<Body>, v: Vec)
    requires k < |s0|
    requires bodies == StaticBodies(s0, p0, width, height, penalty, k) + s0[k..]
    requires v == StaticVelocity(s0[k], Held(p0, k), width, height, penalty)
    ensures k < |bodies|
    ensures bodies[k := s0[k].(velocity := v)] == StaticBodies(s0, p0, width, height, penalty, k + 1) + s0[k + 1..]
  {
    var done := StaticBodies(s0, p0, width, height, penalty, k);
    var a := bodies[k := s0[k].(velocity := v)];
    var b := StaticBodies(s0, p0, width, height, penalty, k + 1) + s0[k + 1..];
    assert |a| == |b|;
    forall j | 0 <= j < |a|
      ensures a[j] == b[j]
    {
      if j < k {
        assert a[j] == done[j];
      } else if j > k {
        assert a[j] == s0[j];
      }
    }
  }

  /** The loop body of staticCollision for body k: the new velocity, the
      listener call (if any) and the flags the body keeps. */
  method StaticBody(k: int, p: Body, parity: set<Flag>, width: real, height: real, penalty: real)
    returns (v: Vec, event: seq<Contact>, flags: set<Flag>)
    ensures v == StaticVelocity(p, parity, width, height, penalty)
    ensures event == StaticEvent(k, p, parity, width, height)
    ensures flags == Flags(Bounds(p), width, height)
  {
    var bounds := Bounds(p);
    var axisX: Option<Flag> := None;
    var axisY: Option<Flag> := None;
    v := p.velocity;
    if bounds.minX <= 0.0 || bounds.maxX >= width {
      axisX := Some(if bounds.minX <= 0.0 then Left else Right);
      if axisX.value !in parity {
        v := v.(x := StaticCollisionCalc(v.x, penalty));
      }
    }
    assert axisX == XFlag(bounds, width);
    if bounds.minY <= 0.0 || bounds.maxY >= height {
      axisY := Some(if bounds.minY <= 0.0 then Top else Bottom);
      if axisY.value !in parity {
        v := v.(y := StaticCollisionCalc(v.y, penalty));
      }
    }
    assert axisY == YFlag(bounds, height);
    assert v == StaticVelocity(p, parity, width, height, penalty);
    event := [];
    flags := {};
    if axisX != None || axisY != None {
      var cX, cY := 0, 0;
      if axisX == Some(Left) {
        cX := -1;
      } else if axisX == Some(Right) {
        cX := 1;
      }
      if axisY == Some(Top) {
        cY := -1;
      } else if axisY == Some(Bottom) {
        cY := 1;
      }
      if (axisX != None && axisX.value !in parity) || (axisY != None && axisY.value !in parity) {
        event := [Contact(k, None, cX, cY)];
      }
      if axisX != None {
        flags := flags + {axisX.value};
      }
      if axisY != None {
        flags := flags + {axisY.value};
      }
      assert cX == Sign(axisX) && cY == Sign(axisY);
    }
    assert flags == AsSet(axisX) + AsSet(axisY);
  }

  /** The loop of staticCollision over all bodies, in list order. */
  method StaticPass(s0: seq<Body>, p0: map<int, set<Flag>>, width: real, height: real, penalty: real)
    returns (bodies: seq<Body>, parity: map<int, set<Flag>>, events: seq<Contact>)
    requires forall k :: 0 <= k < |s0| ==> k in p0
    ensures bodies == StaticBodies(s0, p0, width, height, penalty, |s0|)
    ensures parity == StaticParity(s0, p0, width, height, |s0|)
    ensures events == StaticEvents(s0, p0, width, height, |s0|)
  {
    bodies, parity, events := s0, p0, [];
    var k := 0;
    while k < |bodies|
      invariant 0 <= k <= |bodies| == |s0|
      invariant bodies == StaticBodies(s0, p0, width, height, penalty, k) + s0[k..]
      invariant parity == StaticParity(s0, p0, width, height, k)
      invariant events == StaticEvents(s0, p0, width, height, k)
    {
      StaticParityPending(s0, p0, width, height, k, k);
      StaticPendingBody(s0, p0, width, height, penalty, k, bodies);
      var p := bodies[k];
      var v, event, flags := StaticBody(k, p, parity[k], width, height, penalty);
      StaticStep(s0, p0, width, height, penalty, k, bodies, parity, events, parity[k], v, event, flags);
      events := events + event;
      bodies := bodies[k := p.(velocity := v)];
      parity := parity[k := flags];
      k := k + 1;
    }
  }

  /** The first loop of dynamicCollision: the widest box and each box's minX. */
  method Extents(bodies: seq<Body>) returns (maxW: real, xCoords: array<real>)
    ensures fresh(xCoords)
    ensures maxW == MaxWidth(Rects(bodies)) && xCoords[..] == MinXs(Rects(bodies))
  {
    ghost var rects := Rects(bodies);
    var n := |bodies|;
    maxW := 0.0;
    xCoords := new real[n];
    for i := 0 to n
      invariant maxW == MaxWidth(rects[..i])
      invariant forall k :: 0 <= k < i ==> xCoords[k] == rects[k].minX
    {
      var b := Bounds(bodies[i]);
      assert b == rects[i];
      var w := b.maxX - b.minX;
      MaxWidthStep(rects, i);
      if w > maxW {
        maxW := w;
      }
      xCoords[i] := b.minX;
    }
    assert rects[..n] == rects;
  }

  /** The second loop of dynamicCollision: body i once per other body j
      whose minX is within maxW of its own. */
  method Cull(xCoords: array<real>, maxW: real) returns (prox: seq<int>)
    ensures prox == Prox(xCoords[..], maxW, xCoords.Length)
  {
    ghost var xs := xCoords[..];
    prox := [];
    for i := 0 to xCoords.Length
      invariant prox == Prox(xs, maxW, i)
    {
      var minX := xCoords[i];
      for j := 0 to xCoords.Length
        invariant prox == Prox(xs, maxW, i) + ProxRow(xs, maxW, i, j)
      {
        if j != i {
          var minXComp := xCoords[j];
          if Abs(minX - minXComp) <= maxW {
            prox := prox + [i];
          }
        }
      }
    }
  }

  /** The checked flags of dynamicCollision once positions before i are done. */
  function Checked(n: nat, i: int): (c: seq<bool>)
    ensures |c| == n && forall q :: 0 <= q < n ==> c[q] == (q < i)
  {
    seq(n, q => q < i)
  }

  /** Marking position i checked finishes it. */
  lemma CheckedStep(n: nat, i: int)
    requires 0 <= i < n
    ensures Checked(n, i)[i := true] == Checked(n, i + 1)
  {
  }

  class PhysEngine {
    var simulated: seq<Body>
    /** sCollisionParity: the screen-edge flags each body held on the last tick. */
    var sParity: map<int, set<Flag>>
    /** dCollisionParity: the bodies each body was touching on the last tick. */
    var dParity: map<int, seq<int>>
    var gravity: Vec
    var staticCollisionPenalty: real
    var dynamicCollisionPenalty: real
    var dynamicCollisionTransfer: real
    var dynamicGravityConstant: real
    /** The listener calls made so far, in order. */
    var log: seq<Contact>

    ghost predicate Valid()
      reads this
    {
      ContactsValid(dParity, |simulated|)
    }

    twostate predicate TuningKept()
      reads this
    {
      && gravity == old(gravity)
      && staticCollisionPenalty == old(staticCollisionPenalty)
      && dynamicCollisionPenalty == old(dynamicCollisionPenalty)
      && dynamicCollisionTransfer == old(dynamicCollisionTransfer)
      && dynamicGravityConstant == old(dynamicGravityConstant)
    }

    /** No bodies, empty registers, no gravity or penalties, transfer 0.5, G 1.0. */
    constructor()
      ensures simulated == [] && sParity == map[] && dParity == map[] && log == []
      ensures gravity == Zero && staticCollisionPenalty == 0.0 && dynamicCollisionPenalty == 0.0
      ensures dynamicCollisionTransfer == 0.5 && dynamicGravityConstant == 1.0
      ensures Valid()
    {
      simulated := [];
      sParity := map[];
      dParity := map[];
      gravity := Zero;
      staticCollisionPenalty := 0.0;
      dynamicCollisionPenalty := 0.0;
      dynamicCollisionTransfer := 0.5;
      dynamicGravityConstant := 1.0;
      log := [];
    }

    /** getSimObjectsMutable().add(b): a new body joins the end of the list. */
    method Add(b: Body)
      requires Valid()
      modifies this
      ensures simulated == old(simulated) + [b]
      ensures sParity == old(sParity) && dParity == old(dParity) && log == old(log) && TuningKept()
      ensures Valid()
    {
      simulated := simulated + [b];
    }

    /** getObjectByUIDMutable: the first body with the UID, or None (null). */
    method GetObjectByUidMutable(uid: string) returns (r: Option<int>)
      ensures r.None? <==> forall k :: 0 <= k < |simulated| ==> simulated[k].uid != uid
      ensures r.Some? ==> 0 <= r.value < |simulated| && simulated[r.value].uid == uid
      ensures r.Some? ==> forall k :: 0 <= k < r.value ==> simulated[k].uid != uid
    {
      var k := 0;
      while k < |simulated|
        invariant 0 <= k <= |simulated|
        invariant forall j :: 0 <= j < k ==> simulated[j].uid != uid
      {
        if simulated[k].uid == uid {
          return Some(k);
        }
        k := k + 1;
      }
      return None;
    }

    /** The two putIfAbsent passes at the start of a tick. */
    method RegisterBodies()
      modifies this
      ensures sParity == Registered(old(sParity), |simulated|, {})
      ensures dParity == Registered(old(dParity), |simulated|, [])
      ensures simulated == old(simulated) && log == old(log) && TuningKept()
    {
      var k := 0;
      while k < |simulated|
        invariant 0 <= k <= |simulated|
        invariant sParity == Registered(old(sParity), k, {})
        invariant simulated == old(simulated) && dParity == old(dParity) && log == old(log) && TuningKept()
      {
        if k !in sParity {
          sParity := sParity[k := {}];
        }
        k := k + 1;
      }
      k := 0;
      while k < |simulated|
        invariant 0 <= k <= |simulated|
        invariant dParity == Registered(old(dParity), k, [])
        invariant sParity == Registered(old(sParity), |simulated|, {})
        invariant simulated == old(simulated) && log == old(log) && TuningKept()
      {
        if k !in dParity {
          dParity := dParity[k := []];
        }
        k := k + 1;
      }
    }

    /** staticCollision: per body, reflect each violated axis whose flag is
        new, report the contact when some flag is new, and keep exactly this
        tick's flags. */
    method StaticCollision(width: real, height: real)
      requires forall k :: 0 <= k < |simulated| ==> k in sParity
      modifies this
      ensures simulated == StaticBodies(old(simulated), old(sParity), width, height, staticCollisionPenalty, old(|simulated|))
      ensures sParity == StaticParity(old(simulated), old(sParity), width, height, old(|simulated|))
      ensures log == old(log) + StaticEvents(old(simulated), old(sParity), width, height, old(|simulated|))
      ensures dParity == old(dParity) && TuningKept()
    {
      var bodies, parity, events := StaticPass(simulated, sParity, width, height, staticCollisionPenalty);
      simulated, sParity, log := bodies, parity, log + events;
    }

    /** The X-proximity cull of dynamicCollision: the widest box and every
        box's minX, then every body once per other body within that width. */
    method BroadPhase() returns (prox: seq<int>)
      ensures prox == Candidates(Rects(simulated))
    {
      var maxW, xCoords := Extents(simulated);
      prox := Cull(xCoords, maxW);
    }

    /** One (p, c) step of the narrow phase: a pair that does not touch is
        unrelated, a touching pair already related is ignored, and a new one
        is related both ways, resolved and reported to both bodies. */
    method ExaminePair(p: int, c: int)
      requires 0 <= p < |simulated| && 0 <= c < |simulated| && p != c
      requires ContactsValid(dParity, |simulated|) && Complete(dParity, |simulated|) && Sized(simulated)
      modifies this
      ensures DynState(simulated, dParity, log) == Examine(old(DynState(simulated, dParity, log)), p, c, dynamicCollisionPenalty, dynamicCollisionTransfer)
      ensures sParity == old(sParity) && TuningKept()
    {
      ghost var st := DynState(simulated, dParity, log);
      var b := Bounds(simulated[p]);
      var bc := Bounds(simulated[c]);
      var x := Colliding(b.minX, b.maxX, bc.minX, bc.maxX);
      var y := Colliding(b.minY, b.maxY, bc.minY, bc.maxY);
      var parityS := dParity[p];
      var parityC := dParity[c];
      if x == 0 || y == 0 {
        var d := dParity[p := RemoveFirst(parityS, c)];
        d := d[c := RemoveFirst(parityC, p)];
        assert d == RemovePair(st.d, p, c);
        dParity := d;
        return;
      }
      var modX := Abs(x as real / (b.maxX - b.minX));
      var modY := Abs(y as real / (b.minY - b.maxY));
      var vX := DynamicCollisionCalc(simulated[p].velocity.x, simulated[c].velocity.x, modX, dynamicCollisionPenalty, dynamicCollisionTransfer);
      var vY := DynamicCollisionCalc(simulated[p].velocity.y, simulated[c].velocity.y, modY, dynamicCollisionPenalty, dynamicCollisionTransfer);
      var ignored := c in parityS || p in parityC;
      if ignored {
        return;
      }
      var d := dParity[p := parityS + [c]];
      d := d[c := parityC + [p]];
      var bodies := simulated[p := simulated[p].(velocity := Vec(vX.0, vY.0))];
      bodies := bodies[c := bodies[c].(velocity := Vec(vX.1, vY.1))];
      var events := log + [Contact(p, Some(c), x, y)];
      events := events + [Contact(c, Some(p), -x, -y)];
      assert bodies == Resolve(st.bodies, p, c, dynamicCollisionPenalty, dynamicCollisionTransfer);
      assert events == st.log + PairEvents(Rects(st.bodies), p, c);
      assert d == AddPair(st.d, p, c);
      dParity, simulated, log := d, bodies, events;
    }
  
    /** The inner loop of dynamicCollision for position i of `prox`: every
        unchecked position j holding another body examines the pair
        (prox[i], prox[j]). */
    method ScanRow(prox: seq<int>, checked: seq<bool>, i: int,
                   ghost s0: seq<Body>, ghost d0: map<int, seq<int>>, ghost rects: seq<Rect>, ghost log0: seq<Contact>, ghost order: seq<(int, int)>)
      returns (ghost order': seq<(int, int)>)
      requires i < |prox| && checked == Checked(|prox|, i)
      requires Scanned(prox, i, s0, d0, rects, log0, order, dynamicCollisionPenalty, dynamicCollisionTransfer, DynState(simulated, dParity, log))
      modifies this
      ensures Scanned(prox, i + 1, s0, d0, rects, log0, order', dynamicCollisionPenalty, dynamicCollisionTransfer, DynState(simulated, dParity, log))
      ensures sParity == old(sParity) && TuningKept()
    {
      order' := order;
      RowStart(prox, i, s0, d0, rects, log0, order', dynamicCollisionPenalty, dynamicCollisionTransfer, DynState(simulated, dParity, log));
      var j := 0;
      while j != |prox|
        invariant Scanning(prox, i, j, s0, d0, rects, log0, order', dynamicCollisionPenalty, dynamicCollisionTransfer, DynState(simulated, dParity, log))
        invariant sParity == old(sParity) && TuningKept()
      {
        order' := ScanAt(prox, checked, i, j, s0, d0, rects, log0, order');
        j := j + 1;
      }
      RowFinish(prox, i, s0, d0, rects, log0, order', dynamicCollisionPenalty, dynamicCollisionTransfer, DynState(simulated, dParity, log));
    }

    /** One position j of the inner loop: skipped when checked or holding
        prox[i] itself, otherwise the pair (prox[i], prox[j]) is examined. */
    method ScanAt(prox: seq<int>, checked: seq<bool>, i: int, j: int,
                  ghost s0: seq<Body>, ghost d0: map<int, seq<int>>, ghost rects: seq<Rect>, ghost log0: seq<Contact>, ghost order: seq<(int, int)>)
      returns (ghost order': seq<(int, int)>)
      requires j < |prox| && checked == Checked(|prox|, i)
      requires Scanning(prox, i, j, s0, d0, rects, log0, order, dynamicCollisionPenalty, dynamicCollisionTransfer, DynState(simulated, dParity, log))
      modifies this
      ensures Scanning(prox, i, j + 1, s0, d0, rects, log0, order', dynamicCollisionPenalty, dynamicCollisionTransfer, DynState(simulated, dParity, log))
      ensures sParity == old(sParity) && TuningKept()
    {
      order' := order;
      if checked[j] {
        RowSkip(prox, i, j, s0, d0, rects, log0, order, dynamicCollisionPenalty, dynamicCollisionTransfer, DynState(simulated, dParity, log));
        return;
      }
      var p, c := prox[i], prox[j];
      if c == p {
        RowSkip(prox, i, j, s0, d0, rects, log0, order, dynamicCollisionPenalty, dynamicCollisionTransfer, DynState(simulated, dParity, log));
        return;
      }
      ghost var st := DynState(simulated, dParity, log);
      ExaminePair(p, c);
      order' := NarrowStep(prox, i, j, s0, d0, rects, log0, order, dynamicCollisionPenalty, dynamicCollisionTransfer, st);
    }

    /** The outer loop of dynamicCollision: every position i of `prox` in
        turn runs its inner loop and is then marked checked. */
    method ScanAll(prox: seq<int>, ghost s0: seq<Body>, ghost d0: map<int, seq<int>>, ghost rects: seq<Rect>, ghost log0: seq<Contact>)
      returns (ghost order: seq<(int, int)>)
      requires Narrowing(prox, s0, d0, rects, log0, [], dynamicCollisionPenalty, dynamicCollisionTransfer, DynState(simulated, dParity, log))
      requires DynState(simulated, dParity, log) == DynState(s0, d0, log0)
      modifies this
      ensures Scanned(prox, |prox|, s0, d0, rects, log0, order, dynamicCollisionPenalty, dynamicCollisionTransfer, DynState(simulated, dParity, log))
      ensures sParity == old(sParity) && TuningKept()
    {
      order := [];
      ScanStart(prox, s0, d0, rects, log0, dynamicCollisionPenalty, dynamicCollisionTransfer);
      var checked := seq(|prox|, _ => false);
      assert checked == Checked(|prox|, 0);
      var i := 0;
      while i != |prox|
        invariant 0 <= i <= |prox|
        invariant checked == Checked(|prox|, i)
        invariant Scanned(prox, i, s0, d0, rects, log0, order, dynamicCollisionPenalty, dynamicCollisionTransfer, DynState(simulated, dParity, log))
        invariant sParity == old(sParity) && TuningKept()
      {
        order := ScanRow(prox, checked, i, s0, d0, rects, log0, order);
        CheckedStep(|prox|, i);
        checked := checked[i := true];
        i := i + 1;
      }
    }

    /** dynamicCollision: the broad phase, then the nested loops over its
        candidates. The ghost `order` lists the new contacts in the order
        they were resolved. */
    method DynamicCollision() returns (ghost order: seq<(int, int)>)
      requires Fits(DynState(simulated, dParity, log), |simulated|)
      modifies this
      ensures Fits(DynState(simulated, dParity, log), |old(simulated)|)
      ensures Settled(dParity, old(dParity), order, Rects(old(simulated)))
      ensures PairSorted(order) && PairsIn(order, |old(simulated)|)
      ensures simulated == ResolveAll(old(simulated), order, dynamicCollisionPenalty, dynamicCollisionTransfer)
      ensures log == old(log) + Events(Rects(old(simulated)), order)
      ensures sParity == old(sParity) && TuningKept()
    {
      ghost var s0, d0, log0 := simulated, dParity, log;
      ghost var rects := Rects(simulated);
      var prox := BroadPhase();
      ProxSorted(MinXs(rects), MaxWidth(rects), |rects|);
      assert log0 + Events(rects, []) == log0;
      order := ScanAll(prox, s0, d0, rects, log0);
      NarrowSettled(dParity, d0, order, rects);
    }

    /** staticGravity: every velocity gains the static gravity vector. */
    method StaticGravity()
      modifies this
      ensures simulated == Accelerated(old(simulated), gravity)
      ensures sParity == old(sParity) && dParity == old(dParity) && log == old(log) && TuningKept()
    {
      var k := 0;
      while k != |simulated|
        invariant 0 <= k <= |simulated| == |old(simulated)|
        invariant forall j :: 0 <= j < k ==> simulated[j] == old(simulated)[j].(velocity := old(simulated)[j].velocity.Plus(gravity))
        invariant forall j :: k <= j < |simulated| ==> simulated[j] == old(simulated)[j]
        invariant sParity == old(sParity) && dParity == old(dParity) && log == old(log) && TuningKept()
      {
        var p := simulated[k];
        simulated := simulated[k := p.(velocity := p.velocity.Plus(gravity))];
        k := k + 1;
      }
    }

    /** dynamicGravity: the body is empty, so nothing changes. */
    method DynamicGravity()
      ensures unchanged(this)
    {
    }

    /** updatePosition: every position gains its body's velocity. */
    method UpdatePosition()
      modifies this
      ensures simulated == Moved(old(simulated))
      ensures sParity == old(sParity) && dParity == old(dParity) && log == old(log) && TuningKept()
    {
      var k := 0;
      while k != |simulated|
        invariant 0 <= k <= |simulated| == |old(simulated)|
        invariant forall j :: 0 <= j < k ==> simulated[j] == old(simulated)[j].(coords := old(simulated)[j].coords.Plus(old(simulated)[j].velocity))
        invariant forall j :: k <= j < |simulated| ==> simulated[j] == old(simulated)[j]
        invariant sParity == old(sParity) && dParity == old(dParity) && log == old(log) && TuningKept()
      {
        var p := simulated[k];
        simulated := simulated[k := p.(coords := p.coords.Plus(p.velocity))];
        k := k + 1;
      }
    }

    /** tick: with no bodies nothing happens; otherwise every body gets its
        registers, then the screen-edge phase, the body-body phase, gravity
        and motion run in that order, on boxes that only motion changes. */
    method Tick(width: real, height: real) returns (ghost order: seq<(int, int)>)
      requires Valid() && Sized(simulated)
      modifies this
      ensures Valid() && Sized(simulated) && |simulated| == |old(simulated)| && TuningKept()
      ensures old(simulated) == [] ==> simulated == [] && sParity == old(sParity) && dParity == old(dParity) && log == old(log)
      ensures old(simulated) != [] ==>
                var n := |old(simulated)|;
                var flags := Registered(old(sParity), n, {});
                var s1 := StaticBodies(old(simulated), flags, width, height, staticCollisionPenalty, n);
                && sParity == StaticParity(old(simulated), flags, width, height, n)
                && Complete(dParity, n) && Complete(Registered(old(dParity), n, []), n)
                && Settled(dParity, Registered(old(dParity), n, []), order, Rects(old(simulated)))
                && PairsIn(order, n) && Sized(s1)
                && simulated == Moved(Accelerated(ResolveAll(s1, order, dynamicCollisionPenalty, dynamicCollisionTransfer), gravity))
                && log == old(log) + StaticEvents(old(simulated), flags, width, height, n) + Events(Rects(old(simulated)), order)
    {
      order := [];
      if |simulated| == 0 {
        return;
      }
      ghost var s0, n := simulated, |simulated|;
      RegisterBodies();
      ghost var flags := sParity;
      RegisteredAt(old(sParity), n, {});
      RegisteredValid(old(dParity), n);
      StaticCollision(width, height);
      ghost var s1 := simulated;
      StaticBodiesKeepRects(s0, flags, width, height, staticCollisionPenalty);
      assert Sized(s1) by {
        forall k | 0 <= k < n
          ensures Bounds(s1[k]) == Bounds(s0[k])
        {
          assert Rects(s1)[k] == Rects(s0)[k];
        }
      }
      order := DynamicCollision();
      ResolveAllKeepsRects(s1, order, dynamicCollisionPenalty, dynamicCollisionTransfer);
      MovedSized(simulated, gravity);
      StaticGravity();
      DynamicGravity();
      UpdatePosition();
    }
  }
}
