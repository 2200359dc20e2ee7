/** The simulated body (PhysObject) as a value: identity, position, velocity,
    mass, the shape that decides its bounding box, and its collision handlers.
    GamePhysObject's square bounds are the `Square` shape. */
module Bodies {
  import opened Util

  /** How a body reports its bounds: PhysObject's default point, or the
      centred square of a GamePhysObject of the given size. */
  datatype Shape = Point | Square(size: real)

  /** A registered collision callback; its action is outside the model. */
  datatype Handler = Handler(id: int)

  /** One `action(self, collided)` call made on a handler. A collided body is
      an index into the engine's list; None is Java's null. */
  datatype HandlerCall = HandlerCall(handler: Handler, self: int, collided: Option<int>)

  datatype Body = Body(uid: string, coords: Vec, velocity: Vec, mass: real, shape: Shape, handlers: seq<Handler>)

  /** The PhysObject constructor: UID "INV", mass 1, at rest at the origin, no handlers. */
  function NewBody(): (b: Body)
    ensures b.uid == "INV" && b.mass == 1.0
    ensures b.coords == Zero && b.velocity == Zero
    ensures b.shape == Point && b.handlers == []
  {
    Body("INV", Zero, Zero, 1.0, Point, [])
  }

  /** getEnergy: the sum of the velocity components times the mass. */
  function Energy(b: Body): real
  {
    (b.velocity.x + b.velocity.y) * b.mass
  }

  /** getEnergy is zero exactly when the body is massless or its velocity
      components cancel, not only when it is at rest. */
  lemma EnergyZeroIff(b: Body)
    ensures Energy(b) == 0.0 <==> b.mass == 0.0 || b.velocity.x + b.velocity.y == 0.0
  {
    var s := b.velocity.x + b.velocity.y;
    if s != 0.0 && b.mass != 0.0 {
      assert s * b.mass != 0.0 by {
        if s > 0.0 && b.mass > 0.0 { assert s * b.mass > 0.0; }
        else if s < 0.0 && b.mass < 0.0 { assert s * b.mass > 0.0; }
        else { assert s * b.mass < 0.0; }
      }
    }
  }

  /** getEnergy is not kinetic energy: it is the mass times the sum of the
      velocity components, so a body of positive mass moving diagonally
      against one axis has none, and one moving towards negative x has a
      negative energy. */
  lemma EnergyNotKinetic(b: Body)
    requires b.mass > 0.0
    ensures b.velocity == Vec(1.0, -1.0) ==> Energy(b) == 0.0
    ensures b.velocity == Vec(-1.0, 0.0) ==> Energy(b) < 0.0
  {
  }

  /** getBounds as [minX, minY, maxX, maxY]. The default is the degenerate
      rectangle at the coordinates; a GamePhysObject's is the square of side
      `size` centred on its coordinates. */
  function Bounds(b: Body): Rect
  {
    match b.shape
    case Point => Rect(b.coords.x, b.coords.y, b.coords.x, b.coords.y)
    case Square(s) => Rect(b.coords.x - s / 2.0, b.coords.y - s / 2.0, b.coords.x + s / 2.0, b.coords.y + s / 2.0)
  }

  /** A point body's box is degenerate; a square body's box has the size as
      its width and height and is centred on the coordinates. */
  lemma BoundsShape(b: Body)
    ensures b.shape == Point ==> Bounds(b).minX == Bounds(b).maxX == b.coords.x && Bounds(b).minY == Bounds(b).maxY == b.coords.y
    ensures b.shape.Square? ==> Bounds(b).Width() == b.shape.size && Bounds(b).Height() == b.shape.size
    ensures b.shape.Square? ==> (Bounds(b).minX + Bounds(b).maxX) / 2.0 == b.coords.x && (Bounds(b).minY + Bounds(b).maxY) / 2.0 == b.coords.y
  {
  }

  /** Bounds depend on position and shape only. */
  lemma BoundsIgnoreVelocity(b: Body, v: Vec)
    ensures Bounds(b.(velocity := v)) == Bounds(b)
  {
  }

  /** Every body has a box of positive width and height. */
  ghost predicate Sized(bodies: seq<Body>)
  {
    forall k :: 0 <= k < |bodies| ==> Bounds(bodies[k]).Width() > 0.0 && Bounds(bodies[k]).Height() > 0.0
  }

  /** addCollisionCallback: the handler goes at the end of the list. */
  function AddCollisionCallback(b: Body, e: Handler): (r: Body)
    ensures r.handlers == b.handlers + [e]
    ensures r.(handlers := b.handlers) == b
  {
    b.(handlers := b.handlers + [e])
  }

  /** The calls `collision` makes: every handler once, in registration order. */
  function Calls(handlers: seq<Handler>, self: int, collided: Option<int>): (calls: seq<HandlerCall>)
    ensures |calls| == |handlers|
    ensures forall k :: 0 <= k < |calls| ==> calls[k] == HandlerCall(handlers[k], self, collided)
  {
    if handlers == [] then []
    else Calls(handlers[..|handlers| - 1], self, collided) + [HandlerCall(handlers[|handlers| - 1], self, collided)]
  }

  /** A handler added by addCollisionCallback is called last, after the earlier ones. */
  lemma {:induction false} AddedHandlerCalledLast(b: Body, e: Handler, self: int, collided: Option<int>)
    ensures Calls(AddCollisionCallback(b, e).handlers, self, collided) == Calls(b.handlers, self, collided) + [HandlerCall(e, self, collided)]
  {
    var hs := b.handlers + [e];
    assert hs[..|hs| - 1] == b.handlers;
  }

  /** collision: loops over the handlers, calling each with (this, collided). */
  method Collision(b: Body, self: int, collided: Option<int>) returns (calls: seq<HandlerCall>)
    ensures calls == Calls(b.handlers, self, collided)
  {
    calls := [];
    var k := 0;
    while k < |b.handlers|
      invariant 0 <= k <= |b.handlers|
      invariant calls == Calls(b.handlers[..k], self, collided)
    {
      assert b.handlers[..k + 1][..k] == b.handlers[..k];
      calls := calls + [HandlerCall(b.handlers[k], self, collided)];
      k := k + 1;
    }
    assert b.handlers[..k] == b.handlers;
  }
}
