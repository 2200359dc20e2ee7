/** The UI container (UXEngine): a list of managed elements rendered together
    and a list of static render objects, and the routing of interaction
    events to the elements. What an element draws and what it does with an
    event belong to the element; here they are the render outputs passed in
    and the list of elements an event is passed to. */
module Ux {
  import opened Util

  /** The part of a UI element the container reads: its corner and size. */
  datatype Element = Element(pos: Vec, size: Vec)

  /** (x, y) lies in the element's rectangle, edges included. */
  predicate Inside(e: Element, x: int, y: int)
  {
    && x as real <= e.pos.x + e.size.x && x as real >= e.pos.x
    && y as real <= e.pos.y + e.size.y && y as real >= e.pos.y
  }

  /** The element at this index receives an event of this type at (x, y):
      mouse events only inside the element, keyboard events always. */
  predicate Receives(e: Element, x: int, y: int, t: InteractionType)
  {
    t.IsMouse() ==> Inside(e, x, y)
  }

  /** The indices of the elements that receive an event, in list order. */
  function Dispatch(es: seq<Element>, x: int, y: int, t: InteractionType): seq<int>
  {
    if es == [] then []
    else Dispatch(es[..|es| - 1], x, y, t) + (if Receives(es[|es| - 1], x, y, t) then [|es| - 1] else [])
  }

  /** An element is dispatched to exactly when it receives the event, and
      each at most once, in increasing index order. */
  lemma {:induction false} DispatchExact(es: seq<Element>, x: int, y: int, t: InteractionType)
    ensures forall i :: i in Dispatch(es, x, y, t) <==> 0 <= i < |es| && Receives(es[i], x, y, t)
    ensures forall a, b :: 0 <= a < b < |Dispatch(es, x, y, t)| ==> Dispatch(es, x, y, t)[a] < Dispatch(es, x, y, t)[b]
  {
    if es != [] {
      var f := es[..|es| - 1];
      DispatchExact(f, x, y, t);
      assert forall a :: 0 <= a < |Dispatch(f, x, y, t)| ==> Dispatch(f, x, y, t)[a] in Dispatch(f, x, y, t);
      forall i | 0 <= i < |f|
        ensures f[i] == es[i]
      {
      }
    }
  }

  /** Keyboard events reach every element, in order. */
  lemma {:induction false} KeyboardReachesAll(es: seq<Element>, x: int, y: int, t: InteractionType)
    requires !t.IsMouse()
    ensures Dispatch(es, x, y, t) == seq(|es|, i => i)
  {
    if es != [] {
      KeyboardReachesAll(es[..|es| - 1], x, y, t);
    }
  }

  /** The outputs one after the other. */
  function Flatten(q: seq<seq<RenderObject>>): seq<RenderObject>
  {
    if q == [] then [] else Flatten(q[..|q| - 1]) + q[|q| - 1]
  }

  /** The summed length of the outputs. */
  function TotalLength(q: seq<seq<RenderObject>>): nat
  {
    if q == [] then 0 else TotalLength(q[..|q| - 1]) + |q[|q| - 1]|
  }

  /** The flattened list is as long as all outputs together. */
  lemma {:induction false} FlattenLength(q: seq<seq<RenderObject>>)
    ensures |Flatten(q)| == TotalLength(q)
  {
    if q != [] {
      FlattenLength(q[..|q| - 1]);
    }
  }

  /** Flattening distributes over concatenation of output lists. */
  lemma {:induction false} FlattenAppend(p: seq<seq<RenderObject>>, q: seq<seq<RenderObject>>)
    ensures Flatten(p + q) == Flatten(p) + Flatten(q)
  {
    if q == [] {
      assert p + q == p;
    } else {
      var r := q[..|q| - 1];
      assert (p + q)[..|p + q| - 1] == p + r;
      FlattenAppend(p, r);
    }
  }

  /** Each output is found, in order, at its offset in the flattened list. */
  lemma {:induction false} FlattenAt(q: seq<seq<RenderObject>>, i: int)
    requires 0 <= i < |q|
    ensures |Flatten(q)| == TotalLength(q)
    ensures TotalLength(q[..i]) + |q[i]| <= TotalLength(q)
    ensures Flatten(q)[TotalLength(q[..i])..TotalLength(q[..i]) + |q[i]|] == q[i]
  {
    FlattenAppend(q[..i + 1], q[i + 1..]);
    assert q[..i + 1] + q[i + 1..] == q;
    assert q[..i + 1][..i] == q[..i];
    FlattenLength(q[..i]);
    FlattenLength(q[..i + 1]);
    FlattenLength(q);
  }

  /** System.arraycopy of one output into the result at `index`. */
  method CopyInto(out: array<RenderObject>, index: nat, res: seq<RenderObject>)
    requires index + |res| <= out.Length
    modifies out
    ensures out[..index] == old(out[..index])
    ensures out[index..index + |res|] == res
  {
    var k := 0;
    while k < |res|
      invariant 0 <= k <= |res|
      invariant out[..index] == old(out[..index])
      invariant out[index..index + k] == res[..k]
    {
      out[index + k] := res[k];
      k := k + 1;
    }
  }

  /** The flattening loop of render: copy each queued output after the
      previous ones into an array of the precomputed total length. */
  method Copy(queue: array<seq<RenderObject>>, len: nat) returns (retV: seq<RenderObject>)
    requires len == TotalLength(queue[..])
    ensures retV == Flatten(queue[..])
  {
    var index := 0;
    var out := new RenderObject[len];
    var r := 0;
    while r < queue.Length
      invariant 0 <= r <= queue.Length
      invariant index == TotalLength(queue[..r]) <= len
      invariant out[..index] == Flatten(queue[..r])
    {
      var res := queue[r];
      FlattenAt(queue[..], r);
      assert queue[..][..r] == queue[..r];
      CopyInto(out, index, res);
      assert queue[..r + 1][..r] == queue[..r];
      assert out[..index + |res|] == out[..index] + out[index..index + |res|];
      index := index + |res|;
      r := r + 1;
    }
    assert queue[..r] == queue[..];
    retV := out[..];
  }

  class UxEngine {
    var managed: seq<Element>
    var staticRenderable: seq<RenderObject>

    /** The elements are managed in the order given; no static objects yet. */
    constructor(elements: seq<Element>)
      ensures managed == elements && staticRenderable == []
    {
      managed := elements;
      staticRenderable := [];
    }

    /** render: the render outputs of the managed elements (`outputs[i]` is
        what element i returns), concatenated in list order, followed by
        the static objects. */
    method Render(outputs: seq<seq<RenderObject>>) returns (retV: seq<RenderObject>)
      requires |outputs| == |managed|
      ensures retV == Flatten(outputs) + staticRenderable
      ensures |retV| == TotalLength(outputs) + |staticRenderable|
    {
      var queue := new seq<RenderObject>[|managed| + 1];
      var len := 0;
      var i := 0;
      while i < |managed|
        invariant 0 <= i <= |managed|
        invariant queue[..i] == outputs[..i]
        invariant len == TotalLength(outputs[..i])
      {
        queue[i] := outputs[i];
        assert outputs[..i + 1][..i] == outputs[..i];
        len := len + |queue[i]|;
        i := i + 1;
      }
      queue[queue.Length - 1] := staticRenderable;
      len := len + |staticRenderable|;
      assert queue[..] == outputs + [staticRenderable];
      assert len == TotalLength(queue[..]) by {
        assert outputs[..i] == outputs;
        assert queue[..][..queue.Length - 1] == outputs;
      }

      var flat := Copy(queue, len);
      FlattenAppend(outputs, [staticRenderable]);
      assert Flatten([staticRenderable]) == staticRenderable by {
        assert [staticRenderable][..0] == [];
      }
      retV := flat;
      FlattenLength(outputs);
    }

    /** interact: the indices of the managed elements the event is passed
        to, in list order. */
    method Interact(x: int, y: int, t: InteractionType) returns (dispatched: seq<int>)
      ensures dispatched == Dispatch(managed, x, y, t)
    {
      dispatched := [];
      var i := 0;
      while i < |managed|
        invariant 0 <= i <= |managed|
        invariant dispatched == Dispatch(managed[..i], x, y, t)
      {
        var e := managed[i];
        assert managed[..i + 1][..i] == managed[..i];
        if t == MouseDown || t == MouseUp || t == MouseHover {
          if x as real <= e.pos.x + e.size.x && x as real >= e.pos.x && y as real <= e.pos.y + e.size.y && y as real >= e.pos.y {
            dispatched := dispatched + [i];
          }
        } else {
          dispatched := dispatched + [i];
        }
        i := i + 1;
      }
      assert managed[..i] == managed;
    }
  }
}
