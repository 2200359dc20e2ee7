/** The bookkeeping of dynamicCollision's narrow phase: which body pairs the
    nested loops over `prox` have examined, and what the contact lists and
    the list of resolved contacts must then be. Positions in `prox` before
    `i` are the `checked` ones. */
module Narrow {
  import opened Util
  import opened Bodies
  import opened Contacts
  import opened Collision

  predicate Sorted(s: seq<int>)
  {
    forall a, b :: 0 <= a <= b < |s| ==> s[a] <= s[b]
  }

  predicate NoDupPairs(order: seq<(int, int)>)
  {
    forall x, y :: 0 <= x < y < |order| ==> order[x] != order[y]
  }

  /** Pair (a, b) has been examined once the outer loop has finished the
      positions before i. */
  ghost predicate Done(prox: seq<int>, i: int, a: int, b: int)
    requires 0 <= i <= |prox|
  {
    a in prox[..i] && b in prox
  }

  /** Pair (a, b) has been examined once, in addition, the inner loop of
      position i has passed the positions before j. */
  ghost predicate Seen(prox: seq<int>, i: int, j: int, a: int, b: int)
    requires 0 <= i < |prox| && 0 <= j <= |prox|
  {
    Done(prox, i, a, b) || (i < j && a == prox[i] && b in prox[i..j])
  }

  /** The contact lists agree with the examined pairs: an examined pair is
      related iff it touches, any other pair as it was at the start. */
  ghost predicate AgreesDone(d: map<int, seq<int>>, d0: map<int, seq<int>>, rects: seq<Rect>, prox: seq<int>, i: int)
    requires Complete(d, |rects|) && Complete(d0, |rects|) && 0 <= i <= |prox|
  {
    forall a, b {:trigger Done(prox, i, a, b)} :: 0 <= a < b < |rects| ==>
      (b in d[a] <==> (Done(prox, i, a, b) && Touching(rects[a], rects[b])) || (!Done(prox, i, a, b) && b in d0[a]))
  }

  ghost predicate AgreesSeen(d: map<int, seq<int>>, d0: map<int, seq<int>>, rects: seq<Rect>, prox: seq<int>, i: int, j: int)
    requires Complete(d, |rects|) && Complete(d0, |rects|) && 0 <= i < |prox| && 0 <= j <= |prox|
  {
    forall a, b {:trigger Seen(prox, i, j, a, b)} :: 0 <= a < b < |rects| ==>
      (b in d[a] <==> (Seen(prox, i, j, a, b) && Touching(rects[a], rects[b])) || (!Seen(prox, i, j, a, b) && b in d0[a]))
  }

  /** Every pair names two bodies below n, the earlier one first. */
  predicate Ascending(order: seq<(int, int)>, n: int)
  {
    forall k :: 0 <= k < |order| ==> 0 <= order[k].0 < order[k].1 < n
  }

  /** The resolved contacts are exactly the examined touching pairs that were
      not related at the start, each earlier body first. */
  ghost predicate ResolvedDone(order: seq<(int, int)>, d0: map<int, seq<int>>, rects: seq<Rect>, prox: seq<int>, i: int)
    requires Complete(d0, |rects|) && 0 <= i <= |prox|
  {
    && Ascending(order, |rects|)
    && forall a, b {:trigger Done(prox, i, a, b)} :: 0 <= a < b < |rects| ==>
         ((a, b) in order <==> Done(prox, i, a, b) && Touching(rects[a], rects[b]) && b !in d0[a])
  }

  ghost predicate ResolvedSeen(order: seq<(int, int)>, d0: map<int, seq<int>>, rects: seq<Rect>, prox: seq<int>, i: int, j: int)
    requires Complete(d0, |rects|) && 0 <= i < |prox| && 0 <= j <= |prox|
  {
    && Ascending(order, |rects|)
    && forall a, b {:trigger Seen(prox, i, j, a, b)} :: 0 <= a < b < |rects| ==>
         ((a, b) in order <==> Seen(prox, i, j, a, b) && Touching(rects[a], rects[b]) && b !in d0[a])
  }

  /** Nothing is examined before the loops start. */
  lemma AgreesInitially(d0: map<int, seq<int>>, rects: seq<Rect>, prox: seq<int>)
    requires Complete(d0, |rects|)
    ensures AgreesDone(d0, d0, rects, prox, 0) && ResolvedDone([], d0, rects, prox, 0)
  {
  }

  /** Entering the inner loop, or skipping a checked position, examines nothing. */
  lemma SeenBeforeRow(d: map<int, seq<int>>, d0: map<int, seq<int>>, rects: seq<Rect>, prox: seq<int>, order: seq<(int, int)>, i: int, j: int)
    requires Complete(d, |rects|) && Complete(d0, |rects|) && 0 <= i < |prox| && 0 <= j <= i
    requires AgreesDone(d, d0, rects, prox, i) && ResolvedDone(order, d0, rects, prox, i)
    ensures AgreesSeen(d, d0, rects, prox, i, j) && ResolvedSeen(order, d0, rects, prox, i, j)
  {
  }

  /** An examined position adds the one pair (prox[i], prox[j]). */
  lemma {:induction false} SeenStep(prox: seq<int>, i: int, j: int, a: int, b: int)
    requires 0 <= i <= j < |prox|
    ensures Seen(prox, i, j + 1, a, b) <==> Seen(prox, i, j, a, b) || (a == prox[i] && b == prox[j])
  {
    assert prox[i..j + 1] == prox[i..j] + [prox[j]];
  }

  /** In a sorted `prox`, finishing the row of position i completes every
      pair whose earlier body is prox[i]. */
  lemma {:induction false} SeenRowDone(prox: seq<int>, i: int, a: int, b: int)
    requires Sorted(prox) && 0 <= i < |prox| && a < b
    ensures Seen(prox, i, |prox|, a, b) <==> Done(prox, i + 1, a, b)
  {
    assert prox[..i + 1] == prox[..i] + [prox[i]];
    if a == prox[i] && b in prox {
      var k :| 0 <= k < |prox| && prox[k] == b;
      assert k >= i;
      assert prox[i..][k - i] == b;
    }
    if b in prox[i..] {
      var k :| 0 <= k < |prox| - i && prox[i..][k] == b;
      assert prox[i + k] == b;
    }
  }

  lemma RowDone(d: map<int, seq<int>>, d0: map<int, seq<int>>, rects: seq<Rect>, prox: seq<int>, order: seq<(int, int)>, i: int)
    requires Complete(d, |rects|) && Complete(d0, |rects|) && Sorted(prox) && 0 <= i < |prox|
    requires AgreesSeen(d, d0, rects, prox, i, |prox|) && ResolvedSeen(order, d0, rects, prox, i, |prox|)
    ensures AgreesDone(d, d0, rects, prox, i + 1) && ResolvedDone(order, d0, rects, prox, i + 1)
  {
    forall a, b {:trigger Done(prox, i + 1, a, b)} | 0 <= a < b < |rects|
      ensures b in d[a] <==> (Done(prox, i + 1, a, b) && Touching(rects[a], rects[b])) || (!Done(prox, i + 1, a, b) && b in d0[a])
    {
      assert b in d[a] <==> (Seen(prox, i, |prox|, a, b) && Touching(rects[a], rects[b])) || (!Seen(prox, i, |prox|, a, b) && b in d0[a]);
      SeenRowDone(prox, i, a, b);
    }
    forall a, b {:trigger Done(prox, i + 1, a, b)} | 0 <= a < b < |rects|
      ensures (a, b) in order <==> Done(prox, i + 1, a, b) && Touching(rects[a], rects[b]) && b !in d0[a]
    {
      assert (a, b) in order <==> Seen(prox, i, |prox|, a, b) && Touching(rects[a], rects[b]) && b !in d0[a];
      SeenRowDone(prox, i, a, b);
    }
    assert ResolvedDone(order, d0, rects, prox, i + 1);
    assert AgreesDone(d, d0, rects, prox, i + 1);
  }

  /** One examined pair (p, c), p = prox[i] < c = prox[j], that does not
      touch: both lists drop the other body. */
  lemma ExamineApart(d: map<int, seq<int>>, d0: map<int, seq<int>>, rects: seq<Rect>, prox: seq<int>, order: seq<(int, int)>, i: int, j: int)
    requires ContactsValid(d, |rects|) && Complete(d, |rects|) && Complete(d0, |rects|)
    requires 0 <= i <= j < |prox| && 0 <= prox[i] < prox[j] < |rects|
    requires AgreesSeen(d, d0, rects, prox, i, j) && ResolvedSeen(order, d0, rects, prox, i, j)
    requires !Touching(rects[prox[i]], rects[prox[j]])
    ensures var d' := RemovePair(d, prox[i], prox[j]);
            ContactsValid(d', |rects|) && Complete(d', |rects|)
            && AgreesSeen(d', d0, rects, prox, i, j + 1) && ResolvedSeen(order, d0, rects, prox, i, j + 1)
  {
    var p, c, n := prox[i], prox[j], |rects|;
    RemovePairEffect(d, n, p, c);
    var d' := RemovePair(d, p, c);
    forall a, b | 0 <= a < b < n
      ensures b in d'[a] <==> (Seen(prox, i, j + 1, a, b) && Touching(rects[a], rects[b])) || (!Seen(prox, i, j + 1, a, b) && b in d0[a])
    {
      SeenStep(prox, i, j, a, b);
    }
    forall a, b
      ensures (a, b) in order <==> 0 <= a < b < n && Seen(prox, i, j + 1, a, b) && Touching(rects[a], rects[b]) && b !in d0[a]
    {
      SeenStep(prox, i, j, a, b);
    }
  }

  /** A touching pair that is already related: nothing changes. */
  lemma ExamineKnown(d: map<int, seq<int>>, d0: map<int, seq<int>>, rects: seq<Rect>, prox: seq<int>, order: seq<(int, int)>, i: int, j: int)
    requires Complete(d, |rects|) && Complete(d0, |rects|)
    requires 0 <= i <= j < |prox| && 0 <= prox[i] < prox[j] < |rects|
    requires AgreesSeen(d, d0, rects, prox, i, j) && ResolvedSeen(order, d0, rects, prox, i, j)
    requires Touching(rects[prox[i]], rects[prox[j]]) && prox[j] in d[prox[i]]
    ensures AgreesSeen(d, d0, rects, prox, i, j + 1) && ResolvedSeen(order, d0, rects, prox, i, j + 1)
  {
    var p, c, n := prox[i], prox[j], |rects|;
    assert !Seen(prox, i, j, p, c) ==> c in d0[p];
    forall a, b {:trigger Seen(prox, i, j + 1, a, b)} | 0 <= a < b < n
      ensures b in d[a] <==> (Seen(prox, i, j + 1, a, b) && Touching(rects[a], rects[b])) || (!Seen(prox, i, j + 1, a, b) && b in d0[a])
    {
      SeenStep(prox, i, j, a, b);
    }
    assert AgreesSeen(d, d0, rects, prox, i, j + 1);
    forall a, b {:trigger Seen(prox, i, j + 1, a, b)} | 0 <= a < b < n
      ensures (a, b) in order <==> Seen(prox, i, j + 1, a, b) && Touching(rects[a], rects[b]) && b !in d0[a]
    {
      SeenStep(prox, i, j, a, b);
    }
    assert ResolvedSeen(order, d0, rects, prox, i, j + 1);
  }

  /** A touching pair not yet related: it becomes related and is resolved,
      for the first and only time. */
  lemma ExamineNew(d: map<int, seq<int>>, d0: map<int, seq<int>>, rects: seq<Rect>, prox: seq<int>, order: seq<(int, int)>, i: int, j: int)
    requires ContactsValid(d, |rects|) && Complete(d, |rects|) && Complete(d0, |rects|)
    requires 0 <= i <= j < |prox| && 0 <= prox[i] < prox[j] < |rects|
    requires AgreesSeen(d, d0, rects, prox, i, j) && ResolvedSeen(order, d0, rects, prox, i, j) && NoDupPairs(order)
    requires Touching(rects[prox[i]], rects[prox[j]]) && prox[j] !in d[prox[i]]
    ensures var d', order' := AddPair(d, prox[i], prox[j]), order + [(prox[i], prox[j])];
            ContactsValid(d', |rects|) && Complete(d', |rects|)
            && AgreesSeen(d', d0, rects, prox, i, j + 1) && ResolvedSeen(order', d0, rects, prox, i, j + 1) && NoDupPairs(order')
  {
    var p, c, n := prox[i], prox[j], |rects|;
    AddPairEffect(d, n, p, c);
    var d', order' := AddPair(d, p, c), order + [(p, c)];
    assert !Seen(prox, i, j, p, c) && c !in d0[p];
    assert (p, c) !in order;
    forall a, b | 0 <= a < b < n
      ensures b in d'[a] <==> (Seen(prox, i, j + 1, a, b) && Touching(rects[a], rects[b])) || (!Seen(prox, i, j + 1, a, b) && b in d0[a])
    {
      SeenStep(prox, i, j, a, b);
    }
    forall a, b
      ensures (a, b) in order' <==> 0 <= a < b < n && Seen(prox, i, j + 1, a, b) && Touching(rects[a], rects[b]) && b !in d0[a]
    {
      SeenStep(prox, i, j, a, b);
      assert (a, b) in order' <==> (a, b) in order || (a, b) == (p, c);
      assert (a, b) in order <==> 0 <= a < b < n && Seen(prox, i, j, a, b) && Touching(rects[a], rects[b]) && b !in d0[a];
    }
    forall x, y | 0 <= x < y < |order'|
      ensures order'[x] != order'[y]
    {
      if y == |order| {
        assert order'[x] in order;
      }
    }
  }

  /** A skipped position: one already checked (before i), or another copy
      of the body prox[i] itself. Nothing new is examined. */
  lemma ExamineSkip(d: map<int, seq<int>>, d0: map<int, seq<int>>, rects: seq<Rect>, prox: seq<int>, order: seq<(int, int)>, i: int, j: int)
    requires Complete(d, |rects|) && Complete(d0, |rects|)
    requires 0 <= i < |prox| && 0 <= j < |prox| && (j < i || prox[j] == prox[i])
    requires AgreesSeen(d, d0, rects, prox, i, j) && ResolvedSeen(order, d0, rects, prox, i, j)
    ensures AgreesSeen(d, d0, rects, prox, i, j + 1) && ResolvedSeen(order, d0, rects, prox, i, j + 1)
  {
    forall a, b {:trigger Seen(prox, i, j + 1, a, b)} | a < b
      ensures Seen(prox, i, j + 1, a, b) <==> Seen(prox, i, j, a, b)
    {
      if i <= j {
        SeenStep(prox, i, j, a, b);
      }
    }
  }

  /** Pair order: by the first body, then by the second. */
  predicate PairBefore(x: (int, int), y: (int, int))
  {
    x.0 < y.0 || (x.0 == y.0 && x.1 < y.1)
  }

  /** The resolved contacts are in strictly increasing pair order, which
      fixes their sequence once their set is known. */
  predicate PairSorted(order: seq<(int, int)>)
  {
    forall x, y :: 0 <= x < y < |order| ==> PairBefore(order[x], order[y])
  }

  /** Every pair examined so far comes before the pair at (i, j) when that
      one has not been examined yet: the nested loops meet pairs in order. */
  lemma SeenBefore(prox: seq<int>, i: int, j: int, a: int, b: int)
    requires Sorted(prox) && 0 <= i <= j < |prox| && prox[i] < prox[j] && a < b
    requires Seen(prox, i, j, a, b) && !Seen(prox, i, j, prox[i], prox[j])
    ensures PairBefore((a, b), (prox[i], prox[j]))
  {
    if Done(prox, i, a, b) {
      var k :| 0 <= k < i && prox[..i][k] == a;
      assert prox[k] == a && prox[j] in prox;
    } else {
      var k :| 0 <= k < j - i && prox[i..j][k] == b;
      assert prox[i + k] == b;
    }
  }

  /** Appending the first examination of a new pair keeps the order sorted. */
  lemma ResolvedSortedStep(d0: map<int, seq<int>>, rects: seq<Rect>, prox: seq<int>, order: seq<(int, int)>, i: int, j: int)
    requires Complete(d0, |rects|) && Sorted(prox) && 0 <= i <= j < |prox| && prox[i] < prox[j]
    requires ResolvedSeen(order, d0, rects, prox, i, j) && PairSorted(order)
    requires !Seen(prox, i, j, prox[i], prox[j])
    ensures PairSorted(order + [(prox[i], prox[j])])
  {
    var order' := order + [(prox[i], prox[j])];
    forall x, y | 0 <= x < y < |order'|
      ensures PairBefore(order'[x], order'[y])
    {
      if y == |order| {
        var (a, b) := order[x];
        assert (a, b) in order;
        SeenBefore(prox, i, j, a, b);
      }
    }
  }

  /** What the narrow phase leaves behind: a pair of candidates is related
      iff it touches and any other pair is related as before; the resolved
      contacts are exactly the touching pairs that were not related before,
      each earlier body first. */
  ghost predicate Settled(d: map<int, seq<int>>, d0: map<int, seq<int>>, order: seq<(int, int)>, rects: seq<Rect>)
    requires Complete(d, |rects|) && Complete(d0, |rects|)
  {
    && Ascending(order, |rects|)
    && forall a, b {:trigger Touching(rects[a], rects[b])} :: 0 <= a < b < |rects| ==>
         && (b in d[a] <==> Touching(rects[a], rects[b]) || (!(a in Candidates(rects) && b in Candidates(rects)) && b in d0[a]))
         && ((a, b) in order <==> Touching(rects[a], rects[b]) && b !in d0[a])
  }

  /** Once every position of the candidate list is examined, the phase is
      settled; since every touching pair is a pair of candidates, none is
      missed. */
  lemma NarrowSettled(d: map<int, seq<int>>, d0: map<int, seq<int>>, order: seq<(int, int)>, rects: seq<Rect>)
    requires Complete(d, |rects|) && Complete(d0, |rects|)
    requires AgreesDone(d, d0, rects, Candidates(rects), |Candidates(rects)|)
    requires ResolvedDone(order, d0, rects, Candidates(rects), |Candidates(rects)|)
    ensures Settled(d, d0, order, rects)
  {
    var prox := Candidates(rects);
    assert prox[..|prox|] == prox;
    forall a, b | 0 <= a < b < |rects|
      ensures b in d[a] <==> Touching(rects[a], rects[b]) || (!(a in prox && b in prox) && b in d0[a])
      ensures (a, b) in order <==> Touching(rects[a], rects[b]) && b !in d0[a]
    {
      assert Done(prox, |prox|, a, b) <==> a in prox && b in prox;
      if Touching(rects[a], rects[b]) {
        OverlapImpliesCandidates(rects, a, b);
      }
    }
  }

  /** Settled, for one pair: every touching pair ends up related. */
  lemma SettledTouching(d: map<int, seq<int>>, d0: map<int, seq<int>>, order: seq<(int, int)>, rects: seq<Rect>, a: int, b: int)
    requires ContactsValid(d, |rects|) && Complete(d, |rects|) && Complete(d0, |rects|) && Settled(d, d0, order, rects)
    requires 0 <= a < b < |rects| && Touching(rects[a], rects[b])
    ensures b in d[a] && a in d[b]
    ensures (a, b) in order <==> b !in d0[a]
  {
  }

  /** The part of the engine the narrow phase works on: the bodies, the
      contact lists (dCollisionParity) and the listener log. */
  datatype DynState = DynState(bodies: seq<Body>, d: map<int, seq<int>>, log: seq<Contact>)

  /** A state the narrow phase can run on: n sized bodies, each with a list,
      the lists forming a valid contact relation. */
  ghost predicate Fits(st: DynState, n: int)
  {
    |st.bodies| == n && Sized(st.bodies) && ContactsValid(st.d, n) && Complete(st.d, n)
  }

  /** Every entry of `prox` is a body index below n. */
  predicate InRange(prox: seq<int>, n: int)
  {
    forall q :: 0 <= q < |prox| ==> 0 <= prox[q] < n
  }

  /** Examining the pair (p, c): a pair that does not touch is dropped from
      both lists; a touching pair already related changes nothing; a
      touching pair not yet related is added to both lists, resolved and
      reported by its two listener calls. */
  ghost function Examine(st: DynState, p: int, c: int, penalty: real, transfer: real): (r: DynState)
    requires Fits(st, |st.bodies|) && 0 <= p < |st.bodies| && 0 <= c < |st.bodies| && p != c
    ensures Fits(r, |st.bodies|)
    ensures Rects(r.bodies) == Rects(st.bodies)
  {
    var n := |st.bodies|;
    if !Touching(Bounds(st.bodies[p]), Bounds(st.bodies[c])) then
      RemovePairEffect(st.d, n, p, c);
      DynState(st.bodies, RemovePair(st.d, p, c), st.log)
    else if c in st.d[p] then
      st
    else
      AddPairEffect(st.d, n, p, c);
      ResolveAllKeepsRects(st.bodies, [(p, c)], penalty, transfer);
      assert ResolveAll(st.bodies, [(p, c)], penalty, transfer) == Resolve(st.bodies, p, c, penalty, transfer);
      DynState(Resolve(st.bodies, p, c, penalty, transfer), AddPair(st.d, p, c), st.log + PairEvents(Rects(st.bodies), p, c))
  }

  /** What holds throughout the narrow phase, for the bodies `s0`, boxes
      `rects`, contact lists `d0` and log `log0` it started from, when the
      new contacts resolved so far are `order` and the engine is in `st`. */
  ghost predicate Narrowing(prox: seq<int>, s0: seq<Body>, d0: map<int, seq<int>>, rects: seq<Rect>, log0: seq<Contact>, order: seq<(int, int)>,
                            penalty: real, transfer: real, st: DynState)
  {
    && rects == Rects(s0) && Sized(s0)
    && Sorted(prox) && InRange(prox, |rects|)
    && Fits(st, |rects|) && Complete(d0, |rects|)
    && NoDupPairs(order) && PairSorted(order) && PairsIn(order, |rects|)
    && st.bodies == ResolveAll(s0, order, penalty, transfer)
    && Rects(st.bodies) == rects
    && st.log == log0 + Events(rects, order)
  }

  /** The state between rows: positions before i are finished. */
  ghost predicate Scanned(prox: seq<int>, i: int, s0: seq<Body>, d0: map<int, seq<int>>, rects: seq<Rect>, log0: seq<Contact>, order: seq<(int, int)>,
                          penalty: real, transfer: real, st: DynState)
  {
    && Narrowing(prox, s0, d0, rects, log0, order, penalty, transfer, st)
    && 0 <= i <= |prox|
    && AgreesDone(st.d, d0, rects, prox, i) && ResolvedDone(order, d0, rects, prox, i)
  }

  /** The state inside row i: in addition, positions before j are passed. */
  ghost predicate Scanning(prox: seq<int>, i: int, j: int, s0: seq<Body>, d0: map<int, seq<int>>, rects: seq<Rect>, log0: seq<Contact>, order: seq<(int, int)>,
                           penalty: real, transfer: real, st: DynState)
  {
    && Narrowing(prox, s0, d0, rects, log0, order, penalty, transfer, st)
    && 0 <= i < |prox| && 0 <= j <= |prox|
    && AgreesSeen(st.d, d0, rects, prox, i, j) && ResolvedSeen(order, d0, rects, prox, i, j)
  }

  /** One examined position j of row i keeps the narrow-phase invariant and
      adds the pair (prox[i], prox[j]) to the examined ones; `order'` is the
      list of resolved contacts afterwards. */
  lemma NarrowStep(prox: seq<int>, i: int, j: int, s0: seq<Body>, d0: map<int, seq<int>>, rects: seq<Rect>, log0: seq<Contact>, order: seq<(int, int)>,
                   penalty: real, transfer: real, st: DynState)
    returns (order': seq<(int, int)>)
    requires Scanning(prox, i, j, s0, d0, rects, log0, order, penalty, transfer, st)
    requires i <= j < |prox| && prox[i] != prox[j]
    ensures Scanning(prox, i, j + 1, s0, d0, rects, log0, order', penalty, transfer, Examine(st, prox[i], prox[j], penalty, transfer))
  {
    var p, c := prox[i], prox[j];
    assert p < c;
    order' := order;
    if !Touching(rects[p], rects[c]) {
      ExamineApart(st.d, d0, rects, prox, order, i, j);
    } else if c in st.d[p] {
      ExamineKnown(st.d, d0, rects, prox, order, i, j);
    } else {
      order' := NarrowNew(prox, i, j, s0, d0, rects, log0, order, penalty, transfer, st);
    }
  }

  /** The case of NarrowStep that registers and resolves a new contact. */
  lemma NarrowNew(prox: seq<int>, i: int, j: int, s0: seq<Body>, d0: map<int, seq<int>>, rects: seq<Rect>, log0: seq<Contact>, order: seq<(int, int)>,
                  penalty: real, transfer: real, st: DynState)
    returns (order': seq<(int, int)>)
    requires Scanning(prox, i, j, s0, d0, rects, log0, order, penalty, transfer, st)
    requires i <= j < |prox| && prox[i] != prox[j]
    requires Touching(rects[prox[i]], rects[prox[j]]) && prox[j] !in st.d[prox[i]]
    ensures Scanning(prox, i, j + 1, s0, d0, rects, log0, order', penalty, transfer, Examine(st, prox[i], prox[j], penalty, transfer))
  {
    var p, c := prox[i], prox[j];
    assert p < c;
    ExamineNew(st.d, d0, rects, prox, order, i, j);
    ResolvedSortedStep(d0, rects, prox, order, i, j);
    ResolveNext(s0, rects, log0, order, penalty, transfer, st.bodies, st.log, p, c);
    order' := order + [(p, c)];
  }

  /** Resolving one more contact extends the resolved bodies and the log
      the way ResolveAll and Events describe. */
  lemma ResolveNext(s0: seq<Body>, rects: seq<Rect>, log0: seq<Contact>, order: seq<(int, int)>, penalty: real, transfer: real,
                    bodies: seq<Body>, log: seq<Contact>, p: int, c: int)
    requires rects == Rects(s0) && Sized(s0) && PairsIn(order, |rects|)
    requires 0 <= p < |rects| && 0 <= c < |rects| && p != c
    requires bodies == ResolveAll(s0, order, penalty, transfer) && Rects(bodies) == rects && Sized(bodies)
    requires log == log0 + Events(rects, order)
    ensures PairsIn(order + [(p, c)], |rects|)
    ensures Resolve(bodies, p, c, penalty, transfer) == ResolveAll(s0, order + [(p, c)], penalty, transfer)
    ensures log + PairEvents(rects, p, c) == log0 + Events(rects, order + [(p, c)])
  {
    ResolveAppend(s0, order, p, c, penalty, transfer);
    EventsAppend(rects, order, p, c);
    LogAppend(log, log0, Events(rects, order), PairEvents(rects, p, c), Events(rects, order + [(p, c)]));
  }

  /** Appending to a log that extends log0 by e extends it by e + pe. */
  lemma LogAppend(log: seq<Contact>, log0: seq<Contact>, e: seq<Contact>, pe: seq<Contact>, e': seq<Contact>)
    requires log == log0 + e && e' == e + pe
    ensures log + pe == log0 + e'
  {
  }

  /** Nothing is examined before the outer loop starts. */
  lemma ScanStart(prox: seq<int>, s0: seq<Body>, d0: map<int, seq<int>>, rects: seq<Rect>, log0: seq<Contact>, penalty: real, transfer: real)
    requires Narrowing(prox, s0, d0, rects, log0, [], penalty, transfer, DynState(s0, d0, log0))
    ensures Scanned(prox, 0, s0, d0, rects, log0, [], penalty, transfer, DynState(s0, d0, log0))
  {
    AgreesInitially(d0, rects, prox);
  }

  /** Entering the inner loop of row i examines nothing. */
  lemma RowStart(prox: seq<int>, i: int, s0: seq<Body>, d0: map<int, seq<int>>, rects: seq<Rect>, log0: seq<Contact>, order: seq<(int, int)>,
                 penalty: real, transfer: real, st: DynState)
    requires Scanned(prox, i, s0, d0, rects, log0, order, penalty, transfer, st) && i < |prox|
    ensures Scanning(prox, i, 0, s0, d0, rects, log0, order, penalty, transfer, st)
  {
    SeenBeforeRow(st.d, d0, rects, prox, order, i, 0);
  }

  /** A checked position, or one holding prox[i] itself, examines nothing new. */
  lemma RowSkip(prox: seq<int>, i: int, j: int, s0: seq<Body>, d0: map<int, seq<int>>, rects: seq<Rect>, log0: seq<Contact>, order: seq<(int, int)>,
                penalty: real, transfer: real, st: DynState)
    requires Scanning(prox, i, j, s0, d0, rects, log0, order, penalty, transfer, st)
    requires j < |prox| && (j < i || prox[j] == prox[i])
    ensures Scanning(prox, i, j + 1, s0, d0, rects, log0, order, penalty, transfer, st)
  {
    ExamineSkip(st.d, d0, rects, prox, order, i, j);
  }

  /** Leaving the inner loop of row i finishes position i. */
  lemma RowFinish(prox: seq<int>, i: int, s0: seq<Body>, d0: map<int, seq<int>>, rects: seq<Rect>, log0: seq<Contact>, order: seq<(int, int)>,
                  penalty: real, transfer: real, st: DynState)
    requires Scanning(prox, i, |prox|, s0, d0, rects, log0, order, penalty, transfer, st)
    ensures Scanned(prox, i + 1, s0, d0, rects, log0, order, penalty, transfer, st)
  {
    RowDone(st.d, d0, rects, prox, order, i);
  }
}
