/** The pure arithmetic of PhysEngine: boundary reflection with a penalty,
    paired velocity exchange, the interval-overlap test and the broad-phase
    candidate list. Java floats are modelled as exact reals. */
module Collision {
  import opened Util

  function Abs(v: real): real { if v < 0.0 then -v else v }

  /** staticCollisionCalc: reverse the velocity, then move it toward zero by
      `penalty`, snapping to zero when it would cross zero. */
  function StaticCollisionCalc(velocity: real, penalty: real): (r: real)
    ensures penalty >= 0.0 ==> Abs(r) == (if Abs(velocity) <= penalty then 0.0 else Abs(velocity) - penalty)
    ensures penalty >= 0.0 ==> r * velocity <= 0.0
  {
    var v := -velocity;
    if Abs(v) <= penalty then 0.0
    else if v > 0.0 then v - penalty
    else if v < 0.0 then v + penalty
    else v
  }

  lemma StaticCalcNoPenalty(velocity: real)
    ensures StaticCollisionCalc(velocity, 0.0) == -velocity
  {
  }

  lemma StaticCalcNeverFaster(velocity: real, penalty: real)
    requires penalty >= 0.0
    ensures Abs(StaticCollisionCalc(velocity, penalty)) <= Abs(velocity)
    ensures Abs(velocity) > penalty ==> StaticCollisionCalc(velocity, penalty) == -velocity + (if velocity > 0.0 then penalty else -penalty)
  {
  }

  /** The two penalised reflections of dynamicCollisionCalc, after its
      same-sign rule: when both velocities have the same sign (zero counting
      as positive), the reflection that is not the larger one is negated back. */
  function Reflections(v1: real, v2: real, penalty: real): (m: (real, real))
    // Opposite signs: both bodies bounce.
    ensures !SameSign(v1, v2) ==> m == (StaticCollisionCalc(v1, penalty), StaticCollisionCalc(v2, penalty))
    // Same sign: the body with the larger signed velocity bounces, the other
    // keeps its direction with the penalised speed.
    ensures penalty >= 0.0 && SameSign(v1, v2) && v1 > v2 ==>
              m == (StaticCollisionCalc(v1, penalty), -StaticCollisionCalc(v2, penalty))
    ensures penalty >= 0.0 && SameSign(v1, v2) && v1 <= v2 ==>
              m == (-StaticCollisionCalc(v1, penalty), StaticCollisionCalc(v2, penalty))
  {
    var mv1 := StaticCollisionCalc(v1, penalty);
    var mv2 := StaticCollisionCalc(v2, penalty);
    if SameSign(v1, v2) then
      if mv2 > mv1 then (mv1, -mv2) else (-mv1, mv2)
    else (mv1, mv2)
  }

  /** Both velocities negative, or both zero or positive. */
  predicate SameSign(v1: real, v2: real)
  {
    (v1 < 0.0 && v2 < 0.0) || (v1 >= 0.0 && v2 >= 0.0)
  }

  /** Which body turns round when both move faster than the penalty in the
      same direction at different speeds: moving toward +, the faster one;
      moving toward -, the slower one (the faster one keeps going). */
  lemma ReflectionsDirection(v1: real, v2: real, penalty: real)
    requires penalty >= 0.0 && SameSign(v1, v2) && Abs(v1) > penalty && Abs(v2) > penalty && v1 != v2
    ensures var m := Reflections(v1, v2, penalty);
            && (v1 >= 0.0 && Abs(v1) > Abs(v2) ==> m.0 * v1 < 0.0 && m.1 * v2 > 0.0)
            && (v1 >= 0.0 && Abs(v1) < Abs(v2) ==> m.0 * v1 > 0.0 && m.1 * v2 < 0.0)
            && (v1 < 0.0 && Abs(v1) > Abs(v2) ==> m.0 * v1 > 0.0 && m.1 * v2 < 0.0)
            && (v1 < 0.0 && Abs(v1) < Abs(v2) ==> m.0 * v1 < 0.0 && m.1 * v2 > 0.0)
  {
    var s1, s2 := StaticCollisionCalc(v1, penalty), StaticCollisionCalc(v2, penalty);
    StaticCalcNeverFaster(v1, penalty);
    StaticCalcNeverFaster(v2, penalty);
    assert s1 * v1 < 0.0 && s2 * v2 < 0.0;
  }

  /** The rule stated beside the same-sign case (the faster body reverses,
      the slower keeps its direction) does not hold for two negative
      velocities: at -2 and -1 with no penalty the faster body keeps going. */
  lemma NegativeFasterKeepsDirection()
    ensures Reflections(-2.0, -1.0, 0.0) == (-2.0, 1.0)
  {
  }

  /** dynamicCollisionCalc: both reflections receive modifier * transfer * -mv2
      and modifier * transfer * -mv1. */
  function DynamicCollisionCalc(v1: real, v2: real, modifier: real, penalty: real, transfer: real): (r: (real, real))
  {
    var (mv1, mv2) := Reflections(v1, v2, penalty);
    var transfer1 := modifier * (transfer * -mv2);
    var transfer2 := modifier * (transfer * -mv1);
    (mv1 + transfer1 + transfer2, mv2 + transfer2 + transfer1)
  }

  /** Both bodies gain the same amount, so the difference of the reflected
      velocities is kept and their sum is scaled by 1 - 2 * modifier * transfer. */
  lemma DynamicCalcExchange(v1: real, v2: real, modifier: real, penalty: real, transfer: real)
    ensures var m := Reflections(v1, v2, penalty);
            var r := DynamicCollisionCalc(v1, v2, modifier, penalty, transfer);
            && r.0 - m.0 == r.1 - m.1 == -modifier * transfer * (m.0 + m.1)
            && r.0 - r.1 == m.0 - m.1
            && r.0 + r.1 == (1.0 - 2.0 * modifier * transfer) * (m.0 + m.1)
  {
  }

  lemma DynamicCalcNoTransfer(v1: real, v2: real, modifier: real, penalty: real, transfer: real)
    requires modifier == 0.0 || transfer == 0.0
    ensures DynamicCollisionCalc(v1, v2, modifier, penalty, transfer) == Reflections(v1, v2, penalty)
  {
    var m := Reflections(v1, v2, penalty);
    assert transfer * -m.1 == 0.0 || modifier == 0.0;
    assert modifier * (transfer * -m.1) == 0.0 && modifier * (transfer * -m.0) == 0.0;
  }

  /** colliding: the distance from the later start to the end of the
      interval that starts first, truncated, and negative when interval 1
      starts first; 0 when that end is not past the later start. When one
      interval contains the other this exceeds the intersection. The Java
      `(int)` cast is applied to a positive value, where it is Floor. */
  function Colliding(min1: real, max1: real, min2: real, max2: real): (r: int)
    ensures min1 < min2 ==> r <= 0 && (r != 0 <==> max1 - min2 >= 1.0)
    ensures min1 >= min2 ==> r >= 0 && (r != 0 <==> max2 - min1 >= 1.0)
    ensures min1 < min2 && max1 > min2 ==> (-r) as real <= max1 - min2 < (-r) as real + 1.0
    ensures min1 >= min2 && max2 > min1 ==> r as real <= max2 - min1 < r as real + 1.0
  {
    if min1 < min2 then
      if max1 > min2 then -((max1 - min2).Floor) else 0
    else
      if max2 > min1 then (max2 - min1).Floor else 0
  }

  lemma CollidingAntisymmetric(min1: real, max1: real, min2: real, max2: real)
    requires min1 != min2
    ensures Colliding(min1, max1, min2, max2) == -Colliding(min2, max2, min1, max1)
  {
  }

  lemma CollidingDisjoint(min1: real, max1: real, min2: real, max2: real)
    requires min1 < max1 && min2 < max2
    requires max1 <= min2 || max2 <= min1
    ensures Colliding(min1, max1, min2, max2) == 0
  {
  }

  /** The largest width, or 0 when every width is smaller (maxW starts at 0). */
  function MaxWidth(rects: seq<Rect>): (m: real)
    ensures m >= 0.0
    ensures forall k :: 0 <= k < |rects| ==> rects[k].Width() <= m
  {
    if rects == [] then 0.0
    else
      var rest := MaxWidth(rects[..|rects| - 1]);
      var w := rects[|rects| - 1].Width();
      if w > rest then w else rest
  }

  /** maxW is 0 or the width of one of the boxes. */
  lemma {:induction false} MaxWidthAttained(rects: seq<Rect>)
    ensures MaxWidth(rects) == 0.0 || exists k :: 0 <= k < |rects| && rects[k].Width() == MaxWidth(rects)
  {
    if rects != [] && MaxWidth(rects) != rects[|rects| - 1].Width() {
      var rest := rects[..|rects| - 1];
      MaxWidthAttained(rest);
      if MaxWidth(rects) != 0.0 {
        var k :| 0 <= k < |rest| && rest[k].Width() == MaxWidth(rest);
        assert rects[k] == rest[k];
      }
    }
  }

  /** One more box: maxW grows to its width when that is larger. */
  lemma MaxWidthStep(rects: seq<Rect>, i: int)
    requires 0 <= i < |rects|
    ensures MaxWidth(rects[..i + 1]) == if rects[i].Width() > MaxWidth(rects[..i]) then rects[i].Width() else MaxWidth(rects[..i])
  {
    assert rects[..i + 1][..i] == rects[..i];
  }

  function MinXs(rects: seq<Rect>): (xs: seq<real>)
    ensures |xs| == |rects|
    ensures forall k :: 0 <= k < |rects| ==> xs[k] == rects[k].minX
  {
    seq(|rects|, k requires 0 <= k < |rects| => rects[k].minX)
  }

  /** The copies of body `i` that the broad phase adds while scanning
      partners 0 .. j-1: one per partner whose minX is within `m`. */
  function ProxRow(xs: seq<real>, m: real, i: int, j: nat): (row: seq<int>)
    requires j <= |xs| && 0 <= i < |xs|
    ensures forall k :: 0 <= k < |row| ==> row[k] == i
  {
    if j == 0 then []
    else ProxRow(xs, m, i, j - 1) + (if Close(xs, m, i, j - 1) then [i] else [])
  }

  /** The broad-phase list `prox` after the outer loop has scanned bodies 0 .. i-1. */
  function Prox(xs: seq<real>, m: real, i: nat): seq<int>
    requires i <= |xs|
  {
    if i == 0 then [] else Prox(xs, m, i - 1) + ProxRow(xs, m, i - 1, |xs|)
  }

  /** Every entry of `prox` is a body already scanned. */
  lemma {:induction false} ProxRange(xs: seq<real>, m: real, i: nat)
    requires i <= |xs|
    ensures forall n :: 0 <= n < |Prox(xs, m, i)| ==> 0 <= Prox(xs, m, i)[n] < i
  {
    if i > 0 {
      ProxRange(xs, m, i - 1);
      var before, row := Prox(xs, m, i - 1), ProxRow(xs, m, i - 1, |xs|);
      assert Prox(xs, m, i) == before + row;
      forall n | 0 <= n < |before + row|
        ensures 0 <= (before + row)[n] < i
      {
        if n >= |before| {
          assert (before + row)[n] == row[n - |before|];
        }
      }
    }
  }

  predicate Close(xs: seq<real>, m: real, i: int, j: int)
    requires 0 <= i < |xs| && 0 <= j < |xs|
  {
    j != i && Abs(xs[i] - xs[j]) <= m
  }

  /** How many bodies among 0 .. j-1 are within `m` of body i (itself excluded). */
  function PartnerCount(xs: seq<real>, m: real, i: int, j: nat): nat
    requires 0 <= i < |xs| && j <= |xs|
  {
    if j == 0 then 0 else PartnerCount(xs, m, i, j - 1) + (if Close(xs, m, i, j - 1) then 1 else 0)
  }

  /** Some body among 0 .. j-1 is within `m` of body i iff the count is positive. */
  lemma {:induction false} PartnerCountPositive(xs: seq<real>, m: real, i: int, j: nat)
    requires 0 <= i < |xs| && j <= |xs|
    ensures PartnerCount(xs, m, i, j) > 0 <==> exists k :: 0 <= k < j && Close(xs, m, i, k)
  {
    if j > 0 {
      PartnerCountPositive(xs, m, i, j - 1);
      if exists k :: 0 <= k < j && Close(xs, m, i, k) {
        var k :| 0 <= k < j && Close(xs, m, i, k);
        assert k < j - 1 || Close(xs, m, i, j - 1);
      }
    }
  }

  /** The number of times x occurs in s. */
  function Occurrences(s: seq<int>, x: int): nat
  {
    if s == [] then 0 else Occurrences(s[..|s| - 1], x) + (if s[|s| - 1] == x then 1 else 0)
  }

  lemma {:induction false} OccurrencesAppend(a: seq<int>, b: seq<int>, x: int)
    ensures Occurrences(a + b, x) == Occurrences(a, x) + Occurrences(b, x)
  {
    if b != [] {
      assert (a + b)[..|a + b| - 1] == a + b[..|b| - 1];
      OccurrencesAppend(a, b[..|b| - 1], x);
    } else {
      assert a + b == a;
    }
  }

  lemma {:induction false} OccurrencesIn(s: seq<int>, x: int)
    ensures Occurrences(s, x) > 0 <==> x in s
  {
    if s != [] {
      OccurrencesIn(s[..|s| - 1], x);
      assert s == s[..|s| - 1] + [s[|s| - 1]];
    }
  }

  /** Row i holds body i once per partner and nothing else. */
  lemma {:induction false} RowOccurrences(xs: seq<real>, m: real, i: int, j: nat, k: int)
    requires 0 <= i < |xs| && j <= |xs| && 0 <= k < |xs|
    ensures Occurrences(ProxRow(xs, m, i, j), k) == if k == i then PartnerCount(xs, m, k, j) else 0
  {
    if j > 0 {
      RowOccurrences(xs, m, i, j - 1, k);
      var extra := if Close(xs, m, i, j - 1) then [i] else [];
      OccurrencesAppend(ProxRow(xs, m, i, j - 1), extra, k);
    }
  }

  lemma CountAppend(before: seq<int>, row: seq<int>, k: int, p: nat, i: int)
    requires Occurrences(before, k) == if k < i - 1 then p else 0
    requires Occurrences(row, k) == if k == i - 1 then p else 0
    ensures Occurrences(before + row, k) == if k < i then p else 0
  {
    OccurrencesAppend(before, row, k);
  }

  /** `prox` lists each body once per partner within `m`, in body order. */
  lemma {:induction false} ProxCount(xs: seq<real>, m: real, i: nat, k: int)
    requires i <= |xs| && 0 <= k < |xs|
    ensures Occurrences(Prox(xs, m, i), k) == if k < i then PartnerCount(xs, m, k, |xs|) else 0
  {
    if i > 0 {
      var before, row := Prox(xs, m, i - 1), ProxRow(xs, m, i - 1, |xs|);
      var p := PartnerCount(xs, m, k, |xs|);
      ProxCount(xs, m, i - 1, k);
      RowOccurrences(xs, m, i - 1, |xs|, k);
      assert Prox(xs, m, i) == before + row;
      CountAppend(before, row, k, p, i);
    }
  }

  lemma {:induction false} ProxSorted(xs: seq<real>, m: real, i: nat)
    requires i <= |xs|
    ensures forall a, b :: 0 <= a <= b < |Prox(xs, m, i)| ==> Prox(xs, m, i)[a] <= Prox(xs, m, i)[b]
  {
    if i > 0 {
      ProxSorted(xs, m, i - 1);
      ProxRange(xs, m, i - 1);
      var before, row := Prox(xs, m, i - 1), ProxRow(xs, m, i - 1, |xs|);
      assert Prox(xs, m, i) == before + row;
      forall a, b | 0 <= a <= b < |before + row|
        ensures (before + row)[a] <= (before + row)[b]
      {
        if b >= |before| {
          assert (before + row)[b] == row[b - |before|] == i - 1;
        }
      }
    }
  }

  lemma ProxMembership(xs: seq<real>, m: real, k: int)
    requires 0 <= k < |xs|
    ensures k in Prox(xs, m, |xs|) <==> exists j :: 0 <= j < |xs| && Close(xs, m, k, j)
  {
    ProxCount(xs, m, |xs|, k);
    OccurrencesIn(Prox(xs, m, |xs|), k);
    PartnerCountPositive(xs, m, k, |xs|);
  }

  /** The broad-phase candidates of a frame: `prox` for the frame's bounds. */
  function Candidates(rects: seq<Rect>): (prox: seq<int>)
    ensures forall q :: 0 <= q < |prox| ==> 0 <= prox[q] < |rects|
  {
    ProxRange(MinXs(rects), MaxWidth(rects), |rects|);
    Prox(MinXs(rects), MaxWidth(rects), |rects|)
  }

  /** No false negatives: two bodies whose X intervals collide (colliding is
      not 0) are within maxW of each other, so both are candidates. */
  lemma OverlapImpliesCandidates(rects: seq<Rect>, a: int, b: int)
    requires 0 <= a < |rects| && 0 <= b < |rects| && a != b
    requires Colliding(rects[a].minX, rects[a].maxX, rects[b].minX, rects[b].maxX) != 0
    ensures a in Candidates(rects) && b in Candidates(rects)
  {
    var xs, m := MinXs(rects), MaxWidth(rects);
    assert Abs(xs[a] - xs[b]) <= m;
    assert Close(xs, m, a, b) && Close(xs, m, b, a);
    ProxMembership(xs, m, a);
    ProxMembership(xs, m, b);
  }
}
