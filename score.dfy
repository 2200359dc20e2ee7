/** The score display (ScoreHUD): a per-frame scoring counter and the
    selection of a thousands exponent and its suffix letter for display. */
module Score {

  /** The three counters of a score display. */
  datatype Counters = Counters(frames: int, sinceLastScore: int, score: int)

  /** The points one scoring frame adds: one per frame, or one per 60
      frames survived once that is more. */
  function Increment(frames: int): (m: int)
    ensures m >= 1
    ensures frames >= 120 ==> m == frames / 60
  {
    if frames / 60 < 1 then 1 else frames / 60
  }

  /** The scoring step of one render. */
  function Step(c: Counters): (r: Counters)
    ensures r.frames == c.frames + 1
    ensures c.sinceLastScore >= 0 ==> r.sinceLastScore == 1
    ensures r.score >= c.score
    ensures c.sinceLastScore < 1 ==> r.score == c.score
    ensures c.sinceLastScore >= 1 ==> r.score - c.score == Increment(c.frames + 1)
  {
    var frames := c.frames + 1;
    if c.sinceLastScore >= 1 then Counters(frames, 1, c.score + Increment(frames))
    else Counters(frames, c.sinceLastScore + 1, c.score)
  }

  /** `n` renders in a row. */
  function Steps(c: Counters, n: nat): Counters
  {
    if n == 0 then c else Step(Steps(c, n - 1))
  }

  const Start: Counters := Counters(0, 0, 0)

  /** During the first 119 frames after a reset (about two seconds at 60
      frames per second), every render but the first scores exactly one point. */
  lemma {:induction false} OnePointPerFrame(n: nat)
    requires 1 <= n < 120
    ensures Steps(Start, n) == Counters(n, 1, n - 1)
  {
    if n > 1 {
      OnePointPerFrame(n - 1);
    }
  }

  /** Renders never lower the score. */
  lemma {:induction false} StepsNeverDecrease(c: Counters, n: nat)
    ensures Steps(c, n).score >= c.score
  {
    if n > 0 {
      StepsNeverDecrease(c, n - 1);
    }
  }

  function Pow10(i: nat): (p: int)
    ensures p >= 1
  {
    if i == 0 then 1 else 10 * Pow10(i - 1)
  }

  lemma Pow10Grows(i: nat, j: nat)
    requires i <= j
    ensures Pow10(i) <= Pow10(j)
  {
    if i < j {
      Pow10Grows(i, j - 1);
    }
  }

  /** The thousands exponent of a score: the largest of 12, 9, 6 and 3 whose
      power of ten the score exceeds, else 0. */
  function Exponent(score: int): (e: int)
    ensures e == 0 || e == 3 || e == 6 || e == 9 || e == 12
    ensures e > 0 ==> score > Pow10(e)
    ensures forall i: nat {:trigger Pow10(i)} :: i in {3, 6, 9, 12} && i > e ==> score <= Pow10(i)
  {
    if score > Pow10(12) then 12
    else if score > Pow10(9) then 9
    else if score > Pow10(6) then 6
    else if score > Pow10(3) then 3
    else 0
  }

  /** The displayed number for a score: the score divided by 10^Exponent. */
  function Mantissa(score: int): real
  {
    if Exponent(score) == 0 then score as real else score as real / Pow10(Exponent(score)) as real
  }

  lemma DivAbove(x: real, p: real)
    requires p > 0.0
    ensures x / p > 1.0 <==> x > p
  {
    if x / p > 1.0 {
      assert x == (x / p) * p;
    }
  }

  /** A quotient by a positive number is at most c when the dividend is at
      most c times the divisor. */
  lemma DivAtMost(x: real, p: real, c: real)
    requires p > 0.0 && x <= c * p
    ensures x / p <= c
  {
    assert (x / p) * p == x;
  }

  /** Below 10^15 a score with a suffix is shown with one to three digits
      before the point: 1 < Mantissa <= 1000. */
  lemma MantissaRange(score: int)
    requires Exponent(score) > 0 && score <= Pow10(15)
    ensures 1.0 < Mantissa(score) <= 1000.0
  {
    var e := Exponent(score);
    var p := Pow10(e);
    assert Pow10(e + 3) == 1000 * p by {
      assert Pow10(e + 3) == 10 * (10 * (10 * Pow10(e)));
    }
    if e < 12 {
      assert score <= Pow10(e + 3);
    } else {
      assert e + 3 == 15;
    }
    assert score <= 1000 * p;
    assert score as real <= 1000.0 * p as real;
    DivAbove(score as real, p as real);
    DivAtMost(score as real, p as real, 1000.0);
  }

  /** getTruncatedScore: try 10^12, 10^9, 10^6 and 10^3 in turn and stop at
      the first that the score exceeds. */
  method TruncatedScore(score: int) returns (value: real, id: int)
    ensures id == Exponent(score)
    ensures value == Mantissa(score)
  {
    value, id := score as real, 0;
    var i := 12;
    while i > 0
      invariant i == 0 || i == 3 || i == 6 || i == 9 || i == 12
      invariant forall k: nat {:trigger Pow10(k)} :: k in {3, 6, 9, 12} && k > i ==> score <= Pow10(k)
      invariant value == score as real && id == 0
    {
      var tmp := score as real / Pow10(i) as real;
      DivAbove(score as real, Pow10(i) as real);
      if tmp > 1.0 {
        value, id := tmp, i;
        break;
      }
      i := i - 3;
    }
  }

  /** getDecimalMultiplier: the suffix letter for a thousands exponent. */
  function DecimalMultiplier(pow: int): (s: string)
    ensures |s| <= 1
    ensures s == "" <==> !(3 <= pow <= 12)
  {
    if pow == 12 then "T"
    else if 9 <= pow <= 11 then "G"
    else if 6 <= pow <= 8 then "M"
    else if 3 <= pow <= 5 then "k"
    else ""
  }

  /** Distinct exponents of scores get distinct suffixes, and only scores
      above 1000 get one. */
  lemma SuffixIdentifiesExponent(a: int, b: int)
    ensures DecimalMultiplier(Exponent(a)) == DecimalMultiplier(Exponent(b)) <==> Exponent(a) == Exponent(b)
    ensures DecimalMultiplier(Exponent(a)) == "" <==> a <= 1000
  {
  }

  /** 726120728 is shown as 726.120728 with suffix "M". */
  lemma Example()
    ensures Exponent(726120728) == 6 && DecimalMultiplier(6) == "M"
    ensures Mantissa(726120728) == 726.120728
  {
    assert Pow10(6) == 1000000;
    assert Pow10(9) == 1000000000;
    assert Pow10(12) == 1000000000000;
  }

  /** The score display: the frame counters and the score. */
  class ScoreHud {
    var frames: int
    var sinceLastScore: int
    var score: int

    function State(): Counters
      reads this
    {
      Counters(frames, sinceLastScore, score)
    }

    /** A new display has every counter at zero. */
    constructor()
      ensures State() == Start
    {
      frames, sinceLastScore, score := 0, 0, 0;
    }

    /** reset: every counter back to zero. */
    method Reset()
      modifies this
      ensures State() == Start
    {
      frames, sinceLastScore, score := 0, 0, 0;
    }

    /** modify: add `delta` (possibly negative) to the score. */
    method Modify(delta: int)
      modifies this
      ensures score == old(score) + delta
      ensures frames == old(frames) && sinceLastScore == old(sinceLastScore)
    {
      score := score + delta;
    }

    /** value: the current score. */
    method Value() returns (v: int)
      ensures v == score
    {
      v := score;
    }

    /** render, without drawing: one scoring step, then the displayed number
        and suffix of the new score. */
    method Render() returns (value: real, suffix: string)
      modifies this
      ensures State() == Step(old(State()))
      ensures value == Mantissa(score) && suffix == DecimalMultiplier(Exponent(score))
    {
      frames := frames + 1;
      if sinceLastScore >= 1 {
        var mult := frames / 60;
        if mult < 1 {
          mult := 1;
        }
        score := score + mult;
        sinceLastScore := 0;
      }
      sinceLastScore := sinceLastScore + 1;
      var id;
      value, id := TruncatedScore(score);
      suffix := DecimalMultiplier(id);
    }
  }
}
