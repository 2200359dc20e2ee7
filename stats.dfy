/** The statistics display (StatsHUD): session and total death counters, the
    best stored score, and the two distinct taunt lines. The configuration
    file is abstracted to the values it yields: `None` stands for an entry
    that is missing or does not parse as a number. */
module Stats {
  import opened Util

  /** The persistence section of the configuration: the stored death total
      and the high-score table entries, in file order. */
  datatype Persistence = Persistence(deathTotal: Option<int>, highScores: Option<seq<Option<int>>>)

  /** The index of the first entry that fails to parse, or the length when
      every entry parses. */
  function FirstFailure(s: seq<Option<int>>): (r: nat)
    ensures r <= |s|
    ensures forall k :: 0 <= k < r ==> s[k].Some?
    ensures r < |s| ==> s[r].None?
  {
    if s == [] || s[0].None? then 0 else 1 + FirstFailure(s[1..])
  }

  /** The parsed values of a run of entries that all parse. */
  function Values(s: seq<Option<int>>): (v: seq<int>)
    requires forall k :: 0 <= k < |s| ==> s[k].Some?
    ensures |v| == |s| && forall k :: 0 <= k < |s| ==> s[k] == Some(v[k])
  {
    if s == [] then [] else Values(s[..|s| - 1]) + [s[|s| - 1].value]
  }

  /** The largest of 0 and the values. */
  function Max0(v: seq<int>): (m: int)
    ensures m >= 0
    ensures forall k :: 0 <= k < |v| ==> v[k] <= m
    ensures m == 0 || m in v
  {
    if v == [] then 0
    else
      var m := Max0(v[..|v| - 1]);
      if v[|v| - 1] > m then v[|v| - 1] else m
  }

  /** The high score read from a table: the largest of 0 and the entries
      before the first one that fails to parse. */
  function ScanHighScore(s: seq<Option<int>>): int
  {
    Max0(Values(s[..FirstFailure(s)]))
  }

  /** A table that parses entirely yields its largest entry (or 0). */
  lemma HighScoreOfParsedTable(s: seq<Option<int>>)
    requires forall k :: 0 <= k < |s| ==> s[k].Some?
    ensures ScanHighScore(s) >= 0
    ensures forall k :: 0 <= k < |s| ==> s[k].value <= ScanHighScore(s)
    ensures ScanHighScore(s) == 0 || exists k :: 0 <= k < |s| && s[k] == Some(ScanHighScore(s))
  {
    assert s[..FirstFailure(s)] == s;
    var v := Values(s);
    if ScanHighScore(s) != 0 {
      var k :| 0 <= k < |v| && v[k] == ScanHighScore(s);
      assert s[k] == Some(ScanHighScore(s));
    }
  }

  /** Entries after a parse failure do not count. */
  lemma HighScoreStopsAtFailure(s: seq<Option<int>>, rest: seq<Option<int>>, k: nat)
    requires k < |s| && s[k].None? && forall j :: 0 <= j < k ==> s[j].Some?
    ensures ScanHighScore(s + rest) == ScanHighScore(s[..k])
  {
    var t := s + rest;
    assert forall j :: 0 <= j <= k ==> t[j] == s[j];
    assert FirstFailure(t) == k;
    assert FirstFailure(s[..k]) == k;
    assert t[..k] == s[..k][..k];
  }

  /** The do-while of the constructor: draw a second taunt index until it
      differs from the first. `rolls` are the random draws in order; the
      first is the first taunt. Returns both indices and how many draws
      were used. */
  method PickTaunts(rolls: seq<int>) returns (gen: int, gen2: int, used: nat)
    requires exists k :: 1 <= k < |rolls| && rolls[k] != rolls[0]
    ensures 2 <= used <= |rolls|
    ensures gen == rolls[0] && gen2 == rolls[used - 1] && gen != gen2
    ensures forall j :: 1 <= j < used - 1 ==> rolls[j] == gen
  {
    gen := rolls[0];
    used := 1;
    gen2 := rolls[used];
    used := used + 1;
    while gen2 == gen
      invariant 2 <= used <= |rolls| && gen2 == rolls[used - 1]
      invariant forall j :: 1 <= j < used - 1 ==> rolls[j] == gen
      invariant gen2 == gen ==> exists k :: used <= k < |rolls| && rolls[k] != gen
      decreases |rolls| - used
    {
      gen2 := rolls[used];
      used := used + 1;
    }
  }

  class StatsHud {
    var sessionDeaths: int
    var totalDeaths: int
    var highScore: int
    /** The taunt indices for the session and total death lines. */
    var taunt1: int
    var taunt2: int

    /** A new display starts with zero counters, picks two distinct taunts
        and then reads the configuration. */
    constructor(config: Option<Persistence>, rolls: seq<int>)
      requires exists k :: 1 <= k < |rolls| && rolls[k] != rolls[0]
      ensures sessionDeaths == 0 && taunt1 != taunt2
      ensures config.None? || config.value.deathTotal.None? ==> totalDeaths == 0 && highScore == 0
    {
      var gen, gen2, used := PickTaunts(rolls);
      sessionDeaths, totalDeaths, highScore := 0, 0, 0;
      taunt1, taunt2 := gen, gen2;
      new;
      UpdateStatsFromCfg(config);
    }

    /** countSessionDeath: one more death in both counters. */
    method CountSessionDeath()
      modifies this
      ensures sessionDeaths == old(sessionDeaths) + 1 && totalDeaths == old(totalDeaths) + 1
      ensures highScore == old(highScore) && taunt1 == old(taunt1) && taunt2 == old(taunt2)
    {
      sessionDeaths := sessionDeaths + 1;
      totalDeaths := totalDeaths + 1;
    }

    method GetSessionDeaths() returns (r: int)
      ensures r == sessionDeaths
    {
      r := sessionDeaths;
    }

    method GetTotalDeaths() returns (r: int)
      ensures r == totalDeaths
    {
      r := totalDeaths;
    }

    /** resetSessionDeaths: the session counter restarts; the total is kept. */
    method ResetSessionDeaths()
      modifies this
      ensures sessionDeaths == 0
      ensures totalDeaths == old(totalDeaths) && highScore == old(highScore)
      ensures taunt1 == old(taunt1) && taunt2 == old(taunt2)
    {
      sessionDeaths := 0;
    }

    /** updateStatsFromCfg: without a configuration or a readable death
        total nothing changes. Otherwise the total becomes the stored total
        plus this session's deaths, and the high score the largest stored
        score read before the first entry that fails (0 when the table
        itself is missing). */
    method UpdateStatsFromCfg(config: Option<Persistence>)
      modifies this
      ensures sessionDeaths == old(sessionDeaths) && taunt1 == old(taunt1) && taunt2 == old(taunt2)
      ensures config.None? || config.value.deathTotal.None? ==>
                totalDeaths == old(totalDeaths) && highScore == old(highScore)
      ensures config.Some? && config.value.deathTotal.Some? ==>
                && totalDeaths == config.value.deathTotal.value + sessionDeaths
                && highScore == (if config.value.highScores.None? then 0 else ScanHighScore(config.value.highScores.value))
    {
      if config.None? {
        return;
      }
      match config.value.deathTotal {
        case None =>
          return;
        case Some(total) =>
          totalDeaths := total;
          totalDeaths := totalDeaths + sessionDeaths;
      }
      highScore := 0;
      if config.value.highScores.None? {
        return;
      }
      var values := config.value.highScores.value;
      var i := 0;
      while i < |values|
        invariant 0 <= i <= FirstFailure(values)
        invariant highScore == Max0(Values(values[..i]))
        invariant sessionDeaths == old(sessionDeaths) && taunt1 == old(taunt1) && taunt2 == old(taunt2)
        invariant totalDeaths == config.value.deathTotal.value + sessionDeaths
      {
        if values[i].None? {
          break;
        }
        var v := values[i].value;
        assert values[..i + 1][..i] == values[..i];
        if v > highScore {
          highScore := v;
        }
        i := i + 1;
      }
      assert i == FirstFailure(values);
    }
  }
}
