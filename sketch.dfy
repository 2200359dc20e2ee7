/** The game-logic pieces of the main sketch (SketchMain): the high-score
    table update after a death, the player's keyboard acceleration and
    friction, the spawn layout of a new round, steering one body toward
    another, and the record of held keys. */
module Sketch {
  import opened Util
  import opened Bodies

  datatype UiState = Idle | MainMenu | Options | InGame | GameOver

  /** Key codes of the movement keys (their upper-case character codes). */
  const KeyA: int := 'A' as int
  const KeyD: int := 'D' as int
  const KeyW: int := 'W' as int
  const KeyS: int := 'S' as int

  const AiStartOffset: real := 100.0
  const PlayerSlowdown: real := 0.05
  const PlayerAccel: real := 0.30

  // ---------------------------------------------------------------------
  // High-score table

  predicate Ascending(s: seq<ScorePair>)
  {
    forall i, j :: 0 <= i < j < |s| ==> s[i].key <= s[j].key
  }

  /** Insert `x` into an ascending list after every entry whose key is not
      larger, so that it follows the equal keys that came before it. */
  function Insert(x: ScorePair, s: seq<ScorePair>): (r: seq<ScorePair>)
    requires Ascending(s)
    ensures Ascending(r) && |r| == |s| + 1
    ensures multiset(r) == multiset(s) + multiset{x}
    ensures forall i :: 0 <= i < |r| ==> r[i] in s || r[i] == x
  {
    if s == [] || s[|s| - 1].key <= x.key then s + [x]
    else
      var t, last := s[..|s| - 1], s[|s| - 1];
      assert s == t + [last];
      var r := Insert(x, t);
      InsertBefore(x, t, last, r);
      r + [last]
  }

  /** Inserting below the last entry: the entry stays last. */
  lemma InsertBefore(x: ScorePair, t: seq<ScorePair>, last: ScorePair, r: seq<ScorePair>)
    requires Ascending(t + [last]) && x.key < last.key
    requires Ascending(r) && multiset(r) == multiset(t) + multiset{x}
    requires forall i :: 0 <= i < |r| ==> r[i] in t || r[i] == x
    ensures Ascending(r + [last])
    ensures multiset(r + [last]) == multiset(t + [last]) + multiset{x}
    ensures forall i :: 0 <= i < |r + [last]| ==> (r + [last])[i] in t + [last] || (r + [last])[i] == x
  {
    forall i | 0 <= i < |r|
      ensures r[i].key <= last.key
    {
      if r[i] in t {
        var j :| 0 <= j < |t| && t[j] == r[i];
        assert (t + [last])[j] == r[i] && (t + [last])[|t|] == last;
      }
    }
  }

  /** The list sorted by key, stably (as Java's List.sort with a key
      comparator): an insertion sort. */
  function SortByKey(s: seq<ScorePair>): (r: seq<ScorePair>)
    ensures Ascending(r) && |r| == |s|
    ensures multiset(r) == multiset(s)
  {
    if s == [] then []
    else
      var t := s[..|s| - 1];
      assert s == t + [s[|s| - 1]];
      Insert(s[|s| - 1], SortByKey(t))
  }

  /** The entries of `s` whose score is `k`, in their order in `s`. */
  function WithKey(s: seq<ScorePair>, k: int): seq<ScorePair>
  {
    if s == [] then []
    else WithKey(s[..|s| - 1], k) + (if s[|s| - 1].key == k then [s[|s| - 1]] else [])
  }

  /** Appending one entry appends it to its own score's entries only. */
  lemma WithKeySnoc(r: seq<ScorePair>, e: ScorePair, k: int)
    ensures WithKey(r + [e], k) == WithKey(r, k) + (if e.key == k then [e] else [])
  {
    assert (r + [e])[..|r|] == r;
  }

  /** Two appended pieces of which one is empty commute. */
  lemma SwapSingles(w: seq<ScorePair>, a: seq<ScorePair>, b: seq<ScorePair>)
    requires a == [] || b == []
    ensures (w + a) + b == (w + b) + a
  {
    if a == [] {
      assert w + a == w;
    } else {
      assert w + b == w;
    }
  }

  /** Inserting `x` puts it after the entries with its own score and leaves
      the order of every other score's entries alone. */
  lemma {:induction false} InsertWithKey(x: ScorePair, s: seq<ScorePair>, k: int)
    requires Ascending(s)
    ensures WithKey(Insert(x, s), k) == WithKey(s, k) + (if x.key == k then [x] else [])
    decreases |s|
  {
    if s == [] || s[|s| - 1].key <= x.key {
      WithKeySnoc(s, x, k);
    } else {
      var t, last := s[..|s| - 1], s[|s| - 1];
      assert s == t + [last];
      InsertWithKey(x, t, k);
      WithKeySnoc(Insert(x, t), last, k);
      WithKeySnoc(t, last, k);
      var xk: seq<ScorePair> := if x.key == k then [x] else [];
      var lk: seq<ScorePair> := if last.key == k then [last] else [];
      assert Insert(x, s) == Insert(x, t) + [last];
      assert WithKey(Insert(x, s), k) == (WithKey(t, k) + xk) + lk;
      // x has a smaller score than last, so at most one of them has score k
      // and the two pieces can be appended in either order.
      SwapSingles(WithKey(t, k), xk, lk);
    }
  }

  /** The sort is stable: entries with equal scores keep their input order,
      so each name stays paired as List.sort leaves it. */
  lemma {:induction false} SortByKeyStable(s: seq<ScorePair>, k: int)
    ensures WithKey(SortByKey(s), k) == WithKey(s, k)
    decreases |s|
  {
    if s != [] {
      var t := s[..|s| - 1];
      assert s == t + [s[|s| - 1]];
      SortByKeyStable(t, k);
      InsertWithKey(s[|s| - 1], SortByKey(t), k);
    }
  }

  /** The table after the update: the sorted entries from the largest key
      down, without the smallest one. */
  function Top(v: seq<ScorePair>): (t: seq<ScorePair>)
    requires |v| >= 1
    ensures |t| == |v| - 1
  {
    HighestFirst(SortByKey(v))
  }

  /** A sorted list from its last entry down, without its first. */
  function HighestFirst(sorted: seq<ScorePair>): (t: seq<ScorePair>)
    requires |sorted| >= 1
    ensures |t| == |sorted| - 1
    ensures forall j :: 0 <= j < |t| ==> t[j] == sorted[|sorted| - 1 - j]
  {
    seq(|sorted| - 1, j requires 0 <= j < |sorted| - 1 => sorted[|sorted| - 1 - j])
  }

  /** The new table is in descending order of score. */
  lemma TopDescending(v: seq<ScorePair>)
    requires |v| >= 1
    ensures forall j, k :: 0 <= j < k < |Top(v)| ==> Top(v)[j].key >= Top(v)[k].key
  {
    var sorted := SortByKey(v);
    forall j, k | 0 <= j < k < |Top(v)|
      ensures Top(v)[j].key >= Top(v)[k].key
    {
      assert Top(v)[j] == sorted[|v| - 1 - j] && Top(v)[k] == sorted[|v| - 1 - k];
    }
  }

  /** The new table holds every old entry and the new one except a single
      entry whose score is no larger than any other: the largest |v| - 1
      entries, with each name kept beside its score. */
  lemma TopDropsSmallest(v: seq<ScorePair>)
    requires |v| >= 1
    ensures exists d :: d in v && multiset(Top(v)) + multiset{d} == multiset(v) && forall e :: e in v ==> d.key <= e.key
  {
    var sorted := SortByKey(v);
    DropsFirst(v, sorted, Top(v));
  }

  /** Reversing an ascending permutation of `v` without its first entry
      drops one entry of `v` with the smallest key. */
  lemma DropsFirst(v: seq<ScorePair>, sorted: seq<ScorePair>, top: seq<ScorePair>)
    requires Ascending(sorted) && |sorted| >= 1 && multiset(sorted) == multiset(v)
    requires |top| == |sorted| - 1 && forall j :: 0 <= j < |top| ==> top[j] == sorted[|sorted| - 1 - j]
    ensures sorted[0] in v && multiset(top) + multiset{sorted[0]} == multiset(v)
    ensures forall e :: e in v ==> sorted[0].key <= e.key
  {
    var d := sorted[0];
    var rest := sorted[1..];
    assert sorted == [d] + rest;
    ReverseMultiset(rest, top);
    FirstIsSmallest(sorted);
    forall e | e in v
      ensures d.key <= e.key
    {
      assert e in multiset(v);
    }
    assert d in multiset(v);
  }

  /** The first entry of an ascending list has the smallest key. */
  lemma FirstIsSmallest(s: seq<ScorePair>)
    requires Ascending(s) && |s| >= 1
    ensures forall e :: e in multiset(s) ==> s[0].key <= e.key
  {
    forall e | e in multiset(s)
      ensures s[0].key <= e.key
    {
      assert e in s;
      var k :| 0 <= k < |s| && s[k] == e;
    }
  }

  lemma ReverseMultiset(s: seq<ScorePair>, r: seq<ScorePair>)
    requires |r| == |s| && forall j :: 0 <= j < |r| ==> r[j] == s[|s| - 1 - j]
    ensures multiset(r) == multiset(s)
    decreases |s|
  {
    if s != [] {
      var n := |s|;
      ReverseMultiset(s[1..], r[..n - 1]);
      assert s == [s[0]] + s[1..];
      assert r == r[..n - 1] + [s[0]];
    }
  }

  /** Every stored score parses. */
  predicate AllParsed(scores: seq<Option<int>>)
  {
    forall i :: 0 <= i < |scores| ==> scores[i].Some?
  }

  /** The entries the update sorts: the stored (score, name) pairs in table
      order, then the round just finished, named "N/A" when no name was
      entered. */
  function Entries(scores: seq<Option<int>>, names: seq<string>, current: int, name: Option<string>): (v: seq<ScorePair>)
    requires AllParsed(scores) && |names| >= |scores|
    ensures |v| == |scores| + 1
  {
    seq(|scores|, i requires 0 <= i < |scores| => ScorePair(scores[i].value, names[i]))
      + [ScorePair(current, if name.Some? then name.value else "N/A")]
  }

  function Keys(t: seq<ScorePair>): (k: seq<Option<int>>)
    ensures |k| == |t| && forall i :: 0 <= i < |t| ==> k[i] == Some(t[i].key)
  {
    seq(|t|, i requires 0 <= i < |t| => Some(t[i].key))
  }

  function Names(t: seq<ScorePair>): (n: seq<string>)
    ensures |n| == |t| && forall i :: 0 <= i < |t| ==> n[i] == t[i].value
  {
    seq(|t|, i requires 0 <= i < |t| => t[i].value)
  }

  /** How the parsing loop of highScoreCalc ends: with the entries, at a
      stored score that does not parse (the caught NumberFormatException),
      or at a score with no name slot beside it (an
      ArrayIndexOutOfBoundsException, which nothing catches). */
  datatype ReadOutcome = Read(entries: seq<ScorePair>) | BadNumber | MissingName

  /** The first position from `i` on where the loop stops: a score that
      does not parse, or one at or past the end of `m` names. */
  function ReadStop(scores: seq<Option<int>>, m: nat, i: nat): (k: nat)
    requires i <= |scores|
    ensures i <= k <= |scores|
    ensures forall j :: i <= j < k ==> scores[j].Some?
    ensures i < k ==> k <= m
    ensures k < |scores| ==> scores[k].None? || k >= m
    decreases |scores| - i
  {
    if i == |scores| || i >= m || !scores[i].Some? then i
    else
      ReadStop(scores, m, i + 1)
  }

  /** The outcome of the parsing loop. Each score is parsed before its name
      is read, so a bad score at the first missing name slot is a
      BadNumber. */
  function ReadResult(scores: seq<Option<int>>, names: seq<string>, current: int, name: Option<string>): (o: ReadOutcome)
    ensures o.Read? <==> AllParsed(scores) && |names| >= |scores|
    ensures o.Read? ==> o.entries == Entries(scores, names, current, name)
    ensures o.MissingName? <==> |names| < |scores| && forall j :: 0 <= j <= |names| ==> scores[j].Some?
    ensures o.BadNumber? <==>
              exists k :: 0 <= k < |scores| && k <= |names| && scores[k].None? && forall j :: 0 <= j < k ==> scores[j].Some?
  {
    var k := ReadStop(scores, |names|, 0);
    if k == |scores| then
      assert |scores| > 0 ==> scores[|scores| - 1].Some? && |scores| - 1 < |names|;
      Read(Entries(scores, names, current, name))
    else if scores[k].None? then
      assert k > 0 ==> scores[k - 1].Some? && k - 1 < |names|;
      BadNumber
    else
      assert scores[|names|].Some?;
      MissingName
  }

  // ---------------------------------------------------------------------
  // Movement

  function Abs(v: real): real { if v < 0.0 then -v else v }

  /** The friction of one axis with neither of its keys held. */
  function Friction(v: real): (r: real)
    ensures Abs(v) < PlayerSlowdown ==> r == 0.0
    ensures Abs(v) >= PlayerSlowdown ==> Abs(r) == Abs(v) - PlayerSlowdown
    ensures r * v >= 0.0
  {
    if Abs(v) < PlayerSlowdown then 0.0
    else if v < 0.0 then v - -PlayerSlowdown
    else v - PlayerSlowdown
  }

  /** Friction brings any velocity to rest: after enough frames it is 0. */
  lemma {:induction false} FrictionStops(v: real, k: nat)
    requires Abs(v) < (k + 1) as real * PlayerSlowdown
    ensures FrictionTimes(v, k + 1) == 0.0
    decreases k
  {
    if k > 0 {
      if Abs(v) < PlayerSlowdown {
        assert Friction(v) == 0.0;
        ZeroStays(k);
      } else {
        assert Abs(Friction(v)) < k as real * PlayerSlowdown;
        FrictionStops(Friction(v), k - 1);
      }
    }
  }

  lemma {:induction false} ZeroStays(k: nat)
    ensures FrictionTimes(0.0, k) == 0.0
  {
    if k > 0 {
      ZeroStays(k - 1);
    }
  }

  /** `k` frames of friction. */
  function FrictionTimes(v: real, k: nat): real
    decreases k
  {
    if k == 0 then v else FrictionTimes(Friction(v), k - 1)
  }

  /** Where AI body `i` spawns: alternately at the left and right edge, and
      pair by pair alternately near the top and near the bottom (SpawnPairs
      gives the heights). */
  function SpawnPoint(i: nat, width: real, height: real): Vec
  {
    Vec(if (i + 1) % 2 == 0 then width - AiStartOffset else AiStartOffset,
        if ((i + 2) / 2) % 2 == 0 then height - (i / 2) as real * AiStartOffset
        else ((i + 2) / 2) as real * AiStartOffset)
  }

  /** Bodies 2p and 2p+1 spawn at the same height on mirrored sides; even
      pairs sit (p+1) offsets below the top, odd pairs p offsets above the
      bottom. */
  lemma SpawnPairs(p: nat, width: real, height: real)
    ensures SpawnPoint(2 * p, width, height).x == AiStartOffset
    ensures SpawnPoint(2 * p + 1, width, height).x == width - AiStartOffset
    ensures SpawnPoint(2 * p, width, height).y == SpawnPoint(2 * p + 1, width, height).y
    ensures p % 2 == 0 ==> SpawnPoint(2 * p, width, height).y == (p + 1) as real * AiStartOffset
    ensures p % 2 == 1 ==> SpawnPoint(2 * p, width, height).y == height - p as real * AiStartOffset
  {
    assert (2 * p + 2) / 2 == p + 1;
    assert (2 * p + 3) / 2 == p + 1;
    assert (2 * p) / 2 == p && (2 * p + 1) / 2 == p;
    assert (2 * p + 1) % 2 == 1 && (2 * p + 2) % 2 == 0;
  }

  /** A body of the sketch: one of the AI bodies or the player. */
  datatype BodyRef = Ai(index: nat) | PlayerBody

  class SketchMain {
    var ais: seq<Body>
    var player: Body
    var pressedKeys: map<int, bool>
    var lastHsName: Option<string>
    var state: UiState
    var framesSinceBoost: int

    constructor(ais: seq<Body>, player: Body)
      ensures this.ais == ais && this.player == player
      ensures pressedKeys == map[] && lastHsName == None && state == Idle && framesSinceBoost == 0
    {
      this.ais, this.player := ais, player;
      pressedKeys, lastHsName, state, framesSinceBoost := map[], None, Idle, 0;
    }

    /** keyHeld: the key has been recorded and its last event was a press. */
    predicate KeyHeld(keyCode: int)
      reads this
    {
      keyCode in pressedKeys && pressedKeys[keyCode]
    }

    /** keyPressed, without the dispatch to the current menu. */
    method KeyPressed(keyCode: int)
      modifies this
      ensures pressedKeys == old(pressedKeys)[keyCode := true]
      ensures KeyHeld(keyCode) && forall k :: k != keyCode ==> KeyHeld(k) == old(KeyHeld(k))
      ensures ais == old(ais) && player == old(player) && state == old(state)
      ensures lastHsName == old(lastHsName) && framesSinceBoost == old(framesSinceBoost)
    {
      pressedKeys := pressedKeys[keyCode := true];
    }

    /** keyReleased, without the dispatch to the current menu. */
    method KeyReleased(keyCode: int)
      modifies this
      ensures pressedKeys == old(pressedKeys)[keyCode := false]
      ensures !KeyHeld(keyCode) && keyCode in pressedKeys && forall k :: k != keyCode ==> KeyHeld(k) == old(KeyHeld(k))
      ensures ais == old(ais) && player == old(player) && state == old(state)
      ensures lastHsName == old(lastHsName) && framesSinceBoost == old(framesSinceBoost)
    {
      pressedKeys := pressedKeys[keyCode := false];
    }

    /** The synthetic release events highScoreCalc sends for every recorded
        key, each handled as keyReleased (menu dispatch left out): every
        recorded key becomes released. The result does not depend on the
        order the keys are visited in, so the walk is one map update. */
    method ReleaseAll()
      modifies this
      ensures pressedKeys.Keys == old(pressedKeys).Keys
      ensures forall k :: k in pressedKeys ==> !KeyHeld(k)
      ensures ais == old(ais) && player == old(player) && state == old(state)
      ensures lastHsName == old(lastHsName) && framesSinceBoost == old(framesSinceBoost)
    {
      pressedKeys := map k | k in pressedKeys :: false;
    }

    /** getKeyCombo: walk the codes in order; a recorded release answers
        false, an unrecorded key fails (None, a null unboxing in the
        source), and true when every code is recorded as held. */
    method GetKeyCombo(keyCodes: seq<int>) returns (r: Option<bool>)
      ensures r == Some(true) <==> forall i :: 0 <= i < |keyCodes| ==> KeyHeld(keyCodes[i])
      ensures r.None? <==> exists i :: 0 <= i < |keyCodes| && keyCodes[i] !in pressedKeys
                             && forall j :: 0 <= j < i ==> KeyHeld(keyCodes[j])
    {
      var i := 0;
      while i < |keyCodes|
        invariant 0 <= i <= |keyCodes|
        invariant forall j :: 0 <= j < i ==> KeyHeld(keyCodes[j])
      {
        var k := keyCodes[i];
        if k !in pressedKeys {
          return None;
        }
        if !pressedKeys[k] {
          return Some(false);
        }
        i := i + 1;
      }
      return Some(true);
    }

    /** playerInput: per axis, the first held key of the pair accelerates
        the player ('A' before 'D', 'W' before 'S'); with neither held the
        axis slows by friction. */
    method PlayerInput()
      modifies this
      ensures player == old(player).(velocity := Vec(
                if KeyHeld(KeyA) then old(player).velocity.x + -PlayerAccel
                else if KeyHeld(KeyD) then old(player).velocity.x + PlayerAccel
                else Friction(old(player).velocity.x),
                if KeyHeld(KeyW) then old(player).velocity.y + -PlayerAccel
                else if KeyHeld(KeyS) then old(player).velocity.y + PlayerAccel
                else Friction(old(player).velocity.y)))
      ensures ais == old(ais) && pressedKeys == old(pressedKeys) && state == old(state)
      ensures lastHsName == old(lastHsName) && framesSinceBoost == old(framesSinceBoost)
    {
      var vx := player.velocity.x;
      if KeyHeld(KeyA) {
        vx := vx + -PlayerAccel;
      } else if KeyHeld(KeyD) {
        vx := vx + PlayerAccel;
      } else {
        if Abs(vx) < PlayerSlowdown {
          vx := 0.0;
        } else if vx < 0.0 {
          vx := vx - -PlayerSlowdown;
        } else {
          vx := vx - PlayerSlowdown;
        }
      }
      var vy := player.velocity.y;
      if KeyHeld(KeyW) {
        vy := vy + -PlayerAccel;
      } else if KeyHeld(KeyS) {
        vy := vy + PlayerAccel;
      } else {
        if Abs(vy) < PlayerSlowdown {
          vy := 0.0;
        } else if vy < 0.0 {
          vy := vy - -PlayerSlowdown;
        } else {
          vy := vy - PlayerSlowdown;
        }
      }
      player := player.(velocity := Vec(vx, vy));
    }

    /** setScene, for an arena of this size: every AI body stops and moves
        to its spawn point, the player stops at the centre, the boost timer
        restarts and the game-over screen is shown. */
    method SetScene(width: real, height: real)
      modifies this
      ensures |ais| == |old(ais)|
      ensures forall i :: 0 <= i < |ais| ==>
                ais[i] == old(ais)[i].(velocity := Vec(0.0, 0.0), coords := SpawnPoint(i, width, height))
      ensures player == old(player).(velocity := Vec(0.0, 0.0), coords := Vec(width / 2.0, height / 2.0))
      ensures state == GameOver && framesSinceBoost == 0
      ensures pressedKeys == old(pressedKeys) && lastHsName == old(lastHsName)
    {
      framesSinceBoost := 0;
      var i := 0;
      while i < |ais|
        invariant 0 <= i <= |ais| && |ais| == |old(ais)|
        invariant forall j :: 0 <= j < i ==>
                    ais[j] == old(ais)[j].(velocity := Vec(0.0, 0.0), coords := SpawnPoint(j, width, height))
        invariant forall j :: i <= j < |ais| ==> ais[j] == old(ais)[j]
        invariant player == old(player) && framesSinceBoost == 0
        invariant pressedKeys == old(pressedKeys) && lastHsName == old(lastHsName)
      {
        var gp := ais[i];
        gp := gp.(velocity := Vec(0.0, gp.velocity.y));
        gp := gp.(velocity := Vec(gp.velocity.x, 0.0));
        var x := if (i + 1) % 2 == 0 then width - AiStartOffset else AiStartOffset;
        var y := if ((i + 2) / 2) % 2 == 0 then height - (i / 2) as real * AiStartOffset else ((i + 2) / 2) as real * AiStartOffset;
        gp := gp.(coords := Vec(x, y));
        ais := ais[i := gp];
        i := i + 1;
      }
      player := player.(velocity := Vec(0.0, 0.0), coords := Vec(width / 2.0, height / 2.0));
      state := GameOver;
    }

    /** track: push `tracker` toward `tracked` by `force` along `unit`, the
        normalised direction between them; a body never tracks itself. */
    method Track(tracker: BodyRef, tracked: BodyRef, force: real, unit: Vec)
      requires tracker.Ai? ==> tracker.index < |ais|
      modifies this
      ensures |ais| == |old(ais)|
      ensures tracker == tracked ==> ais == old(ais) && player == old(player)
      ensures tracker != tracked && tracker.Ai? ==>
                ais[tracker.index] == old(ais[tracker.index]).(velocity := old(ais[tracker.index]).velocity.Plus(Vec(force * unit.x, force * unit.y)))
      ensures tracker != tracked && tracker == PlayerBody ==>
                player == old(player).(velocity := old(player).velocity.Plus(Vec(force * unit.x, force * unit.y)))
      ensures forall i :: 0 <= i < |ais| && tracker != Ai(i) ==> ais[i] == old(ais)[i]
      ensures tracker != PlayerBody ==> player == old(player)
      ensures forall i :: 0 <= i < |ais| ==> ais[i].coords == old(ais)[i].coords
      ensures player.coords == old(player).coords
      ensures pressedKeys == old(pressedKeys) && state == old(state)
      ensures lastHsName == old(lastHsName) && framesSinceBoost == old(framesSinceBoost)
    {
      if tracker == tracked {
        return;
      }
      var fX := force * unit.x;
      var fY := force * unit.y;
      if tracker.Ai? {
        var p := ais[tracker.index];
        ais := ais[tracker.index := p.(velocity := Vec(p.velocity.x + fX, p.velocity.y + fY))];
      } else {
        player := player.(velocity := Vec(player.velocity.x + fX, player.velocity.y + fY));
      }
    }

    /** highScoreCalc after the name dialog: remember the entered name and
        release the keys; if every stored score parses and has a name, sort
        the stored entries and this round's by score and write back all but
        the lowest, highest first, names beside their scores (the names are
        written at the end of their list). If a score fails to parse the
        table is left as it was; if a name is missing the exception escapes
        (`escaped`), also before anything is written. */
    method HighScoreCalc(scores: array<Option<int>>, names: array<string>, current: int, name: Option<string>)
      returns (escaped: bool)
      modifies this, scores, names
      ensures lastHsName == (if name.Some? then name else old(lastHsName))
      ensures pressedKeys.Keys == old(pressedKeys).Keys && forall k :: k in pressedKeys ==> !KeyHeld(k)
      ensures escaped <==> ReadResult(old(scores[..]), old(names[..]), current, name).MissingName?
      ensures !ReadResult(old(scores[..]), old(names[..]), current, name).Read? ==>
                scores[..] == old(scores[..]) && names[..] == old(names[..])
      ensures ReadResult(old(scores[..]), old(names[..]), current, name).Read? ==>
                var top := Top(Entries(old(scores[..]), old(names[..]), current, name));
                && scores[..] == Keys(top)
                && names[..names.Length - scores.Length] == old(names[..names.Length - scores.Length])
                && names[names.Length - scores.Length..] == Names(top)
      ensures ais == old(ais) && player == old(player) && state == old(state) && framesSinceBoost == old(framesSinceBoost)
    {
      if name.Some? {
        lastHsName := name;
      }
      ReleaseAll();
      var outcome := ReadEntries(scores, names, current, name);
      escaped := outcome.MissingName?;
      if !outcome.Read? {
        return;
      }
      WriteBack(scores, names, SortByKey(outcome.entries));
    }
  }

  /** The parsing loop of highScoreCalc: every stored (score, name) pair
      and then this round's entry, unless the loop stops at a score that
      does not parse or at a missing name. */
  method ReadEntries(scores: array<Option<int>>, names: array<string>, current: int, name: Option<string>)
      returns (outcome: ReadOutcome)
    ensures outcome == ReadResult(scores[..], names[..], current, name)
  {
    var n := scores.Length;
    var values := new ScorePair[n + 1];
    var i := 0;
    while i < n
      invariant 0 <= i <= n
      invariant forall j :: 0 <= j < i ==> scores[j].Some? && j < names.Length && values[j] == ScorePair(scores[j].value, names[j])
    {
      if scores[i].None? {
        return BadNumber;
      }
      if i >= names.Length {
        return MissingName;
      }
      values[i] := ScorePair(scores[i].value, names[i]);
      i := i + 1;
    }
    values[n] := ScorePair(current, if name.Some? then name.value else "N/A");
    return Read(values[..]);
  }

  /** The write-back loop of highScoreCalc: for i from n down to 1, entry i
      of the ascending list goes to slot n - i of the scores and slot
      names.Length - i of the names. */
  method WriteBack(scores: array<Option<int>>, names: array<string>, sorted: seq<ScorePair>)
    requires names.Length >= scores.Length && |sorted| == scores.Length + 1
    modifies scores, names
    ensures scores[..] == Keys(HighestFirst(sorted))
    ensures names[..names.Length - scores.Length] == old(names[..names.Length - scores.Length])
    ensures names[names.Length - scores.Length..] == Names(HighestFirst(sorted))
  {
    var n := scores.Length;
    var m := names.Length;
    var i := n;
    while i > 0
      invariant 0 <= i <= n
      invariant forall j :: 0 <= j < n - i ==> scores[j] == Some(sorted[n - j].key)
      invariant forall j :: m - n <= j < m - i ==> names[j] == sorted[m - j].value
      invariant names[..m - n] == old(names[..m - n])
    {
      scores[n - i] := Some(sorted[i].key);
      names[m - i] := sorted[i].value;
      i := i - 1;
    }
  }

}
