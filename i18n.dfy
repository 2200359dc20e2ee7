/** The table of localised UI strings (I18N): locale -> string ID -> text,
    with the entries the game registers at start-up. Locales are named by
    their language tag. */
module I18n {

  type Table = map<string, map<string, string>>

  const English: string := "en"

  const ScorePrefix: string := "uScorePrx"
  const MenuStart: string := "uMenuStart"
  const MenuOptions: string := "uMenuOption"
  const MenuExit: string := "uMenuExit"
  const SessionDeathPrefix: string := "uSDeathPrx"
  const GlobalDeathPrefix: string := "uGDeathPrx"
  const HighScorePrefix: string := "uHighScorePrx"
  const SessionDeathSuffix: string := "uSDeathSuffix"
  const GlobalDeathSuffix: string := "uGDeathSuffix"
  const DialogNameEntry: string := "dEnterName"
  const TauntMaster: string := "uDeathTauntSuffix_"

  const GenTaunt: seq<string> := ["How pathetic.", "How?!", "Git gud.", "Try harder.", "Try Roblox instead.", "Wow.", "I... what?"]

  /** Java's decimal rendering of a non-negative int, as in `TauntMaster + i`. */
  function Decimal(n: nat): (s: string)
    ensures |s| >= 1
    ensures n < 10 ==> s == [('0' as int + n) as char]
  {
    if n < 10 then [('0' as int + n) as char] else Decimal(n / 10) + [('0' as int + n % 10) as char]
  }

  /** The ID of the i-th generated taunt line. */
  function TauntId(i: nat): string
  {
    TauntMaster + Decimal(i)
  }

  /** getString: the text for an ID in a locale that exists, or "" when the
      locale has no text for that ID. */
  function Lookup(t: Table, loc: string, id: string): (s: string)
    requires loc in t
    ensures id in t[loc] ==> s == t[loc][id]
    ensures id !in t[loc] ==> s == ""
  {
    if id in t[loc] then t[loc][id] else ""
  }

  /** addEntry: create the locale if it is missing, then set the text. */
  function Added(t: Table, loc: string, id: string, content: string): (r: Table)
    ensures loc in r && id in r[loc] && r[loc][id] == content
  {
    var inner := if loc in t then t[loc] else map[];
    t[loc := inner[id := content]]
  }

  /** addEntry adds the locale if it was missing, and the ID to that
      locale's IDs; no other locale or ID appears. */
  lemma AddedKeys(t: Table, loc: string, id: string, content: string)
    ensures Added(t, loc, id, content).Keys == t.Keys + {loc}
    ensures Added(t, loc, id, content)[loc].Keys == (if loc in t then t[loc].Keys else {}) + {id}
  {
  }

  /** After addEntry(loc, id, s), getString(loc, id) is s. */
  lemma AddThenGet(t: Table, loc: string, id: string, content: string)
    ensures loc in Added(t, loc, id, content)
    ensures Lookup(Added(t, loc, id, content), loc, id) == content
  {
  }

  /** addEntry changes no other (locale, ID) entry. */
  lemma AddIsolated(t: Table, loc: string, id: string, content: string, l: string, i: string)
    requires l in t && (l != loc || i != id)
    ensures l in Added(t, loc, id, content)
    ensures Lookup(Added(t, loc, id, content), l, i) == Lookup(t, l, i)
  {
  }

  /** Different numbers have different decimal renderings: the last digit
      fixes n % 10 and the digits before it render n / 10. */
  lemma {:induction false} DecimalInjective(i: nat, j: nat)
    requires Decimal(i) == Decimal(j)
    ensures i == j
    decreases i
  {
    var a, b := Decimal(i), Decimal(j);
    assert a[|a| - 1] == b[|b| - 1];
    if i >= 10 && j >= 10 {
      assert a[..|a| - 1] == Decimal(i / 10);
      assert b[..|b| - 1] == Decimal(j / 10);
      DecimalInjective(i / 10, j / 10);
      assert i % 10 == j % 10;
    }
  }

  /** Taunt IDs of different indices are different. */
  lemma TauntIdsDistinct(i: nat, j: nat)
    requires i != j
    ensures TauntId(i) != TauntId(j)
  {
    if TauntId(i) == TauntId(j) {
      assert TauntId(i)[|TauntMaster|..] == Decimal(i);
      assert TauntId(j)[|TauntMaster|..] == Decimal(j);
      DecimalInjective(i, j);
    }
  }

  /** The ten fixed English entries, in the order the static initialiser
      adds them. */
  const FixedTexts: seq<(string, string)> := [
    (ScorePrefix, "Score:"), (SessionDeathPrefix, "You've died"), (GlobalDeathPrefix, "You've died"),
    (HighScorePrefix, "Highest Score:"), (SessionDeathSuffix, "times this session."),
    (GlobalDeathSuffix, "times in total."), (MenuStart, "Start!"), (MenuOptions, "Settings"),
    (MenuExit, "Exit"), (DialogNameEntry, "Enter name:")]

  /** Every fixed ID has its English text. */
  predicate FixedEntries(t: Table)
  {
    && English in t
    && forall k :: 0 <= k < |FixedTexts| ==> Lookup(t, English, FixedTexts[k].0) == FixedTexts[k].1
  }

  /** The fixed IDs differ in their length or their second character. */
  lemma FixedIdsApart()
    ensures |ScorePrefix| == 9 && ScorePrefix[1] == 'S'
    ensures |MenuStart| == 10 && MenuStart[1] == 'M'
    ensures |MenuOptions| == 11 && MenuOptions[1] == 'M'
    ensures |MenuExit| == 9 && MenuExit[1] == 'M'
    ensures |SessionDeathPrefix| == 10 && SessionDeathPrefix[1] == 'S'
    ensures |GlobalDeathPrefix| == 10 && GlobalDeathPrefix[1] == 'G'
    ensures |HighScorePrefix| == 13 && HighScorePrefix[1] == 'H'
    ensures |SessionDeathSuffix| == 13 && SessionDeathSuffix[1] == 'S'
    ensures |GlobalDeathSuffix| == 13 && GlobalDeathSuffix[1] == 'G'
    ensures |DialogNameEntry| == 10 && DialogNameEntry[1] == 'E'
  {
  }

  /** The entries of the list, one by one. */
  lemma FixedTextsAre()
    ensures |FixedTexts| == 10
    ensures FixedTexts[0] == (ScorePrefix, "Score:")
    ensures FixedTexts[1] == (SessionDeathPrefix, "You've died")
    ensures FixedTexts[2] == (GlobalDeathPrefix, "You've died")
    ensures FixedTexts[3] == (HighScorePrefix, "Highest Score:")
    ensures FixedTexts[4] == (SessionDeathSuffix, "times this session.")
    ensures FixedTexts[5] == (GlobalDeathSuffix, "times in total.")
    ensures FixedTexts[6] == (MenuStart, "Start!")
    ensures FixedTexts[7] == (MenuOptions, "Settings")
    ensures FixedTexts[8] == (MenuExit, "Exit")
    ensures FixedTexts[9] == (DialogNameEntry, "Enter name:")
  {
  }

  /** The table after the first five of the static initialiser's fixed
      addEntry calls (the score and death-count texts). */
  function FixedFirst(t: Table): Table
  {
    var t1 := Added(t, English, ScorePrefix, "Score:");
    var t2 := Added(t1, English, SessionDeathPrefix, "You've died");
    var t3 := Added(t2, English, GlobalDeathPrefix, "You've died");
    var t4 := Added(t3, English, HighScorePrefix, "Highest Score:");
    Added(t4, English, SessionDeathSuffix, "times this session.")
  }

  /** The table after the other five fixed addEntry calls. */
  function FixedRest(t: Table): Table
  {
    var t6 := Added(t, English, GlobalDeathSuffix, "times in total.");
    var t7 := Added(t6, English, MenuStart, "Start!");
    var t8 := Added(t7, English, MenuOptions, "Settings");
    var t9 := Added(t8, English, MenuExit, "Exit");
    Added(t9, English, DialogNameEntry, "Enter name:")
  }

  /** The table after the ten fixed addEntry calls, in the order the static
      initialiser makes them. */
  function FixedTable(t: Table): Table
  {
    FixedRest(FixedFirst(t))
  }

  /** The first five calls give their IDs their texts. */
  lemma FixedFirstEntries(t: Table)
    ensures English in FixedFirst(t)
    ensures forall k :: 0 <= k < 5 ==> Lookup(FixedFirst(t), English, FixedTexts[k].0) == FixedTexts[k].1
  {
    FixedIdsApart();
    FixedTextsAre();
  }

  /** The last five calls give their IDs their texts and keep the texts of
      the first five IDs. */
  lemma FixedRestEntries(t: Table)
    requires English in t
    ensures English in FixedRest(t)
    ensures forall k :: 5 <= k < 10 ==> Lookup(FixedRest(t), English, FixedTexts[k].0) == FixedTexts[k].1
    ensures forall k :: 0 <= k < 5 ==> Lookup(FixedRest(t), English, FixedTexts[k].0) == Lookup(t, English, FixedTexts[k].0)
  {
    FixedIdsApart();
    FixedTextsAre();
  }

  /** The ten calls add the English locale and no other. */
  lemma FixedTableKeys(t: Table)
    ensures FixedTable(t).Keys == t.Keys + {English}
  {
    var u := FixedFirst(t);
    assert u.Keys == t.Keys + {English};
    assert FixedRest(u).Keys == u.Keys;
  }

  /** After the ten calls every fixed ID has its text: no later call
      overwrites an earlier one, since no two fixed IDs are equal. */
  lemma FixedTableEntries(t: Table)
    ensures FixedEntries(FixedTable(t))
  {
    FixedFirstEntries(t);
    FixedRestEntries(FixedFirst(t));
    FixedTextsAre();
  }

  /** No fixed ID has the form of a taunt ID. */
  lemma FixedNotTaunt(k: int)
    requires 0 <= k < |FixedTexts|
    ensures forall i :: 0 <= i < |GenTaunt| ==> FixedTexts[k].0 != TauntId(i)
  {
    FixedIdsApart();
    forall i | 0 <= i < |GenTaunt|
      ensures FixedTexts[k].0 != TauntId(i)
    {
      assert TauntId(i)[1] == 'D';
    }
  }

  /** The dictionary of UI strings. */
  class Dictionary {
    var dict: Table

    /** The static initialiser: the ten fixed English entries, then one
        entry per generated taunt. */
    constructor()
      ensures dict.Keys == {English}
      ensures FixedEntries(dict)
      ensures forall i :: 0 <= i < |GenTaunt| ==> Lookup(dict, English, TauntId(i)) == GenTaunt[i]
    {
      dict := map[];
      new;
      AddFixed();
      AddTaunts();
      forall k | 0 <= k < |FixedTexts|
        ensures Lookup(dict, English, FixedTexts[k].0) == FixedTexts[k].1
      {
        FixedNotTaunt(k);
      }
    }

    /** The fixed English entries of the static initialiser: each fixed ID
        gets its text. */
    method AddFixed()
      modifies this
      ensures dict.Keys == old(dict).Keys + {English}
      ensures dict == FixedTable(old(dict))
      ensures FixedEntries(dict)
    {
      ghost var t := dict;
      AddEntry(English, ScorePrefix, "Score:");
      AddEntry(English, SessionDeathPrefix, "You've died");
      AddEntry(English, GlobalDeathPrefix, "You've died");
      AddEntry(English, HighScorePrefix, "Highest Score:");
      AddEntry(English, SessionDeathSuffix, "times this session.");
      AddEntry(English, GlobalDeathSuffix, "times in total.");
      AddEntry(English, MenuStart, "Start!");
      AddEntry(English, MenuOptions, "Settings");
      AddEntry(English, MenuExit, "Exit");
      AddEntry(English, DialogNameEntry, "Enter name:");
      FixedTableEntries(t);
      FixedTableKeys(t);
    }

    /** The loop of the static initialiser: register every generated taunt
        under its ID. No other entry changes. */
    method AddTaunts()
      requires English in dict
      modifies this
      ensures dict.Keys == old(dict).Keys
      ensures forall i :: 0 <= i < |GenTaunt| ==> Lookup(dict, English, TauntId(i)) == GenTaunt[i]
      ensures forall id :: (forall i :: 0 <= i < |GenTaunt| ==> id != TauntId(i)) ==>
                Lookup(dict, English, id) == Lookup(old(dict), English, id)
    {
      var i := 0;
      while i < |GenTaunt|
        invariant 0 <= i <= |GenTaunt|
        invariant dict.Keys == old(dict).Keys
        invariant forall k :: 0 <= k < i ==> Lookup(dict, English, TauntId(k)) == GenTaunt[k]
        invariant forall id :: (forall k :: 0 <= k < i ==> id != TauntId(k)) ==>
                    Lookup(dict, English, id) == Lookup(old(dict), English, id)
      {
        ghost var before := dict;
        AddEntry(English, TauntMaster + Decimal(i), GenTaunt[i]);
        forall k | 0 <= k < i
          ensures Lookup(dict, English, TauntId(k)) == GenTaunt[k]
        {
          TauntIdsDistinct(k, i);
          AddIsolated(before, English, TauntId(i), GenTaunt[i], English, TauntId(k));
        }
        forall id | id != TauntId(i)
          ensures Lookup(dict, English, id) == Lookup(before, English, id)
        {
          AddIsolated(before, English, TauntId(i), GenTaunt[i], English, id);
        }
        i := i + 1;
      }
    }

    /** getString: the locale must exist (a missing locale is a null
        dereference in the source). */
    function GetString(loc: string, id: string): (s: string)
      reads this
      requires loc in dict
      ensures id in dict[loc] ==> s == dict[loc][id]
      ensures id !in dict[loc] ==> s == ""
    {
      Lookup(dict, loc, id)
    }

    /** addEntry. */
    method AddEntry(loc: string, id: string, content: string)
      modifies this
      ensures dict == Added(old(dict), loc, id, content)
    {
      if loc !in dict {
        dict := dict[loc := map[]];
      }
      dict := dict[loc := dict[loc][id := content]];
    }
  }
}
