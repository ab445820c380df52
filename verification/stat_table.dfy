/**
 * The session's stat table: ten named stats, each holding a value, its Skill
 * Rating and, once rolled against, the adjustment and total SR of its latest
 * roll; plus the record of the last roll, which each new roll overwrites.
 * The table is updated in place, so it is a class whose methods say exactly
 * which entry changes.
 */
module StatTable {
  import opened RuleEngine

  datatype Option<T> = None | Some(value: T)

  /** The stat categories, each a heading over a list of stats. */
  datatype Category = Physical | Mental | Combat

  /** The ten stats of the sheet. */
  datatype Stat = Agi | Per | Str | Tou | Cha | Int | Wil | Wis | Mel | Ran

  /** The categories in the order the sheet walks them. */
  const Categories: seq<Category> := [Physical, Mental, Combat]

  /** The position of a category in the walk. */
  function CategoryIndex(c: Category): (i: nat)
    ensures i < |Categories| && Categories[i] == c
  {
    match c
    case Physical => 0
    case Mental => 1
    case Combat => 2
  }

  /** The stats listed under a category, in order. */
  function StatsOf(c: Category): (ss: seq<Stat>)
    ensures |ss| >= 1
    ensures forall i, j :: 0 <= i < j < |ss| ==> ss[i] != ss[j]
  {
    match c
    case Physical => [Agi, Per, Str, Tou]
    case Mental => [Cha, Int, Wil, Wis]
    case Combat => [Mel, Ran]
  }

  /** The one category a stat is listed under. */
  function CategoryOf(s: Stat): (c: Category)
    ensures s in StatsOf(c)
    ensures forall other: Category :: other != c ==> s !in StatsOf(other)
  {
    match s
    case Agi | Per | Str | Tou => Physical
    case Cha | Int | Wil | Wis => Mental
    case Mel | Ran => Combat
  }

  /** The stats of the given categories, category by category. */
  function StatsIn(cats: seq<Category>): (flat: seq<Stat>)
    // only stats of the given categories appear, the first category's list leading in its own order
    ensures forall s: Stat :: s in flat ==> CategoryOf(s) in cats
    ensures cats != [] ==> |StatsOf(cats[0])| <= |flat| && flat[..|StatsOf(cats[0])|] == StatsOf(cats[0])
  {
    if cats == [] then [] else StatsOf(cats[0]) + StatsIn(cats[1..])
  }

  /** A stat is among the stats of some categories exactly when its own category is one of them. */
  lemma {:induction false} StatsInMembers(cats: seq<Category>, s: Stat)
    ensures s in StatsIn(cats) <==> CategoryOf(s) in cats
  {
    if cats != [] {
      StatsInMembers(cats[1..], s);
      assert cats == [cats[0]] + cats[1..];
    }
  }

  /** Walking every category reaches every stat. */
  lemma EveryStatListed()
    ensures forall s: Stat :: s in StatsIn(Categories)
  {
    forall s: Stat ensures s in StatsIn(Categories) {
      StatsInMembers(Categories, s);
    }
  }

  /** One row of the table. `adjustment` and `totalSR` are absent until the stat is first rolled. */
  datatype StatEntry = StatEntry(value: int, sr: int, adjustment: Option<int>, totalSR: Option<int>)

  /** The record of one roll, as shown in the results panel. */
  datatype RollResult = RollResult(stat: Stat, enteredStat: int, sr: int, dieResult: int, adjustment: int, totalSR: int)

  /** A row as the sheet keeps it: a clamped value, a digit SR, and the two roll fields written together. */
  ghost predicate WellFormedEntry(e: StatEntry)
  {
    1 <= e.value <= 100 && 0 <= e.sr <= 9 &&
    e.adjustment.Some? == e.totalSR.Some? &&
    (e.adjustment.Some? ==> -9 <= e.adjustment.value <= 9)
  }

  /** A roll record agrees with the rules: its adjustment is the one the die earns against the stat. */
  ghost predicate ConsistentResult(r: RollResult)
  {
    1 <= r.dieResult <= 100 && 1 <= r.enteredStat <= 100 && 0 <= r.sr <= 9 &&
    r.adjustment == CalculateFinalResult(r.dieResult, r.enteredStat) &&
    r.totalSR == r.sr + r.adjustment
  }

  /** The table a session starts with: every stat at value 50 and SR 5, never rolled. */
  function InitialTable(): (t: map<Stat, StatEntry>)
    ensures forall s: Stat :: s in t && t[s].value == 50 && t[s].sr == GetSR(t[s].value)
    ensures forall s: Stat :: s in t ==> t[s].adjustment == None && t[s].totalSR == None
  {
    var keys := ListedStats();
    var entry := StatEntry(50, 5, None, None);
    assert entry.sr == GetSR(entry.value);
    map s | s in keys :: entry
  }

  /** The stats the walk over every category reaches, as a set of table keys. */
  function ListedStats(): (keys: set<Stat>)
    ensures forall s: Stat :: s in keys
  {
    EveryStatListed();
    set s | s in StatsIn(Categories)
  }

  class StatSheet {
    var stats: map<Stat, StatEntry>
    var lastResult: Option<RollResult>

    ghost predicate Valid()
      reads this
    {
      (forall s: Stat :: s in stats && WellFormedEntry(stats[s])) &&
      (lastResult.Some? ==> ConsistentResult(lastResult.value))
    }

    /** Every stored SR is the SR of the stored value. */
    ghost predicate SRCurrent()
      reads this
      requires Valid()
    {
      forall s: Stat :: stats[s].sr == GetSR(stats[s].value)
    }

    /** A fresh session: the initial table and no roll yet. */
    constructor ()
      ensures Valid() && SRCurrent()
      ensures stats == InitialTable() && lastResult == None
    {
      stats := InitialTable();
      lastResult := None;
    }

    /** Recompute the SR of one stat from its value; nothing else changes. */
    method RefreshSR(s: Stat)
      requires Valid()
      modifies this
      ensures Valid()
      ensures stats == old(stats)[s := old(stats)[s].(sr := GetSR(old(stats)[s].value))]
      ensures lastResult == old(lastResult)
      ensures stats[s].sr == GetSR(stats[s].value)
      ensures old(SRCurrent()) ==> SRCurrent()
    {
      var entry := stats[s];
      stats := stats[s := entry.(sr := GetSR(entry.value))];
    }

    /**
     * Store the value entered for one stat (already clamped to [1, 100] by the
     * input field). The SR is not recomputed here: the next refresh does it.
     */
    method SetValue(s: Stat, v: int)
      requires Valid()
      requires 1 <= v <= 100
      modifies this
      ensures Valid()
      ensures stats == old(stats)[s := old(stats)[s].(value := v)]
      ensures lastResult == old(lastResult)
      ensures old(SRCurrent()) ==> (SRCurrent() <==> stats[s].sr == GetSR(v))
    {
      stats := stats[s := stats[s].(value := v)];
    }

    /** Refresh the SR of every stat listed under one category, in list order. */
    method RefreshCategory(c: Category)
      requires Valid()
      modifies this
      ensures Valid() && lastResult == old(lastResult)
      ensures forall t: Stat :: stats[t] == old(stats)[t].(sr :=
        if CategoryOf(t) == c then GetSR(old(stats)[t].value) else old(stats)[t].sr)
    {
      var statList := StatsOf(c);
      var j := 0;
      while j < |statList|
        invariant 0 <= j <= |statList|
        invariant Valid() && lastResult == old(lastResult)
        invariant forall t: Stat :: stats[t] == old(stats)[t].(sr :=
          if t in statList[..j] then GetSR(old(stats)[t].value) else old(stats)[t].sr)
      {
        assert statList[..j + 1] == statList[..j] + [statList[j]];
        RefreshSR(statList[j]);
        j := j + 1;
      }
      assert statList[..j] == statList;
    }

    /** Refresh the SR of every stat, walking the categories in order. */
    method RefreshAll()
      requires Valid()
      modifies this
      ensures Valid() && SRCurrent()
      ensures forall t: Stat :: stats[t] == old(stats)[t].(sr := GetSR(old(stats)[t].value))
      ensures lastResult == old(lastResult)
    {
      var i := 0;
      while i < |Categories|
        invariant 0 <= i <= |Categories|
        invariant Valid() && lastResult == old(lastResult)
        invariant forall t: Stat :: stats[t] == old(stats)[t].(sr :=
          if CategoryIndex(CategoryOf(t)) < i then GetSR(old(stats)[t].value) else old(stats)[t].sr)
      {
        RefreshCategory(Categories[i]);
        i := i + 1;
      }
    }

    /**
     * Record a roll of `dieResult` against stat `s`: its adjustment and total
     * SR are written into that stat's row only, and the roll record is replaced.
     */
    method RecordRoll(s: Stat, dieResult: int)
      requires Valid()
      requires 1 <= dieResult <= 100
      modifies this
      ensures Valid()
      ensures lastResult.Some? && lastResult.value.stat == s && lastResult.value.dieResult == dieResult
      ensures lastResult.value.enteredStat == old(stats)[s].value && lastResult.value.sr == old(stats)[s].sr
      ensures lastResult.value.adjustment == CalculateFinalResult(dieResult, old(stats)[s].value)
      ensures lastResult.value.totalSR == lastResult.value.sr + lastResult.value.adjustment
      ensures stats == old(stats)[s := old(stats)[s].(adjustment := Some(lastResult.value.adjustment),
                                                      totalSR := Some(lastResult.value.totalSR))]
      // a corollary of the map equation above, kept for readers: no other row changes
      ensures forall t: Stat :: t != s ==> stats[t] == old(stats)[t]
      ensures old(SRCurrent()) ==> SRCurrent() && lastResult.value.sr == GetSR(lastResult.value.enteredStat)
    {
      var entry := stats[s];
      var adjustment := CalculateFinalResult(dieResult, entry.value);
      AdjustmentBounded(dieResult, entry.value);
      stats := stats[s := entry.(adjustment := Some(adjustment), totalSR := Some(entry.sr + adjustment))];
      lastResult := Some(RollResult(s, stats[s].value, stats[s].sr, dieResult, adjustment, stats[s].totalSR.value));
    }

    /**
     * One row's share of a rerun in which its button was pressed: refresh the
     * SR from the stored value, store the entered value, then record the roll.
     * Because the refresh comes first, a value entered in the same rerun is
     * rolled against with the SR of the previous value.
     */
    method RowPassWithRoll(s: Stat, v: int, dieResult: int)
      requires Valid()
      requires 1 <= v <= 100 && 1 <= dieResult <= 100
      modifies this
      ensures Valid()
      ensures forall t: Stat :: t != s ==> stats[t] == old(stats)[t]
      ensures stats[s].value == v && stats[s].sr == GetSR(old(stats)[s].value)
      ensures stats[s].adjustment == Some(CalculateFinalResult(dieResult, v))
      ensures stats[s].totalSR == Some(GetSR(old(stats)[s].value) + CalculateFinalResult(dieResult, v))
      ensures lastResult.Some? && lastResult.value.stat == s && lastResult.value.dieResult == dieResult
      ensures lastResult.value.enteredStat == v && lastResult.value.sr == GetSR(old(stats)[s].value)
      // the recorded SR is stale exactly when the new value has a different SR
      ensures lastResult.value.sr == GetSR(lastResult.value.enteredStat) <==> GetSR(old(stats)[s].value) == GetSR(v)
    {
      RefreshSR(s);
      SetValue(s, v);
      RecordRoll(s, dieResult);
    }
  }
}
