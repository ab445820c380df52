# TNC_Roller stat roller, modelled in Dafny

TNC_Roller is a one-page calculator for a tabletop role-playing game's skill checks. The user keeps a value
in [1, 100] for each stat on a character sheet. A stat's Skill Rating (SR) is the tens digit of its value.
Rolling a percentile die against a stat earns a signed adjustment. The adjustment and the total SR
(SR + adjustment) are written into that stat's row, and a "last result" record is shown in a results panel.

The project has two modules:

- `RuleEngine` (`rule_engine.dfy`) holds the two pure formulas, `GetSR` and `CalculateFinalResult`, and
  lemmas about them: the dead band, the bounds, antisymmetry, monotonicity and the tens-digit wrap at 100.
- `StatTable` (`stat_table.dfy`) holds the session's stat table. It is a class, `StatSheet`, with the table
  as a `map<Stat, StatEntry>` field and the last roll as an `Option<RollResult>` field. Its methods update
  the table in place, as the application updates its session dictionary. Each method states the whole new
  state: which row changes, and that no other row changes. The object invariant `Valid()` keeps values in
  [1, 100], SRs in 0..9 and adjustments in [-9, 9]. It also keeps the two roll fields of a row written
  together, and the last-result record consistent with the rules. A second predicate, `SRCurrent()`,
  says that every stored SR is the SR of its stored value. The constructor and `RefreshAll` establish it,
  and `RecordRoll` and `RefreshSR` preserve it. `SetValue` may break it, because the application writes a
  new value after that row's SR refresh, so the SR catches up on the next pass. `RowPassWithRoll` shows
  the visible effect: when a value is entered and its row's button pressed in the same rerun, the roll
  record carries the SR of the previous value, and so does the total SR.

The source has ten stats: Agi, Per, Str and Tou under Physical; Cha, Int, Wil and Wis under Mental; Mel and
Ran under Combat.

The die result is a parameter of `RecordRoll`, and the caller must supply a value in [1, 100]. That covers
both the random roll and a number the user types in. The input fields clamp stat values and typed rolls to
[1, 100], so those ranges are preconditions.

## Model

| member | source | states |
|---|---|---|
| RuleEngine.GetSR | streamlit_app.py:22-24 | The SR is a digit in 0..9, and the stat's last two decimal digits are the SR followed by the stat's units digit. |
| RuleEngine.GetSRInRange | streamlit_app.py:22-24 | For stats in [1, 100]: stats 1..9 and the stat 100 give SR 0, and a stat in 10..99 gives its tens digit t (10t <= stat < 10t + 10, t >= 1). |
| RuleEngine.GetSRTensDigit | streamlit_app.py:22-24 | A stat written as tens digit t and units digit u has SR t. |
| RuleEngine.CalculateFinalResult | streamlit_app.py:8-20 | The adjustment is 0 exactly when -10 <= die - stat <= 10, so ±10 fall in the dead band. Below the band it is the number r >= 1 of full tens with 10r <= stat - die < 10r + 10. Above the band it is -r for the number r >= 1 of full tens in die - stat. |
| RuleEngine.AdjustmentAntisymmetric | streamlit_app.py:13-18 | For d >= 0, rolling stat + d earns the negation of what rolling stat - d earns. |
| RuleEngine.AdjustmentDependsOnDifference | streamlit_app.py:10 | Shifting die and stat by the same amount leaves the adjustment unchanged. |
| RuleEngine.AdjustmentBounded | streamlit_app.py:10-18 | With die and stat both in [1, 100], the adjustment lies in [-9, 9]. |
| RuleEngine.AdjustmentMonotoneInDie | streamlit_app.py:13-18 | A lower roll never earns a smaller adjustment against the same stat. |
| RuleEngine.AdjustmentMonotoneInStat | streamlit_app.py:13-18 | A higher stat never earns a smaller adjustment for the same roll. |
| RuleEngine.BoundaryExamples | streamlit_app.py:8-24 | Against stat 50, rolls 61, 60, 39 and 40 give -1, 0, 1 and 0. A roll of 85 gives -3, so the total SR is 5 - 3 = 2. |
| StatTable.StatsOf | streamlit_app.py:42-46 | Physical lists Agi, Per, Str, Tou; Mental lists Cha, Int, Wil, Wis; Combat lists Mel, Ran, in that order. Every category lists at least one stat and no stat twice. |
| StatTable.StatsIn | streamlit_app.py:50 | The stats of the given categories, joined in category order: only stats of those categories appear, and the first category's list leads in its own order. |
| StatTable.CategoryOf | streamlit_app.py:42-46 | Every stat is listed under exactly one category. |
| StatTable.StatsInMembers | streamlit_app.py:50 | A stat occurs in the flattened stat lists of some categories exactly when its own category is among them. |
| StatTable.EveryStatListed | streamlit_app.py:42-50 | Flattening all three categories reaches every stat. |
| StatTable.ListedStats | streamlit_app.py:50 | The keys the comprehension produces by walking every category's list cover every stat. |
| StatTable.InitialTable | streamlit_app.py:50 | The initial table has a row for every stat, with value 50 and SR equal to the SR of 50, and no adjustment or total SR yet. |
| StatTable.StatSheet.constructor | streamlit_app.py:30-50 | A new session holds the initial table, with every SR current, and no last result. |
| StatTable.StatSheet.RefreshSR | streamlit_app.py:93 | Only the targeted row's SR changes, to the SR of its value. Every other row and the last result are unchanged. |
| StatTable.StatSheet.SetValue | streamlit_app.py:97-105 | Only the targeted row's value changes, to the clamped input. Its SR is left as it was, so SRs stay current exactly when the old SR matches the new value. |
| StatTable.StatSheet.RefreshCategory | streamlit_app.py:89-93 | Every stat under the category gets its SR recomputed from its value. All other rows and the last result are unchanged. |
| StatTable.StatSheet.RefreshAll | streamlit_app.py:87-93 | After the walk over all categories, every row's SR is the SR of its unchanged value (`SRCurrent()`). Nothing else changes. |
| StatTable.StatSheet.RowPassWithRoll | streamlit_app.py:93-126 | One row's pass when its button is pressed: the SR is refreshed from the previous value, the entered value is stored, then the roll is recorded. The row ends with the new value, the previous value's SR, the adjustment for the new value and the total from both. The roll record holds the new value with the previous value's SR, which is the SR of the new value exactly when both values have the same SR. Other rows are unchanged. |
| StatTable.StatSheet.RecordRoll | streamlit_app.py:108-126 | The row for the rolled stat gets adjustment = CalculateFinalResult(die, value) and total SR = SR + adjustment. Every other row is unchanged. The last result is overwritten with that stat, its value, SR, the die, the adjustment and the total. The adjustment lies in [-9, 9], and if SRs were current they stay current, with the recorded SR equal to the SR of the recorded stat value. |

## Left out

- The random die draw (`roll_d100`, streamlit_app.py:4-6) is a call into a random source. The die value is a parameter of `RecordRoll`, limited to [1, 100].
- The choice between a generated and a typed-in roll (streamlit_app.py:109-112) only selects where the die value comes from. Both paths feed the same parameter.
- Widgets, layout, the results panel and all text rendering (streamlit_app.py:27, 53-66, 69-84, 88-105) are user-interface code, apart from the SR write at line 93 and the value store at line 97, which `RefreshSR` and `SetValue` model. The clamping done by the number fields becomes the preconditions `1 <= v <= 100` and `1 <= dieResult <= 100`.
- The framework's rerun-driven interleaving is not modelled as one operation. On each rerun, every row first refreshes its SR, then stores the widget value, then handles its button. The model provides those three steps as `RefreshSR`, `SetValue` and `RecordRoll`, and the refresh walk as `RefreshAll`.
- The roll-method and manual-roll session keys (streamlit_app.py:33-39) hold only user-interface choices and are not part of the model.
