# Warrior combat system — a Dafny model

WarriorCombatSystem is a small Java game in which two warriors fight a duel.
A warrior has a name, a health value, an attack bound `attkMax`, a block bound
`blockMax` and an exchangeable teleport strategy. A `DodgeWarrior` also has a
dodge chance `dodgePercent`; when its dodge draw evades, it blocks with the
value 10000. `Battle.getAttackResult` plays one round: the attacker rolls
an attack, the defender rolls a block, and the defender loses the difference
when it is positive. `Battle.startFight` lets the two warriors attack each
other in strict alternation until a round reports "Game Over".

The model keeps the program's structure:

- `wrappers.dfy` (module `Wrappers`): `Option` stands for a reference that
  may be null. `Result` and `Outcome` stand for a call that may throw.
- `java_lang.dfy` (module `JavaLang`): the two pieces of `java.lang` the rules
  depend on.
  - `Wrap` is the 32-bit two's-complement `int` arithmetic.
  - `Trim` is `String.trim`, which strips every character up to U+0020 from
    both ends.
- `teleports.dfy` (module `Teleports`): the `Teleports` strategy. Its two
  stateless variants become the two constructors of a datatype.
- `warriors.dfy` (module `Warriors`): the class `Warrior`, whose methods
  update its fields in place. The subclass `DodgeWarrior` is folded into the
  same class; the constant `isDodgeWarrior` records which of the two was
  constructed.
  - Java constructors that throw become the static methods `New` and
    `NewDodge`, which return a `Result`.
  - The datatype `Stats` holds what a round reads of a warrior, with the
    `attack` and `block` rolls.
- `battle.dfy` (module `Battle`): the round `GetAttackResult`; the fight as
  a function `Fight` of a script of draws; and the loop `StartFight`, proved
  to compute exactly `Fight`.

Randomness is an input. A `Draw` carries three values for one round:

- the attacker's truncated product `(int)(Math.random() * attkMax)`;
- the defender's dodge draw in [0, 1);
- the defender's truncated product for the block.

`ValidDraw` is the set of values such a product can take:

- [0, max) for a positive bound;
- 0 for a zero bound;
- (max, 0] for a negative bound, because the cast truncates toward zero.

A roll is `1 + t`.

## Model

| member | source | states |
|---|---|---|
| JavaLang.Wrap | WarriorCombatSystem/src/com/battlegame/warriors/Warrior.java:225 | Java `int` addition and subtraction: the result is a 32-bit value congruent to the exact result modulo 2^32, and equal to it when no overflow occurs |
| JavaLang.Trim | WarriorCombatSystem/src/com/battlegame/warriors/Warrior.java:161-164 | `trim` yields the empty string exactly when every character is ≤ ' '. Otherwise the result starts and ends with a non-trim character. It is the slice of the input that begins at the first non-trim character, and every character after it is a trim character, so only leading and trailing trim characters are dropped |
| JavaLang.TrimOfTrimmed | WarriorCombatSystem/src/com/battlegame/warriors/Warrior.java:164 | A string is non-empty with nothing to trim exactly when it is non-empty and `trim` returns it unchanged |
| JavaLang.TrimIdempotent | WarriorCombatSystem/src/com/battlegame/warriors/Warrior.java:164 | Trimming twice gives the same result as trimming once |
| Teleports.Teleports.Teleport | WarriorCombatSystem/src/com/battlegame/warriors/Teleports.java:51-95 | `CanTeleport` reports "Teleports Away" and `CantTeleport` reports "Fails at Teleporting". Each variant has no state, so every call returns the same label |
| Teleports.TeleportIsInjective | WarriorCombatSystem/src/com/battlegame/warriors/Teleports.java:63-93 | The two labels differ, so two strategies report the same label exactly when they are the same variant |
| Warriors.Roll | WarriorCombatSystem/src/com/battlegame/warriors/Warrior.java:118-134 | `1 + (int)(r * max)` lies in [1, max] for max ≥ 1. It is 1 for max = 0, and lies in [max + 2, 1] for a negative max |
| Warriors.RollCoversRange | WarriorCombatSystem/src/com/battlegame/warriors/Warrior.java:118-120 | Every value in [1, max] is the roll of some admissible draw |
| Warriors.Stats.Attack | WarriorCombatSystem/src/com/battlegame/warriors/Warrior.java:118-120 | `attack()` lies in [1, attkMax] when attkMax ≥ 1, is 1 when attkMax = 0, and lies in [attkMax + 2, 1] otherwise |
| Warriors.Stats.Block | WarriorCombatSystem/src/com/battlegame/warriors/DodgeWarrior.java:86-97 | A dodge warrior whose draw is ≤ its dodge chance blocks with exactly 10000. Any other block is the ordinary roll, with the same bounds as `attack()`, taken against `blockMax` (Warrior.java:132-134) |
| Warriors.CertainDodge | WarriorCombatSystem/src/com/battlegame/warriors/DodgeWarrior.java:87-92 | With dodge chance 1.0, every draw in [0, 1) dodges and the block is 10000 |
| Warriors.ZeroDodgeChance | WarriorCombatSystem/src/com/battlegame/warriors/DodgeWarrior.java:87-89 | With dodge chance 0.0, a draw dodges exactly when it is 0.0: the comparison is `<=` |
| Warriors.CheckName | WarriorCombatSystem/src/com/battlegame/warriors/Warrior.java:160-164 | A null or blank name fails with the name error. Any other name is accepted in its trimmed form |
| Warriors.CheckDodgePercent | WarriorCombatSystem/src/com/battlegame/warriors/DodgeWarrior.java:58-60 | A chance fails with the range error exactly when it is below 0.0 or above 1.0. Otherwise it is accepted unchanged |
| Warriors.Warrior.Default | WarriorCombatSystem/src/com/battlegame/warriors/Warrior.java:35-85 | `new Warrior()` leaves every field at its declared initial value: name "Warrior", all numbers 0, no strategy |
| Warriors.Warrior.New | WarriorCombatSystem/src/com/battlegame/warriors/Warrior.java:100-105 | The constructor fails exactly when the name is null or blank. Otherwise it stores the trimmed name, keeps health, attkMax and blockMax as given (negative values included), and installs no strategy |
| Warriors.Warrior.NewDodge | WarriorCombatSystem/src/com/battlegame/warriors/DodgeWarrior.java:53-67 | The name error comes first, then the range error. On success the fields are as given, the dodge chance is stored, and the strategy is `CanTeleport`, so `teleport()` reports "Teleports Away" |
| Warriors.Warrior.GetName | WarriorCombatSystem/src/com/battlegame/warriors/Warrior.java:145-147 | The name is never empty and `trim` leaves it unchanged |
| Warriors.Warrior.SetName | WarriorCombatSystem/src/com/battlegame/warriors/Warrior.java:160-165 | A null or blank name fails and the old name stays. Any other name is stored trimmed. Only `name` may change |
| Warriors.Warrior.Teleport | WarriorCombatSystem/src/com/battlegame/warriors/Warrior.java:179-184 | With no strategy installed, the call fails with the illegal-state error. Otherwise it returns exactly the installed strategy's label |
| Warriors.Warrior.SetTeleportAbility | WarriorCombatSystem/src/com/battlegame/warriors/Warrior.java:199-204 | A null strategy fails and the old one stays. Otherwise the strategy is replaced, and `teleport()` reports the new label. Name, health and the bounds cannot change |
| Warriors.Warrior.IsAlive | WarriorCombatSystem/src/com/battlegame/warriors/Warrior.java:211-213 | A warrior is alive exactly when its health is at least 1 |
| Warriors.Warrior.Heal | WarriorCombatSystem/src/com/battlegame/warriors/Warrior.java:221-226 | A negative amount fails and health stays. Otherwise health becomes the `int` sum, which is the exact sum unless it passes `Integer.MAX_VALUE`. Only `health` may change |
| Warriors.HealCanWrapAround | WarriorCombatSystem/src/com/battlegame/warriors/Warrior.java:225 | `Integer.MAX_VALUE + 1` wraps to `Integer.MIN_VALUE` |
| Warriors.HealPastMaxValue | WarriorCombatSystem/src/com/battlegame/warriors/Warrior.java:221-226 | A warrior at `Integer.MAX_VALUE` healed by 1 succeeds, ends at `Integer.MIN_VALUE` and is no longer alive |
| Warriors.Warrior.GetDodgePercent | WarriorCombatSystem/src/com/battlegame/warriors/DodgeWarrior.java:104-106 | A dodge warrior's chance is always in [0, 1] and is the chance a round uses |
| Warriors.Warrior.SetDodgePercent | WarriorCombatSystem/src/com/battlegame/warriors/DodgeWarrior.java:114-119 | A chance outside [0, 1] fails and the old one stays. Otherwise `getDodgePercent()` returns the new value |
| Battle.Status.Text | WarriorCombatSystem/src/com/battlegame/warriors/Battle.java:98-104 | The two statuses are the strings "Game Over" and "Fight Again" |
| Battle.IsGameOverText | WarriorCombatSystem/src/com/battlegame/warriors/Battle.java:36-40 | The loop's `equals("Game Over")` test picks out exactly the game-over status |
| Battle.Damage | WarriorCombatSystem/src/com/battlegame/warriors/Battle.java:73-80 | The damage is never negative. It equals max(0, attack − block) whenever that difference fits in an `int` |
| Battle.Hit | WarriorCombatSystem/src/com/battlegame/warriors/Battle.java:69-80 | The defender's health after one round is unchanged exactly when the damage is 0; otherwise it is the `int` difference health − damage (congruent to it modulo 2^32), which is the exact difference unless it passes `Integer.MIN_VALUE` |
| Battle.HardHitRevives | WarriorCombatSystem/src/com/battlegame/warriors/Battle.java:76-80 | A defender at `Integer.MIN_VALUE + 5` hit for 99 wraps around to a positive health, so a defeated warrior comes back alive |
| Battle.Strike | WarriorCombatSystem/src/com/battlegame/warriors/Battle.java:35-44 | One `getAttackResult` call of the loop: the defender's health becomes `Hit`, the attacker's stays when it is another warrior, and when both sides are the same warrior both healths are that result |
| Battle.HitLosesExactDamage | WarriorCombatSystem/src/com/battlegame/warriors/Battle.java:73-80 | With non-negative bounds and health, nothing overflows. The defender loses exactly max(0, attack − block), and nothing when block ≥ attack |
| Battle.DodgedHitIsHarmless | WarriorCombatSystem/src/com/battlegame/warriors/Battle.java:73-80 | Against a dodge (block 10000), the defender's health stays unchanged exactly when the attack value is between `Integer.MIN_VALUE + 10000` and 10000; outside that range the round deals damage, because `attack - 10000` is positive or wraps around |
| Battle.GetAttackResult | WarriorCombatSystem/src/com/battlegame/warriors/Battle.java:63-105 | A null warrior fails. Otherwise the defender's health becomes the health after the round's damage, and the status is "Game Over" exactly when the defender is no longer alive. Only the defender may change, and only its health: every other field (`Profile`) stays |
| Battle.Fight | WarriorCombatSystem/src/com/battlegame/warriors/Battle.java:29-45 | The fight over a script of draws. A finished fight took between 1 and as many rounds as there are draws, and its last defender is at 0 or below |
| Battle.FightEndsAtFirstKnockout | WarriorCombatSystem/src/com/battlegame/warriors/Battle.java:35-44 | A finished fight stops at the first round whose defender is down. The last blow falls to the side whose turn it was. The final healths are those after that many alternating rounds |
| Battle.UnfinishedFightHasNoKnockout | WarriorCombatSystem/src/com/battlegame/warriors/Battle.java:35-44 | A fight still going when the draws run out had no knockout in any round. Its healths are those after all the rounds |
| Battle.StrikeSparesAttacker | WarriorCombatSystem/src/com/battlegame/warriors/Battle.java:76-77 | Between two distinct warriors, a round leaves the attacker's health untouched |
| Battle.FightHasOneSurvivor | WarriorCombatSystem/src/com/battlegame/warriors/Battle.java:35-44 | Between two distinct warriors that both start alive, the last attacker of a finished fight is still alive |
| Battle.UnfinishedFightHasTwoSurvivors | WarriorCombatSystem/src/com/battlegame/warriors/Battle.java:35-44 | Between two distinct warriors that both start alive, both are still alive in a fight that has not finished |
| Battle.DodgeMissesWrappedAttack | WarriorCombatSystem/src/com/battlegame/warriors/Battle.java:73-77 | A dodge does not cancel every attack: an attack bound of `Integer.MIN_VALUE` against a dodging defender wraps `attack − 10000` to a positive value, and the defender loses health |
| Battle.HarmlessFightNeverEnds | WarriorCombatSystem/src/com/battlegame/warriors/Battle.java:35-44 | When both attack bounds are 0 or 1, neither block bound is negative and both warriors start alive, no round deals damage. The fight goes on for any number of draws |
| Battle.OneRoundFight | WarriorCombatSystem/src/com/battlegame/warriors/Battle.java:35-44 | An attacker with bound 5 and health 10 faces a defender with health 1 and bounds 0. With maximal rolls, the fight ends after one round with the defender at −3 |
| Battle.StartFight | WarriorCombatSystem/src/com/battlegame/warriors/Battle.java:29-45 | A null warrior fails. Otherwise the alternating loop, w1 first, produces exactly the progress and healths of `Fight`. Only the two healths change: every other field of both warriors (`Profile`) stays |

## Left out

- Console output: the `printf`/`println` calls of `getAttackResult` and
  `startFight`, the dodge message, and `toString`. They do not affect the
  outcome.
- `Thread.sleep(1500)` in `getAttackResult`, which only affects timing. With
  it goes the `InterruptedException` that `startFight` declares.
- `WarriorGame.java`, the demo driver, is not part of this model.
- `Math.random()` and `Random.nextDouble()`: they are replaced by the
  injected `Draw`. Doubles are modelled as mathematical reals, so the
  rounding of `r * max` for very large bounds is not represented.
- `dodgePercent` as a `double`: the model uses a `real` in [0, 1]. Java's
  range test `p < 0.0 || p > 1.0` also lets NaN through, and the model has
  no NaN.
- Battle.StartFight: it runs over a finite script of draws and reports
  `Ongoing` when the script runs out. The Java loop keeps drawing until a
  round reports "Game Over", which need not ever happen (see
  `HarmlessFightNeverEnds`). The probabilistic claim that fights usually
  end is not modelled.
- Inheritance and the open `Teleports` interface: `DodgeWarrior` is one
  class with a constant flag, and a strategy is one of the two variants
  the repository defines. Foreign implementations of `Teleports` are not
  represented.
- Warriors.Warrior.GetDodgePercent and Warriors.Warrior.SetDodgePercent:
  they require `isDodgeWarrior`, because those methods exist only on
  `DodgeWarrior`.
- Battle.FightHasOneSurvivor and Battle.UnfinishedFightHasTwoSurvivors:
  they assume two distinct warriors. When `w1 == w2`, a hit lands on both
  healths, and the model's `Fight` covers that case through its
  `aliased` flag.

## Where the code and its documentation differ

The model follows the code in each of these cases.

- The Javadoc of both constructors says the bounds must be positive.
  `Warrior`'s says it throws when a numeric value is negative, and
  `DodgeWarrior`'s when one is zero or negative. Neither does: only the
  name, and for `DodgeWarrior` the dodge chance, are checked
  (Warrior.java:100-105, DodgeWarrior.java:53-67). `Warriors.Warrior.New`
  accepts zero and negative values, as the code does.
- `attack()` and `block()` are documented to return a value between 1 and
  the bound. For a bound of 0 that range is empty, and the code returns 1,
  because a roll is `1 + t` (`Warriors.Roll`). `Battle.OneRoundFight` shows
  the consequence: a hit of 5 against a block bound of 0 deals 4.
- A dodge chance of 0.0 still dodges the draw 0.0, because the test is
  `chance <= dodgePercent` (`Warriors.ZeroDodgeChance`).
- `heal` can overflow `int` and turn a healthy warrior into a dead one
  (`Warriors.HealPastMaxValue`).
- A dodge is documented as avoiding the attack completely (DodgeWarrior.java:8-10), yet it does not
  cancel an attack from a warrior with a very negative attack bound: the
  `int` subtraction `attack - block` wraps around to a positive damage
  (`Battle.DodgeMissesWrappedAttack`).
- A warrior at 0 or below is documented as defeated (Warrior.java:40), yet a
  hard hit on a very negative health wraps `health - damage` back above 0,
  and the round reports "Fight Again" (`Battle.HardHitRevives`).
- The Javadoc of `teleport()` declares a `NullPointerException` when no
  strategy is set (Warrior.java:175); the code throws an
  `IllegalStateException` (Warrior.java:180-182), which the model's
  `TeleportTypeUnset` error stands for.
