/** The combat rules: one round (`getAttackResult`) and the alternating
    fight loop (`startFight`), with the random draws passed in. */
module Battle {
  import opened Wrappers
  import opened JavaLang
  import opened Warriors

  const GameOverText := "Game Over"
  const FightAgainText := "Fight Again"

  /** The status string a round returns. */
  datatype Status = GameOver | FightAgain {
    function Text(): (text: string)
      ensures GameOver? ==> text == GameOverText
      ensures FightAgain? ==> text == FightAgainText
    {
      if GameOver? then GameOverText else FightAgainText
    }
  }

  /** `startFight` compares the status string with "Game Over"; that test
      picks out exactly the `GameOver` status. */
  lemma IsGameOverText(s: Status)
    ensures s.Text() == GameOverText <==> s == GameOver
  {
  }

  /** The random input of one round: the attacker's truncated attack term,
      the defender's dodge draw (read only by a dodge warrior) and the
      defender's truncated block term. */
  datatype Draw = Draw(attack: int, chance: real, block: int)

  /** The draws are ones the random sources can produce for this pair. */
  predicate Fits(attacker: Stats, defender: Stats, d: Draw) {
    ValidDraw(attacker.attkMax, d.attack) && 0.0 <= d.chance < 1.0
    && ValidDraw(defender.blockMax, d.block)
  }

  /** The damage of a round: attack minus block in `int` arithmetic, or 0
      when that is not positive. */
  function Damage(attack: Int32, block: Int32): (dmg: Int32)
    ensures dmg >= 0
    ensures InRange(attack - block) ==> dmg == if attack > block then attack - block else 0
  {
    var net := Wrap(attack - block);
    if net > 0 then net else 0
  }

  /** The defender's health after one round: it changes exactly when the
      round deals damage, and then to the `int` difference health - damage,
      which is the exact difference unless it passes `Integer.MIN_VALUE`. */
  function Hit(attacker: Stats, defender: Stats, health: Int32, d: Draw): (h: Int32)
    requires Fits(attacker, defender, d)
    ensures var dmg := Damage(attacker.Attack(d.attack), defender.Block(d.chance, d.block));
      (h == health <==> dmg == 0) && (dmg > 0 ==> (h - (health - dmg)) % Modulus == 0)
      && (InRange(health - dmg) ==> h == health - dmg)
  {
    var dmg := Damage(attacker.Attack(d.attack), defender.Block(d.chance, d.block));
    if dmg > 0 then Wrap(health - dmg) else health
  }

  /** A hard hit on a defender far below zero wraps its health back above
      zero: health `Integer.MIN_VALUE + 5` hit for 99 becomes positive, so
      the round reports "Fight Again" for a warrior that was already down. */
  lemma HardHitRevives()
    ensures var attacker := Stats(100, 0, None);
      var defender := Stats(0, 0, None);
      var d := Draw(99, 0.0, 0);
      Fits(attacker, defender, d) && Hit(attacker, defender, MinInt + 5, d) > 0
  {
    var net := MinInt + 5 - 99;
    assert Wrap(net) == net + Modulus by {
      WrapOffset(net - MinInt);
      assert (net - MinInt) % Modulus == net - MinInt + Modulus;
    }
  }

  /** With non-negative roll bounds and a defender that is not below zero,
      no `int` overflows: the defender loses exactly max(0, attack - block),
      and nothing when the block is at least the attack. */
  lemma HitLosesExactDamage(attacker: Stats, defender: Stats, health: Int32, d: Draw)
    requires Fits(attacker, defender, d)
    requires attacker.attkMax >= 0 && defender.blockMax >= 0 && health >= 0
    ensures var a := attacker.Attack(d.attack);
      var b := defender.Block(d.chance, d.block);
      Damage(a, b) == (if a > b then a - b else 0) &&
      Hit(attacker, defender, health, d) == health - Damage(a, b) &&
      (b >= a ==> Hit(attacker, defender, health, d) == health)
  {
  }

  /** Against a dodge (block 10000) the defender's health stays exactly when
      the attack value is at most 10000 and `attack - 10000` does not wrap
      past `Integer.MIN_VALUE`. */
  lemma DodgedHitIsHarmless(attacker: Stats, defender: Stats, health: Int32, d: Draw)
    requires Fits(attacker, defender, d)
    requires defender.Dodges(d.chance)
    ensures var a := attacker.Attack(d.attack);
      Hit(attacker, defender, health, d) == health <==> MinInt + DodgeBlock <= a <= DodgeBlock
  {
    var net := attacker.Attack(d.attack) - DodgeBlock;
    if net < MinInt {
      assert Wrap(net) == net + Modulus by {
        WrapOffset(net - MinInt);
        assert (net - MinInt) % Modulus == net - MinInt + Modulus;
      }
    }
  }

  /** `getAttackResult(wA, wB)`: a null warrior is refused. Otherwise the
      defender's health drops by the round's damage, the attacker (when it is
      another object) and every other field are left alone, and the status
      is "Game Over" exactly when the defender is no longer alive. */
  method GetAttackResult(wA: Warrior?, wB: Warrior?, d: Draw) returns (r: Result<Status, Error>)
    requires wA != null && wB != null ==> Fits(wA.CombatStats(), wB.CombatStats(), d)
    modifies wB
    ensures wA == null || wB == null ==> r == Failure(NullWarrior)
    ensures wA == null && wB != null ==> unchanged(wB)
    ensures wA != null && wB != null ==>
              wB.health == Hit(old(wA.CombatStats()), old(wB.CombatStats()), old(wB.health), d)
    ensures wA != null && wB != null ==>
              r == Success(if wB.IsAlive() then FightAgain else GameOver)
    ensures wB != null ==> wB.Profile() == old(wB.Profile())
  {
    if wA == null || wB == null {
      return Failure(NullWarrior);
    }
    var attack: int := wA.CombatStats().Attack(d.attack);
    var block: int := wB.CombatStats().Block(d.chance, d.block);
    var dmg := Wrap(attack - block);
    if dmg > 0 {
      wB.health := Wrap(wB.health - dmg);
    } else {
      dmg := 0;
    }
    if wB.health <= 0 {
      return Success(GameOver);
    } else {
      return Success(FightAgain);
    }
  }

  /** A dodge does not cancel every attack: an attack bound of
      `Integer.MIN_VALUE` rolls `MIN_VALUE + 2`, and subtracting the dodge
      block 10000 from it wraps around to a large positive damage. */
  lemma DodgeMissesWrappedAttack()
    ensures var attacker := Stats(MinInt, 0, None);
      var defender := Stats(0, 0, Some(1.0));
      var d := Draw(MinInt + 1, 0.0, 0);
      Fits(attacker, defender, d) && defender.Dodges(d.chance)
      && Hit(attacker, defender, 100, d) < 100
  {
    var net := MinInt + 2 - DodgeBlock;
    assert Wrap(net) == net + Modulus by {
      WrapOffset(net - MinInt);
      assert (net - MinInt) % Modulus == net - MinInt + Modulus;
    }
  }

  // ---------------------------------------------------------------------
  // The fight as a function of the draws

  /** The two warriors' healths. */
  datatype Duel = Duel(h1: Int32, h2: Int32)

  /** Which side attacks: `first` when the first warrior does. */
  function Attacker(duel: Duel, first: bool): Int32 {
    if first then duel.h1 else duel.h2
  }

  function Defender(duel: Duel, first: bool): Int32 {
    if first then duel.h2 else duel.h1
  }

  /** Whether the first warrior attacks in round `k` (counted from 0) when
      it attacks in round 0 exactly if `first`: the sides alternate. */
  function AttacksAt(first: bool, k: nat): bool
    decreases k
  {
    if k == 0 then first else AttacksAt(!first, k - 1)
  }

  predicate RoundFits(s1: Stats, s2: Stats, first: bool, d: Draw) {
    if first then Fits(s1, s2, d) else Fits(s2, s1, d)
  }

  /** Every draw of the script fits the round it is used in, the sides
      alternating from `first` on. */
  predicate ScriptFits(s1: Stats, s2: Stats, draws: seq<Draw>, first: bool)
    decreases |draws|
  {
    draws == [] || (RoundFits(s1, s2, first, draws[0]) && ScriptFits(s1, s2, draws[1..], !first))
  }

  /** One round. When both sides are the same object (`aliased`), the hit
      lands on both healths. */
  function Strike(s1: Stats, s2: Stats, aliased: bool, duel: Duel, first: bool, d: Draw): (r: Duel)
    requires RoundFits(s1, s2, first, d)
    ensures first ==> r.h2 == Hit(s1, s2, duel.h2, d)
    ensures !first ==> r.h1 == Hit(s2, s1, duel.h1, d)
    ensures aliased ==> r.h1 == r.h2
    ensures !aliased ==> (if first then r.h1 == duel.h1 else r.h2 == duel.h2)
  {
    if first then
      var h := Hit(s1, s2, duel.h2, d);
      if aliased then Duel(h, h) else Duel(duel.h1, h)
    else
      var h := Hit(s2, s1, duel.h1, d);
      if aliased then Duel(h, h) else Duel(h, duel.h2)
  }

  /** Where a fight stands: still going when the draws ran out, or ended
      after `rounds` rounds by the defender of the last one falling, the
      last blow struck by the first warrior exactly when `byFirst`. */
  datatype Progress = Ongoing(duel: Duel) | Ended(duel: Duel, rounds: nat, byFirst: bool)

  /** The fight, one draw per round with the sides alternating from
      `first` on, stopping at the first round whose defender has health 0
      or less. */
  function Fight(s1: Stats, s2: Stats, aliased: bool, duel: Duel, draws: seq<Draw>, first: bool)
    : (p: Progress)
    requires ScriptFits(s1, s2, draws, first)
    ensures p.Ended? ==>
              1 <= p.rounds <= |draws| && Defender(p.duel, p.byFirst) <= 0
    decreases |draws|
  {
    if draws == [] then Ongoing(duel)
    else
      var next := Strike(s1, s2, aliased, duel, first, draws[0]);
      if Defender(next, first) <= 0 then Ended(next, 1, first)
      else Delay(Fight(s1, s2, aliased, next, draws[1..], !first), 1)
  }

  /** `p` seen from `k` rounds earlier. */
  function Delay(p: Progress, k: nat): Progress {
    match p
    case Ongoing(_) => p
    case Ended(d, n, f) => Ended(d, n + k, f)
  }

  /** One step of `Fight`: play the first round, stop if its defender is
      down, otherwise go on with the other side attacking. */
  lemma FightStep(s1: Stats, s2: Stats, aliased: bool, duel: Duel, draws: seq<Draw>, first: bool)
    requires draws != [] && ScriptFits(s1, s2, draws, first)
    ensures RoundFits(s1, s2, first, draws[0]) && ScriptFits(s1, s2, draws[1..], !first)
    ensures var next := Strike(s1, s2, aliased, duel, first, draws[0]);
      Fight(s1, s2, aliased, duel, draws, first)
      == if Defender(next, first) <= 0 then Ended(next, 1, first)
         else Delay(Fight(s1, s2, aliased, next, draws[1..], !first), 1)
  {
  }

  /** The healths after the first `k` rounds of the script, played without
      stopping. */
  function After(s1: Stats, s2: Stats, aliased: bool, duel: Duel, draws: seq<Draw>, first: bool, k: nat)
    : Duel
    requires k <= |draws| && ScriptFits(s1, s2, draws, first)
    decreases k
  {
    if k == 0 then duel
    else After(s1, s2, aliased, Strike(s1, s2, aliased, duel, first, draws[0]), draws[1..], !first, k - 1)
  }

  /** A defender is down after round `k` (counted from 1) of the script
      played without stopping. */
  predicate DownAfter(s1: Stats, s2: Stats, aliased: bool, duel: Duel, draws: seq<Draw>, first: bool,
                      k: nat)
    requires 1 <= k <= |draws| && ScriptFits(s1, s2, draws, first)
  {
    Defender(After(s1, s2, aliased, duel, draws, first, k), AttacksAt(first, k - 1)) <= 0
  }

  /** Playing `k` rounds is playing the first one and then `k - 1` more. */
  lemma DownAfterStep(s1: Stats, s2: Stats, aliased: bool, duel: Duel, draws: seq<Draw>, first: bool,
                      k: nat)
    requires 2 <= k <= |draws| && ScriptFits(s1, s2, draws, first)
    ensures var next := Strike(s1, s2, aliased, duel, first, draws[0]);
      DownAfter(s1, s2, aliased, duel, draws, first, k)
      == DownAfter(s1, s2, aliased, next, draws[1..], !first, k - 1)
  {
  }

  /** The fight ends exactly at the first round whose defender is down, the
      last blow struck by the side whose turn it was: the second attack of
      an exchange happens only when the first did not end the fight. */
  lemma {:induction false} FightEndsAtFirstKnockout(s1: Stats, s2: Stats, aliased: bool, duel: Duel,
                                                    draws: seq<Draw>, first: bool)
    requires ScriptFits(s1, s2, draws, first)
    ensures var p := Fight(s1, s2, aliased, duel, draws, first);
      p.Ended? ==>
        1 <= p.rounds <= |draws| && p.byFirst == AttacksAt(first, p.rounds - 1)
        && p.duel == After(s1, s2, aliased, duel, draws, first, p.rounds)
        && DownAfter(s1, s2, aliased, duel, draws, first, p.rounds)
        && forall k :: 1 <= k < p.rounds ==> !DownAfter(s1, s2, aliased, duel, draws, first, k)
    decreases |draws|
  {
    if draws != [] {
      FightStep(s1, s2, aliased, duel, draws, first);
      var next := Strike(s1, s2, aliased, duel, first, draws[0]);
      var tail := draws[1..];
      if Defender(next, first) > 0 {
        FightEndsAtFirstKnockout(s1, s2, aliased, next, tail, !first);
        var q := Fight(s1, s2, aliased, next, tail, !first);
        if q.Ended? {
          assert Fight(s1, s2, aliased, duel, draws, first) == Ended(q.duel, q.rounds + 1, q.byFirst);
          AfterStep(s1, s2, aliased, duel, draws, first, q.rounds + 1);
          NoKnockoutYet(s1, s2, aliased, duel, draws, first, next, tail, !first, q.rounds - 1);
          DownAfterStep(s1, s2, aliased, duel, draws, first, q.rounds + 1);
          assert AttacksAt(first, q.rounds) == AttacksAt(!first, q.rounds - 1);
        }
      }
    }
  }

  /** When the draws run out, no defender was ever down. */
  lemma {:induction false} UnfinishedFightHasNoKnockout(s1: Stats, s2: Stats, aliased: bool, duel: Duel,
                                                        draws: seq<Draw>, first: bool)
    requires ScriptFits(s1, s2, draws, first)
    ensures var p := Fight(s1, s2, aliased, duel, draws, first);
      p.Ongoing? ==>
        p.duel == After(s1, s2, aliased, duel, draws, first, |draws|)
        && forall k :: 1 <= k <= |draws| ==> !DownAfter(s1, s2, aliased, duel, draws, first, k)
    decreases |draws|
  {
    if draws != [] {
      var next := Strike(s1, s2, aliased, duel, first, draws[0]);
      var tail := draws[1..];
      if Defender(next, first) > 0 {
        UnfinishedFightHasNoKnockout(s1, s2, aliased, next, tail, !first);
        if Fight(s1, s2, aliased, next, tail, !first).Ongoing? {
          AfterStep(s1, s2, aliased, duel, draws, first, |draws|);
          NoKnockoutYet(s1, s2, aliased, duel, draws, first, next, tail, !first, |draws| - 1);
        }
      }
    }
  }

  /** Playing `n` rounds is playing the first one and then `n - 1` more. */
  lemma AfterStep(s1: Stats, s2: Stats, aliased: bool, duel: Duel, draws: seq<Draw>, first: bool,
                  n: nat)
    requires 1 <= n <= |draws| && ScriptFits(s1, s2, draws, first)
    ensures After(s1, s2, aliased, duel, draws, first, n)
         == After(s1, s2, aliased, Strike(s1, s2, aliased, duel, first, draws[0]), draws[1..], !first, n - 1)
  {
  }

  /** If the first round leaves its defender standing and none of the next
      `m` does, none of the first `m + 1` rounds knocks a defender down. */
  lemma NoKnockoutYet(s1: Stats, s2: Stats, aliased: bool, duel: Duel, draws: seq<Draw>, first: bool,
                      next: Duel, tail: seq<Draw>, second: bool, m: nat)
    requires m < |draws| && ScriptFits(s1, s2, draws, first)
    requires next == Strike(s1, s2, aliased, duel, first, draws[0])
    requires tail == draws[1..] && second == !first
    requires Defender(next, first) > 0
    requires forall k :: 1 <= k <= m ==> !DownAfter(s1, s2, aliased, next, tail, second, k)
    ensures forall k :: 1 <= k <= m + 1 ==> !DownAfter(s1, s2, aliased, duel, draws, first, k)
  {
    assert After(s1, s2, aliased, duel, draws, first, 1) == next;
    forall k | 2 <= k <= m + 1
      ensures !DownAfter(s1, s2, aliased, duel, draws, first, k)
    {
      DownAfterStep(s1, s2, aliased, duel, draws, first, k);
    }
  }

  /** A round between two distinct warriors leaves the attacker's health
      as it was. */
  lemma StrikeSparesAttacker(s1: Stats, s2: Stats, duel: Duel, first: bool, d: Draw)
    requires RoundFits(s1, s2, first, d)
    ensures Attacker(Strike(s1, s2, false, duel, first, d), first) == Attacker(duel, first)
  {
  }

  /** Between two distinct warriors that both start alive, a finished fight
      leaves the last attacker alive (and, by the contract of `Fight`, the
      last defender at 0 or below). */
  lemma {:induction false} FightHasOneSurvivor(s1: Stats, s2: Stats, duel: Duel, draws: seq<Draw>,
                                               first: bool)
    requires ScriptFits(s1, s2, draws, first)
    requires duel.h1 > 0 && duel.h2 > 0
    ensures var p := Fight(s1, s2, false, duel, draws, first);
      p.Ended? ==> Attacker(p.duel, p.byFirst) > 0
    decreases |draws|
  {
    if draws != [] {
      FightStep(s1, s2, false, duel, draws, first);
      var next := Strike(s1, s2, false, duel, first, draws[0]);
      StrikeSparesAttacker(s1, s2, duel, first, draws[0]);
      if Defender(next, first) > 0 {
        FightHasOneSurvivor(s1, s2, next, draws[1..], !first);
      }
    }
  }

  /** Between two distinct warriors that both start alive, a fight that is
      still going when the draws run out leaves both alive. */
  lemma {:induction false} UnfinishedFightHasTwoSurvivors(s1: Stats, s2: Stats, duel: Duel,
                                                          draws: seq<Draw>, first: bool)
    requires ScriptFits(s1, s2, draws, first)
    requires duel.h1 > 0 && duel.h2 > 0
    ensures var p := Fight(s1, s2, false, duel, draws, first);
      p.Ongoing? ==> p.duel.h1 > 0 && p.duel.h2 > 0
    decreases |draws|
  {
    if draws != [] {
      FightStep(s1, s2, false, duel, draws, first);
      var next := Strike(s1, s2, false, duel, first, draws[0]);
      StrikeSparesAttacker(s1, s2, duel, first, draws[0]);
      if Defender(next, first) > 0 {
        UnfinishedFightHasTwoSurvivors(s1, s2, next, draws[1..], !first);
      }
    }
  }

  /** The loop need not end: when both attack bounds are 0 or 1, neither
      block bound is negative and both warriors start alive, every attack is
      1, every block is at least 1, no round deals damage, and the fight goes
      on for any number of draws. */
  lemma {:induction false} HarmlessFightNeverEnds(s1: Stats, s2: Stats, aliased: bool, duel: Duel,
                                                  draws: seq<Draw>, first: bool)
    requires ScriptFits(s1, s2, draws, first)
    requires 0 <= s1.attkMax <= 1 && 0 <= s2.attkMax <= 1
    requires s1.blockMax >= 0 && s2.blockMax >= 0
    requires duel.h1 > 0 && duel.h2 > 0 && (aliased ==> duel.h1 == duel.h2)
    ensures Fight(s1, s2, aliased, duel, draws, first) == Ongoing(duel)
    decreases |draws|
  {
    if draws != [] {
      var d := draws[0];
      if first {
        assert Damage(s1.Attack(d.attack), s2.Block(d.chance, d.block)) == 0;
      } else {
        assert Damage(s2.Attack(d.attack), s1.Block(d.chance, d.block)) == 0;
      }
      assert Strike(s1, s2, aliased, duel, first, d) == duel;
      HarmlessFightNeverEnds(s1, s2, aliased, duel, draws[1..], !first);
    }
  }

  /** A fight that a single round decides: a first warrior with attack bound
      5 and health 10 against one with health 1 and both bounds 0, every
      roll at its maximum. The block of a zero bound is 1, not 0, so the
      round deals 4 and leaves the defender at -3. */
  lemma OneRoundFight()
    ensures var s1 := Stats(5, 0, None);
      var s2 := Stats(0, 0, None);
      var draws := [Draw(4, 0.0, 0), Draw(0, 0.0, 0)];
      ScriptFits(s1, s2, draws, true) && Fight(s1, s2, false, Duel(10, 1), draws, true) == Ended(Duel(10, -3), 1, true)
  {
  }

  /** What one round of the loop means for the fight as a whole: `whole`
      is the fight from the start, and `Delay(..., turn)` of the rest of
      it from the current healths is `whole` before the round. */
  lemma LoopRound(s1: Stats, s2: Stats, aliased: bool, before: Duel, rest: seq<Draw>, first: bool,
                  turn: nat, whole: Progress, after: Duel)
    requires rest != [] && ScriptFits(s1, s2, rest, first)
    requires Delay(Fight(s1, s2, aliased, before, rest, first), turn) == whole
    requires after == Strike(s1, s2, aliased, before, first, rest[0])
    ensures ScriptFits(s1, s2, rest[1..], !first)
    ensures Defender(after, first) <= 0 ==> whole == Ended(after, turn + 1, first)
    ensures Defender(after, first) > 0 ==>
              Delay(Fight(s1, s2, aliased, after, rest[1..], !first), turn + 1) == whole
  {
  }

  /** `startFight(w1, w2)`: a null warrior is refused. Otherwise the
      warriors alternate, `w1` attacking first, and the loop stops at the
      first "Game Over"; the new healths and the reported progress are those
      of `Fight`. Only the healths change. The loop also stops when the
      scripted draws run out, where the Java loop keeps drawing. */
  method StartFight(w1: Warrior?, w2: Warrior?, draws: seq<Draw>) returns (r: Result<Progress, Error>)
    requires w1 != null && w2 != null ==> ScriptFits(w1.CombatStats(), w2.CombatStats(), draws, true)
    modifies w1, w2
    ensures w1 == null || w2 == null ==> r == Failure(NullWarrior)
    ensures w1 == null || w2 == null ==> (w1 != null ==> unchanged(w1)) && (w2 != null ==> unchanged(w2))
    ensures w1 != null && w2 != null ==>
              var p := Fight(old(w1.CombatStats()), old(w2.CombatStats()), w1 == w2,
                             Duel(old(w1.health), old(w2.health)), draws, true);
              r == Success(p) && w1.health == p.duel.h1 && w2.health == p.duel.h2
    ensures w1 != null ==> w1.Profile() == old(w1.Profile())
    ensures w2 != null ==> w2.Profile() == old(w2.Profile())
  {
    if w1 == null || w2 == null {
      return Failure(NullWarrior);
    }
    ghost var p1, p2 := w1.Profile(), w2.Profile();
    ghost var s1, s2 := p1.CombatStats(), p2.CombatStats();
    ghost var aliased := w1 == w2;
    ghost var whole := Fight(s1, s2, aliased, Duel(w1.health, w2.health), draws, true);
    var turn := 0;
    while turn < |draws|
      invariant turn <= |draws|
      invariant w1.Profile() == p1 && w2.Profile() == p2
      invariant ScriptFits(s1, s2, draws[turn..], true)
      invariant Delay(Fight(s1, s2, aliased, Duel(w1.health, w2.health), draws[turn..], true), turn)
                == whole
      decreases |draws| - turn
    {
      // w1 attacks w2
      ghost var before := Duel(w1.health, w2.health);
      assert RoundFits(s1, s2, true, draws[turn]);
      var status := GetAttackResult(w1, w2, draws[turn]);
      assert w1.health == if aliased then w2.health else before.h1;
      assert Duel(w1.health, w2.health) == Strike(s1, s2, aliased, before, true, draws[turn]);
      LoopRound(s1, s2, aliased, before, draws[turn..], true, turn, whole, Duel(w1.health, w2.health));
      assert draws[turn..][1..] == draws[turn + 1..];
      turn := turn + 1;
      IsGameOverText(status.value);
      if status.value.Text() == GameOverText {
        return Success(Ended(Duel(w1.health, w2.health), turn, true));
      }
      if turn == |draws| {
        break;
      }
      // w2 attacks w1
      before := Duel(w1.health, w2.health);
      assert RoundFits(s1, s2, false, draws[turn]);
      status := GetAttackResult(w2, w1, draws[turn]);
      assert w2.health == if aliased then w1.health else before.h2;
      assert Duel(w1.health, w2.health) == Strike(s1, s2, aliased, before, false, draws[turn]);
      LoopRound(s1, s2, aliased, before, draws[turn..], false, turn, whole, Duel(w1.health, w2.health));
      assert draws[turn..][1..] == draws[turn + 1..];
      turn := turn + 1;
      IsGameOverText(status.value);
      if status.value.Text() == GameOverText {
        return Success(Ended(Duel(w1.health, w2.health), turn, false));
      }
    }
    return Success(Ongoing(Duel(w1.health, w2.health)));
  }
}
