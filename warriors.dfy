/** A duel participant: the `Warrior` class and its dodging specialisation
    `DodgeWarrior`, folded into one class whose constant `isDodgeWarrior`
    records which of the two was constructed. */
module Warriors {
  import opened Wrappers
  import opened JavaLang
  import opened Teleports

  /** The exceptions the core throws. All are IllegalArgumentException except
      `TeleportTypeUnset`, the IllegalStateException of a teleport before any
      strategy was installed. */
  datatype Error =
    | InvalidName         // null or blank name
    | NullTeleportType    // null strategy handed to setTeleportAbility
    | DodgeOutOfRange     // dodge chance outside [0.0, 1.0]
    | NegativeHeal        // negative heal amount
    | NullWarrior         // null warrior handed to the battle
    | TeleportTypeUnset   // teleport with no strategy installed
  {
    predicate IsIllegalState() {
      TeleportTypeUnset?
    }
  }

  /** What a name always is once `setName` accepted it. */
  type Name = s: string | IsTrimmedNonEmpty(s) witness "Warrior"

  /** A dodge chance accepted by the validation. */
  type Fraction = p: real | 0.0 <= p <= 1.0

  /** The block value of a successful dodge. */
  const DodgeBlock: Int32 := 10000

  /** The name assigned by the no-argument constructor. */
  const DefaultName: Name := "Warrior"

  /** A roll is `1 + (int)(Math.random() * max)`. The model receives the
      truncated product `t` itself, so `ValidDraw` is the range that term
      takes for a draw in [0, 1): [0, max) for a positive maximum, 0 for a
      zero maximum, and (max, 0] for a negative one (the cast truncates
      toward zero). */
  predicate ValidDraw(max: int, t: int) {
    if max > 0 then 0 <= t < max
    else if max == 0 then t == 0
    else max < t <= 0
  }

  /** The roll formula shared by `attack` and `block`. */
  function Roll(max: Int32, t: int): (r: Int32)
    requires ValidDraw(max, t)
    ensures max >= 1 ==> 1 <= r <= max
    ensures max == 0 ==> r == 1
    ensures max < 0 ==> max + 2 <= r <= 1
  {
    1 + t
  }

  /** Every value in [1, max] is the roll of some draw. */
  lemma RollCoversRange(max: Int32, v: int)
    requires 1 <= v <= max
    ensures ValidDraw(max, v - 1) && Roll(max, v - 1) == v
  {
  }

  /** The part of a warrior a round reads: the two roll bounds and, for a
      dodge warrior, its dodge chance. None of it changes during a fight. */
  datatype Stats = Stats(attkMax: Int32, blockMax: Int32, dodge: Option<Fraction>) {

    /** `attack()`: a roll against `attkMax`. */
    function Attack(t: int): (r: Int32)
      requires ValidDraw(attkMax, t)
      ensures attkMax >= 1 ==> 1 <= r <= attkMax
      ensures attkMax == 0 ==> r == 1
      ensures attkMax < 0 ==> attkMax + 2 <= r <= 1
    {
      Roll(attkMax, t)
    }

    /** Whether the dodge draw `chance` evades: only a dodge warrior can,
        and it does when the draw is at most its dodge chance. */
    predicate Dodges(chance: real) {
      dodge.Some? && chance <= dodge.value
    }

    /** `block()`, with `DodgeWarrior`'s override: the sentinel on a dodge,
        otherwise a roll against `blockMax`. A plain warrior ignores
        `chance`. */
    function Block(chance: real, t: int): (r: Int32)
      requires 0.0 <= chance < 1.0
      requires ValidDraw(blockMax, t)
      ensures Dodges(chance) ==> r == DodgeBlock
      ensures !Dodges(chance) && blockMax >= 1 ==> 1 <= r <= blockMax
      ensures !Dodges(chance) && blockMax == 0 ==> r == 1
      ensures !Dodges(chance) && blockMax < 0 ==> blockMax + 2 <= r <= 1
    {
      if Dodges(chance) then DodgeBlock else Roll(blockMax, t)
    }
  }

  /** A dodge chance of 1.0 evades every draw in [0, 1). */
  lemma CertainDodge(blockMax: Int32, attkMax: Int32, chance: real, t: int)
    requires 0.0 <= chance < 1.0 && ValidDraw(blockMax, t)
    ensures Stats(attkMax, blockMax, Some(1.0)).Block(chance, t) == DodgeBlock
  {
  }

  /** A dodge chance of 0.0 still evades the draw 0.0, because the test is
      `chance <= dodgePercent`, and it evades no other draw. */
  lemma ZeroDodgeChance(blockMax: Int32, attkMax: Int32, chance: real, t: int)
    requires 0.0 <= chance < 1.0 && ValidDraw(blockMax, t)
    ensures var s := Stats(attkMax, blockMax, Some(0.0));
      s.Dodges(chance) <==> chance == 0.0
  {
  }

  /** The name check of `setName`: null and blank names are refused, any
      other name is kept trimmed. */
  function CheckName(s: Option<string>): (r: Result<Name, Error>)
    ensures r.Failure? <==> s.None? || Trim(s.value) == []
    ensures r.Failure? ==> r.error == InvalidName
    ensures r.Success? ==> r.value == Trim(s.value)
  {
    if s.None? || Trim(s.value) == [] then Failure(InvalidName)
    else Success(Trim(s.value))
  }

  /** The range check `DodgeWarrior` applies in its constructor and in
      `setDodgePercent`. */
  function CheckDodgePercent(p: real): (r: Result<Fraction, Error>)
    ensures r.Failure? <==> p < 0.0 || p > 1.0
    ensures r.Failure? ==> r.error == DodgeOutOfRange
    ensures r.Success? ==> r.value == p
  {
    if p < 0.0 || p > 1.0 then Failure(DodgeOutOfRange) else Success(p)
  }

  /** Everything about a warrior except its health: what a round leaves
      alone. */
  datatype WarriorProfile = WarriorProfile(name: Name, attkMax: Int32, blockMax: Int32,
                                           isDodgeWarrior: bool, dodgePercent: Fraction,
                                           teleportType: Option<Teleports>)
  {
    /** The roll bounds and dodge chance a round reads. */
    function CombatStats(): Stats {
      Stats(attkMax, blockMax, if isDodgeWarrior then Some(dodgePercent) else None)
    }
  }

  class Warrior {
    var name: Name
    var health: Int32
    var attkMax: Int32
    var blockMax: Int32
    /** None while no strategy is installed (Java's null). */
    var teleportType: Option<Teleports>
    /** True for an object built as a `DodgeWarrior`. */
    const isDodgeWarrior: bool
    /** Meaningful only when `isDodgeWarrior`; 0.0 otherwise. */
    var dodgePercent: Fraction

    /** `new Warrior()`: every field keeps its declared initial value. */
    constructor Default()
      ensures name == DefaultName && health == 0 && attkMax == 0 && blockMax == 0
      ensures teleportType == None && !isDodgeWarrior && dodgePercent == 0.0
    {
      name := DefaultName;
      health, attkMax, blockMax := 0, 0, 0;
      teleportType := None;
      isDodgeWarrior := false;
      dodgePercent := 0.0;
    }

    /** Allocation with every field given; the validating entry points are
        `New` and `NewDodge`. */
    constructor Init(name: Name, health: Int32, attkMax: Int32, blockMax: Int32,
                     isDodgeWarrior: bool, dodgePercent: Fraction,
                     teleportType: Option<Teleports>)
      ensures this.name == name && this.health == health
      ensures this.attkMax == attkMax && this.blockMax == blockMax
      ensures this.isDodgeWarrior == isDodgeWarrior && this.dodgePercent == dodgePercent
      ensures this.teleportType == teleportType
    {
      this.name := name;
      this.health := health;
      this.attkMax := attkMax;
      this.blockMax := blockMax;
      this.isDodgeWarrior := isDodgeWarrior;
      this.dodgePercent := dodgePercent;
      this.teleportType := teleportType;
    }

    /** `new Warrior(name, health, attkMax, blockMax)`: only the name is
        validated; the three numbers are stored as given and no teleport
        strategy is installed. */
    static method New(name: Option<string>, health: Int32, attkMax: Int32, blockMax: Int32)
      returns (r: Result<Warrior, Error>)
      ensures r.Failure? <==> CheckName(name).Failure?
      ensures r.Failure? ==> r.error == InvalidName
      ensures r.Success? ==> fresh(r.value) && r.value.name == Trim(name.value)
      ensures r.Success? ==>
                r.value.health == health && r.value.attkMax == attkMax && r.value.blockMax == blockMax
      ensures r.Success? ==> r.value.teleportType == None && !r.value.isDodgeWarrior
    {
      var checked := CheckName(name);
      if checked.Failure? {
        return Failure(checked.error);
      }
      var w := new Warrior.Init(checked.value, health, attkMax, blockMax, false, 0.0, None);
      return Success(w);
    }

    /** `new DodgeWarrior(name, health, attkMax, blockMax, dodgePercent)`: the
        name is checked first (by the superclass constructor), then the dodge
        chance; the new warrior can teleport. */
    static method NewDodge(name: Option<string>, health: Int32, attkMax: Int32, blockMax: Int32,
                           dodgePercent: real)
      returns (r: Result<Warrior, Error>)
      ensures CheckName(name).Failure? ==> r == Failure(InvalidName)
      ensures CheckName(name).Success? && (dodgePercent < 0.0 || dodgePercent > 1.0) ==>
                r == Failure(DodgeOutOfRange)
      ensures r.Success? <==> CheckName(name).Success? && 0.0 <= dodgePercent <= 1.0
      ensures r.Success? ==> fresh(r.value) && r.value.name == Trim(name.value)
      ensures r.Success? ==>
                r.value.health == health && r.value.attkMax == attkMax && r.value.blockMax == blockMax
      ensures r.Success? ==> r.value.isDodgeWarrior && r.value.dodgePercent == dodgePercent
      ensures r.Success? ==>
                r.value.teleportType == Some(CanTeleport) && r.value.Teleport() == Success(TeleportsAway)
    {
      var checked := CheckName(name);
      if checked.Failure? {
        return Failure(checked.error);
      }
      var percent := CheckDodgePercent(dodgePercent);
      if percent.Failure? {
        return Failure(percent.error);
      }
      var w := new Warrior.Init(checked.value, health, attkMax, blockMax, true, percent.value,
                                Some(CanTeleport));
      return Success(w);
    }

    /** The roll bounds and dodge chance a round reads. */
    function CombatStats(): (s: Stats)
      reads this
    {
      Profile().CombatStats()
    }

    /** Every field but `health`. */
    function Profile(): WarriorProfile
      reads this
    {
      WarriorProfile(name, attkMax, blockMax, isDodgeWarrior, dodgePercent, teleportType)
    }

    /** `getName()`: always a non-empty name with nothing to trim. */
    function GetName(): (r: string)
      reads this
      ensures r != [] && Trim(r) == r
    {
      TrimOfTrimmed(name);
      name
    }

    /** `setName(s)`: a null or blank name is refused and the old name kept;
        otherwise the trimmed name is stored. Nothing else changes. */
    method SetName(s: Option<string>) returns (r: Outcome<Error>)
      modifies this`name
      ensures s.None? || Trim(s.value) == [] ==> r == Fail(InvalidName) && name == old(name)
      ensures s.Some? && Trim(s.value) != [] ==> r == Pass && name == Trim(s.value)
    {
      var checked := CheckName(s);
      if checked.Failure? {
        return Fail(checked.error);
      }
      name := checked.value;
      return Pass;
    }

    /** `teleport()`: an illegal-state error when no strategy is installed,
        otherwise exactly what the installed strategy reports. */
    function Teleport(): (r: Result<string, Error>)
      reads this
      ensures teleportType.None? <==> r.Failure?
      ensures r.Failure? ==> r.error.IsIllegalState()
      ensures teleportType.Some? ==> r == Success(teleportType.value.Teleport())
    {
      if teleportType.None? then Failure(TeleportTypeUnset)
      else Success(teleportType.value.Teleport())
    }

    /** `setTeleportAbility(t)`: a null strategy is refused; otherwise it
        replaces the installed one, and `teleport()` reports the new
        strategy's label from then on. Nothing else changes. */
    method SetTeleportAbility(t: Option<Teleports>) returns (r: Outcome<Error>)
      modifies this`teleportType
      ensures t.None? ==> r == Fail(NullTeleportType) && teleportType == old(teleportType)
      ensures t.Some? ==> r == Pass && teleportType == t
      ensures t.Some? ==> Teleport() == Success(t.value.Teleport())
    {
      if t.None? {
        return Fail(NullTeleportType);
      }
      teleportType := t;
      return Pass;
    }

    /** `isAlive()`: the health check the battle also uses. */
    predicate IsAlive()
      reads this
      ensures IsAlive() <==> health >= 1
    {
      health > 0
    }

    /** `heal(amount)`: a negative amount is refused and health kept;
        otherwise the amount is added with Java `int` addition, which is the
        exact sum unless it passes `Integer.MAX_VALUE`. */
    method Heal(amount: Int32) returns (r: Outcome<Error>)
      modifies this`health
      ensures amount < 0 ==> r == Fail(NegativeHeal) && health == old(health)
      ensures amount >= 0 ==> r == Pass && health == Wrap(old(health) + amount)
      ensures amount >= 0 && old(health) + amount <= MaxInt ==> health == old(health) + amount
    {
      if amount < 0 {
        return Fail(NegativeHeal);
      }
      health := Wrap(health + amount);
      return Pass;
    }

    /** `getDodgePercent()` of a dodge warrior: always within [0, 1]. */
    function GetDodgePercent(): (p: real)
      reads this
      requires isDodgeWarrior
      ensures 0.0 <= p <= 1.0 && CombatStats().dodge == Some(p)
    {
      dodgePercent
    }

    /** `setDodgePercent(p)` of a dodge warrior: a chance outside [0, 1] is
        refused and the old one kept; otherwise it is stored. */
    method SetDodgePercent(p: real) returns (r: Outcome<Error>)
      requires isDodgeWarrior
      modifies this`dodgePercent
      ensures (p < 0.0 || p > 1.0) ==> r == Fail(DodgeOutOfRange) && dodgePercent == old(dodgePercent)
      ensures 0.0 <= p <= 1.0 ==> r == Pass && GetDodgePercent() == p
    {
      var checked := CheckDodgePercent(p);
      if checked.Failure? {
        return Fail(checked.error);
      }
      dodgePercent := checked.value;
      return Pass;
    }
  }

  /** Healing at `Integer.MAX_VALUE` wraps to `Integer.MIN_VALUE`: a healthy
      warrior healed by 1 is no longer alive. */
  lemma HealCanWrapAround()
    ensures Wrap(MaxInt + 1) == MinInt
  {
  }

  /** A warrior at `Integer.MAX_VALUE` healed by 1 ends up at
      `Integer.MIN_VALUE` and is no longer alive. */
  method HealPastMaxValue(w: Warrior) returns (r: Outcome<Error>)
    requires w.health == MaxInt
    modifies w
    ensures r == Pass && w.health == MinInt && !w.IsAlive()
  {
    r := w.Heal(1);
    HealCanWrapAround();
  }
}
