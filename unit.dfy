/** One combat unit: a single record with a role tag and a side, replacing
    the Red/Blue class pairs of the warrior agents, and the baseline stats
    each role is created with. */
module Unit {
  import opened Params

  datatype Side = Red | Blue

  datatype Role = Warrior | General | Healer | Marksman | Guard | Flagger

  /** The agent's `type` attribute: its side while alive, `dead` afterwards. */
  datatype Tag = Living(side: Side) | Dead

  /** An army label: the side followed by the squad number. */
  datatype Army = Army(side: Side, squad: nat)

  /** Units refer to one another (guarder, guarded ally, soldiers) by handle:
      the unit's position in the roster. Fields a role does not use keep
      their initial value. */
  datatype Unit = Unit(
    id: nat,
    side: Side,
    army: Army,
    role: Role,
    dead: bool,
    hp: real,
    initialHp: real,
    morale: real,
    attackDamage: real,
    initialAttackDamage: real,
    healDamage: real,
    initialHealDamage: real,
    attackRange: real,
    movementSpeed: real,
    successChance: int,
    hasKilledRecently: bool,
    damageInflictedRecently: real,
    damageReceivedRecently: real,
    counter: int,
    beingHealed: bool,
    protected: bool,
    guarder: nat,
    guardedAlly: nat,
    guarding: bool,
    soldiers: seq<nat>)

  function TagOf(u: Unit): (r: Tag)
    ensures r == Dead <==> u.dead
    ensures r.Living? ==> r.side == u.side
  {
    if u.dead then Dead else Living(u.side)
  }

  function SideSpeed(side: Side): real {
    if side == Red then RedMovementSpeed else BlueMovementSpeed
  }

  /** The starting hp of each role: 100 for warriors and flaggers, 300 for
      generals, 120 for healers, 60 for marksmen, 600 for guards. */
  function RoleHp(role: Role): (r: real)
    ensures role == Warrior || role == Flagger ==> r == 100.0
    ensures role == General ==> r == 300.0
    ensures role == Healer ==> r == 120.0
    ensures role == Marksman ==> r == 60.0
    ensures role == Guard ==> r == 600.0
  {
    match role
    case Warrior => BasicHp
    case General => 3.0 * BasicHp
    case Healer => 1.2 * BasicHp
    case Marksman => 0.6 * BasicHp
    case Guard => 6.0 * BasicHp
    case Flagger => BasicHp
  }

  /** The starting attack damage of each role. */
  function RoleDamage(role: Role): (r: real)
    ensures role == Warrior ==> r == 3.0
    ensures role == General ==> r == 7.5
    ensures role == Healer ==> r == 0.9
    ensures role == Marksman ==> r == 2.4
    ensures role == Guard ==> r == 1.2
    ensures role == Flagger ==> r == 2.7
  {
    match role
    case Warrior => BasicDamage
    case General => 2.5 * BasicDamage
    case Healer => 0.3 * BasicDamage
    case Marksman => 0.8 * BasicDamage
    case Guard => 0.4 * BasicDamage
    case Flagger => 0.9 * BasicDamage
  }

  /** Warriors and generals start at the basic morale 8, every other role
      at 10. */
  function RoleMorale(role: Role): (r: real)
    ensures r == if role == Warrior || role == General then 8.0 else 10.0
  {
    match role
    case Warrior => BasicMorale
    case General => BasicMorale
    case _ => 10.0
  }

  /** The attack range of each role: 2.4 for generals, 6 for marksmen, 0.8
      for guards, the basic 2 otherwise. */
  function RoleAttackRange(role: Role): (r: real)
    ensures role == General ==> r == 2.4
    ensures role == Marksman ==> r == 6.0
    ensures role == Guard ==> r == 0.8
    ensures role in {Warrior, Healer, Flagger} ==> r == 2.0
  {
    match role
    case General => 1.2 * BasicAttackRange
    case Marksman => 3.0 * BasicAttackRange
    case Guard => 0.4 * BasicAttackRange
    case _ => BasicAttackRange
  }

  /** The movement speed of each role, with both sides at speed 0.8:
      flaggers of both sides take 1.1 times the blue speed, as the code has
      it. */
  function RoleSpeed(role: Role, side: Side): (r: real)
    ensures role == General ==> r == 0.72
    ensures role == Marksman ==> r == 1.04
    ensures role == Flagger ==> r == 0.88
    ensures role in {Warrior, Healer, Guard} ==> r == 0.8
  {
    match role
    case General => 0.9 * SideSpeed(side)
    case Marksman => 1.3 * SideSpeed(side)
    case Flagger => 1.1 * BlueMovementSpeed
    case _ => SideSpeed(side)
  }

  /** A unit as the agent constructors create it; `self` is its own handle,
      which it starts out as its own guarder and (for guards) its own ward. */
  function NewUnit(id: nat, self: nat, side: Side, role: Role, army: Army): (u: Unit)
    ensures u.id == id && u.side == side && u.role == role && u.army == army
    ensures !u.dead && u.hp == u.initialHp == RoleHp(role) > 0.0
    ensures u.morale == RoleMorale(role) > 0.0
    ensures u.attackDamage == u.initialAttackDamage == RoleDamage(role) > 0.0
    ensures u.attackRange == RoleAttackRange(role) && u.movementSpeed == RoleSpeed(role, side)
    ensures !u.protected && u.guarder == self && u.guardedAlly == self && !u.guarding
    ensures u.soldiers == [] && u.counter == 1
    ensures !u.hasKilledRecently && u.damageInflictedRecently == 0.0 && u.damageReceivedRecently == 0.0
    ensures role == Healer <==> u.healDamage == u.initialHealDamage == 2.0
    ensures role == Marksman <==> u.successChance == SuccessChance
  {
    Unit(
      id := id, side := side, army := army, role := role, dead := false,
      hp := RoleHp(role), initialHp := RoleHp(role), morale := RoleMorale(role),
      attackDamage := RoleDamage(role), initialAttackDamage := RoleDamage(role),
      healDamage := if role == Healer then 2.0 else 0.0,
      initialHealDamage := if role == Healer then 2.0 else 0.0,
      attackRange := RoleAttackRange(role), movementSpeed := RoleSpeed(role, side),
      successChance := if role == Marksman then SuccessChance else 0,
      hasKilledRecently := false, damageInflictedRecently := 0.0, damageReceivedRecently := 0.0,
      counter := 1, beingHealed := false,
      protected := false, guarder := self, guardedAlly := self, guarding := false,
      soldiers := [])
  }
}
