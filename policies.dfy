/** The per-role turn policies (`step` of each agent class) as functions
    from the table, the turn's neighbour lists and its random draws to the
    new table and what the unit did. Moving is a no-op on the table: the
    model records only that the unit moved. */
module Policies {
  import opened Params
  import opened Unit
  import opened Tables
  import opened Scans
  import opened Rules

  /** What a unit did with its turn. */
  datatype Act =
    | Strike(target: nat)
    | PreciseShot(target: nat)
    | Move
    | MoveToHealer
    | HealThenMove(patients: seq<nat>)
    | ProtectThenMove(ward: nat)

  datatype Turn = Turn(table: Table, act: Act)

  /** Every neighbour list of the turn names roster units. */
  predicate ScanIn(sc: Scan, n: nat) {
    Handles(sc.attack, n) && Handles(sc.healing, n) && Handles(sc.flocking, n)
    && Handles(sc.guarding, n) && Handles(sc.close, n) && Handles(sc.courage, n)
  }

  /** `self.counter += 1` at the end of a turn. */
  function Bumped(t: Table, h: nat): (r: Table)
    requires Linked(t.units) && h < |t.units|
    ensures Linked(r.units) && r.schedule == t.schedule
    ensures r.units == t.units[h := t.units[h].(counter := t.units[h].counter + 1)]
  {
    Updated(t, h, t.units[h].(counter := t.units[h].counter + 1))
  }

  /** Whether one of the listed units has the given role (the loops that
      look for a healer). */
  predicate HasRole(us: seq<Unit>, xs: seq<nat>, role: Role)
    requires Handles(xs, |us|)
  {
    exists k | 0 <= k < |xs| :: us[xs[k]].role == role
  }

  /** The fight branch every role ends in: attack an enemy in attack range
      chosen by the draw, or move when there is none. */
  function Fight(t: Table, h: nat, ns: seq<nat>, pick: nat): (r: Turn)
    requires Linked(t.units) && h < |t.units| && Handles(ns, |t.units|)
    ensures Linked(r.table.units) && |r.table.units| == |t.units|
    ensures var es := Enemies(t.units, h, ns);
      && (r.act == Move <==> es == [])
      && (r.act.Strike? <==> es != [])
      && (r.act.Strike? ==> r.act.target in es && r.table == Attacked(t, h, r.act.target))
      && (r.act == Move ==> r.table == t)
  {
    var es := Enemies(t.units, h, ns);
    if es != [] then
      var e := es[pick % |es|];
      Turn(Attacked(t, h, e), Strike(e))
    else Turn(t, Move)
  }

  /** A common warrior's turn: fight, then count the turn. */
  function WarriorTurn(t: Table, h: nat, sc: Scan, ch: Choice): (r: Turn)
    requires Linked(t.units) && h < |t.units| && ScanIn(sc, |t.units|)
    ensures Linked(r.table.units) && |r.table.units| == |t.units|
    ensures var es := Enemies(t.units, h, sc.attack);
      && (r.act == Move <==> es == [])
      && (r.act.Strike? <==> es != [])
      && (r.act.Strike? ==> r.act.target in es && r.table == Bumped(Attacked(t, h, r.act.target), h))
      && (r.act == Move ==> r.table == Bumped(t, h))
  {
    var f := Fight(t, h, sc.attack, ch.pick);
    Turn(Bumped(f.table, h), f.act)
  }

  /** A general's turn: it notes whether a healer is in healing range; when
      its hp is under a quarter of the initial hp and no healer is that
      close, it walks towards a healer in its flocking radius if it sees one
      and fights otherwise; at any other time it fights. */
  function GeneralTurn(t: Table, h: nat, sc: Scan, ch: Choice): (r: Turn)
    requires Linked(t.units) && h < |t.units| && ScanIn(sc, |t.units|)
    ensures Linked(r.table.units) && |r.table.units| == |t.units|
    ensures var u := t.units[h];
      var healed := HasRole(t.units, Allies(t.units, h, sc.healing), Healer);
      && (r.act == MoveToHealer <==>
            u.hp < 0.25 * u.initialHp && !healed && HasRole(t.units, Allies(t.units, h, sc.flocking), Healer))
      && r.table.units[h].beingHealed == healed
      && (r.act != MoveToHealer ==>
            r.act == Fight(Updated(t, h, u.(beingHealed := healed)), h, sc.attack, ch.pick).act)
  {
    var u := t.units[h];
    var healed := HasRole(t.units, Allies(t.units, h, sc.healing), Healer);
    var seen := HasRole(t.units, Allies(t.units, h, sc.flocking), Healer);
    var t1 := Updated(t, h, u.(beingHealed := healed));
    var f := if u.hp < 0.25 * u.initialHp && !healed && seen then Turn(t1, MoveToHealer)
             else Fight(t1, h, sc.attack, ch.pick);
    AttackKeepsFlags(t1, h, sc.attack, ch.pick);
    Turn(Bumped(f.table, h), f.act)
  }

  /** A healer's turn: with allies in healing range it heals each damaged
      one and moves; otherwise it fights. */
  function HealerTurn(t: Table, h: nat, sc: Scan, ch: Choice): (r: Turn)
    requires Linked(t.units) && h < |t.units| && ScanIn(sc, |t.units|)
    ensures Linked(r.table.units) && |r.table.units| == |t.units|
    ensures var allies := Allies(t.units, h, sc.healing);
      && (allies != [] <==> r.act == HealThenMove(allies))
      && (allies == [] ==> r.act == Fight(t, h, sc.attack, ch.pick).act)
  {
    var allies := Allies(t.units, h, sc.healing);
    var f := if allies != [] then Turn(HealedAll(t, h, allies), HealThenMove(allies))
             else Fight(t, h, sc.attack, ch.pick);
    Turn(Bumped(f.table, h), f.act)
  }

  /** A marksman's turn: the first enemy in attack range, in scan order,
      that is a general, flagger, healer or marksman gets a precise shot and
      nobody is attacked normally; without such an enemy a drawn enemy is
      attacked; without enemies it moves. */
  function MarksmanTurn(t: Table, h: nat, sc: Scan, ch: Choice): (r: Turn)
    requires Linked(t.units) && h < |t.units| && ScanIn(sc, |t.units|)
    ensures Linked(r.table.units) && |r.table.units| == |t.units|
    ensures var es := Enemies(t.units, h, sc.attack);
      && (r.act == Move <==> es == [])
      && (r.act.PreciseShot? <==> exists j | 0 <= j < |es| :: Priority(t.units[es[j]].role))
      && (r.act.PreciseShot? ==>
            exists i | 0 <= i < |es| && es[i] == r.act.target ::
              Priority(t.units[es[i]].role) && forall j | 0 <= j < i :: !Priority(t.units[es[j]].role))
      && (r.act.Strike? <==> es != [] && forall j | 0 <= j < |es| :: !Priority(t.units[es[j]].role))
      && (r.act.Strike? ==> r.act.target in es)
      && (r.act.Strike? || r.act.PreciseShot? || r.act == Move)
  {
    var es := Enemies(t.units, h, sc.attack);
    var f :=
      if es == [] then Turn(t, Move)
      else match FirstPriority(t.units, es)
        case Some(i) => Turn(PreciseAttacked(t, h, es[i], ch.shot), PreciseShot(es[i]))
        case None => Fight(t, h, sc.attack, ch.pick);
    Turn(Bumped(f.table, h), f.act)
  }

  /** A guard's turn: it releases its ward, drops guards from the allies in
      guarding range (with the skip of the program's remove-while-iterating
      loop), and with candidates left and enemies close it draws a ward,
      redrawing while the drawn one is already protected. It protects the
      ward and moves; when every candidate was protected it fights and
      returns without counting the turn; otherwise it fights. */
  function GuardTurn(t: Table, h: nat, sc: Scan, ch: Choice): (r: Turn)
    requires Linked(t.units) && h < |t.units| && ScanIn(sc, |t.units|)
    ensures Linked(r.table.units) && |r.table.units| == |t.units|
    ensures var c := ClearWard(t, h);
      var cands := DropGuards(c.units, Allies(c.units, h, sc.guarding));
      var guards := cands != [] && Enemies(c.units, h, sc.close) != []
                    && exists x | x in cands :: !c.units[x].protected;
      && (r.act.ProtectThenMove? <==> guards)
      && (!guards ==> r.act == Fight(c, h, sc.attack, ch.pick).act)
  {
    var c := ClearWard(t, h);
    var cands := DropGuards(c.units, Allies(c.units, h, sc.guarding));
    var close := Enemies(c.units, h, sc.close);
    if cands != [] && close != [] then
      match ChooseWard(c.units, cands, ch.wards, 0)
      case Some(w) => Turn(Bumped(Protected(c, h, w), h), ProtectThenMove(w))
      case None => Fight(c, h, sc.attack, ch.pick)
    else
      var f := Fight(c, h, sc.attack, ch.pick);
      Turn(Bumped(f.table, h), f.act)
  }

  /** A flagger's turn: the allies of its own army in twice the healing
      range gain courage, then it fights. */
  function FlaggerTurn(t: Table, h: nat, sc: Scan, ch: Choice): (r: Turn)
    requires Linked(t.units) && h < |t.units| && ScanIn(sc, |t.units|)
    ensures Linked(r.table.units) && |r.table.units| == |t.units|
  {
    var f := Fight(Heartened(t, h, sc.courage), h, sc.attack, ch.pick);
    Turn(Bumped(f.table, h), f.act)
  }

  /** The courage half of a flagger's turn: the allies of its own army among
      the neighbours gain courage, when there are any. */
  function Heartened(t: Table, h: nat, ns: seq<nat>): (r: Table)
    requires Linked(t.units) && h < |t.units| && Handles(ns, |t.units|)
    ensures Linked(r.units) && |r.units| == |t.units| && r.schedule == t.schedule
  {
    var mates := SameArmy(t.units, h, Allies(t.units, h, ns));
    if mates != [] then Encouraged(t, mates) else t
  }

  /** One unit's turn, by its role. */
  function TurnOf(t: Table, h: nat, sc: Scan, ch: Choice): (r: Turn)
    requires Linked(t.units) && h < |t.units| && ScanIn(sc, |t.units|)
    ensures Linked(r.table.units) && |r.table.units| == |t.units|
  {
    match t.units[h].role
    case Warrior => WarriorTurn(t, h, sc, ch)
    case General => GeneralTurn(t, h, sc, ch)
    case Healer => HealerTurn(t, h, sc, ch)
    case Marksman => MarksmanTurn(t, h, sc, ch)
    case Guard => GuardTurn(t, h, sc, ch)
    case Flagger => FlaggerTurn(t, h, sc, ch)
  }

  // ---------------------------------------------------------------------
  // Facts about fields the rules never change

  /** The damage rules change no unit's counter or being-healed flag. */
  lemma DamageKeepsFlags(t: Table, e: nat, d: real)
    requires Linked(t.units) && e < |t.units|
    ensures var r := DamageReceived(t, e, d).0;
      forall k | 0 <= k < |t.units| ::
        r.units[k].counter == t.units[k].counter && r.units[k].beingHealed == t.units[k].beingHealed
  {
    var u := t.units[e];
    if u.protected {
      var g := u.guarder;
      var v := t.units[g].(hp := t.units[g].hp - d);
      assert DamageReceived(t, e, d) == AllyDamageReceived(t, g, d) == Struck(t, g, v);
      StruckKeepsFlags(t, g, v);
    } else {
      var v := u.(hp := u.hp - d, damageReceivedRecently := u.damageReceivedRecently + d);
      assert DamageReceived(t, e, d) == Struck(t, e, v);
      StruckKeepsFlags(t, e, v);
    }
  }

  lemma AttackKeepsFlags(t: Table, h: nat, ns: seq<nat>, pick: nat)
    requires Linked(t.units) && h < |t.units| && Handles(ns, |t.units|)
    ensures var r := Fight(t, h, ns, pick).table;
      forall k | 0 <= k < |t.units| ::
        r.units[k].counter == t.units[k].counter && r.units[k].beingHealed == t.units[k].beingHealed
  {
    var es := Enemies(t.units, h, ns);
    if es != [] {
      DamageKeepsFlags(t, es[pick % |es|], t.units[h].attackDamage);
    }
  }

  // ---------------------------------------------------------------------
  // The invariant across turns

  lemma BumpedWellFormed(t: Table, h: nat)
    requires WellFormed(t) && h < |t.units|
    ensures WellFormed(Bumped(t, h))
  {
    UpdatedKeeps(t, h, t.units[h].(counter := t.units[h].counter + 1));
  }

  lemma FightWellFormed(t: Table, h: nat, ns: seq<nat>, pick: nat)
    requires WellFormed(t) && h < |t.units| && Handles(ns, |t.units|)
    ensures WellFormed(Fight(t, h, ns, pick).table)
  {
    var es := Enemies(t.units, h, ns);
    if es != [] {
      AttackWellFormed(t, h, es[pick % |es|]);
    }
  }

  /** The protection invariant survives a guard's turn: the clear releases
      the old ward, and the new ward is another unit that nobody protects. */
  lemma GuardTurnWellFormed(t: Table, h: nat, sc: Scan, ch: Choice)
    requires WellFormed(t) && Live(t, h) && t.units[h].role == Guard && ScanOk(sc, h, |t.units|)
    ensures WellFormed(GuardTurn(t, h, sc, ch).table)
  {
    var c := ClearWard(t, h);
    ClearWardKeeps(t, h);
    var allies := Allies(c.units, h, sc.guarding);
    var cands := DropGuards(c.units, allies);
    DropGuardsFacts(c.units, allies);
    var close := Enemies(c.units, h, sc.close);
    if cands != [] && close != [] {
      match ChooseWard(c.units, cands, ch.wards, 0)
      case Some(w) =>
        assert w in allies && w in sc.guarding && w != h;
        ProtectKeepsProtection(c, h, w);
        BumpedWellFormed(Protected(c, h, w), h);
      case None =>
        FightWellFormed(c, h, sc.attack, ch.pick);
    } else {
      FightWellFormed(c, h, sc.attack, ch.pick);
      BumpedWellFormed(Fight(c, h, sc.attack, ch.pick).table, h);
    }
  }

  lemma GeneralTurnWellFormed(t: Table, h: nat, sc: Scan, ch: Choice)
    requires WellFormed(t) && h < |t.units| && ScanIn(sc, |t.units|)
    ensures WellFormed(GeneralTurn(t, h, sc, ch).table)
  {
    var u := t.units[h];
    var healed := HasRole(t.units, Allies(t.units, h, sc.healing), Healer);
    var t1 := Updated(t, h, u.(beingHealed := healed));
    UpdatedKeeps(t, h, u.(beingHealed := healed));
    FightWellFormed(t1, h, sc.attack, ch.pick);
    BumpedWellFormed(t1, h);
    BumpedWellFormed(Fight(t1, h, sc.attack, ch.pick).table, h);
  }

  lemma HealerTurnWellFormed(t: Table, h: nat, sc: Scan, ch: Choice)
    requires WellFormed(t) && h < |t.units| && ScanOk(sc, h, |t.units|)
    ensures WellFormed(HealerTurn(t, h, sc, ch).table)
  {
    var allies := Allies(t.units, h, sc.healing);
    if allies != [] {
      HealWellFormed(t, h, allies);
      BumpedWellFormed(HealedAll(t, h, allies), h);
    } else {
      FightWellFormed(t, h, sc.attack, ch.pick);
      BumpedWellFormed(Fight(t, h, sc.attack, ch.pick).table, h);
    }
  }

  lemma MarksmanTurnWellFormed(t: Table, h: nat, sc: Scan, ch: Choice)
    requires WellFormed(t) && h < |t.units| && ScanIn(sc, |t.units|)
    ensures WellFormed(MarksmanTurn(t, h, sc, ch).table)
  {
    var es := Enemies(t.units, h, sc.attack);
    if es == [] {
      BumpedWellFormed(t, h);
    } else {
      match FirstPriority(t.units, es)
      case Some(i) =>
        PreciseAttackWellFormed(t, h, es[i], ch.shot);
        BumpedWellFormed(PreciseAttacked(t, h, es[i], ch.shot), h);
      case None =>
        FightWellFormed(t, h, sc.attack, ch.pick);
        BumpedWellFormed(Fight(t, h, sc.attack, ch.pick).table, h);
    }
  }

  lemma FlaggerTurnWellFormed(t: Table, h: nat, sc: Scan, ch: Choice)
    requires WellFormed(t) && h < |t.units| && ScanIn(sc, |t.units|)
    ensures WellFormed(FlaggerTurn(t, h, sc, ch).table)
  {
    var mates := SameArmy(t.units, h, Allies(t.units, h, sc.courage));
    var t1 := Heartened(t, h, sc.courage);
    if mates != [] {
      EncouragedWellFormed(t, mates);
    }
    FightWellFormed(t1, h, sc.attack, ch.pick);
    BumpedWellFormed(Fight(t1, h, sc.attack, ch.pick).table, h);
  }

  /** Every turn of a live unit keeps the invariant: references in range,
      the schedule holding exactly the live units, and every protected unit
      warded by a live guard that chose it. */
  lemma TurnWellFormed(t: Table, h: nat, sc: Scan, ch: Choice)
    requires WellFormed(t) && Live(t, h) && ScanOk(sc, h, |t.units|)
    ensures WellFormed(TurnOf(t, h, sc, ch).table)
  {
    match t.units[h].role
    case Warrior =>
      FightWellFormed(t, h, sc.attack, ch.pick);
      BumpedWellFormed(Fight(t, h, sc.attack, ch.pick).table, h);
    case General => GeneralTurnWellFormed(t, h, sc, ch);
    case Healer => HealerTurnWellFormed(t, h, sc, ch);
    case Marksman => MarksmanTurnWellFormed(t, h, sc, ch);
    case Guard => GuardTurnWellFormed(t, h, sc, ch);
    case Flagger => FlaggerTurnWellFormed(t, h, sc, ch);
  }

  // ---------------------------------------------------------------------
  // What each policy does

  /** A healer with allies in healing range heals exactly the damaged ones,
      each to min(hp + heal amount, initial hp), changes nothing else about
      any other unit, and only counts its own turn. */
  lemma HealerHealsOnlyDamaged(t: Table, h: nat, sc: Scan, ch: Choice)
    requires Linked(t.units) && h < |t.units| && ScanOk(sc, h, |t.units|)
    requires Allies(t.units, h, sc.healing) != []
    ensures var r := HealerTurn(t, h, sc, ch).table; var allies := Allies(t.units, h, sc.healing);
      && r.schedule == t.schedule
      && r.units[h] == t.units[h].(counter := t.units[h].counter + 1)
      && forall k | 0 <= k < |t.units| && k != h ::
           r.units[k] == HealedUnit(t.units[k], t.units[h].healDamage, k in allies)
  {
    var allies := Allies(t.units, h, sc.healing);
    HealsOnlyDamaged(t, h, allies);
  }

  /** A marksman's shot replaces the normal attack: the table is that of
      the precise attack, with the turn counted. */
  lemma MarksmanShotOnly(t: Table, h: nat, sc: Scan, ch: Choice)
    requires Linked(t.units) && h < |t.units| && ScanIn(sc, |t.units|)
    ensures var r := MarksmanTurn(t, h, sc, ch);
      && (r.act.PreciseShot? ==>
            r.act.target < |t.units| && r.table == Bumped(PreciseAttacked(t, h, r.act.target, ch.shot), h))
      && (r.act.Strike? ==>
            r.act.target < |t.units| && r.table == Bumped(Attacked(t, h, r.act.target), h))
      && (r.act == Move ==> r.table == Bumped(t, h))
  {
  }

  /** When a guard finds a ward, the ward is an ally in guarding range that
      was not protected, is now protected by this guard, and the turn is
      counted. */
  lemma GuardProtects(t: Table, h: nat, sc: Scan, ch: Choice)
    requires WellFormed(t) && Live(t, h) && t.units[h].role == Guard && ScanOk(sc, h, |t.units|)
    ensures var r := GuardTurn(t, h, sc, ch);
      r.act.ProtectThenMove? ==>
        var w := r.act.ward;
        && w in sc.guarding && w != h && w < |t.units|
        && TagOf(t.units[w]) == TagOf(t.units[h])
        && (w != t.units[h].guardedAlly ==> !t.units[w].protected)
        && Wards(r.table.units, h, w) && r.table.units[w].protected && r.table.units[w].guarder == h
        && r.table.units[h].counter == t.units[h].counter + 1
  {
    var c := ClearWard(t, h);
    var cands := DropGuards(c.units, Allies(c.units, h, sc.guarding));
    var close := Enemies(c.units, h, sc.close);
    if cands != [] && close != [] {
      var choice := ChooseWard(c.units, cands, ch.wards, 0);
      if choice.Some? {
        GuardProtectsWard(t, h, sc, ch, choice.value);
      }
    }
  }

  /** The protecting branch of a guard's turn, for the ward it chose. */
  lemma GuardProtectsWard(t: Table, h: nat, sc: Scan, ch: Choice, w: nat)
    requires WellFormed(t) && Live(t, h) && t.units[h].role == Guard && ScanOk(sc, h, |t.units|)
    requires var c := ClearWard(t, h);
      var cands := DropGuards(c.units, Allies(c.units, h, sc.guarding));
      && cands != [] && Enemies(c.units, h, sc.close) != []
      && ChooseWard(c.units, cands, ch.wards, 0) == Some(w)
    ensures var r := GuardTurn(t, h, sc, ch);
      && r.act == ProtectThenMove(w)
      && w in sc.guarding && w != h && w < |t.units|
      && TagOf(t.units[w]) == TagOf(t.units[h])
      && (w != t.units[h].guardedAlly ==> !t.units[w].protected)
      && Wards(r.table.units, h, w) && r.table.units[w].protected && r.table.units[w].guarder == h
      && r.table.units[h].counter == t.units[h].counter + 1
  {
    var c := ClearWard(t, h);
    assert GuardTurn(t, h, sc, ch) == Turn(Bumped(Protected(c, h, w), h), ProtectThenMove(w));
    GuardWardChosen(t, h, sc, ch, w);
    GuardWardTaken(t, h, w);
  }

  /** The ward a guard chooses is a listed ally, other than itself, and
      unprotected unless it was its own former ward. */
  lemma GuardWardChosen(t: Table, h: nat, sc: Scan, ch: Choice, w: nat)
    requires WellFormed(t) && Live(t, h) && ScanOk(sc, h, |t.units|)
    requires var c := ClearWard(t, h);
      ChooseWard(c.units, DropGuards(c.units, Allies(c.units, h, sc.guarding)), ch.wards, 0) == Some(w)
    ensures w in sc.guarding && w != h && w < |t.units|
    ensures TagOf(t.units[w]) == TagOf(t.units[h])
    ensures w != t.units[h].guardedAlly ==> !t.units[w].protected
  {
    var c := ClearWard(t, h);
    DropGuardsWithin(c.units, Allies(c.units, h, sc.guarding));
    assert w in Allies(c.units, h, sc.guarding);
  }

  /** Protecting `w` after clearing the old ward, then counting the turn. */
  lemma GuardWardTaken(t: Table, h: nat, w: nat)
    requires WellFormed(t) && Live(t, h) && t.units[h].role == Guard && w < |t.units| && w != h
    ensures var r := Bumped(Protected(ClearWard(t, h), h, w), h);
      && Wards(r.units, h, w) && r.units[w].protected && r.units[w].guarder == h
      && r.units[h].counter == t.units[h].counter + 1
  {
    var c := ClearWard(t, h);
    ClearWardKeeps(t, h);
    ProtectKeepsProtection(c, h, w);
  }

  /** The early return: when candidates and close enemies exist but every
      candidate is protected, the guard fights (or moves) and its turn is
      not counted. */
  lemma GuardGivesUpSkipsCounter(t: Table, h: nat, sc: Scan, ch: Choice)
    requires Linked(t.units) && h < |t.units| && ScanIn(sc, |t.units|)
    requires var c := ClearWard(t, h);
      var cands := DropGuards(c.units, Allies(c.units, h, sc.guarding));
      && cands != [] && Enemies(c.units, h, sc.close) != []
      && forall x | x in cands :: c.units[x].protected
    ensures var r := GuardTurn(t, h, sc, ch);
      && (r.act.Strike? || r.act == Move)
      && r.table.units[h].counter == t.units[h].counter
  {
    var c := ClearWard(t, h);
    AttackKeepsFlags(c, h, sc.attack, ch.pick);
  }

  lemma {:induction false} HealKeepsCounter(t: Table, h: nat, allies: seq<nat>, k: nat)
    requires Linked(t.units) && h < |t.units| && Handles(allies, |t.units|) && k < |t.units|
    ensures HealedAll(t, h, allies).units[k].counter == t.units[k].counter
    decreases |allies|
  {
    if allies != [] {
      HealKeepsCounter(t, h, allies[..|allies| - 1], k);
    }
  }

  lemma PreciseKeepsCounter(t: Table, m: nat, e: nat, shot: nat)
    requires Linked(t.units) && m < |t.units| && e < |t.units|
    ensures PreciseAttacked(t, m, e, shot).units[m].counter == t.units[m].counter
  {
    var u := t.units[m];
    if (shot as int) < u.successChance {
      var aimed := Aimed(t, m);
      var v := aimed.units[e];
      var hurt := v.(hp := v.hp - u.attackDamage,
                     damageReceivedRecently := v.damageReceivedRecently + u.attackDamage,
                     morale := v.morale - 0.05);
      var res := PreciseDamageReceived(aimed, e, u.attackDamage);
      assert res == Struck(aimed, e, hurt);
      StruckKeepsFlags(aimed, e, hurt);
      assert res.0.units[m].counter == u.counter;
      if res.1 {
        assert PreciseAttacked(t, m, e, shot) == Updated(res.0, m, res.0.units[m].(hasKilledRecently := true));
      } else {
        assert PreciseAttacked(t, m, e, shot) == res.0;
      }
    }
  }

  lemma GeneralCounted(t: Table, h: nat, sc: Scan, ch: Choice)
    requires Linked(t.units) && h < |t.units| && ScanIn(sc, |t.units|)
    ensures GeneralTurn(t, h, sc, ch).table.units[h].counter == t.units[h].counter + 1
  {
    var u := t.units[h];
    var healed := HasRole(t.units, Allies(t.units, h, sc.healing), Healer);
    AttackKeepsFlags(Updated(t, h, u.(beingHealed := healed)), h, sc.attack, ch.pick);
  }

  lemma HealerCounted(t: Table, h: nat, sc: Scan, ch: Choice)
    requires Linked(t.units) && h < |t.units| && ScanIn(sc, |t.units|)
    ensures HealerTurn(t, h, sc, ch).table.units[h].counter == t.units[h].counter + 1
  {
    AttackKeepsFlags(t, h, sc.attack, ch.pick);
    HealKeepsCounter(t, h, Allies(t.units, h, sc.healing), h);
  }

  lemma MarksmanCounted(t: Table, h: nat, sc: Scan, ch: Choice)
    requires Linked(t.units) && h < |t.units| && ScanIn(sc, |t.units|)
    ensures MarksmanTurn(t, h, sc, ch).table.units[h].counter == t.units[h].counter + 1
  {
    var es := Enemies(t.units, h, sc.attack);
    AttackKeepsFlags(t, h, sc.attack, ch.pick);
    if es != [] && FirstPriority(t.units, es).Some? {
      PreciseKeepsCounter(t, h, es[FirstPriority(t.units, es).value], ch.shot);
    }
  }

  lemma FlaggerCounted(t: Table, h: nat, sc: Scan, ch: Choice)
    requires Linked(t.units) && h < |t.units| && ScanIn(sc, |t.units|)
    ensures FlaggerTurn(t, h, sc, ch).table.units[h].counter == t.units[h].counter + 1
  {
    AttackKeepsFlags(Heartened(t, h, sc.courage), h, sc.attack, ch.pick);
  }

  lemma GuardCounted(t: Table, h: nat, sc: Scan, ch: Choice)
    requires Linked(t.units) && h < |t.units| && ScanIn(sc, |t.units|)
    requires var c := ClearWard(t, h);
      var cands := DropGuards(c.units, Allies(c.units, h, sc.guarding));
      !(cands != [] && Enemies(c.units, h, sc.close) != [] && forall x | x in cands :: c.units[x].protected)
    ensures GuardTurn(t, h, sc, ch).table.units[h].counter == t.units[h].counter + 1
  {
    var c := ClearWard(t, h);
    var cands := DropGuards(c.units, Allies(c.units, h, sc.guarding));
    if cands != [] && Enemies(c.units, h, sc.close) != [] {
      GuardProtectCounted(t, h, sc, ch);
    } else {
      GuardFightCounted(t, h, sc, ch);
    }
  }

  lemma GuardProtectCounted(t: Table, h: nat, sc: Scan, ch: Choice)
    requires Linked(t.units) && h < |t.units| && ScanIn(sc, |t.units|)
    requires var c := ClearWard(t, h);
      var cands := DropGuards(c.units, Allies(c.units, h, sc.guarding));
      cands != [] && Enemies(c.units, h, sc.close) != [] && exists x | x in cands :: !c.units[x].protected
    ensures GuardTurn(t, h, sc, ch).table.units[h].counter == t.units[h].counter + 1
  {
    var c := ClearWard(t, h);
    var cands := DropGuards(c.units, Allies(c.units, h, sc.guarding));
    var w := ChooseWard(c.units, cands, ch.wards, 0);
    assert w.Some?;
    assert Protected(c, h, w.value).units[h].counter == t.units[h].counter;
  }

  lemma GuardFightCounted(t: Table, h: nat, sc: Scan, ch: Choice)
    requires Linked(t.units) && h < |t.units| && ScanIn(sc, |t.units|)
    requires var c := ClearWard(t, h);
      var cands := DropGuards(c.units, Allies(c.units, h, sc.guarding));
      !(cands != [] && Enemies(c.units, h, sc.close) != [])
    ensures GuardTurn(t, h, sc, ch).table.units[h].counter == t.units[h].counter + 1
  {
    var c := ClearWard(t, h);
    assert c.units[h].counter == t.units[h].counter;
    AttackKeepsFlags(c, h, sc.attack, ch.pick);
  }

  lemma WarriorCounted(t: Table, h: nat, sc: Scan, ch: Choice)
    requires Linked(t.units) && h < |t.units| && ScanIn(sc, |t.units|)
    ensures WarriorTurn(t, h, sc, ch).table.units[h].counter == t.units[h].counter + 1
  {
    AttackKeepsFlags(t, h, sc.attack, ch.pick);
  }

  /** Every turn but a guard's early return counts: the counter goes up by
      exactly one. */
  lemma TurnCounted(t: Table, h: nat, sc: Scan, ch: Choice)
    requires Linked(t.units) && h < |t.units| && ScanIn(sc, |t.units|)
    requires t.units[h].role == Guard ==>
      var c := ClearWard(t, h);
      var cands := DropGuards(c.units, Allies(c.units, h, sc.guarding));
      !(cands != [] && Enemies(c.units, h, sc.close) != [] && forall x | x in cands :: c.units[x].protected)
    ensures TurnOf(t, h, sc, ch).table.units[h].counter == t.units[h].counter + 1
  {
    match t.units[h].role
    case Warrior => WarriorCounted(t, h, sc, ch);
    case General => GeneralCounted(t, h, sc, ch);
    case Healer => HealerCounted(t, h, sc, ch);
    case Marksman => MarksmanCounted(t, h, sc, ch);
    case Guard => GuardCounted(t, h, sc, ch);
    case Flagger => FlaggerCounted(t, h, sc, ch);
  }

  /** The enemy filter reads only the type tags and dead flags. */
  lemma {:induction false} EnemiesByTags(us: seq<Unit>, vs: seq<Unit>, h: nat, ns: seq<nat>)
    requires |us| == |vs| && h < |us| && Handles(ns, |us|)
    requires forall k | 0 <= k < |us| :: TagOf(vs[k]) == TagOf(us[k]) && vs[k].dead == us[k].dead
    ensures Enemies(vs, h, ns) == Enemies(us, h, ns)
    decreases |ns|
  {
    if ns != [] {
      EnemiesByTags(us, vs, h, ns[..|ns| - 1]);
    }
  }

  /** Listed once each and never the flagger itself, its mates gain 0.5
      morale and nobody else changes. */
  lemma HeartenedOnce(t: Table, h: nat, ns: seq<nat>)
    requires Linked(t.units) && h < |t.units| && Near(ns, h, |t.units|)
    ensures var mates := SameArmy(t.units, h, Allies(t.units, h, ns)); var t1 := Heartened(t, h, ns);
      && h !in mates
      && forall k | 0 <= k < |t.units| ::
           t1.units[k] == t.units[k].(morale := t.units[k].morale + (if k in mates then 0.5 else 0.0))
  {
    var mates := SameArmy(t.units, h, Allies(t.units, h, ns));
    CourageListed(t.units, h, ns);
    EncouragedOnce(t, mates);
  }

  /** The flagger's mates are listed once each and never include it. */
  lemma CourageListed(us: seq<Unit>, h: nat, ns: seq<nat>)
    requires h < |us| && Near(ns, h, |us|)
    ensures var mates := SameArmy(us, h, Allies(us, h, ns));
      Distinct(mates) && h !in mates
  {
  }

  lemma EncouragedOnce(t: Table, mates: seq<nat>)
    requires Linked(t.units) && Handles(mates, |t.units|) && Distinct(mates)
    ensures var t1 := if mates != [] then Encouraged(t, mates) else t;
      forall k | 0 <= k < |t.units| ::
        t1.units[k] == t.units[k].(morale := t.units[k].morale + (if k in mates then 0.5 else 0.0))
  {
    var t1 := if mates != [] then Encouraged(t, mates) else t;
    forall k | 0 <= k < |t.units|
      ensures t1.units[k] == t.units[k].(morale := t.units[k].morale + (if k in mates then 0.5 else 0.0))
    {
      DistinctCount(mates, k);
    }
  }

  /** With no enemy in attack range a flagger's turn raises the morale of
      each ally of its army in twice the healing range by 0.5, changes
      nothing else about other units, and counts the turn. */
  lemma FlaggerEncourages(t: Table, h: nat, sc: Scan, ch: Choice)
    requires Linked(t.units) && h < |t.units| && ScanOk(sc, h, |t.units|)
    requires Enemies(t.units, h, sc.attack) == []
    ensures var r := FlaggerTurn(t, h, sc, ch); var mates := SameArmy(t.units, h, Allies(t.units, h, sc.courage));
      && r.act == Move
      && r.table.units[h] == t.units[h].(counter := t.units[h].counter + 1)
      && forall k | 0 <= k < |t.units| && k != h ::
           r.table.units[k] == t.units[k].(morale := t.units[k].morale + (if k in mates then 0.5 else 0.0))
  {
    HeartenedOnce(t, h, sc.courage);
    FlaggerQuiet(t, h, sc, ch);
  }

  /** Without enemies in attack range the flagger's fight is a move. */
  lemma FlaggerQuiet(t: Table, h: nat, sc: Scan, ch: Choice)
    requires Linked(t.units) && h < |t.units| && ScanIn(sc, |t.units|)
    requires Enemies(t.units, h, sc.attack) == []
    ensures FlaggerTurn(t, h, sc, ch) == Turn(Bumped(Heartened(t, h, sc.courage), h), Move)
  {
    var t1 := Heartened(t, h, sc.courage);
    var mates := SameArmy(t.units, h, Allies(t.units, h, sc.courage));
    EnemiesByTags(t.units, t1.units, h, sc.attack);
  }

  /** The flagger fights from the heartened table, but the enemies it can
      strike are those in attack range before the courage step: it strikes
      one of them exactly when there is one, and moves otherwise. */
  lemma FlaggerFights(t: Table, h: nat, sc: Scan, ch: Choice)
    requires Linked(t.units) && h < |t.units| && ScanIn(sc, |t.units|)
    ensures var r := FlaggerTurn(t, h, sc, ch); var es := Enemies(t.units, h, sc.attack);
      var t1 := Heartened(t, h, sc.courage);
      && (r.act == Move <==> es == [])
      && (r.act.Strike? <==> es != [])
      && (r.act.Strike? ==> r.act.target in es && r.table == Bumped(Attacked(t1, h, r.act.target), h))
      && (r.act == Move ==> r.table == Bumped(t1, h))
  {
    EnemiesByTags(t.units, Heartened(t, h, sc.courage).units, h, sc.attack);
  }
}
