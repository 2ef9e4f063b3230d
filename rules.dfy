/** The rule engine as pure functions over a table of units: death, damage,
    healing, courage, precise shots, protection and morale updates. Each
    function needs only that the roster's references are in range; that the
    full invariant is kept is proved beside it. The class World in module
    Warriors carries every transition out in place and is proved equal to
    these. */
module Rules {
  import opened Params
  import opened Unit
  import opened Tables

  // ---------------------------------------------------------------------
  // Morale shifts

  /** Adds `delta` to the morale of every listed unit, once per listing:
      the loops of a leader's death (delta -10) and of a flagger's courage
      (delta +0.5). */
  function MoraleShifted(us: seq<Unit>, ss: seq<nat>, delta: real): (r: seq<Unit>)
    requires Handles(ss, |us|)
    ensures |r| == |us|
    decreases |ss|
  {
    if ss == [] then us
    else
      var s := ss[0];
      MoraleShifted(us[s := us[s].(morale := us[s].morale + delta)], ss[1..], delta)
  }

  /** Each unit's morale moves by `delta` once per time it is listed, and
      nothing else about it changes. */
  lemma ShiftPerOccurrence(us: seq<Unit>, ss: seq<nat>, delta: real, k: nat)
    requires Handles(ss, |us|) && k < |us|
    ensures MoraleShifted(us, ss, delta)[k]
         == us[k].(morale := us[k].morale + delta * (Occurrences(ss, k) as real))
  {
    ShiftMorale(us, ss, delta, k);
    ShiftKeeps(us, ss, delta, k);
    TimesProduct(delta, Occurrences(ss, k));
  }

  lemma {:induction false} ShiftMorale(us: seq<Unit>, ss: seq<nat>, delta: real, k: nat)
    requires Handles(ss, |us|) && k < |us|
    ensures MoraleShifted(us, ss, delta)[k].morale == us[k].morale + Times(delta, Occurrences(ss, k))
    decreases |ss|
  {
    if ss != [] {
      var s := ss[0];
      var vs := us[s := us[s].(morale := us[s].morale + delta)];
      ShiftMorale(vs, ss[1..], delta, k);
    }
  }

  lemma {:induction false} ShiftKeeps(us: seq<Unit>, ss: seq<nat>, delta: real, k: nat)
    requires Handles(ss, |us|) && k < |us|
    ensures MoraleShifted(us, ss, delta)[k] == us[k].(morale := MoraleShifted(us, ss, delta)[k].morale)
    decreases |ss|
  {
    if ss != [] {
      var s := ss[0];
      var vs := us[s := us[s].(morale := us[s].morale + delta)];
      ShiftKeeps(vs, ss[1..], delta, k);
    }
  }

  lemma ShiftAll(us: seq<Unit>, ss: seq<nat>, delta: real)
    requires Handles(ss, |us|)
    ensures forall k | 0 <= k < |us| ::
      MoraleShifted(us, ss, delta)[k] == us[k].(morale := us[k].morale + delta * (Occurrences(ss, k) as real))
  {
    forall k | 0 <= k < |us|
      ensures MoraleShifted(us, ss, delta)[k] == us[k].(morale := us[k].morale + delta * (Occurrences(ss, k) as real))
    {
      ShiftPerOccurrence(us, ss, delta, k);
    }
  }

  // ---------------------------------------------------------------------
  // Death

  /** The morale unit `k` loses when `u` dies: 10 per listing among the
      soldiers of a general or flagger, nothing for other roles. */
  function Penalty(u: Unit, k: nat): real {
    if u.role == General || u.role == Flagger then 10.0 * (Occurrences(u.soldiers, k) as real) else 0.0
  }

  /** The role-specific part of `die` on the roster: the unit is marked
      dead; a guard also stops guarding and releases its ward; a general or
      flagger takes 10 morale from every listed soldier, dead or alive, once
      per listing. */
  function DeathEffects(us: seq<Unit>, h: nat): (vs: seq<Unit>)
    requires Linked(us) && h < |us|
    ensures |vs| == |us|
  {
    var u := us[h];
    var ds := us[h := u.(dead := true)];
    match u.role
    case Guard =>
      var ws := ds[h := ds[h].(guarding := false)];
      ws[u.guardedAlly := ws[u.guardedAlly].(protected := false)]
    case General => MoraleShifted(ds, u.soldiers, -10.0)
    case Flagger => MoraleShifted(ds, u.soldiers, -10.0)
    case _ => ds
  }

  /** What a death may do to one unit of the roster: change its morale,
      protection and guarding flags, clear protection but never set it, and
      change the dead flag of the dying unit only. */
  predicate DeathTouch(u: Unit, v: Unit, dying: bool) {
    Touched(u, v) && (v.protected ==> u.protected) && (dying || v.dead == u.dead)
  }

  /** A leader's death: itself dead, every unit down 10 morale per listing
      among its soldiers, nothing else changed. */
  lemma LeaderEffects(us: seq<Unit>, h: nat)
    requires Linked(us) && h < |us| && (us[h].role == General || us[h].role == Flagger)
    ensures var vs := DeathEffects(us, h);
      && vs[h] == us[h].(dead := true)
      && forall k | 0 <= k < |us| && k != h ::
           vs[k] == us[k].(morale := us[k].morale - 10.0 * (Occurrences(us[h].soldiers, k) as real))
  {
    var u := us[h];
    var ds := us[h := u.(dead := true)];
    ShiftAll(ds, u.soldiers, -10.0);
    assert Occurrences(u.soldiers, h) == 0 by { OccurrencesAbsent(u.soldiers, h); }
  }

  /** A guard's death: itself dead and not guarding, its ward unprotected,
      nothing else changed. */
  lemma GuardEffects(us: seq<Unit>, h: nat)
    requires Linked(us) && h < |us| && us[h].role == Guard
    ensures var vs := DeathEffects(us, h); var w := us[h].guardedAlly;
      && vs[h] == us[h].(dead := true, guarding := false, protected := vs[h].protected)
      && !vs[w].protected
      && (w != h ==> vs[w] == us[w].(protected := false))
      && forall k | 0 <= k < |us| && k != h && k != w :: vs[k] == us[k]
  {
  }

  /** Any other death changes nothing but the unit's own dead flag. */
  lemma PlainEffects(us: seq<Unit>, h: nat)
    requires Linked(us) && h < |us| && us[h].role in {Warrior, Healer, Marksman}
    ensures DeathEffects(us, h) == us[h := us[h].(dead := true)]
  {
  }

  /** What a death does in general: every unit's morale drops by its
      penalty, only a guard's death changes protection or guarding, and only
      the dying unit's dead flag changes. */
  predicate DeathShape(us: seq<Unit>, h: nat, vs: seq<Unit>)
    requires h < |us| && |vs| == |us|
  {
    && (forall k | 0 <= k < |us| :: DeathTouch(us[k], vs[k], k == h))
    && (forall k | 0 <= k < |us| :: vs[k].morale == us[k].morale - Penalty(us[h], k))
    && (forall k | 0 <= k < |us| && us[h].role != Guard ::
          vs[k].protected == us[k].protected && vs[k].guarding == us[k].guarding)
    && vs[h].dead && vs[h].morale == us[h].morale
  }

  lemma DeathEffectsTouch(us: seq<Unit>, h: nat)
    requires Linked(us) && h < |us|
    ensures var vs := DeathEffects(us, h);
      && (forall k | 0 <= k < |us| :: DeathTouch(us[k], vs[k], k == h))
      && (forall k | 0 <= k < |us| :: vs[k].morale == us[k].morale - Penalty(us[h], k))
      && (forall k | 0 <= k < |us| && us[h].role != Guard ::
            vs[k].protected == us[k].protected && vs[k].guarding == us[k].guarding)
      && vs[h].dead && vs[h].morale == us[h].morale
  {
    if us[h].role == General || us[h].role == Flagger {
      LeaderShape(us, h);
    } else if us[h].role == Guard {
      GuardShape(us, h);
    } else {
      PlainShape(us, h);
    }
  }

  lemma LeaderShape(us: seq<Unit>, h: nat)
    requires Linked(us) && h < |us| && (us[h].role == General || us[h].role == Flagger)
    ensures DeathShape(us, h, DeathEffects(us, h))
  {
    assert Occurrences(us[h].soldiers, h) == 0 by { OccurrencesAbsent(us[h].soldiers, h); }
    LeaderEffects(us, h);
  }

  lemma GuardShape(us: seq<Unit>, h: nat)
    requires Linked(us) && h < |us| && us[h].role == Guard
    ensures DeathShape(us, h, DeathEffects(us, h))
  {
    GuardEffects(us, h);
  }

  lemma PlainShape(us: seq<Unit>, h: nat)
    requires Linked(us) && h < |us| && us[h].role in {Warrior, Healer, Marksman}
    ensures DeathShape(us, h, DeathEffects(us, h))
  {
    PlainEffects(us, h);
  }

  lemma DeathEffectsLinked(us: seq<Unit>, h: nat)
    requires Linked(us) && h < |us|
    ensures Linked(DeathEffects(us, h))
  {
    var vs := DeathEffects(us, h);
    DeathEffectsTouch(us, h);
    forall k | 0 <= k < |vs| ensures RefsIn(vs[k], k, |vs|) && vs[k].initialHp > 0.0 {
      assert DeathTouch(us[k], vs[k], k == h);
    }
  }

  /** A death keeps the protection invariant: the only ward that loses its
      live guard is the dying guard's, and it is released. */
  lemma DeathEffectsProtection(t: Table, h: nat)
    requires WellFormed(t) && Live(t, h)
    ensures Linked(DeathEffects(t.units, h)) && Protection(DeathEffects(t.units, h))
  {
    var us := t.units;
    var vs := DeathEffects(us, h);
    DeathEffectsTouch(us, h);
    DeathEffectsLinked(us, h);
    forall k | 0 <= k < |vs| && vs[k].protected ensures Wards(vs, vs[k].guarder, k) {
      assert DeathTouch(us[k], vs[k], k == h) && us[k].protected;
      var g := us[k].guarder;
      assert Wards(us, g, k);
      assert DeathTouch(us[g], vs[g], g == h);
      if us[h].role == Guard {
        assert k != us[h].guardedAlly;
      }
      assert g != h;
    }
  }

  /** `die`: the role effects, and the unit leaves the schedule (but not the
      roster, as it stays in the space). */
  function Died(t: Table, h: nat): (r: Table)
    requires Linked(t.units) && h < |t.units|
    ensures Linked(r.units) && r == Table(DeathEffects(t.units, h), Without(t.schedule, h))
  {
    DeathEffectsLinked(t.units, h);
    Table(DeathEffects(t.units, h), Without(t.schedule, h))
  }

  /** A death keeps the invariant, and the schedule loses exactly the dead unit. */
  lemma DiedWellFormed(t: Table, h: nat)
    requires WellFormed(t) && Live(t, h)
    ensures WellFormed(Died(t, h))
    ensures forall x :: x in Died(t, h).schedule <==> x in t.schedule && x != h
  {
    var vs := DeathEffects(t.units, h);
    DeathEffectsTouch(t.units, h);
    DeathEffectsProtection(t, h);
    WithoutScheduled(t, h, vs);
  }

  // ---------------------------------------------------------------------
  // Damage

  /** Puts `v` (the unit with its hp lowered) in place of unit `h` and lets
      it die when its hp is 0 or less; the flag says whether it died. */
  function Struck(t: Table, h: nat, v: Unit): (r: (Table, bool))
    requires Linked(t.units) && h < |t.units| && SameLinks(t.units[h], v)
    ensures Linked(r.0.units) && |r.0.units| == |t.units|
  {
    var hit := Updated(t, h, v);
    if v.hp <= 0.0 then (Died(hit, h), true) else (hit, false)
  }

  /** A struck unit ends as `v`, dead iff its hp is 0 or less (and then out
      of the schedule); every other unit keeps everything but morale and the
      protection flags, and loses morale only by the penalty of a dead leader. */
  lemma StruckOutcome(t: Table, h: nat, v: Unit)
    requires Linked(t.units) && h < |t.units| && SameLinks(t.units[h], v)
    ensures var r := Struck(t, h, v).0; var killed := Struck(t, h, v).1;
      && (killed <==> v.hp <= 0.0)
      && Touched(v, r.units[h]) && r.units[h].morale == v.morale
      && (r.units[h].dead <==> v.dead || killed)
      && r.schedule == (if killed then Without(t.schedule, h) else t.schedule)
      && forall k | 0 <= k < |t.units| && k != h ::
           && Touched(t.units[k], r.units[k]) && r.units[k].dead == t.units[k].dead
           && r.units[k].morale == t.units[k].morale - (if killed then Penalty(v, k) else 0.0)
  {
    var hit := Updated(t, h, v);
    if v.hp <= 0.0 {
      DeathEffectsTouch(hit.units, h);
      forall k | 0 <= k < |t.units| && k != h
        ensures Touched(t.units[k], Died(hit, h).units[k])
      {
        assert DeathTouch(hit.units[k], Died(hit, h).units[k], false);
      }
    }
  }

  /** The struck unit's own fields after a strike. */
  lemma StruckTarget(t: Table, h: nat, v: Unit)
    requires Linked(t.units) && h < |t.units| && SameLinks(t.units[h], v)
    ensures var r := Struck(t, h, v).0; var killed := Struck(t, h, v).1; var w := r.units[h];
      && (killed <==> v.hp <= 0.0)
      && w.hp == v.hp && w.damageReceivedRecently == v.damageReceivedRecently && w.morale == v.morale
      && (w.dead <==> v.dead || killed)
      && r.schedule == (if killed then Without(t.schedule, h) else t.schedule)
  {
    StruckOutcome(t, h, v);
  }

  /** No unit but the struck one changes its hp. */
  lemma StruckOthersHp(t: Table, h: nat, v: Unit)
    requires Linked(t.units) && h < |t.units| && SameLinks(t.units[h], v)
    ensures var r := Struck(t, h, v).0;
      forall k | 0 <= k < |t.units| && k != h :: r.units[k].hp == t.units[k].hp
  {
    StruckOutcome(t, h, v);
  }

  /** A strike leaves every turn counter and healing flag as it was, but the
      struck unit's, which become `v`'s. */
  lemma StruckKeepsFlags(t: Table, h: nat, v: Unit)
    requires Linked(t.units) && h < |t.units| && SameLinks(t.units[h], v)
    ensures var r := Struck(t, h, v).0;
      forall k | 0 <= k < |t.units| ::
        && r.units[k].counter == (if k == h then v.counter else t.units[k].counter)
        && r.units[k].beingHealed == (if k == h then v.beingHealed else t.units[k].beingHealed)
  {
    var hit := Updated(t, h, v);
    if v.hp <= 0.0 {
      DeathEffectsTouch(hit.units, h);
    }
  }

  /** A strike leaves every unit's kill flag and attack damage as they
      were, but the struck unit's, which become `v`'s. */
  lemma StruckKeepsScore(t: Table, h: nat, v: Unit, k: nat)
    requires Linked(t.units) && h < |t.units| && SameLinks(t.units[h], v) && k < |t.units|
    ensures var r := Struck(t, h, v).0;
      && r.units[k].hasKilledRecently == (if k == h then v.hasKilledRecently else t.units[k].hasKilledRecently)
      && r.units[k].attackDamage == (if k == h then v.attackDamage else t.units[k].attackDamage)
  {
    var hit := Updated(t, h, v);
    if v.hp <= 0.0 {
      DeathEffectsTouch(hit.units, h);
      assert DeathTouch(hit.units[k], Died(hit, h).units[k], k == h);
    }
  }

  /** A strike keeps the invariant when it changes only hp, trackers or morale. */
  lemma StruckWellFormed(t: Table, h: nat, v: Unit)
    requires WellFormed(t) && Live(t, h) && SameShape(t.units[h], v)
    ensures WellFormed(Struck(t, h, v).0)
  {
    UpdatedKeeps(t, h, v);
    if v.hp <= 0.0 {
      DiedWellFormed(Updated(t, h, v), h);
    }
  }

  /** `receive_damage`: a protected unit hands the hit to its guarder, which
      takes it as ally damage; otherwise the unit loses `damage` hp, records
      it as received and dies at 0 hp or less. The flag is the killing blow. */
  function DamageReceived(t: Table, h: nat, damage: real): (r: (Table, bool))
    requires Linked(t.units) && h < |t.units|
    ensures Linked(r.0.units) && |r.0.units| == |t.units|
  {
    var u := t.units[h];
    if u.protected then AllyDamageReceived(t, u.guarder, damage)
    else Struck(t, h, u.(hp := u.hp - damage, damageReceivedRecently := u.damageReceivedRecently + damage))
  }

  /** `receive_ally_damage`: the guard loses `damage` hp without recording it
      as received, and dies at 0 hp or less. */
  function AllyDamageReceived(t: Table, g: nat, damage: real): (r: (Table, bool))
    requires Linked(t.units) && g < |t.units|
    ensures Linked(r.0.units) && |r.0.units| == |t.units|
  {
    var u := t.units[g];
    Struck(t, g, u.(hp := u.hp - damage))
  }

  /** `receive_precise_damage`: like an unprotected hit, protection or not,
      plus an immediate loss of 0.05 morale. */
  function PreciseDamageReceived(t: Table, h: nat, damage: real): (r: (Table, bool))
    requires Linked(t.units) && h < |t.units|
    ensures Linked(r.0.units) && |r.0.units| == |t.units|
  {
    var u := t.units[h];
    Struck(t, h, u.(hp := u.hp - damage,
                    damageReceivedRecently := u.damageReceivedRecently + damage,
                    morale := u.morale - 0.05))
  }

  lemma DamageWellFormed(t: Table, h: nat, damage: real)
    requires WellFormed(t) && Live(t, h)
    ensures WellFormed(DamageReceived(t, h, damage).0)
  {
    var u := t.units[h];
    if u.protected {
      var g := u.guarder;
      assert Wards(t.units, g, h);
      assert DamageReceived(t, h, damage) == AllyDamageReceived(t, g, damage);
      AllyDamageWellFormed(t, g, damage);
    } else {
      var v := u.(hp := u.hp - damage, damageReceivedRecently := u.damageReceivedRecently + damage);
      assert DamageReceived(t, h, damage) == Struck(t, h, v);
      StruckWellFormed(t, h, v);
    }
  }

  lemma AllyDamageWellFormed(t: Table, g: nat, damage: real)
    requires WellFormed(t) && Live(t, g)
    ensures WellFormed(AllyDamageReceived(t, g, damage).0)
  {
    var v := t.units[g].(hp := t.units[g].hp - damage);
    assert AllyDamageReceived(t, g, damage) == Struck(t, g, v);
    StruckWellFormed(t, g, v);
  }

  lemma PreciseDamageWellFormed(t: Table, h: nat, damage: real)
    requires WellFormed(t) && Live(t, h)
    ensures WellFormed(PreciseDamageReceived(t, h, damage).0)
  {
    var u := t.units[h];
    var v := u.(hp := u.hp - damage,
                damageReceivedRecently := u.damageReceivedRecently + damage,
                morale := u.morale - 0.05);
    assert PreciseDamageReceived(t, h, damage) == Struck(t, h, v);
    StruckWellFormed(t, h, v);
  }

  /** An unprotected unit loses exactly `damage` hp and records it; the blow
      kills iff the new hp is 0 or less, and then the unit is dead and out of
      the schedule; no other unit's hp changes. */
  lemma UnprotectedDamage(t: Table, h: nat, damage: real)
    requires Linked(t.units) && h < |t.units| && !t.units[h].dead && !t.units[h].protected
    ensures var r := DamageReceived(t, h, damage).0; var killed := DamageReceived(t, h, damage).1;
      && r.units[h].hp == t.units[h].hp - damage
      && r.units[h].damageReceivedRecently == t.units[h].damageReceivedRecently + damage
      && (killed <==> t.units[h].hp - damage <= 0.0)
      && (r.units[h].dead <==> killed)
      && r.schedule == (if killed then Without(t.schedule, h) else t.schedule)
      && forall k | 0 <= k < |t.units| && k != h :: r.units[k].hp == t.units[k].hp
  {
    var u := t.units[h];
    var v := u.(hp := u.hp - damage, damageReceivedRecently := u.damageReceivedRecently + damage);
    assert DamageReceived(t, h, damage) == Struck(t, h, v);
    StruckTarget(t, h, v);
    StruckOthersHp(t, h, v);
  }

  /** A protected unit is untouched: its guarder loses `damage` hp, keeps its
      received-damage tracker, and the blow kills iff the guarder dies. */
  lemma ProtectedDamage(t: Table, h: nat, damage: real)
    requires WellFormed(t) && Live(t, h) && t.units[h].protected
    ensures var g := t.units[h].guarder;
      var r := DamageReceived(t, h, damage).0; var killed := DamageReceived(t, h, damage).1;
      && r.units[h].hp == t.units[h].hp
      && r.units[h].damageReceivedRecently == t.units[h].damageReceivedRecently
      && !r.units[h].dead
      && r.units[g].hp == t.units[g].hp - damage
      && r.units[g].damageReceivedRecently == t.units[g].damageReceivedRecently
      && (killed <==> t.units[g].hp - damage <= 0.0)
      && (killed <==> r.units[g].dead)
  {
    var g := t.units[h].guarder;
    assert Wards(t.units, g, h);
    var v := t.units[g].(hp := t.units[g].hp - damage);
    assert DamageReceived(t, h, damage) == Struck(t, g, v);
    StruckTarget(t, g, v);
    StruckOthersHp(t, g, v);
    StruckOutcome(t, g, v);
  }

  /** A precise hit ignores protection: the target itself loses the hp and 0.05
      morale, records the damage, and dies iff its hp reaches 0 or less; no
      other unit's hp changes. */
  lemma PreciseDamage(t: Table, h: nat, damage: real)
    requires Linked(t.units) && h < |t.units| && !t.units[h].dead
    ensures var r := PreciseDamageReceived(t, h, damage).0; var killed := PreciseDamageReceived(t, h, damage).1;
      && r.units[h].hp == t.units[h].hp - damage
      && r.units[h].damageReceivedRecently == t.units[h].damageReceivedRecently + damage
      && r.units[h].morale == t.units[h].morale - 0.05
      && (killed <==> t.units[h].hp - damage <= 0.0)
      && (r.units[h].dead <==> killed)
      && forall k | 0 <= k < |t.units| && k != h :: r.units[k].hp == t.units[k].hp
  {
    var u := t.units[h];
    var v := u.(hp := u.hp - damage,
                damageReceivedRecently := u.damageReceivedRecently + damage,
                morale := u.morale - 0.05);
    assert PreciseDamageReceived(t, h, damage) == Struck(t, h, v);
    StruckTarget(t, h, v);
    StruckOthersHp(t, h, v);
  }

  /** `attack`: the target (or its guarder) takes the attacker's current
      damage; a killing blow sets the attacker's kill flag, and the attacker
      records its damage as inflicted either way. */
  function Attacked(t: Table, a: nat, e: nat): (r: Table)
    requires Linked(t.units) && a < |t.units| && e < |t.units|
    ensures Linked(r.units) && |r.units| == |t.units|
  {
    var res := DamageReceived(t, e, t.units[a].attackDamage);
    var hit := res.0;
    var v := hit.units[a];
    Updated(hit, a, v.(hasKilledRecently := res.1 || v.hasKilledRecently,
                       damageInflictedRecently := v.attackDamage))
  }

  /** After an attack the attacker has recorded its attack damage as
      inflicted and has counted a kill iff it had one already or this blow
      killed; the rest is the hit of `receive_damage`. */
  lemma AttackOutcome(t: Table, a: nat, e: nat)
    requires Linked(t.units) && a < |t.units| && e < |t.units|
    ensures var res := DamageReceived(t, e, t.units[a].attackDamage); var r := Attacked(t, a, e);
      && r.units[a].damageInflictedRecently == t.units[a].attackDamage
      && (r.units[a].hasKilledRecently <==> t.units[a].hasKilledRecently || res.1)
      && r.units == res.0.units[a := r.units[a]]
      && r.schedule == res.0.schedule
  {
    var u := t.units[e];
    var d := t.units[a].attackDamage;
    var res := DamageReceived(t, e, d);
    if u.protected {
      var g := u.guarder;
      var v := t.units[g].(hp := t.units[g].hp - d);
      assert res == Struck(t, g, v);
      StruckKeepsScore(t, g, v, a);
    } else {
      var v := u.(hp := u.hp - d, damageReceivedRecently := u.damageReceivedRecently + d);
      assert res == Struck(t, e, v);
      StruckKeepsScore(t, e, v, a);
    }
    var w := res.0.units[a];
    assert Attacked(t, a, e) == Updated(res.0, a, w.(hasKilledRecently := res.1 || w.hasKilledRecently,
                                                    damageInflictedRecently := w.attackDamage));
  }

  lemma AttackWellFormed(t: Table, a: nat, e: nat)
    requires WellFormed(t) && a < |t.units| && Live(t, e)
    ensures WellFormed(Attacked(t, a, e))
  {
    var res := DamageReceived(t, e, t.units[a].attackDamage);
    DamageWellFormed(t, e, t.units[a].attackDamage);
    var v := res.0.units[a];
    UpdatedKeeps(res.0, a, v.(hasKilledRecently := res.1 || v.hasKilledRecently,
                              damageInflictedRecently := v.attackDamage));
  }

  // ---------------------------------------------------------------------
  // Healing and courage

  function Min(a: real, b: real): (r: real)
    ensures r <= a && r <= b && (r == a || r == b)
  {
    if a <= b then a else b
  }

  /** `heal`: the ally's hp rises by the healer's heal amount, capped at the
      ally's initial hp. */
  function Healed(t: Table, healer: nat, ally: nat): (r: Table)
    requires Linked(t.units) && healer < |t.units| && ally < |t.units|
    ensures Linked(r.units) && |r.units| == |t.units| && r.schedule == t.schedule
  {
    var a := t.units[ally];
    var amount := t.units[healer].healDamage;
    var hp := if a.hp + amount < a.initialHp then a.hp + amount else a.initialHp;
    Updated(t, ally, a.(hp := hp))
  }

  /** Healing sets hp to min(hp + heal amount, initial hp), so it never
      exceeds the initial hp, and changes nothing else. */
  lemma HealCapped(t: Table, healer: nat, ally: nat)
    requires Linked(t.units) && healer < |t.units| && ally < |t.units|
    ensures var r := Healed(t, healer, ally); var a := t.units[ally];
      && r.units[ally].hp == Min(a.hp + t.units[healer].healDamage, a.initialHp)
      && r.units[ally].hp <= a.initialHp
      && r.units == t.units[ally := a.(hp := r.units[ally].hp)]
  {
  }

  /** The healer's loop: every listed ally whose hp is below its initial hp
      at its turn is healed. */
  function HealedAll(t: Table, healer: nat, allies: seq<nat>): (r: Table)
    requires Linked(t.units) && healer < |t.units| && Handles(allies, |t.units|)
    ensures Linked(r.units) && |r.units| == |t.units| && r.schedule == t.schedule
    decreases |allies|
  {
    if allies == [] then t
    else
      var n := |allies| - 1;
      var p := HealedAll(t, healer, allies[..n]);
      var a := allies[n];
      if p.units[a].hp < p.units[a].initialHp then Healed(p, healer, a) else p
  }

  /** A unit after one heal by `amount`, if it was listed and damaged. */
  function HealedUnit(u: Unit, amount: real, listed: bool): Unit {
    if listed && u.hp < u.initialHp then u.(hp := Min(u.hp + amount, u.initialHp)) else u
  }

  /** A healer's turn with distinct allies heals exactly the listed allies
      that were damaged, each to min(hp + heal amount, initial hp), and
      touches no other unit and no other field. */
  lemma {:induction false} HealsOnlyDamaged(t: Table, healer: nat, allies: seq<nat>)
    requires Linked(t.units) && healer < |t.units| && Handles(allies, |t.units|) && Distinct(allies)
    requires healer !in allies
    ensures var r := HealedAll(t, healer, allies);
      forall k | 0 <= k < |t.units| ::
        r.units[k] == HealedUnit(t.units[k], t.units[healer].healDamage, k in allies)
    decreases |allies|
  {
    if allies != [] {
      var n := |allies| - 1;
      var pre := allies[..n];
      var a := allies[n];
      assert Distinct(pre) && a !in pre;
      assert healer !in pre;
      HealsOnlyDamaged(t, healer, pre);
      assert allies == pre + [a];
      HealOneMore(t, HealedAll(t, healer, pre), healer, pre, a);
    }
  }

  /** One more step of the healer's loop, on an ally not listed before. */
  lemma HealOneMore(t: Table, p: Table, healer: nat, pre: seq<nat>, a: nat)
    requires Linked(t.units) && Linked(p.units) && |p.units| == |t.units|
    requires healer < |t.units| && a < |t.units| && a != healer && a !in pre
    requires forall k | 0 <= k < |t.units| ::
      p.units[k] == HealedUnit(t.units[k], t.units[healer].healDamage, k in pre)
    ensures var r := if p.units[a].hp < p.units[a].initialHp then Healed(p, healer, a) else p;
      forall k | 0 <= k < |t.units| ::
        r.units[k] == HealedUnit(t.units[k], t.units[healer].healDamage, k in pre + [a])
  {
    var amount := t.units[healer].healDamage;
    assert p.units[healer].healDamage == amount;
    assert p.units[a] == t.units[a];
    if p.units[a].hp < p.units[a].initialHp {
      HealCapped(p, healer, a);
    }
  }

  lemma HealWellFormed(t: Table, healer: nat, allies: seq<nat>)
    requires WellFormed(t) && healer < |t.units| && Handles(allies, |t.units|) && Distinct(allies)
    requires healer !in allies
    ensures WellFormed(HealedAll(t, healer, allies))
  {
    HealsOnlyDamaged(t, healer, allies);
    ShapeKept(t, HealedAll(t, healer, allies));
  }

  /** `courage`: every listed ally gains 0.5 morale per listing. */
  function Encouraged(t: Table, allies: seq<nat>): (r: Table)
    requires Linked(t.units) && Handles(allies, |t.units|)
    ensures Linked(r.units) && |r.units| == |t.units| && r.schedule == t.schedule
    ensures forall k | 0 <= k < |t.units| ::
      r.units[k] == t.units[k].(morale := t.units[k].morale + 0.5 * (Occurrences(allies, k) as real))
  {
    ShiftAll(t.units, allies, 0.5);
    t.(units := MoraleShifted(t.units, allies, 0.5))
  }

  lemma EncouragedWellFormed(t: Table, allies: seq<nat>)
    requires WellFormed(t) && Handles(allies, |t.units|)
    ensures WellFormed(Encouraged(t, allies))
  {
    ShapeKept(t, Encouraged(t, allies));
  }

  // ---------------------------------------------------------------------
  // Marksman

  /** `precise_attack` with the injected draw `shot` (0..9): below the
      marksman's success chance it gains 0.05 morale, records its damage as
      inflicted and deals precise damage; otherwise it loses 0.1 morale,
      records nothing inflicted and the target is untouched. */
  function PreciseAttacked(t: Table, m: nat, e: nat, shot: nat): (r: Table)
    requires Linked(t.units) && m < |t.units| && e < |t.units|
    ensures Linked(r.units) && |r.units| == |t.units|
  {
    var u := t.units[m];
    if (shot as int) < u.successChance then PreciseHit(t, m, e)
    else Updated(t, m, u.(morale := u.morale - 0.1, damageInflictedRecently := 0.0))
  }

  /** The marksman before its shot lands: 0.05 more morale, its damage
      recorded as inflicted. */
  function Aimed(t: Table, m: nat): (r: Table)
    requires Linked(t.units) && m < |t.units|
    ensures Linked(r.units) && |r.units| == |t.units| && r.schedule == t.schedule
  {
    var u := t.units[m];
    Updated(t, m, u.(morale := u.morale + 0.05, damageInflictedRecently := u.attackDamage))
  }

  /** A precise shot that hits: precise damage on the target, and the kill
      flag when it dies. */
  function PreciseHit(t: Table, m: nat, e: nat): (r: Table)
    requires Linked(t.units) && m < |t.units| && e < |t.units|
    ensures Linked(r.units) && |r.units| == |t.units|
  {
    var res := PreciseDamageReceived(Aimed(t, m), e, t.units[m].attackDamage);
    var hit := res.0;
    if res.1 then Updated(hit, m, hit.units[m].(hasKilledRecently := true)) else hit
  }

  /** A hit (a draw below the success chance) lands precise damage on the
      target: it loses the marksman's damage in hp and 0.05 morale, and dies
      iff its hp reaches 0 or less. */
  lemma PreciseHitTarget(t: Table, m: nat, e: nat, shot: nat)
    requires Linked(t.units) && m < |t.units| && e < |t.units| && !t.units[e].dead && m != e
    requires (shot as int) < t.units[m].successChance
    ensures var r := PreciseAttacked(t, m, e, shot); var u := t.units[m];
      && r.units[e].hp == t.units[e].hp - u.attackDamage
      && r.units[e].morale == t.units[e].morale - 0.05
      && (r.units[e].dead <==> t.units[e].hp - u.attackDamage <= 0.0)
  {
    var u := t.units[m];
    var aimed := Aimed(t, m);
    var v := aimed.units[e];
    var hurt := v.(hp := v.hp - u.attackDamage,
                   damageReceivedRecently := v.damageReceivedRecently + u.attackDamage,
                   morale := v.morale - 0.05);
    var res := PreciseDamageReceived(aimed, e, u.attackDamage);
    assert res == Struck(aimed, e, hurt);
    StruckTarget(aimed, e, hurt);
    assert PreciseAttacked(t, m, e, shot).units[e] == res.0.units[e];
  }

  /** On a hit the marksman gains 0.05 morale, records its damage as
      inflicted, and counts a kill iff the target died (when it is not among
      the target's soldiers, whose morale a dying leader would lower too). */
  lemma PreciseHitMarksman(t: Table, m: nat, e: nat, shot: nat)
    requires Linked(t.units) && m < |t.units| && e < |t.units| && !t.units[e].dead && m != e
    requires m !in t.units[e].soldiers
    requires (shot as int) < t.units[m].successChance
    ensures var r := PreciseAttacked(t, m, e, shot); var u := t.units[m];
      && r.units[m].morale == u.morale + 0.05
      && r.units[m].damageInflictedRecently == u.attackDamage
      && (r.units[m].hasKilledRecently <==> u.hasKilledRecently || r.units[e].dead)
  {
    var u := t.units[m];
    var aimed := Aimed(t, m);
    var v := aimed.units[e];
    var hurt := v.(hp := v.hp - u.attackDamage,
                   damageReceivedRecently := v.damageReceivedRecently + u.attackDamage,
                   morale := v.morale - 0.05);
    var res := PreciseDamageReceived(aimed, e, u.attackDamage);
    assert res == Struck(aimed, e, hurt);
    StruckOutcome(aimed, e, hurt);
    assert Occurrences(hurt.soldiers, m) == 0 by { OccurrencesAbsent(hurt.soldiers, m); }
    var w := res.0.units[m];
    assert w.morale == u.morale + 0.05 && w.damageInflictedRecently == u.attackDamage;
    assert w.hasKilledRecently == u.hasKilledRecently;
    assert res.0.units[e].dead <==> res.1;
  }

  /** A miss costs the marksman 0.1 morale, records 0 as inflicted and
      changes nothing else. */
  lemma PreciseMiss(t: Table, m: nat, e: nat, shot: nat)
    requires Linked(t.units) && m < |t.units| && e < |t.units|
    requires (shot as int) >= t.units[m].successChance
    ensures var u := t.units[m];
      PreciseAttacked(t, m, e, shot)
        == Table(t.units[m := u.(morale := u.morale - 0.1, damageInflictedRecently := 0.0)], t.schedule)
  {
  }

  lemma PreciseAttackWellFormed(t: Table, m: nat, e: nat, shot: nat)
    requires WellFormed(t) && m < |t.units| && Live(t, e)
    ensures WellFormed(PreciseAttacked(t, m, e, shot))
  {
    var u := t.units[m];
    if (shot as int) < u.successChance {
      PreciseHitWellFormed(t, m, e);
    } else {
      var mu := u.(morale := u.morale - 0.1, damageInflictedRecently := 0.0);
      UpdatedKeeps(t, m, mu);
      assert PreciseAttacked(t, m, e, shot) == Updated(t, m, mu);
    }
  }

  lemma PreciseHitWellFormed(t: Table, m: nat, e: nat)
    requires WellFormed(t) && m < |t.units| && Live(t, e)
    ensures WellFormed(PreciseHit(t, m, e))
  {
    var u := t.units[m];
    var aimed := Aimed(t, m);
    UpdatedKeeps(t, m, u.(morale := u.morale + 0.05, damageInflictedRecently := u.attackDamage));
    assert WellFormed(aimed) && Live(aimed, e);
    PreciseDamageWellFormed(aimed, e, u.attackDamage);
    var res := PreciseDamageReceived(aimed, e, u.attackDamage);
    assert WellFormed(res.0);
    if res.1 {
      UpdatedKeeps(res.0, m, res.0.units[m].(hasKilledRecently := true));
    }
  }

  // ---------------------------------------------------------------------
  // Guard

  /** The start of a guard's turn: its ward (or itself) is unprotected, it
      wards itself again and stops guarding. */
  function ClearWard(t: Table, g: nat): (r: Table)
    requires Linked(t.units) && g < |t.units|
    ensures Linked(r.units) && |r.units| == |t.units| && r.schedule == t.schedule
    ensures r.units[g].guardedAlly == g && !r.units[g].guarding
  {
    var u := t.units[g];
    var us := t.units[u.guardedAlly := t.units[u.guardedAlly].(protected := false)];
    Table(us[g := us[g].(guardedAlly := g, guarding := false)], t.schedule)
  }

  /** Clearing keeps the invariant, leaves nobody warded by the guard and
      unprotects its former ward. */
  lemma ClearWardKeeps(t: Table, g: nat)
    requires WellFormed(t) && g < |t.units|
    ensures var r := ClearWard(t, g);
      && WellFormed(r) && NoWard(r.units, g)
      && !r.units[t.units[g].guardedAlly].protected
  {
  }

  /** `protect`: the guard takes `w` as its ward and `w` becomes protected
      with the guard as its guarder. */
  function Protected(t: Table, g: nat, w: nat): (r: Table)
    requires Linked(t.units) && g < |t.units| && w < |t.units|
    ensures Linked(r.units) && |r.units| == |t.units| && r.schedule == t.schedule
  {
    var us := t.units[g := t.units[g].(guarding := true, guardedAlly := w)];
    Table(us[w := us[w].(guarder := g, protected := true)], t.schedule)
  }

  /** Protecting keeps the invariant when the guard is alive, the ward is
      another unit and the guard wards nobody yet; afterwards the guard
      wards `w` and nothing else has changed. */
  lemma ProtectKeepsProtection(t: Table, g: nat, w: nat)
    requires WellFormed(t) && Live(t, g) && t.units[g].role == Guard
    requires w < |t.units| && w != g && NoWard(t.units, g)
    ensures var r := Protected(t, g, w);
      && WellFormed(r)
      && r.units[w].protected && Wards(r.units, g, w)
      && forall k | 0 <= k < |t.units| && k != w && k != g :: r.units[k] == t.units[k]
  {
  }

  // ---------------------------------------------------------------------
  // Morale

  /** `calculate_own_morale_modifier`: received + kill + inflicted terms. */
  function OwnModifier(u: Unit): (r: real)
    requires u.initialHp != 0.0
    ensures u.initialHp > 0.0 && u.damageInflictedRecently >= 0.0 && u.damageReceivedRecently >= 0.0
            ==> r >= u.damageReceivedRecently + u.damageInflictedRecently
  {
    DamageReceivedMoraleModifier(u.damageReceivedRecently, u.initialHp)
    + KillMoraleModifier(u.hasKilledRecently)
    + DamageInflictedMoraleModifier(u.damageInflictedRecently)
  }

  /** `calculate_new_morale`: the allies' average weighted by
      AlliesMoraleWeight, the rest from the unit's own modifier plus its
      current morale. */
  function NewMorale(u: Unit, alliesAverage: real): real
    requires u.initialHp != 0.0
  {
    alliesAverage * AlliesMoraleWeight + (OwnModifier(u) + u.morale) * (1.0 - AlliesMoraleWeight)
  }

  /** The new morale is a convex combination: it lies between the allies'
      average and own modifier plus current morale. */
  lemma NewMoraleConvex(u: Unit, avg: real)
    requires u.initialHp != 0.0
    ensures Min(avg, OwnModifier(u) + u.morale) <= NewMorale(u, avg) <= Params.Max(avg, OwnModifier(u) + u.morale)
  {
  }

  /** With non-negative trackers the own modifier never lowers morale: the
      new morale is at least the weighted mix of the average and the current
      morale. */
  lemma OwnModifierNeverLowers(u: Unit, avg: real)
    requires u.initialHp > 0.0 && u.damageInflictedRecently >= 0.0 && u.damageReceivedRecently >= 0.0
    ensures NewMorale(u, avg) >= avg * AlliesMoraleWeight + u.morale * (1.0 - AlliesMoraleWeight)
  {
  }

  /** The unit with its three recent-event trackers cleared and the new
      morale set. */
  function Cleared(u: Unit, m: real): (v: Unit)
    ensures SameShape(u, v)
  {
    u.(damageReceivedRecently := 0.0, damageInflictedRecently := 0.0, hasKilledRecently := false, morale := m)
  }

  /** `adjust_attack_damage` (and a healer's `adjust_heal_damage`): the
      damage scaled by the morale as a percentage. */
  function Rescaled(v: Unit): (w: Unit)
    ensures SameShape(v, w)
  {
    v.(attackDamage := v.initialAttackDamage * v.morale / 100.0,
       healDamage := if v.role == Healer then v.initialHealDamage * v.morale / 100.0 else v.healDamage)
  }

  /** `update_morale`: clear the three trackers, set the morale, flee (die)
      iff it is at or under the threshold, and rescale the attack damage
      (and a healer's heal amount) from the morale, even after fleeing. */
  function MoraleUpdated(t: Table, h: nat, m: real): (r: Table)
    requires Linked(t.units) && h < |t.units|
    ensures Linked(r.units) && |r.units| == |t.units|
  {
    var cleared := Updated(t, h, Cleared(t.units[h], m));
    var fled := if m <= ToFleeThreshold then Died(cleared, h) else cleared;
    Updated(fled, h, Rescaled(fled.units[h]))
  }

  /** After a morale update the trackers are clear, the morale is the given
      one, the unit is dead (and out of the schedule) iff that morale is at
      or under the flee threshold, its damage is rescaled from it, and its
      hp is unchanged. */
  lemma MoraleUpdateOutcome(t: Table, h: nat, m: real)
    requires Linked(t.units) && h < |t.units| && !t.units[h].dead
    ensures var r := MoraleUpdated(t, h, m); var v := r.units[h]; var u := t.units[h];
      && v.damageReceivedRecently == 0.0 && v.damageInflictedRecently == 0.0 && !v.hasKilledRecently
      && v.morale == m
      && (v.dead <==> m <= ToFleeThreshold)
      && r.schedule == (if m <= ToFleeThreshold then Without(t.schedule, h) else t.schedule)
      && v.attackDamage == u.initialAttackDamage * m / 100.0
      && (u.role == Healer ==> v.healDamage == u.initialHealDamage * m / 100.0)
      && v.hp == u.hp
  {
    var cleared := Updated(t, h, Cleared(t.units[h], m));
    if m <= ToFleeThreshold {
      DeathEffectsTouch(cleared.units, h);
    }
  }

  /** A morale update leaves every other unit as it was but for morale lost
      to a fleeing leader and for protection flags. */
  lemma MoraleUpdateFrame(t: Table, h: nat, m: real)
    requires Linked(t.units) && h < |t.units|
    ensures var r := MoraleUpdated(t, h, m);
      forall k | 0 <= k < |t.units| && k != h ::
        && Touched(t.units[k], r.units[k]) && r.units[k].dead == t.units[k].dead
        && r.units[k].morale == t.units[k].morale - (if m <= ToFleeThreshold then Penalty(t.units[h], k) else 0.0)
  {
    var cleared := Updated(t, h, Cleared(t.units[h], m));
    if m <= ToFleeThreshold {
      DeathEffectsTouch(cleared.units, h);
      forall k | 0 <= k < |t.units| && k != h
        ensures Touched(t.units[k], Died(cleared, h).units[k])
      {
        assert DeathTouch(cleared.units[k], Died(cleared, h).units[k], false);
      }
    }
  }

  lemma MoraleUpdatedWellFormed(t: Table, h: nat, m: real)
    requires WellFormed(t) && Live(t, h)
    ensures WellFormed(MoraleUpdated(t, h, m))
  {
    var cleared := Updated(t, h, Cleared(t.units[h], m));
    UpdatedKeeps(t, h, Cleared(t.units[h], m));
    var fled := if m <= ToFleeThreshold then Died(cleared, h) else cleared;
    if m <= ToFleeThreshold {
      DiedWellFormed(cleared, h);
    }
    UpdatedKeeps(fled, h, Rescaled(fled.units[h]));
  }

  /** The apply phase of the morale pass: each listed unit in turn gets the
      new morale computed from its snapshot average and its state at that
      moment (so a leader fleeing earlier in the pass affects later ones). */
  function Applied(t: Table, hs: seq<nat>, avgs: seq<real>): (r: Table)
    requires Linked(t.units) && Handles(hs, |t.units|) && |hs| == |avgs|
    ensures Linked(r.units) && |r.units| == |t.units|
    decreases |hs|
  {
    if hs == [] then t
    else
      var n := |hs| - 1;
      var p := Applied(t, hs[..n], avgs[..n]);
      MoraleUpdated(p, hs[n], NewMorale(p.units[hs[n]], avgs[n]))
  }

  /** The apply phase reads each unit's morale at the moment it is updated:
      when the first unit of the pass flees, the second one's new morale is
      computed from its morale after the flee's penalty, not from the
      morale it had when the averages were taken. */
  lemma FleeSeenLaterInPass(t: Table, a: nat, b: nat, avgs: seq<real>)
    requires Linked(t.units) && a < |t.units| && b < |t.units| && a != b && !t.units[b].dead
    requires |avgs| == 2
    ensures var m := NewMorale(t.units[a], avgs[0]);
      var lost := if m <= ToFleeThreshold then Penalty(t.units[a], b) else 0.0;
      Applied(t, [a, b], avgs).units[b].morale
         == NewMorale(t.units[b].(morale := t.units[b].morale - lost), avgs[1])
  {
    var m := NewMorale(t.units[a], avgs[0]);
    var p := MoraleUpdated(t, a, m);
    AppliedTwo(t, a, b, avgs);
    MoraleUpdateFrame(t, a, m);
    assert Touched(t.units[b], p.units[b]);
    NewMoraleReads(t.units[b], p.units[b], avgs[1]);
    MoraleUpdateOutcome(p, b, NewMorale(p.units[b], avgs[1]));
  }

  /** A pass over two units, unfolded. */
  lemma AppliedTwo(t: Table, a: nat, b: nat, avgs: seq<real>)
    requires Linked(t.units) && a < |t.units| && b < |t.units| && |avgs| == 2
    ensures var p := MoraleUpdated(t, a, NewMorale(t.units[a], avgs[0]));
      Applied(t, [a, b], avgs) == MoraleUpdated(p, b, NewMorale(p.units[b], avgs[1]))
  {
    assert [a, b][..1] == [a] && avgs[..1] == [avgs[0]];
    assert [a][..0] == [] && [avgs[0]][..0] == [];
    assert Applied(t, [a][..0], [avgs[0]][..0]) == t;
  }

  /** The new morale reads no field a death may change but the morale. */
  lemma NewMoraleReads(u: Unit, v: Unit, avg: real)
    requires Touched(u, v) && u.initialHp != 0.0
    ensures NewMorale(v, avg) == NewMorale(u.(morale := v.morale), avg)
  {
  }

  /** Units the pass does not visit keep everything but morale and the
      protection flags. */
  lemma {:induction false} AppliedFrame(t: Table, hs: seq<nat>, avgs: seq<real>)
    requires Linked(t.units) && Handles(hs, |t.units|) && |hs| == |avgs|
    ensures var r := Applied(t, hs, avgs);
      forall x | 0 <= x < |t.units| && x !in hs ::
        Touched(t.units[x], r.units[x]) && r.units[x].dead == t.units[x].dead
    decreases |hs|
  {
    if hs != [] {
      var n := |hs| - 1;
      AppliedFrame(t, hs[..n], avgs[..n]);
      var p := Applied(t, hs[..n], avgs[..n]);
      var r := MoraleUpdated(p, hs[n], NewMorale(p.units[hs[n]], avgs[n]));
      assert Applied(t, hs, avgs) == r;
      MoraleUpdateFrame(p, hs[n], NewMorale(p.units[hs[n]], avgs[n]));
      forall x | 0 <= x < |t.units| && x !in hs
        ensures Touched(t.units[x], r.units[x]) && r.units[x].dead == t.units[x].dead
      {
        assert x !in hs[..n] && x != hs[n];
        TouchedTrans(t.units[x], p.units[x], r.units[x]);
      }
    }
  }

  lemma TouchedTrans(u: Unit, v: Unit, w: Unit)
    requires Touched(u, v) && Touched(v, w)
    ensures Touched(u, w)
  {
  }

  /** The morale pass over distinct live units keeps the invariant. */
  lemma {:induction false} AppliedWellFormed(t: Table, hs: seq<nat>, avgs: seq<real>)
    requires WellFormed(t) && Handles(hs, |t.units|) && |hs| == |avgs| && Distinct(hs)
    requires forall k | 0 <= k < |hs| :: Live(t, hs[k])
    ensures WellFormed(Applied(t, hs, avgs))
    decreases |hs|
  {
    if hs != [] {
      var n := |hs| - 1;
      var h := hs[n];
      assert h !in hs[..n] && Live(t, h);
      AppliedWellFormed(t, hs[..n], avgs[..n]);
      AppliedFrame(t, hs[..n], avgs[..n]);
      var p := Applied(t, hs[..n], avgs[..n]);
      MoraleUpdatedWellFormed(p, h, NewMorale(p.units[h], avgs[n]));
    }
  }

  /** The morale pass changes no unit's hp. */
  lemma {:induction false} MoralePassKeepsHp(t: Table, hs: seq<nat>, avgs: seq<real>)
    requires Linked(t.units) && Handles(hs, |t.units|) && |hs| == |avgs|
    ensures forall x | 0 <= x < |t.units| :: Applied(t, hs, avgs).units[x].hp == t.units[x].hp
    decreases |hs|
  {
    if hs != [] {
      var n := |hs| - 1;
      MoralePassKeepsHp(t, hs[..n], avgs[..n]);
      var p := Applied(t, hs[..n], avgs[..n]);
      var h := hs[n];
      var m := NewMorale(p.units[h], avgs[n]);
      MoraleUpdateFrame(p, h, m);
      var cleared := Updated(p, h, Cleared(p.units[h], m));
      if m <= ToFleeThreshold {
        DeathEffectsTouch(cleared.units, h);
      }
    }
  }

  /** After the morale pass over distinct live units every visited unit's
      three trackers are clear. */
  lemma {:induction false} MoralePassClearsTrackers(t: Table, hs: seq<nat>, avgs: seq<real>)
    requires Linked(t.units) && Handles(hs, |t.units|) && |hs| == |avgs| && Distinct(hs)
    requires forall k | 0 <= k < |hs| :: !t.units[hs[k]].dead
    ensures var r := Applied(t, hs, avgs);
      forall x | x in hs ::
        r.units[x].damageReceivedRecently == 0.0 && r.units[x].damageInflictedRecently == 0.0
        && !r.units[x].hasKilledRecently
    decreases |hs|
  {
    if hs != [] {
      var n := |hs| - 1;
      var h := hs[n];
      assert h !in hs[..n] && !t.units[h].dead;
      MoralePassClearsTrackers(t, hs[..n], avgs[..n]);
      AppliedFrame(t, hs[..n], avgs[..n]);
      var p := Applied(t, hs[..n], avgs[..n]);
      var m := NewMorale(p.units[h], avgs[n]);
      MoraleUpdateOutcome(p, h, m);
      MoraleUpdateFrame(p, h, m);
      var r := MoraleUpdated(p, h, m);
      assert r == Applied(t, hs, avgs);
      forall x | x in hs
        ensures r.units[x].damageReceivedRecently == 0.0 && r.units[x].damageInflictedRecently == 0.0
             && !r.units[x].hasKilledRecently
      {
        if x != h {
          assert x in hs[..n];
          assert Touched(p.units[x], r.units[x]);
        }
      }
    }
  }
}
