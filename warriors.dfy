/** The warrior agents as the code has them: one object holding the
    roster and the schedule, whose methods change units in place. Each
    method is proved to leave exactly the state the rule functions of
    modules Rules and Policies describe, so everything proved there holds
    of these methods. */
module Warriors {
  import opened Params
  import opened Unit
  import opened Tables
  import opened Scans
  import opened Rules
  import opened Policies
  import opened Layout

  class World {
    /** Every unit ever spawned, addressed by handle; dead ones stay. */
    var units: seq<Unit>
    /** The handles of the units still scheduled. */
    var schedule: seq<nat>

    constructor(us: seq<Unit>, sched: seq<nat>)
      ensures units == us && schedule == sched
    {
      units := us;
      schedule := sched;
    }

    function Tab(): Table
      reads this
    {
      Table(units, schedule)
    }

    // -------------------------------------------------------------------
    // Scans

    /** `scan_for_allies` over the neighbours the space returned. */
    method ScanForAllies(h: nat, ns: seq<nat>) returns (allies: seq<nat>)
      requires h < |units| && Handles(ns, |units|)
      ensures allies == Allies(units, h, ns)
    {
      var us := units;
      allies := [];
      var i := 0;
      while i < |ns|
        invariant 0 <= i <= |ns|
        invariant allies == Allies(us, h, ns[..i])
      {
        assert ns[..i + 1][..i] == ns[..i];
        if TagOf(us[ns[i]]) == TagOf(us[h]) {
          allies := allies + [ns[i]];
        }
        i := i + 1;
      }
      assert ns[..i] == ns;
    }

    /** `scan_for_enemies` over the neighbours the space returned. */
    method ScanForEnemies(h: nat, ns: seq<nat>) returns (enemies: seq<nat>)
      requires h < |units| && Handles(ns, |units|)
      ensures enemies == Enemies(units, h, ns)
    {
      var us := units;
      enemies := [];
      var i := 0;
      while i < |ns|
        invariant 0 <= i <= |ns|
        invariant enemies == Enemies(us, h, ns[..i])
      {
        var x := ns[i];
        var keep := TagOf(us[x]) != TagOf(us[h]) && TagOf(us[x]) != Dead;
        assert ns[..i + 1][..i] == ns[..i] && ns[..i + 1][i] == x;
        assert Enemies(us, h, ns[..i + 1]) == Enemies(us, h, ns[..i]) + (if keep then [x] else []);
        if keep {
          enemies := enemies + [x];
        }
        i := i + 1;
      }
      assert ns[..i] == ns;
    }

    /** The loops that look for a healer among allies. */
    method AnyHealer(xs: seq<nat>) returns (found: bool)
      requires Handles(xs, |units|)
      ensures found == HasRole(units, xs, Healer)
    {
      found := false;
      var i := 0;
      while i < |xs| && !found
        invariant 0 <= i <= |xs|
        invariant found ==> HasRole(units, xs, Healer)
        invariant !found ==> forall k | 0 <= k < i :: units[xs[k]].role != Healer
      {
        if units[xs[i]].role == Healer {
          found := true;
        }
        i := i + 1;
      }
    }

    /** `get_average_morale_of_allies_in_flocking_radius`: the mean morale of
        the allies among the neighbours, 0 when there are none. */
    method AverageMoraleOfAllies(h: nat, ns: seq<nat>) returns (avg: real)
      requires h < |units| && Handles(ns, |units|)
      ensures avg == AllyAverage(units, h, ns)
    {
      var allies := ScanForAllies(h, ns);
      var sum := 0.0;
      var i := 0;
      while i < |allies|
        invariant 0 <= i <= |allies|
        invariant sum == MoraleSum(units, allies[..i])
      {
        assert allies[..i + 1][..i] == allies[..i];
        sum := sum + units[allies[i]].morale;
        i := i + 1;
      }
      assert allies[..i] == allies;
      if |allies| == 0 {
        avg := 0.0;
      } else {
        avg := sum / (|allies| as real);
      }
    }

    // -------------------------------------------------------------------
    // Death and damage

    /** `die`, with the guard and general/flagger variants: the unit is
        marked dead and leaves the schedule (not the space). */
    method Die(h: nat)
      requires Linked(units) && h < |units|
      modifies this
      ensures Tab() == Died(old(Tab()), h)
    {
      var u := units[h];
      units := units[h := u.(dead := true)];
      if u.role == Guard {
        units := units[h := units[h].(guarding := false)];
        units := units[u.guardedAlly := units[u.guardedAlly].(protected := false)];
      } else if u.role == General || u.role == Flagger {
        ghost var ds := units;
        var i := 0;
        while i < |u.soldiers|
          invariant 0 <= i <= |u.soldiers| && |units| == |ds| && schedule == old(schedule)
          invariant Handles(u.soldiers[i..], |units|)
          invariant MoraleShifted(units, u.soldiers[i..], -10.0) == MoraleShifted(ds, u.soldiers, -10.0)
        {
          var s := u.soldiers[i];
          assert u.soldiers[i..][1..] == u.soldiers[i + 1..];
          units := units[s := units[s].(morale := units[s].morale - 10.0)];
          i := i + 1;
        }
        assert u.soldiers[i..] == [];
      }
      assert units == DeathEffects(old(units), h);
      schedule := Without(schedule, h);
    }

    /** `receive_ally_damage`: a guard takes the hit meant for its ward. */
    method ReceiveAllyDamage(g: nat, damage: real) returns (killed: bool)
      requires Linked(units) && g < |units|
      modifies this
      ensures (Tab(), killed) == AllyDamageReceived(old(Tab()), g, damage)
    {
      units := units[g := units[g].(hp := units[g].hp - damage)];
      if units[g].hp <= 0.0 {
        Die(g);
        killed := true;
      } else {
        killed := false;
      }
    }

    /** `receive_damage`; the result says whether the blow killed. */
    method ReceiveDamage(h: nat, damage: real) returns (killed: bool)
      requires Linked(units) && h < |units|
      modifies this
      ensures (Tab(), killed) == DamageReceived(old(Tab()), h, damage)
    {
      if units[h].protected {
        killed := ReceiveAllyDamage(units[h].guarder, damage);
      } else {
        var v := units[h];
        v := v.(hp := v.hp - damage);
        v := v.(damageReceivedRecently := v.damageReceivedRecently + damage);
        units := units[h := v];
        if v.hp <= 0.0 {
          Die(h);
          killed := true;
        } else {
          killed := false;
        }
      }
    }

    /** `receive_precise_damage`: protection does not help. */
    method ReceivePreciseDamage(h: nat, damage: real) returns (killed: bool)
      requires Linked(units) && h < |units|
      modifies this
      ensures (Tab(), killed) == PreciseDamageReceived(old(Tab()), h, damage)
    {
      var v := units[h];
      v := v.(hp := v.hp - damage);
      v := v.(damageReceivedRecently := v.damageReceivedRecently + damage);
      v := v.(morale := v.morale - 0.05);
      assert PreciseDamageReceived(old(Tab()), h, damage) == Struck(old(Tab()), h, v);
      units := units[h := v];
      if v.hp <= 0.0 {
        Die(h);
        killed := true;
      } else {
        killed := false;
      }
    }

    /** `attack`. */
    method Attack(a: nat, e: nat)
      requires Linked(units) && a < |units| && e < |units|
      modifies this
      ensures Tab() == Attacked(old(Tab()), a, e)
    {
      var killed := ReceiveDamage(e, units[a].attackDamage);
      if killed {
        units := units[a := units[a].(hasKilledRecently := true)];
      }
      units := units[a := units[a].(damageInflictedRecently := units[a].attackDamage)];
    }

    // -------------------------------------------------------------------
    // Healing, courage, precise shots, protection

    /** `heal`. */
    method Heal(healer: nat, ally: nat)
      requires Linked(units) && healer < |units| && ally < |units|
      modifies this
      ensures Tab() == Healed(old(Tab()), healer, ally)
    {
      if units[ally].hp + units[healer].healDamage < units[ally].initialHp {
        units := units[ally := units[ally].(hp := units[ally].hp + units[healer].healDamage)];
      } else {
        units := units[ally := units[ally].(hp := units[ally].initialHp)];
      }
    }

    /** `courage`: each listed ally gains 0.5 morale. */
    method Courage(allies: seq<nat>)
      requires Linked(units) && Handles(allies, |units|)
      modifies this
      ensures Tab() == Encouraged(old(Tab()), allies)
    {
      ghost var us := units;
      var i := 0;
      while i < |allies|
        invariant 0 <= i <= |allies| && |units| == |us| && schedule == old(schedule)
        invariant Handles(allies[i..], |units|)
        invariant MoraleShifted(units, allies[i..], 0.5) == MoraleShifted(us, allies, 0.5)
      {
        var s := allies[i];
        assert allies[i..][1..] == allies[i + 1..];
        units := units[s := units[s].(morale := units[s].morale + 0.5)];
        i := i + 1;
      }
    }

    /** `precise_attack` with the draw of randrange(10) passed in. */
    method PreciseAttack(m: nat, e: nat, shot: nat)
      requires Linked(units) && m < |units| && e < |units|
      modifies this
      ensures Tab() == PreciseAttacked(old(Tab()), m, e, shot)
    {
      ghost var t := Tab();
      ghost var u := units[m];
      if (shot as int) < units[m].successChance {
        units := units[m := units[m].(morale := units[m].morale + 0.05)];
        units := units[m := units[m].(damageInflictedRecently := units[m].attackDamage)];
        ghost var aimed := Aimed(t, m);
        assert Tab() == aimed;
        var killed := ReceivePreciseDamage(e, units[m].attackDamage);
        ghost var res := PreciseDamageReceived(aimed, e, u.attackDamage);
        assert Tab() == res.0 && killed == res.1;
        if killed {
          units := units[m := units[m].(hasKilledRecently := true)];
          assert Tab() == Updated(res.0, m, res.0.units[m].(hasKilledRecently := true));
        }
      } else {
        units := units[m := units[m].(morale := units[m].morale - 0.1)];
        units := units[m := units[m].(damageInflictedRecently := 0.0)];
        assert Tab() == Updated(t, m, u.(morale := u.morale - 0.1, damageInflictedRecently := 0.0));
      }
    }

    /** `protect`. */
    method Protect(g: nat, w: nat)
      requires Linked(units) && g < |units| && w < |units|
      modifies this
      ensures Tab() == Protected(old(Tab()), g, w)
    {
      units := units[g := units[g].(guarding := true)];
      units := units[g := units[g].(guardedAlly := w)];
      units := units[w := units[w].(guarder := g)];
      units := units[w := units[w].(protected := true)];
    }

    // -------------------------------------------------------------------
    // Morale

    /** `clear_recent_event_trackers`. */
    method ClearRecentEventTrackers(h: nat)
      requires Linked(units) && h < |units|
      modifies this
      ensures Linked(units) && schedule == old(schedule)
      ensures units == old(units)[h := old(units)[h].(damageReceivedRecently := 0.0,
                                                      damageInflictedRecently := 0.0,
                                                      hasKilledRecently := false)]
    {
      units := units[h := units[h].(damageReceivedRecently := 0.0)];
      units := units[h := units[h].(damageInflictedRecently := 0.0)];
      units := units[h := units[h].(hasKilledRecently := false)];
    }

    /** `adjust_attack_damage`, and for a healer `adjust_heal_damage`. */
    method AdjustDamage(h: nat)
      requires Linked(units) && h < |units|
      modifies this
      ensures Tab() == Updated(old(Tab()), h, Rescaled(old(units)[h]))
    {
      var v := units[h];
      var damage := v.initialAttackDamage * v.morale / 100.0;
      var heal := v.healDamage;
      if v.role == Healer {
        heal := v.initialHealDamage * v.morale / 100.0;
      }
      assert v.(attackDamage := damage, healDamage := heal) == Rescaled(v);
      units := units[h := v.(attackDamage := damage, healDamage := heal)];
    }

    /** `update_morale` (and the healer's override, which also rescales the
        heal amount). */
    method UpdateMorale(h: nat, newMorale: real)
      requires Linked(units) && h < |units|
      modifies this
      ensures Tab() == MoraleUpdated(old(Tab()), h, newMorale)
    {
      ClearRecentEventTrackers(h);
      units := units[h := units[h].(morale := newMorale)];
      ghost var cleared := Tab();
      assert cleared == Updated(old(Tab()), h, Cleared(old(units)[h], newMorale));
      if units[h].morale <= ToFleeThreshold {
        Die(h);
      }
      ghost var fled := Tab();
      assert fled == if newMorale <= ToFleeThreshold then Died(cleared, h) else cleared;
      AdjustDamage(h);
    }

    // -------------------------------------------------------------------
    // Turns

    /** `self.counter += 1`. */
    method CountTurn(h: nat)
      requires Linked(units) && h < |units|
      modifies this
      ensures Tab() == Bumped(old(Tab()), h)
    {
      units := units[h := units[h].(counter := units[h].counter + 1)];
    }

    /** The fight branch: attack a drawn enemy in range, or move. */
    method Fight(h: nat, ns: seq<nat>, pick: nat) returns (act: Act)
      requires Linked(units) && h < |units| && Handles(ns, |units|)
      modifies this
      ensures Turn(Tab(), act) == Policies.Fight(old(Tab()), h, ns, pick)
    {
      var enemies := ScanForEnemies(h, ns);
      if enemies != [] {
        var e := enemies[pick % |enemies|];
        Attack(h, e);
        act := Strike(e);
      } else {
        act := Move;
      }
    }

    method WarriorStep(h: nat, sc: Scan, ch: Choice) returns (act: Act)
      requires Linked(units) && h < |units| && ScanIn(sc, |units|)
      modifies this
      ensures Turn(Tab(), act) == WarriorTurn(old(Tab()), h, sc, ch)
    {
      act := Fight(h, sc.attack, ch.pick);
      CountTurn(h);
    }

    method GeneralStep(h: nat, sc: Scan, ch: Choice) returns (act: Act)
      requires Linked(units) && h < |units| && ScanIn(sc, |units|)
      modifies this
      ensures Turn(Tab(), act) == GeneralTurn(old(Tab()), h, sc, ch)
    {
      ghost var t := Tab();
      var near := ScanForAllies(h, sc.healing);
      var flock := ScanForAllies(h, sc.flocking);
      var healed := AnyHealer(near);
      units := units[h := units[h].(beingHealed := healed)];
      ghost var t1 := Updated(t, h, t.units[h].(beingHealed := healed));
      assert Tab() == t1;
      if units[h].hp < 0.25 * units[h].initialHp && !healed {
        var seen := AnyHealer(flock);
        if seen {
          act := MoveToHealer;
        } else {
          act := Fight(h, sc.attack, ch.pick);
        }
      } else {
        act := Fight(h, sc.attack, ch.pick);
      }
      ghost var f := Turn(Tab(), act);
      assert f == if t.units[h].hp < 0.25 * t.units[h].initialHp && !healed
                     && HasRole(t.units, Allies(t.units, h, sc.flocking), Healer)
                  then Turn(t1, MoveToHealer) else Policies.Fight(t1, h, sc.attack, ch.pick);
      CountTurn(h);
      assert Turn(Tab(), act) == Turn(Bumped(f.table, h), f.act);
    }

    /** The healer's loop over the allies in healing range. */
    method HealAll(h: nat, allies: seq<nat>)
      requires Linked(units) && h < |units| && Handles(allies, |units|)
      modifies this
      ensures Tab() == HealedAll(old(Tab()), h, allies)
    {
      ghost var t := Tab();
      var i := 0;
      while i < |allies|
        invariant 0 <= i <= |allies|
        invariant Tab() == HealedAll(t, h, allies[..i])
      {
        ghost var p := Tab();
        assert allies[..i + 1][..i] == allies[..i];
        var a := allies[i];
        assert HealedAll(t, h, allies[..i + 1])
            == if p.units[a].hp < p.units[a].initialHp then Healed(p, h, a) else p;
        if units[a].hp < units[a].initialHp {
          Heal(h, a);
        }
        i := i + 1;
      }
      assert allies[..i] == allies;
    }

    method HealerStep(h: nat, sc: Scan, ch: Choice) returns (act: Act)
      requires Linked(units) && h < |units| && ScanIn(sc, |units|)
      modifies this
      ensures Turn(Tab(), act) == HealerTurn(old(Tab()), h, sc, ch)
    {
      ghost var t := Tab();
      var allies := ScanForAllies(h, sc.healing);
      if allies != [] {
        HealAll(h, allies);
        act := HealThenMove(allies);
      } else {
        act := Fight(h, sc.attack, ch.pick);
      }
      ghost var f := Turn(Tab(), act);
      assert f == if allies != [] then Turn(HealedAll(t, h, allies), HealThenMove(allies))
                  else Policies.Fight(t, h, sc.attack, ch.pick);
      CountTurn(h);
      assert Turn(Tab(), act) == Turn(Bumped(f.table, h), f.act);
    }

    /** The marksman's scan for its first priority target. */
    method FindPriority(es: seq<nat>) returns (r: Option<nat>)
      requires Handles(es, |units|)
      ensures r == FirstPriority(units, es)
    {
      r := None;
      var i := 0;
      while i < |es| && r.None?
        invariant 0 <= i <= |es|
        invariant r.None? ==> forall j | 0 <= j < i :: !Priority(units[es[j]].role)
        invariant r.Some? ==> r.value < |es| && Priority(units[es[r.value]].role)
                              && forall j | 0 <= j < r.value :: !Priority(units[es[j]].role)
      {
        if Priority(units[es[i]].role) {
          r := Some(i);
        }
        i := i + 1;
      }
      var f := FirstPriority(units, es);
      if f.Some? && r.Some? {
        assert !(f.value < r.value) && !(r.value < f.value);
      }
    }

    method MarksmanStep(h: nat, sc: Scan, ch: Choice) returns (act: Act)
      requires Linked(units) && h < |units| && ScanIn(sc, |units|)
      modifies this
      ensures Turn(Tab(), act) == MarksmanTurn(old(Tab()), h, sc, ch)
    {
      var enemies := ScanForEnemies(h, sc.attack);
      if enemies != [] {
        var first := FindPriority(enemies);
        match first
        case Some(i) =>
          PreciseAttack(h, enemies[i], ch.shot);
          act := PreciseShot(enemies[i]);
        case None =>
          var e := enemies[ch.pick % |enemies|];
          Attack(h, e);
          act := Strike(e);
      } else {
        act := Move;
      }
      CountTurn(h);
    }

    /** The guard's filter loop, which removes guards from the list it is
        iterating over, so the element after each removed one is skipped. */
    method DropGuardsFrom(allies: seq<nat>) returns (cs: seq<nat>)
      requires Handles(allies, |units|)
      ensures cs == DropGuards(units, allies)
    {
      cs := allies;
      var i := 0;
      while i < |cs|
        invariant i <= |cs| + 1 && Handles(cs, |units|)
        invariant i <= |cs| ==> cs[..i] + DropGuards(units, cs[i..]) == DropGuards(units, allies)
        invariant i > |cs| ==> cs == DropGuards(units, allies)
        decreases |cs| - i + 1
      {
        if units[cs[i]].role == Guard {
          if i + 1 < |cs| {
            RemoveStep(units, cs, i);
          } else {
            RemoveLast(units, cs, i);
          }
          cs := cs[..i] + cs[i + 1..];
        } else {
          KeepStep(units, cs, i);
        }
        i := i + 1;
      }
    }

    /** The guard's retry loop: draw a candidate, and while the drawn one is
        protected remove it and draw again; none when the list runs out. */
    method PickWard(cs: seq<nat>, draws: seq<nat>) returns (w: Option<nat>)
      requires Handles(cs, |units|) && cs != []
      ensures w == ChooseWard(units, cs, draws, 0)
    {
      var cands := cs;
      var k := 0;
      var i := Draw(draws, k) % |cands|;
      while units[cands[i]].protected
        invariant cands != [] && i < |cands| && Handles(cands, |units|)
        invariant i == Draw(draws, k) % |cands|
        invariant ChooseWard(units, cands, draws, k) == ChooseWard(units, cs, draws, 0)
        decreases |cands|
      {
        cands := cands[..i] + cands[i + 1..];
        if cands == [] {
          return None;
        }
        k := k + 1;
        i := Draw(draws, k) % |cands|;
      }
      w := Some(cands[i]);
    }

    method GuardStep(h: nat, sc: Scan, ch: Choice) returns (act: Act)
      requires Linked(units) && h < |units| && ScanIn(sc, |units|)
      modifies this
      ensures Turn(Tab(), act) == GuardTurn(old(Tab()), h, sc, ch)
    {
      units := units[units[h].guardedAlly := units[units[h].guardedAlly].(protected := false)];
      units := units[h := units[h].(guardedAlly := h)];
      units := units[h := units[h].(guarding := false)];
      assert Tab() == ClearWard(old(Tab()), h);
      var allies := ScanForAllies(h, sc.guarding);
      var close := ScanForEnemies(h, sc.close);
      var cands := DropGuardsFrom(allies);
      if cands != [] && close != [] {
        var w := PickWard(cands, ch.wards);
        match w
        case None =>
          act := Fight(h, sc.attack, ch.pick);
          return;
        case Some(x) =>
          Protect(h, x);
          act := ProtectThenMove(x);
      } else {
        act := Fight(h, sc.attack, ch.pick);
      }
      CountTurn(h);
    }

    /** The flagger's filter of the allies in courage range to its army. */
    method OwnArmy(h: nat, allies: seq<nat>) returns (mates: seq<nat>)
      requires h < |units| && Handles(allies, |units|)
      ensures mates == SameArmy(units, h, allies)
    {
      mates := [];
      var i := 0;
      while i < |allies|
        invariant 0 <= i <= |allies|
        invariant mates == SameArmy(units, h, allies[..i])
      {
        assert allies[..i + 1][..i] == allies[..i];
        if units[allies[i]].army == units[h].army {
          mates := mates + [allies[i]];
        }
        i := i + 1;
      }
      assert allies[..i] == allies;
    }

    method FlaggerStep(h: nat, sc: Scan, ch: Choice) returns (act: Act)
      requires Linked(units) && h < |units| && ScanIn(sc, |units|)
      modifies this
      ensures Turn(Tab(), act) == FlaggerTurn(old(Tab()), h, sc, ch)
    {
      var near := ScanForAllies(h, sc.courage);
      var mates := OwnArmy(h, near);
      if mates != [] {
        Courage(mates);
      }
      act := Fight(h, sc.attack, ch.pick);
      CountTurn(h);
    }

    /** `step` of whichever agent class the unit belongs to. */
    method Step(h: nat, sc: Scan, ch: Choice) returns (act: Act)
      requires Linked(units) && h < |units| && ScanIn(sc, |units|)
      modifies this
      ensures Turn(Tab(), act) == TurnOf(old(Tab()), h, sc, ch)
    {
      match units[h].role
      case Warrior => act := WarriorStep(h, sc, ch);
      case General => act := GeneralStep(h, sc, ch);
      case Healer => act := HealerStep(h, sc, ch);
      case Marksman => act := MarksmanStep(h, sc, ch);
      case Guard => act := GuardStep(h, sc, ch);
      case Flagger => act := FlaggerStep(h, sc, ch);
    }

    // -------------------------------------------------------------------
    // Setup

    /** `schedule.add`: the new unit gets the next handle and is scheduled. */
    method Add(u: Unit)
      modifies this
      ensures units == old(units) + [u] && schedule == old(schedule) + [|old(units)|]
    {
      schedule := schedule + [|units|];
      units := units + [u];
    }

    /** One leader's inner linking loop: it appends, in roster order, every
        unit of its army whose role differs from its own. */
    method AppendSubordinates(a: nat)
      requires a < |units|
      modifies this
      ensures units == old(units)[a := old(units)[a].(soldiers := old(units)[a].soldiers
                                                        + Subordinates(old(units), a, |old(units)|))]
      ensures schedule == old(schedule)
    {
      ghost var pre := units;
      ghost var sub: seq<nat> := [];
      var b := 0;
      assert pre[a].soldiers + sub == pre[a].soldiers;
      assert pre[a := pre[a]] == pre;
      while b < |units|
        invariant 0 <= b <= |units| == |pre| && schedule == old(schedule)
        invariant sub == Subordinates(pre, a, b)
        invariant units == pre[a := pre[a].(soldiers := pre[a].soldiers + sub)]
      {
        assert units[b].role == pre[b].role && units[b].army == pre[b].army;
        assert units[a].role == pre[a].role && units[a].army == pre[a].army;
        if units[b].role != units[a].role && units[b].army == units[a].army {
          assert (pre[a].soldiers + sub) + [b] == pre[a].soldiers + (sub + [b]);
          units := units[a := units[a].(soldiers := units[a].soldiers + [b])];
          sub := sub + [b];
        } else {
          assert sub + [] == sub;
        }
        b := b + 1;
      }
    }

    /** The linking loop at the end of `spawner`, over the units in the
        order they were added. */
    method LinkLeaders()
      modifies this
      ensures units == Link(old(units)) && schedule == old(schedule)
    {
      ghost var us := units;
      var a := 0;
      while a < |units|
        invariant 0 <= a <= |units| == |us| && schedule == old(schedule)
        invariant forall k | 0 <= k < |us| :: units[k] == if k < a then LinkedUnit(us, k) else us[k]
      {
        if units[a].role == General || units[a].role == Flagger {
          ghost var pre := units;
          forall k | 0 <= k < |us| ensures pre[k].role == us[k].role && pre[k].army == us[k].army {
            assert pre[k] == if k < a then LinkedUnit(us, k) else us[k];
          }
          SubordinatesByLabels(pre, us, a, |us|);
          AppendSubordinates(a);
          assert units == pre[a := LinkedUnit(us, a)];
        }
        a := a + 1;
      }
      assert units == Link(us);
    }
  }
}
