/** The scan filters, the allies' average morale and the target and ward
    choices the role policies are built from. Neighbour lists are handles
    into the roster, as the space returns them. */
module Scans {
  import opened Unit
  import opened Tables

  // ---------------------------------------------------------------------
  // Scans and averages

  /** `scan_for_allies` on the neighbours the space returned: those whose
      type tag equals the scanning unit's (so a live unit sees live allies),
      in the order returned. */
  function Allies(us: seq<Unit>, h: nat, ns: seq<nat>): (r: seq<nat>)
    requires h < |us| && Handles(ns, |us|)
    ensures forall x :: x in r <==> x in ns && TagOf(us[x]) == TagOf(us[h])
    ensures Handles(r, |us|)
    ensures Distinct(ns) ==> Distinct(r)
    decreases |ns|
  {
    if ns == [] then []
    else
      var n := |ns| - 1;
      DistinctInit(ns); DistinctSnoc(Allies(us, h, ns[..n]), ns[n]);
      Allies(us, h, ns[..n]) + (if TagOf(us[ns[n]]) == TagOf(us[h]) then [ns[n]] else [])
  }

  /** `scan_for_enemies`: the neighbours whose tag differs from the scanning
      unit's and is not dead. */
  function Enemies(us: seq<Unit>, h: nat, ns: seq<nat>): (r: seq<nat>)
    requires h < |us| && Handles(ns, |us|)
    ensures forall x :: x in r <==> x in ns && TagOf(us[x]) != TagOf(us[h]) && !us[x].dead
    ensures Handles(r, |us|)
    ensures Distinct(ns) ==> Distinct(r)
    decreases |ns|
  {
    if ns == [] then []
    else
      var n := |ns| - 1;
      DistinctInit(ns); DistinctSnoc(Enemies(us, h, ns[..n]), ns[n]);
      Enemies(us, h, ns[..n])
      + (if TagOf(us[ns[n]]) != TagOf(us[h]) && TagOf(us[ns[n]]) != Dead then [ns[n]] else [])
  }

  /** The flagger's second filter: the listed units of its own army. */
  function SameArmy(us: seq<Unit>, h: nat, allies: seq<nat>): (r: seq<nat>)
    requires h < |us| && Handles(allies, |us|)
    ensures forall x :: x in r <==> x in allies && us[x].army == us[h].army
    ensures Handles(r, |us|)
    ensures Distinct(allies) ==> Distinct(r)
    decreases |allies|
  {
    if allies == [] then []
    else
      var n := |allies| - 1;
      DistinctInit(allies); DistinctSnoc(SameArmy(us, h, allies[..n]), allies[n]);
      SameArmy(us, h, allies[..n]) + (if us[allies[n]].army == us[h].army then [allies[n]] else [])
  }

  function MoraleSum(us: seq<Unit>, allies: seq<nat>): real
    requires Handles(allies, |us|)
    decreases |allies|
  {
    if allies == [] then 0.0 else MoraleSum(us, allies[..|allies| - 1]) + us[allies[|allies| - 1]].morale
  }

  /** The mean morale of the listed units, 0 for an empty list. */
  function MeanMorale(us: seq<Unit>, allies: seq<nat>): real
    requires Handles(allies, |us|)
  {
    if |allies| == 0 then 0.0 else MoraleSum(us, allies) / (|allies| as real)
  }

  /** `get_average_morale_of_allies_in_flocking_radius`: the mean morale of
      the allies among the neighbours, 0 when there are none. */
  function AllyAverage(us: seq<Unit>, h: nat, ns: seq<nat>): (r: real)
    requires h < |us| && Handles(ns, |us|)
    ensures Allies(us, h, ns) == [] ==> r == 0.0
  {
    MeanMorale(us, Allies(us, h, ns))
  }

  lemma {:induction false} MoraleSumBounds(us: seq<Unit>, allies: seq<nat>, lo: real, hi: real)
    requires Handles(allies, |us|)
    requires forall x | x in allies :: lo <= us[x].morale <= hi
    ensures Times(lo, |allies|) <= MoraleSum(us, allies) <= Times(hi, |allies|)
    decreases |allies|
  {
    if allies != [] {
      var n := |allies| - 1;
      assert forall x | x in allies[..n] :: x in allies;
      MoraleSumBounds(us, allies[..n], lo, hi);
      assert allies[n] in allies;
    }
  }

  /** A mean lies within the range of the values averaged. */
  lemma MeanWithin(us: seq<Unit>, allies: seq<nat>, lo: real, hi: real)
    requires Handles(allies, |us|) && allies != []
    requires forall x | x in allies :: lo <= us[x].morale <= hi
    ensures lo <= MeanMorale(us, allies) <= hi
  {
    MoraleSumBounds(us, allies, lo, hi);
    TimesProduct(lo, |allies|);
    TimesProduct(hi, |allies|);
    DivBounds(MoraleSum(us, allies), |allies| as real, lo, hi);
  }

  /** The allies' average is 0 without allies and otherwise lies within the
      range of their morale values. */
  lemma AverageWithinAllies(us: seq<Unit>, h: nat, ns: seq<nat>, lo: real, hi: real)
    requires h < |us| && Handles(ns, |us|)
    requires forall x | x in Allies(us, h, ns) :: lo <= us[x].morale <= hi
    ensures Allies(us, h, ns) == [] ==> AllyAverage(us, h, ns) == 0.0
    ensures Allies(us, h, ns) != [] ==> lo <= AllyAverage(us, h, ns) <= hi
  {
    var allies := Allies(us, h, ns);
    if allies != [] {
      MeanWithin(us, allies, lo, hi);
    }
  }

  lemma DivBounds(s: real, n: real, lo: real, hi: real)
    requires n > 0.0 && lo * n <= s <= hi * n
    ensures lo <= s / n <= hi
  {
    var q := s / n;
    assert q * n == s;
  }

  // ---------------------------------------------------------------------
  // Target and ward choices

  predicate Priority(role: Role) {
    role == General || role == Flagger || role == Healer || role == Marksman
  }

  /** The marksman's scan: the index of the first enemy in scan order whose
      role is general, flagger, healer or marksman. */
  function FirstPriority(us: seq<Unit>, es: seq<nat>): (r: Option<nat>)
    requires Handles(es, |us|)
    ensures r.Some? ==> r.value < |es| && Priority(us[es[r.value]].role)
                        && forall j | 0 <= j < r.value :: !Priority(us[es[j]].role)
    ensures r.None? <==> forall j | 0 <= j < |es| :: !Priority(us[es[j]].role)
  {
    if es == [] then None
    else if Priority(us[es[0]].role) then Some(0)
    else match FirstPriority(us, es[1..])
      case None => None
      case Some(k) => Some(k + 1)
  }

  /** The guard's filter loop, which removes guards while iterating over the
      list: after each removal the next candidate is skipped, so a guard
      right after a removed guard stays. */
  function DropGuards(us: seq<Unit>, cs: seq<nat>): (r: seq<nat>)
    requires Handles(cs, |us|)
    ensures Handles(r, |us|)
  {
    if cs == [] then []
    else if us[cs[0]].role == Guard then
      if |cs| == 1 then [] else [cs[1]] + DropGuards(us, cs[2..])
    else
      [cs[0]] + DropGuards(us, cs[1..])
  }

  /** The filter keeps only listed units, keeps every listed non-guard, and
      keeps a list without repeats without repeats. */
  lemma DropGuardsFacts(us: seq<Unit>, cs: seq<nat>)
    requires Handles(cs, |us|)
    ensures var r := DropGuards(us, cs);
      && (forall x | x in r :: x in cs)
      && (forall x | x in cs && us[x].role != Guard :: x in r)
      && (Distinct(cs) ==> Distinct(r))
  {
    DropGuardsWithin(us, cs);
    DropGuardsKeeps(us, cs);
    if Distinct(cs) {
      DropGuardsDistinct(us, cs);
    }
  }

  /** Exactly which candidates the filter keeps: a non-guard always, and a
      guard exactly when the candidate before it was removed (the skip). */
  lemma {:induction false} DropGuardsRule(us: seq<Unit>, cs: seq<nat>, k: nat)
    requires Handles(cs, |us|) && Distinct(cs) && k < |cs|
    ensures cs[k] in DropGuards(us, cs) <==>
              us[cs[k]].role != Guard || (k > 0 && cs[k - 1] !in DropGuards(us, cs))
    decreases |cs|
  {
    DropGuardsFacts(us, cs);
    if us[cs[0]].role == Guard {
      if |cs| > 1 {
        var tl := cs[2..];
        DistinctTail2(cs);
        DropGuardsWithin(us, tl);
        if k >= 2 {
          DropGuardsRule(us, tl, k - 2);
          assert tl[k - 2] == cs[k];
          assert cs[k] != cs[1];
          if k > 2 {
            assert tl[k - 3] == cs[k - 1];
            assert cs[k - 1] != cs[1];
          }
        }
      }
    } else if k > 0 {
      var tl := cs[1..];
      DistinctTail(cs);
      DropGuardsRule(us, tl, k - 1);
      assert tl[k - 1] == cs[k];
      assert cs[k] != cs[0];
      if k > 1 {
        assert tl[k - 2] == cs[k - 1];
        assert cs[k - 1] != cs[0];
      }
    }
  }

  lemma {:induction false} DropGuardsWithin(us: seq<Unit>, cs: seq<nat>)
    requires Handles(cs, |us|)
    ensures forall x | x in DropGuards(us, cs) :: x in cs
    decreases |cs|
  {
    if cs == [] {
    } else if us[cs[0]].role == Guard {
      if |cs| > 1 {
        DropGuardsWithin(us, cs[2..]);
        assert forall x | x in cs[2..] :: x in cs;
      }
    } else {
      DropGuardsWithin(us, cs[1..]);
      assert forall x | x in cs[1..] :: x in cs;
    }
  }

  lemma {:induction false} DropGuardsKeeps(us: seq<Unit>, cs: seq<nat>)
    requires Handles(cs, |us|)
    ensures forall x | x in cs && us[x].role != Guard :: x in DropGuards(us, cs)
    decreases |cs|
  {
    if cs == [] {
    } else if us[cs[0]].role == Guard {
      if |cs| > 1 {
        DropGuardsKeeps(us, cs[2..]);
        assert forall x | x in cs :: x == cs[0] || x == cs[1] || x in cs[2..];
      }
    } else {
      DropGuardsKeeps(us, cs[1..]);
      assert forall x | x in cs :: x == cs[0] || x in cs[1..];
    }
  }

  lemma {:induction false} DropGuardsDistinct(us: seq<Unit>, cs: seq<nat>)
    requires Handles(cs, |us|) && Distinct(cs)
    ensures Distinct(DropGuards(us, cs))
    decreases |cs|
  {
    if cs == [] {
    } else if us[cs[0]].role == Guard {
      if |cs| > 1 {
        DistinctTail2(cs);
        DropGuardsDistinct(us, cs[2..]);
        DropGuardsWithin(us, cs[2..]);
        DistinctCons(cs[1], DropGuards(us, cs[2..]));
      }
    } else {
      DistinctTail(cs);
      DropGuardsDistinct(us, cs[1..]);
      DropGuardsWithin(us, cs[1..]);
      DistinctCons(cs[0], DropGuards(us, cs[1..]));
    }
  }

  lemma KeepHead(us: seq<Unit>, cs: seq<nat>, i: nat)
    requires Handles(cs, |us|) && i < |cs| && us[cs[i]].role != Guard
    ensures DropGuards(us, cs[i..]) == [cs[i]] + DropGuards(us, cs[i + 1..])
  {
    var rest := cs[i..];
    assert rest[0] == cs[i] && rest[1..] == cs[i + 1..];
  }

  lemma PrefixShift(cs: seq<nat>, i: nat, tail: seq<nat>)
    requires i < |cs|
    ensures cs[..i + 1] + tail == cs[..i] + ([cs[i]] + tail)
  {
    assert cs[..i + 1] == cs[..i] + [cs[i]];
  }

  /** One step of the in-place filter at position `i` past a non-guard. */
  lemma KeepStep(us: seq<Unit>, cs: seq<nat>, i: nat)
    requires Handles(cs, |us|) && i < |cs| && us[cs[i]].role != Guard
    ensures cs[..i + 1] + DropGuards(us, cs[i + 1..]) == cs[..i] + DropGuards(us, cs[i..])
  {
    KeepHead(us, cs, i);
    PrefixShift(cs, i, DropGuards(us, cs[i + 1..]));
  }

  lemma DropHead(us: seq<Unit>, cs: seq<nat>, i: nat)
    requires Handles(cs, |us|) && i + 1 < |cs| && us[cs[i]].role == Guard
    ensures DropGuards(us, cs[i..]) == [cs[i + 1]] + DropGuards(us, cs[i + 2..])
  {
    var rest := cs[i..];
    assert rest[0] == cs[i] && rest[1] == cs[i + 1] && rest[2..] == cs[i + 2..];
  }

  lemma RemoveShape(cs: seq<nat>, i: nat)
    requires i + 1 < |cs|
    ensures var d := cs[..i] + cs[i + 1..];
      d[..i + 1] == cs[..i] + [cs[i + 1]] && d[i + 1..] == cs[i + 2..]
  {
  }

  /** Removing a guard at `i` and moving on past the element after it. */
  lemma RemoveStep(us: seq<Unit>, cs: seq<nat>, i: nat)
    requires Handles(cs, |us|) && i + 1 < |cs| && us[cs[i]].role == Guard
    ensures var d := cs[..i] + cs[i + 1..];
            d[..i + 1] + DropGuards(us, d[i + 1..]) == cs[..i] + DropGuards(us, cs[i..])
  {
    var d := cs[..i] + cs[i + 1..];
    DropHead(us, cs, i);
    RemoveShape(cs, i);
    var tail := DropGuards(us, d[i + 1..]);
    assert tail == DropGuards(us, cs[i + 2..]);
    Regroup(cs[..i], cs[i + 1], tail, d[..i + 1], DropGuards(us, cs[i..]));
  }

  lemma Regroup(a: seq<nat>, x: nat, tail: seq<nat>, l: seq<nat>, r: seq<nat>)
    requires l == a + [x] && r == [x] + tail
    ensures l + tail == a + r
  {
  }

  /** Removing a guard in the last position ends the filter. */
  lemma RemoveLast(us: seq<Unit>, cs: seq<nat>, i: nat)
    requires Handles(cs, |us|) && i + 1 == |cs| && us[cs[i]].role == Guard
    ensures cs[..i] == cs[..i] + DropGuards(us, cs[i..])
  {
    assert cs[i..] == [cs[i]];
  }

  /** Two guards in a row: the second one survives the filter. */
  lemma GuardAfterGuardStays(us: seq<Unit>, cs: seq<nat>)
    requires Handles(cs, |us|) && Distinct(cs) && |cs| >= 2
    requires us[cs[0]].role == Guard && us[cs[1]].role == Guard
    ensures cs[0] !in DropGuards(us, cs) && cs[1] in DropGuards(us, cs)
  {
    DropGuardsFacts(us, cs[2..]);
    assert cs[0] !in cs[2..];
  }

  /** The k-th injected draw (0 once the draws run out). */
  function Draw(draws: seq<nat>, k: nat): (r: nat)
    ensures r in draws || r == 0
  {
    if k < |draws| then draws[k] else 0
  }

  /** The guard's retry loop: draw a candidate; while it is already
      protected, remove it and draw again among the rest. */
  function ChooseWard(us: seq<Unit>, cs: seq<nat>, draws: seq<nat>, k: nat): (r: Option<nat>)
    requires Handles(cs, |us|)
    ensures r.Some? ==> r.value in cs && !us[r.value].protected
    ensures r.None? <==> forall x | x in cs :: us[x].protected
    decreases |cs|
  {
    if cs == [] then None
    else
      var i := Draw(draws, k) % |cs|;
      if !us[cs[i]].protected then Some(cs[i])
      else
        var rest := cs[..i] + cs[i + 1..];
        assert forall x | x in cs :: x == cs[i] || x in rest;
        ChooseWard(us, rest, draws, k + 1)
  }

  // ---------------------------------------------------------------------
  // Inputs of a turn

  /** The neighbour lists the space returns for one unit's turn, one per
      radius the role scans: attack range, healing range, flocking radius,
      guarding range, the guard's 5 x basic attack range, and the flagger's
      twice the healing range. */
  datatype Scan = Scan(attack: seq<nat>, healing: seq<nat>, flocking: seq<nat>,
                       guarding: seq<nat>, close: seq<nat>, courage: seq<nat>)

  /** The random draws of one turn: `pick` for the choice of an enemy, `shot`
      for the marksman's randrange(10), `wards` for the guard's choices. */
  datatype Choice = Choice(pick: nat, shot: nat, wards: seq<nat>)

  /** A neighbour list names roster units, each once, never the scanner. */
  predicate Near(ns: seq<nat>, h: nat, n: nat) {
    Handles(ns, n) && Distinct(ns) && h !in ns
  }

  predicate ScanOk(sc: Scan, h: nat, n: nat) {
    Near(sc.attack, h, n) && Near(sc.healing, h, n) && Near(sc.flocking, h, n)
    && Near(sc.guarding, h, n) && Near(sc.close, h, n) && Near(sc.courage, h, n)
  }
}
