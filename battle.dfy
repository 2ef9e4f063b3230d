/** One tick of the battle and its setup: every scheduled unit takes its
    turn in the activation order, then the two-phase morale pass runs
    (every survivor's ally average first, then every update), and the tick
    reports whether both sides still have units scheduled. */
module Battle {
  import opened Params
  import opened Unit
  import opened Tables
  import opened Scans
  import opened Rules
  import opened Policies
  import opened Layout
  import opened Warriors

  // ---------------------------------------------------------------------
  // The tick as functions

  /** Inputs of one activation: the scans and draws drawn for each entry of
      the order name roster units. */
  predicate TurnsIn(order: seq<nat>, scans: seq<Scan>, choices: seq<Choice>, n: nat) {
    && Handles(order, n) && |scans| == |order| && |choices| == |order|
    && forall k | 0 <= k < |scans| :: ScanIn(scans[k], n)
  }

  /** `schedule.step`: the units take their turns in the activation order;
      a unit removed from the schedule earlier in the same step is skipped. */
  function Activated(t: Table, order: seq<nat>, scans: seq<Scan>, choices: seq<Choice>): (r: Table)
    requires Linked(t.units) && TurnsIn(order, scans, choices, |t.units|)
    ensures Linked(r.units) && |r.units| == |t.units|
    decreases |order|
  {
    if order == [] then t
    else
      var n := |order| - 1;
      var p := Activated(t, order[..n], scans[..n], choices[..n]);
      if order[n] in p.schedule then TurnOf(p, order[n], scans[n], choices[n]).table else p
  }

  /** One more turn of the activation order: the unit takes it if it is
      still scheduled. */
  lemma ActivatedSnoc(t: Table, order: seq<nat>, scans: seq<Scan>, choices: seq<Choice>, n: nat)
    requires Linked(t.units) && TurnsIn(order, scans, choices, |t.units|) && n < |order|
    ensures TurnsIn(order[..n], scans[..n], choices[..n], |t.units|)
    ensures TurnsIn(order[..n + 1], scans[..n + 1], choices[..n + 1], |t.units|)
    ensures var p := Activated(t, order[..n], scans[..n], choices[..n]);
      Activated(t, order[..n + 1], scans[..n + 1], choices[..n + 1])
      == if order[n] in p.schedule then TurnOf(p, order[n], scans[n], choices[n]).table else p
  {
    assert order[..n + 1][..n] == order[..n];
    assert scans[..n + 1][..n] == scans[..n];
    assert choices[..n + 1][..n] == choices[..n];
  }

  /** Each scan of the activation is a proper neighbour list of its unit. */
  predicate TurnsOk(order: seq<nat>, scans: seq<Scan>, choices: seq<Choice>, n: nat) {
    TurnsIn(order, scans, choices, n)
    && forall k | 0 <= k < |scans| :: ScanOk(scans[k], order[k], n)
  }

  lemma TurnsOkIn(order: seq<nat>, scans: seq<Scan>, choices: seq<Choice>, n: nat)
    requires TurnsOk(order, scans, choices, n)
    ensures TurnsIn(order, scans, choices, n)
  {
  }

  /** The activation pass keeps the invariant. */
  lemma {:induction false} ActivatedWellFormed(t: Table, order: seq<nat>, scans: seq<Scan>, choices: seq<Choice>)
    requires WellFormed(t) && TurnsOk(order, scans, choices, |t.units|)
    ensures WellFormed(Activated(t, order, scans, choices))
    decreases |order|
  {
    if order != [] {
      var n := |order| - 1;
      assert TurnsOk(order[..n], scans[..n], choices[..n], |t.units|);
      ActivatedWellFormed(t, order[..n], scans[..n], choices[..n]);
      var p := Activated(t, order[..n], scans[..n], choices[..n]);
      if order[n] in p.schedule {
        TurnWellFormed(p, order[n], scans[n], choices[n]);
      }
    }
  }

  /** The neighbours in flocking radius the space returns for each unit,
      by handle, at the time of the morale pass. */
  predicate FlocksIn(flocks: seq<seq<nat>>, n: nat) {
    |flocks| == n && forall h | 0 <= h < n :: Handles(flocks[h], n)
  }

  /** The first phase of the morale pass: the allies' average of every
      scheduled unit, in schedule order, all taken before any update. */
  function Snapshot(t: Table, flocks: seq<seq<nat>>): (avgs: seq<real>)
    requires Handles(t.schedule, |t.units|) && FlocksIn(flocks, |t.units|)
    ensures |avgs| == |t.schedule|
  {
    seq(|t.schedule|, k requires 0 <= k < |t.schedule| =>
      AllyAverage(t.units, t.schedule[k], flocks[t.schedule[k]]))
  }

  /** Both phases of the morale pass over the units scheduled at its start. */
  function MoralePass(t: Table, flocks: seq<seq<nat>>): (r: Table)
    requires Linked(t.units) && Handles(t.schedule, |t.units|) && FlocksIn(flocks, |t.units|)
    ensures Linked(r.units) && |r.units| == |t.units|
  {
    Applied(t, t.schedule, Snapshot(t, flocks))
  }

  /** `BattleModel.step` before its result: the activation pass, then the
      morale pass. */
  function Ticked(t: Table, order: seq<nat>, scans: seq<Scan>, choices: seq<Choice>, flocks: seq<seq<nat>>): (r: Table)
    requires WellFormed(t) && TurnsOk(order, scans, choices, |t.units|) && FlocksIn(flocks, |t.units|)
    ensures |r.units| == |t.units|
  {
    TurnsOkIn(order, scans, choices, |t.units|);
    ActivatedWellFormed(t, order, scans, choices);
    MoralePass(Activated(t, order, scans, choices), flocks)
  }

  /** The result of `BattleModel.step`: some scheduled unit has type red and
      some has type blue. */
  predicate BothSides(t: Table)
    requires Handles(t.schedule, |t.units|)
  {
    && (exists k | 0 <= k < |t.schedule| :: TagOf(t.units[t.schedule[k]]) == Living(Red))
    && (exists k | 0 <= k < |t.schedule| :: TagOf(t.units[t.schedule[k]]) == Living(Blue))
  }

  // ---------------------------------------------------------------------
  // Properties of the tick

  /** A tick keeps the invariant. */
  lemma TickWellFormed(t: Table, order: seq<nat>, scans: seq<Scan>, choices: seq<Choice>, flocks: seq<seq<nat>>)
    requires WellFormed(t) && TurnsOk(order, scans, choices, |t.units|) && FlocksIn(flocks, |t.units|)
    ensures WellFormed(Ticked(t, order, scans, choices, flocks))
  {
    TurnsOkIn(order, scans, choices, |t.units|);
    ActivatedWellFormed(t, order, scans, choices);
    var mid := Activated(t, order, scans, choices);
    AppliedWellFormed(mid, mid.schedule, Snapshot(mid, flocks));
  }

  /** The morale pass over a well-formed table keeps it well formed, changes
      no unit's hp, and leaves every unit scheduled at its start with its
      three trackers clear. */
  lemma MoralePassOutcome(t: Table, flocks: seq<seq<nat>>)
    requires WellFormed(t) && FlocksIn(flocks, |t.units|)
    ensures var r := MoralePass(t, flocks);
      && WellFormed(r)
      && (forall x | 0 <= x < |t.units| :: r.units[x].hp == t.units[x].hp)
      && forall x | x in t.schedule ::
           r.units[x].damageReceivedRecently == 0.0 && r.units[x].damageInflictedRecently == 0.0
           && !r.units[x].hasKilledRecently
  {
    var avgs := Snapshot(t, flocks);
    AppliedWellFormed(t, t.schedule, avgs);
    MoralePassKeepsHp(t, t.schedule, avgs);
    MoralePassClearsTrackers(t, t.schedule, avgs);
  }

  /** Every average of the snapshot is that of the unit's allies in the
      table the pass starts from: 0 without allies, and otherwise between
      the lowest and the highest morale among them. */
  lemma SnapshotWithin(t: Table, flocks: seq<seq<nat>>, k: nat, lo: real, hi: real)
    requires Handles(t.schedule, |t.units|) && FlocksIn(flocks, |t.units|) && k < |t.schedule|
    requires forall x | x in Allies(t.units, t.schedule[k], flocks[t.schedule[k]]) ::
               lo <= t.units[x].morale <= hi
    ensures var allies := Allies(t.units, t.schedule[k], flocks[t.schedule[k]]);
      && (allies == [] ==> Snapshot(t, flocks)[k] == 0.0)
      && (allies != [] ==> lo <= Snapshot(t, flocks)[k] <= hi)
  {
    AverageWithinAllies(t.units, t.schedule[k], flocks[t.schedule[k]], lo, hi);
  }

  /** The snapshot reads only the type tags and morale of the units: an
      update that changes neither of those for anybody would leave every
      average as it was. */
  lemma {:induction false} SnapshotReadsMorale(t: Table, t': Table, flocks: seq<seq<nat>>)
    requires Handles(t.schedule, |t.units|) && FlocksIn(flocks, |t.units|)
    requires |t'.units| == |t.units| && t'.schedule == t.schedule
    requires forall x | 0 <= x < |t.units| ::
               TagOf(t'.units[x]) == TagOf(t.units[x]) && t'.units[x].morale == t.units[x].morale
    ensures Snapshot(t', flocks) == Snapshot(t, flocks)
  {
    forall k | 0 <= k < |t.schedule| ensures Snapshot(t', flocks)[k] == Snapshot(t, flocks)[k] {
      var h := t.schedule[k];
      AlliesByTags(t.units, t'.units, h, flocks[h]);
      MoraleSumByMorale(t.units, t'.units, Allies(t.units, h, flocks[h]));
    }
  }

  lemma {:induction false} AlliesByTags(us: seq<Unit>, vs: seq<Unit>, h: nat, ns: seq<nat>)
    requires |us| == |vs| && h < |us| && Handles(ns, |us|)
    requires forall x | 0 <= x < |us| :: TagOf(vs[x]) == TagOf(us[x])
    ensures Allies(vs, h, ns) == Allies(us, h, ns)
    decreases |ns|
  {
    if ns != [] {
      AlliesByTags(us, vs, h, ns[..|ns| - 1]);
    }
  }

  lemma {:induction false} MoraleSumByMorale(us: seq<Unit>, vs: seq<Unit>, xs: seq<nat>)
    requires |us| == |vs| && Handles(xs, |us|)
    requires forall x | 0 <= x < |us| :: vs[x].morale == us[x].morale
    ensures MoraleSum(vs, xs) == MoraleSum(us, xs)
    decreases |xs|
  {
    if xs != [] {
      MoraleSumByMorale(us, vs, xs[..|xs| - 1]);
    }
  }

  /** On a well-formed table the result says exactly that a live red unit
      and a live blue unit remain. */
  lemma BothSidesIff(t: Table)
    requires WellFormed(t)
    ensures BothSides(t) <==>
      (exists x | 0 <= x < |t.units| :: !t.units[x].dead && t.units[x].side == Red)
      && (exists x | 0 <= x < |t.units| :: !t.units[x].dead && t.units[x].side == Blue)
  {
    forall side: Side
      ensures (exists k | 0 <= k < |t.schedule| :: TagOf(t.units[t.schedule[k]]) == Living(side))
              <==> exists x | 0 <= x < |t.units| :: !t.units[x].dead && t.units[x].side == side
    {
      if x :| 0 <= x < |t.units| && !t.units[x].dead && t.units[x].side == side {
        assert x in t.schedule;
        var k :| 0 <= k < |t.schedule| && t.schedule[k] == x;
        assert TagOf(t.units[t.schedule[k]]) == Living(side);
      }
    }
  }

  // ---------------------------------------------------------------------
  // The model object

  class BattleModel {
    const world: World
    var nextId: nat
    var running: bool

    /** `__init__`: the red block is spawned and linked, then the blue block
        is spawned and the whole roster linked again. */
    constructor(rc: nat, rr: nat, rs: nat, bc: nat, br: nat, bs: nat)
      ensures world.Tab() == Initial(rc, rr, rs, bc, br, bs)
      ensures nextId == |world.units| + 1 && running && fresh(world)
    {
      world := new World([], []);
      nextId := 1;
      running := true;
      new;
      Spawner(Red, rc, rr, rs);
      assert [] + Columns(Red, rr, rr * rs, rc, 0) == Columns(Red, rr, rr * rs, rc, 0);
      Spawner(Blue, bc, br, bs);
    }

    /** `spawn`: a unit of the given role with the next id; the id counter
        moves on. */
    method Spawn(side: Side, role: Role, army: Army)
      requires nextId == |world.units| + 1 && world.schedule == Range(|world.units|)
      modifies this, world
      ensures world.units == old(world.units) + [NewUnit(old(nextId), |old(world.units)|, side, role, army)]
      ensures nextId == old(nextId) + 1 && nextId == |world.units| + 1
      ensures world.schedule == Range(|world.units|) && running == old(running)
    {
      var a := NewUnit(nextId, |world.units|, side, role, army);
      world.Add(a);
      nextId := nextId + 1;
    }

    /** `spawner`: column by column, row by row, a unit per cell with the
        role and army the layout gives it; then the linking loop. */
    method Spawner(side: Side, cols: nat, rows: nat, squad: nat)
      requires nextId == |world.units| + 1 && world.schedule == Range(|world.units|)
      modifies this, world
      ensures world.units == Link(old(world.units) + Columns(side, rows, rows * squad, cols, |old(world.units)|))
      ensures nextId == |world.units| + 1 && world.schedule == Range(|world.units|)
      ensures running == old(running)
    {
      ghost var base := world.units;
      var i := 0;
      while i < cols
        invariant 0 <= i <= cols && running == old(running)
        invariant world.units == base + Columns(side, rows, rows * squad, i, |base|)
        invariant nextId == |world.units| + 1 && world.schedule == Range(|world.units|)
      {
        SpawnNextColumn(side, rows, squad, i, base);
        i := i + 1;
      }
      world.LinkLeaders();
    }

    /** One pass of the outer loop of `spawner`: column `i` is appended. */
    method SpawnNextColumn(side: Side, rows: nat, squad: nat, i: nat, ghost base: seq<Unit>)
      requires world.units == base + Columns(side, rows, rows * squad, i, |base|)
      requires nextId == |world.units| + 1 && world.schedule == Range(|world.units|)
      modifies this, world
      ensures world.units == base + Columns(side, rows, rows * squad, i + 1, |base|)
      ensures nextId == |world.units| + 1 && world.schedule == Range(|world.units|)
      ensures running == old(running)
    {
      ghost var before := world.units;
      SpawnColumn(side, rows, squad, i);
      ColumnSpawned(side, rows, rows * squad, i, base, before);
    }

    /** The inner loop of `spawner`: the cells of column `i`. */
    method SpawnColumn(side: Side, rows: nat, squad: nat, i: nat)
      requires nextId == |world.units| + 1 && world.schedule == Range(|world.units|)
      modifies this, world
      ensures world.units == old(world.units) + Column(side, rows, i, rows * squad, |old(world.units)|)
      ensures nextId == |world.units| + 1 && world.schedule == Range(|world.units|)
      ensures running == old(running)
    {
      ghost var done := world.units;
      var j := 0;
      while j < rows * squad
        invariant 0 <= j <= rows * squad && running == old(running)
        invariant world.units == done + Column(side, rows, i, j, |done|)
        invariant nextId == |world.units| + 1 && world.schedule == Range(|world.units|)
      {
        SpawnCell(side, rows, squad, i, j, done);
        j := j + 1;
      }
    }

    /** One pass of the inner loop of `spawner`: cell (i, j) is spawned. */
    method SpawnCell(side: Side, rows: nat, squad: nat, i: nat, j: nat, ghost done: seq<Unit>)
      requires j < rows * squad
      requires world.units == done + Column(side, rows, i, j, |done|)
      requires nextId == |world.units| + 1 && world.schedule == Range(|world.units|)
      modifies this, world
      ensures world.units == done + Column(side, rows, i, j + 1, |done|)
      ensures nextId == |world.units| + 1 && world.schedule == Range(|world.units|)
      ensures running == old(running)
    {
      ghost var before := world.units;
      FactorsPositive(rows, squad, j);
      Spawn(side, SubtypeAt(i, j), Army(side, Squad(j, rows)));
      CellSpawned(side, rows, i, j, done, before);
    }

    /** `step`: the activation pass, the two-phase morale pass, and whether
        both sides still have scheduled units. */
    method Step(order: seq<nat>, scans: seq<Scan>, choices: seq<Choice>, flocks: seq<seq<nat>>) returns (both: bool)
      requires WellFormed(world.Tab())
      requires TurnsOk(order, scans, choices, |world.units|) && FlocksIn(flocks, |world.units|)
      modifies world
      ensures world.Tab() == Ticked(old(world.Tab()), order, scans, choices, flocks)
      ensures WellFormed(world.Tab()) && both == BothSides(world.Tab())
    {
      ghost var t0 := world.Tab();
      TurnsOkIn(order, scans, choices, |world.units|);
      Activate(order, scans, choices);
      ActivatedWellFormed(t0, order, scans, choices);
      ghost var mid := world.Tab();
      var hs := world.schedule;
      var avgs := Averages(hs, flocks);
      ApplyMorale(hs, avgs);
      TickWellFormed(t0, order, scans, choices, flocks);
      both := SidesRemain();
    }

    /** `schedule.step()`: each unit in the activation order still in the
        schedule takes its turn. */
    method Activate(order: seq<nat>, scans: seq<Scan>, choices: seq<Choice>)
      requires Linked(world.units) && TurnsIn(order, scans, choices, |world.units|)
      modifies world
      ensures world.Tab() == Activated(old(world.Tab()), order, scans, choices)
    {
      ghost var t0 := world.Tab();
      var n := 0;
      while n < |order|
        invariant 0 <= n <= |order|
        invariant world.Tab() == Activated(t0, order[..n], scans[..n], choices[..n])
      {
        ActivatedSnoc(t0, order, scans, choices, n);
        if order[n] in world.schedule {
          var _ := world.Step(order[n], scans[n], choices[n]);
        }
        n := n + 1;
      }
      assert order[..n] == order && scans[..n] == scans && choices[..n] == choices;
    }

    /** The apply loop of the morale pass: each listed unit's morale is
        updated from its snapshot average and its current state. */
    method ApplyMorale(hs: seq<nat>, avgs: seq<real>)
      requires Linked(world.units) && Handles(hs, |world.units|) && |hs| == |avgs|
      modifies world
      ensures world.Tab() == Applied(old(world.Tab()), hs, avgs)
    {
      ghost var mid := world.Tab();
      var i := 0;
      while i < |hs|
        invariant 0 <= i <= |hs|
        invariant world.Tab() == Applied(mid, hs[..i], avgs[..i])
      {
        assert hs[..i + 1][..i] == hs[..i];
        assert avgs[..i + 1][..i] == avgs[..i];
        world.UpdateMorale(hs[i], NewMorale(world.units[hs[i]], avgs[i]));
        i := i + 1;
      }
      assert hs[..i] == hs && avgs[..i] == avgs;
    }

    /** The snapshot loop: every scheduled unit's allies' average. */
    method Averages(hs: seq<nat>, flocks: seq<seq<nat>>) returns (avgs: seq<real>)
      requires hs == world.schedule && Handles(hs, |world.units|) && FlocksIn(flocks, |world.units|)
      ensures avgs == Snapshot(world.Tab(), flocks)
    {
      avgs := [];
      var k := 0;
      while k < |hs|
        invariant 0 <= k <= |hs|
        invariant avgs == Snapshot(world.Tab(), flocks)[..k]
      {
        var m := world.AverageMoraleOfAllies(hs[k], flocks[hs[k]]);
        avgs := avgs + [m];
        k := k + 1;
      }
    }

    /** The flag loop over the scheduled units. */
    method SidesRemain() returns (both: bool)
      requires Handles(world.schedule, |world.units|)
      ensures both == BothSides(world.Tab())
    {
      var red := false;
      var blue := false;
      var j := 0;
      while j < |world.schedule|
        invariant 0 <= j <= |world.schedule|
        invariant red <==> exists q | 0 <= q < j :: TagOf(world.units[world.schedule[q]]) == Living(Red)
        invariant blue <==> exists q | 0 <= q < j :: TagOf(world.units[world.schedule[q]]) == Living(Blue)
      {
        var tag := TagOf(world.units[world.schedule[j]]);
        if tag == Living(Red) {
          red := true;
        } else if tag == Living(Blue) {
          blue := true;
        }
        j := j + 1;
      }
      both := red && blue;
    }
  }
}
