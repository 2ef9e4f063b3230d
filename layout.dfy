/** The battle setup: the spawner's role and army layout over the grid of
    columns and rows of one side, the roster it creates (one unit per cell,
    numbered from 1 in creation order), and the linking of every general
    and flagger to the other units of its army. */
module Layout {
  import opened Unit
  import opened Tables
  import Rules

  // ---------------------------------------------------------------------
  // Roles and armies of the grid

  /** The role the spawner gives the cell in column `i`, row `j`. */
  function SubtypeAt(i: nat, j: nat): (r: Role)
    ensures i > 2 ==> r == Warrior
    ensures r == Guard ==> i == 0
    ensures r == General ==> i == 1
    ensures r == Healer || r == Marksman || r == Flagger ==> i == 2
  {
    if i == 0 && (j % 5 == 1 || j % 5 == 3) then Guard
    else if i == 1 && j % 5 == 2 then General
    else if i == 2 && (j % 5 == 1 || j % 5 == 3) then Healer
    else if i == 2 && (j % 5 == 0 || j % 5 == 4) then Marksman
    else if i == 2 && j % 5 == 2 then Flagger
    else Warrior
  }

  /** The role rule by role: guards only in column 0, generals only in
      column 1, the three support roles only in column 2 (which holds no
      warrior), and warriors everywhere else. */
  lemma SubtypeRule(i: nat, j: nat)
    ensures SubtypeAt(i, j) == Guard <==> i == 0 && (j % 5 == 1 || j % 5 == 3)
    ensures SubtypeAt(i, j) == General <==> i == 1 && j % 5 == 2
    ensures SubtypeAt(i, j) == Healer <==> i == 2 && (j % 5 == 1 || j % 5 == 3)
    ensures SubtypeAt(i, j) == Marksman <==> i == 2 && (j % 5 == 0 || j % 5 == 4)
    ensures SubtypeAt(i, j) == Flagger <==> i == 2 && j % 5 == 2
    ensures SubtypeAt(i, j) == Warrior <==>
              i > 2 || (i == 0 && j % 5 in {0, 2, 4}) || (i == 1 && j % 5 != 2)
  {
  }

  /** The layout repeats every five rows. */
  lemma SubtypePeriodic(i: nat, j: nat)
    ensures SubtypeAt(i, j + 5) == SubtypeAt(i, j)
  {
    assert (j + 5) % 5 == j % 5;
  }

  /** The squad number of row `j`: `floor(j / rows)`. */
  function Squad(j: nat, rows: nat): (r: nat)
    requires rows > 0
    ensures r * rows <= j < r * rows + rows
  {
    j / rows
  }

  lemma MulMono(x: nat, y: nat, k: nat)
    requires x <= y
    ensures x * k <= y * k
  {
  }

  /** Rows `b * rows` up to `b * rows + rows - 1` form squad `b`. */
  lemma SquadBlock(j: nat, rows: nat, b: nat)
    requires rows > 0 && b * rows <= j < b * rows + rows
    ensures Squad(j, rows) == b
  {
    var q := j / rows;
    assert j == q * rows + j % rows;
    if q < b {
      MulMono(q + 1, b, rows);
    } else if q > b {
      MulMono(b + 1, q, rows);
    }
  }

  /** Rows in one squad block share an army; rows in different blocks do not. */
  lemma ArmyBlocks(side: Side, rows: nat, b: nat, b': nat, j: nat, j': nat)
    requires rows > 0
    requires b * rows <= j < b * rows + rows && b' * rows <= j' < b' * rows + rows
    ensures Army(side, Squad(j, rows)) == Army(side, Squad(j', rows)) <==> b == b'
  {
    SquadBlock(j, rows, b);
    SquadBlock(j', rows, b');
  }

  /** The squad number of a row of a side with `squad` squads is below `squad`. */
  lemma SquadBelow(j: nat, rows: nat, squad: nat)
    requires rows > 0 && j < rows * squad
    ensures Squad(j, rows) < squad
  {
  }

  // ---------------------------------------------------------------------
  // The roster one spawner call appends

  /** The unit `spawn` creates for the cell (i, j) when `self` units exist
      before it: its id is the next id, `self + 1`. */
  function Cell(side: Side, rows: nat, i: nat, j: nat, self: nat): Unit
    requires rows > 0
  {
    NewUnit(self + 1, self, side, SubtypeAt(i, j), Army(side, Squad(j, rows)))
  }

  /** The first `n` cells of column `i`, the first of them with handle `start`. */
  function Column(side: Side, rows: nat, i: nat, n: nat, start: nat): (r: seq<Unit>)
    requires rows > 0 || n == 0
    ensures |r| == n
  {
    seq(n, k requires 0 <= k < n => Cell(side, rows, i, k, start + k))
  }

  /** The first `c` columns of a side, `per` cells each (`rows * squad` in
      the spawner), in the spawner's loop order. */
  function Columns(side: Side, rows: nat, per: nat, c: nat, start: nat): (r: seq<Unit>)
    requires rows > 0 || per == 0
  {
    if c == 0 then []
    else
      var p := Columns(side, rows, per, c - 1, start);
      p + Column(side, rows, c - 1, per, start + |p|)
  }

  /** A block with a cell in it has rows and squads. */
  lemma FactorsPositive(rows: nat, squad: nat, j: nat)
    requires j < rows * squad
    ensures rows > 0 && squad > 0
  {
  }

  lemma MulStep(c: nat, per: nat)
    requires c > 0
    ensures c * per == (c - 1) * per + per
  {
  }

  lemma MulBelow(i: nat, c: nat, per: nat, j: nat)
    requires i < c && j < per
    ensures i * per + j < c * per
  {
    assert (i + 1) * per <= c * per;
  }

  /** Each side gets `cols * per` units. */
  lemma {:induction false} ColumnsSize(side: Side, rows: nat, per: nat, c: nat, start: nat)
    requires rows > 0 || per == 0
    ensures |Columns(side, rows, per, c, start)| == c * per
    decreases c
  {
    if c > 0 {
      ColumnsSize(side, rows, per, c - 1, start);
      MulStep(c, per);
    }
  }

  lemma ColumnAt(side: Side, rows: nat, i: nat, n: nat, start: nat, j: nat)
    requires (rows > 0 || n == 0) && j < n
    ensures rows > 0 && Column(side, rows, i, n, start)[j] == Cell(side, rows, i, j, start + j)
  {
  }

  /** A cell of an earlier column lies in the prefix. */
  lemma EarlierColumn(p: seq<Unit>, q: seq<Unit>, i: nat, j: nat, c: nat, per: nat)
    requires i < c - 1 && j < per && |p| == (c - 1) * per
    ensures i * per + j < |p| && (p + q)[i * per + j] == p[i * per + j]
  {
    MulBelow(i, c - 1, per, j);
  }

  /** A cell of the last column of the block, counted from the end of the
      earlier columns. */
  lemma {:induction false} ColumnsAtLast(side: Side, rows: nat, per: nat, i: nat, start: nat, j: nat)
    requires (rows > 0 || per == 0) && j < per
    ensures rows > 0
    ensures |Columns(side, rows, per, i, start)| + j < |Columns(side, rows, per, i + 1, start)|
    ensures Columns(side, rows, per, i + 1, start)[|Columns(side, rows, per, i, start)| + j]
            == Cell(side, rows, i, j, start + |Columns(side, rows, per, i, start)| + j)
  {
    var p := Columns(side, rows, per, i, start);
    var q := Column(side, rows, i, per, start + |p|);
    ColumnsUnfold(side, rows, per, i, start);
    ColumnAt(side, rows, i, per, start + |p|, j);
    SplitAt(Columns(side, rows, per, i + 1, start), p, q, j, q[j]);
  }

  lemma SplitAt<T>(whole: seq<T>, p: seq<T>, q: seq<T>, j: nat, u: T)
    requires whole == p + q && j < |q| && q[j] == u
    ensures |p| + j < |whole| && whole[|p| + j] == u
  {
  }

  lemma {:induction false} ColumnsUnfold(side: Side, rows: nat, per: nat, i: nat, start: nat)
    requires rows > 0 || per == 0
    ensures Columns(side, rows, per, i + 1, start)
            == Columns(side, rows, per, i, start)
               + Column(side, rows, i, per, start + |Columns(side, rows, per, i, start)|)
  {
  }

  /** Moves a cell fact from one spelling of its position to an equal one. */
  lemma Rebase(side: Side, rows: nat, s: seq<Unit>, o: nat, k: nat, i: nat, j: nat, start: nat)
    requires rows > 0 && o == k && o + j < |s| && s[o + j] == Cell(side, rows, i, j, start + o + j)
    ensures k + j < |s| && s[k + j] == Cell(side, rows, i, j, start + k + j)
  {
  }

  /** Column `i` grows by one cell per pass of the inner loop. */
  lemma ColumnGrow(side: Side, rows: nat, i: nat, j: nat, start: nat)
    requires rows > 0
    ensures Column(side, rows, i, j + 1, start)
            == Column(side, rows, i, j, start) + [Cell(side, rows, i, j, start + j)]
  {
    var r := Column(side, rows, i, j, start) + [Cell(side, rows, i, j, start + j)];
    forall k | 0 <= k < j + 1 ensures Column(side, rows, i, j + 1, start)[k] == r[k] {
      if k < j {
        assert r[k] == Column(side, rows, i, j, start)[k];
      }
    }
  }

  /** What one pass of the inner loop of the spawner appends extends the
      column by its next cell. */
  lemma CellSpawned(side: Side, rows: nat, i: nat, j: nat, done: seq<Unit>, before: seq<Unit>)
    requires rows > 0
    requires before == done + Column(side, rows, i, j, |done|)
    ensures before + [NewUnit(|before| + 1, |before|, side, SubtypeAt(i, j), Army(side, Squad(j, rows)))]
            == done + Column(side, rows, i, j + 1, |done|)
  {
    ColumnGrow(side, rows, i, j, |done|);
    var u := Cell(side, rows, i, j, |done| + j);
    assert |before| == |done| + j;
    AppendAssoc(done, Column(side, rows, i, j, |done|), [u]);
  }

  /** What one pass of the outer loop of the spawner appends extends the
      block by its next column. */
  lemma ColumnSpawned(side: Side, rows: nat, per: nat, i: nat, base: seq<Unit>, before: seq<Unit>)
    requires rows > 0 || per == 0
    requires before == base + Columns(side, rows, per, i, |base|)
    ensures before + Column(side, rows, i, per, |before|)
            == base + Columns(side, rows, per, i + 1, |base|)
  {
    var p := Columns(side, rows, per, i, |base|);
    assert |before| == |base| + |p|;
    ColumnsUnfold(side, rows, per, i, |base|);
    AppendAssoc(base, p, Column(side, rows, i, per, |before|));
  }

  lemma AppendAssoc<T>(a: seq<T>, b: seq<T>, c: seq<T>)
    ensures (a + b) + c == a + (b + c)
  {
  }

  /** A cell of an earlier column of the block, given where it lies in the
      block one column shorter. */
  lemma {:induction false} ColumnsAtEarlier(side: Side, rows: nat, per: nat, c: nat, start: nat, i: nat, j: nat, u: Unit)
    requires (rows > 0 || per == 0) && i < c - 1 && j < per
    requires i * per + j < |Columns(side, rows, per, c - 1, start)|
    requires Columns(side, rows, per, c - 1, start)[i * per + j] == u
    ensures i * per + j < |Columns(side, rows, per, c, start)|
    ensures Columns(side, rows, per, c, start)[i * per + j] == u
  {
    var p := Columns(side, rows, per, c - 1, start);
    var q := Column(side, rows, c - 1, per, start + |p|);
    assert Columns(side, rows, per, c, start) == p + q;
    ColumnsSize(side, rows, per, c - 1, start);
    EarlierColumn(p, q, i, j, c, per);
  }

  /** The spawner's cell (i, j) is unit number `i * per + j` of the block,
      with the role and army of that cell and the next id. */
  lemma {:induction false} ColumnsAt(side: Side, rows: nat, per: nat, c: nat, start: nat, i: nat, j: nat)
    requires (rows > 0 || per == 0) && i < c && j < per
    ensures i * per + j < |Columns(side, rows, per, c, start)|
    ensures rows > 0
    ensures Columns(side, rows, per, c, start)[i * per + j]
            == Cell(side, rows, i, j, start + i * per + j)
    decreases c
  {
    if i < c - 1 {
      ColumnsAt(side, rows, per, c - 1, start, i, j);
      ColumnsAtEarlier(side, rows, per, c, start, i, j, Cell(side, rows, i, j, start + i * per + j));
    } else {
      ColumnsAtFinal(side, rows, per, c, start, i, j);
    }
  }

  /** The case of `ColumnsAt` where the cell is in the last column. */
  lemma {:induction false} ColumnsAtFinal(side: Side, rows: nat, per: nat, c: nat, start: nat, i: nat, j: nat)
    requires (rows > 0 || per == 0) && i + 1 == c && j < per
    ensures i * per + j < |Columns(side, rows, per, c, start)|
    ensures rows > 0
    ensures Columns(side, rows, per, c, start)[i * per + j]
            == Cell(side, rows, i, j, start + i * per + j)
  {
    ColumnsAtLast(side, rows, per, i, start, j);
    ColumnsSize(side, rows, per, i, start);
    Rebase(side, rows, Columns(side, rows, per, c, start), |Columns(side, rows, per, i, start)|,
           i * per, i, j, start);
  }

  /** A freshly spawned unit with handle `self`: of its side, alive,
      unprotected, unlinked, its own guarder and ward, with id `self + 1`. */
  predicate FreshAt(u: Unit, side: Side, self: nat) {
    Born(u, side, self) && u.soldiers == []
  }

  /** What linking leaves of a fresh unit: everything but the soldiers. */
  predicate Born(u: Unit, side: Side, self: nat) {
    u.side == side && u.army.side == side && u.id == self + 1 && !u.dead && !u.protected
    && u.guarder == self && u.guardedAlly == self && u.initialHp > 0.0
  }

  predicate Fresh(r: seq<Unit>, side: Side, start: nat) {
    forall k | 0 <= k < |r| :: FreshAt(r[k], side, start + k)
  }

  lemma FreshConcat(p: seq<Unit>, q: seq<Unit>, side: Side, start: nat)
    requires Fresh(p, side, start) && Fresh(q, side, start + |p|)
    ensures Fresh(p + q, side, start)
  {
    forall k | 0 <= k < |p + q| ensures FreshAt((p + q)[k], side, start + k) {
      if k >= |p| {
        assert (p + q)[k] == q[k - |p|];
      }
    }
  }

  lemma ColumnFresh(side: Side, rows: nat, i: nat, n: nat, start: nat)
    requires rows > 0 || n == 0
    ensures Fresh(Column(side, rows, i, n, start), side, start)
  {
    forall k | 0 <= k < n ensures FreshAt(Column(side, rows, i, n, start)[k], side, start + k) {
      var u := Cell(side, rows, i, k, start + k);
      assert u.army == Army(side, Squad(k, rows));
    }
  }

  /** Every unit of a block is fresh, with id one more than its handle. */
  lemma {:induction false} ColumnsFresh(side: Side, rows: nat, per: nat, c: nat, start: nat)
    requires rows > 0 || per == 0
    ensures Fresh(Columns(side, rows, per, c, start), side, start)
    decreases c
  {
    if c > 0 {
      ColumnsFresh(side, rows, per, c - 1, start);
      var p := Columns(side, rows, per, c - 1, start);
      ColumnFresh(side, rows, c - 1, per, start + |p|);
      FreshConcat(p, Column(side, rows, c - 1, per, start + |p|), side, start);
    }
  }

  // ---------------------------------------------------------------------
  // Linking leaders to their soldiers

  predicate Leader(role: Role) {
    role == General || role == Flagger
  }

  /** The units among the first `n`, in roster order, that the leader at `a`
      takes as soldiers: those of its army whose role differs from its own. */
  function Subordinates(us: seq<Unit>, a: nat, n: nat): seq<nat>
    requires a < |us| && n <= |us|
  {
    if n == 0 then []
    else
      Subordinates(us, a, n - 1)
      + (if us[n - 1].role != us[a].role && us[n - 1].army == us[a].army then [n - 1] else [])
  }

  /** The subordinates are exactly the units of the leader's army with
      another role, each listed once. */
  lemma {:induction false} SubordinatesFacts(us: seq<Unit>, a: nat, n: nat)
    requires a < |us| && n <= |us|
    ensures var r := Subordinates(us, a, n);
      && (forall x: nat :: x in r <==> x < n && us[x].role != us[a].role && us[x].army == us[a].army)
      && Handles(r, n) && Distinct(r)
    decreases n
  {
    if n > 0 {
      SubordinatesFacts(us, a, n - 1);
      DistinctSnoc(Subordinates(us, a, n - 1), n - 1);
    }
  }

  /** The choice depends only on roles and armies. */
  lemma {:induction false} SubordinatesByLabels(us: seq<Unit>, vs: seq<Unit>, a: nat, n: nat)
    requires a < |us| == |vs| && n <= |us|
    requires forall k | 0 <= k < |us| :: us[k].role == vs[k].role && us[k].army == vs[k].army
    ensures Subordinates(us, a, n) == Subordinates(vs, a, n)
    decreases n
  {
    if n > 0 {
      SubordinatesByLabels(us, vs, a, n - 1);
    }
  }

  /** Units appended with other armies add no subordinates. */
  lemma {:induction false} SubordinatesPrefix(us: seq<Unit>, a: nat, m: nat, n: nat)
    requires a < m <= n <= |us|
    requires forall k | m <= k < n :: us[k].army != us[a].army
    ensures Subordinates(us, a, n) == Subordinates(us, a, m)
    decreases n
  {
    if n > m {
      SubordinatesPrefix(us, a, m, n - 1);
    }
  }

  /** Subordinates computed in a prefix of the roster. */
  lemma {:induction false} SubordinatesOfPrefix(us: seq<Unit>, vs: seq<Unit>, a: nat, n: nat)
    requires a < |us| && n <= |us| && |us| <= |vs| && us == vs[..|us|]
    ensures Subordinates(us, a, n) == Subordinates(vs, a, n)
    decreases n
  {
    if n > 0 {
      SubordinatesOfPrefix(us, vs, a, n - 1);
    }
  }

  /** One unit after the linking loop. */
  function LinkedUnit(us: seq<Unit>, k: nat): Unit
    requires k < |us|
  {
    if Leader(us[k].role) then us[k].(soldiers := us[k].soldiers + Subordinates(us, k, |us|))
    else us[k]
  }

  /** The linking loop at the end of `spawner`: every general and flagger
      appends, in roster order, each unit of its army whose role differs
      from its own. */
  function Link(us: seq<Unit>): (vs: seq<Unit>)
    ensures |vs| == |us|
    ensures forall k | 0 <= k < |us| :: vs[k] == LinkedUnit(us, k)
  {
    seq(|us|, k requires 0 <= k < |us| => LinkedUnit(us, k))
  }

  /** Linking changes soldier lists only. */
  lemma LinkKeepsLabels(us: seq<Unit>)
    ensures forall k | 0 <= k < |us| ::
      Link(us)[k] == us[k].(soldiers := Link(us)[k].soldiers)
  {
  }

  /** The handles `0 .. n - 1` in order: the schedule after setup. */
  function Range(n: nat): (r: seq<nat>)
    ensures |r| == n && forall k | 0 <= k < n :: r[k] == k
  {
    if n == 0 then [] else Range(n - 1) + [n - 1]
  }

  // ---------------------------------------------------------------------
  // The whole setup

  /** The roster after both spawner calls: the red block, linked; then the
      blue block appended and the whole roster linked again. */
  function Roster(rc: nat, rr: nat, rs: nat, bc: nat, br: nat, bs: nat): seq<Unit> {
    var red := Columns(Red, rr, rr * rs, rc, 0);
    Link(Link(red) + Columns(Blue, br, br * bs, bc, |red|))
  }

  /** The table `BattleModel.__init__` leaves: every unit scheduled, in
      creation order. */
  function Initial(rc: nat, rr: nat, rs: nat, bc: nat, br: nat, bs: nat): Table {
    var us := Roster(rc, rr, rs, bc, br, bs);
    Table(us, Range(|us|))
  }

  /** Every unit's soldiers are roster units other than itself. */
  predicate SoldiersIn(us: seq<Unit>) {
    forall k | 0 <= k < |us| :: Handles(us[k].soldiers, |us|) && k !in us[k].soldiers
  }

  lemma LinkSoldiersIn(us: seq<Unit>)
    requires SoldiersIn(us)
    ensures SoldiersIn(Link(us))
  {
    forall k | 0 <= k < |us|
      ensures Handles(Link(us)[k].soldiers, |us|) && k !in Link(us)[k].soldiers
    {
      if Leader(us[k].role) {
        var s := Subordinates(us, k, |us|);
        SubordinatesFacts(us, k, |us|);
        assert Link(us)[k].soldiers == us[k].soldiers + s;
        assert k !in s;
      }
    }
  }

  /** The roster after setup: the red units first, then the blue ones, each
      with id one more than its handle, alive, unprotected, its own guarder
      and ward, and with its soldiers in the roster. */
  lemma RosterFresh(rc: nat, rr: nat, rs: nat, bc: nat, br: nat, bs: nat)
    ensures var us := Roster(rc, rr, rs, bc, br, bs); var nr := rc * (rr * rs);
      && |us| == nr + bc * (br * bs)
      && (forall k | 0 <= k < |us| :: Born(us[k], if k < nr then Red else Blue, k))
      && SoldiersIn(us)
  {
    var red := Columns(Red, rr, rr * rs, rc, 0);
    var blue := Columns(Blue, br, br * bs, bc, |red|);
    ColumnsSize(Red, rr, rr * rs, rc, 0);
    ColumnsSize(Blue, br, br * bs, bc, |red|);
    ColumnsFresh(Red, rr, rr * rs, rc, 0);
    ColumnsFresh(Blue, br, br * bs, bc, |red|);
    JoinFresh(red, blue);
  }

  /** Linking the red columns, appending the blue ones and linking again
      leaves every unit born at its own handle, with soldiers in range. */
  lemma JoinFresh(red: seq<Unit>, blue: seq<Unit>)
    requires Fresh(red, Red, 0) && Fresh(blue, Blue, |red|)
    ensures var us := Link(Link(red) + blue);
      && (forall k | 0 <= k < |us| :: Born(us[k], if k < |red| then Red else Blue, k))
      && SoldiersIn(us)
  {
    assert SoldiersIn(red);
    LinkSoldiersIn(red);
    var all := Link(red) + blue;
    LinkKeepsLabels(red);
    forall k | 0 <= k < |all|
      ensures Born(all[k], if k < |red| then Red else Blue, k)
      ensures Handles(all[k].soldiers, |all|) && k !in all[k].soldiers
    {
      if k < |red| {
        assert all[k] == Link(red)[k];
        assert FreshAt(red[k], Red, k);
      } else {
        assert all[k] == blue[k - |red|];
        assert FreshAt(blue[k - |red|], Blue, |red| + (k - |red|));
      }
    }
    LinkSoldiersIn(all);
    LinkKeepsLabels(all);
  }

  /** The roster after setup is well formed: every unit scheduled once, no
      one protected, every reference in range. */
  lemma InitialWellFormed(rc: nat, rr: nat, rs: nat, bc: nat, br: nat, bs: nat)
    ensures WellFormed(Initial(rc, rr, rs, bc, br, bs))
  {
    RosterFresh(rc, rr, rs, bc, br, bs);
    var t := Initial(rc, rr, rs, bc, br, bs);
    var nr := rc * (rr * rs);
    forall k | 0 <= k < |t.units| ensures RefsIn(t.units[k], k, |t.units|) && t.units[k].initialHp > 0.0 {
      assert Born(t.units[k], if k < nr then Red else Blue, k);
    }
    forall k | 0 <= k < |t.units| ensures k in t.schedule <==> !t.units[k].dead {
      assert Born(t.units[k], if k < nr then Red else Blue, k);
      assert t.schedule[k] == k;
    }
  }

  /** Linking keeps every unit's role and army. */
  lemma LinkSameLabels(us: seq<Unit>)
    ensures |Link(us)| == |us|
    ensures forall k | 0 <= k < |us| :: Link(us)[k].role == us[k].role && Link(us)[k].army == us[k].army
  {
    forall k | 0 <= k < |us| ensures Link(us)[k].role == us[k].role && Link(us)[k].army == us[k].army {
      assert Link(us)[k] == LinkedUnit(us, k);
    }
  }

  /** Linking, appending units of other armies, and linking again: a leader
      of the first part that started with no soldiers lists its subordinates
      in that part twice. */
  lemma RelinkedLeader(us: seq<Unit>, more: seq<Unit>, a: nat)
    requires a < |us| && Leader(us[a].role) && us[a].soldiers == []
    requires forall k | 0 <= k < |more| :: more[k].army != us[a].army
    ensures var vs := Link(Link(us) + more); var s := Subordinates(us, a, |us|);
      a < |vs| && vs[a].soldiers == s + s && Subordinates(vs, a, |vs|) == s
  {
    var l1 := Link(us);
    var s := Subordinates(us, a, |us|);
    assert l1[a] == LinkedUnit(us, a);
    assert l1[a].soldiers == [] + s == s;
    LinkSameLabels(us);
    SubordinatesByLabels(l1, us, a, |us|);
    assert Subordinates(l1, a, |l1|) == s;
    ExtendedLeader(l1, more, a);
  }

  /** Linking a roster extended by units of other armies appends to a
      leader's list its subordinates in the original part. */
  lemma ExtendedLeader(l1: seq<Unit>, more: seq<Unit>, a: nat)
    requires a < |l1| && Leader(l1[a].role)
    requires forall k | 0 <= k < |more| :: more[k].army != l1[a].army
    ensures var vs := Link(l1 + more); var s := Subordinates(l1, a, |l1|);
      a < |vs| && vs[a].soldiers == l1[a].soldiers + s && Subordinates(vs, a, |vs|) == s
  {
    var all := l1 + more;
    var vs := Link(all);
    assert all[a] == l1[a];
    assert vs[a] == LinkedUnit(all, a);
    LinkSameLabels(all);
    SubordinatesByLabels(vs, all, a, |vs|);
    forall k | |l1| <= k < |all| ensures all[k].army != all[a].army {
      assert all[k] == more[k - |l1|];
    }
    SubordinatesPrefix(all, a, |l1|, |all|);
    assert l1 == all[..|l1|];
    SubordinatesOfPrefix(l1, all, a, |l1|);
  }

  /** A leader that starts with no soldiers lists its subordinates once. */
  lemma LinkedLeader(us: seq<Unit>, a: nat)
    requires a < |us| && Leader(us[a].role) && us[a].soldiers == []
    ensures a < |Link(us)| && Link(us)[a].soldiers == Subordinates(Link(us), a, |us|)
  {
    var vs := Link(us);
    assert vs[a] == LinkedUnit(us, a);
    forall k | 0 <= k < |us| ensures vs[k].role == us[k].role && vs[k].army == us[k].army {
      assert vs[k] == LinkedUnit(us, k);
    }
    SubordinatesByLabels(vs, us, a, |us|);
  }

  /** The death penalty of a leader whose list is `s` once or twice over. */
  lemma PenaltyOfList(u: Unit, s: seq<nat>, times: nat)
    requires Leader(u.role) && Distinct(s) && (times == 1 || times == 2)
    requires u.soldiers == if times == 1 then s else s + s
    ensures forall x: nat :: Rules.Penalty(u, x) == if x in s then 10.0 * (times as real) else 0.0
  {
    forall x: nat ensures Rules.Penalty(u, x) == if x in s then 10.0 * (times as real) else 0.0 {
      DistinctCount(s, x);
      OccurrencesAppend(s, s, x);
    }
  }

  /** A red general or flagger lists each of its subordinates twice, since
      the linking loop runs again after the blue block is spawned; so its
      death costs each of them 20 morale. Its subordinates are red units. */
  lemma RedLeaderListsTwice(rc: nat, rr: nat, rs: nat, bc: nat, br: nat, bs: nat, a: nat)
    requires a < rc * (rr * rs) && a < |Roster(rc, rr, rs, bc, br, bs)|
    requires Leader(Roster(rc, rr, rs, bc, br, bs)[a].role)
    ensures var us := Roster(rc, rr, rs, bc, br, bs); var s := Subordinates(us, a, |us|);
      && us[a].soldiers == s + s
      && (forall x | x in s :: x < rc * (rr * rs))
      && forall x: nat :: Rules.Penalty(us[a], x) == if x in s then 20.0 else 0.0
  {
    var red := Columns(Red, rr, rr * rs, rc, 0);
    var blue := Columns(Blue, br, br * bs, bc, |red|);
    ColumnsSize(Red, rr, rr * rs, rc, 0);
    ColumnsFresh(Red, rr, rr * rs, rc, 0);
    ColumnsFresh(Blue, br, br * bs, bc, |red|);
    RedJoin(red, blue, a);
    var us := Link(Link(red) + blue);
    PenaltyOfList(us[a], Subordinates(us, a, |us|), 2);
  }

  /** A leader among the red units, relinked after the blue units are
      appended, lists its red subordinates twice. */
  lemma RedJoin(red: seq<Unit>, blue: seq<Unit>, a: nat)
    requires Fresh(red, Red, 0) && Fresh(blue, Blue, |red|) && a < |red|
    requires Leader(Link(Link(red) + blue)[a].role)
    ensures var us := Link(Link(red) + blue); var s := Subordinates(us, a, |us|);
      us[a].soldiers == s + s && Distinct(s) && forall x | x in s :: x < |red|
  {
    var all := Link(red) + blue;
    var us := Link(all);
    LinkSameLabels(all);
    LinkSameLabels(red);
    assert all[a] == Link(red)[a];
    assert FreshAt(red[a], Red, 0 + a);
    forall k | 0 <= k < |blue| ensures blue[k].army != red[a].army {
      assert FreshAt(blue[k], Blue, |red| + k);
    }
    RelinkedLeader(red, blue, a);
    SubordinatesFacts(red, a, |red|);
    SubordinatesFacts(us, a, |us|);
  }

  /** A blue general or flagger lists each subordinate once, and all of them
      are blue units. */
  lemma BlueLeaderListsOnce(rc: nat, rr: nat, rs: nat, bc: nat, br: nat, bs: nat, a: nat)
    requires rc * (rr * rs) <= a < |Roster(rc, rr, rs, bc, br, bs)|
    requires Leader(Roster(rc, rr, rs, bc, br, bs)[a].role)
    ensures var us := Roster(rc, rr, rs, bc, br, bs); var s := Subordinates(us, a, |us|);
      && us[a].soldiers == s
      && (forall x | x in s :: x >= rc * (rr * rs))
      && forall x: nat :: Rules.Penalty(us[a], x) == if x in s then 10.0 else 0.0
  {
    var red := Columns(Red, rr, rr * rs, rc, 0);
    var blue := Columns(Blue, br, br * bs, bc, |red|);
    ColumnsSize(Red, rr, rr * rs, rc, 0);
    ColumnsFresh(Red, rr, rr * rs, rc, 0);
    ColumnsFresh(Blue, br, br * bs, bc, |red|);
    BlueJoin(red, blue, a);
    var us := Link(Link(red) + blue);
    PenaltyOfList(us[a], Subordinates(us, a, |us|), 1);
  }

  /** A leader among the blue units lists its blue subordinates once. */
  lemma BlueJoin(red: seq<Unit>, blue: seq<Unit>, a: nat)
    requires Fresh(red, Red, 0) && Fresh(blue, Blue, |red|) && |red| <= a < |red| + |blue|
    requires Leader(Link(Link(red) + blue)[a].role)
    ensures var us := Link(Link(red) + blue); var s := Subordinates(us, a, |us|);
      us[a].soldiers == s && Distinct(s) && forall x | x in s :: x >= |red|
  {
    var all := Link(red) + blue;
    var us := Link(all);
    JoinFresh(red, blue);
    LinkSameLabels(all);
    assert all[a] == blue[a - |red|];
    assert FreshAt(blue[a - |red|], Blue, |red| + (a - |red|));
    LinkedLeader(all, a);
    var s := Subordinates(us, a, |us|);
    SubordinatesFacts(us, a, |us|);
    forall x | x in s ensures x >= |red| {
      assert Born(us[a], Blue, a);
      assert Born(us[x], if x < |red| then Red else Blue, x);
    }
  }
}
