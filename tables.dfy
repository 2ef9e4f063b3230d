/** The state the rules act on: the roster of units, addressed by handle (a
    unit's index in the roster), and the schedule of live handles; together
    with the invariants every transition keeps. */
module Tables {
  import opened Unit

  datatype Option<T> = None | Some(value: T)

  /** The roster and the schedule: the handles of the live units, in the
      order they were added (which is the order the morale pass visits them). */
  datatype Table = Table(units: seq<Unit>, schedule: seq<nat>)

  predicate Handles(s: seq<nat>, n: nat) {
    forall k | 0 <= k < |s| :: s[k] < n
  }

  predicate Distinct(s: seq<nat>) {
    forall i, j | 0 <= i < j < |s| :: s[i] != s[j]
  }

  predicate Live(t: Table, h: nat) {
    h < |t.units| && !t.units[h].dead
  }

  /** The unit's references name units of the roster, and it does not list
      itself among its soldiers. */
  predicate RefsIn(u: Unit, self: nat, n: nat) {
    u.guarder < n && u.guardedAlly < n && Handles(u.soldiers, n) && self !in u.soldiers
  }

  /** Every reference in the roster is in range, and every initial hp is
      positive: what the rules need to be defined at all. */
  predicate Linked(us: seq<Unit>) {
    forall h | 0 <= h < |us| :: RefsIn(us[h], h, |us|) && us[h].initialHp > 0.0
  }

  /** `g` is a live guard, other than `w`, whose ward is `w`. */
  predicate Wards(us: seq<Unit>, g: nat, w: nat)
    requires g < |us|
  {
    us[g].role == Guard && !us[g].dead && us[g].guardedAlly == w && g != w
  }

  /** The protection invariant: every protected unit is warded by a live
      guard that has chosen it. */
  predicate Protection(us: seq<Unit>)
    requires forall h | 0 <= h < |us| :: us[h].guarder < |us|
  {
    forall h | 0 <= h < |us| && us[h].protected :: Wards(us, us[h].guarder, h)
  }

  /** No protected unit names `g` as its guarder. */
  predicate NoWard(us: seq<Unit>, g: nat) {
    forall h | 0 <= h < |us| && us[h].protected :: us[h].guarder != g
  }

  /** The schedule holds exactly the live units, each once. */
  predicate Scheduled(t: Table) {
    && Handles(t.schedule, |t.units|)
    && Distinct(t.schedule)
    && (forall h | 0 <= h < |t.units| :: h in t.schedule <==> !t.units[h].dead)
  }

  predicate WellFormed(t: Table) {
    Linked(t.units) && Scheduled(t) && Protection(t.units)
  }

  /** `v` differs from `u` at most in the fields a death changes in units
      other than the dying one. */
  predicate Touched(u: Unit, v: Unit) {
    v == u.(morale := v.morale, protected := v.protected, guarding := v.guarding, dead := v.dead)
  }

  /** `v` keeps the references and the initial hp of `u`. */
  predicate SameLinks(u: Unit, v: Unit) {
    v.guarder == u.guarder && v.guardedAlly == u.guardedAlly && v.soldiers == u.soldiers
    && v.initialHp == u.initialHp
  }

  /** `v` keeps every field of `u` the invariant depends on. */
  predicate SameShape(u: Unit, v: Unit) {
    SameLinks(u, v) && v.role == u.role && v.dead == u.dead && v.protected == u.protected
  }

  /** Replaces one unit by another with the same references. */
  function Updated(t: Table, h: nat, v: Unit): (r: Table)
    requires Linked(t.units) && h < |t.units| && SameLinks(t.units[h], v)
    ensures Linked(r.units) && r.units == t.units[h := v] && r.schedule == t.schedule
  {
    t.(units := t.units[h := v])
  }

  /** Changing only fields the invariant does not depend on keeps it. */
  lemma ShapeKept(t: Table, r: Table)
    requires WellFormed(t) && |r.units| == |t.units| && r.schedule == t.schedule
    requires forall k | 0 <= k < |t.units| :: SameShape(t.units[k], r.units[k])
    ensures WellFormed(r)
  {
    forall k | 0 <= k < |r.units| && r.units[k].protected
      ensures Wards(r.units, r.units[k].guarder, k)
    {
      assert SameShape(t.units[k], r.units[k]);
      var g := t.units[k].guarder;
      assert SameShape(t.units[g], r.units[g]);
    }
  }

  lemma UpdatedKeeps(t: Table, h: nat, v: Unit)
    requires WellFormed(t) && h < |t.units| && SameShape(t.units[h], v)
    ensures WellFormed(Updated(t, h, v))
  {
    ShapeKept(t, Updated(t, h, v));
  }

  lemma HandlesOf(r: seq<nat>, s: seq<nat>, n: nat)
    requires Handles(s, n) && forall x | x in r :: x in s
    ensures Handles(r, n)
  {
    forall k | 0 <= k < |r| ensures r[k] < n {
      assert r[k] in s;
    }
  }

  lemma DistinctCons(x: nat, r: seq<nat>)
    ensures Distinct(r) && x !in r ==> Distinct([x] + r)
  {
    if Distinct(r) && x !in r {
      forall i, j | 0 <= i < j < |[x] + r| ensures ([x] + r)[i] != ([x] + r)[j] {
        if i == 0 {
          assert ([x] + r)[j] == r[j - 1];
        }
      }
    }
  }

  lemma DistinctTail(s: seq<nat>)
    ensures s != [] && Distinct(s) ==> Distinct(s[1..]) && s[0] !in s[1..]
  {
  }

  lemma DistinctTail2(s: seq<nat>)
    ensures |s| >= 2 && Distinct(s) ==> Distinct(s[2..]) && s[0] !in s[2..] && s[1] !in s[2..]
  {
  }

  lemma DistinctSnoc(r: seq<nat>, x: nat)
    ensures Distinct(r) && x !in r ==> Distinct(r + [x])
  {
  }

  lemma DistinctInit(s: seq<nat>)
    ensures s != [] && Distinct(s) ==> Distinct(s[..|s| - 1]) && s[|s| - 1] !in s[..|s| - 1]
  {
  }

  /** How often `k` is listed in `ss`. */
  function Occurrences(ss: seq<nat>, k: nat): nat
    decreases |ss|
  {
    if ss == [] then 0 else (if ss[0] == k then 1 else 0) + Occurrences(ss[1..], k)
  }

  /** The count is the multiplicity of `k` in the list's multiset. */
  lemma {:induction false} OccurrencesCount(ss: seq<nat>, k: nat)
    ensures Occurrences(ss, k) == multiset(ss)[k]
    decreases |ss|
  {
    if ss != [] {
      OccurrencesCount(ss[1..], k);
      assert ss == [ss[0]] + ss[1..];
    }
  }

  lemma {:induction false} OccurrencesAbsent(ss: seq<nat>, k: nat)
    requires k !in ss
    ensures Occurrences(ss, k) == 0
    decreases |ss|
  {
    if ss != [] {
      assert ss == [ss[0]] + ss[1..];
      OccurrencesAbsent(ss[1..], k);
    }
  }

  lemma {:induction false} OccurrencesAppend(a: seq<nat>, b: seq<nat>, k: nat)
    ensures Occurrences(a + b, k) == Occurrences(a, k) + Occurrences(b, k)
    decreases |a|
  {
    if a == [] {
      assert a + b == b;
    } else {
      assert (a + b)[0] == a[0] && (a + b)[1..] == a[1..] + b;
      OccurrencesAppend(a[1..], b, k);
    }
  }

  /** In a list without repeats an element occurs once or not at all. */
  lemma {:induction false} DistinctCount(s: seq<nat>, x: nat)
    requires Distinct(s)
    ensures Occurrences(s, x) == if x in s then 1 else 0
    decreases |s|
  {
    if s != [] {
      DistinctTail(s);
      DistinctCount(s[1..], x);
      assert x in s <==> x == s[0] || x in s[1..];
    }
  }

  /** `delta` added up `n` times. */
  function Times(delta: real, n: nat): real {
    if n == 0 then 0.0 else Times(delta, n - 1) + delta
  }

  lemma {:induction false} TimesProduct(delta: real, n: nat)
    ensures Times(delta, n) == delta * (n as real)
  {
    if n > 0 {
      TimesProduct(delta, n - 1);
      assert delta * (n as real) == delta * ((n - 1) as real) + delta;
    }
  }

  /** `schedule.remove`: the schedule without `h`. */
  function Without(s: seq<nat>, h: nat): (r: seq<nat>)
    ensures forall x :: x in r <==> x in s && x != h
    ensures Distinct(s) ==> Distinct(r)
  {
    if s == [] then []
    else if s[0] == h then Without(s[1..], h)
    else
      DistinctTail(s); DistinctCons(s[0], Without(s[1..], h));
      [s[0]] + Without(s[1..], h)
  }

  /** Removing a dead unit from the schedule, when it was the only unit whose
      dead flag changed, restores the schedule invariant. */
  lemma WithoutScheduled(t: Table, h: nat, vs: seq<Unit>)
    requires Scheduled(t) && h < |t.units| && |vs| == |t.units| && vs[h].dead
    requires forall k | 0 <= k < |vs| && k != h :: vs[k].dead == t.units[k].dead
    ensures Scheduled(Table(vs, Without(t.schedule, h)))
  {
    HandlesOf(Without(t.schedule, h), t.schedule, |t.units|);
  }
}
