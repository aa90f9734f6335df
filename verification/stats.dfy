/** The statistics a scan stores with its final transaction. */
module CatalogStats {
  import opened Wrappers
  import opened Bytes
  import opened Catalog

  datatype Stats =
    Stats(files: nat, bytes: nat, uniqueBytes: int, hardlinkGroups: nat, hardlinkedFiles: nat, skipped: nat)

  ghost function LiveSet(rows: Rows): set<Str> {
    set p | p in rows && Live(rows, p)
  }

  ghost function Grouped(rows: Rows): set<Str> {
    set p | p in LiveSet(rows) && rows[p].group.Some?
  }

  ghost function GroupIds(rows: Rows): set<Str> {
    set p | p in Grouped(rows) :: rows[p].group.value
  }

  /** The live rows of one hardlink group. */
  ghost function Members(rows: Rows, g: Str): set<Str> {
    set p | p in rows && Live(rows, p) && rows[p].group == Some(g)
  }

  function SizeAt(rows: Rows, p: Str): nat {
    if p in rows then rows[p].m.size else 0
  }

  /** SUM(size) over a set of rows. */
  ghost function Sum(rows: Rows, ps: set<Str>): nat {
    if ps == {} then 0 else
      var p :| p in ps;
      SizeAt(rows, p) + Sum(rows, ps - {p})
  }

  /** MAX(size) over a set of rows. */
  ghost function Max(rows: Rows, ps: set<Str>): nat {
    if ps == {} then 0 else
      var p :| p in ps;
      var m := Max(rows, ps - {p});
      if SizeAt(rows, p) > m then SizeAt(rows, p) else m
  }

  ghost function Total(f: Str -> int, gs: set<Str>): int {
    if gs == {} then 0 else
      var g :| g in gs;
      f(g) + Total(f, gs - {g})
  }

  /** size * (n - 1) of a group with its MAX(size) and COUNT(*). */
  ghost function ExtraOf(rows: Rows): Str -> int {
    g => Max(rows, Members(rows, g)) * (|Members(rows, g)| - 1)
  }

  /** SUM(size * (n - 1)) over groups. */
  ghost function Extra(rows: Rows, gs: set<Str>): int {
    Total(ExtraOf(rows), gs)
  }

  /** computeStats. */
  ghost function ComputeStats(rows: Rows, skipped: nat): Stats {
    var bytes := Sum(rows, LiveSet(rows));
    Stats(|LiveSet(rows)|, bytes, bytes - Extra(rows, GroupIds(rows)), |GroupIds(rows)|, |Grouped(rows)|, skipped)
  }

  lemma {:induction false} SumPick(rows: Rows, ps: set<Str>, p: Str)
    requires p in ps
    ensures Sum(rows, ps) == SizeAt(rows, p) + Sum(rows, ps - {p})
  {
    var q :| q in ps && Sum(rows, ps) == SizeAt(rows, q) + Sum(rows, ps - {q});
    if q != p {
      SumPick(rows, ps - {q}, p);
      SumPick(rows, ps - {p}, q);
      assert ps - {q} - {p} == ps - {p} - {q};
    }
  }

  /** Sum adds up the sizes of the rows, each once. */
  lemma SumIs(rows: Rows, ps: set<Str>, p: Str)
    requires p in ps && p in rows
    ensures Sum(rows, {}) == 0
    ensures Sum(rows, ps) == rows[p].m.size + Sum(rows, ps - {p})
  {
    SumPick(rows, ps, p);
  }

  lemma {:induction false} TotalPick(f: Str -> int, gs: set<Str>, g: Str)
    requires g in gs
    ensures Total(f, gs) == f(g) + Total(f, gs - {g})
  {
    var h :| h in gs && Total(f, gs) == f(h) + Total(f, gs - {h});
    if h != g {
      TotalPick(f, gs - {h}, g);
      TotalPick(f, gs - {g}, h);
      assert gs - {h} - {g} == gs - {g} - {h};
    }
  }

  lemma {:induction false} SumUnion(rows: Rows, a: set<Str>, b: set<Str>)
    requires a !! b
    ensures Sum(rows, a + b) == Sum(rows, a) + Sum(rows, b)
  {
    if a == {} {
      assert a + b == b;
    } else {
      var p :| p in a;
      SumPick(rows, a, p);
      SumPick(rows, a + b, p);
      SumUnion(rows, a - {p}, b);
      assert a + b - {p} == (a - {p}) + b;
    }
  }

  /** Rows of one size: the sum and the maximum. */
  lemma {:induction false} SameSizes(rows: Rows, ps: set<Str>, size: nat)
    requires forall p :: p in ps ==> SizeAt(rows, p) == size
    ensures Sum(rows, ps) == |ps| * size
    ensures ps != {} ==> Max(rows, ps) == size
  {
    if ps != {} {
      var p :| p in ps && Max(rows, ps) ==
        (if SizeAt(rows, p) > Max(rows, ps - {p}) then SizeAt(rows, p) else Max(rows, ps - {p}));
      SumPick(rows, ps, p);
      SameSizes(rows, ps - {p}, size);
      assert |ps| == |ps - {p}| + 1;
      assert (|ps| - 1) * size + size == |ps| * size;
    }
  }

  /** The live rows of the groups gs. */
  ghost function InGroups(rows: Rows, gs: set<Str>): set<Str> {
    set p | p in Grouped(rows) && rows[p].group.value in gs
  }

  /** One size per group. */
  ghost function OnePerGroup(rows: Rows, gs: set<Str>): nat {
    if gs == {} then 0 else
      var g :| g in gs;
      Max(rows, Members(rows, g)) + OnePerGroup(rows, gs - {g})
  }

  /** The names of a group have one size. */
  ghost predicate UniformGroups(rows: Rows) {
    forall p, q :: p in Grouped(rows) && q in Grouped(rows) && rows[p].group == rows[q].group
      ==> rows[p].m.size == rows[q].m.size
  }

  lemma {:induction false} ExtraAndOne(rows: Rows, gs: set<Str>)
    requires UniformGroups(rows) && gs <= GroupIds(rows)
    ensures Sum(rows, InGroups(rows, gs)) - Extra(rows, gs) == OnePerGroup(rows, gs)
    ensures Extra(rows, gs) >= 0
  {
    if gs == {} {
      assert InGroups(rows, gs) == {};
    } else {
      var g :| g in gs;
      TotalPick(ExtraOf(rows), gs, g);
      OnePick(rows, gs, g);
      GroupSum(rows, g);
      SumOfGroups(rows, gs, g);
      ExtraAndOne(rows, gs - {g});
    }
  }

  lemma SumOfGroups(rows: Rows, gs: set<Str>, g: Str)
    requires g in gs
    ensures Sum(rows, InGroups(rows, gs)) == Sum(rows, Members(rows, g)) + Sum(rows, InGroups(rows, gs - {g}))
  {
    assert InGroups(rows, gs) == Members(rows, g) + InGroups(rows, gs - {g});
    SumUnion(rows, Members(rows, g), InGroups(rows, gs - {g}));
  }

  lemma {:induction false} OnePick(rows: Rows, gs: set<Str>, g: Str)
    requires g in gs
    ensures OnePerGroup(rows, gs) == Max(rows, Members(rows, g)) + OnePerGroup(rows, gs - {g})
  {
    var h :| h in gs && OnePerGroup(rows, gs) == Max(rows, Members(rows, h)) + OnePerGroup(rows, gs - {h});
    if h != g {
      OnePick(rows, gs - {h}, g);
      OnePick(rows, gs - {g}, h);
      assert gs - {h} - {g} == gs - {g} - {h};
    }
  }

  lemma GroupSum(rows: Rows, g: Str)
    requires UniformGroups(rows) && g in GroupIds(rows)
    ensures var ms := Members(rows, g);
      |ms| >= 1 && Sum(rows, ms) == Max(rows, ms) * (|ms| - 1) + Max(rows, ms)
      && Max(rows, ms) * (|ms| - 1) >= 0
  {
    var ms := Members(rows, g);
    var p :| p in Grouped(rows) && rows[p].group.value == g;
    assert p in ms;
    var size := rows[p].m.size;
    forall q | q in ms ensures SizeAt(rows, q) == size { assert q in Grouped(rows); }
    SameSizes(rows, ms, size);
    assert |ms| * size == size * (|ms| - 1) + size;
  }

  /** When the names of each group have one size, UniqueBytes counts every ungrouped live file and
      each group once, and lies between 0 and Bytes. */
  lemma UniqueBytesCountsEachInodeOnce(rows: Rows, skipped: nat)
    requires UniformGroups(rows)
    ensures var st := ComputeStats(rows, skipped);
      && st.uniqueBytes == Sum(rows, LiveSet(rows) - Grouped(rows)) + OnePerGroup(rows, GroupIds(rows))
      && 0 <= st.uniqueBytes <= st.bytes
  {
    var gs := GroupIds(rows);
    ExtraAndOne(rows, gs);
    AllGroups(rows);
    SumSplit(rows);
  }

  lemma AllGroups(rows: Rows)
    ensures InGroups(rows, GroupIds(rows)) == Grouped(rows)
  {
  }

  lemma SumSplit(rows: Rows)
    ensures Sum(rows, LiveSet(rows)) == Sum(rows, LiveSet(rows) - Grouped(rows)) + Sum(rows, Grouped(rows))
  {
    assert LiveSet(rows) == (LiveSet(rows) - Grouped(rows)) + Grouped(rows);
    SumUnion(rows, LiveSet(rows) - Grouped(rows), Grouped(rows));
  }

  // ---- Rows that differ in their stamps have the same statistics ----

  ghost predicate AlikeForStats(a: Rows, b: Rows) {
    forall p :: (p in a <==> p in b) &&
      (p in a ==> a[p].m == b[p].m && a[p].group == b[p].group && (Live(a, p) <==> Live(b, p)))
  }

  lemma {:induction false} MaxPick(rows: Rows, ps: set<Str>, p: Str)
    requires p in ps
    ensures Max(rows, ps) ==
      if SizeAt(rows, p) > Max(rows, ps - {p}) then SizeAt(rows, p) else Max(rows, ps - {p})
  {
    var q :| q in ps && Max(rows, ps) ==
      (if SizeAt(rows, q) > Max(rows, ps - {q}) then SizeAt(rows, q) else Max(rows, ps - {q}));
    if q != p {
      MaxPick(rows, ps - {q}, p);
      MaxPick(rows, ps - {p}, q);
      assert ps - {q} - {p} == ps - {p} - {q};
    }
  }

  lemma {:induction false} SumAlike(a: Rows, b: Rows, ps: set<Str>)
    requires AlikeForStats(a, b)
    ensures Sum(a, ps) == Sum(b, ps) && Max(a, ps) == Max(b, ps)
  {
    if ps != {} {
      var p :| p in ps;
      SumPick(a, ps, p);
      SumPick(b, ps, p);
      MaxPick(a, ps, p);
      MaxPick(b, ps, p);
      SumAlike(a, b, ps - {p});
    }
  }

  lemma {:induction false} TotalAlike(f: Str -> int, h: Str -> int, gs: set<Str>)
    requires forall g :: g in gs ==> f(g) == h(g)
    ensures Total(f, gs) == Total(h, gs)
  {
    if gs != {} {
      var g :| g in gs;
      TotalPick(f, gs, g);
      TotalPick(h, gs, g);
      TotalAlike(f, h, gs - {g});
    }
  }

  lemma StatsAlike(a: Rows, b: Rows, skipped: nat)
    requires AlikeForStats(a, b)
    ensures ComputeStats(a, skipped) == ComputeStats(b, skipped)
  {
    assert LiveSet(a) == LiveSet(b) && Grouped(a) == Grouped(b) && GroupIds(a) == GroupIds(b);
    SumAlike(a, b, LiveSet(a));
    forall g ensures ExtraOf(a)(g) == ExtraOf(b)(g) {
      assert Members(a, g) == Members(b, g);
      SumAlike(a, b, Members(a, g));
    }
    TotalAlike(ExtraOf(a), ExtraOf(b), GroupIds(a));
  }
}
