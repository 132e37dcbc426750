/** The integer and bookkeeping logic of the interpolation grid
    (applgridphoton/src/appl_igrid.cxx): the sign and factorial helpers,
    the reduction of interpolation orders to what the node counts allow,
    the clamping of node indices, the transform registry, the layout of
    the stored setup vector, the index windows of `optimise`, and the
    process selection of `shrink`. Node positions, weights and the
    transforms themselves are floating point and stay outside. */
module IGrid {
  import opened Common

  // ---------------------------------------------------------------------
  // Sign and factorial

  /** (-1)^i, from the lowest bit of i (two's complement: odd negative
      numbers have it set, which is what Euclidean `%` reports too). */
  function Pow1(i: int): (r: int)
    ensures r == 1 || r == -1
  {
    if i % 2 == 1 then -1 else 1
  }

  /** The sign alternates and depends only on parity. */
  lemma Pow1Alternates(i: int)
    ensures Pow1(i + 1) == -Pow1(i)
    ensures Pow1(i + 2) == Pow1(i)
    ensures Pow1(0) == 1 && Pow1(-i) == Pow1(i)
  {
  }

  /** i!, the exact reference. */
  function Factorial(i: nat): (r: nat)
    ensures r >= 1
  {
    if i == 0 then 1 else i * Factorial(i - 1)
  }

  /** Largest argument the table holds. */
  const FacTop: nat := 33

  /** The static table: `ntop` is the last filled slot, and 34 slots exist. */
  datatype FacTable = FacTable(ntop: nat, f: seq<nat>)
  {
    /** Every slot up to `ntop` holds its factorial. */
    predicate Valid()
    {
      4 <= ntop <= FacTop && |f| == FacTop + 1 && forall k :: 0 <= k <= ntop ==> f[k] == Factorial(k)
    }
  }

  /** The table before any call: 0! .. 4! filled, the rest zero. */
  function InitialFacTable(): (t: FacTable)
    ensures t.Valid() && t.ntop == 4
  {
    FacTable(4, [1, 1, 2, 6, 24] + seq(FacTop + 1 - 5, _ => 0))
  }

  /** `fac`: 0 outside 0..33; otherwise i!, extending the table up to i
      first. The filled prefix only grows and no filled slot changes. */
  method Fac(t: FacTable, i: int) returns (r: nat, t': FacTable)
    requires t.Valid()
    ensures t'.Valid()
    ensures i < 0 || i > FacTop ==> r == 0 && t' == t
    ensures 0 <= i <= FacTop ==> r == Factorial(i) && t'.ntop == if i > t.ntop then i else t.ntop
    ensures forall k :: 0 <= k <= t.ntop ==> t'.f[k] == t.f[k]
  {
    if i < 0 || i > FacTop {
      return 0, t;
    }
    var ntop := t.ntop;
    var f: seq<nat> := t.f;
    while ntop < i
      invariant t.ntop <= ntop <= FacTop && |f| == FacTop + 1
      invariant t.ntop >= i ==> ntop == t.ntop
      invariant t.ntop < i ==> ntop <= i
      invariant forall k :: 0 <= k <= ntop ==> f[k] == Factorial(k)
      invariant forall k :: 0 <= k <= t.ntop ==> f[k] == t.f[k]
    {
      var j := ntop;
      ntop := ntop + 1;
      assert f[j] == Factorial(j);
      assert Factorial(ntop) == ntop * Factorial(j);
      f := f[ntop := ntop * f[j]];
    }
    t' := FacTable(ntop, f);
    r := f[i];
  }

  // ---------------------------------------------------------------------
  // Interpolation orders

  /** Lower an interpolation order one step at a time until `n` nodes can
      carry it. */
  function ReducedOrder(n: int, order: int): (r: int)
    ensures r <= n - 1
    ensures r <= order
    ensures r == order || r == n - 1
    decreases order - n
  {
    if n - 1 < order then ReducedOrder(n, order - 1) else order
  }

  // ---------------------------------------------------------------------
  // Transform registry

  /** The pair of member functions a transform name selects, by name. */
  datatype TransformPair = TransformPair(fx: string, fy: string)

  type TransformMap = map<string, TransformPair>

  datatype IGridError = TransformExists(name: string) | TransformNotFound(name: string)

  /** `add_transform`: registering a name twice throws. */
  function AddTransform(m: TransformMap, name: string, pair: TransformPair): (r: Result<TransformMap, IGridError>)
    ensures r.Ok? <==> name !in m
    ensures r.Err? ==> r.error == TransformExists(name)
    ensures r.Ok? ==> r.value.Keys == m.Keys + {name} && r.value[name] == pair
    ensures r.Ok? ==> forall k :: k in m ==> r.value[k] == m[k]
  {
    if name in m then Err(TransformExists(name)) else Ok(m[name := pair])
  }

  /** Registers each entry in turn; the first duplicate aborts. */
  function AddAll(m: TransformMap, entries: seq<(string, TransformPair)>): Result<TransformMap, IGridError>
    decreases |entries|
  {
    if entries == [] then Ok(m)
    else
      var m' :- AddTransform(m, entries[0].0, entries[0].1);
      AddAll(m', entries[1..])
  }

  /** The six transforms every grid registers, in registration order. */
  const StandardTransforms: seq<(string, TransformPair)> := [
    ("f", TransformPair("_fx", "_fy")),
    ("f0", TransformPair("_fx0", "_fy0")),
    ("f1", TransformPair("_fx1", "_fy1")),
    ("f2", TransformPair("_fx2", "_fy2")),
    ("f3", TransformPair("_fx3", "_fy3")),
    ("f4", TransformPair("_fx4", "_fy4"))
  ]

  /** `init_fmap`: an empty registry gets the six standard transforms; a
      populated one is left alone. */
  function InitFmap(m: TransformMap): (r: Result<TransformMap, IGridError>)
    ensures |m| != 0 ==> r == Ok(m)
    ensures |m| == 0 ==> r.Ok? && r.value.Keys == StandardNames
    ensures |m| == 0 ==> forall i :: 0 <= i < |StandardTransforms| ==>
      StandardTransforms[i].0 in r.value && r.value[StandardTransforms[i].0] == StandardTransforms[i].1
  {
    RegisterStandard();
    if |m| == 0 then AddAll(m, StandardTransforms) else Ok(m)
  }

  /** The names a list of entries registers. */
  function Names(entries: seq<(string, TransformPair)>): set<string>
    decreases |entries|
  {
    if entries == [] then {} else {entries[0].0} + Names(entries[1..])
  }

  lemma {:induction false} NameInNames(entries: seq<(string, TransformPair)>, i: nat)
    requires i < |entries|
    ensures entries[i].0 in Names(entries)
    decreases i
  {
    if i > 0 {
      NameInNames(entries[1..], i - 1);
    }
  }

  /** Registering entries with distinct fresh names succeeds and adds
      exactly those names, each mapped to its own pair. */
  lemma {:induction false} AddAllFresh(m: TransformMap, entries: seq<(string, TransformPair)>)
    requires forall i, j :: 0 <= i < j < |entries| ==> entries[i].0 != entries[j].0
    requires forall i :: 0 <= i < |entries| ==> entries[i].0 !in m
    ensures AddAll(m, entries).Ok?
    ensures AddAll(m, entries).value.Keys == m.Keys + Names(entries)
    ensures forall i :: 0 <= i < |entries| ==>
      entries[i].0 in AddAll(m, entries).value && AddAll(m, entries).value[entries[i].0] == entries[i].1
    ensures forall k :: k in m ==> AddAll(m, entries).value[k] == m[k]
    decreases |entries|
  {
    if entries != [] {
      var m' := m[entries[0].0 := entries[0].1];
      var rest := entries[1..];
      forall i | 0 <= i < |rest| ensures rest[i].0 !in m' {
        assert rest[i] == entries[i + 1];
      }
      AddAllFresh(m', rest);
      var r := AddAll(m, entries).value;
      forall i | 0 <= i < |entries| ensures entries[i].0 in r && r[entries[i].0] == entries[i].1 {
        if i > 0 { assert entries[i] == rest[i - 1]; }
      }
    }
  }

  /** The names of the standard transforms. */
  const StandardNames: set<string> := {"f", "f0", "f1", "f2", "f3", "f4"}

  lemma StandardTransformsDistinct()
    ensures forall i, j :: 0 <= i < j < |StandardTransforms| ==> StandardTransforms[i].0 != StandardTransforms[j].0
  {
    var e := StandardTransforms;
    assert |e[0].0| == 1 && e[1].0[1] == '0' && e[2].0[1] == '1';
    assert e[3].0[1] == '2' && e[4].0[1] == '3' && e[5].0[1] == '4';
  }

  lemma StandardTransformsNames()
    ensures Names(StandardTransforms) == StandardNames
  {
    var e := StandardTransforms;
    assert e[1..][1..][1..][1..][1..][1..] == [];
  }

  /** The registry of a fresh grid. */
  function StandardRegistry(): (m: TransformMap)
    ensures InitFmap(map[]) == Ok(m)
    ensures m.Keys == StandardNames
    ensures forall i :: 0 <= i < |StandardTransforms| ==>
      StandardTransforms[i].0 in m && m[StandardTransforms[i].0] == StandardTransforms[i].1
  {
    RegisterStandard();
    AddAll(map[], StandardTransforms).value
  }

  /** Registering the standard transforms in an empty registry succeeds:
      their names are distinct. */
  lemma RegisterStandard()
    ensures var r := AddAll(map[], StandardTransforms);
      r.Ok? && r.value.Keys == StandardNames
      && forall i :: 0 <= i < |StandardTransforms| ==>
        StandardTransforms[i].0 in r.value && r.value[StandardTransforms[i].0] == StandardTransforms[i].1
  {
    StandardTransformsDistinct();
    StandardTransformsNames();
    AddAllFresh(map[], StandardTransforms);
  }

  /** Once initialised the registry is not initialised again, and adding
      any standard name a second time throws. */
  lemma InitFmapOnce(name: string, pair: TransformPair)
    requires name in StandardNames
    ensures InitFmap(StandardRegistry()) == Ok(StandardRegistry())
    ensures AddTransform(StandardRegistry(), name, pair) == Err(TransformExists(name))
  {
    var m := StandardRegistry();
    assert "f" in m;
  }

  // ---------------------------------------------------------------------
  // Setup parameters and construction

  /** The setup parameters of a grid, in the order they are stored. */
  datatype Setup = Setup(
    ny1: int, y1min: real, y1max: real,
    ny2: int, y2min: real, y2max: real,
    yorder: int,
    ntau: int, taumin: real, taumax: real, tauorder: int,
    transvar: real,
    nproc: int,
    reweight: bool, symmetrise: bool, optimised: bool, dis: bool)

  datatype Grid = Grid(transform: string, pair: TransformPair, setup: Setup)

  /** Look a transform up in a freshly initialised registry. */
  function FindTransform(transform: string): (r: Result<TransformPair, IGridError>)
    ensures r.Ok? <==> transform in StandardNames
    ensures r.Err? ==> r.error == TransformNotFound(transform)
    ensures forall i :: 0 <= i < |StandardTransforms| && StandardTransforms[i].0 == transform ==>
      r == Ok(StandardTransforms[i].1)
  {
    var m := StandardRegistry();
    if transform in m then Ok(m[transform]) else Err(TransformNotFound(transform))
  }

  /** The standard constructor. The y range (the transform of the x limits)
      and the tau range (the transform of the Q2 limits) are computed in
      floating point and are inputs here. A DIS grid has a single node on
      the second axis, at 1. */
  function Construct(nq2: int, q2order: int, nx: int, xorder: int, transform: string, nproc: int, dis: bool,
                     ymin: real, ymax: real, taumin: real, taumax: real, transvar: real): (r: Result<Grid, IGridError>)
    ensures r.Err? <==> FindTransform(transform).Err?
    ensures r.Ok? ==> r.value.transform == transform
  {
    var pair :- FindTransform(transform);
    var ny2 := if dis then 1 else nx;
    var yorder := ReducedOrder(nx, xorder);
    var yorder := if !dis then ReducedOrder(ny2, yorder) else yorder;
    var tauorder := ReducedOrder(nq2, q2order);
    Ok(Grid(transform, pair, Setup(
      nx, ymin, ymax,
      ny2, if dis then 1.0 else ymin, if dis then 1.0 else ymax,
      yorder, nq2, taumin, taumax, tauorder, transvar, nproc,
      false, false, false, dis)))
  }

  /** After construction the interpolation orders fit the node counts and
      are lowered no further than needed; a DIS grid has one node on its
      second axis. */
  lemma ConstructOrders(nq2: int, q2order: int, nx: int, xorder: int, transform: string, nproc: int, dis: bool,
                        ymin: real, ymax: real, taumin: real, taumax: real, transvar: real)
    requires Construct(nq2, q2order, nx, xorder, transform, nproc, dis, ymin, ymax, taumin, taumax, transvar).Ok?
    ensures var s := Construct(nq2, q2order, nx, xorder, transform, nproc, dis, ymin, ymax, taumin, taumax, transvar).value.setup;
      s.ny1 == nx && s.ntau == nq2 && s.nproc == nproc && s.dis == dis
      && (dis ==> s.ny2 == 1) && (!dis ==> s.ny2 == nx)
      && s.yorder <= s.ny1 - 1 && (!dis ==> s.yorder <= s.ny2 - 1) && s.tauorder <= s.ntau - 1
      && s.yorder == (if xorder <= nx - 1 then xorder else nx - 1)
      && s.tauorder == (if q2order <= nq2 - 1 then q2order else nq2 - 1)
      && !s.reweight && !s.symmetrise && !s.optimised
  {
  }

  // ---------------------------------------------------------------------
  // The stored setup vector

  /** Number of slots `write` allocates; 17 are used, the rest stay 0. */
  const SetupSlots: nat := 20

  function BoolSlot(b: bool): real
  {
    if b then 1.0 else 0.0
  }

  /** Conversion of a double to int: truncation toward zero. */
  function Trunc(x: real): (n: int)
    ensures x >= 0.0 ==> n as real <= x < n as real + 1.0
    ensures x < 0.0 ==> n as real - 1.0 < x <= n as real
  {
    if x >= 0.0 then x.Floor else -((-x).Floor)
  }

  /** `int(x+0.5)`, the rounding used when reading integer slots. */
  function RoundSlot(x: real): int
  {
    Trunc(x + 0.5)
  }

  /** `write`: the setup parameters in slots 0..16 of a 20-slot vector. */
  function Encode(s: Setup): (v: seq<real>)
    ensures |v| == SetupSlots
    ensures v[17..] == [0.0, 0.0, 0.0]
  {
    [s.ny1 as real, s.y1min, s.y1max,
     s.ny2 as real, s.y2min, s.y2max,
     s.yorder as real,
     s.ntau as real, s.taumin, s.taumax, s.tauorder as real,
     s.transvar,
     s.nproc as real,
     BoolSlot(s.reweight), BoolSlot(s.symmetrise), BoolSlot(s.optimised), BoolSlot(s.dis),
     0.0, 0.0, 0.0]
  }

  /** The reading constructor: integers rounded, flags true when non-zero,
      and the DIS flag only when the vector has a slot 16. */
  function Decode(v: seq<real>): Setup
    requires |v| >= 16
  {
    Setup(
      RoundSlot(v[0]), v[1], v[2],
      RoundSlot(v[3]), v[4], v[5],
      RoundSlot(v[6]),
      RoundSlot(v[7]), v[8], v[9], RoundSlot(v[10]),
      v[11],
      RoundSlot(v[12]),
      v[13] != 0.0, v[14] != 0.0, v[15] != 0.0, |v| > 16 && v[16] != 0.0)
  }

  /** Rounding gives back any stored non-negative integer. */
  lemma RoundSlotOfNat(n: int)
    requires n >= 0
    ensures RoundSlot(n as real) == n
  {
  }

  /** Every integer parameter is a count or an order. */
  predicate NonNegativeCounts(s: Setup)
  {
    s.ny1 >= 0 && s.ny2 >= 0 && s.yorder >= 0 && s.ntau >= 0 && s.tauorder >= 0 && s.nproc >= 0
  }

  /** Reading back what was written restores every parameter. */
  lemma SetupRoundTrip(s: Setup)
    requires NonNegativeCounts(s)
    ensures Decode(Encode(s)) == s
  {
    RoundSlotOfNat(s.ny1);
    RoundSlotOfNat(s.ny2);
    RoundSlotOfNat(s.yorder);
    RoundSlotOfNat(s.ntau);
    RoundSlotOfNat(s.tauorder);
    RoundSlotOfNat(s.nproc);
  }

  /** A 16-slot vector, written before the DIS flag existed, reads as a
      hadronic grid; nothing else depends on the length. */
  lemma ShortSetupIsHadronic(v: seq<real>)
    requires |v| >= 16
    ensures !Decode(v[..16]).dis
    ensures Decode(v[..16]) == Decode(v).(dis := false)
  {
  }

  /** The rounding only restores non-negative integers: -1 is stored as
      -1.0 and read back as 0, since -0.5 truncates toward zero. */
  lemma NegativeCountNotRestored()
    ensures RoundSlot(-1 as real) == 0
  {
  }

  /** The reading constructor: the transform is looked up first, then the
      setup vector is decoded. */
  function ReadGrid(transform: string, v: seq<real>): (r: Result<Grid, IGridError>)
    requires |v| >= 16
    ensures r.Err? <==> transform !in StandardNames
    ensures r.Ok? ==> r.value.transform == transform && r.value.setup == Decode(v)
  {
    var pair :- FindTransform(transform);
    Ok(Grid(transform, pair, Decode(v)))
  }

  /** A grid written and read back is the grid that was written. */
  lemma GridRoundTrip(g: Grid)
    requires g.transform in StandardNames
    requires FindTransform(g.transform) == Ok(g.pair)
    requires NonNegativeCounts(g.setup)
    ensures ReadGrid(g.transform, Encode(g.setup)) == Ok(g)
  {
    SetupRoundTrip(g.setup);
  }

  // ---------------------------------------------------------------------
  // Node index clamps

  /** `fk1`/`fk2`: `k0` is the truncated position of the first
      interpolation node. It is raised to 0, then lowered so that the
      `order + 1` nodes end at the last node. */
  function Fk(k0: int, order: int, n: int): (k: int)
    ensures 0 <= order <= n - 1 ==> 0 <= k && k + order <= n - 1
    ensures 0 <= k0 && k0 + order <= n - 1 ==> k == k0
  {
    var k := if k0 < 0 then 0 else k0;
    if k + order >= n then n - 1 - order else k
  }

  /** `fkappa`: the same clamps in the other order, so the result is never
      negative even when the order does not fit. */
  function Fkappa(k0: int, order: int, n: int): (k: int)
    ensures k >= 0
    ensures 0 <= order <= n - 1 ==> k + order <= n - 1
    ensures 0 <= k0 && k0 + order <= n - 1 ==> k == k0
  {
    var k := if k0 + order >= n then n - 1 - order else k0;
    if k < 0 then 0 else k
  }

  /** The order of the clamps matters only when the order does not fit:
      then `Fk` may give a negative index and `Fkappa` one whose nodes run
      past the end. */
  lemma ClampOrderMatters()
    ensures Fk(0, 2, 2) == -1
    ensures Fkappa(0, 2, 2) == 0 && Fkappa(0, 2, 2) + 2 > 2 - 1
    ensures forall k0, order, n :: 0 <= order <= n - 1 ==> Fk(k0, order, n) == Fkappa(k0, order, n)
  {
  }

  /** On a constructed grid every clamped index keeps all interpolation
      nodes inside the grid. */
  lemma ConstructedClampsInRange(nq2: int, q2order: int, nx: int, xorder: int, transform: string, nproc: int, dis: bool,
                                 ymin: real, ymax: real, taumin: real, taumax: real, transvar: real,
                                 k1: int, k2: int, kappa: int)
    requires transform in StandardNames
    requires nx >= 1 && nq2 >= 1 && xorder >= 0 && q2order >= 0
    ensures var s := Construct(nq2, q2order, nx, xorder, transform, nproc, dis, ymin, ymax, taumin, taumax, transvar).value.setup;
      var i := Fk(k1, s.yorder, s.ny1);
      var t := Fkappa(kappa, s.tauorder, s.ntau);
      0 <= i && i + s.yorder <= s.ny1 - 1 && 0 <= t && t + s.tauorder <= s.ntau - 1
      && (!dis ==> 0 <= Fk(k2, s.yorder, s.ny2) && Fk(k2, s.yorder, s.ny2) + s.yorder <= s.ny2 - 1)
  {
    ConstructOrders(nq2, q2order, nx, xorder, transform, nproc, dis, ymin, ymax, taumin, taumax, transvar);
  }

  /** The second-axis nodes `fill` interpolates over for a first-node guess
      `k2`, as written: `fk2`, then `yorder` more. `fill_phasespace` writes
      the first of them. */
  function FillNodesY2(s: Setup, k2: int): (e: Extent)
    ensures e.hi - e.lo == s.yorder
    ensures 0 <= s.yorder <= s.ny2 - 1 ==> 0 <= e.lo && e.hi <= s.ny2 - 1
  {
    var k := Fk(k2, s.yorder, s.ny2);
    Extent(k, k + s.yorder)
  }

  /** As written, a constructed DIS grid whose x order is at least 1 keeps
      that order on its one-node second axis, so `fk2` starts the nodes
      below node 0 whatever the guess. */
  lemma DisFillNodesNegative(nq2: int, q2order: int, nx: int, xorder: int, transform: string, nproc: int,
                             ymin: real, ymax: real, taumin: real, taumax: real, transvar: real, k2: int)
    requires transform in StandardNames
    requires nx >= 2 && xorder >= 1
    ensures var s := Construct(nq2, q2order, nx, xorder, transform, nproc, true, ymin, ymax, taumin, taumax, transvar).value.setup;
      var e := FillNodesY2(s, k2);
      s.ny2 == 1 && s.yorder >= 1 && e.lo == -s.yorder && e.lo < 0 && e.hi == 0
  {
    ConstructOrders(nq2, q2order, nx, xorder, transform, nproc, true, ymin, ymax, taumin, taumax, transvar);
  }

  /** Corrected second-axis nodes: a DIS grid does not interpolate along
      its second axis and uses its one node; a hadronic grid is unchanged. */
  function CorrectedFillNodesY2(s: Setup, k2: int): (e: Extent)
    ensures s.dis ==> e.lo == e.hi
    ensures !s.dis ==> e == FillNodesY2(s, k2)
  {
    if s.dis then Extent(0, 0) else FillNodesY2(s, k2)
  }

  /** On every constructed grid, DIS or hadronic, the corrected nodes lie
      inside the second axis. */
  lemma CorrectedFillNodesInRange(nq2: int, q2order: int, nx: int, xorder: int, transform: string, nproc: int, dis: bool,
                                  ymin: real, ymax: real, taumin: real, taumax: real, transvar: real, k2: int)
    requires transform in StandardNames
    requires nx >= 1 && xorder >= 0
    ensures var s := Construct(nq2, q2order, nx, xorder, transform, nproc, dis, ymin, ymax, taumin, taumax, transvar).value.setup;
      var e := CorrectedFillNodesY2(s, k2);
      0 <= e.lo <= e.hi <= s.ny2 - 1
  {
    ConstructOrders(nq2, q2order, nx, xorder, transform, nproc, dis, ymin, ymax, taumin, taumax, transvar);
  }

  // ---------------------------------------------------------------------
  // optimise: the filled index window on each axis

  /** An index range on one axis; empty when `hi < lo`. */
  datatype Extent = Extent(lo: int, hi: int)

  /** The filled ranges of one process's weight matrix, per axis. */
  datatype ProcessExtent = ProcessExtent(tau: Extent, y1: Extent, y2: Extent)

  datatype Axis = TauAxis | Y1Axis | Y2Axis

  function Along(p: ProcessExtent, axis: Axis): Extent
  {
    match axis
    case TauAxis => p.tau
    case Y1Axis => p.y1
    case Y2Axis => p.y2
  }

  /** A process is skipped when its tau range is empty, whatever the other
      axes hold. */
  predicate Skipped(p: ProcessExtent)
  {
    p.tau.hi - p.tau.lo + 1 == 0
  }

  /** One step of the scan: the lower end follows every smaller `lo`; the
      upper end follows a larger `hi` only from a non-empty range. */
  function ScanStep(acc: Extent, e: Extent): Extent
  {
    Extent(if e.lo < acc.lo then e.lo else acc.lo,
           if e.lo <= e.hi && acc.hi < e.hi then e.hi else acc.hi)
  }

  /** The scan over all processes, from `(n, -1)`. */
  function Scan(ps: seq<ProcessExtent>, axis: Axis, acc: Extent): Extent
    decreases |ps|
  {
    if ps == [] then acc
    else Scan(ps[1..], axis, if Skipped(ps[0]) then acc else ScanStep(acc, Along(ps[0], axis)))
  }

  /** A process that contributes to the upper end on this axis. */
  predicate Filled(p: ProcessExtent, axis: Axis)
  {
    !Skipped(p) && Along(p, axis).lo <= Along(p, axis).hi
  }

  /** The scan is a minimum and a maximum: the lower end is at most every
      counted `lo` and is one of them or the start; the upper end is at
      least every filled `hi` and is one of them or the start. */
  lemma {:induction false} ScanBounds(ps: seq<ProcessExtent>, axis: Axis, acc: Extent)
    ensures var r := Scan(ps, axis, acc);
      r.lo <= acc.lo && r.hi >= acc.hi
      && (forall i :: 0 <= i < |ps| && !Skipped(ps[i]) ==> r.lo <= Along(ps[i], axis).lo)
      && (forall i :: 0 <= i < |ps| && Filled(ps[i], axis) ==> Along(ps[i], axis).hi <= r.hi)
      && (r.lo == acc.lo || exists i :: 0 <= i < |ps| && !Skipped(ps[i]) && r.lo == Along(ps[i], axis).lo)
      && (r.hi == acc.hi || exists i :: 0 <= i < |ps| && Filled(ps[i], axis) && r.hi == Along(ps[i], axis).hi)
    decreases |ps|
  {
    if ps != [] {
      var acc' := if Skipped(ps[0]) then acc else ScanStep(acc, Along(ps[0], axis));
      ScanBounds(ps[1..], axis, acc');
      var r := Scan(ps, axis, acc);
      forall i | 0 <= i < |ps| && !Skipped(ps[i]) ensures r.lo <= Along(ps[i], axis).lo {
        if i > 0 { assert ps[i] == ps[1..][i - 1]; }
      }
      forall i | 0 <= i < |ps| && Filled(ps[i], axis) ensures Along(ps[i], axis).hi <= r.hi {
        if i > 0 { assert ps[i] == ps[1..][i - 1]; }
      }
      if r.lo != acc.lo && r.lo != acc'.lo {
        var i :| 0 <= i < |ps[1..]| && !Skipped(ps[1..][i]) && r.lo == Along(ps[1..][i], axis).lo;
        assert ps[i + 1] == ps[1..][i];
      }
      if r.hi != acc.hi && r.hi != acc'.hi {
        var i :| 0 <= i < |ps[1..]| && Filled(ps[1..][i], axis) && r.hi == Along(ps[1..][i], axis).hi;
        assert ps[i + 1] == ps[1..][i];
      }
    }
  }

  /** The widening of a found window on an axis with `n` nodes: by one node
      on each side once optimised; before that, by `order + 1` nodes at the
      top (the grid was filled with phase space only) and one at the
      bottom, within the grid. */
  function Widen(w: Extent, n: int, order: int, optimised: bool): Extent
  {
    if optimised then
      Extent(if w.lo > 0 then w.lo - 1 else w.lo, if w.hi < n - 1 then w.hi + 1 else w.hi)
    else
      var hi := w.hi + order + 1;
      Extent(if w.lo > 0 then w.lo - 1 else w.lo, if hi >= n then n - 1 else hi)
  }

  /** Widening keeps a window inside the grid, contains the old window,
      and grows it by one node at the bottom unless it already starts at
      node 0. */
  lemma WidenContains(w: Extent, n: int, order: int, optimised: bool)
    requires 0 <= w.lo <= w.hi <= n - 1 && order >= 0
    ensures var r := Widen(w, n, order, optimised);
      0 <= r.lo <= w.lo && w.hi <= r.hi <= n - 1
      && r.lo == (if w.lo > 0 then w.lo - 1 else 0)
      && (optimised ==> r.hi == if w.hi < n - 1 then w.hi + 1 else n - 1)
      && (!optimised && w.hi + order + 1 <= n - 1 ==> r.hi == w.hi + order + 1)
  {
  }

  /** The index windows `optimise` settles on, one per axis, or none when
      the grid is empty. */
  datatype Windows = Windows(tau: Extent, y1: Extent, y2: Extent)

  /** A process's weight matrix: its node counts on the tau, y1 and y2
      axes, and its filled cells by node index. */
  datatype Weights = Weights(ntau: int, ny1: int, ny2: int, cells: map<(int, int, int), real>)

  /** The grid state `optimise` changes: the node counts, the window the
      new limits are taken from (`None` keeps the old limits), the weight
      matrix of every process, and the optimised flag. */
  datatype Optimised = Optimised(ny1: int, ny2: int, ntau: int, windows: Option<Windows>,
                                 weights: seq<Weights>, optimised: bool)

  /** `optimise(NQ2, Nx1, Nx2)` on a grid whose processes have the given
      filled ranges. The old weights are deleted, not re-binned: every
      process gets a new, empty matrix on the new node counts. */
  function Optimise(s: Setup, ps: seq<ProcessExtent>, nq2: int, nx1: int, nx2: int): (r: Optimised)
    ensures r.optimised
    ensures r.ny1 == nx1 && r.ny2 == nx2 && r.ntau == nq2
    ensures |r.weights| == if s.nproc > 0 then s.nproc else 0
    ensures forall i :: 0 <= i < |r.weights| ==>
      r.weights[i].cells == map[] && r.weights[i].ntau == nq2 && r.weights[i].ny1 == nx1 && r.weights[i].ny2 == nx2
  {
    var y1 := Scan(ps, Y1Axis, Extent(s.ny1, -1));
    var y2 := Scan(ps, Y2Axis, Extent(s.ny2, -1));
    var tau := Scan(ps, TauAxis, Extent(s.ntau, -1));
    var n := if s.nproc > 0 then s.nproc else 0;
    var cleared := seq(n, i => Weights(nq2, nx1, nx2, map[]));
    if y1.hi == -1 || y2.hi == -1 || tau.hi == -1 then
      Optimised(nx1, nx2, nq2, None, cleared, true)
    else
      Optimised(nx1, nx2, nq2, Some(Windows(
        Widen(tau, s.ntau, s.tauorder, s.optimised),
        Widen(y1, s.ny1, s.yorder, s.optimised),
        Widen(y2, s.ny2, s.yorder, s.optimised))), cleared, true)
  }

  /** Node count of an axis before optimisation. */
  function Nodes(s: Setup, axis: Axis): int
  {
    match axis
    case TauAxis => s.ntau
    case Y1Axis => s.ny1
    case Y2Axis => s.ny2
  }

  /** No process fills the axis. */
  predicate Unfilled(ps: seq<ProcessExtent>, axis: Axis)
  {
    forall i :: 0 <= i < |ps| ==> !Filled(ps[i], axis)
  }

  /** Every counted range lies inside its axis. */
  predicate InGrid(s: Setup, ps: seq<ProcessExtent>)
  {
    forall i, axis :: 0 <= i < |ps| && !Skipped(ps[i]) ==>
      0 <= Along(ps[i], axis).lo && Along(ps[i], axis).hi <= Nodes(s, axis) - 1
  }

  /** On one axis: the upper end stays at -1 exactly when no process fills
      the axis; otherwise the scanned window lies inside the grid and
      covers every filled range. */
  lemma ScanWindow(s: Setup, ps: seq<ProcessExtent>, axis: Axis)
    requires InGrid(s, ps)
    ensures var w := Scan(ps, axis, Extent(Nodes(s, axis), -1));
      (w.hi == -1 <==> Unfilled(ps, axis))
      && (w.hi != -1 ==> 0 <= w.lo <= w.hi <= Nodes(s, axis) - 1)
      && (forall i :: 0 <= i < |ps| && Filled(ps[i], axis) ==>
            w.lo <= Along(ps[i], axis).lo && Along(ps[i], axis).hi <= w.hi)
  {
    var w := Scan(ps, axis, Extent(Nodes(s, axis), -1));
    ScanBounds(ps, axis, Extent(Nodes(s, axis), -1));
    if w.hi != -1 {
      var i :| 0 <= i < |ps| && Filled(ps[i], axis) && w.hi == Along(ps[i], axis).hi;
      assert w.lo <= Along(ps[i], axis).lo;
      if w.lo != Nodes(s, axis) {
        var j :| 0 <= j < |ps| && !Skipped(ps[j]) && w.lo == Along(ps[j], axis).lo;
        assert 0 <= w.lo;
      }
    }
  }

  /** `optimise` keeps the old limits exactly when some axis has no filled
      process; otherwise each new window lies inside its axis and covers
      every filled range. */
  lemma OptimiseWindows(s: Setup, ps: seq<ProcessExtent>, nq2: int, nx1: int, nx2: int)
    requires InGrid(s, ps) && s.yorder >= 0 && s.tauorder >= 0
    ensures var r := Optimise(s, ps, nq2, nx1, nx2);
      (r.windows.None? <==> exists axis :: Unfilled(ps, axis))
      && (r.windows.Some? ==>
            (forall axis :: var w := WindowAlong(r.windows.value, axis);
               0 <= w.lo <= w.hi <= Nodes(s, axis) - 1
               && forall i :: 0 <= i < |ps| && Filled(ps[i], axis) ==>
                    w.lo <= Along(ps[i], axis).lo && Along(ps[i], axis).hi <= w.hi))
  {
    ScanWindow(s, ps, TauAxis);
    ScanWindow(s, ps, Y1Axis);
    ScanWindow(s, ps, Y2Axis);
    var r := Optimise(s, ps, nq2, nx1, nx2);
    if r.windows.Some? {
      forall axis ensures var w := WindowAlong(r.windows.value, axis);
        0 <= w.lo <= w.hi <= Nodes(s, axis) - 1
        && forall i :: 0 <= i < |ps| && Filled(ps[i], axis) ==>
             w.lo <= Along(ps[i], axis).lo && Along(ps[i], axis).hi <= w.hi
      {
        var order := if axis == TauAxis then s.tauorder else s.yorder;
        WidenContains(Scan(ps, axis, Extent(Nodes(s, axis), -1)), Nodes(s, axis), order, s.optimised);
      }
    } else {
      var axis :| axis in {TauAxis, Y1Axis, Y2Axis} && Scan(ps, axis, Extent(Nodes(s, axis), -1)).hi == -1;
    }
  }

  function WindowAlong(w: Windows, axis: Axis): Extent
  {
    match axis
    case TauAxis => w.tau
    case Y1Axis => w.y1
    case Y2Axis => w.y2
  }

  // ---------------------------------------------------------------------
  // shrink

  /** `shrink(keep)`: slot `i` of the new process list receives old process
      `keep[i]`, and each moved process is nulled in the old list, so a
      repeated index hands over nothing the second time. The old processes
      still present at the end are deleted. */
  /** What slot `i` of the new list receives: old process `keep[i]`,
      unless an earlier slot already took it. */
  function HandedOver<P>(procs: seq<P>, keep: seq<int>, i: nat): Option<P>
    requires i < |keep| && 0 <= keep[i] < |procs|
  {
    if keep[i] in keep[..i] then None else Some(procs[keep[i]])
  }

  method Shrink<P>(procs: seq<P>, keep: seq<int>) returns (kept: seq<Option<P>>, deleted: set<int>)
    requires forall i :: 0 <= i < |keep| ==> 0 <= keep[i] < |procs|
    ensures |kept| == |keep|
    ensures forall i :: 0 <= i < |keep| ==> kept[i] == HandedOver(procs, keep, i)
    ensures forall i :: 0 <= i < |keep| && keep[i] !in keep[..i] ==> kept[i] == Some(procs[keep[i]])
    ensures forall ip :: ip in deleted <==> 0 <= ip < |procs| && ip !in keep
  {
    var w: seq<Option<P>> := seq(|procs|, i requires 0 <= i < |procs| => Some(procs[i]));
    kept := [];
    var ip := 0;
    assert keep[..0] == [];
    while ip < |keep|
      invariant 0 <= ip <= |keep| && |w| == |procs| && |kept| == ip
      invariant forall x :: 0 <= x < |procs| ==> w[x] == if x in keep[..ip] then None else Some(procs[x])
      invariant forall i :: 0 <= i < ip ==> kept[i] == HandedOver(procs, keep, i)
    {
      var moved := w[keep[ip]];
      assert moved == HandedOver(procs, keep, ip);
      kept := kept + [moved];
      w := w[keep[ip] := None];
      assert keep[..ip + 1] == keep[..ip] + [keep[ip]];
      forall x | 0 <= x < |procs| ensures w[x] == if x in keep[..ip + 1] then None else Some(procs[x]) {
        if x != keep[ip] {
          assert x in keep[..ip + 1] <==> x in keep[..ip];
        }
      }
      ip := ip + 1;
    }
    assert keep[..ip] == keep;
    deleted := set x | 0 <= x < |procs| && w[x].Some?;
  }
}
