/** The grid checker (applcheck/applcheck.cpp): flavour slots 0..13 and
    their PDG ids, the flavour mask applied by the PDF callback, and the
    report `main` prints. The PDF set, the grid file and the convolutions
    are inputs. */
module ApplCheck {
  import opened Common

  /** Flavour slots, in the order of the flavour map. */
  const Flavours: nat := 14
  const GluonSlot: nat := 6
  const PhotonSlot: nat := 13

  /** `index_to_pdg_id`: the gluon slot is 21, the photon slot 22, every
      other slot its offset from 6. */
  function IndexToPdg(index: nat): int
  {
    if index == GluonSlot then 21 else if index == PhotonSlot then 22 else index as int - 6
  }

  /** The slot of a PDG id, when it has one. */
  function PdgToIndex(pdg: int): (r: Option<nat>)
    ensures r.Some? ==> r.value < Flavours
  {
    if pdg == 21 then Some(GluonSlot)
    else if pdg == 22 then Some(PhotonSlot)
    else if -6 <= pdg <= 6 && pdg != 0 then Some((pdg + 6) as nat)
    else None
  }

  /** The ids the fourteen slots carry: the quarks and antiquarks up to
      top, the gluon and the photon. */
  predicate IsFlavourId(pdg: int)
  {
    (-6 <= pdg <= -1) || (1 <= pdg <= 6) || pdg == 21 || pdg == 22
  }

  /** On the slots the map is a bijection onto the fourteen ids: distinct
      slots get distinct ids, and `PdgToIndex` inverts it both ways. */
  lemma PdgBijection(index: nat, pdg: int)
    ensures index < Flavours ==> IsFlavourId(IndexToPdg(index)) && PdgToIndex(IndexToPdg(index)) == Some(index)
    ensures IsFlavourId(pdg) <==> PdgToIndex(pdg).Some?
    ensures IsFlavourId(pdg) ==> IndexToPdg(PdgToIndex(pdg).value) == pdg
  {
  }

  lemma PdgInjective(a: nat, b: nat)
    requires a < Flavours && b < Flavours && IndexToPdg(a) == IndexToPdg(b)
    ensures a == b
  {
    PdgBijection(a, 0);
    PdgBijection(b, 0);
  }

  /** The flavour map: all enabled, then the photon follows the PDF set. */
  function FlavourMap(hasPhoton: bool): (fm: seq<bool>)
    ensures |fm| == Flavours
    ensures forall i :: 0 <= i < Flavours && i != PhotonSlot ==> fm[i]
    ensures fm[PhotonSlot] == hasPhoton
  {
    seq(Flavours, i => true)[PhotonSlot := hasPhoton]
  }

  /** `evolvepdf`: each enabled slot gets the PDF at its PDG id, each
      disabled one 0; `xfxQ` is the PDF set at the given x and q. */
  method EvolvePdf(fm: seq<bool>, xfxQ: int -> real) returns (xfx: seq<real>)
    requires |fm| == Flavours
    ensures |xfx| == Flavours
    ensures forall i :: 0 <= i < Flavours ==> xfx[i] == if fm[i] then xfxQ(IndexToPdg(i)) else 0.0
  {
    xfx := [];
    var i := 0;
    while i != Flavours
      invariant 0 <= i <= Flavours && |xfx| == i
      invariant forall k :: 0 <= k < i ==> xfx[k] == if fm[k] then xfxQ(IndexToPdg(k)) else 0.0
    {
      xfx := xfx + [if fm[i] then xfxQ(IndexToPdg(i)) else 0.0];
      i := i + 1;
    }
  }

  // ---------------------------------------------------------------------
  // main

  /** An order of the grid: powers of alpha_s and alpha, and the log
      powers of the renormalisation and factorisation scales. */
  datatype Order = Order(alphs: int, alpha: int, lmur2: int, lmuf2: int)

  /** A line of the report. */
  datatype ReportLine =
    | OrderBin(bin: nat, alphs: int, alpha: int, xsec: real)
    | Bin(bin: nat, xsec: real)

  /** `at` past the end throws. */
  datatype CheckError = OutOfRange

  datatype Exit = Usage(code: int) | Report(lines: seq<ReportLine>, sum: real) | Threw(error: CheckError)

  /** Only orders without scale logarithms are reported. */
  predicate Central(o: Order)
  {
    o.lmur2 == 0 && o.lmuf2 == 0
  }

  /** The per-order lines for orders `i..`: each order's cross sections
      are fetched (and must exist) before the order is tested. */
  function OrderLines(orders: seq<Order>, xsecs: seq<seq<real>>, nobs: nat, i: nat): Result<seq<ReportLine>, CheckError>
    requires i <= |orders|
    decreases |orders| - i
  {
    if i == |orders| then Ok([])
    else if i >= |xsecs| then Err(OutOfRange)
    else
      var here :- if !Central(orders[i]) then Ok([])
                  else if nobs > |xsecs[i]| then Err(OutOfRange)
                  else Ok(seq(nobs, j requires 0 <= j < nobs => OrderBin(j, orders[i].alphs, orders[i].alpha, xsecs[i][j])));
      var rest :- OrderLines(orders, xsecs, nobs, i + 1);
      Ok(here + rest)
  }

  /** Sum of `xsec * width` over the bins, left to right. */
  function WeightedSum(xsecs: seq<real>, widths: seq<real>): real
    requires |widths| == |xsecs|
  {
    if xsecs == [] then 0.0
    else WeightedSum(xsecs[..|xsecs| - 1], widths[..|widths| - 1]) + xsecs[|xsecs| - 1] * widths[|widths| - 1]
  }

  /** `main` after the PDF set is loaded: the argument count is checked
      before anything else; then the per-order report, the all-orders bins
      and their weighted sum. */
  function Check(argc: int, orders: seq<Order>, xsecsByOrder: seq<seq<real>>, xsecs: seq<real>, widths: seq<real>, nobs: nat): (r: Exit)
    requires |widths| >= nobs
    ensures argc != 3 <==> r == Usage(1)
  {
    if argc != 3 then Usage(1)
    else match OrderLines(orders, xsecsByOrder, nobs, 0)
      case Err(e) => Threw(e)
      case Ok(lines) =>
        if nobs > |xsecs| then Threw(OutOfRange)
        else Report(lines + seq(nobs, j requires 0 <= j < nobs => Bin(j, xsecs[j])), WeightedSum(xsecs[..nobs], widths[..nobs]))
  }

  /** With every cross section present, the per-order lines are the bins
      of the central orders, order by order and bin by bin within an order:
      the lines of central order k fill the block that comes after one
      block of `nobs` lines for each central order before it. */
  lemma OrderLinesCentral(orders: seq<Order>, xsecs: seq<seq<real>>, nobs: nat, i: nat)
    requires i <= |orders| && |xsecs| >= |orders|
    requires forall k :: 0 <= k < |orders| ==> |xsecs[k]| >= nobs
    ensures OrderLines(orders, xsecs, nobs, i).Ok?
    ensures var lines := OrderLines(orders, xsecs, nobs, i).value;
      && |lines| == nobs * CountCentral(orders, i)
      && forall k, j :: i <= k < |orders| && Central(orders[k]) && 0 <= j < nobs ==>
           var at := nobs * (CountCentral(orders, i) - CountCentral(orders, k)) + j;
           0 <= at < |lines| && lines[at] == OrderBin(j, orders[k].alphs, orders[k].alpha, xsecs[k][j])
  {
    OrderLinesLength(orders, xsecs, nobs, i);
    forall k, j | i <= k < |orders| && Central(orders[k]) && 0 <= j < nobs
      ensures var lines := OrderLines(orders, xsecs, nobs, i).value;
        var at := nobs * (CountCentral(orders, i) - CountCentral(orders, k)) + j;
        0 <= at < |lines| && lines[at] == OrderBin(j, orders[k].alphs, orders[k].alpha, xsecs[k][j])
    {
      OrderLineAt(orders, xsecs, nobs, i, k, j);
      LinesBeforeCount(orders, nobs, i, k);
    }
  }

  /** The per-order lines exist and number one per bin per central order. */
  lemma {:induction false} OrderLinesLength(orders: seq<Order>, xsecs: seq<seq<real>>, nobs: nat, i: nat)
    requires i <= |orders| && |xsecs| >= |orders|
    requires forall k :: 0 <= k < |orders| ==> |xsecs[k]| >= nobs
    ensures OrderLines(orders, xsecs, nobs, i).Ok?
    ensures |OrderLines(orders, xsecs, nobs, i).value| == nobs * CountCentral(orders, i)
    decreases |orders| - i
  {
    if i < |orders| {
      OrderLinesLength(orders, xsecs, nobs, i + 1);
    }
  }

  /** The lines one order prints: one per bin when it is central. */
  function OrderBlock(o: Order, xsec: seq<real>, nobs: nat): (block: seq<ReportLine>)
    requires |xsec| >= nobs
    ensures |block| == if Central(o) then nobs else 0
    ensures Central(o) ==> forall j :: 0 <= j < nobs ==> block[j] == OrderBin(j, o.alphs, o.alpha, xsec[j])
  {
    if Central(o) then seq(nobs, j requires 0 <= j < nobs => OrderBin(j, o.alphs, o.alpha, xsec[j])) else []
  }

  /** One step of the per-order loop: order i's block, then the rest. */
  lemma OrderLinesStep(orders: seq<Order>, xsecs: seq<seq<real>>, nobs: nat, i: nat)
    requires i < |orders| && |xsecs| >= |orders|
    requires |xsecs[i]| >= nobs && OrderLines(orders, xsecs, nobs, i + 1).Ok?
    ensures OrderLines(orders, xsecs, nobs, i)
      == Ok(OrderBlock(orders[i], xsecs[i], nobs) + OrderLines(orders, xsecs, nobs, i + 1).value)
  {
  }

  /** The number of lines orders `i` to `k - 1` print. */
  function LinesBefore(orders: seq<Order>, nobs: nat, i: nat, k: nat): nat
    requires i <= k <= |orders|
    decreases k - i
  {
    if i == k then 0 else (if Central(orders[i]) then nobs else 0) + LinesBefore(orders, nobs, i + 1, k)
  }

  /** Each central order before k prints one line per bin. */
  lemma {:induction false} LinesBeforeCount(orders: seq<Order>, nobs: nat, i: nat, k: nat)
    requires i <= k <= |orders|
    ensures CountCentral(orders, k) <= CountCentral(orders, i)
    ensures LinesBefore(orders, nobs, i, k) == nobs * (CountCentral(orders, i) - CountCentral(orders, k))
    decreases k - i
  {
    if i < k {
      LinesBeforeCount(orders, nobs, i + 1, k);
      var c := if Central(orders[i]) then 1 else 0;
      BlockOffset(nobs, c, CountCentral(orders, i + 1) - CountCentral(orders, k), 0);
    }
  }

  /** Bin j of central order k is printed after the lines of the orders
      between `i` and k. */
  lemma {:induction false} OrderLineAt(orders: seq<Order>, xsecs: seq<seq<real>>, nobs: nat, i: nat, k: nat, j: nat)
    requires i <= k < |orders| && |xsecs| >= |orders|
    requires forall k :: 0 <= k < |orders| ==> |xsecs[k]| >= nobs
    requires Central(orders[k]) && j < nobs
    ensures OrderLines(orders, xsecs, nobs, i).Ok?
    ensures var lines := OrderLines(orders, xsecs, nobs, i).value;
      var at := LinesBefore(orders, nobs, i, k) + j;
      at < |lines| && lines[at] == OrderBin(j, orders[k].alphs, orders[k].alpha, xsecs[k][j])
    decreases k - i
  {
    OrderLinesLength(orders, xsecs, nobs, i + 1);
    var here := OrderBlock(orders[i], xsecs[i], nobs);
    var rest := OrderLines(orders, xsecs, nobs, i + 1).value;
    OrderLinesStep(orders, xsecs, nobs, i);
    if k == i {
      assert (here + rest)[j] == here[j];
    } else {
      OrderLineAt(orders, xsecs, nobs, i + 1, k, j);
      var off := LinesBefore(orders, nobs, i + 1, k) + j;
      assert (here + rest)[|here| + off] == rest[off];
    }
  }

  /** Offsets of consecutive blocks: `nobs * (c + d) + j` is `nobs * c`
      further than `nobs * d + j`. */
  lemma BlockOffset(nobs: nat, c: nat, d: nat, j: nat)
    ensures nobs * (c + d) + j == nobs * c + (nobs * d + j)
    ensures 0 <= nobs * d
  {
  }

  /** The number of central orders from `i` on. */
  function CountCentral(orders: seq<Order>, i: nat): nat
    requires i <= |orders|
    decreases |orders| - i
  {
    if i == |orders| then 0 else (if Central(orders[i]) then 1 else 0) + CountCentral(orders, i + 1)
  }

  /** An order with a scale logarithm contributes no line, but its cross
      sections must still exist: with any order's missing the report
      throws. */
  lemma {:induction false} MissingOrderThrows(orders: seq<Order>, xsecs: seq<seq<real>>, nobs: nat, i: nat)
    requires i <= |xsecs| < |orders|
    ensures OrderLines(orders, xsecs, nobs, i) == Err(OutOfRange)
    decreases |orders| - i
  {
    if i < |xsecs| {
      MissingOrderThrows(orders, xsecs, nobs, i + 1);
    }
  }

  /** Fetching the cross sections of order k fails: the order has none at
      all, or it is central and has fewer than one per bin. */
  predicate OrderFetchFails(orders: seq<Order>, xsecs: seq<seq<real>>, nobs: nat, k: nat)
    requires k < |orders|
  {
    k >= |xsecs| || (Central(orders[k]) && nobs > |xsecs[k]|)
  }

  /** The per-order report throws exactly when some order from `i` on
      fails to fetch its cross sections; a short order with a scale
      logarithm is skipped before any of its bins is read. */
  lemma {:induction false} OrderLinesThrows(orders: seq<Order>, xsecs: seq<seq<real>>, nobs: nat, i: nat)
    requires i <= |orders|
    ensures OrderLines(orders, xsecs, nobs, i).Err?
      <==> exists k :: i <= k < |orders| && OrderFetchFails(orders, xsecs, nobs, k)
    decreases |orders| - i
  {
    if i < |orders| {
      OrderLinesThrows(orders, xsecs, nobs, i + 1);
      if OrderLines(orders, xsecs, nobs, i).Err? {
        if !OrderFetchFails(orders, xsecs, nobs, i) {
          var k :| i + 1 <= k < |orders| && OrderFetchFails(orders, xsecs, nobs, k);
          assert i <= k;
        }
      }
      if exists k :: i <= k < |orders| && OrderFetchFails(orders, xsecs, nobs, k) {
        var k :| i <= k < |orders| && OrderFetchFails(orders, xsecs, nobs, k);
        if k != i && !OrderFetchFails(orders, xsecs, nobs, i) {
          assert i + 1 <= k;
        }
      }
    }
  }

  /** A central order with fewer cross sections than bins throws. */
  lemma ShortCentralOrderThrows(orders: seq<Order>, xsecs: seq<seq<real>>, nobs: nat, k: nat)
    requires k < |orders| && k < |xsecs| && Central(orders[k]) && |xsecs[k]| < nobs
    ensures OrderLines(orders, xsecs, nobs, 0) == Err(OutOfRange)
  {
    OrderLinesThrows(orders, xsecs, nobs, 0);
    assert OrderFetchFails(orders, xsecs, nobs, k);
    assert OrderLines(orders, xsecs, nobs, 0).error.OutOfRange?;
  }

  /** Orders with a scale logarithm may have any number of cross sections:
      only the central ones need one per bin. */
  lemma ShortScaleOrderSkipped(orders: seq<Order>, xsecs: seq<seq<real>>, nobs: nat)
    requires |xsecs| >= |orders|
    requires forall k :: 0 <= k < |orders| && Central(orders[k]) ==> |xsecs[k]| >= nobs
    ensures OrderLines(orders, xsecs, nobs, 0).Ok?
  {
    OrderLinesThrows(orders, xsecs, nobs, 0);
  }

  /** With the argument count right, the run throws exactly when an order
      fails to fetch its cross sections or the all-orders result has fewer
      cross sections than bins. */
  lemma CheckThrows(orders: seq<Order>, xsecsByOrder: seq<seq<real>>, xsecs: seq<real>, widths: seq<real>, nobs: nat)
    requires |widths| >= nobs
    ensures Check(3, orders, xsecsByOrder, xsecs, widths, nobs).Threw?
      <==> (exists k :: 0 <= k < |orders| && OrderFetchFails(orders, xsecsByOrder, nobs, k)) || nobs > |xsecs|
    ensures Check(3, orders, xsecsByOrder, xsecs, widths, nobs).Threw? ==> Check(3, orders, xsecsByOrder, xsecs, widths, nobs).error == OutOfRange
  {
    OrderLinesThrows(orders, xsecsByOrder, nobs, 0);
  }

  /** The per-order report can succeed and the all-bins loop still throw. */
  lemma AllBinsThrows(orders: seq<Order>, xsecsByOrder: seq<seq<real>>, xsecs: seq<real>, widths: seq<real>, nobs: nat)
    requires |widths| >= nobs
    requires OrderLines(orders, xsecsByOrder, nobs, 0).Ok? && nobs > |xsecs|
    ensures Check(3, orders, xsecsByOrder, xsecs, widths, nobs) == Threw(OutOfRange)
  {
  }

  /** A well-formed run prints, after the per-order lines, one line per
      bin, and the sum of cross section times bin width. */
  lemma CheckReport(orders: seq<Order>, xsecsByOrder: seq<seq<real>>, xsecs: seq<real>, widths: seq<real>, nobs: nat)
    requires |xsecsByOrder| >= |orders| && forall k :: 0 <= k < |orders| ==> |xsecsByOrder[k]| >= nobs
    requires |xsecs| >= nobs && |widths| >= nobs
    ensures Check(3, orders, xsecsByOrder, xsecs, widths, nobs).Report?
    ensures var r := Check(3, orders, xsecsByOrder, xsecs, widths, nobs);
      |r.lines| == nobs * CountCentral(orders, 0) + nobs
      && (forall j :: 0 <= j < nobs ==> r.lines[nobs * CountCentral(orders, 0) + j] == Bin(j, xsecs[j]))
      && r.sum == WeightedSum(xsecs[..nobs], widths[..nobs])
  {
    OrderLinesCentral(orders, xsecsByOrder, nobs, 0);
  }
}
