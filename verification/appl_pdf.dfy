/** The parton-luminosity base class (applgridphoton/src/appl_pdf.cxx):
    the process-wide registry of named instances, and the CKM bookkeeping
    that turns a 3x3 CKM matrix into the 14x14 matrix of squared elements
    indexed by parton slot (LHAPDF code + 6), with its row sums. */
module ApplPdf {
  import opened Common

  // ---------------------------------------------------------------------
  // The name registry

  /** Registered instances by name; `I` identifies an instance. */
  type PdfMap<I> = map<string, I>

  datatype PdfError = AlreadyInMap(name: string)

  /** Registration of a name; a name already present is refused. This rule
      lives in appl_pdf.h, which is not part of this model. */
  function AddToPdfMap<I>(m: PdfMap<I>, name: string, inst: I): (r: Result<PdfMap<I>, PdfError>)
    ensures r.Ok? <==> name !in m
    ensures r.Err? ==> r.error == AlreadyInMap(name)
    ensures r.Ok? ==> r.value.Keys == m.Keys + {name} && r.value[name] == inst
    ensures r.Ok? ==> forall k :: k in m ==> r.value[k] == m[k]
  {
    if name in m then Err(AlreadyInMap(name)) else Ok(m[name := inst])
  }

  /** The constructor: only a non-empty name is registered. */
  function Construct<I>(m: PdfMap<I>, name: string, inst: I): (r: Result<PdfMap<I>, PdfError>)
    ensures r.Err? <==> name != "" && name in m
    ensures r.Err? ==> r.error == AlreadyInMap(name)
    ensures r.Ok? && name == "" ==> r.value == m
    ensures r.Ok? && name != "" ==> r.value == m[name := inst]
  {
    if name != "" then AddToPdfMap(m, name, inst) else Ok(m)
  }

  /** The destructor: the entry under the instance's name goes, whichever
      instance it holds. */
  function Destruct<I>(m: PdfMap<I>, name: string): (r: PdfMap<I>)
    ensures name !in r
    ensures forall k :: k != name ==> (k in r <==> k in m) && (k in r ==> r[k] == m[k])
  {
    m - {name}
  }

  /** `getpdf`: the registered instance, or nothing. (Creating the empty
      default factory first changes nothing.) */
  function GetPdf<I>(m: PdfMap<I>, name: string): (r: Option<I>)
    ensures r.Some? <==> name in m
    ensures r.Some? ==> r.value == m[name]
  {
    if name in m then Some(m[name]) else None
  }

  /** A constructed named instance is what `getpdf` returns for its name;
      an unnamed one leaves the registry as it was. */
  lemma ConstructThenGet<I>(m: PdfMap<I>, name: string, inst: I)
    requires name !in m
    ensures Construct(m, name, inst).Ok?
    ensures name != "" ==> GetPdf(Construct(m, name, inst).value, name) == Some(inst)
    ensures name == "" ==> Construct(m, name, inst).value == m
  {
  }

  /** Constructing and destroying an instance under a fresh name leaves
      the registry as it was; after destruction `getpdf` gives nothing. */
  lemma ConstructDestruct<I>(m: PdfMap<I>, name: string, inst: I)
    requires name !in m && name != ""
    ensures Destruct(Construct(m, name, inst).value, name) == m
    ensures GetPdf(Destruct(Construct(m, name, inst).value, name), name) == None
  {
    var m' := Construct(m, name, inst).value;
    assert Destruct(m', name).Keys == m.Keys;
  }

  /** `decideSubProcess` of the base class: no subprocess is selected. */
  function DecideSubProcess(id1: int, id2: int): (r: int)
    ensures r < 0
  {
    -1
  }

  // ---------------------------------------------------------------------
  // CKM bookkeeping

  type Matrix = seq<seq<real>>

  /** Parton slots: LHAPDF code + 6, so -6..6 map to 0..12. */
  const Slots: nat := 14

  /** The CKM part of an instance's state. */
  datatype CkmState = CkmState(charge: int, ckm: Matrix, ckm2: Matrix, ckmsum: seq<real>)

  /** Left-to-right sum of a row. */
  function Sum(row: seq<real>): real
  {
    if row == [] then 0.0 else Sum(row[..|row| - 1]) + row[|row| - 1]
  }

  function RowSums(m: Matrix): (sums: seq<real>)
    ensures |sums| == |m|
    ensures forall i :: 0 <= i < |m| ==> sums[i] == Sum(m[i])
  {
    seq(|m|, i requires 0 <= i < |m| => Sum(m[i]))
  }

  /** The loops of `setckm2` accumulate each row's sum. */
  method ComputeRowSums(m: Matrix) returns (sums: seq<real>)
    ensures |sums| == |m|
    ensures forall i :: 0 <= i < |m| ==> sums[i] == Sum(m[i])
  {
    sums := seq(|m|, _ => 0.0);
    var i := 0;
    while i < |m|
      invariant 0 <= i <= |m| && |sums| == |m|
      invariant forall k :: 0 <= k < i ==> sums[k] == Sum(m[k])
    {
      var acc := 0.0;
      var j := 0;
      while j < |m[i]|
        invariant 0 <= j <= |m[i]|
        invariant acc == Sum(m[i][..j])
      {
        assert m[i][..j + 1][..j] == m[i][..j];
        acc := acc + m[i][j];
        j := j + 1;
      }
      assert m[i][..j] == m[i];
      sums := sums[i := acc];
      i := i + 1;
    }
  }

  /** `setckm2`: store the matrix and its row sums. */
  function SetCkm2(st: CkmState, ckm2: Matrix): (r: CkmState)
    ensures r.charge == st.charge && r.ckm == st.ckm && r.ckm2 == ckm2
    ensures |r.ckmsum| == |ckm2| && forall i :: 0 <= i < |ckm2| ==> r.ckmsum[i] == Sum(ckm2[i])
  {
    st.(ckm2 := ckm2, ckmsum := RowSums(ckm2))
  }

  /** The slot of up-type quark `iU` (u, c, t): antiquarks for W-. */
  function UpSlot(charge: int, iU: int): int
  {
    (if charge < 0 then -(2 * iU + 2) else 2 * iU + 2) + 6
  }

  /** The slot of down-type quark `iD` (d, s, b): antiquarks for W+. */
  function DownSlot(charge: int, iD: int): int
  {
    (if charge > 0 then -(2 * iD + 1) else 2 * iD + 1) + 6
  }

  /** W+ pairs up quarks {8,10,12} with down antiquarks {5,3,1}; W- pairs
      up antiquarks {4,2,0} with down quarks {7,9,11}. Up slots are even
      and down slots odd, so no slot is both, and each is one-to-one. */
  lemma SlotMapping(charge: int, iU: int, iD: int)
    requires charge != 0 && 0 <= iU < 3 && 0 <= iD < 3
    ensures charge > 0 ==> UpSlot(charge, iU) == 8 + 2 * iU && DownSlot(charge, iD) == 5 - 2 * iD
    ensures charge < 0 ==> UpSlot(charge, iU) == 4 - 2 * iU && DownSlot(charge, iD) == 7 + 2 * iD
    ensures 0 <= UpSlot(charge, iU) < Slots && 0 <= DownSlot(charge, iD) < Slots
    ensures UpSlot(charge, iU) % 2 == 0 && DownSlot(charge, iD) % 2 == 1
    ensures forall k :: 0 <= k < 3 && UpSlot(charge, k) == UpSlot(charge, iU) ==> k == iU
    ensures forall k :: 0 <= k < 3 && DownSlot(charge, k) == DownSlot(charge, iD) ==> k == iD
  {
  }

  /** The quark behind an up slot, when there is one. */
  function UpQuark(charge: int, slot: int): Option<int>
  {
    if charge > 0 && slot in {8, 10, 12} then Some((slot - 8) / 2)
    else if charge < 0 && slot in {0, 2, 4} then Some((4 - slot) / 2)
    else None
  }

  /** The quark behind a down slot, when there is one. */
  function DownQuark(charge: int, slot: int): Option<int>
  {
    if charge > 0 && slot in {1, 3, 5} then Some((5 - slot) / 2)
    else if charge < 0 && slot in {7, 9, 11} then Some((slot - 7) / 2)
    else None
  }

  /** `UpQuark` and `DownQuark` invert the slot maps. */
  lemma QuarkOfSlot(charge: int, slot: int)
    requires charge != 0
    ensures UpQuark(charge, slot).Some? <==> exists iU :: 0 <= iU < 3 && UpSlot(charge, iU) == slot
    ensures UpQuark(charge, slot).Some? ==>
      0 <= UpQuark(charge, slot).value < 3 && UpSlot(charge, UpQuark(charge, slot).value) == slot
    ensures DownQuark(charge, slot).Some? <==> exists iD :: 0 <= iD < 3 && DownSlot(charge, iD) == slot
    ensures DownQuark(charge, slot).Some? ==>
      0 <= DownQuark(charge, slot).value < 3 && DownSlot(charge, DownQuark(charge, slot).value) == slot
  {
    if UpQuark(charge, slot).Some? {
      SlotMapping(charge, UpQuark(charge, slot).value, 0);
      assert UpSlot(charge, UpQuark(charge, slot).value) == slot;
    }
    if DownQuark(charge, slot).Some? {
      SlotMapping(charge, 0, DownQuark(charge, slot).value);
      assert DownSlot(charge, DownQuark(charge, slot).value) == slot;
    }
    if exists iU :: 0 <= iU < 3 && UpSlot(charge, iU) == slot {
      var iU :| 0 <= iU < 3 && UpSlot(charge, iU) == slot;
      SlotMapping(charge, iU, 0);
    }
    if exists iD :: 0 <= iD < 3 && DownSlot(charge, iD) == slot {
      var iD :| 0 <= iD < 3 && DownSlot(charge, iD) == slot;
      SlotMapping(charge, 0, iD);
    }
  }

  /** A matrix with at least 3x3 entries. */
  predicate IsCkm(ckm: Matrix)
  {
    |ckm| >= 3 && forall i :: 0 <= i < 3 ==> |ckm[i]| >= 3
  }

  /** A square `n` x `n` matrix. */
  predicate Square(m: Matrix, n: nat)
  {
    |m| == n && forall i :: 0 <= i < n ==> |m[i]| == n
  }

  function Zero(n: nat): (m: Matrix)
    ensures Square(m, n)
    ensures forall i, j :: 0 <= i < n && 0 <= j < n ==> m[i][j] == 0.0
  {
    seq(n, _ => seq(n, _ => 0.0))
  }

  /** Set `[i][j]` and `[j][i]` to `v`. */
  function SetPair(m: Matrix, n: nat, i: nat, j: nat, v: real): (r: Matrix)
    requires Square(m, n) && i < n && j < n
    ensures Square(r, n)
    ensures forall a, b :: 0 <= a < n && 0 <= b < n ==>
      r[a][b] == if (a == i && b == j) || (a == j && b == i) then v else m[a][b]
  {
    var m1 := m[i := m[i][j := v]];
    m1[j := m1[j][i := v]]
  }

  function Sq(x: real): real { x * x }

  /** The first `n` of the nine writes of `setckm`, in loop order (up
      quark outer, down quark inner). */
  function Ckm2Writes(ckm: Matrix, charge: int, n: nat): (m: Matrix)
    requires IsCkm(ckm) && charge != 0 && n <= 9
    ensures Square(m, Slots)
  {
    if n == 0 then Zero(Slots)
    else
      var k := n - 1;
      SlotMapping(charge, k / 3, k % 3);
      SetPair(Ckm2Writes(ckm, charge, k), Slots, UpSlot(charge, k / 3), DownSlot(charge, k % 3), Sq(ckm[k / 3][k % 3]))
  }

  /** The squared CKM element for a pair of slots, in either order: the
      reference the loop is measured against. */
  function Ckm2Entry(ckm: Matrix, charge: int, a: int, b: int): real
    requires IsCkm(ckm) && charge != 0
  {
    QuarkOfSlot(charge, a);
    QuarkOfSlot(charge, b);
    var (ua, da, ub, db) := (UpQuark(charge, a), DownQuark(charge, a), UpQuark(charge, b), DownQuark(charge, b));
    if ua.Some? && db.Some? then Sq(ckm[ua.value][db.value])
    else if ub.Some? && da.Some? then Sq(ckm[ub.value][da.value])
    else 0.0
  }

  /** The loop index of the write that covers a pair of slots. */
  function WriteIndex(charge: int, a: int, b: int): Option<nat>
  {
    var (ua, da, ub, db) := (UpQuark(charge, a), DownQuark(charge, a), UpQuark(charge, b), DownQuark(charge, b));
    if ua.Some? && db.Some? && 0 <= ua.value && 0 <= db.value then Some(3 * ua.value + db.value)
    else if ub.Some? && da.Some? && 0 <= ub.value && 0 <= da.value then Some(3 * ub.value + da.value)
    else None
  }

  /** What entry `[a][b]` holds after the first `n` writes. */
  function Written(ckm: Matrix, charge: int, n: nat, a: int, b: int): real
    requires IsCkm(ckm) && charge != 0
  {
    if WriteIndex(charge, a, b).Some? && WriteIndex(charge, a, b).value < n then Ckm2Entry(ckm, charge, a, b) else 0.0
  }

  /** After `n` writes, exactly the pairs written so far hold their
      squared element; every other entry is still 0. */
  lemma {:induction false} Ckm2WritesEntries(ckm: Matrix, charge: int, n: nat)
    requires IsCkm(ckm) && charge != 0 && n <= 9
    ensures forall a, b :: 0 <= a < Slots && 0 <= b < Slots ==>
      Ckm2Writes(ckm, charge, n)[a][b] == Written(ckm, charge, n, a, b)
  {
    if n > 0 {
      Ckm2WritesEntries(ckm, charge, n - 1);
      forall a, b | 0 <= a < Slots && 0 <= b < Slots
        ensures Ckm2Writes(ckm, charge, n)[a][b] == Written(ckm, charge, n, a, b)
      {
        Ckm2WriteStep(ckm, charge, n, a, b);
      }
    }
  }

  /** The `n`-th write changes exactly the two entries of its pair. */
  lemma Ckm2WriteStep(ckm: Matrix, charge: int, n: nat, a: int, b: int)
    requires IsCkm(ckm) && charge != 0 && 0 < n <= 9
    requires 0 <= a < Slots && 0 <= b < Slots
    requires Ckm2Writes(ckm, charge, n - 1)[a][b] == Written(ckm, charge, n - 1, a, b)
    ensures Ckm2Writes(ckm, charge, n)[a][b] == Written(ckm, charge, n, a, b)
  {
    var k := n - 1;
    Ckm2WritesAt(ckm, charge, n, a, b);
    if IsPair(charge, k, a, b) {
      PairEntries(ckm, charge, k, a, b);
    } else if WriteIndex(charge, a, b).Some? {
      WriteIndexPair(charge, a, b, WriteIndex(charge, a, b).value);
      assert WriteIndex(charge, a, b).value != k;
      assert Written(ckm, charge, n, a, b) == Written(ckm, charge, k, a, b);
    }
  }

  /** True when write `k` of the loop sets entry `[a][b]`. */
  predicate IsPair(charge: int, k: int, a: int, b: int)
  {
    (a == UpSlot(charge, k / 3) && b == DownSlot(charge, k % 3))
      || (b == UpSlot(charge, k / 3) && a == DownSlot(charge, k % 3))
  }

  /** Write `n - 1` sets its pair and leaves every other entry alone. */
  lemma Ckm2WritesAt(ckm: Matrix, charge: int, n: nat, a: int, b: int)
    requires IsCkm(ckm) && charge != 0 && 0 < n <= 9
    requires 0 <= a < Slots && 0 <= b < Slots
    ensures Ckm2Writes(ckm, charge, n)[a][b]
      == if IsPair(charge, n - 1, a, b) then Sq(ckm[(n - 1) / 3][(n - 1) % 3]) else Ckm2Writes(ckm, charge, n - 1)[a][b]
  {
    var k := n - 1;
    SlotMapping(charge, k / 3, k % 3);
  }

  /** The slots of a write name its quarks back, and neither is the other
      kind. */
  lemma PairOfWrite(charge: int, iU: int, iD: int)
    requires charge != 0 && 0 <= iU < 3 && 0 <= iD < 3
    ensures UpQuark(charge, UpSlot(charge, iU)) == Some(iU) && DownQuark(charge, DownSlot(charge, iD)) == Some(iD)
    ensures UpQuark(charge, DownSlot(charge, iD)).None? && DownQuark(charge, UpSlot(charge, iU)).None?
  {
    SlotMapping(charge, iU, iD);
  }

  /** The pair write `k` sets has index `k` and the squared element of
      that write, in both orders. */
  lemma PairEntries(ckm: Matrix, charge: int, k: int, a: int, b: int)
    requires IsCkm(ckm) && charge != 0 && 0 <= k < 9
    requires IsPair(charge, k, a, b)
    ensures WriteIndex(charge, a, b) == Some(k)
    ensures Ckm2Entry(ckm, charge, a, b) == Sq(ckm[k / 3][k % 3])
  {
    PairOfWrite(charge, k / 3, k % 3);
    assert 3 * (k / 3) + k % 3 == k;
  }

  /** A pair of slots with a write index is the pair that write sets. */
  lemma WriteIndexPair(charge: int, a: int, b: int, k: nat)
    requires charge != 0 && WriteIndex(charge, a, b) == Some(k)
    ensures k < 9
    ensures IsPair(charge, k, a, b)
  {
    QuarkOfSlot(charge, a);
    QuarkOfSlot(charge, b);
    var (ua, da, ub, db) := (UpQuark(charge, a), DownQuark(charge, a), UpQuark(charge, b), DownQuark(charge, b));
    if ua.Some? && db.Some? {
      DivMod3(ua.value, db.value);
    } else {
      DivMod3(ub.value, da.value);
    }
  }

  lemma DivMod3(q: int, r: int)
    requires 0 <= q < 3 && 0 <= r < 3
    ensures (3 * q + r) / 3 == q && (3 * q + r) % 3 == r && 3 * q + r < 9
  {
  }

  /** `setckm`'s matrix of squared elements. */
  function Ckm2Of(ckm: Matrix, charge: int): (m: Matrix)
    requires IsCkm(ckm) && charge != 0
    ensures Square(m, Slots)
  {
    Ckm2Writes(ckm, charge, 9)
  }

  /** Up slots are even and down slots odd. */
  lemma QuarkParity(charge: int, slot: int)
    ensures UpQuark(charge, slot).Some? ==> slot % 2 == 0
    ensures DownQuark(charge, slot).Some? ==> slot % 2 == 1
  {
  }

  /** The matrix `setckm` builds: each entry is the squared CKM element of
      its slot pair, in either order, and 0 for any other pair; so it is
      symmetric, and the nine pairs get V^2. */
  lemma Ckm2OfEntries(ckm: Matrix, charge: int)
    requires IsCkm(ckm) && charge != 0
    ensures forall a, b :: 0 <= a < Slots && 0 <= b < Slots ==>
      Ckm2Of(ckm, charge)[a][b] == Ckm2Entry(ckm, charge, a, b)
    ensures forall a, b :: 0 <= a < Slots && 0 <= b < Slots ==>
      Ckm2Of(ckm, charge)[a][b] == Ckm2Of(ckm, charge)[b][a]
    ensures forall iU, iD :: 0 <= iU < 3 && 0 <= iD < 3 ==>
      Ckm2Of(ckm, charge)[UpSlot(charge, iU)][DownSlot(charge, iD)] == Sq(ckm[iU][iD])
  {
    Ckm2WritesEntries(ckm, charge, 9);
    var m := Ckm2Of(ckm, charge);
    forall a, b | 0 <= a < Slots && 0 <= b < Slots
      ensures m[a][b] == Ckm2Entry(ckm, charge, a, b) && m[a][b] == m[b][a]
    {
      FinalEntry(ckm, charge, a, b);
      FinalEntry(ckm, charge, b, a);
    }
    forall iU, iD | 0 <= iU < 3 && 0 <= iD < 3
      ensures m[UpSlot(charge, iU)][DownSlot(charge, iD)] == Sq(ckm[iU][iD])
    {
      SlotMapping(charge, iU, iD);
      FinalEntry(ckm, charge, UpSlot(charge, iU), DownSlot(charge, iD));
      PairOfWrite(charge, iU, iD);
    }
  }

  /** Once all nine writes are done, every entry holds its squared element
      (0 for a pair no write covers), whichever order the slots come in. */
  lemma FinalEntry(ckm: Matrix, charge: int, a: int, b: int)
    requires IsCkm(ckm) && charge != 0 && 0 <= a < Slots && 0 <= b < Slots
    requires Ckm2Of(ckm, charge)[a][b] == Written(ckm, charge, 9, a, b)
    ensures Ckm2Of(ckm, charge)[a][b] == Ckm2Entry(ckm, charge, a, b)
    ensures Ckm2Entry(ckm, charge, a, b) == Ckm2Entry(ckm, charge, b, a)
  {
    QuarkOfSlot(charge, a);
    QuarkOfSlot(charge, b);
    QuarkParity(charge, a);
    QuarkParity(charge, b);
    if WriteIndex(charge, a, b).Some? {
      WriteIndexPair(charge, a, b, WriteIndex(charge, a, b).value);
    }
  }

  /** `setckm`: the CKM matrix is always stored; without a W charge nothing
      else happens, otherwise the squared-element matrix is built and
      passed to `setckm2`. */
  function SetCkm(st: CkmState, ckm: Matrix): (r: CkmState)
    requires st.charge != 0 ==> IsCkm(ckm)
    ensures r.ckm == ckm && r.charge == st.charge
    ensures st.charge == 0 ==> r.ckm2 == st.ckm2 && r.ckmsum == st.ckmsum
    ensures st.charge != 0 ==> Square(r.ckm2, Slots) && |r.ckmsum| == Slots
    ensures st.charge != 0 ==> r.ckm2 == Ckm2Of(ckm, st.charge)
    ensures st.charge != 0 ==>
      forall a, b :: 0 <= a < Slots && 0 <= b < Slots ==> r.ckm2[a][b] == Ckm2Entry(ckm, st.charge, a, b)
    ensures st.charge != 0 ==> forall a :: 0 <= a < Slots ==> r.ckmsum[a] == Sum(r.ckm2[a])
  {
    if st.charge == 0 then st.(ckm := ckm)
    else
      Ckm2OfEntries(ckm, st.charge);
      SetCkm2(st.(ckm := ckm), Ckm2Of(ckm, st.charge))
  }

  // ---------------------------------------------------------------------
  // make_ckm

  /** The two squared elements `make_ckm` writes (the literals in the
      source are the doubles nearest these decimals). */
  const SmallV2: real := 0.049284
  const LargeV2: real := 0.950625

  /** The pairs `make_ckm` writes, each in both orders. */
  function MakeCkmPairs(wp: bool): seq<(nat, nat, real)>
  {
    if wp then [(3, 8, SmallV2), (5, 8, LargeV2), (5, 10, SmallV2), (3, 10, LargeV2)]
    else [(4, 9, SmallV2), (7, 4, LargeV2), (7, 2, SmallV2), (9, 2, LargeV2)]
  }

  /** Writes a list of pairs in order. */
  function WritePairs(m: Matrix, pairs: seq<(nat, nat, real)>): (r: Matrix)
    requires Square(m, Slots)
    requires forall k :: 0 <= k < |pairs| ==> pairs[k].0 < Slots && pairs[k].1 < Slots
    ensures Square(r, Slots)
    decreases |pairs|
  {
    if pairs == [] then m
    else WritePairs(SetPair(m, Slots, pairs[0].0, pairs[0].1, pairs[0].2), pairs[1..])
  }

  /** The matrix `make_ckm` hands to `setckm2`. */
  function MakeCkm2(wp: bool): (m: Matrix)
    ensures Square(m, Slots)
  {
    WritePairs(Zero(Slots), MakeCkmPairs(wp))
  }

  /** `make_ckm`: the charge of the W, then the fixed matrix. */
  function MakeCkm(st: CkmState, wp: bool): (r: CkmState)
    ensures r.charge == if wp then 1 else -1
    ensures r.ckm == st.ckm
    ensures Square(r.ckm2, Slots) && |r.ckmsum| == Slots
    ensures r.ckm2 == Ckm2Of(Cabibbo, r.charge)
    ensures forall a :: 0 <= a < Slots ==> r.ckmsum[a] == Sum(r.ckm2[a])
  {
    MakeCkmIsCabibbo(wp);
    SetCkm2(st.(charge := if wp then 1 else -1), MakeCkm2(wp))
  }

  /** The Cabibbo-only CKM matrix: cos = 0.975, sin = 0.222, no third
      generation. */
  const Cabibbo: Matrix := [[0.975, 0.222, 0.0], [0.222, 0.975, 0.0], [0.0, 0.0, 0.0]]

  /** The entry of a matrix after the first `n` pairs are written. */
  lemma {:induction false} WritePairsStep(m: Matrix, pairs: seq<(nat, nat, real)>)
    requires Square(m, Slots) && pairs != []
    requires forall k :: 0 <= k < |pairs| ==> pairs[k].0 < Slots && pairs[k].1 < Slots
    ensures WritePairs(m, pairs) == WritePairs(SetPair(m, Slots, pairs[0].0, pairs[0].1, pairs[0].2), pairs[1..])
  {
  }

  /** A slot pair `make_ckm` writes, in either order. */
  predicate Listed(wp: bool, a: int, b: int)
  {
    var pairs := MakeCkmPairs(wp);
    exists k :: 0 <= k < |pairs| && ((pairs[k].0 == a && pairs[k].1 == b) || (pairs[k].0 == b && pairs[k].1 == a))
  }

  /** The entry `make_ckm` leaves at a slot pair. */
  function MakeEntry(wp: bool, a: int, b: int): real
  {
    var (lo, hi) := if a <= b then (a, b) else (b, a);
    if wp then
      if lo == 3 && hi == 8 then SmallV2
      else if lo == 5 && hi == 8 then LargeV2
      else if lo == 5 && hi == 10 then SmallV2
      else if lo == 3 && hi == 10 then LargeV2
      else 0.0
    else
      if lo == 4 && hi == 9 then SmallV2
      else if lo == 4 && hi == 7 then LargeV2
      else if lo == 2 && hi == 7 then SmallV2
      else if lo == 2 && hi == 9 then LargeV2
      else 0.0
  }

  lemma MakeCkm2Entries(wp: bool)
    ensures forall a, b :: 0 <= a < Slots && 0 <= b < Slots ==> MakeCkm2(wp)[a][b] == MakeEntry(wp, a, b)
  {
    var pairs := MakeCkmPairs(wp);
    var m0 := Zero(Slots);
    var m1 := SetPair(m0, Slots, pairs[0].0, pairs[0].1, pairs[0].2);
    var m2 := SetPair(m1, Slots, pairs[1].0, pairs[1].1, pairs[1].2);
    var m3 := SetPair(m2, Slots, pairs[2].0, pairs[2].1, pairs[2].2);
    var m4 := SetPair(m3, Slots, pairs[3].0, pairs[3].1, pairs[3].2);
    assert MakeCkm2(wp) == m4 by {
      WritePairsStep(m0, pairs);
      WritePairsStep(m1, pairs[1..]);
      WritePairsStep(m2, pairs[2..]);
      WritePairsStep(m3, pairs[3..]);
      assert pairs[1..][1..] == pairs[2..];
      assert pairs[2..][1..] == pairs[3..];
    }
  }

  lemma CabibboEntry(wp: bool, a: int, b: int)
    requires 0 <= a < Slots && 0 <= b < Slots
    ensures Ckm2Entry(Cabibbo, if wp then 1 else -1, a, b) == MakeEntry(wp, a, b)
  {
    if wp {
      CabibboEntryOf(true, 1, a, b);
    } else {
      CabibboEntryOf(false, -1, a, b);
    }
  }

  lemma CabibboEntryOf(wp: bool, charge: int, a: int, b: int)
    requires charge == if wp then 1 else -1
    requires 0 <= a < Slots && 0 <= b < Slots
    ensures Ckm2Entry(Cabibbo, charge, a, b) == MakeEntry(wp, a, b)
  {
    assert Sq(0.975) == LargeV2 && Sq(0.222) == SmallV2 && Sq(0.0) == 0.0;
  }

  lemma ListedEntry(wp: bool, a: int, b: int)
    ensures MakeEntry(wp, a, b) != 0.0 <==> Listed(wp, a, b)
  {
    var pairs := MakeCkmPairs(wp);
    var (lo, hi) := if a <= b then (a, b) else (b, a);
    if MakeEntry(wp, a, b) != 0.0 {
      var k := if wp then (if lo == 3 && hi == 8 then 0 else if lo == 5 && hi == 8 then 1 else if lo == 5 then 2 else 3)
               else (if lo == 4 && hi == 9 then 0 else if lo == 4 then 1 else if hi == 7 then 2 else 3);
      assert (pairs[k].0 == a && pairs[k].1 == b) || (pairs[k].0 == b && pairs[k].1 == a);
    }
  }

  /** The hard-coded matrix is exactly what `setckm` builds from the
      Cabibbo-only CKM matrix for the same charge; hence it is symmetric
      and non-zero only at the listed pairs. */
  lemma MakeCkmIsCabibbo(wp: bool)
    ensures MakeCkm2(wp) == Ckm2Of(Cabibbo, if wp then 1 else -1)
    ensures forall a, b :: 0 <= a < Slots && 0 <= b < Slots ==>
      MakeCkm2(wp)[a][b] == MakeCkm2(wp)[b][a]
      && (MakeCkm2(wp)[a][b] != 0.0 <==> Listed(wp, a, b))
  {
    var charge := if wp then 1 else -1;
    Ckm2OfEntries(Cabibbo, charge);
    MakeCkm2Entries(wp);
    var m := MakeCkm2(wp);
    var c := Ckm2Of(Cabibbo, charge);
    forall a, b | 0 <= a < Slots && 0 <= b < Slots
      ensures m[a][b] == c[a][b] && (m[a][b] != 0.0 <==> Listed(wp, a, b))
    {
      CabibboEntry(wp, a, b);
      ListedEntry(wp, a, b);
    }
    assert forall a :: 0 <= a < Slots ==> m[a] == c[a];
  }
}
