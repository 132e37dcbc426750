/** The standalone injector `run_implement_user_defined_cuts.py`: it takes
    the cut file and `name = value` argument triples, checks them against
    its registry of six cut bodies, and inserts the bodies below the
    `USER-DEFINED CUTS` marker. The script's second loop pairs names and
    values by zipping the reversed name and value columns, which misaligns
    them when the arguments do not form complete triples; `ScriptAsWritten`
    keeps that pairing and `Script` pairs the validated triples. */
module StandaloneCuts {
  import opened Common
  import opened Text
  import opened FloatSyntax
  import Injector

  // ---------------------------------------------------------------------
  // The registry: each body is stored as the text around its `{}` slot.

  /** The six cuts the script knows. */
  datatype Cut = Mmllmax | Ptl1min | Yll | Ptzmin | Ptzmax | Yz

  /** The registry's key for each cut. */
  function CutName(c: Cut): string
  {
    match c
    case Mmllmax => "mmllmax"
    case Ptl1min => "ptl1min"
    case Yll => "yll"
    case Ptzmin => "ptzmin"
    case Ptzmax => "ptzmax"
    case Yz => "yz"
  }

  /** `cuts_code[name]`: the cut a registry key names, if any. */
  function Lookup(name: string): (c: Option<Cut>)
    ensures c.Some? ==> CutName(c.value) == name
    ensures c.None? <==> name !in {"mmllmax", "ptl1min", "yll", "ptzmin", "ptzmax", "yz"}
  {
    if name == "mmllmax" then Some(Mmllmax)
    else if name == "ptl1min" then Some(Ptl1min)
    else if name == "yll" then Some(Yll)
    else if name == "ptzmin" then Some(Ptzmin)
    else if name == "ptzmax" then Some(Ptzmax)
    else if name == "yz" then Some(Yz)
    else None
  }

  /** Every cut is found under its own key: the registry is exactly these
      six entries. */
  lemma LookupCutName(c: Cut)
    ensures Lookup(CutName(c)) == Some(c)
  {
  }

  /** The body of each cut, as the text before and after its `{}` slot. */
  function Template(c: Cut): Injector.CodeTemplate
  {
    match c
    case Mmllmax =>
      Injector.CodeTemplate(@"c     cut for mmllmax (SFOS lepton pairs)
      do i=1,nexternal-1
        if (is_a_lm(i) .or. is_a_lp(i)) then
          do j=i+1,nexternal
            if (ipdg_reco(i) .eq. -ipdg_reco(j)) then
              if (invm2_04(p_reco(0,i),p_reco(0,j),1d0) .gt. ", @"**2) then
                passcuts_user=.false.
                return
              endif
            endif
          enddo
        endif
      enddo

")
    case Ptl1min =>
      Injector.CodeTemplate(@"c     cut for ptl1min (leading lepton)
      j = 0
      do i=1,nexternal
        if (is_a_lm(i) .or. is_a_lp(i)) then
          if (j.eq.0 .or. pt_04(p_reco(0,i)).ge.pt_04(p_reco(0,j))) then
            j = i
          endif
        endif
      enddo
      if (pt_04(p_reco(0,j)) .lt. ", @") then
        passcuts_user=.false.
        return
      endif

")
    case Yll =>
      Injector.CodeTemplate(@"c     cut on the rapidity of the two leading leptons
      j = 0 ! leading lepton index
      mm = 0 ! subleading lepton index
      do i=1,nexternal
        if (is_a_lm(i) .or. is_a_lp(i)) then
          tmpvar = pt_04(p_reco(0,i))
          if (j.eq.0) then
            j = i
          else if (mm.eq.0) then
            if (tmpvar.ge.pt_04(p_reco(0,j))) then
              mm = j
              j = i
            else if (tmpvar.ge.pt_04(p_reco(0,mm))) then
              mm = i
            endif
          else if (tmpvar.ge.pt_04(p_reco(0,j))) then
            mm = j
            j = i
          else if (tmpvar.ge.pt_04(p_reco(0,mm))) then
            mm = i
          endif
        endif
      enddo
      if (abs(atanh((p_reco(3,j)+p_reco(3,mm))
     &    /(p_reco(0,j)+p_reco(0,mm)))) .gt. ", @") then
        passcuts_user=.false.
        return
      endif

")
    case Ptzmin =>
      Injector.CodeTemplate(@"c     cut on the pt of SFOS lepton pairs
      do i=1,nexternal-1
        if (is_a_lm(i) .or. is_a_lp(i)) then
          do j=i+1,nexternal
            if (ipdg_reco(i) .eq. -ipdg_reco(j)) then
              if (((p_reco(1,i)+p_reco(1,j))**2+
     &            (p_reco(2,i)+p_reco(2,j))**2) .lt. ", @"**2) then
                passcuts_user=.false.
                return
              endif
            endif
          enddo
        endif
      enddo

")
    case Ptzmax =>
      Injector.CodeTemplate(@"c     cut on the pt of SFOS lepton pairs
      do i=1,nexternal-1
        if (is_a_lm(i) .or. is_a_lp(i)) then
          do j=i+1,nexternal
            if (ipdg_reco(i) .eq. -ipdg_reco(j)) then
              if (((p_reco(1,i)+p_reco(1,j))**2+
     &            (p_reco(2,i)+p_reco(2,j))**2) .gt. ", @"**2) then
                passcuts_user=.false.
                return
              endif
            endif
          enddo
        endif
      enddo

")
    case Yz =>
      Injector.CodeTemplate(@"c     cut on the rapidity of SFOS lepton pairs
      do i=1,nexternal-1
        if (is_a_lm(i) .or. is_a_lp(i)) then
          do j=i+1,nexternal
            if (ipdg_reco(i) .eq. -ipdg_reco(j)) then
              if (abs(atanh((p_reco(3,i)+p_reco(3,j))
     &            /(p_reco(0,i)+p_reco(0,j)))) .gt. ", @") then
                passcuts_user=.false.
                return
              endif
            endif
          enddo
        endif
      enddo

")
  }

  // ---------------------------------------------------------------------
  // Argument columns

  /** Python's `xs[k::3]`. */
  function Stride<T>(xs: seq<T>, k: nat): (r: seq<T>)
    ensures if k < |xs| then |xs| - k <= 3 * |r| < |xs| - k + 3 else |r| == 0
    ensures forall i :: 0 <= i < |r| ==> r[i] == xs[k + 3 * i]
  {
    var n := if k < |xs| then (|xs| - k + 2) / 3 else 0;
    seq(n, i requires 0 <= i < n => xs[k + 3 * i])
  }

  /** `zip(a, b)`: as many pairs as the shorter column has entries. */
  function Zip<A, B>(a: seq<A>, b: seq<B>): (r: seq<(A, B)>)
    ensures |r| == if |a| < |b| then |a| else |b|
    ensures forall i :: 0 <= i < |r| ==> r[i] == (a[i], b[i])
  {
    seq(if |a| < |b| then |a| else |b|, i requires 0 <= i < |a| && 0 <= i < |b| => (a[i], b[i]))
  }

  /** `zip(args[0::3], args[1::3], args[2::3])`: the complete triples. */
  function Triples(args: seq<string>): (ts: seq<(string, string, string)>)
    ensures |ts| == |args| / 3
    ensures forall i :: 0 <= i < |ts| ==> ts[i] == (args[3 * i], args[3 * i + 1], args[3 * i + 2])
  {
    var names := Stride(args, 0);
    var eqs := Stride(args, 1);
    var values := Stride(args, 2);
    var n := |values|;
    seq(n, i requires 0 <= i < n => (names[i], eqs[i], values[i]))
  }

  /** The (name, value) pairs the insertion loop visits as written:
      `zip(reversed(args[0::3]), reversed(args[2::3]))`. */
  function PairsAsWritten(args: seq<string>): seq<(string, string)>
  {
    Zip(Reverse(Stride(args, 0)), Reverse(Stride(args, 2)))
  }

  /** The pairs of the validated triples, last triple first. */
  function Pairs(args: seq<string>): (ps: seq<(string, string)>)
    ensures |ps| == |args| / 3
    ensures forall i :: 0 <= i < |ps| ==> ps[i] == (args[3 * (|args| / 3 - 1 - i)], args[3 * (|args| / 3 - 1 - i) + 2])
  {
    var ts := Triples(args);
    Reverse(seq(|ts|, i requires 0 <= i < |ts| => (ts[i].0, ts[i].2)))
  }

  /** The name column has one entry more than the value column exactly
      when the arguments end in an incomplete triple. */
  lemma ColumnLengths(args: seq<string>)
    ensures |Stride(args, 2)| == |args| / 3
    ensures |Stride(args, 0)| == |args| / 3 + (if |args| % 3 == 0 then 0 else 1)
  {
    var t := |args| / 3;
    assert |args| == 3 * t + |args| % 3;
  }

  /** When the arguments form complete triples, the written pairing is the
      pairing of the triples. */
  lemma AlignedPairs(args: seq<string>)
    requires |args| % 3 == 0
    ensures PairsAsWritten(args) == Pairs(args)
  {
    var t := |args| / 3;
    ColumnLengths(args);
    var w := PairsAsWritten(args);
    var p := Pairs(args);
    forall j | 0 <= j < t ensures w[j] == p[j] {
      WrittenPairAt(args, j, t, t);
    }
  }

  /** The `j`-th pair visited as written takes the `j`-th name and the
      `j`-th value, both counted from the end of their columns (of `n`
      names and `m` values). */
  lemma WrittenPairAt(args: seq<string>, j: nat, n: nat, m: nat)
    requires |Stride(args, 0)| == n && |Stride(args, 2)| == m && j < n && j < m
    ensures 3 * (n - 1 - j) < |args| && 3 * (m - 1 - j) + 2 < |args|
    ensures PairsAsWritten(args)[j] == (args[3 * (n - 1 - j)], args[3 * (m - 1 - j) + 2])
  {
    var names := Stride(args, 0);
    var values := Stride(args, 2);
    assert PairsAsWritten(args)[j] == (names[n - 1 - j], values[m - 1 - j]) by {
      ZipReversedAt(names, values, j);
    }
    StrideAt(args, 0, n - 1 - j);
    StrideAt(args, 2, m - 1 - j);
  }

  /** Zipping two reversed columns pairs entries counted from their ends. */
  lemma ZipReversedAt<A, B>(a: seq<A>, b: seq<B>, j: nat)
    requires j < |a| && j < |b|
    ensures j < |Zip(Reverse(a), Reverse(b))|
    ensures Zip(Reverse(a), Reverse(b))[j] == (a[|a| - 1 - j], b[|b| - 1 - j])
  {
  }

  lemma StrideAt<T>(xs: seq<T>, k: nat, i: nat)
    requires i < |Stride(xs, k)|
    ensures k + 3 * i < |xs| && Stride(xs, k)[i] == xs[k + 3 * i]
  {
  }

  /** Otherwise the written pairing is shifted by one triple: counting
      from the end, the value of triple `i` goes with the name of triple
      `i+1` (the trailing name, which was never validated, takes the last
      value), and the first triple's name is dropped. */
  lemma ShiftedPairs(args: seq<string>)
    requires |args| >= 3 && |args| % 3 != 0
    ensures var t := |args| / 3;
      |PairsAsWritten(args)| == t
      && forall j :: 0 <= j < t ==> PairsAsWritten(args)[j] == (args[3 * (t - j)], args[3 * (t - 1 - j) + 2])
  {
    var t := |args| / 3;
    ColumnLengths(args);
    forall j | 0 <= j < t
      ensures PairsAsWritten(args)[j] == (args[3 * (t - j)], args[3 * (t - 1 - j) + 2])
    {
      WrittenPairAt(args, j, t + 1, t);
    }
  }

  // ---------------------------------------------------------------------
  // The script

  datatype ScriptError =
    | UnknownCut(name: string)     // KeyError from `cuts_code[name]`
    | NotANumber(value: string)    // ValueError from `float(value)`

  /** How a run of the script ends: an exit code and the cut file's new
      contents when it was written, or an uncaught exception (nothing
      written). */
  datatype Outcome =
    | Exit(code: nat, written: Option<seq<string>>)
    | Crash(error: ScriptError)

  const Marker: string := "USER-DEFINED CUTS"

  /** The cut bodies a run fills in; the script's own are `Template`. */
  type Bodies = Cut -> Injector.CodeTemplate

  /** The body for one pair: the registry lookup comes first, then
      `float(value)`, whose `str()` fills the slot. */
  function Body(pair: (string, string), repr: string -> string, code: Bodies): Result<string, ScriptError>
  {
    match Lookup(pair.0)
    case None => Err(UnknownCut(pair.0))
    case Some(c) => if IsFloatLiteral(pair.1) then Ok(code(c).Fill(repr(pair.1))) else Err(NotANumber(pair.1))
  }

  /** The bodies in the order the loop visits the pairs; the first failure
      ends the script. */
  function RenderAll(pairs: seq<(string, string)>, repr: string -> string, code: Bodies)
    : (r: Result<seq<string>, ScriptError>)
    ensures r.Ok? ==>
      |r.value| == |pairs| && forall i :: 0 <= i < |pairs| ==> Body(pairs[i], repr, code) == Ok(r.value[i])
    ensures r.Err? ==>
      exists i :: 0 <= i < |pairs| && Body(pairs[i], repr, code) == Err(r.error)
        && forall j :: 0 <= j < i ==> Body(pairs[j], repr, code).Ok?
  {
    if pairs == [] then Ok([])
    else
      var b :- Body(pairs[0], repr, code);
      var rest :- RenderAll(pairs[1..], repr, code);
      assert forall i :: 1 <= i < |pairs| ==> pairs[i] == pairs[1..][i - 1];
      Ok([b] + rest)
  }

  /** A triple passes when its name is a registry key and its middle token
      is `=`. */
  predicate ValidTriple(t: (string, string, string)) {
    Lookup(t.0).Some? && t.1 == "="
  }

  /** The position of the first triple that does not pass, or the number
      of triples when all pass. */
  function FirstInvalid(ts: seq<(string, string, string)>): (f: nat)
    ensures f <= |ts|
    ensures forall i :: 0 <= i < f ==> ValidTriple(ts[i])
    ensures f < |ts| ==> !ValidTriple(ts[f])
  {
    if ts == [] || !ValidTriple(ts[0]) then 0 else 1 + FirstInvalid(ts[1..])
  }

  /** The exit code of the validation loop, checked triple by triple: the
      first triple that does not pass decides it, 3 when its name is
      unknown and otherwise 4, for a middle token other than `=`. */
  function Validate(ts: seq<(string, string, string)>): (code: Option<nat>)
    ensures code.None? <==> forall i :: 0 <= i < |ts| ==> ValidTriple(ts[i])
    ensures var f := FirstInvalid(ts);
      && (code == Some(3) <==> f < |ts| && Lookup(ts[f].0).None?)
      && (code == Some(4) <==> f < |ts| && Lookup(ts[f].0).Some? && ts[f].1 != "=")
      && (code.Some? ==> code.value in {3, 4})
  {
    if ts == [] then None
    else if Lookup(ts[0].0).None? then Some(3)
    else if ts[0].1 != "=" then Some(4)
    else Validate(ts[1..])
  }

  /** The first line containing the marker. */
  function FindMarker(contents: seq<string>): (m: Option<nat>)
    ensures m.Some? ==>
      m.value < |contents| && Contains(contents[m.value], Marker)
        && forall j :: 0 <= j < m.value ==> !Contains(contents[j], Marker)
    ensures m.None? <==> forall j :: 0 <= j < |contents| ==> !Contains(contents[j], Marker)
  {
    match Injector.FindMarker(contents, Marker)
    case Ok(m) => Some(m)
    case Err(_) => None
  }

  /** The script for a given pairing of names and values: `argv` includes
      the script name, `fileExists` is what `os.path.exists` says about the
      cut file, `contents` its lines, and `repr` stands for `str(float)`. */
  function Run(argv: seq<string>, fileExists: bool, contents: seq<string>, repr: string -> string,
               code: Bodies, pairing: seq<string> -> seq<(string, string)>): Outcome
  {
    if |argv| < 5 then Exit(1, None)
    else if !fileExists then Exit(2, None)
    else Inject(argv[2..], contents, repr, code, pairing(argv[2..]))
  }

  /** Validation, marker search and insertion, once the cut file is known
      to exist; `pairs` is what the insertion loop visits. */
  function Inject(args: seq<string>, contents: seq<string>, repr: string -> string,
                  code: Bodies, pairs: seq<(string, string)>): Outcome
  {
    match Validate(Triples(args))
    case Some(status) => Exit(status, None)
    case None =>
      match FindMarker(contents)
      case None => Exit(5, None)
      case Some(m) =>
        match RenderAll(pairs, repr, code)
        case Err(e) => Crash(e)
        case Ok(bodies) => Exit(0, Some(InsertEach(Insert(contents, m + 3, "\n"), m + 4, bodies)))
  }

  /** The script as written. */
  function ScriptAsWritten(argv: seq<string>, fileExists: bool, contents: seq<string>, repr: string -> string): Outcome
  {
    Run(argv, fileExists, contents, repr, Template, PairsAsWritten)
  }

  /** The script with the insertion loop visiting the validated triples. */
  function Script(argv: seq<string>, fileExists: bool, contents: seq<string>, repr: string -> string): Outcome
  {
    Run(argv, fileExists, contents, repr, Template, Pairs)
  }

  // ---------------------------------------------------------------------
  // Properties, for any set of bodies

  /** Too few arguments: exit 1, whatever the file system holds. */
  lemma TooFewArguments(argv: seq<string>, e1: bool, c1: seq<string>, e2: bool, c2: seq<string>,
                        repr: string -> string, code: Bodies)
    requires |argv| < 5
    ensures Run(argv, e1, c1, repr, code, Pairs) == Run(argv, e2, c2, repr, code, Pairs) == Exit(1, None)
    ensures Run(argv, e1, c1, repr, code, PairsAsWritten) == Exit(1, None)
  {
  }

  /** A bad triple exits before the file is read: the outcome does not
      depend on its contents, and nothing is written. The first bad triple,
      at or before this one, decides the code: 3 when its name is unknown,
      otherwise 4. */
  lemma BadTripleBeforeFile(argv: seq<string>, c1: seq<string>, c2: seq<string>, repr: string -> string,
                            code: Bodies, i: nat)
    requires |argv| >= 5 && i < |argv[2..]| / 3
    requires Lookup(argv[2 + 3 * i]).None? || argv[2 + 3 * i + 1] != "="
    ensures Run(argv, true, c1, repr, code, Pairs) == Run(argv, true, c2, repr, code, Pairs)
    ensures var o := Run(argv, true, c1, repr, code, Pairs);
      var f := FirstInvalid(Triples(argv[2..]));
      && f <= i && o.Exit? && o.written.None?
      && o.code == if Lookup(argv[2 + 3 * f]).None? then 3 else 4
  {
    var ts := Triples(argv[2..]);
    assert ts[i].0 == argv[2 + 3 * i] && ts[i].1 == argv[2 + 3 * i + 1];
    assert !ValidTriple(ts[i]);
    var f := FirstInvalid(ts);
    assert f <= i;
    assert ts[f].0 == argv[2 + 3 * f];
  }

  /** A cut file without the marker: exit 5, nothing written. */
  lemma MissingMarker(argv: seq<string>, contents: seq<string>, repr: string -> string, code: Bodies)
    requires |argv| >= 5
    requires forall i :: 0 <= i < |argv[2..]| / 3 ==> Lookup(argv[2 + 3 * i]).Some? && argv[2 + 3 * i + 1] == "="
    requires forall j :: 0 <= j < |contents| ==> !Contains(contents[j], Marker)
    ensures Run(argv, true, contents, repr, code, Pairs) == Exit(5, None)
    ensures Run(argv, true, contents, repr, code, PairsAsWritten) == Exit(5, None)
  {
    ValidArguments(argv[2..]);
  }

  lemma ValidArguments(args: seq<string>)
    requires forall i :: 0 <= i < |args| / 3 ==> Lookup(args[3 * i]).Some? && args[3 * i + 1] == "="
    ensures Validate(Triples(args)).None?
  {
    var ts := Triples(args);
    forall i | 0 <= i < |ts| ensures ValidTriple(ts[i]) {
      assert ts[i] == (args[3 * i], args[3 * i + 1], args[3 * i + 2]);
    }
  }

  /** A valid call on a file with the marker: the blank line goes 3 lines
      past the marker and every body, in reverse argument order, is
      inserted one line further down. */
  lemma ValidRun(argv: seq<string>, contents: seq<string>, repr: string -> string, code: Bodies, m: nat)
    requires |argv| >= 5
    requires forall i :: 0 <= i < |argv[2..]| / 3 ==>
      Lookup(argv[2 + 3 * i]).Some? && argv[2 + 3 * i + 1] == "=" && IsFloatLiteral(argv[2 + 3 * i + 2])
    requires FindMarker(contents) == Some(m)
    ensures Run(argv, true, contents, repr, code, Pairs)
      == Exit(0, Some(InsertEach(Insert(contents, m + 3, "\n"), m + 4, Reverse(InOrder(argv[2..], repr, code)))))
  {
    var args := argv[2..];
    ShiftedTriples(argv);
    ValidArguments(args);
    RenderPairs(args, repr, code);
    InjectValid(args, contents, repr, code, m, Pairs(args), Reverse(InOrder(args, repr, code)));
  }

  /** The triple conditions on `argv` read on the arguments after the file
      name. */
  lemma ShiftedTriples(argv: seq<string>)
    requires |argv| >= 2
    requires forall i :: 0 <= i < |argv[2..]| / 3 ==>
      Lookup(argv[2 + 3 * i]).Some? && argv[2 + 3 * i + 1] == "=" && IsFloatLiteral(argv[2 + 3 * i + 2])
    ensures var args := argv[2..];
      forall i :: 0 <= i < |args| / 3 ==>
        Lookup(args[3 * i]).Some? && args[3 * i + 1] == "=" && IsFloatLiteral(args[3 * i + 2])
  {
    var args := argv[2..];
    forall i | 0 <= i < |args| / 3
      ensures Lookup(args[3 * i]).Some? && args[3 * i + 1] == "=" && IsFloatLiteral(args[3 * i + 2])
    {
      assert args[3 * i] == argv[2 + 3 * i] && args[3 * i + 1] == argv[2 + 3 * i + 1];
      assert args[3 * i + 2] == argv[2 + 3 * i + 2];
    }
  }

  /** Validation passes, the marker is found and every body renders: the
      blank line and the bodies are inserted. */
  lemma InjectValid(args: seq<string>, contents: seq<string>, repr: string -> string, code: Bodies, m: nat,
                    pairs: seq<(string, string)>, bodies: seq<string>)
    requires Validate(Triples(args)) == None && FindMarker(contents) == Some(m)
    requires RenderAll(pairs, repr, code) == Ok(bodies)
    ensures Inject(args, contents, repr, code, pairs)
      == Exit(0, Some(InsertEach(Insert(contents, m + 3, "\n"), m + 4, bodies)))
  {
    var out := InsertEach(Insert(contents, m + 3, "\n"), m + 4, bodies);
    assert Inject(args, contents, repr, code, pairs) == Exit(0, Some(out));
  }


  /** With valid triples whose values are numbers and a marker with at least
      two lines below it, the file gains a blank line three lines below the
      marker followed by the bodies in argument order. */
  lemma ScriptLayout(argv: seq<string>, contents: seq<string>, repr: string -> string, code: Bodies, m: nat)
    requires |argv| >= 5
    requires forall i :: 0 <= i < |argv[2..]| / 3 ==>
      Lookup(argv[2 + 3 * i]).Some? && argv[2 + 3 * i + 1] == "=" && IsFloatLiteral(argv[2 + 3 * i + 2])
    requires FindMarker(contents) == Some(m) && m + 3 <= |contents|
    ensures Run(argv, true, contents, repr, code, Pairs)
      == Exit(0, Some(contents[..m + 3] + ["\n"] + InOrder(argv[2..], repr, code) + contents[m + 3..]))
  {
    ValidRun(argv, contents, repr, code, m);
    var args := argv[2..];
    var bodies := Reverse(InOrder(args, repr, code));
    ReverseReverse(InOrder(args, repr, code));
    var withBlank := Insert(contents, m + 3, "\n");
    InsertEachLayout(withBlank, m + 4, bodies);
    assert withBlank[..m + 4] == contents[..m + 3] + ["\n"];
    assert withBlank[m + 4..] == contents[m + 3..];
  }

  /** A valid call on a file whose marker is within its last two lines:
      `list.insert` appends the blank line, then appends the first bodies
      the loop visits, which come from the end of the argument list, until
      the file reaches the insertion point; the remaining bodies stack
      there in argument order. */
  lemma ScriptLayoutShortFile(argv: seq<string>, contents: seq<string>, repr: string -> string, code: Bodies, m: nat)
    requires |argv| >= 5
    requires forall i :: 0 <= i < |argv[2..]| / 3 ==>
      Lookup(argv[2 + 3 * i]).Some? && argv[2 + 3 * i + 1] == "=" && IsFloatLiteral(argv[2 + 3 * i + 2])
    requires FindMarker(contents) == Some(m) && m + 3 > |contents|
    ensures var bodies := Reverse(InOrder(argv[2..], repr, code));
      var k := if m + 3 - |contents| < |bodies| then m + 3 - |contents| else |bodies|;
      Run(argv, true, contents, repr, code, Pairs)
        == Exit(0, Some(contents + ["\n"] + bodies[..k] + Reverse(bodies[k..])))
  {
    ValidRun(argv, contents, repr, code, m);
    var args := argv[2..];
    var bodies := Reverse(InOrder(args, repr, code));
    var withBlank := Insert(contents, m + 3, "\n");
    assert withBlank == contents + ["\n"];
    InsertEachPastEnd(withBlank, m + 4, bodies);
  }

  /** The bodies of the triples in argument order, for triples that pass. */
  function InOrder(args: seq<string>, repr: string -> string, code: Bodies): (bodies: seq<string>)
    ensures |bodies| == |args| / 3
  {
    var t := |args| / 3;
    seq(t, i requires 0 <= i < t =>
      match Lookup(args[3 * i])
      case Some(c) => code(c).Fill(repr(args[3 * i + 2]))
      case None => "")
  }

  lemma RenderPairs(args: seq<string>, repr: string -> string, code: Bodies)
    requires forall i :: 0 <= i < |args| / 3 ==> Lookup(args[3 * i]).Some? && IsFloatLiteral(args[3 * i + 2])
    ensures RenderAll(Pairs(args), repr, code) == Ok(Reverse(InOrder(args, repr, code)))
  {
    var ps := Pairs(args);
    var bodies := Reverse(InOrder(args, repr, code));
    forall i | 0 <= i < |ps| ensures Body(ps[i], repr, code) == Ok(bodies[i]) {
      var k := |args| / 3 - 1 - i;
      TripleInRange(|args|, k);
      PairBodyAt(args, repr, code, i, k);
    }
    RenderAllOf(ps, repr, code, bodies);
  }

  /** The `i`-th pair, counted from the last triple, renders to the body
      of that triple. */
  lemma PairBodyAt(args: seq<string>, repr: string -> string, code: Bodies, i: nat, k: nat)
    requires i + k + 1 == |args| / 3 && 3 * k + 2 < |args|
    requires Lookup(args[3 * k]).Some? && IsFloatLiteral(args[3 * k + 2])
    ensures Body(Pairs(args)[i], repr, code) == Ok(Reverse(InOrder(args, repr, code))[i])
  {
    var inOrder := InOrder(args, repr, code);
    assert Pairs(args)[i] == (args[3 * k], args[3 * k + 2]);
    assert Reverse(inOrder)[i] == inOrder[k];
    TripleBody(args, k, repr, code);
  }

  /** The `k`-th complete triple lies inside the argument list. */
  lemma TripleInRange(n: nat, k: nat)
    requires k < n / 3
    ensures 3 * k + 2 < n
  {
  }

  lemma TripleBody(args: seq<string>, k: nat, repr: string -> string, code: Bodies)
    requires k < |args| / 3 && Lookup(args[3 * k]).Some? && IsFloatLiteral(args[3 * k + 2])
    ensures Body((args[3 * k], args[3 * k + 2]), repr, code) == Ok(InOrder(args, repr, code)[k])
  {
    var c := Lookup(args[3 * k]).value;
    assert InOrder(args, repr, code)[k] == code(c).Fill(repr(args[3 * k + 2]));
  }

  lemma {:induction false} RenderAllOf(pairs: seq<(string, string)>, repr: string -> string, code: Bodies,
                                       bodies: seq<string>)
    requires |bodies| == |pairs|
    requires forall i :: 0 <= i < |pairs| ==> Body(pairs[i], repr, code) == Ok(bodies[i])
    ensures RenderAll(pairs, repr, code) == Ok(bodies)
  {
    if pairs != [] {
      assert Body(pairs[0], repr, code) == Ok(bodies[0]);
      forall i | 0 <= i < |pairs| - 1 ensures Body(pairs[1..][i], repr, code) == Ok(bodies[1..][i]) {
        assert pairs[1..][i] == pairs[i + 1];
      }
      RenderAllOf(pairs[1..], repr, code, bodies[1..]);
      assert bodies == [bodies[0]] + bodies[1..];
    }
  }

  lemma {:induction false} ReverseReverse<T>(xs: seq<T>)
    ensures Reverse(Reverse(xs)) == xs
  {
  }

  /** For complete triples the script as written and the corrected one
      agree on every input. */
  lemma AgreeOnCompleteTriples(argv: seq<string>, fileExists: bool, contents: seq<string>,
                               repr: string -> string, code: Bodies)
    requires |argv| >= 2 && |argv[2..]| % 3 == 0
    ensures Run(argv, fileExists, contents, repr, code, PairsAsWritten)
         == Run(argv, fileExists, contents, repr, code, Pairs)
  {
    AlignedPairs(argv[2..]);
    assert PairsAsWritten(argv[2..]) == Pairs(argv[2..]);
  }

  // ---------------------------------------------------------------------
  // The misaligned pairing on a concrete command line

  /** A trailing name after one complete triple: with `ptl1min = 25 yz`
      the written loop pairs `yz` with 25 and never visits `ptl1min`,
      while the validated triple is `ptl1min = 25`. */
  lemma TrailingNameShiftsValues()
    ensures PairsAsWritten(["ptl1min", "=", "25", "yz"]) == [("yz", "25")]
    ensures Pairs(["ptl1min", "=", "25", "yz"]) == [("ptl1min", "25")]
  {
    var args := ["ptl1min", "=", "25", "yz"];
    ShiftedPairs(args);
    assert PairsAsWritten(args)[0] == (args[3], args[2]);
  }

  /** The same arguments through the whole script: the written script
      inserts the `yz` body where the corrected one inserts `ptl1min`. */
  lemma TrailingNameMisplacesCut(contents: seq<string>, repr: string -> string, code: Bodies, m: nat)
    requires FindMarker(contents) == Some(m)
    ensures var argv := ["run_implement_user_defined_cuts.py", "cuts.f", "ptl1min", "=", "25", "yz"];
      var ins := Insert(contents, m + 3, "\n");
      Run(argv, true, contents, repr, code, PairsAsWritten) == Exit(0, Some(Insert(ins, m + 4, code(Yz).Fill(repr("25")))))
      && Run(argv, true, contents, repr, code, Pairs) == Exit(0, Some(Insert(ins, m + 4, code(Ptl1min).Fill(repr("25")))))
  {
    var argv := ["run_implement_user_defined_cuts.py", "cuts.f", "ptl1min", "=", "25", "yz"];
    var args := argv[2..];
    assert args == ["ptl1min", "=", "25", "yz"];
    TrailingNameShiftsValues();
    InjectOne(args, contents, repr, code, m, ("yz", "25"), Yz);
    InjectOne(args, contents, repr, code, m, ("ptl1min", "25"), Ptl1min);
  }

  /** One valid triple and one pair to insert. */
  lemma InjectOne(args: seq<string>, contents: seq<string>, repr: string -> string, code: Bodies, m: nat,
                  pair: (string, string), c: Cut)
    requires args == ["ptl1min", "=", "25", "yz"]
    requires FindMarker(contents) == Some(m)
    requires pair.1 == "25" && Lookup(pair.0) == Some(c)
    ensures Inject(args, contents, repr, code, [pair])
      == Exit(0, Some(Insert(Insert(contents, m + 3, "\n"), m + 4, code(c).Fill(repr("25")))))
  {
    var b := code(c).Fill(repr("25"));
    assert Validate(Triples(args)) == None by {
      assert Triples(args) == [("ptl1min", "=", "25")];
    }
    assert RenderAll([pair], repr, code) == Ok([b]) by {
      assert IsFloatLiteral("25") by {
        DigitsAreFloat("25");
      }
      OneBody(pair, c, repr, code);
    }
    InjectValid(args, contents, repr, code, m, [pair], [b]);
    var ins := Insert(contents, m + 3, "\n");
    assert InsertEach(ins, m + 4, [b]) == Insert(ins, m + 4, b);
  }

  lemma OneBody(pair: (string, string), c: Cut, repr: string -> string, code: Bodies)
    requires Lookup(pair.0) == Some(c) && IsFloatLiteral(pair.1)
    ensures RenderAll([pair], repr, code) == Ok([code(c).Fill(repr(pair.1))])
  {
    var b := code(c).Fill(repr(pair.1));
    assert Body(pair, repr, code) == Ok(b);
    assert [pair][1..] == [];
    assert RenderAll([], repr, code) == Ok([]);
    assert [b] + [] == [b];
  }

}
