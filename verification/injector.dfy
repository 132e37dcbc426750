/** Marker search and the two-pass injection of user-defined cuts into
    the generated `SubProcesses/cuts.f` (`find_marker_position` and
    `apply_user_cuts`, run/external/mg5.py). The document is the list
    `readlines()` returns: each element is one line with its line ending,
    except the elements the injection itself inserts, which are whole file
    contents. */
module Injector {
  import opened Common
  import opened Text
  import opened FloatSyntax
  import Directives

  /** A cut body template, held as the text before and after its single
      `{}` slot; `str.format(value)` fills the slot. */
  datatype CodeTemplate = CodeTemplate(before: string, after: string) {
    function Fill(value: string): string { before + value + after }
  }

  datatype InjectError =
    | MarkerNotFound                   // ValueError from find_marker_position, always with MarkerMessage
    | BadCutValue(value: string)       // ValueError for a value float() rejects
    | MissingCutCode(name: string)     // no `<name>.f` among the cut bodies

  /** The text of the ValueError `find_marker_position` raises. The string
      literal has no `f` prefix, so its placeholders come out as they stand
      where the marker and the file path were meant to go, and the message
      is the same whichever marker is missing; the error `MarkerNotFound`
      therefore carries nothing. */
  const MarkerMessage: string := IntendedMarkerMessage("{insertion_marker}", "{file_path}")

  const DeclarationMarker: string := "logical function passcuts_user"
  const BodyMarker: string := "USER-DEFINED CUTS"

  /** Lines between the function header and the declaration slot. */
  const DeclarationOffset: nat := 8
  /** Lines between the body marker and the blank line; the bodies go one
      further down. */
  const BodyOffset: nat := 4

  // ---------------------------------------------------------------------
  // find_marker_position

  /** Index of the first line containing `marker`, or the ValueError the
      source raises when no line does. */
  function FindMarker(contents: seq<string>, marker: string): (r: Result<nat, InjectError>)
    ensures r.Ok? ==> r.value < |contents| && Contains(contents[r.value], marker)
    ensures r.Ok? ==> forall j :: 0 <= j < r.value ==> !Contains(contents[j], marker)
    ensures r.Err? <==> forall j :: 0 <= j < |contents| ==> !Contains(contents[j], marker)
    ensures r.Err? ==> r.error == MarkerNotFound
  {
    FindMarkerFrom(contents, marker, 0)
  }

  function FindMarkerFrom(contents: seq<string>, marker: string, i: nat): (r: Result<nat, InjectError>)
    requires i <= |contents|
    ensures r.Ok? ==> i <= r.value < |contents| && Contains(contents[r.value], marker)
    ensures r.Ok? ==> forall j :: i <= j < r.value ==> !Contains(contents[j], marker)
    ensures r.Err? <==> forall j :: i <= j < |contents| ==> !Contains(contents[j], marker)
    ensures r.Err? ==> r.error == MarkerNotFound
    decreases |contents| - i
  {
    if i == |contents| then Err(MarkerNotFound)
    else if Contains(contents[i], marker) then Ok(i)
    else FindMarkerFrom(contents, marker, i + 1)
  }

  /** As written, a failed search reports nothing about what was searched
      for: any two failed searches raise the same error. */
  lemma MarkerErrorIgnoresMarker(c1: seq<string>, m1: string, c2: seq<string>, m2: string)
    requires FindMarker(c1, m1).Err? && FindMarker(c2, m2).Err?
    ensures FindMarker(c1, m1) == FindMarker(c2, m2)
  {
  }

  /** The part of the message before the marker's name. */
  const MarkerMessageHead: string := "Error: could not find insertion marker `"

  /** The message the literal evidently means, with the marker and the file
      path filled in: the marker stands right after the fixed opening. */
  function IntendedMarkerMessage(marker: string, path: string): (msg: string)
    ensures |MarkerMessageHead| + |marker| <= |msg|
    ensures msg[..|MarkerMessageHead|] == MarkerMessageHead
    ensures msg[|MarkerMessageHead|..|MarkerMessageHead| + |marker|] == marker
  {
    var msg := MarkerMessageHead + marker + "` in cut file `" + path + "`";
    assert msg == MarkerMessageHead + (marker + ("` in cut file `" + path + "`"));
    msg
  }

  /** With the intended message the two markers' failures can be told
      apart, whatever the file path, and neither is the message as written. */
  lemma IntendedMarkerMessagesDiffer(path: string)
    ensures IntendedMarkerMessage(DeclarationMarker, path) != IntendedMarkerMessage(BodyMarker, path)
    ensures IntendedMarkerMessage(DeclarationMarker, path) != MarkerMessage
    ensures IntendedMarkerMessage(BodyMarker, path) != MarkerMessage
  {
    var k := |MarkerMessageHead|;
    var a := IntendedMarkerMessage(DeclarationMarker, path);
    var b := IntendedMarkerMessage(BodyMarker, path);
    assert a[k..k + |DeclarationMarker|][0] == 'l';
    assert b[k..k + |BodyMarker|][0] == 'U';
    assert a[k] != b[k];
    var placeholder := "{insertion_marker}";
    assert MarkerMessage[k..k + |placeholder|][0] == '{';
  }

  // ---------------------------------------------------------------------
  // Value rendering

  /** The Fortran spelling of a cut value: the boolean tokens become logical
      literals, anything `float()` accepts gets the double-precision exponent
      `d0` appended to its text, and anything else raises. */
  function RenderCutValue(value: string): Result<string, InjectError>
  {
    if value == "True" then Ok(".true.")
    else if value == "False" then Ok(".false.")
    else if IsFloatLiteral(value) then Ok(value + "d0")
    else Err(BadCutValue(value))
  }

  /** Two different accepted values never render to the same Fortran text,
      and a rendering fails exactly for values that are neither a boolean
      token nor a number. */
  lemma RenderCutValueInjective(v1: string, v2: string)
    requires RenderCutValue(v1).Ok? && RenderCutValue(v2).Ok?
    requires RenderCutValue(v1) == RenderCutValue(v2)
    ensures v1 == v2
  {
    RenderedLastChar(v1);
    RenderedLastChar(v2);
    var r := RenderCutValue(v1).value;
    if v1 != "True" && v1 != "False" {
      assert v1 == r[..|r| - 2];
    }
  }

  /** Logical literals end in a dot, numbers in the exponent digit. */
  lemma RenderedLastChar(v: string)
    requires RenderCutValue(v).Ok?
    ensures var r := RenderCutValue(v).value;
      |r| >= 2 && (r[|r| - 1] == '.' <==> v == "True" || v == "False")
  {
    if v != "True" && v != "False" {
      assert (v + "d0")[|v| + 1] == '0';
    }
  }

  /** Every value the launch-card cut directive admits renders: the
      ValueError branch is unreachable from `run_mc`. */
  lemma DirectiveValuesRender(value: string)
    requires Directives.IsCutValue(value)
    ensures RenderCutValue(value).Ok?
  {
    Directives.CutValueIsBoolOrFloat(value);
  }

  // ---------------------------------------------------------------------
  // Pass 1: variable declarations

  /** `any(i[0].startswith(stem) for i in user_cuts)` */
  predicate Requested(stem: string, cuts: seq<(string, string)>) {
    exists i :: 0 <= i < |cuts| && stem <= cuts[i].0
  }

  /** The declaration snippets requested by the cuts, in directory order. */
  function Selected(cuts: seq<(string, string)>, varFiles: seq<(string, string)>): seq<string>
  {
    if varFiles == [] then []
    else if Requested(varFiles[0].0, cuts) then [varFiles[0].1] + Selected(cuts, varFiles[1..])
    else Selected(cuts, varFiles[1..])
  }

  /** The declaration loop: each requested snippet (`varFiles` holds the
      stem and the text of every file, in directory order) is inserted at
      the same position. */
  function InsertDeclarations(contents: seq<string>, pos: nat, cuts: seq<(string, string)>,
                              varFiles: seq<(string, string)>): seq<string>
    decreases |varFiles|
  {
    if varFiles == [] then contents
    else
      var next := if Requested(varFiles[0].0, cuts) then Insert(contents, pos, varFiles[0].1) else contents;
      InsertDeclarations(next, pos, cuts, varFiles[1..])
  }

  /** Inserting at a fixed position stacks the snippets above one another:
      they end up in reverse directory order at `pos`, and nothing else
      changes. */
  lemma {:induction false} InsertDeclarationsLayout(contents: seq<string>, pos: nat,
                                                    cuts: seq<(string, string)>, varFiles: seq<(string, string)>)
    requires pos <= |contents|
    ensures InsertDeclarations(contents, pos, cuts, varFiles)
      == contents[..pos] + Reverse(Selected(cuts, varFiles)) + contents[pos..]
    decreases |varFiles|
  {
    if varFiles == [] {
      assert contents == contents[..pos] + contents[pos..];
    } else {
      var rest := Selected(cuts, varFiles[1..]);
      if Requested(varFiles[0].0, cuts) {
        var x := varFiles[0].1;
        InsertDeclarationsLayout(Insert(contents, pos, x), pos, cuts, varFiles[1..]);
        InsertThenSplice(contents, pos, x, Reverse(rest));
        assert Reverse([x] + rest) == Reverse(rest) + [x] by {
          ReverseAppend([x], rest);
          assert Reverse([x]) == [x];
        }
      } else {
        InsertDeclarationsLayout(contents, pos, cuts, varFiles[1..]);
      }
    }
  }

  /** The declaration loop inserts exactly the requested snippets, in
      directory order, each at `pos`. */
  lemma {:induction false} DeclarationsInsertSelected(contents: seq<string>, pos: nat,
                                                      cuts: seq<(string, string)>, varFiles: seq<(string, string)>)
    ensures InsertDeclarations(contents, pos, cuts, varFiles) == InsertEach(contents, pos, Selected(cuts, varFiles))
    decreases |varFiles|
  {
    if varFiles != [] {
      if Requested(varFiles[0].0, cuts) {
        var sel := Selected(cuts, varFiles);
        assert sel[0] == varFiles[0].1 && sel[1..] == Selected(cuts, varFiles[1..]);
        DeclarationsInsertSelected(Insert(contents, pos, varFiles[0].1), pos, cuts, varFiles[1..]);
      } else {
        DeclarationsInsertSelected(contents, pos, cuts, varFiles[1..]);
      }
    }
  }

  /** A file with fewer than `pos` lines: `list.insert` appends, so the
      first snippets land at the end in directory order until the file
      reaches `pos` lines, and the rest stack there in reverse. */
  lemma InsertDeclarationsPastEnd(contents: seq<string>, pos: nat,
                                  cuts: seq<(string, string)>, varFiles: seq<(string, string)>)
    requires pos > |contents|
    ensures var sel := Selected(cuts, varFiles);
      var k := if pos - |contents| < |sel| then pos - |contents| else |sel|;
      InsertDeclarations(contents, pos, cuts, varFiles) == contents + sel[..k] + Reverse(sel[k..])
  {
    DeclarationsInsertSelected(contents, pos, cuts, varFiles);
    InsertEachPastEnd(contents, pos, Selected(cuts, varFiles));
  }

  /** With no cuts no snippet is requested. */
  lemma NothingSelectedWithoutCuts(varFiles: seq<(string, string)>)
    ensures Selected([], varFiles) == []
  {
    if varFiles != [] {
      NothingSelectedWithoutCuts(varFiles[1..]);
    }
  }

  /** Pass 1: find the function header, then insert the requested
      declaration snippets eight lines below it. */
  function DeclarationPass(contents: seq<string>, cuts: seq<(string, string)>,
                           varFiles: seq<(string, string)>): Result<seq<string>, InjectError>
  {
    var m :- FindMarker(contents, DeclarationMarker);
    Ok(InsertDeclarations(contents, m + DeclarationOffset, cuts, varFiles))
  }

  // ---------------------------------------------------------------------
  // Pass 2: cut bodies

  /** The rendered body of one cut, or the error its rendering raises. */
  function CutBody(cut: (string, string), code: map<string, CodeTemplate>): Result<string, InjectError>
  {
    var v :- RenderCutValue(cut.1);
    if cut.0 in code then Ok(code[cut.0].Fill(v)) else Err(MissingCutCode(cut.0))
  }

  /** The body loop over `reversed(user_cuts)`: each body is inserted at the
      same position, the first failure aborts. */
  function InsertBodies(contents: seq<string>, pos: nat, pending: seq<(string, string)>,
                        code: map<string, CodeTemplate>): Result<seq<string>, InjectError>
    decreases |pending|
  {
    if pending == [] then Ok(contents)
    else
      var body :- CutBody(pending[0], code);
      InsertBodies(Insert(contents, pos, body), pos, pending[1..], code)
  }

  /** The bodies of all cuts in declaration order, when every one renders;
      otherwise the error of the last cut that fails. */
  function Bodies(cuts: seq<(string, string)>, code: map<string, CodeTemplate>): Result<seq<string>, InjectError>
  {
    if cuts == [] then Ok([])
    else
      var last :- CutBody(cuts[|cuts| - 1], code);
      var rest :- Bodies(cuts[..|cuts| - 1], code);
      Ok(rest + [last])
  }

  /** Inserting the reversed cut list at one position leaves the bodies in
      declaration order. */
  lemma {:induction false} InsertBodiesLayout(contents: seq<string>, pos: nat,
                                              cuts: seq<(string, string)>, code: map<string, CodeTemplate>)
    requires pos <= |contents|
    requires Bodies(cuts, code).Ok?
    ensures InsertBodies(contents, pos, Reverse(cuts), code)
      == Ok(contents[..pos] + Bodies(cuts, code).value + contents[pos..])
    decreases |cuts|
  {
    if cuts == [] {
      assert Reverse(cuts) == [];
      assert InsertBodies(contents, pos, [], code) == Ok(contents);
      assert Bodies(cuts, code) == Ok([]);
      assert contents == contents[..pos] + [] + contents[pos..];
    } else {
      var init := cuts[..|cuts| - 1];
      var last := cuts[|cuts| - 1];
      assert cuts == init + [last];
      ReverseAppend(init, [last]);
      assert Reverse([last]) == [last];
      var rev := Reverse(cuts);
      assert rev[0] == last && rev[1..] == Reverse(init);
      var body := CutBody(last, code).value;
      InsertBodiesLayout(Insert(contents, pos, body), pos, init, code);
      InsertThenSplice(contents, pos, body, Bodies(init, code).value);
    }
  }

  /** The error, if any, is the one the last failing cut raises, since that
      cut is visited first; where the bodies would go does not matter. */
  lemma {:induction false} InsertBodiesFailure(contents: seq<string>, pos: nat,
                                               cuts: seq<(string, string)>, code: map<string, CodeTemplate>)
    requires Bodies(cuts, code).Err?
    ensures InsertBodies(contents, pos, Reverse(cuts), code) == Err(Bodies(cuts, code).error)
    decreases |cuts|
  {
    var init := cuts[..|cuts| - 1];
    var last := cuts[|cuts| - 1];
    assert cuts == init + [last];
    ReverseAppend(init, [last]);
    assert Reverse([last]) == [last];
    var rev := Reverse(cuts);
    assert rev[0] == last && rev[1..] == Reverse(init);
    if CutBody(last, code).Ok? {
      InsertBodiesFailure(Insert(contents, pos, CutBody(last, code).value), pos, init, code);
    }
  }

  /** Pass 2: find the body marker in the document pass 1 produced, insert
      a blank line three lines below it, then the bodies one line further
      down in reverse order. */
  function BodyPass(contents: seq<string>, cuts: seq<(string, string)>,
                    code: map<string, CodeTemplate>): Result<seq<string>, InjectError>
  {
    var m :- FindMarker(contents, BodyMarker);
    var withBlank := Insert(contents, m + BodyOffset - 1, "\n");
    InsertBodies(withBlank, m + BodyOffset, Reverse(cuts), code)
  }

  /** `apply_user_cuts`: both passes over the one in-memory document; the
      file is written only when both succeed. */
  function ApplyUserCuts(contents: seq<string>, cuts: seq<(string, string)>,
                         varFiles: seq<(string, string)>, code: map<string, CodeTemplate>)
    : Result<seq<string>, InjectError>
  {
    var declared :- DeclarationPass(contents, cuts, varFiles);
    BodyPass(declared, cuts, code)
  }

  /** The body pass, when the marker has at least two lines below it: the
      first `m+3` lines are kept, then the blank line, then the bodies in
      declaration order, then the rest of the document. */
  lemma BodyPassLayout(contents: seq<string>, cuts: seq<(string, string)>, code: map<string, CodeTemplate>)
    requires FindMarker(contents, BodyMarker).Ok?
    requires FindMarker(contents, BodyMarker).value + 3 <= |contents|
    requires Bodies(cuts, code).Ok?
    ensures BodyPass(contents, cuts, code)
      == Ok(contents[..FindMarker(contents, BodyMarker).value + 3] + ["\n"]
            + Bodies(cuts, code).value + contents[FindMarker(contents, BodyMarker).value + 3..])
  {
    var m := FindMarker(contents, BodyMarker).value;
    var withBlank := Insert(contents, m + 3, "\n");
    InsertBodiesLayout(withBlank, m + 4, cuts, code);
    assert withBlank[..m + 4] == contents[..m + 3] + ["\n"];
    assert withBlank[m + 4..] == contents[m + 3..];
  }

  /** A cut that fails to render aborts the body pass with that cut's
      error; nothing is written. */
  lemma BodyPassFailure(contents: seq<string>, cuts: seq<(string, string)>, code: map<string, CodeTemplate>)
    requires FindMarker(contents, BodyMarker).Ok?
    requires Bodies(cuts, code).Err?
    ensures BodyPass(contents, cuts, code) == Err(Bodies(cuts, code).error)
  {
    var m := FindMarker(contents, BodyMarker).value;
    var withBlank := Insert(contents, m + BodyOffset - 1, "\n");
    InsertBodiesFailure(withBlank, m + BodyOffset, cuts, code);
    assert BodyPass(contents, cuts, code) == InsertBodies(withBlank, m + BodyOffset, Reverse(cuts), code);
  }

  /** With no cuts the document only gains one blank line, three lines
      below the body marker. */
  lemma NoCutsAddsBlankLine(contents: seq<string>, varFiles: seq<(string, string)>, code: map<string, CodeTemplate>)
    requires FindMarker(contents, DeclarationMarker).Ok?
    requires FindMarker(contents, BodyMarker).Ok?
    ensures ApplyUserCuts(contents, [], varFiles, code)
      == Ok(Insert(contents, FindMarker(contents, BodyMarker).value + 3, "\n"))
  {
    var m := FindMarker(contents, BodyMarker).value;
    assert DeclarationPass(contents, [], varFiles) == Ok(contents) by {
      var d := FindMarker(contents, DeclarationMarker).value;
      NoDeclarationsWithoutCuts(contents, d + DeclarationOffset, varFiles);
    }
    assert BodyPass(contents, [], code) == Ok(Insert(contents, m + 3, "\n")) by {
      assert Reverse<(string, string)>([]) == [];
    }
  }

  lemma {:induction false} NoDeclarationsWithoutCuts(contents: seq<string>, pos: nat, varFiles: seq<(string, string)>)
    ensures InsertDeclarations(contents, pos, [], varFiles) == contents
    decreases |varFiles|
  {
    if varFiles != [] {
      NoDeclarationsWithoutCuts(contents, pos, varFiles[1..]);
    }
  }

  /** The first line holding the marker is the one `find_marker_position`
      returns. */
  lemma FindMarkerAt(contents: seq<string>, marker: string, i: nat)
    requires i < |contents| && Contains(contents[i], marker)
    requires forall j :: 0 <= j < i ==> !Contains(contents[j], marker)
    ensures FindMarker(contents, marker) == Ok(i)
  {
  }

  /** Both passes on a file laid out as `cuts.f` is: the function header
      at `h` and the body marker at `m` lie at least 8 lines apart, the body
      marker has at least two lines under it, and no requested declaration
      mentions it. The declarations go, in reverse listing order, 8 lines
      below the header; the body marker moves down by their number; the
      blank line and then the bodies in scan order follow 3 lines below it. */
  lemma ApplyUserCutsLayout(contents: seq<string>, cuts: seq<(string, string)>,
                            varFiles: seq<(string, string)>, code: map<string, CodeTemplate>, h: nat, m: nat)
    requires FindMarker(contents, DeclarationMarker) == Ok(h) && FindMarker(contents, BodyMarker) == Ok(m)
    requires h + DeclarationOffset <= m && m + 3 <= |contents|
    requires forall i :: 0 <= i < |Selected(cuts, varFiles)| ==> !Contains(Selected(cuts, varFiles)[i], BodyMarker)
    requires Bodies(cuts, code).Ok?
    ensures ApplyUserCuts(contents, cuts, varFiles, code)
      == Ok(contents[..h + DeclarationOffset] + Reverse(Selected(cuts, varFiles)) + contents[h + DeclarationOffset..m + 3]
            + ["\n"] + Bodies(cuts, code).value + contents[m + 3..])
  {
    DeclarationPassLayout(contents, cuts, varFiles);
    ReverseAvoids(Selected(cuts, varFiles), BodyMarker);
    SplicedPasses(contents, cuts, varFiles, code, h + DeclarationOffset, Reverse(Selected(cuts, varFiles)), m);
  }

  /** When the declaration pass splices marker-free lines in above the body
      marker, the injection keeps them and adds the body block below the
      moved marker. */
  lemma SplicedPasses(contents: seq<string>, cuts: seq<(string, string)>, varFiles: seq<(string, string)>,
                      code: map<string, CodeTemplate>, d: nat, r: seq<string>, m: nat)
    requires d <= m && m + 3 <= |contents| && FindMarker(contents, BodyMarker) == Ok(m)
    requires DeclarationPass(contents, cuts, varFiles) == Ok(contents[..d] + r + contents[d..])
    requires forall i :: 0 <= i < |r| ==> !Contains(r[i], BodyMarker)
    requires Bodies(cuts, code).Ok?
    ensures ApplyUserCuts(contents, cuts, varFiles, code)
      == Ok(contents[..d] + r + contents[d..m + 3] + ["\n"] + Bodies(cuts, code).value + contents[m + 3..])
  {
    BodyPassSpliced(contents, d, r, m, cuts, code);
  }

  /** The declaration pass on a file with room below the function header. */
  lemma DeclarationPassLayout(contents: seq<string>, cuts: seq<(string, string)>, varFiles: seq<(string, string)>)
    requires FindMarker(contents, DeclarationMarker).Ok?
    requires FindMarker(contents, DeclarationMarker).value + DeclarationOffset <= |contents|
    ensures var d := FindMarker(contents, DeclarationMarker).value + DeclarationOffset;
      DeclarationPass(contents, cuts, varFiles) == Ok(contents[..d] + Reverse(Selected(cuts, varFiles)) + contents[d..])
  {
    InsertDeclarationsLayout(contents, FindMarker(contents, DeclarationMarker).value + DeclarationOffset, cuts, varFiles);
  }

  /** The body pass on a document with marker-free lines spliced in above
      its body marker. */
  lemma BodyPassSpliced(contents: seq<string>, d: nat, r: seq<string>, m: nat,
                        cuts: seq<(string, string)>, code: map<string, CodeTemplate>)
    requires d <= m && m + 3 <= |contents| && FindMarker(contents, BodyMarker) == Ok(m)
    requires forall i :: 0 <= i < |r| ==> !Contains(r[i], BodyMarker)
    requires Bodies(cuts, code).Ok?
    ensures BodyPass(contents[..d] + r + contents[d..], cuts, code)
      == Ok(contents[..d] + r + contents[d..m + 3] + ["\n"] + Bodies(cuts, code).value + contents[m + 3..])
  {
    var declared := contents[..d] + r + contents[d..];
    SplicedMarker(contents, d, r, m);
    BodyPassLayout(declared, cuts, code);
    SplicedHalves(contents, d, r, m + 3);
  }

  /** Lines free of the marker stay free of it in reverse order. */
  lemma ReverseAvoids(xs: seq<string>, marker: string)
    requires forall i :: 0 <= i < |xs| ==> !Contains(xs[i], marker)
    ensures forall i :: 0 <= i < |xs| ==> !Contains(Reverse(xs)[i], marker)
  {
    forall i | 0 <= i < |xs| ensures !Contains(Reverse(xs)[i], marker) {
      assert Reverse(xs)[i] == xs[|xs| - 1 - i];
    }
  }


  /** Splicing lines that do not mention the marker in above the first
      marker line moves that line down by their number. */
  lemma SplicedMarker(contents: seq<string>, d: nat, r: seq<string>, m: nat)
    requires d <= m < |contents| && FindMarker(contents, BodyMarker) == Ok(m)
    requires forall i :: 0 <= i < |r| ==> !Contains(r[i], BodyMarker)
    ensures FindMarker(contents[..d] + r + contents[d..], BodyMarker) == Ok(m + |r|)
  {
    var spliced := contents[..d] + r + contents[d..];
    forall j | 0 <= j < m + |r| ensures !Contains(spliced[j], BodyMarker) {
      if j < d {
        assert spliced[j] == contents[j];
      } else if j < d + |r| {
        assert spliced[j] == r[j - d];
      } else {
        assert spliced[j] == contents[j - |r|];
      }
    }
    assert spliced[m + |r|] == contents[m];
    FindMarkerAt(spliced, BodyMarker, m + |r|);
  }

  /** Cutting a spliced document below the splice. */
  lemma SplicedHalves<T>(contents: seq<T>, d: nat, r: seq<T>, b: nat)
    requires d <= b <= |contents|
    ensures (contents[..d] + r + contents[d..])[..b + |r|] == contents[..d] + r + contents[d..b]
    ensures (contents[..d] + r + contents[d..])[b + |r|..] == contents[b..]
  {
  }


  /** Either marker missing is a failure, with the same message for both. */
  lemma MissingMarkerFails(contents: seq<string>, cuts: seq<(string, string)>,
                           varFiles: seq<(string, string)>, code: map<string, CodeTemplate>)
    ensures FindMarker(contents, DeclarationMarker).Err? ==>
      ApplyUserCuts(contents, cuts, varFiles, code) == Err(MarkerNotFound)
    ensures (DeclarationPass(contents, cuts, varFiles).Ok?
             && FindMarker(DeclarationPass(contents, cuts, varFiles).value, BodyMarker).Err?) ==>
      ApplyUserCuts(contents, cuts, varFiles, code) == Err(MarkerNotFound)
  {
  }
}
