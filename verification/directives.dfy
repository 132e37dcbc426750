/** The directive scans of `run_mc` (run/external/mg5.py): user-defined
    cuts, the user-defined minimum tau, and the enable-patch list. Each scan
    walks the lines of the rendered launch card in document order and keeps
    the lines that a regular expression matches in full. */
module Directives {
  import opened Common
  import opened Text
  import opened FloatSyntax

  // ---------------------------------------------------------------------
  // #user_defined_cut set <name> = <value>

  const CutPrefix: string := "#user_defined_cut set "

  /** `[+-]?\d+(?:\.\d+)?` */
  predicate IsSignedDecimal(v: string) {
    var u := Unsigned(v);
    var d := IndexOf(u, '.');
    && AllDigits(u[..d]) && |u[..d]| > 0
    && (d == |u| || (|u[d + 1..]| > 0 && AllDigits(u[d + 1..])))
  }

  predicate AllDigits(s: string) { forall i :: 0 <= i < |s| ==> IsDigit(s[i]) }
  predicate AllWord(s: string) { forall i :: 0 <= i < |s| ==> IsWordChar(s[i]) }
  predicate AllSpace(s: string) { forall i :: 0 <= i < |s| ==> IsSpace(s[i]) }

  /** The value alternatives of the cut directive:
      `[+-]?\d+(?:\.\d+)?|True|False`. */
  predicate IsCutValue(v: string) {
    v == "True" || v == "False" || IsSignedDecimal(v)
  }

  /** Length of the longest prefix made of word characters. */
  function WordRun(s: string): (n: nat)
    ensures n <= |s|
    ensures AllWord(s[..n])
    ensures n < |s| ==> !IsWordChar(s[n])
    decreases |s|
  {
    if |s| > 0 && IsWordChar(s[0]) then 1 + WordRun(s[1..]) else 0
  }

  /** Length of the longest prefix made of whitespace. */
  function SpaceRun(s: string): (n: nat)
    ensures n <= |s|
    ensures AllSpace(s[..n])
    ensures n < |s| ==> !IsSpace(s[n])
    decreases |s|
  {
    if |s| > 0 && IsSpace(s[0]) then 1 + SpaceRun(s[1..]) else 0
  }

  /** `re.fullmatch` of
      `^#user_defined_cut set (\w+)\s+=\s+([+-]?\d+(?:\.\d+)?|True|False)$`
      against one line, returning the two groups. */
  function ParseCutLine(line: string): Option<(string, string)>
  {
    if CutPrefix <= line then ParseCutBody(line[|CutPrefix|..]) else None
  }

  /** `(\w+)` followed by the assignment. The name is the longest word run:
      a shorter one would leave a word character where `\s+` must start. */
  function ParseCutBody(rest: string): Option<(string, string)>
  {
    var n := WordRun(rest);
    if n == 0 then None
    else
      match ParseAssignment(rest[n..])
      case None => None
      case Some(v) => Some((rest[..n], v))
  }

  /** `\s+=\s+(value)` up to the end of the line. */
  function ParseAssignment(s: string): Option<string>
  {
    var w1 := SpaceRun(s);
    if w1 == 0 || w1 == |s| || s[w1] != '=' then None
    else
      var t := s[w1 + 1..];
      var w2 := SpaceRun(t);
      if w2 == 0 || !IsCutValue(t[w2..]) then None else Some(t[w2..])
  }

  /** The assignment part of the grammar, as a decomposition. */
  ghost predicate Assignment(s: string, ws1: string, ws2: string, value: string) {
    && s == ws1 + "=" + ws2 + value
    && |ws1| > 0 && AllSpace(ws1)
    && |ws2| > 0 && AllSpace(ws2)
    && IsCutValue(value)
  }

  /** What follows the prefix: a word name, whitespace, `=`, whitespace
      and a value, up to the end of the line. */
  ghost predicate CutBody(rest: string, name: string, ws1: string, ws2: string, value: string) {
    && rest == name + (ws1 + "=" + ws2 + value)
    && |name| > 0 && AllWord(name)
    && Assignment(ws1 + "=" + ws2 + value, ws1, ws2, value)
  }

  /** The grammar of the cut directive, stated as a decomposition of the
      line: the reference the parser is proved against. */
  ghost predicate CutDirective(line: string, name: string, ws1: string, ws2: string, value: string) {
    CutPrefix <= line && CutBody(line[|CutPrefix|..], name, ws1, ws2, value)
  }

  lemma ParseAssignmentSound(s: string) returns (ws1: string, ws2: string)
    requires ParseAssignment(s).Some?
    ensures Assignment(s, ws1, ws2, ParseAssignment(s).value)
  {
    var w1 := SpaceRun(s);
    var t := s[w1 + 1..];
    var w2 := SpaceRun(t);
    var value := ParseAssignment(s).value;
    assert 0 < w1 < |s| && s[w1] == '=' && 0 < w2 && value == t[w2..] && IsCutValue(value);
    SplitAround(s, w1, w2);
    ws1, ws2 := s[..w1], t[..w2];
  }

  /** A string cut around its character `i` and again `j` characters
      later. */
  lemma SplitAround(s: string, i: nat, j: nat)
    requires i < |s| && j <= |s| - i - 1
    ensures s == s[..i] + [s[i]] + s[i + 1..][..j] + s[i + 1..][j..]
  {
    assert s[i + 1..] == s[i + 1..][..j] + s[i + 1..][j..];
    assert s == s[..i] + [s[i]] + s[i + 1..];
  }

  /** Whatever the parser returns is a grammatical directive. */
  lemma ParseCutLineSound(line: string, name: string, value: string)
    requires ParseCutLine(line) == Some((name, value))
    ensures exists ws1, ws2 :: CutDirective(line, name, ws1, ws2, value)
  {
    var ws1, ws2 := ParseCutBodySound(line[|CutPrefix|..], name, value);
    assert CutDirective(line, name, ws1, ws2, value);
  }

  lemma ParseCutBodySound(rest: string, name: string, value: string) returns (ws1: string, ws2: string)
    requires ParseCutBody(rest) == Some((name, value))
    ensures CutBody(rest, name, ws1, ws2, value)
  {
    var n := WordRun(rest);
    var s := rest[n..];
    assert n > 0 && name == rest[..n] && ParseAssignment(s) == Some(value);
    assert rest == name + s;
    ws1, ws2 := ParseAssignmentSound(s);
    CutBodyOf(rest, name, s, ws1, ws2, value);
  }

  lemma CutBodyOf(rest: string, name: string, s: string, ws1: string, ws2: string, value: string)
    requires rest == name + s && |name| > 0 && AllWord(name)
    requires Assignment(s, ws1, ws2, value)
    ensures CutBody(rest, name, ws1, ws2, value)
  {
  }

  lemma WordRunOf(name: string, tail: string)
    requires AllWord(name)
    requires |tail| > 0 && !IsWordChar(tail[0])
    ensures WordRun(name + tail) == |name|
    decreases |name|
  {
    if |name| > 0 {
      assert (name + tail)[1..] == name[1..] + tail;
      WordRunOf(name[1..], tail);
    }
  }

  lemma SpaceRunOf(ws: string, tail: string)
    requires AllSpace(ws)
    requires |tail| > 0 && !IsSpace(tail[0])
    ensures SpaceRun(ws + tail) == |ws|
    decreases |ws|
  {
    if |ws| > 0 {
      assert (ws + tail)[1..] == ws[1..] + tail;
      SpaceRunOf(ws[1..], tail);
    }
  }

  /** A signed decimal starts with a sign or a digit. */
  lemma SignedDecimalStart(v: string)
    requires IsSignedDecimal(v)
    ensures |v| > 0 && (v[0] == '+' || v[0] == '-' || IsDigit(v[0]))
  {
    var u := Unsigned(v);
    var d := IndexOf(u, '.');
    assert u[..d][0] == u[0];
  }

  /** A cut value never starts with whitespace. */
  lemma CutValueStart(v: string)
    requires IsCutValue(v)
    ensures |v| > 0 && !IsSpace(v[0])
  {
    if v == "True" || v == "False" {
    } else {
      SignedDecimalStart(v);
    }
  }

  lemma ParseAssignmentComplete(ws1: string, ws2: string, value: string)
    requires Assignment(ws1 + "=" + ws2 + value, ws1, ws2, value)
    ensures ParseAssignment(ws1 + "=" + ws2 + value) == Some(value)
  {
    CutValueStart(value);
    AssignmentPieces(ws1, ws2, value);
    SpaceRunOf(ws1, "=" + ws2 + value);
    SpaceRunOf(ws2, value);
  }

  lemma AssignmentPieces(ws1: string, ws2: string, value: string)
    ensures var s := ws1 + "=" + ws2 + value;
      s == ws1 + ("=" + ws2 + value) && s[|ws1|] == '='
      && s[|ws1| + 1..] == ws2 + value && (ws2 + value)[|ws2|..] == value
  {
  }

  /** Every grammatical directive is recognised, with its own name and
      value: the regular expression and the parser agree in both
      directions. */
  lemma ParseCutLineComplete(line: string, name: string, ws1: string, ws2: string, value: string)
    requires CutDirective(line, name, ws1, ws2, value)
    ensures ParseCutLine(line) == Some((name, value))
  {
    ParseCutBodyComplete(line[|CutPrefix|..], name, ws1, ws2, value);
  }

  lemma ParseCutBodyComplete(rest: string, name: string, ws1: string, ws2: string, value: string)
    requires CutBody(rest, name, ws1, ws2, value)
    ensures ParseCutBody(rest) == Some((name, value))
  {
    var s := ws1 + "=" + ws2 + value;
    assert s[0] == ws1[0];
    WordRunOf(name, s);
    assert rest[|name|..] == s;
    assert rest[..|name|] == name;
    ParseAssignmentComplete(ws1, ws2, value);
  }

  /** `user_cuts`: the (name, value) pairs of the matching lines, in
      document order. */
  function ScanCuts(lines: seq<string>): (cuts: seq<(string, string)>)
    ensures |cuts| <= |lines|
  {
    if lines == [] then []
    else
      match ParseCutLine(lines[0])
      case Some(c) => [c] + ScanCuts(lines[1..])
      case None => ScanCuts(lines[1..])
  }

  /** The scan distributes over concatenation of documents, so the cuts
      come out in the order their lines appear. */
  lemma {:induction false} ScanCutsAppend(a: seq<string>, b: seq<string>)
    ensures ScanCuts(a + b) == ScanCuts(a) + ScanCuts(b)
    decreases |a|
  {
    if a == [] {
      assert a + b == b;
    } else {
      assert (a + b)[0] == a[0];
      assert (a + b)[1..] == a[1..] + b;
      ScanCutsAppend(a[1..], b);
    }
  }

  /** Every scanned cut comes from a matching line, and its value is one the
      directive grammar admits. */
  lemma {:induction false} ScanCutsFromLines(lines: seq<string>)
    ensures forall c :: c in ScanCuts(lines) ==>
      IsCutValue(c.1) && exists i :: 0 <= i < |lines| && ParseCutLine(lines[i]) == Some(c)
  {
    if lines != [] {
      ScanCutsFromLines(lines[1..]);
      forall c | c in ScanCuts(lines)
        ensures IsCutValue(c.1) && exists i :: 0 <= i < |lines| && ParseCutLine(lines[i]) == Some(c)
      {
        if ParseCutLine(lines[0]) == Some(c) {
        } else {
          assert c in ScanCuts(lines[1..]);
          var i :| 0 <= i < |lines[1..]| && ParseCutLine(lines[1..][i]) == Some(c);
          assert lines[i + 1] == lines[1..][i];
        }
      }
    }
  }

  /** A signed decimal, the numeric alternative of the cut grammar, is a
      string `float()` accepts. */
  lemma SignedDecimalIsFloatLiteral(v: string)
    requires IsSignedDecimal(v)
    ensures IsFloatLiteral(v)
  {
    var u := Unsigned(v);
    var sign := v[..|v| - |u|];
    assert v == sign + u && (sign == "" || sign == "+" || sign == "-") by {
      UnsignedSign(v);
    }
    assert |u| > 0 && IsDigit(u[0]) && IsDigit(u[|u| - 1]) && IsNumeral(u) by {
      DecimalNumeral(u, IndexOf(u, '.'));
    }
    SignedNumeralIsFloat(sign, u);
  }

  /** A string is its dropped sign, if any, followed by the unsigned rest. */
  lemma UnsignedSign(v: string)
    ensures var u := Unsigned(v); var sign := v[..|v| - |u|];
      v == sign + u && (sign == "" || sign == "+" || sign == "-")
  {
    if |v| > 0 && (v[0] == '+' || v[0] == '-') {
      assert v[..1] == [v[0]];
    }
  }

  /** Digits, optionally followed by a point and more digits, form a
      numeral that starts and ends with a digit. */
  lemma DecimalNumeral(u: string, d: nat)
    requires d == IndexOf(u, '.')
    requires AllDigits(u[..d]) && |u[..d]| > 0
    requires d == |u| || (|u[d + 1..]| > 0 && AllDigits(u[d + 1..]))
    ensures |u| > 0 && IsDigit(u[0]) && IsDigit(u[|u| - 1]) && IsNumeral(u)
  {
    var whole := u[..d];
    var frac := if d == |u| then "" else u[d + 1..];
    PointSplit(u, d);
    assert IsDigit(whole[0]);
    DecimalIsNumeral(whole, frac);
  }

  /** Cutting a string at a point, or at its end, and putting it back. */
  lemma PointSplit(u: string, d: nat)
    requires d == |u| || (d + 1 < |u| && u[d] == '.')
    ensures var frac := if d == |u| then "" else u[d + 1..];
      u == u[..d] + (if frac == "" then "" else "." + frac)
  {
    if d < |u| {
      assert u == u[..d] + [u[d]] + u[d + 1..];
    }
  }

  /** Every value the cut grammar admits is either a boolean token or a
      string `float()` accepts. */
  lemma CutValueIsBoolOrFloat(v: string)
    requires IsCutValue(v)
    ensures v == "True" || v == "False" || IsFloatLiteral(v)
  {
    if v != "True" && v != "False" {
      SignedDecimalIsFloatLiteral(v);
    }
  }

  // ---------------------------------------------------------------------
  // #user_defined_tau_min <value>

  const TauMinPrefix: string := "#user_defined_tau_min "

  /** `re.fullmatch` of `^#user_defined_tau_min (.*)`: the group is the
      rest of the line, which `.` lets hold anything but a newline. */
  function TauMinArg(line: string): (arg: Option<string>)
    ensures arg.Some? ==> line == TauMinPrefix + arg.value
  {
    if TauMinPrefix <= line && '\n' !in line[|TauMinPrefix|..] then
      Some(line[|TauMinPrefix|..])
    else None
  }

  /** The arguments of every tau-min line, in document order. */
  function TauMinArgs(lines: seq<string>): (args: seq<string>)
    ensures |args| <= |lines|
  {
    if lines == [] then []
    else
      match TauMinArg(lines[0])
      case Some(a) => [a] + TauMinArgs(lines[1..])
      case None => TauMinArgs(lines[1..])
  }

  datatype DirectiveError = TauMinNotANumber(arg: string)

  /** The tau-min loop: every matching line's argument goes through
      `float()`, the first that fails raises ValueError, and the last
      matching line's value is the one kept. The value is kept as its
      literal. */
  function ScanTauMin(lines: seq<string>): Result<Option<string>, DirectiveError>
  {
    ScanTauMinFrom(lines, None)
  }

  function ScanTauMinFrom(lines: seq<string>, current: Option<string>): Result<Option<string>, DirectiveError>
    decreases |lines|
  {
    if lines == [] then Ok(current)
    else
      match TauMinArg(lines[0])
      case None => ScanTauMinFrom(lines[1..], current)
      case Some(a) =>
        if IsFloatLiteral(a) then ScanTauMinFrom(lines[1..], Some(a))
        else Err(TauMinNotANumber(a))
  }

  /** The first argument `float()` rejects, if any. */
  function FirstNonNumber(args: seq<string>): Option<string>
  {
    if args == [] then None
    else if !IsFloatLiteral(args[0]) then Some(args[0])
    else FirstNonNumber(args[1..])
  }

  /** The tau-min scan in terms of the list of arguments: it raises on the
      first non-number, yields nothing when no line matches, and otherwise
      the last argument wins. */
  lemma TauMinLastWins(lines: seq<string>)
    ensures FirstNonNumber(TauMinArgs(lines)).Some? ==>
      ScanTauMin(lines) == Err(TauMinNotANumber(FirstNonNumber(TauMinArgs(lines)).value))
    ensures FirstNonNumber(TauMinArgs(lines)).None? && TauMinArgs(lines) == [] ==>
      ScanTauMin(lines) == Ok(None)
    ensures FirstNonNumber(TauMinArgs(lines)).None? && TauMinArgs(lines) != [] ==>
      ScanTauMin(lines) == Ok(Some(TauMinArgs(lines)[|TauMinArgs(lines)| - 1]))
  {
    TauMinFromSpec(lines, None);
  }

  lemma {:induction false} TauMinFromSpec(lines: seq<string>, current: Option<string>)
    ensures FirstNonNumber(TauMinArgs(lines)).Some? ==>
      ScanTauMinFrom(lines, current) == Err(TauMinNotANumber(FirstNonNumber(TauMinArgs(lines)).value))
    ensures FirstNonNumber(TauMinArgs(lines)).None? && TauMinArgs(lines) == [] ==>
      ScanTauMinFrom(lines, current) == Ok(current)
    ensures FirstNonNumber(TauMinArgs(lines)).None? && TauMinArgs(lines) != [] ==>
      ScanTauMinFrom(lines, current) == Ok(Some(TauMinArgs(lines)[|TauMinArgs(lines)| - 1]))
    decreases |lines|
  {
    if lines != [] {
      match TauMinArg(lines[0])
      case None =>
        TauMinFromSpec(lines[1..], current);
      case Some(a) =>
        var rest := TauMinArgs(lines[1..]);
        assert TauMinArgs(lines) == [a] + rest;
        assert ([a] + rest)[1..] == rest;
        if IsFloatLiteral(a) {
          TauMinFromSpec(lines[1..], Some(a));
        }
    }
  }

  // ---------------------------------------------------------------------
  // #enable_patch <identifier>

  const EnablePatchPrefix: string := "#enable_patch "

  /** The enable-patch pattern `^#enable_patch (.*)`. The source compiles
      it but never uses it. */
  function EnablePatchArg(line: string): Option<string>
  {
    if EnablePatchPrefix <= line && '\n' !in line[|EnablePatchPrefix|..] then
      Some(line[|EnablePatchPrefix|..])
    else None
  }

  /** `enable_patches_list`: the loop matches every line against the
      tau-min pattern rather than the enable-patch one, so the list is the
      tau-min argument list. */
  function EnablePatchList(lines: seq<string>): seq<string>
  {
    TauMinArgs(lines)
  }

  /** An `#enable_patch` line never matches the pattern the enable-patch
      loop uses, so it never contributes to the list. */
  lemma EnablePatchLineIgnored(line: string)
    requires EnablePatchArg(line).Some?
    ensures TauMinArg(line).None?
  {
    assert line[1] == EnablePatchPrefix[1];
  }

  /** Adding `#enable_patch` lines anywhere leaves the list unchanged. */
  lemma {:induction false} EnablePatchLinesDoNotCount(before: seq<string>, line: string, after: seq<string>)
    requires EnablePatchArg(line).Some?
    ensures EnablePatchList(before + [line] + after) == EnablePatchList(before + after)
    decreases |before|
  {
    EnablePatchLineIgnored(line);
    if before == [] {
      assert before + [line] + after == [line] + after;
      assert ([line] + after)[1..] == after;
      assert before + after == after;
    } else {
      assert (before + [line] + after)[0] == before[0];
      assert (before + [line] + after)[1..] == before[1..] + [line] + after;
      assert (before + after)[0] == before[0];
      assert (before + after)[1..] == before[1..] + after;
      EnablePatchLinesDoNotCount(before[1..], line, after);
    }
  }
}
