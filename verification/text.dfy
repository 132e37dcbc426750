/** Text primitives with the semantics of the Python built-ins the
    injection layer relies on: substring search, `str.replace`,
    `str.split`/`str.join` with an explicit separator, `str.splitlines`,
    `list.insert`, Python's whitespace, and the ASCII parts of the
    regular-expression classes `\w` and `\d`. */
module Text {
  import opened Common

  // ---------------------------------------------------------------------
  // Character classes

  predicate IsDigit(c: char) { '0' <= c <= '9' }

  /** `\w` restricted to ASCII: letters, digits and underscore. */
  predicate IsWordChar(c: char) {
    ('a' <= c <= 'z') || ('A' <= c <= 'Z') || IsDigit(c) || c == '_'
  }

  /** Python's whitespace (`str.isspace`): the set `\s`, `str.strip()`,
      `str.split()` and `float()` all use. Besides space and tab through
      carriage return it holds the separators U+1C to U+1F and the Unicode
      spaces. */
  predicate IsSpace(c: char) {
    c == ' ' || ('\t' <= c <= '\r') || ('\U{1C}' <= c <= '\U{1F}') || c == '\U{85}' || c == '\U{A0}'
      || c == '\U{1680}' || ('\U{2000}' <= c <= '\U{200A}') || c == '\U{2028}' || c == '\U{2029}'
      || c == '\U{202F}' || c == '\U{205F}' || c == '\U{3000}'
  }

  /** The characters `str.splitlines` treats as line boundaries. */
  predicate IsLineBreak(c: char) {
    c == '\n' || c == '\r' || c == '\U{0B}' || c == '\U{0C}'
    || c == '\U{1C}' || c == '\U{1D}' || c == '\U{1E}'
    || c == '\U{85}' || c == '\U{2028}' || c == '\U{2029}'
  }

  // ---------------------------------------------------------------------
  // Substring search (Python's `p in s`)

  /** True when `p` occurs in `s` at position `i`. */
  predicate OccursAt(s: string, p: string, i: nat) {
    i + |p| <= |s| && s[i..i + |p|] == p
  }

  /** Python's `p in s`, scanning left to right. */
  predicate Contains(s: string, p: string)
    decreases |s|
  {
    p <= s || (|s| > 0 && Contains(s[1..], p))
  }

  /** `p in s` is true exactly when `p` occurs at some index of `s`. */
  lemma ContainsIffOccurs(s: string, p: string)
    ensures Contains(s, p) <==> exists i: nat :: OccursAt(s, p, i)
  {
    if Contains(s, p) {
      var i := ContainsWitness(s, p);
    }
    forall i: nat | OccursAt(s, p, i)
      ensures Contains(s, p)
    {
      OccursContains(s, p, i);
    }
  }

  /** The index of the occurrence the left-to-right scan finds. */
  lemma {:induction false} ContainsWitness(s: string, p: string) returns (i: nat)
    requires Contains(s, p)
    ensures OccursAt(s, p, i)
    decreases |s|
  {
    if p <= s {
      i := 0;
    } else {
      var j := ContainsWitness(s[1..], p);
      assert s[1..][j..j + |p|] == s[j + 1..j + 1 + |p|];
      i := j + 1;
    }
  }

  /** An occurrence at any index is found by the scan. */
  lemma {:induction false} OccursContains(s: string, p: string, i: nat)
    requires OccursAt(s, p, i)
    ensures Contains(s, p)
    decreases i
  {
    if i == 0 {
      assert p <= s;
    } else {
      assert s[1..][i - 1..i - 1 + |p|] == s[i..i + |p|];
      OccursContains(s[1..], p, i - 1);
    }
  }

  /** A string that starts with `p` contains it. */
  lemma PrefixContained(s: string, p: string)
    requires p <= s
    ensures Contains(s, p)
  {
  }

  // ---------------------------------------------------------------------
  // str.replace, str.split(sep) and sep.join(parts)

  /** Python's `s.replace(p, r)` for a non-empty pattern: every leftmost,
      non-overlapping occurrence of `p` is replaced by `r`. */
  function Replace(s: string, p: string, r: string): string
    requires |p| > 0
    decreases |s|
  {
    if |s| == 0 then ""
    else if p <= s then r + Replace(s[|p|..], p, r)
    else [s[0]] + Replace(s[1..], p, r)
  }

  /** Python's `s.split(p)` for a non-empty separator. */
  function Split(s: string, p: string): (parts: seq<string>)
    requires |p| > 0
    ensures |parts| >= 1
    decreases |s|
  {
    if |s| == 0 then [""]
    else if p <= s then [""] + Split(s[|p|..], p)
    else
      var rest := Split(s[1..], p);
      [[s[0]] + rest[0]] + rest[1..]
  }

  /** A separator character that does not occur leaves the text whole. */
  lemma {:induction false} SplitWithout(s: string, c: char)
    requires c !in s
    ensures Split(s, [c]) == [s]
  {
    if s != [] {
      SplitWithout(s[1..], c);
      assert [s[0]] + s[1..] == s;
    }
  }

  /** One occurrence of the separator character splits the text in two. */
  lemma {:induction false} SplitAtOnly(k: string, c: char, v: string)
    requires c !in k && c !in v
    ensures Split(k + [c] + v, [c]) == [k, v]
    decreases |k|
  {
    var s := k + [c] + v;
    if k == [] {
      assert s == [c] + v;
      assert [c] <= s;
      assert s[1..] == v;
      SplitWithout(v, c);
    } else {
      assert s[0] == k[0];
      assert s[1..] == k[1..] + [c] + v;
      SplitAtOnly(k[1..], c, v);
      assert [k[0]] + k[1..] == k;
    }
  }

  /** The number of occurrences of `c` in `s`. */
  function CountChar(s: string, c: char): nat
  {
    if s == [] then 0 else (if s[0] == c then 1 else 0) + CountChar(s[1..], c)
  }

  /** Splitting at a character yields one piece more than it has
      occurrences. */
  lemma {:induction false} SplitCount(s: string, c: char)
    ensures |Split(s, [c])| == CountChar(s, c) + 1
  {
    if s != [] {
      SplitCount(s[1..], c);
      if [c] <= s {
        assert s[1..] == s[|[c]|..];
      }
    }
  }

  lemma {:induction false} CountCharZero(s: string, c: char)
    ensures CountChar(s, c) == 0 <==> c !in s
  {
    if s != [] {
      CountCharZero(s[1..], c);
      assert s == [s[0]] + s[1..];
    }
  }

  /** Python's `sep.join(parts)`. */
  function Join(parts: seq<string>, sep: string): string
  {
    if |parts| == 0 then ""
    else if |parts| == 1 then parts[0]
    else parts[0] + sep + Join(parts[1..], sep)
  }

  lemma JoinConsHead(c: char, parts: seq<string>, sep: string)
    requires |parts| >= 1
    ensures Join([[c] + parts[0]] + parts[1..], sep) == [c] + Join(parts, sep)
  {
    var q := [[c] + parts[0]] + parts[1..];
    if |parts| > 1 {
      assert q[1..] == parts[1..];
    }
  }

  /** `replace` is `split` followed by `join`: the independent
      characterisation of the replacement. */
  lemma {:induction false} ReplaceIsJoinSplit(s: string, p: string, r: string)
    requires |p| > 0
    ensures Replace(s, p, r) == Join(Split(s, p), r)
    decreases |s|
  {
    if |s| == 0 {
    } else if p <= s {
      ReplaceIsJoinSplit(s[|p|..], p, r);
      var rest := Split(s[|p|..], p);
      assert Split(s, p) == [""] + rest;
      assert ([""] + rest)[1..] == rest;
    } else {
      ReplaceIsJoinSplit(s[1..], p, r);
      JoinConsHead(s[0], Split(s[1..], p), r);
      assert [s[0]] + s[1..] == s;
    }
  }

  /** Joining the pieces with the separator gives back the original text. */
  lemma {:induction false} SplitJoinRoundTrip(s: string, p: string)
    requires |p| > 0
    ensures Join(Split(s, p), p) == s
    decreases |s|
  {
    if |s| == 0 {
    } else if p <= s {
      var rest := Split(s[|p|..], p);
      SplitJoinRoundTrip(s[|p|..], p);
      assert Split(s, p) == [""] + rest;
      JoinEmptyHead(rest, p);
      assert Join(Split(s, p), p) == p + s[|p|..];
      assert s == p + s[|p|..];
    } else {
      var rest := Split(s[1..], p);
      SplitJoinRoundTrip(s[1..], p);
      assert Split(s, p) == [[s[0]] + rest[0]] + rest[1..];
      JoinConsHead(s[0], rest, p);
      assert Join(Split(s, p), p) == [s[0]] + s[1..];
      assert [s[0]] + s[1..] == s;
    }
  }

  lemma JoinEmptyHead(parts: seq<string>, sep: string)
    requires |parts| >= 1
    ensures Join([""] + parts, sep) == sep + Join(parts, sep)
  {
    assert ([""] + parts)[1..] == parts;
  }

  /** Replacing a pattern that does not occur leaves the text unchanged. */
  lemma {:induction false} ReplaceAbsent(s: string, p: string, r: string)
    requires |p| > 0
    requires !Contains(s, p)
    ensures Replace(s, p, r) == s
    decreases |s|
  {
    if |s| > 0 {
      ReplaceAbsent(s[1..], p, r);
      assert [s[0]] + s[1..] == s;
    }
  }

  /** Replacing a pattern by itself is the identity. */
  lemma {:induction false} ReplaceBySelf(s: string, p: string)
    requires |p| > 0
    ensures Replace(s, p, p) == s
  {
    ReplaceIsJoinSplit(s, p, p);
    SplitJoinRoundTrip(s, p);
  }

  // ---------------------------------------------------------------------
  // str.splitlines

  /** Index of the first line boundary in `s`, or `|s|` when there is none. */
  function FirstBreak(s: string): (i: nat)
    ensures i <= |s|
    ensures i < |s| ==> IsLineBreak(s[i])
    ensures forall j :: 0 <= j < i ==> !IsLineBreak(s[j])
    decreases |s|
  {
    if |s| == 0 then 0
    else if IsLineBreak(s[0]) then 0
    else 1 + FirstBreak(s[1..])
  }

  /** Python's `s.splitlines()`: line boundaries are dropped, `\r\n` counts
      as one boundary, and a final boundary does not open an empty line. */
  function SplitLines(s: string): (lines: seq<string>)
    decreases |s|
  {
    if |s| == 0 then []
    else
      var i := FirstBreak(s);
      if i == |s| then [s]
      else
        var width := if s[i] == '\r' && i + 1 < |s| && s[i + 1] == '\n' then 2 else 1;
        [s[..i]] + SplitLines(s[i + width..])
  }

  predicate NoLineBreak(s: string) {
    forall i :: 0 <= i < |s| ==> !IsLineBreak(s[i])
  }

  /** No line produced by `splitlines` contains a line boundary. */
  lemma {:induction false} SplitLinesHaveNoBreaks(s: string)
    ensures forall k :: 0 <= k < |SplitLines(s)| ==> NoLineBreak(SplitLines(s)[k])
    decreases |s|
  {
    if |s| > 0 {
      var i := FirstBreak(s);
      if i < |s| {
        var width := if s[i] == '\r' && i + 1 < |s| && s[i + 1] == '\n' then 2 else 1;
        SplitLinesHaveNoBreaks(s[i + width..]);
      }
    }
  }

  /** Each line followed by a newline: what writing a line list produces. */
  function Unlines(lines: seq<string>): string
  {
    if lines == [] then "" else lines[0] + "\n" + Unlines(lines[1..])
  }

  /** `splitlines` recovers the lines of a document written one per line. */
  lemma {:induction false} SplitLinesUnlines(lines: seq<string>)
    requires forall k :: 0 <= k < |lines| ==> NoLineBreak(lines[k])
    ensures SplitLines(Unlines(lines)) == lines
  {
    if lines != [] {
      assert Unlines(lines) == lines[0] + ("\n" + Unlines(lines[1..]));
      SplitLinesFirst(lines[0], Unlines(lines[1..]));
      SplitLinesUnlines(lines[1..]);
      assert lines == [lines[0]] + lines[1..];
    }
  }

  /** A line without breaks, then `\n`: the first line `splitlines` gives. */
  lemma SplitLinesFirst(l: string, rest: string)
    requires NoLineBreak(l)
    ensures SplitLines(l + ("\n" + rest)) == [l] + SplitLines(rest)
  {
    var s := l + ("\n" + rest);
    FirstBreakAt(l, "\n" + rest);
    assert s[..|l|] == l;
    assert s[|l|] == '\n';
    assert s[|l| + 1..] == rest;
  }

  lemma {:induction false} FirstBreakAt(l: string, rest: string)
    requires NoLineBreak(l)
    requires |rest| > 0 && IsLineBreak(rest[0])
    ensures FirstBreak(l + rest) == |l|
    decreases |l|
  {
    if |l| > 0 {
      assert (l + rest)[1..] == l[1..] + rest;
      FirstBreakAt(l[1..], rest);
    } else {
      assert l + rest == rest;
    }
  }

  // ---------------------------------------------------------------------
  // list.insert

  /** Python's `xs.insert(i, x)` for a non-negative index: an index past the
      end appends. */
  function Insert<T>(xs: seq<T>, i: nat, x: T): (r: seq<T>)
    ensures |r| == |xs| + 1
    ensures var k := if i <= |xs| then i else |xs|;
      && r[k] == x
      && (forall j :: 0 <= j < k ==> r[j] == xs[j])
      && (forall j :: k <= j < |xs| ==> r[j + 1] == xs[j])
      && r[..k] + r[k + 1..] == xs
  {
    if i <= |xs| then xs[..i] + [x] + xs[i..] else xs + [x]
  }

  /** Inserting `x` at `pos` and then splicing `mid` in at the same position
      puts `mid` above `x`: repeated inserts at one index stack in reverse. */
  lemma InsertThenSplice<T>(xs: seq<T>, pos: nat, x: T, mid: seq<T>)
    requires pos <= |xs|
    ensures Insert(xs, pos, x)[..pos] + mid + Insert(xs, pos, x)[pos..]
      == xs[..pos] + (mid + [x]) + xs[pos..]
  {
    var next := Insert(xs, pos, x);
    assert next[..pos] == xs[..pos];
    assert next[pos..] == [x] + xs[pos..];
  }

  /** Inserting each item in turn at the same index. */
  function InsertEach<T>(xs: seq<T>, pos: nat, items: seq<T>): (r: seq<T>)
    ensures |r| == |xs| + |items|
    decreases |items|
  {
    if items == [] then xs else InsertEach(Insert(xs, pos, items[0]), pos, items[1..])
  }

  /** The items end up stacked at `pos` in reverse order of insertion. */
  lemma {:induction false} InsertEachLayout<T>(xs: seq<T>, pos: nat, items: seq<T>)
    requires pos <= |xs|
    ensures InsertEach(xs, pos, items) == xs[..pos] + Reverse(items) + xs[pos..]
    decreases |items|
  {
    if items == [] {
      assert xs == xs[..pos] + xs[pos..];
    } else {
      var x := items[0];
      var next := Insert(xs, pos, x);
      assert InsertEach(xs, pos, items) == InsertEach(next, pos, items[1..]);
      InsertEachLayout(next, pos, items[1..]);
      InsertThenSplice(xs, pos, x, Reverse(items[1..]));
      assert Reverse(items) == Reverse(items[1..]) + [x] by {
        assert items == [x] + items[1..];
        ReverseAppend([x], items[1..]);
        assert Reverse([x]) == [x];
      }
    }
  }

  /** Past the end of the list the first inserts append, in insertion
      order, until the list reaches `pos`; the remaining items then stack
      at `pos` in reverse. */
  lemma {:induction false} InsertEachPastEnd<T>(xs: seq<T>, pos: nat, items: seq<T>)
    requires pos > |xs|
    ensures var k := if pos - |xs| < |items| then pos - |xs| else |items|;
      InsertEach(xs, pos, items) == xs + items[..k] + Reverse(items[k..])
    decreases |items|
  {
    if items == [] {
      assert Reverse(items) == [];
    } else {
      var x := items[0];
      var k := if pos - |xs| < |items| then pos - |xs| else |items|;
      assert Insert(xs, pos, x) == xs + [x];
      if pos == |xs| + 1 {
        InsertEachLayout(xs + [x], pos, items[1..]);
        assert (xs + [x])[..pos] == xs + [x] && (xs + [x])[pos..] == [];
        assert k == 1 && items[..1] == [x] && items[1..] == items[k..];
      } else {
        InsertEachPastEnd(xs + [x], pos, items[1..]);
        assert items[..k] == [x] + items[1..][..k - 1];
        assert items[k..] == items[1..][k - 1..];
      }
    }
  }
}
