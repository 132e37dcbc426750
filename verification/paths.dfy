/** The parts of `pathlib.PurePosixPath` the runner relies on: the final
    component (`name`), its `suffix`, and `with_suffix`. */
module Paths {
  import opened Common
  import opened Text

  /** Index of the last occurrence of `c`, if any. */
  function LastIndexOf(s: string, c: char): (r: Option<nat>)
    ensures r.Some? ==> r.value < |s| && s[r.value] == c
    ensures r.Some? ==> forall j :: r.value < j < |s| ==> s[j] != c
    ensures r.None? <==> c !in s
    decreases |s|
  {
    if s == [] then None
    else if s[|s| - 1] == c then Some(|s| - 1)
    else LastIndexOf(s[..|s| - 1], c)
  }

  /** `suffix`: from the last dot on, unless that dot is the first or the
      last character of the name. */
  function Suffix(name: string): (sfx: string)
    ensures |sfx| <= |name| && name[|name| - |sfx|..] == sfx
    ensures sfx != "" ==> sfx[0] == '.' && |sfx| >= 2 && |sfx| < |name|
  {
    match LastIndexOf(name, '.')
    case Some(i) => if 0 < i < |name| - 1 then name[i..] else ""
    case None => ""
  }

  /** `with_suffix`: the current suffix, if any, replaced by `sfx`. */
  function WithSuffix(name: string, sfx: string): string
  {
    name[..|name| - |Suffix(name)|] + sfx
  }

  predicate EndsWith(s: string, tail: string) {
    |tail| <= |s| && s[|s| - |tail|..] == tail
  }

  const PatchSuffix: string := ".patch"

  /** A directory entry counts as a patch exactly when its name is
      `<something>.patch` with a non-empty something. */
  lemma PatchSuffixIff(name: string)
    ensures Suffix(name) == PatchSuffix <==> |name| > |PatchSuffix| && EndsWith(name, PatchSuffix)
  {
    var k := |name| - |PatchSuffix|;
    if |name| > |PatchSuffix| && EndsWith(name, PatchSuffix) {
      assert name[k] == '.';
      forall j | k < j < |name| ensures name[j] != '.' {
        assert name[j] == PatchSuffix[j - k];
      }
      LastDotAt(name, k);
    }
    if Suffix(name) == PatchSuffix {
      var i := LastIndexOf(name, '.').value;
      assert name[i..] == PatchSuffix;
    }
  }

  lemma LastDotAt(name: string, k: nat)
    requires k < |name| && name[k] == '.'
    requires forall j :: k < j < |name| ==> name[j] != '.'
    ensures LastIndexOf(name, '.') == Some(k)
  {
    var r := LastIndexOf(name, '.');
    assert '.' in name by { assert name[k] == '.'; }
    if r.value < k {
      assert false;
    }
  }

  /** `p.with_suffix(p.suffix + ".patch")` appends `.patch` to the name,
      whatever suffix it had. */
  lemma AppendSuffix(name: string, sfx: string)
    ensures WithSuffix(name, Suffix(name) + sfx) == name + sfx
  {
    var s := Suffix(name);
    assert name == name[..|name| - |s|] + s;
  }

  /** The pieces of `path` between `/` separators, empty ones included. */
  function SplitSlash(path: string): (parts: seq<string>)
    ensures |parts| >= 1
    ensures forall i :: 0 <= i < |parts| ==> '/' !in parts[i]
  {
    if path == [] then [""]
    else if path[0] == '/' then [""] + SplitSlash(path[1..])
    else
      var rest := SplitSlash(path[1..]);
      [[path[0]] + rest[0]] + rest[1..]
  }

  lemma {:induction false} SplitSlashJoin(a: string, b: string)
    ensures SplitSlash(a + "/" + b) == SplitSlash(a) + SplitSlash(b)
    decreases |a|
  {
    if a == [] {
      assert a + "/" + b == "/" + b;
      assert ("/" + b)[1..] == b;
      assert SplitSlash(a) == [""];
    } else {
      assert (a + "/" + b)[0] == a[0];
      assert (a + "/" + b)[1..] == a[1..] + "/" + b;
      SplitSlashJoin(a[1..], b);
    }
  }

  lemma {:induction false} SplitSlashPlain(s: string)
    requires '/' !in s
    ensures SplitSlash(s) == [s]
  {
    if s != [] {
      SplitSlashPlain(s[1..]);
      assert [s[0]] + s[1..] == s;
    }
  }

  /** The components of a POSIX path: the pieces between separators, with
      empty and `.` pieces dropped. */
  function Components(path: string): (parts: seq<string>)
    ensures forall i :: 0 <= i < |parts| ==> parts[i] != "" && parts[i] != "." && '/' !in parts[i]
  {
    Filter(SplitSlash(path))
  }

  function Filter(parts: seq<string>): (kept: seq<string>)
    ensures forall i :: 0 <= i < |kept| ==> kept[i] != "" && kept[i] != "." && kept[i] in parts
    ensures forall p :: p in parts && p != "" && p != "." ==> p in kept
  {
    if parts == [] then []
    else if parts[0] == "" || parts[0] == "." then Filter(parts[1..])
    else [parts[0]] + Filter(parts[1..])
  }

  lemma {:induction false} FilterAppend(a: seq<string>, b: seq<string>)
    ensures Filter(a + b) == Filter(a) + Filter(b)
    decreases |a|
  {
    if a == [] {
      assert a + b == b;
    } else {
      assert (a + b)[0] == a[0];
      assert (a + b)[1..] == a[1..] + b;
      FilterAppend(a[1..], b);
    }
  }

  /** `name`: the last component, or empty for a path without one. */
  function Name(path: string): (n: string)
    ensures n != "." && '/' !in n
  {
    var parts := Components(path);
    if parts == [] then "" else parts[|parts| - 1]
  }

  /** A plain file name is its own `name`. */
  lemma NameOfPlain(s: string)
    requires '/' !in s && s != "" && s != "."
    ensures Name(s) == s
  {
    SplitSlashPlain(s);
  }

  /** Whatever the directory part, the `name` of `dir/file` is `file`. */
  lemma NameOfJoined(dir: string, file: string)
    requires '/' !in file && file != "" && file != "."
    ensures Name(dir + "/" + file) == file
  {
    SplitSlashJoin(dir, file);
    SplitSlashPlain(file);
    FilterAppend(SplitSlash(dir), [file]);
  }
}
