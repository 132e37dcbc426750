/** Placeholder substitution in the runcard templates (`run_mc`,
    run/external/mg5.py): `@OUTPUT@` becomes the dataset name, then each
    `@NAME@` of the variable table becomes its value, one entry at a time
    in table order. Placeholders nobody names are left as they are. */
module Render {
  import opened Text

  const OutputPlaceholder: string := "@OUTPUT@"

  /** The placeholder for a variable-table key. */
  function Placeholder(key: string): (p: string)
    ensures |p| == |key| + 2
  {
    "@" + key + "@"
  }

  /** The variable table, in the order the JSON document lists it. */
  type VariableTable = seq<(string, string)>

  /** One pass of `str.replace` per table entry, in table order. */
  function Substitute(text: string, vars: VariableTable): string
    decreases |vars|
  {
    if vars == [] then text
    else Substitute(Replace(text, Placeholder(vars[0].0), vars[0].1), vars[1..])
  }

  /** The output card: only `@OUTPUT@` is substituted. */
  function RenderOutputCard(template: string, dataset: string): string
  {
    Replace(template, OutputPlaceholder, dataset)
  }

  /** The launch card: `@OUTPUT@` first, then the variable table. */
  function RenderLaunchCard(template: string, dataset: string, vars: VariableTable): string
  {
    Substitute(RenderOutputCard(template, dataset), vars)
  }

  /** Substituting a table in two pieces is substituting the first piece
      and then the second: entries are applied strictly in table order. */
  lemma {:induction false} SubstituteInOrder(text: string, first: VariableTable, second: VariableTable)
    ensures Substitute(text, first + second) == Substitute(Substitute(text, first), second)
    decreases |first|
  {
    if first == [] {
      assert first + second == second;
    } else {
      assert (first + second)[0] == first[0];
      assert (first + second)[1..] == first[1..] + second;
      SubstituteInOrder(Replace(text, Placeholder(first[0].0), first[0].1), first[1..], second);
    }
  }

  /** A text holding none of the table's placeholders is left verbatim:
      substitution is lenient and never fails. */
  lemma {:induction false} SubstituteUntouched(text: string, vars: VariableTable)
    requires forall k :: 0 <= k < |vars| ==> !Contains(text, Placeholder(vars[k].0))
    ensures Substitute(text, vars) == text
    decreases |vars|
  {
    if vars != [] {
      ReplaceAbsent(text, Placeholder(vars[0].0), vars[0].1);
      SubstituteUntouched(text, vars[1..]);
    }
  }

  /** A template with no `@OUTPUT@` and none of the table's placeholders
      renders to itself. */
  lemma RenderUntouched(template: string, dataset: string, vars: VariableTable)
    requires !Contains(template, OutputPlaceholder)
    requires forall k :: 0 <= k < |vars| ==> !Contains(template, Placeholder(vars[k].0))
    ensures RenderLaunchCard(template, dataset, vars) == template
    ensures RenderOutputCard(template, dataset) == template
  {
    ReplaceAbsent(template, OutputPlaceholder, dataset);
    SubstituteUntouched(template, vars);
  }

  /** Rendering `@OUTPUT@` is splitting the template at every placeholder
      and joining the pieces with the dataset name. */
  lemma RenderOutputCardPieces(template: string, dataset: string)
    ensures RenderOutputCard(template, dataset) == Join(Split(template, OutputPlaceholder), dataset)
    ensures Join(Split(template, OutputPlaceholder), OutputPlaceholder) == template
  {
    ReplaceIsJoinSplit(template, OutputPlaceholder, dataset);
    SplitJoinRoundTrip(template, OutputPlaceholder);
  }
}
