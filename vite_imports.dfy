/** `mergeImportDeclarations(importGroups)` of bin/mergeViteConfig.js
    (lines 46-67): one import declaration per module source, in the order
    the sources are first seen across all files.

    The first declaration of a source survives. A later declaration of the
    same source adds each of its specifiers whose printed text was not
    among the survivor's specifiers when that later declaration was
    reached: the set of printed texts is taken once per declaration
    (line 56) and not updated while its specifiers are added, so two equal
    specifiers of one later declaration are both added. */
module ViteImports {
  import opened Common
  import opened ViteAst

  /** The `seen` map: module source to surviving declaration. */
  type Seen = Dict<string, Import>

  /** The import groups of all files, one after the other. */
  function Flatten(groups: seq<seq<Import>>): seq<Import>
  {
    if groups == [] then [] else Flatten(groups[..|groups| - 1]) + groups[|groups| - 1]
  }

  function Sources(imps: seq<Import>): seq<string>
  {
    seq(|imps|, i requires 0 <= i < |imps| => imps[i].source)
  }

  /** The specifiers of `specs` whose printed text is not in `snapshot`. */
  function Unseen(snapshot: seq<string>, specs: seq<Node>, pr: Printer): seq<Node>
  {
    if specs == [] then []
    else
      var s := specs[|specs| - 1];
      Unseen(snapshot, specs[..|specs| - 1], pr) + (if pr(s) in snapshot then [] else [s])
  }

  /** One iteration of the inner loop (lines 50-63). */
  function ImportStep(seen: Seen, imp: Import, pr: Printer): Seen
  {
    match Lookup(seen, imp.source)
    case None => Assign(seen, imp.source, imp)
    case Some(e) =>
      Assign(seen, imp.source, e.(specifiers := e.specifiers + Unseen(Printed(pr, e.specifiers), imp.specifiers, pr)))
  }

  /** `seen` after the loops have run over `imps`. */
  function MergeImports(imps: seq<Import>, pr: Printer): Seen
  {
    if imps == [] then [] else ImportStep(MergeImports(imps[..|imps| - 1], pr), imps[|imps| - 1], pr)
  }

  /** `[...seen.values()]` (line 66). */
  function MergedImports(groups: seq<seq<Import>>, pr: Printer): seq<Import>
  {
    ValuesOf(MergeImports(Flatten(groups), pr))
  }

  lemma MergeImportsSnoc(imps: seq<Import>, imp: Import, pr: Printer)
    ensures MergeImports(imps + [imp], pr) == ImportStep(MergeImports(imps, pr), imp, pr)
  {
    assert (imps + [imp])[..|imps|] == imps;
  }

  method MergeImportDeclarations(importGroups: seq<seq<Import>>, pr: Printer) returns (merged: seq<Import>)
    ensures merged == MergedImports(importGroups, pr)
  {
    var seen: Seen := [];
    for g := 0 to |importGroups|
      invariant seen == MergeImports(Flatten(importGroups[..g]), pr)
    {
      var imports := importGroups[g];
      ghost var before := Flatten(importGroups[..g]);
      assert importGroups[..g + 1][..g] == importGroups[..g];
      assert before + imports[..0] == before;
      for j := 0 to |imports|
        invariant seen == MergeImports(before + imports[..j], pr)
      {
        MergeImportsSnoc(before + imports[..j], imports[j], pr);
        assert before + imports[..j] + [imports[j]] == before + imports[..j + 1];
        seen := AddImport(seen, imports[j], pr);
      }
      assert imports[..|imports|] == imports;
    }
    assert importGroups[..|importGroups|] == importGroups;
    merged := ValuesOf(seen);
  }

  /** Lines 50-63 for the declaration `imp`. */
  method AddImport(seen: Seen, imp: Import, pr: Printer) returns (seen': Seen)
    ensures seen' == ImportStep(seen, imp, pr)
  {
    var key := imp.source;
    var found := Lookup(seen, key);
    if found.None? {
      return Assign(seen, key, imp);
    }
    var existing := found.value;
    var existingSpecifiers: set<string> := set x | x in Printed(pr, existing.specifiers);
    // `existing.specifiers.push(s)` on the declaration the map holds
    var specifiers := existing.specifiers;
    for k := 0 to |imp.specifiers|
      invariant specifiers == existing.specifiers + Unseen(Printed(pr, existing.specifiers), imp.specifiers[..k], pr)
    {
      var s := imp.specifiers[k];
      assert imp.specifiers[..k + 1][..k] == imp.specifiers[..k];
      if pr(s) !in existingSpecifiers {
        specifiers := specifiers + [s];
      }
    }
    assert imp.specifiers[..|imp.specifiers|] == imp.specifiers;
    return Assign(seen, key, existing.(specifiers := specifiers));
  }
}
