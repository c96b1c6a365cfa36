/** `mergeMultipleViteConfigs(configPaths, outputPath, mergeStrategy)` of
    bin/mergeViteConfig.js (lines 146-195). A missing file is skipped; a
    file that does not parse, a file without a `defineConfig({...})` call
    and a merge that throws all end the loop in the `catch` block, which
    returns false without writing. The first config object found is the
    base as it is; each later one is merged into the result at depth 0.
    The import lists of all loaded files are merged last, and the program
    written is the merged imports followed by a new
    `export default defineConfig(...)`. */
module ViteDriver {
  import opened Common
  import opened Strategy
  import opened ViteAst
  import opened ViteMerge
  import opened ViteImports
  import ViteImportsLemmas

  /** The loop's variables (`allImports`, `mergedConfig` and the log so
      far), or the exception that ended it. */
  datatype State =
    | Running(allImports: seq<seq<Import>>, merged: Option<seq<Member>>, log: seq<Event>)
    | Aborted(log: seq<Event>)

  /** One iteration of lines 151-171 for one file. */
  function DriverStep(s: State, file: LoadResult<seq<Node>>, st: StrategyMap, pr: Printer): State
  {
    match s
    case Aborted(_) => s
    case Running(imps, merged, log) =>
      match file
      case Missing => s
      case Unparsable => Aborted(log)
      case Loaded(program) =>
        var imps' := imps + [ImportsInAll(program)];
        match ConfigInAll(program)
        case None => Aborted(log)
        case Some(cfg) =>
          if merged.None? then Running(imps', Some(cfg.members), log)
          else
            match MergeByStrategy(merged.value, cfg.members, st, pr, 0)
            case Threw(l) => Aborted(log + l)
            case Merged(obj, l) => Running(imps', Some(obj.members), log + l)
  }

  /** The state after the loop has run over `files`, left to right. */
  function Fold(files: seq<LoadResult<seq<Node>>>, st: StrategyMap, pr: Printer): State
  {
    if files == [] then Running([], None, [])
    else DriverStep(Fold(files[..|files| - 1], st, pr), files[|files| - 1], st, pr)
  }

  /** The merged import declarations as statements of the new program. */
  function ImportNodes(decls: seq<Import>): (r: seq<Node>)
    ensures |r| == |decls|
    ensures forall i :: 0 <= i < |decls| ==> r[i] == ImportDecl(decls[i])
  {
    seq(|decls|, i requires 0 <= i < |decls| => ImportDecl(decls[i]))
  }

  /** The program given to the printer and the writer (lines 176-185), or
      nothing when the loop threw or found no config. */
  function Output(files: seq<LoadResult<seq<Node>>>, st: StrategyMap, pr: Printer): Option<seq<Node>>
  {
    match Fold(files, st, pr)
    case Aborted(_) => None
    case Running(imps, merged, _) =>
      if merged.None? then None
      else Some(ImportNodes(MergedImports(imps, pr)) + [GenerateDefineConfig(ObjectExpr(merged.value))])
  }

  /** The whole driver: `ok` is its boolean result, `written` the program
      handed to the printer and `fs.writeFileSync`, and `writeSucceeds`
      whether that write returns normally. */
  method MergeMultipleViteConfigs(files: seq<LoadResult<seq<Node>>>, st: StrategyMap, pr: Printer, writeSucceeds: bool)
    returns (ok: bool, written: Option<seq<Node>>, log: seq<Event>)
    ensures written == Output(files, st, pr)
    ensures ok <==> written.Some? && writeSucceeds
    ensures log == Fold(files, st, pr).log
  {
    var allImports: seq<seq<Import>> := [];
    var mergedConfig: Option<seq<Member>> := None;
    log := [];
    for i := 0 to |files|
      invariant Running(allImports, mergedConfig, log) == Fold(files[..i], st, pr)
    {
      assert files[..i + 1][..i] == files[..i];
      var file := files[i];
      if file.Missing? {
        continue;
      }
      if file.Unparsable? {
        // `recast.parse` throws
        assert Fold(files[..i + 1], st, pr).Aborted?;
        AbortedStays(files[..i + 1], files[i + 1..], st, pr);
        assert files[..i + 1] + files[i + 1..] == files;
        return false, None, log;
      }
      var imports := ExtractImports(file.doc);
      allImports := allImports + [imports];
      var configObject := ExtractConfigObject(file.doc);
      if configObject.None? {
        AbortedStays(files[..i + 1], files[i + 1..], st, pr);
        assert files[..i + 1] + files[i + 1..] == files;
        return false, None, log;
      }
      if mergedConfig.None? {
        mergedConfig := Some(configObject.value.members);
      } else {
        var r := MergeFieldsByStrategy(mergedConfig.value, configObject.value.members, st, pr, 0);
        if r.Threw? {
          AbortedStays(files[..i + 1], files[i + 1..], st, pr);
          assert files[..i + 1] + files[i + 1..] == files;
          return false, None, log + r.log;
        }
        mergedConfig := Some(r.obj.members);
        log := log + r.log;
      }
    }
    assert files[..|files|] == files;
    if mergedConfig.None? {
      return false, None, log;
    }
    var importDecls := MergeImportDeclarations(allImports, pr);
    var program := ImportNodes(importDecls) + [GenerateDefineConfig(ObjectExpr(mergedConfig.value))];
    // `recast.print` and `fs.writeFileSync`; a failing write is caught
    return writeSucceeds, Some(program), log;
  }

  // ---------------------------------------------------------------------
  // Properties of the driver
  // ---------------------------------------------------------------------

  /** Once an exception has been thrown no later file is looked at. */
  lemma {:induction false} AbortedStays(xs: seq<LoadResult<seq<Node>>>, ys: seq<LoadResult<seq<Node>>>, st: StrategyMap, pr: Printer)
    requires Fold(xs, st, pr).Aborted?
    ensures Fold(xs + ys, st, pr) == Fold(xs, st, pr)
  {
    if ys == [] {
      assert xs + ys == xs;
    } else {
      var p := ys[..|ys| - 1];
      assert (xs + ys)[..|xs + ys| - 1] == xs + p;
      AbortedStays(xs, p, st, pr);
    }
  }

  /** A missing file changes nothing, wherever it is. */
  lemma {:induction false} MissingIgnored(xs: seq<LoadResult<seq<Node>>>, ys: seq<LoadResult<seq<Node>>>, st: StrategyMap, pr: Printer)
    ensures Fold(xs + [Missing] + ys, st, pr) == Fold(xs + ys, st, pr)
  {
    if ys == [] {
      assert (xs + [Missing])[..|xs|] == xs;
      assert xs + [Missing] + ys == xs + [Missing];
      assert xs + ys == xs;
    } else {
      var p := ys[..|ys| - 1];
      var last := ys[|ys| - 1];
      assert (xs + [Missing] + ys)[..|xs + [Missing] + ys| - 1] == xs + [Missing] + p;
      assert (xs + ys)[..|xs + ys| - 1] == xs + p;
      assert (xs + [Missing] + ys)[|xs + [Missing] + ys| - 1] == last;
      assert (xs + ys)[|xs + ys| - 1] == last;
      MissingIgnored(xs, p, st, pr);
    }
  }

  /** The programs of the files that parsed, in order. */
  function LoadedPrograms(files: seq<LoadResult<seq<Node>>>): seq<seq<Node>>
  {
    if files == [] then []
    else
      var f := files[|files| - 1];
      LoadedPrograms(files[..|files| - 1]) + (if f.Loaded? then [f.doc] else [])
  }

  /** While the loop runs: every file so far parsed and held a config
      object, `allImports` holds one import list per loaded file, and a
      merged config exists exactly when some file was loaded. */
  lemma {:induction false} RunningInvariant(files: seq<LoadResult<seq<Node>>>, st: StrategyMap, pr: Printer)
    requires Fold(files, st, pr).Running?
    ensures forall j :: 0 <= j < |files| ==> !files[j].Unparsable?
    ensures forall j :: 0 <= j < |files| && files[j].Loaded? ==> ConfigInAll(files[j].doc).Some?
    ensures Fold(files, st, pr).allImports
         == seq(|LoadedPrograms(files)|, k requires 0 <= k < |LoadedPrograms(files)| => ImportsInAll(LoadedPrograms(files)[k]))
    ensures Fold(files, st, pr).merged.Some? <==> LoadedPrograms(files) != []
  {
    if files != [] {
      var pre := files[..|files| - 1];
      var f := files[|files| - 1];
      RunningInvariant(pre, st, pr);
      assert forall j :: 0 <= j < |pre| ==> files[j] == pre[j];
    }
  }

  /** A file that does not parse, anywhere in the list, means nothing is
      written. */
  lemma UnparsableWritesNothing(files: seq<LoadResult<seq<Node>>>, j: nat, st: StrategyMap, pr: Printer)
    requires j < |files| && files[j].Unparsable?
    ensures Output(files, st, pr).None?
  {
    if Fold(files, st, pr).Running? {
      RunningInvariant(files, st, pr);
    }
  }

  /** So does a parsed file in which no `defineConfig({...})` call is
      found, which is a file with no such call at all. */
  lemma NoConfigWritesNothing(files: seq<LoadResult<seq<Node>>>, j: nat, st: StrategyMap, pr: Printer)
    requires j < |files| && files[j].Loaded?
    requires forall k :: 0 <= k < |files[j].doc| ==> !HasConfigCall(files[j].doc[k])
    ensures Output(files, st, pr).None?
  {
    var program := files[j].doc;
    forall k | 0 <= k < |program| ensures ConfigIn(program[k]).None? {
      NoConfigIffNoCall(program[k]);
    }
    ConfigInAllNone(program);
    if Fold(files, st, pr).Running? {
      RunningInvariant(files, st, pr);
    }
  }

  /** Nothing is written when no file exists. */
  lemma NoFileWritesNothing(files: seq<LoadResult<seq<Node>>>, st: StrategyMap, pr: Printer)
    requires forall j :: 0 <= j < |files| ==> files[j].Missing?
    ensures Output(files, st, pr).None?
  {
    if Fold(files, st, pr).Running? {
      RunningInvariant(files, st, pr);
      NoneLoaded(files);
    }
  }

  lemma {:induction false} NoneLoaded(files: seq<LoadResult<seq<Node>>>)
    requires forall j :: 0 <= j < |files| ==> files[j].Missing?
    ensures LoadedPrograms(files) == []
  {
    if files != [] {
      NoneLoaded(files[..|files| - 1]);
    }
  }

  /** The written program: one import declaration per module source, in
      first-seen order, followed by the `defineConfig` export, whose config
      object a later run of `extractConfigObject` finds again. */
  lemma OutputShape(files: seq<LoadResult<seq<Node>>>, st: StrategyMap, pr: Printer)
    requires Output(files, st, pr).Some?
    ensures var out := Output(files, st, pr).value;
      && |out| >= 1
      && (forall i :: 0 <= i < |out| - 1 ==> out[i].ImportDecl?)
      && (forall i, k :: 0 <= i < k < |out| - 1 ==> out[i].decl.source != out[k].decl.source)
      && out[|out| - 1] == GenerateDefineConfig(ObjectExpr(Fold(files, st, pr).merged.value))
      && ConfigInAll(out) == Some(ObjectExpr(Fold(files, st, pr).merged.value))
  {
    var s := Fold(files, st, pr);
    var decls := MergedImports(s.allImports, pr);
    var cfg := GenerateDefineConfig(ObjectExpr(s.merged.value));
    var out := ImportNodes(decls) + [cfg];
    assert Output(files, st, pr).value == out;
    ViteImportsLemmas.OneDeclarationPerSource(s.allImports, pr);
    forall i, k | 0 <= i < k < |out| - 1 ensures out[i].decl.source != out[k].decl.source {
      assert Sources(decls)[i] == decls[i].source && Sources(decls)[k] == decls[k].source;
    }
    ConfigInAllAppend(ImportNodes(decls), [cfg]);
    SingleConfig(cfg);
  }

  lemma SingleConfig(x: Node)
    ensures ConfigInAll([x]) == ConfigIn(x)
  {
    var none: seq<Node> := [];
    assert [x][..0] == none;
  }

  /** A single file with a config object: its config object unchanged and
      its own imports, merged among themselves. */
  lemma SingleFileKeepsItsConfig(program: seq<Node>, members: seq<Member>, st: StrategyMap, pr: Printer)
    requires ConfigInAll(program) == Some(ObjectExpr(members))
    ensures Output([Loaded(program)], st, pr)
         == Some(ImportNodes(MergedImports([ImportsInAll(program)], pr)) + [GenerateDefineConfig(ObjectExpr(members))])
  {
    var none: seq<LoadResult<seq<Node>>> := [];
    assert [Loaded(program)][..0] == none;
    var noImports: seq<seq<Import>> := [];
    assert noImports + [ImportsInAll(program)] == [ImportsInAll(program)];
    var noEvents: seq<Event> := [];
    assert Fold([Loaded(program)], st, pr) == DriverStep(Running(noImports, None, noEvents), Loaded(program), st, pr);
    assert Fold([Loaded(program)], st, pr) == Running([ImportsInAll(program)], Some(members), noEvents);
  }

  /** Two files: the second config object is merged into the first, at
      depth 0, and a throw there means nothing is written. */
  lemma SecondFileMergesIntoFirst(p: seq<Node>, q: seq<Node>, a: seq<Member>, b: seq<Member>, st: StrategyMap, pr: Printer)
    requires ConfigInAll(p) == Some(ObjectExpr(a)) && ConfigInAll(q) == Some(ObjectExpr(b))
    ensures MergeByStrategy(a, b, st, pr, 0).Threw? ==> Output([Loaded(p), Loaded(q)], st, pr).None?
    ensures MergeByStrategy(a, b, st, pr, 0).Merged? ==>
              (Output([Loaded(p), Loaded(q)], st, pr)
               == Some(ImportNodes(MergedImports([ImportsInAll(p), ImportsInAll(q)], pr))
                       + [GenerateDefineConfig(MergeByStrategy(a, b, st, pr, 0).obj)]))
  {
    var none: seq<LoadResult<seq<Node>>> := [];
    var files := [Loaded(p), Loaded(q)];
    assert files[..1] == [Loaded(p)] && [Loaded(p)][..0] == none;
    var noImports: seq<seq<Import>> := [];
    var noEvents: seq<Event> := [];
    assert noImports + [ImportsInAll(p)] == [ImportsInAll(p)];
    var s1 := Running([ImportsInAll(p)], Some(a), noEvents);
    assert Fold([Loaded(p)], st, pr) == DriverStep(Running(noImports, None, noEvents), Loaded(p), st, pr) == s1;
    assert Fold(files, st, pr) == DriverStep(s1, Loaded(q), st, pr);
    var r := MergeByStrategy(a, b, st, pr, 0);
    if r.Merged? {
      assert [ImportsInAll(p)] + [ImportsInAll(q)] == [ImportsInAll(p), ImportsInAll(q)];
      assert ObjectExpr(r.obj.members) == r.obj;
      assert Fold(files, st, pr) == Running([ImportsInAll(p), ImportsInAll(q)], Some(r.obj.members), noEvents + r.log);
    } else {
      assert Fold(files, st, pr) == Aborted(noEvents + r.log);
    }
  }
}
