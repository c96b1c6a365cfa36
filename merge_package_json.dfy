/** bin/mergePackageJson.js: the package manifest merger, whose default mode
    for a key absent from the strategy is "merge", so that nested fields such
    as `scripts` and `dependencies` are combined rather than replaced. */
module MergePackageJson {
  import opened Common
  import opened Strategy
  import opened Json
  import JsonMerge
  import JsonMergeLemmas

  /** `deepMergePackageFields(target, source, strategy)`, called at depth 0. */
  method DeepMergePackageFields(target: Value, source: Value, strategy: StrategyMap) returns (out: JsonMerge.Merged)
    ensures out == JsonMerge.DeepMerge(target, source, strategy, MERGE, 0)
  {
    out := JsonMerge.DeepMergeFields(target, source, strategy, MERGE, 0);
  }

  /** `mergeMultiplePackageJson(packagePaths, outputPath, mergeStrategy)`. */
  method MergeMultiplePackageJson(files: seq<LoadResult<Value>>, strategy: StrategyMap, writeSucceeds: bool)
    returns (ok: bool, written: Option<Value>, log: seq<Event>)
    ensures written == JsonMerge.Output(files, strategy, MERGE)
    ensures ok <==> written.Some? && writeSucceeds
    ensures log == JsonMerge.Fold(files, strategy, MERGE).log
  {
    ok, written, log := JsonMerge.MergeMultiple(files, strategy, MERGE, writeSucceeds);
  }

  /** Two objects under a key without a strategy entry are merged
      recursively, and the strategy is consulted for every key at every
      depth: the nested "build" follows its "override" entry. */
  lemma NestedKeysMergeByDefault()
    ensures JsonMerge.DeepMerge(
              Obj([("scripts", Obj([("build", Str("vite build"))]))]),
              Obj([("scripts", Obj([("build", Str("tsc && vite build")), ("test", Str("vitest"))]))]),
              map["build" := OVERRIDE], MERGE, 0)
         == JsonMerge.Merged(
              [("scripts", Obj([("build", Str("tsc && vite build")), ("test", Str("vitest"))]))],
              [DeepMerged("scripts", 0), Overridden("build", 1)])
  {
    var st := map["build" := OVERRIDE];
    var es := [("build", Str("tsc && vite build")), ("test", Str("vitest"))];
    var after := [("build", Str("tsc && vite build"))];
    assert JsonMerge.MergeEntry([("build", Str("vite build"))], "build", es[0].1, st, MERGE, 1) == JsonMerge.Merged(after, [Overridden("build", 1)]);
    assert JsonMerge.MergeEntry(after, "test", es[1].1, st, MERGE, 1) == JsonMerge.Merged(es, []);
    assert JsonMerge.MergeFields(after, es, 1, st, MERGE, 1) == JsonMerge.Merged(es, []);
    var inner := JsonMerge.MergeFields([("build", Str("vite build"))], es, 0, st, MERGE, 1);
    assert inner == JsonMerge.Merged(es, [Overridden("build", 1)]);
  }

  /** A strategy entry "override" replaces the whole nested object. */
  lemma OverrideReplacesObject()
    ensures JsonMerge.DeepMerge(
              Obj([("dependencies", Obj([("a", Num(1))]))]),
              Obj([("dependencies", Obj([("b", Num(2))]))]),
              map["dependencies" := OVERRIDE], MERGE, 0)
         == JsonMerge.Merged([("dependencies", Obj([("b", Num(2))]))], [Overridden("dependencies", 0)])
  {
  }

  /** Arrays under "merge" are concatenated with the new scalars only, in
      the order they come, and the log counts both. */
  lemma ArraysAreUnited()
    ensures JsonMerge.DeepMerge(
              Obj([("files", Arr([Str("a"), Str("b")]))]),
              Obj([("files", Arr([Str("b"), Str("c"), Str("c")]))]),
              map[], MERGE, 0)
         == JsonMerge.Merged([("files", Arr([Str("a"), Str("b"), Str("c")]))], [Concatenated("files", 0, 3, 1)])
  {
    var ab, abc := [Str("a"), Str("b")], [Str("a"), Str("b"), Str("c")];
    var noValues: seq<Value> := [];
    assert JsonMerge.Appended(abc, [Str("c")]) == noValues;
    assert JsonMerge.Appended(ab, [Str("c"), Str("c")]) == [Str("c")] + JsonMerge.Appended(abc, [Str("c")]);
    assert JsonMerge.Appended(ab, [Str("b"), Str("c"), Str("c")]) == JsonMerge.Appended(ab, [Str("c"), Str("c")]);
    assert JsonMerge.Appended(ab, [Str("b"), Str("c"), Str("c")]) == [Str("c")];
    assert [Str("a"), Str("b")] + [Str("c")] == [Str("a"), Str("b"), Str("c")];
    assert JsonMerge.MergeValue(Some(Arr([Str("a"), Str("b")])), "files", Arr([Str("b"), Str("c"), Str("c")]), map[], MERGE, 0)
        == JsonMerge.Wrote(Arr([Str("a"), Str("b"), Str("c")]), [Concatenated("files", 0, 3, 1)]);
  }

  /** De-duplication compares the array items by reference: an object item
      is appended again even when an equal one is already present. */
  lemma ObjectItemsAreNotDeduplicated()
    ensures JsonMerge.DeepMerge(
              Obj([("a", Arr([Obj([("x", Num(1))])]))]),
              Obj([("a", Arr([Obj([("x", Num(1))])]))]),
              map[], MERGE, 0)
         == JsonMerge.Merged([("a", Arr([Obj([("x", Num(1))]), Obj([("x", Num(1))])]))], [Concatenated("a", 0, 1, 1)])
  {
    var o := Obj([("x", Num(1))]);
    assert JsonMerge.Appended([o], [o]) == [o];
    assert [o] + [o] == [o, o];
    assert JsonMerge.MergeValue(Some(Arr([o])), "a", Arr([o]), map[], MERGE, 0) == JsonMerge.Wrote(Arr([o, o]), [Concatenated("a", 0, 1, 1)]);
  }

  /** Shapes that neither recurse nor concatenate are overridden, with a
      single warning. */
  lemma MismatchIsOverriddenWithWarning()
    ensures JsonMerge.DeepMerge(
              Obj([("a", Arr([Num(1)]))]),
              Obj([("a", Obj([("x", Num(1))]))]),
              map[], MERGE, 0)
         == JsonMerge.Merged([("a", Obj([("x", Num(1))]))], [Incompatible("a", 0)])
  {
  }

  /** Under "merge", a falsy existing value is replaced without any log line. */
  lemma FalsyExistingIsReplaced()
    ensures JsonMerge.DeepMerge(
              Obj([("a", Str(""))]),
              Obj([("a", Obj([("x", Num(1))]))]),
              map[], MERGE, 0)
         == JsonMerge.Merged([("a", Obj([("x", Num(1))]))], [])
  {
  }

  /** A `null` source value merged into an object makes the recursive
      `Object.entries(null)` throw; the driver reports that file and keeps
      the merged result of the files before it. */
  lemma NullAgainstObjectSkipsFile()
    ensures JsonMerge.Output(
              [Loaded(Obj([("a", Obj([("x", Num(1))]))])), Missing, Loaded(Obj([("a", Null)]))],
              map[], MERGE)
         == Some(Obj([("a", Obj([("x", Num(1))]))]))
  {
    var files := [Loaded(Obj([("a", Obj([("x", Num(1))]))])), Missing, Loaded(Obj([("a", Null)]))];
    assert files[..2] == [Loaded(Obj([("a", Obj([("x", Num(1))]))]))] + [Missing] + [];
    JsonMergeLemmas.SkippedFileIgnored([Loaded(Obj([("a", Obj([("x", Num(1))]))]))], Missing, [], map[], MERGE);
    JsonMergeLemmas.FirstLoadedIsBase([], Obj([("a", Obj([("x", Num(1))]))]), map[], MERGE);
    assert [] + [Loaded(Obj([("a", Obj([("x", Num(1))]))]))] == files[..1];
    assert files == files[..2] + [files[2]];
  }
}
