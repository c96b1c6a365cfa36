/** bin/mergeJson.js: the generic JSON merger, whose default mode for a key
    absent from the strategy is "override". */
module MergeJson {
  import opened Common
  import opened Strategy
  import opened Json
  import JsonMerge
  import JsonMergeLemmas

  /** `deepMergeFields(target, source, strategy)`, called at depth 0. */
  method DeepMergeFields(target: Value, source: Value, strategy: StrategyMap) returns (out: JsonMerge.Merged)
    ensures out == JsonMerge.DeepMerge(target, source, strategy, OVERRIDE, 0)
  {
    out := JsonMerge.DeepMergeFields(target, source, strategy, OVERRIDE, 0);
  }

  /** `mergeMultipleJson(jsonPaths, outputPath, mergeStrategy)`: `ok` is its
      boolean result and `written` the document given to the writer. */
  method MergeMultipleJson(files: seq<LoadResult<Value>>, strategy: StrategyMap, writeSucceeds: bool)
    returns (ok: bool, written: Option<Value>, log: seq<Event>)
    ensures written == JsonMerge.Output(files, strategy, OVERRIDE)
    ensures ok <==> written.Some? && writeSucceeds
    ensures log == JsonMerge.Fold(files, strategy, OVERRIDE).log
  {
    ok, written, log := JsonMerge.MergeMultiple(files, strategy, OVERRIDE, writeSucceeds);
  }

  /** With the empty strategy every key resolves to "override": the result
      is the target updated by the source, with one override line per key. */
  lemma EmptyStrategyOverlays(target: Value, source: Value)
    requires !source.Null?
    ensures JsonMerge.DeepMerge(target, source, map[], OVERRIDE, 0)
         == JsonMerge.Merged(JsonMerge.Overlay(Spread(target), Spread(source)), JsonMerge.OverrideLog(Spread(source), 0))
  {
    var es := Spread(source);
    JsonMergeLemmas.NoMergeIsOverlay(Spread(target), es, 0, map[], OVERRIDE, 0);
    assert es[0..] == es;
  }

  /** `deepMergeFields(A, A, {})` is A, for any object A (whose keys are
      distinct, as parsing makes them). */
  lemma SelfMergeIsIdentity(a: Value)
    requires a.Obj? && NoDuplicates(KeysOf(a.fields))
    ensures JsonMerge.DeepMerge(a, a, map[], OVERRIDE, 0).Merged?
    ensures Obj(JsonMerge.DeepMerge(a, a, map[], OVERRIDE, 0).fields) == a
  {
    EmptyStrategyOverlays(a, a);
    forall n | 0 <= n < |a.fields| ensures Lookup(a.fields, a.fields[n].0) == Some(a.fields[n].1) {
      LookupDistinct(a.fields, n);
    }
    JsonMergeLemmas.OverlayHeld(a.fields, a.fields);
  }
}
