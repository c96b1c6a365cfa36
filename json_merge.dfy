/** The deep merge that bin/mergeJson.js (`deepMergeFields`) and
    bin/mergePackageJson.js (`deepMergePackageFields`) both implement, and the
    left-to-right fold of their drivers. The two copies differ only in the mode
    a key absent from the strategy gets, so everything here takes that
    default as the parameter `dflt`.

    The specification is the pair of functions `MergeFields` / `MergeEntry`;
    the methods `DeepMergeFields`, `AppendUnique` and `MergeMultiple` are the
    loops of the source, proved equal to it. */
module JsonMerge {
  import opened Common
  import opened Strategy
  import opened Json

  /** The outcome of one call of the merge: the result object and the log
      lines it emitted, or a TypeError thrown part way (the lines logged up
      to the throw have still been emitted). */
  datatype Merged = Merged(fields: Fields, log: seq<Event>) | Threw(log: seq<Event>)

  /** Log lines emitted before `m` are prepended to its log. */
  function Then(pre: seq<Event>, m: Merged): (r: Merged)
    ensures r.Merged? == m.Merged? && r.log == pre + m.log
    ensures r.Merged? ==> r.fields == m.fields
  {
    match m
    case Merged(f, l) => Merged(f, pre + l)
    case Threw(l) => Threw(pre + l)
  }

  // ---------------------------------------------------------------------
  // Arrays: `new Set(existing)` and the `newItems` loop (lines 29-45)
  // ---------------------------------------------------------------------

  /** The items of `items` the de-duplication loop appends, given that
      `seen` holds the existing array followed by what was appended so far. */
  function Appended(seen: seq<Value>, items: seq<Value>): seq<Value>
    decreases |items|
  {
    if items == [] then []
    else if SetHas(seen, items[0]) then Appended(seen, items[1..])
    else [items[0]] + Appended(seen + [items[0]], items[1..])
  }

  /** The arrays and objects of `xs`, in order. */
  function Composites(xs: seq<Value>): seq<Value>
  {
    if xs == [] then []
    else (if IsScalar(xs[0]) then [] else [xs[0]]) + Composites(xs[1..])
  }

  // ---------------------------------------------------------------------
  // The merge of one object into another (lines 13-59)
  // ---------------------------------------------------------------------

  /** Merges the entries `entries[i..]` of the source, in order, into the
      accumulating copy `result` of the target. */
  function MergeFields(result: Fields, entries: Fields, i: nat, st: StrategyMap, dflt: string, depth: nat): Merged
    requires i <= |entries|
    decreases Obj(entries), |entries| - i
  {
    if i == |entries| then Merged(result, [])
    else
      match MergeEntry(result, entries[i].0, entries[i].1, st, dflt, depth)
      case Threw(l) => Threw(l)
      case Merged(r, l) => Then(l, MergeFields(r, entries, i + 1, st, dflt, depth))
  }

  /** What one iteration of the loop over the source's entries assigns to
      `result[key]`, and logs. It depends on the accumulated result only
      through `existing`, the value `result[key]` held. */
  datatype Step = Wrote(value: Value, log: seq<Event>) | StepThrew(log: seq<Event>)

  function MergeEntry(result: Fields, key: string, value: Value, st: StrategyMap, dflt: string, depth: nat): Merged
    decreases value, if value.Obj? then |value.fields| + 2 else 1
  {
    match MergeValue(Lookup(result, key), key, value, st, dflt, depth)
    case StepThrew(l) => Threw(l)
    case Wrote(w, l) => Merged(Assign(result, key, w), l)
  }

  function MergeValue(existing: Option<Value>, key: string, value: Value, st: StrategyMap, dflt: string, depth: nat): Step
    decreases value, if value.Obj? then |value.fields| + 1 else 0
  {
    var mode := Resolve(st, key, dflt);
    if mode == MERGE && existing.Some? && Truthy(existing.value) then
      var e := existing.value;
      if TypeofObject(e) && TypeofObject(value) && !e.Arr? && !value.Arr? then
        // the recursive call: `{ ...e }` and `Object.entries(value)`, which
        // throws when `value` is null
        if value.Null? then StepThrew([DeepMerged(key, depth)])
        else
          match MergeFields(Spread(e), value.fields, 0, st, dflt, depth + 1)
          case Threw(l) => StepThrew([DeepMerged(key, depth)] + l)
          case Merged(f, l) => Wrote(Obj(f), [DeepMerged(key, depth)] + l)
      else if e.Arr? && value.Arr? then
        var added := Appended(e.items, value.items);
        Wrote(Arr(e.items + added), [Concatenated(key, depth, |value.items|, |added|)])
      else
        Wrote(value, [Incompatible(key, depth)])
    else
      Wrote(value, if mode == OVERRIDE then [Overridden(key, depth)] else [])
  }

  /** `deepMergeFields(target, source, strategy, depth)` with the default mode
      `dflt`: spread the target, then merge `Object.entries(source)` into it. */
  function DeepMerge(target: Value, source: Value, st: StrategyMap, dflt: string, depth: nat): Merged
  {
    match Entries(source)
    case None => Threw([])
    case Some(es) => MergeFields(Spread(target), es, 0, st, dflt, depth)
  }

  /** When is the value in the result for `key` the source's own: unless the
      key is merged against a truthy existing value of the same shape. */
  predicate KeepsSourceValue(result: Fields, key: string, value: Value, st: StrategyMap, dflt: string)
  {
    var e := Lookup(result, key);
    !(Resolve(st, key, dflt) == MERGE && e.Some? && Truthy(e.value) &&
      ((e.value.Arr? && value.Arr?) || (e.value.Obj? && (value.Obj? || value.Null?))))
  }

  /** The case the source warns about: merge mode, a truthy existing value,
      and shapes that neither recurse nor concatenate. */
  predicate IsMismatch(result: Fields, key: string, value: Value, st: StrategyMap, dflt: string)
  {
    var e := Lookup(result, key);
    Resolve(st, key, dflt) == MERGE && e.Some? && Truthy(e.value) &&
    !(e.value.Arr? && value.Arr?) && !(e.value.Obj? && (value.Obj? || value.Null?))
  }

  /** The case that recurses (lines 22-27): merge mode, a truthy existing
      object, and an object or `null` (on which the recursion throws). */
  predicate IsDeepMerge(result: Fields, key: string, value: Value, st: StrategyMap, dflt: string)
  {
    var e := Lookup(result, key);
    Resolve(st, key, dflt) == MERGE && e.Some? && Truthy(e.value) && e.value.Obj? && (value.Obj? || value.Null?)
  }

  /** The case that concatenates (lines 29-45): merge mode and two arrays. */
  predicate IsConcat(result: Fields, key: string, value: Value, st: StrategyMap, dflt: string)
  {
    var e := Lookup(result, key);
    Resolve(st, key, dflt) == MERGE && e.Some? && e.value.Arr? && value.Arr?
  }

  /** The target updated by the source with plain assignments, as
      `Object.assign({ ...target }, source)` would. */
  function Overlay(result: Fields, entries: Fields): Fields
    decreases |entries|
  {
    if entries == [] then result
    else Overlay(Assign(result, entries[0].0, entries[0].1), entries[1..])
  }

  /** The override log line of every entry, in order. */
  function OverrideLog(entries: Fields, depth: nat): seq<Event>
  {
    if entries == [] then [] else [Overridden(entries[0].0, depth)] + OverrideLog(entries[1..], depth)
  }

  // ---------------------------------------------------------------------
  // The loops of the source, proved against the specification above
  // ---------------------------------------------------------------------

  /** Lines 31-41: the `existingItems` set, the `newItems` list and
      `addedCount`. */
  method AppendUnique(existing: seq<Value>, incoming: seq<Value>) returns (newItems: seq<Value>, addedCount: nat)
    ensures newItems == Appended(existing, incoming)
    ensures addedCount == |newItems|
  {
    var existingItems: set<Value> := set x | x in existing;
    ghost var seen := existing;
    newItems := [];
    addedCount := 0;
    assert incoming[0..] == incoming;
    for i := 0 to |incoming|
      invariant forall x :: x in existingItems <==> x in seen
      invariant newItems + Appended(seen, incoming[i..]) == Appended(existing, incoming)
      invariant addedCount == |newItems|
    {
      var item := incoming[i];
      AppendedNext(seen, incoming, i);
      // `existingItems.has(item)`: only a scalar can be found again
      if !(IsScalar(item) && item in existingItems) {
        assert newItems + ([item] + Appended(seen + [item], incoming[i + 1..]))
            == (newItems + [item]) + Appended(seen + [item], incoming[i + 1..]);
        newItems := newItems + [item];
        existingItems := existingItems + {item};
        seen := seen + [item];
        addedCount := addedCount + 1;
      }
    }
  }

  /** The step of the de-duplication loop at index `i`. */
  lemma AppendedNext(seen: seq<Value>, incoming: seq<Value>, i: nat)
    requires i < |incoming|
    ensures var x := incoming[i];
      Appended(seen, incoming[i..])
      == if SetHas(seen, x) then Appended(seen, incoming[i + 1..]) else [x] + Appended(seen + [x], incoming[i + 1..])
  {
    assert incoming[i..][1..] == incoming[i + 1..];
  }

  /** The whole of `deepMergeFields` / `deepMergePackageFields`. */
  method DeepMergeFields(target: Value, source: Value, st: StrategyMap, dflt: string, depth: nat) returns (out: Merged)
    ensures out == DeepMerge(target, source, st, dflt, depth)
    decreases Obj(Spread(source)), 0
  {
    if source.Null? {
      // `Object.entries(null)` throws
      return Threw([]);
    }
    var entries := Spread(source);
    ghost var goal := MergeFields(Spread(target), entries, 0, st, dflt, depth);
    assert goal == DeepMerge(target, source, st, dflt, depth);
    var result := Spread(target);
    var log: seq<Event> := [];
    for i := 0 to |entries|
      invariant Then(log, MergeFields(result, entries, i, st, dflt, depth)) == goal
    {
      assert entries[i] in entries;
      var step := MergeKey(result, entries[i].0, entries[i].1, st, dflt, depth);
      MergeFieldsThen(log, result, entries, i, st, dflt, depth);
      if step.Threw? {
        return Threw(log + step.log);
      }
      result := step.fields;
      log := log + step.log;
    }
    assert log + [] == log;
    return Merged(result, log);
  }

  lemma MergeFieldsUnfold(result: Fields, entries: Fields, i: nat, st: StrategyMap, dflt: string, depth: nat)
    requires i < |entries|
    ensures var m := MergeEntry(result, entries[i].0, entries[i].1, st, dflt, depth);
      MergeFields(result, entries, i, st, dflt, depth)
      == if m.Threw? then Threw(m.log) else Then(m.log, MergeFields(m.fields, entries, i + 1, st, dflt, depth))
  {
  }

  /** One iteration of the loop, with the lines logged before it. */
  lemma MergeFieldsThen(log: seq<Event>, result: Fields, entries: Fields, i: nat, st: StrategyMap, dflt: string, depth: nat)
    requires i < |entries|
    ensures var m := MergeEntry(result, entries[i].0, entries[i].1, st, dflt, depth);
      Then(log, MergeFields(result, entries, i, st, dflt, depth))
      == if m.Threw? then Threw(log + m.log) else Then(log + m.log, MergeFields(m.fields, entries, i + 1, st, dflt, depth))
  {
    MergeFieldsUnfold(result, entries, i, st, dflt, depth);
    var m := MergeEntry(result, entries[i].0, entries[i].1, st, dflt, depth);
    if m.Merged? {
      var rest := MergeFields(m.fields, entries, i + 1, st, dflt, depth);
      assert log + m.log + rest.log == log + (m.log + rest.log);
    }
  }

  /** The body of the loop over `Object.entries(source)` for one key. */
  method MergeKey(result: Fields, key: string, value: Value, st: StrategyMap, dflt: string, depth: nat) returns (out: Merged)
    ensures out == MergeEntry(result, key, value, st, dflt, depth)
    decreases value, 1
  {
    var mergeMode := Resolve(st, key, dflt);
    var existingValue := Lookup(result, key);
    if mergeMode == MERGE && existingValue.Some? && Truthy(existingValue.value) {
      var e := existingValue.value;
      if TypeofObject(e) && TypeofObject(value) && !e.Arr? && !value.Arr? {
        if value.Null? {
          // `Object.entries(null)` throws inside the recursive call
          return Threw([DeepMerged(key, depth)]);
        }
        var nested := DeepMergeFields(e, value, st, dflt, depth + 1);
        if nested.Threw? {
          return Threw([DeepMerged(key, depth)] + nested.log);
        }
        return Merged(Assign(result, key, Obj(nested.fields)), [DeepMerged(key, depth)] + nested.log);
      }
      if e.Arr? && value.Arr? {
        var newItems, addedCount := AppendUnique(e.items, value.items);
        return Merged(Assign(result, key, Arr(e.items + newItems)),
                      [Concatenated(key, depth, |value.items|, addedCount)]);
      }
      // the shapes do not match: warn, then fall through to the assignment
      out := Merged([], [Incompatible(key, depth)]);
    } else {
      out := Merged([], []);
    }
    if mergeMode == OVERRIDE {
      out := out.(log := out.log + [Overridden(key, depth)]);
    }
    out := out.(fields := Assign(result, key, value));
  }

  // ---------------------------------------------------------------------
  // The drivers `mergeMultipleJson` / `mergeMultiplePackageJson`
  // (lines 68-116 of either file)
  // ---------------------------------------------------------------------

  /** `mergedContent`, `validFileCount` and the merge log lines emitted so far. */
  datatype FoldState = FoldState(merged: Value, valid: nat, log: seq<Event>)

  /** One iteration of the driver's loop. A missing or unparsable file is
      skipped; the first document that parses becomes the base as it is;
      a later one is merged in, unless the merge throws, in which case the
      inner handler skips the file and `mergedContent` stays as it was. */
  function FoldStep(s: FoldState, file: LoadResult<Value>, st: StrategyMap, dflt: string): FoldState
  {
    match file
    case Missing => s
    case Unparsable => s
    case Loaded(content) =>
      if s.valid == 0 then FoldState(content, 1, s.log)
      else
        match DeepMerge(s.merged, content, st, dflt, 0)
        case Threw(l) => FoldState(s.merged, s.valid, s.log + l)
        case Merged(r, l) => FoldState(Obj(r), s.valid + 1, s.log + l)
  }

  /** The state after the loop has run over `files`, left to right. */
  function Fold(files: seq<LoadResult<Value>>, st: StrategyMap, dflt: string): FoldState
  {
    if files == [] then FoldState(Obj([]), 0, [])
    else FoldStep(Fold(files[..|files| - 1], st, dflt), files[|files| - 1], st, dflt)
  }

  /** What the driver hands to `fs.writeFileSync`: nothing when no file was
      valid (it returns false without writing). */
  function Output(files: seq<LoadResult<Value>>, st: StrategyMap, dflt: string): Option<Value>
  {
    var s := Fold(files, st, dflt);
    if s.valid == 0 then None else Some(s.merged)
  }

  /** The driver. `writeSucceeds` stands for the outcome of the write, whose
      failure the outer handler turns into `false`. */
  method MergeMultiple(files: seq<LoadResult<Value>>, st: StrategyMap, dflt: string, writeSucceeds: bool)
    returns (ok: bool, written: Option<Value>, log: seq<Event>)
    ensures written == Output(files, st, dflt)
    ensures ok <==> written.Some? && writeSucceeds
    ensures log == Fold(files, st, dflt).log
  {
    var mergedContent := Obj([]);
    var validFileCount := 0;
    log := [];
    for i := 0 to |files|
      invariant FoldState(mergedContent, validFileCount, log) == Fold(files[..i], st, dflt)
    {
      assert files[..i + 1][..i] == files[..i];
      match files[i] {
        case Missing =>
        case Unparsable =>
        case Loaded(content) =>
          if validFileCount == 0 {
            mergedContent := content;
            validFileCount := validFileCount + 1;
          } else {
            var m := DeepMergeFields(mergedContent, content, st, dflt, 0);
            log := log + m.log;
            if m.Merged? {
              mergedContent := Obj(m.fields);
              validFileCount := validFileCount + 1;
            }
          }
      }
    }
    assert files[..|files|] == files;
    if validFileCount == 0 {
      return false, None, log;
    }
    written := Some(mergedContent);
    ok := writeSucceeds;
  }
}
