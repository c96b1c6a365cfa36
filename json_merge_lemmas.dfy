/** What the deep merge of bin/mergeJson.js and bin/mergePackageJson.js
    guarantees, for either default mode, proved about the specification in
    module JsonMerge. */
module JsonMergeLemmas {
  import opened Common
  import opened Strategy
  import opened Json
  import opened JsonMerge

  // ---------------------------------------------------------------------
  // Array concatenation with de-duplication
  // ---------------------------------------------------------------------

  /** `[...existing, ...newItems]`: it holds exactly what either array held;
      what is appended comes from the source; no appended scalar was already
      present or is appended twice; and every array or object of the source
      is appended, because `Set` membership compares those by reference. */
  lemma {:induction false} AppendedSpec(existing: seq<Value>, incoming: seq<Value>)
    ensures forall x :: x in existing + Appended(existing, incoming) <==> x in existing || x in incoming
    ensures forall x :: x in Appended(existing, incoming) ==> x in incoming
    ensures forall x :: x in Appended(existing, incoming) && IsScalar(x) ==> x !in existing
    ensures var a := Appended(existing, incoming);
      forall j, k :: 0 <= j < k < |a| && IsScalar(a[k]) ==> a[j] != a[k]
    ensures Composites(Appended(existing, incoming)) == Composites(incoming)
    ensures |Appended(existing, incoming)| <= |incoming|
    ensures (forall x :: x in incoming ==> IsScalar(x)) ==> Appended(existing, incoming) == FirstNew(existing, incoming)
    decreases |incoming|
  {
    if incoming != [] {
      var x, rest := incoming[0], incoming[1..];
      assert incoming == [x] + rest;
      if SetHas(existing, x) {
        AppendedSpec(existing, rest);
      } else {
        AppendedSpec(existing + [x], rest);
        var b := Appended(existing + [x], rest);
        var a := [x] + b;
        assert Appended(existing, incoming) == a;
        assert a[1..] == b;
        forall j, k | 0 <= j < k < |a| && IsScalar(a[k]) ensures a[j] != a[k] {
          if j > 0 {
            assert a[j] == b[j - 1] && a[k] == b[k - 1];
          } else {
            assert a[k] in b;
          }
        }
      }
    }
  }

  /** The order: one more source item is appended at the end exactly when
      it is an array or an object, or a scalar neither in the existing
      array nor earlier in the source. So the appended items are the
      source's items in their order, each scalar at its first occurrence. */
  lemma {:induction false} AppendedSnoc(existing: seq<Value>, incoming: seq<Value>, x: Value)
    ensures Appended(existing, incoming + [x])
         == Appended(existing, incoming) + (if IsScalar(x) && (x in existing || x in incoming) then [] else [x])
    decreases |incoming|
  {
    if incoming == [] {
      assert [] + [x] == [x];
    } else {
      var y := incoming[0];
      assert (incoming + [x])[0] == y && (incoming + [x])[1..] == incoming[1..] + [x];
      if SetHas(existing, y) {
        AppendedSnoc(existing, incoming[1..], x);
        assert x in existing || x in incoming[1..] <==> x in existing || x in incoming;
      } else {
        AppendedSnoc(existing + [y], incoming[1..], x);
        assert x in existing + [y] || x in incoming[1..] <==> x in existing || x in incoming;
      }
    }
  }

  // ---------------------------------------------------------------------
  // One key at a time
  // ---------------------------------------------------------------------

  /** A key's step writes that key and no other. */
  lemma EntryFrame(t: Fields, k: string, v: Value, st: StrategyMap, dflt: string, depth: nat)
    ensures var m := MergeEntry(t, k, v, st, dflt, depth);
      m.Merged? ==>
        KeysOf(m.fields) == (if k in KeysOf(t) then KeysOf(t) else KeysOf(t) + [k]) &&
        forall j :: j != k ==> Lookup(m.fields, j) == Lookup(t, j)
  {
    var m := MergeEntry(t, k, v, st, dflt, depth);
    if m.Merged? {
      var w := MergeValue(Lookup(t, k), k, v, st, dflt, depth).value;
      AssignKeys(t, k, w);
      forall j | j != k ensures Lookup(m.fields, j) == Lookup(t, j) {
        LookupAssign(t, k, w, j);
      }
    }
  }

  /** After a key's step the key holds what the step wrote. */
  lemma EntryWrites(t: Fields, k: string, v: Value, st: StrategyMap, dflt: string, depth: nat)
    ensures var m := MergeEntry(t, k, v, st, dflt, depth);
      m.Merged? ==> Lookup(m.fields, k) == Some(MergeValue(Lookup(t, k), k, v, st, dflt, depth).value)
  {
    var m := MergeEntry(t, k, v, st, dflt, depth);
    if m.Merged? {
      LookupAssign(t, k, MergeValue(Lookup(t, k), k, v, st, dflt, depth).value, k);
    }
  }

  /** The keys no later entry names keep their value. */
  lemma {:induction false} MergeKeepsOthers(t: Fields, es: Fields, i: nat, st: StrategyMap, dflt: string, depth: nat, k: string)
    requires i <= |es|
    requires MergeFields(t, es, i, st, dflt, depth).Merged?
    requires k !in KeysOf(es)[i..]
    ensures Lookup(MergeFields(t, es, i, st, dflt, depth).fields, k) == Lookup(t, k)
    decreases |es| - i
  {
    if i < |es| {
      MergeFieldsUnfold(t, es, i, st, dflt, depth);
      assert KeysOf(es)[i] == es[i].0;
      var m := MergeEntry(t, es[i].0, es[i].1, st, dflt, depth);
      EntryFrame(t, es[i].0, es[i].1, st, dflt, depth);
      assert KeysOf(es)[i + 1..] == KeysOf(es)[i..][1..];
      MergeKeepsOthers(m.fields, es, i + 1, st, dflt, depth, k);
    }
  }

  /** The result's keys are the target's, in their order, followed by the
      source's keys the target lacks, in source order: existing keys keep
      their slot even when reassigned. */
  lemma {:induction false} MergeKeys(t: Fields, es: Fields, i: nat, st: StrategyMap, dflt: string, depth: nat)
    requires i <= |es|
    requires MergeFields(t, es, i, st, dflt, depth).Merged?
    ensures KeysOf(MergeFields(t, es, i, st, dflt, depth).fields) == KeysOf(t) + FirstNew(KeysOf(t), KeysOf(es)[i..])
    decreases |es| - i
  {
    if i == |es| {
      assert KeysOf(es)[i..] == [];
    } else {
      MergeFieldsUnfold(t, es, i, st, dflt, depth);
      var k := es[i].0;
      assert KeysOf(es)[i] == k;
      var m := MergeEntry(t, k, es[i].1, st, dflt, depth);
      EntryFrame(t, k, es[i].1, st, dflt, depth);
      MergeKeys(m.fields, es, i + 1, st, dflt, depth);
      var ks := KeysOf(es)[i..];
      assert ks[0] == k && ks[1..] == KeysOf(es)[i + 1..];
      if k !in KeysOf(t) {
        assert KeysOf(t) + [k] + FirstNew(KeysOf(t) + [k], ks[1..]) == KeysOf(t) + ([k] + FirstNew(KeysOf(t) + [k], ks[1..]));
      }
    }
  }

  /** Merging the whole source is merging each of its keys alone into the
      target: when the merge succeeds, every key's own step succeeds against
      the target's value for it, and the result holds what that step wrote. */
  lemma {:induction false} KeyByKey(t: Fields, es: Fields, i: nat, j: nat, st: StrategyMap, dflt: string, depth: nat)
    requires i <= j < |es| && NoDuplicates(KeysOf(es))
    requires MergeFields(t, es, i, st, dflt, depth).Merged?
    ensures var w := MergeValue(Lookup(t, es[j].0), es[j].0, es[j].1, st, dflt, depth);
      w.Wrote? && Lookup(MergeFields(t, es, i, st, dflt, depth).fields, es[j].0) == Some(w.value)
    decreases j - i
  {
    if i == j {
      OwnKeyWritten(t, es, i, st, dflt, depth);
    } else {
      MergeFieldsUnfold(t, es, i, st, dflt, depth);
      var m := MergeEntry(t, es[i].0, es[i].1, st, dflt, depth);
      assert KeysOf(es)[i] == es[i].0 && KeysOf(es)[j] == es[j].0;
      EntryFrame(t, es[i].0, es[i].1, st, dflt, depth);
      KeyByKey(m.fields, es, i + 1, j, st, dflt, depth);
    }
  }

  /** The case of `KeyByKey` where the key is the first one merged. */
  lemma OwnKeyWritten(t: Fields, es: Fields, i: nat, st: StrategyMap, dflt: string, depth: nat)
    requires i < |es| && NoDuplicates(KeysOf(es))
    requires MergeFields(t, es, i, st, dflt, depth).Merged?
    ensures var w := MergeValue(Lookup(t, es[i].0), es[i].0, es[i].1, st, dflt, depth);
      w.Wrote? && Lookup(MergeFields(t, es, i, st, dflt, depth).fields, es[i].0) == Some(w.value)
  {
    MergeFieldsUnfold(t, es, i, st, dflt, depth);
    var m := MergeEntry(t, es[i].0, es[i].1, st, dflt, depth);
    var k := es[i].0;
    assert k !in KeysOf(es)[i + 1..] by {
      forall n | i + 1 <= n < |es| ensures KeysOf(es)[n] != k {
        assert KeysOf(es)[i] == k;
      }
    }
    EntryWrites(t, k, es[i].1, st, dflt, depth);
    MergeKeepsOthers(m.fields, es, i + 1, st, dflt, depth, k);
  }

  /** Where each source value ends up, when the merge succeeds (source keys
      are distinct, as `Object.entries` gives them):
      the source value itself, unless the key is merged against a truthy
      existing value of the same shape; two arrays are concatenated with
      de-duplication; two objects are merged recursively with the same
      strategy, one level deeper. */
  lemma MergedValueAt(t: Fields, es: Fields, j: nat, st: StrategyMap, dflt: string, depth: nat)
    requires j < |es| && NoDuplicates(KeysOf(es))
    requires MergeFields(t, es, 0, st, dflt, depth).Merged?
    ensures var r, k, v := MergeFields(t, es, 0, st, dflt, depth).fields, es[j].0, es[j].1;
      (KeepsSourceValue(t, k, v, st, dflt) ==> Lookup(r, k) == Some(v)) &&
      (Resolve(st, k, dflt) == MERGE && Lookup(t, k).Some? && Lookup(t, k).value.Arr? && v.Arr? ==>
        var xs := Lookup(t, k).value.items;
        Lookup(r, k) == Some(Arr(xs + Appended(xs, v.items)))) &&
      (Resolve(st, k, dflt) == MERGE && Lookup(t, k).Some? && Lookup(t, k).value.Obj? && v.Obj? ==>
        var nested := MergeFields(Lookup(t, k).value.fields, v.fields, 0, st, dflt, depth + 1);
        nested.Merged? && Lookup(r, k) == Some(Obj(nested.fields)))
  {
    KeyByKey(t, es, 0, j, st, dflt, depth);
  }

  /** A `null` source value merged against an object makes the recursive
      call run `Object.entries(null)`, so the whole merge throws. */
  lemma NullAgainstObjectThrows(t: Fields, es: Fields, j: nat, st: StrategyMap, dflt: string, depth: nat)
    requires j < |es| && NoDuplicates(KeysOf(es))
    requires es[j].1 == Null && Resolve(st, es[j].0, dflt) == MERGE
    requires Lookup(t, es[j].0).Some? && Lookup(t, es[j].0).value.Obj?
    ensures MergeFields(t, es, 0, st, dflt, depth).Threw?
  {
    if MergeFields(t, es, 0, st, dflt, depth).Merged? {
      KeyByKey(t, es, 0, j, st, dflt, depth);
      assert false;
    }
  }

  // ---------------------------------------------------------------------
  // The log
  // ---------------------------------------------------------------------

  lemma {:induction false} LogDepthFields(t: Fields, es: Fields, i: nat, st: StrategyMap, dflt: string, depth: nat)
    requires i <= |es|
    ensures AtLeastDepth(MergeFields(t, es, i, st, dflt, depth).log, depth)
    decreases Obj(es), |es| - i
  {
    if i < |es| {
      MergeFieldsUnfold(t, es, i, st, dflt, depth);
      assert es[i] in es;
      LogDepthEntry(t, es[i].0, es[i].1, st, dflt, depth);
      var m := MergeEntry(t, es[i].0, es[i].1, st, dflt, depth);
      if m.Merged? {
        LogDepthFields(m.fields, es, i + 1, st, dflt, depth);
      }
    }
  }

  lemma {:induction false} LogDepthEntry(t: Fields, k: string, v: Value, st: StrategyMap, dflt: string, depth: nat)
    ensures AtLeastDepth(MergeEntry(t, k, v, st, dflt, depth).log, depth)
    decreases v, if v.Obj? then |v.fields| + 1 else 0
  {
    var e := Lookup(t, k);
    if Resolve(st, k, dflt) == MERGE && e.Some? && Truthy(e.value) &&
       TypeofObject(e.value) && TypeofObject(v) && !e.value.Arr? && !v.Arr? && v.Obj? {
      LogDepthFields(Spread(e.value), v.fields, 0, st, dflt, depth + 1);
    }
  }

  /** The lines a step logs at its own depth name its own key; everything
      its recursion logs is deeper. So a step for another key logs no line
      at this depth for this key. */
  lemma OtherKeysLogNothing(t: Fields, k: string, v: Value, e: Event, st: StrategyMap, dflt: string, depth: nat)
    requires e.key != k && e.depth == depth
    ensures Count(MergeEntry(t, k, v, st, dflt, depth).log, e) == 0
  {
    var m := MergeEntry(t, k, v, st, dflt, depth);
    var x := Lookup(t, k);
    if Resolve(st, k, dflt) == MERGE && x.Some? && Truthy(x.value) &&
       TypeofObject(x.value) && TypeofObject(v) && !x.value.Arr? && !v.Arr? && v.Obj? {
      var nested := MergeFields(Spread(x.value), v.fields, 0, st, dflt, depth + 1);
      LogDepthFields(Spread(x.value), v.fields, 0, st, dflt, depth + 1);
      assert m.log == [DeepMerged(k, depth)] + nested.log;
      CountAppend([DeepMerged(k, depth)], nested.log, e);
      CountDeeper(nested.log, depth + 1, e);
    }
  }

  /** The lines the step for a key logs at its own depth: one "deep merge"
      line exactly when it recurses, one "concatenate" line, with the
      source array's length and the number of items added, exactly when it
      concatenates, one incompatibility warning exactly when its shapes do
      not match, and one override line exactly when its mode is
      "override". */
  lemma OwnKeyLog(t: Fields, k: string, v: Value, st: StrategyMap, dflt: string, depth: nat)
    ensures var log := MergeEntry(t, k, v, st, dflt, depth).log;
      Count(log, DeepMerged(k, depth)) == (if IsDeepMerge(t, k, v, st, dflt) then 1 else 0) &&
      (forall n, a :: Count(log, Concatenated(k, depth, n, a)) ==
        if IsConcat(t, k, v, st, dflt) && n == |v.items| && a == |Appended(Lookup(t, k).value.items, v.items)| then 1 else 0) &&
      Count(log, Incompatible(k, depth)) == (if IsMismatch(t, k, v, st, dflt) then 1 else 0) &&
      Count(log, Overridden(k, depth)) == (if Resolve(st, k, dflt) == OVERRIDE then 1 else 0)
  {
    var m := MergeEntry(t, k, v, st, dflt, depth);
    var x := Lookup(t, k);
    if Resolve(st, k, dflt) == MERGE && x.Some? && Truthy(x.value) &&
       TypeofObject(x.value) && TypeofObject(v) && !x.value.Arr? && !v.Arr? && v.Obj? {
      var nested := MergeFields(Spread(x.value), v.fields, 0, st, dflt, depth + 1);
      LogDepthFields(Spread(x.value), v.fields, 0, st, dflt, depth + 1);
      assert m.log == [DeepMerged(k, depth)] + nested.log;
      CountAppend([DeepMerged(k, depth)], nested.log, DeepMerged(k, depth));
      CountAppend([DeepMerged(k, depth)], nested.log, Incompatible(k, depth));
      CountAppend([DeepMerged(k, depth)], nested.log, Overridden(k, depth));
      CountDeeper(nested.log, depth + 1, DeepMerged(k, depth));
      CountDeeper(nested.log, depth + 1, Incompatible(k, depth));
      CountDeeper(nested.log, depth + 1, Overridden(k, depth));
      forall n, a ensures Count(m.log, Concatenated(k, depth, n, a)) == 0 {
        CountAppend([DeepMerged(k, depth)], nested.log, Concatenated(k, depth, n, a));
        CountDeeper(nested.log, depth + 1, Concatenated(k, depth, n, a));
      }
    }
  }

  /** A step's log depends on the accumulated result only through the
      value it held for the step's key. */
  lemma EntryLog(t: Fields, k: string, v: Value, st: StrategyMap, dflt: string, depth: nat)
    ensures MergeEntry(t, k, v, st, dflt, depth).log == MergeValue(Lookup(t, k), k, v, st, dflt, depth).log
  {
  }

  /** Over a whole merge with distinct source keys, the lines logged for a
      source key at the merge's depth are those its own step logs against
      the target. */
  lemma {:induction false} KeyLogIsOwnStep(t: Fields, es: Fields, i: nat, j: nat, e: Event, st: StrategyMap, dflt: string, depth: nat)
    requires i <= j < |es| && NoDuplicates(KeysOf(es))
    requires MergeFields(t, es, i, st, dflt, depth).Merged?
    requires e.key == es[j].0 && e.depth == depth
    ensures Count(MergeFields(t, es, i, st, dflt, depth).log, e) == Count(MergeEntry(t, es[j].0, es[j].1, st, dflt, depth).log, e)
    decreases |es| - i
  {
    MergeFieldsUnfold(t, es, i, st, dflt, depth);
    var m := MergeEntry(t, es[i].0, es[i].1, st, dflt, depth);
    var rest := MergeFields(m.fields, es, i + 1, st, dflt, depth);
    CountAppend(m.log, rest.log, e);
    if i == j {
      assert KeysOf(es)[i] == e.key;
      assert e.key !in KeysOf(es)[i + 1..] by {
        forall n | i + 1 <= n < |es| ensures KeysOf(es)[n] != e.key { }
      }
      LaterKeysLogNothing(m.fields, es, i + 1, e, st, dflt, depth);
    } else {
      assert KeysOf(es)[j] == e.key && KeysOf(es)[i] == es[i].0;
      OtherKeysLogNothing(t, es[i].0, es[i].1, e, st, dflt, depth);
      EntryFrame(t, es[i].0, es[i].1, st, dflt, depth);
      KeyLogIsOwnStep(m.fields, es, i + 1, j, e, st, dflt, depth);
      EntryLog(m.fields, es[j].0, es[j].1, st, dflt, depth);
      EntryLog(t, es[j].0, es[j].1, st, dflt, depth);
    }
  }

  /** The audit trail: in the log of a successful merge, each source key
      has, at the merge's depth, one "deep merge" line if it recursed, one
      "concatenate" line with its counts if it concatenated, one
      incompatibility warning if its shapes do not match, and one override
      line if its mode is "override", and none of each otherwise. */
  lemma LogPerKey(t: Fields, es: Fields, j: nat, st: StrategyMap, dflt: string, depth: nat)
    requires j < |es| && NoDuplicates(KeysOf(es))
    requires MergeFields(t, es, 0, st, dflt, depth).Merged?
    ensures var log, k, v := MergeFields(t, es, 0, st, dflt, depth).log, es[j].0, es[j].1;
      Count(log, DeepMerged(k, depth)) == (if IsDeepMerge(t, k, v, st, dflt) then 1 else 0) &&
      (forall n, a :: Count(log, Concatenated(k, depth, n, a)) ==
        if IsConcat(t, k, v, st, dflt) && n == |v.items| && a == |Appended(Lookup(t, k).value.items, v.items)| then 1 else 0) &&
      Count(log, Incompatible(k, depth)) == (if IsMismatch(t, k, v, st, dflt) then 1 else 0) &&
      Count(log, Overridden(k, depth)) == (if Resolve(st, k, dflt) == OVERRIDE then 1 else 0)
  {
    var k, v := es[j].0, es[j].1;
    OwnKeyLog(t, k, v, st, dflt, depth);
    KeyLogIsOwnStep(t, es, 0, j, DeepMerged(k, depth), st, dflt, depth);
    KeyLogIsOwnStep(t, es, 0, j, Incompatible(k, depth), st, dflt, depth);
    KeyLogIsOwnStep(t, es, 0, j, Overridden(k, depth), st, dflt, depth);
    forall n, a ensures Count(MergeFields(t, es, 0, st, dflt, depth).log, Concatenated(k, depth, n, a))
                     == Count(MergeEntry(t, k, v, st, dflt, depth).log, Concatenated(k, depth, n, a)) {
      KeyLogIsOwnStep(t, es, 0, j, Concatenated(k, depth, n, a), st, dflt, depth);
    }
  }

  /** A key outside the remaining source keys gets no line at this depth. */
  lemma {:induction false} LaterKeysLogNothing(t: Fields, es: Fields, i: nat, e: Event, st: StrategyMap, dflt: string, depth: nat)
    requires i <= |es| && e.key !in KeysOf(es)[i..] && e.depth == depth
    ensures Count(MergeFields(t, es, i, st, dflt, depth).log, e) == 0
    decreases |es| - i
  {
    if i < |es| {
      MergeFieldsUnfold(t, es, i, st, dflt, depth);
      assert KeysOf(es)[i] == es[i].0;
      OtherKeysLogNothing(t, es[i].0, es[i].1, e, st, dflt, depth);
      var m := MergeEntry(t, es[i].0, es[i].1, st, dflt, depth);
      if m.Merged? {
        var rest := MergeFields(m.fields, es, i + 1, st, dflt, depth);
        assert KeysOf(es)[i + 1..] == KeysOf(es)[i..][1..];
        LaterKeysLogNothing(m.fields, es, i + 1, e, st, dflt, depth);
        CountAppend(m.log, rest.log, e);
      }
    }
  }

  // ---------------------------------------------------------------------
  // Without "merge" modes the merge is a plain overlay
  // ---------------------------------------------------------------------

  /** If no source key resolves to "merge", the result is the target updated
      by the source, and when every key resolves to "override" the log is one
      override line per key. */
  lemma {:induction false} NoMergeIsOverlay(t: Fields, es: Fields, i: nat, st: StrategyMap, dflt: string, depth: nat)
    requires i <= |es|
    requires forall n :: i <= n < |es| ==> Resolve(st, es[n].0, dflt) != MERGE
    ensures MergeFields(t, es, i, st, dflt, depth).Merged?
    ensures MergeFields(t, es, i, st, dflt, depth).fields == Overlay(t, es[i..])
    ensures (forall n :: i <= n < |es| ==> Resolve(st, es[n].0, dflt) == OVERRIDE) ==>
      MergeFields(t, es, i, st, dflt, depth).log == OverrideLog(es[i..], depth)
    decreases |es| - i
  {
    if i == |es| {
      assert es[i..] == [];
    } else {
      MergeFieldsUnfold(t, es, i, st, dflt, depth);
      var t' := Assign(t, es[i].0, es[i].1);
      NoMergeIsOverlay(t', es, i + 1, st, dflt, depth);
      assert es[i..][0] == es[i] && es[i..][1..] == es[i + 1..];
    }
  }

  /** Overlaying pairs the target already holds changes nothing. */
  lemma {:induction false} OverlayHeld(t: Fields, es: Fields)
    requires forall n :: 0 <= n < |es| ==> Lookup(t, es[n].0) == Some(es[n].1)
    ensures Overlay(t, es) == t
    decreases |es|
  {
    if es != [] {
      AssignUnchanged(t, es[0].0, es[0].1);
      OverlayHeld(t, es[1..]);
    }
  }

  // ---------------------------------------------------------------------
  // The driver's fold
  // ---------------------------------------------------------------------

  /** No valid document (and so nothing written) exactly when no file
      parsed. */
  lemma {:induction false} NoValidIffNoneLoaded(files: seq<LoadResult<Value>>, st: StrategyMap, dflt: string)
    ensures Output(files, st, dflt).None? <==> forall n :: 0 <= n < |files| ==> !files[n].Loaded?
    ensures Fold(files, st, dflt).valid == 0 <==> forall n :: 0 <= n < |files| ==> !files[n].Loaded?
    decreases |files|
  {
    if files != [] {
      var init := files[..|files| - 1];
      NoValidIffNoneLoaded(init, st, dflt);
      assert forall n :: 0 <= n < |init| ==> init[n] == files[n];
    }
  }

  /** The first document that parses becomes the base, unchanged. */
  lemma FirstLoadedIsBase(skipped: seq<LoadResult<Value>>, d: Value, st: StrategyMap, dflt: string)
    requires forall n :: 0 <= n < |skipped| ==> !skipped[n].Loaded?
    ensures Fold(skipped + [Loaded(d)], st, dflt).merged == d
    ensures Fold(skipped + [Loaded(d)], st, dflt).valid == 1
  {
    NoValidIffNoneLoaded(skipped, st, dflt);
    assert (skipped + [Loaded(d)])[..|skipped|] == skipped;
  }

  /** A missing or unparsable file anywhere in the list changes nothing. */
  lemma {:induction false} SkippedFileIgnored(a: seq<LoadResult<Value>>, f: LoadResult<Value>, b: seq<LoadResult<Value>>, st: StrategyMap, dflt: string)
    requires !f.Loaded?
    ensures Fold(a + [f] + b, st, dflt) == Fold(a + b, st, dflt)
    decreases |b|
  {
    if b == [] {
      assert (a + [f])[..|a|] == a;
      assert a + [f] + b == a + [f] && a + b == a;
    } else {
      var b' := b[..|b| - 1];
      SkippedFileIgnored(a, f, b', st, dflt);
      assert (a + [f] + b)[..|a + [f] + b| - 1] == a + [f] + b';
      assert (a + b)[..|a + b| - 1] == a + b';
    }
  }

  /** A later document whose merge throws is skipped whole, wherever it
      stands in the list: the merged content and the count of valid files,
      then and after every later file, are those of the list without it
      (only the log keeps the lines emitted before the throw). */
  lemma {:induction false} ThrowingFileSkipped(a: seq<LoadResult<Value>>, d: Value, b: seq<LoadResult<Value>>, st: StrategyMap, dflt: string)
    requires Fold(a, st, dflt).valid > 0
    requires DeepMerge(Fold(a, st, dflt).merged, d, st, dflt, 0).Threw?
    ensures Fold(a + [Loaded(d)] + b, st, dflt).merged == Fold(a + b, st, dflt).merged
    ensures Fold(a + [Loaded(d)] + b, st, dflt).valid == Fold(a + b, st, dflt).valid
    decreases |b|
  {
    if b == [] {
      assert (a + [Loaded(d)])[..|a|] == a;
      assert a + [Loaded(d)] + b == a + [Loaded(d)] && a + b == a;
    } else {
      var b' := b[..|b| - 1];
      ThrowingFileSkipped(a, d, b', st, dflt);
      assert (a + [Loaded(d)] + b)[..|a + [Loaded(d)] + b| - 1] == a + [Loaded(d)] + b';
      assert (a + b)[..|a + b| - 1] == a + b';
      assert (a + [Loaded(d)] + b)[|a + [Loaded(d)] + b| - 1] == b[|b| - 1] == (a + b)[|a + b| - 1];
    }
  }
}
