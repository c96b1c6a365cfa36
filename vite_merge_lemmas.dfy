/** What `mergeFieldsByStrategy` guarantees about the object it builds. */
module ViteMergeLemmas {
  import opened Common
  import opened Strategy
  import opened ViteAst
  import opened ViteMerge

  // ---------------------------------------------------------------------
  // The map of existing properties (lines 70-75)
  // ---------------------------------------------------------------------

  /** The keys of the identifier-keyed members of `props`, in order. */
  function NamedKeys(props: seq<Member>): seq<Option<string>>
  {
    if props == [] then []
    else
      var p := props[|props| - 1];
      NamedKeys(props[..|props| - 1]) + (if IsNamed(p) then [Some(p.key.name)] else [])
  }

  /** The last identifier-keyed member of `props` whose key is `k`. */
  function LastNamed(props: seq<Member>, k: Option<string>): Option<Member>
  {
    if props == [] then None
    else
      var p := props[|props| - 1];
      if IsNamed(p) && Some(p.key.name) == k then Some(p) else LastNamed(props[..|props| - 1], k)
  }

  /** The map holds the identifier-keyed members only: a key appears once,
      at the position of its first occurrence, and holds the last member
      with that key. String-literal keys and spread elements are dropped. */
  lemma {:induction false} ExistingMapSpec(props: seq<Member>)
    ensures KeysOf(ExistingMap(props)) == FirstNew([], NamedKeys(props))
    ensures forall k :: Lookup(ExistingMap(props), k) == LastNamed(props, k)
    ensures Lookup(ExistingMap(props), None) == None
  {
    if props != [] {
      var pre, p := props[..|props| - 1], props[|props| - 1];
      var m := ExistingMap(pre);
      ExistingMapSpec(pre);
      if IsNamed(p) {
        var k := Some(p.key.name);
        AssignKeys(m, k, p);
        FirstNewSnoc([], NamedKeys(pre), k);
        FirstNewSpec([], NamedKeys(pre));
        forall j ensures Lookup(ExistingMap(props), j) == LastNamed(props, j) {
          LookupAssign(m, k, p, j);
        }
      } else {
        assert NamedKeys(props) == NamedKeys(pre) + [] == NamedKeys(pre);
        assert ExistingMap(props) == m;
      }
    }
  }

  // ---------------------------------------------------------------------
  // One property at a time
  // ---------------------------------------------------------------------

  /** The key of an incoming member, as line 78 reads it. */
  function MemberKey(m: Member): Option<string>
  {
    if m.Property? then KeyName(m.key) else None
  }

  function IncomingKeys(incoming: seq<Member>): seq<Option<string>>
  {
    seq(|incoming|, j requires 0 <= j < |incoming| => MemberKey(incoming[j]))
  }

  lemma MergePropsUnfold(m: PropMap, incoming: seq<Member>, i: nat, st: StrategyMap, pr: Printer, depth: nat)
    requires i < |incoming| && incoming[i].Property?
    ensures var p := incoming[i]; var o := PropEntry(m, KeyName(p.key), p.key, p.value, st, pr, depth);
      MergeProps(m, incoming, i, st, pr, depth)
      == if o.Failed? then Failed(o.log) else Then(o.log, MergeProps(o.props, incoming, i + 1, st, pr, depth))
  {
  }

  /** A property's step writes its own key and no other. */
  lemma EntryFrame(m: PropMap, key: Option<string>, kn: Node, b: Node, st: StrategyMap, pr: Printer, depth: nat)
    ensures var o := PropEntry(m, key, kn, b, st, pr, depth);
      o.Done? ==>
        KeysOf(o.props) == (if key in KeysOf(m) then KeysOf(m) else KeysOf(m) + [key]) &&
        Lookup(o.props, key) == Some(PropStep(Lookup(m, key), key, kn, b, st, pr, depth).prop) &&
        forall j :: j != key ==> Lookup(o.props, j) == Lookup(m, j)
  {
    var o := PropEntry(m, key, kn, b, st, pr, depth);
    if o.Done? {
      var p := PropStep(Lookup(m, key), key, kn, b, st, pr, depth).prop;
      AssignKeys(m, key, p);
      forall j ensures Lookup(o.props, j) == if j == key then Some(p) else Lookup(m, j) {
        LookupAssign(m, key, p, j);
      }
    }
  }

  /** A successful merge read no spread element at its own level. */
  lemma {:induction false} DoneHasNoSpread(m: PropMap, incoming: seq<Member>, i: nat, st: StrategyMap, pr: Printer, depth: nat)
    requires i <= |incoming|
    requires MergeProps(m, incoming, i, st, pr, depth).Done?
    ensures forall j :: i <= j < |incoming| ==> incoming[j].Property?
    decreases |incoming| - i
  {
    if i < |incoming| {
      var p := incoming[i];
      MergePropsUnfold(m, incoming, i, st, pr, depth);
      var o := PropEntry(m, KeyName(p.key), p.key, p.value, st, pr, depth);
      DoneHasNoSpread(o.props, incoming, i + 1, st, pr, depth);
    }
  }

  /** The keys no later member names keep what they held. */
  lemma {:induction false} MergeKeepsOthers(m: PropMap, incoming: seq<Member>, i: nat, st: StrategyMap, pr: Printer, depth: nat, k: Option<string>)
    requires i <= |incoming|
    requires MergeProps(m, incoming, i, st, pr, depth).Done?
    requires k !in IncomingKeys(incoming)[i..]
    ensures Lookup(MergeProps(m, incoming, i, st, pr, depth).props, k) == Lookup(m, k)
    decreases |incoming| - i
  {
    if i < |incoming| {
      var p := incoming[i];
      MergePropsUnfold(m, incoming, i, st, pr, depth);
      assert IncomingKeys(incoming)[i] == KeyName(p.key);
      EntryFrame(m, KeyName(p.key), p.key, p.value, st, pr, depth);
      var o := PropEntry(m, KeyName(p.key), p.key, p.value, st, pr, depth);
      assert IncomingKeys(incoming)[i + 1..] == IncomingKeys(incoming)[i..][1..];
      MergeKeepsOthers(o.props, incoming, i + 1, st, pr, depth, k);
    }
  }

  /** The result's order: the keys already in the map keep their slots, and
      the incoming keys it lacked follow in incoming order. */
  lemma {:induction false} MergeKeys(m: PropMap, incoming: seq<Member>, i: nat, st: StrategyMap, pr: Printer, depth: nat)
    requires i <= |incoming|
    requires MergeProps(m, incoming, i, st, pr, depth).Done?
    ensures KeysOf(MergeProps(m, incoming, i, st, pr, depth).props) == KeysOf(m) + FirstNew(KeysOf(m), IncomingKeys(incoming)[i..])
    decreases |incoming| - i
  {
    if i == |incoming| {
      assert IncomingKeys(incoming)[i..] == [];
    } else {
      var p := incoming[i];
      var k := KeyName(p.key);
      MergePropsUnfold(m, incoming, i, st, pr, depth);
      EntryFrame(m, k, p.key, p.value, st, pr, depth);
      var o := PropEntry(m, k, p.key, p.value, st, pr, depth);
      MergeKeys(o.props, incoming, i + 1, st, pr, depth);
      var ks := IncomingKeys(incoming)[i..];
      assert ks[0] == k && ks[1..] == IncomingKeys(incoming)[i + 1..];
      FirstNewStep(KeysOf(m), ks, KeysOf(o.props));
    }
  }

  /** An incoming key that no other incoming member has holds, after a
      successful merge, what its own step produced against the original
      map. */
  lemma {:induction false} KeyByKey(m: PropMap, incoming: seq<Member>, i: nat, j: nat, st: StrategyMap, pr: Printer, depth: nat)
    requires i <= j < |incoming| && OccursOnce(IncomingKeys(incoming), j)
    requires MergeProps(m, incoming, i, st, pr, depth).Done?
    ensures incoming[j].Property?
    ensures var p := incoming[j]; var s := PropStep(Lookup(m, KeyName(p.key)), KeyName(p.key), p.key, p.value, st, pr, depth);
      s.Put? && Lookup(MergeProps(m, incoming, i, st, pr, depth).props, KeyName(p.key)) == Some(s.prop)
    decreases j - i
  {
    DoneHasNoSpread(m, incoming, i, st, pr, depth);
    if i == j {
      OwnKeyHeld(m, incoming, i, st, pr, depth);
    } else {
      var p := incoming[i];
      MergePropsUnfold(m, incoming, i, st, pr, depth);
      var o := PropEntry(m, KeyName(p.key), p.key, p.value, st, pr, depth);
      var k := KeyName(incoming[j].key);
      assert IncomingKeys(incoming)[i] == KeyName(p.key) && IncomingKeys(incoming)[j] == k;
      EntryFrame(m, KeyName(p.key), p.key, p.value, st, pr, depth);
      KeyByKey(o.props, incoming, i + 1, j, st, pr, depth);
    }
  }

  /** The case of `KeyByKey` where the key is the first one merged. */
  lemma OwnKeyHeld(m: PropMap, incoming: seq<Member>, i: nat, st: StrategyMap, pr: Printer, depth: nat)
    requires i < |incoming| && incoming[i].Property? && OccursOnce(IncomingKeys(incoming), i)
    requires MergeProps(m, incoming, i, st, pr, depth).Done?
    ensures var p := incoming[i]; var s := PropStep(Lookup(m, KeyName(p.key)), KeyName(p.key), p.key, p.value, st, pr, depth);
      s.Put? && Lookup(MergeProps(m, incoming, i, st, pr, depth).props, KeyName(p.key)) == Some(s.prop)
  {
    var p := incoming[i];
    var k := KeyName(p.key);
    MergePropsUnfold(m, incoming, i, st, pr, depth);
    var o := PropEntry(m, k, p.key, p.value, st, pr, depth);
    assert IncomingKeys(incoming)[i] == k;
    EntryFrame(m, k, p.key, p.value, st, pr, depth);
    assert k !in IncomingKeys(incoming)[i + 1..] by {
      forall n | i + 1 <= n < |incoming| ensures IncomingKeys(incoming)[n] != k { }
    }
    MergeKeepsOthers(o.props, incoming, i + 1, st, pr, depth, k);
  }

  /** Where each incoming property ends up, in a successful merge of the
      whole object. The map keys are those of the existing identifier-keyed
      members, in first-occurrence order, followed by the new incoming
      keys; an existing key no incoming member names keeps the last
      existing member with that key; every incoming member is a property,
      and an incoming key no other incoming member has holds what its step
      wrote. */
  lemma MergedObjectSpec(existing: seq<Member>, incoming: seq<Member>, st: StrategyMap, pr: Printer, depth: nat)
    requires MergeProps(ExistingMap(existing), incoming, 0, st, pr, depth).Done?
    ensures var r, e := MergeProps(ExistingMap(existing), incoming, 0, st, pr, depth).props, ExistingMap(existing);
      KeysOf(r) == FirstNew([], NamedKeys(existing)) + FirstNew(KeysOf(e), IncomingKeys(incoming)) &&
      (forall k :: k !in IncomingKeys(incoming) ==> Lookup(r, k) == LastNamed(existing, k)) &&
      (forall j :: 0 <= j < |incoming| ==> incoming[j].Property?) &&
      (forall j :: 0 <= j < |incoming| && OccursOnce(IncomingKeys(incoming), j) ==>
        var p := incoming[j]; var s := PropStep(LastNamed(existing, KeyName(p.key)), KeyName(p.key), p.key, p.value, st, pr, depth);
        s.Put? && Lookup(r, KeyName(p.key)) == Some(s.prop))
  {
    var e := ExistingMap(existing);
    ExistingMapSpec(existing);
    MergeKeys(e, incoming, 0, st, pr, depth);
    DoneHasNoSpread(e, incoming, 0, st, pr, depth);
    assert IncomingKeys(incoming)[0..] == IncomingKeys(incoming);
    forall k | k !in IncomingKeys(incoming)
      ensures Lookup(MergeProps(e, incoming, 0, st, pr, depth).props, k) == LastNamed(existing, k) {
      MergeKeepsOthers(e, incoming, 0, st, pr, depth, k);
    }
    forall j | 0 <= j < |incoming| && OccursOnce(IncomingKeys(incoming), j)
      ensures var p := incoming[j]; var s := PropStep(LastNamed(existing, KeyName(p.key)), KeyName(p.key), p.key, p.value, st, pr, depth);
        s.Put? && Lookup(MergeProps(e, incoming, 0, st, pr, depth).props, KeyName(p.key)) == Some(s.prop) {
      KeyByKey(e, incoming, 0, j, st, pr, depth);
    }
  }

  /** The final property of an incoming key that no other incoming member
      has, case by case as lines 85-125 decide it, against the last
      existing member with that key: two array literals under "merge" give
      the existing property with the new elements appended; two object
      literals under "merge" give the existing property holding the nested
      merge one level deeper; anything else gives the incoming property. */
  lemma MergedPropertyAt(existing: seq<Member>, incoming: seq<Member>, j: nat, st: StrategyMap, pr: Printer, depth: nat)
    requires OccursOnce(IncomingKeys(incoming), j)
    requires MergeProps(ExistingMap(existing), incoming, 0, st, pr, depth).Done?
    ensures incoming[j].Property?
    ensures var r := MergeProps(ExistingMap(existing), incoming, 0, st, pr, depth).props;
      var p := incoming[j]; var key := KeyName(p.key); var b := p.value;
      var ep := LastNamed(existing, key);
      var merging := Resolve(st, KeyText(key), MERGE) == MERGE && ep.Some? && ValueOf(ep.value).Some?;
      var a := if merging then ValueOf(ep.value).value else b;
      (merging && a.ArrayExpr? && b.ArrayExpr? ==>
        Lookup(r, key) == Some(ep.value.(value := ArrayExpr(a.elements + Fresh(Printed(pr, a.elements), b.elements, pr))))) &&
      (merging && a.ObjectExpr? && b.ObjectExpr? ==>
        var nested := MergeByStrategy(a.members, b.members, st, pr, depth + 1);
        nested.Merged? && Lookup(r, key) == Some(ep.value.(value := nested.obj))) &&
      (!(merging && ((a.ArrayExpr? && b.ArrayExpr?) || (a.ObjectExpr? && b.ObjectExpr?))) ==>
        Lookup(r, key) == Some(p))
  {
    MergedObjectSpec(existing, incoming, st, pr, depth);
    var p := incoming[j];
    var key := KeyName(p.key);
    var ep := LastNamed(existing, key);
    var mode := Resolve(st, KeyText(key), MERGE);
    if mode == MERGE && ep.Some? && ValueOf(ep.value).Some? && ValueOf(ep.value).value.ArrayExpr? && p.value.ArrayExpr? {
      ArraysConcatenate(ep, key, p.key, p.value, st, pr, depth);
    } else if mode == MERGE && ep.Some? && ValueOf(ep.value).Some? && ValueOf(ep.value).value.ObjectExpr? && p.value.ObjectExpr? {
      ObjectsMerge(ep, key, p.key, p.value, st, pr, depth);
    } else {
      PropertyReplaced(ep, key, p.key, p.value, st, pr, depth);
    }
  }

  // ---------------------------------------------------------------------
  // De-duplication of array elements by printed text (lines 91-104)
  // ---------------------------------------------------------------------

  /** The appended elements come from the incoming array, print to texts
      that are new and pairwise distinct, and with the already present
      texts cover every incoming element's text; their texts are the new
      incoming texts in first-seen order. */
  lemma FreshSpec(seen: seq<string>, els: seq<Node>, pr: Printer)
    ensures var a := Fresh(seen, els, pr);
      (forall x :: x in a ==> x in els) &&
      (forall x :: x in a ==> pr(x) !in seen) &&
      NoDuplicates(Printed(pr, a)) &&
      (forall x :: x in els ==> pr(x) in seen || pr(x) in Printed(pr, a)) &&
      |a| <= |els| &&
      Printed(pr, a) == FirstNew(seen, Printed(pr, els))
  {
    FreshFrom(seen, els, pr);
    FreshDistinct(seen, els, pr);
    FreshCovers(seen, els, pr);
    FreshTexts(seen, els, pr);
  }

  /** The order, and which element is kept: one more incoming element is
      appended at the end exactly when its text is neither seen nor the
      text of an earlier incoming element. So the appended elements are
      the incoming ones in their order, each the first with its text. */
  lemma {:induction false} FreshSnoc(seen: seq<string>, els: seq<Node>, x: Node, pr: Printer)
    ensures Fresh(seen, els + [x], pr)
         == Fresh(seen, els, pr) + (if pr(x) in seen || pr(x) in Printed(pr, els) then [] else [x])
    decreases |els|
  {
    if els == [] {
      assert [] + [x] == [x];
    } else {
      var y := els[0];
      assert (els + [x])[0] == y && (els + [x])[1..] == els[1..] + [x];
      assert Printed(pr, els) == [pr(y)] + Printed(pr, els[1..]);
      if pr(y) in seen {
        FreshSnoc(seen, els[1..], x, pr);
      } else {
        FreshSnoc(seen + [pr(y)], els[1..], x, pr);
        assert pr(x) in seen + [pr(y)] || pr(x) in Printed(pr, els[1..]) <==> pr(x) in seen || pr(x) in Printed(pr, els);
      }
    }
  }

  lemma {:induction false} FreshTexts(seen: seq<string>, els: seq<Node>, pr: Printer)
    ensures Printed(pr, Fresh(seen, els, pr)) == FirstNew(seen, Printed(pr, els))
    decreases |els|
  {
    if els != [] {
      var x := els[0];
      assert Printed(pr, els)[0] == pr(x) && Printed(pr, els)[1..] == Printed(pr, els[1..]);
      if pr(x) in seen {
        FreshTexts(seen, els[1..], pr);
      } else {
        FreshTexts(seen + [pr(x)], els[1..], pr);
        var r := Fresh(seen + [pr(x)], els[1..], pr);
        assert Printed(pr, [x] + r) == [pr(x)] + Printed(pr, r);
      }
    }
  }

  /** The appended elements come from the incoming array, print unlike
      anything seen, and are no more than the incoming ones. */
  lemma {:induction false} FreshFrom(seen: seq<string>, els: seq<Node>, pr: Printer)
    ensures var a := Fresh(seen, els, pr);
      (forall x :: x in a ==> x in els) && (forall x :: x in a ==> pr(x) !in seen) && |a| <= |els|
    decreases |els|
  {
    if els != [] {
      FreshFrom(seen, els[1..], pr);
      FreshFrom(seen + [pr(els[0])], els[1..], pr);
    }
  }

  /** No two appended elements print alike. */
  lemma {:induction false} FreshDistinct(seen: seq<string>, els: seq<Node>, pr: Printer)
    ensures NoDuplicates(Printed(pr, Fresh(seen, els, pr)))
    decreases |els|
  {
    if els != [] {
      var x := els[0];
      FreshDistinct(seen, els[1..], pr);
      if pr(x) !in seen {
        FreshDistinct(seen + [pr(x)], els[1..], pr);
        FreshFrom(seen + [pr(x)], els[1..], pr);
        var r := Fresh(seen + [pr(x)], els[1..], pr);
        var a := [x] + r;
        assert Fresh(seen, els, pr) == a;
        forall i, j | 0 <= i < j < |Printed(pr, a)| ensures Printed(pr, a)[i] != Printed(pr, a)[j] {
          if i == 0 {
            assert Printed(pr, a)[j] == pr(r[j - 1]);
            assert r[j - 1] in r;
          } else {
            assert Printed(pr, a)[i] == Printed(pr, r)[i - 1];
            assert Printed(pr, a)[j] == Printed(pr, r)[j - 1];
          }
        }
      }
    }
  }

  /** Every incoming element prints like a seen or an appended one. */
  lemma {:induction false} FreshCovers(seen: seq<string>, els: seq<Node>, pr: Printer)
    ensures forall x :: x in els ==> pr(x) in seen || pr(x) in Printed(pr, Fresh(seen, els, pr))
    decreases |els|
  {
    if els != [] {
      var x := els[0];
      if pr(x) in seen {
        FreshCovers(seen, els[1..], pr);
        assert forall y :: y in els ==> y == x || y in els[1..];
      } else {
        FreshCovers(seen + [pr(x)], els[1..], pr);
        var r := Fresh(seen + [pr(x)], els[1..], pr);
        var a := [x] + r;
        assert Fresh(seen, els, pr) == a;
        forall y | y in els ensures pr(y) in seen || pr(y) in Printed(pr, a) {
          assert Printed(pr, a)[0] == pr(x);
          if y != x {
            assert y in els[1..];
            if pr(y) in Printed(pr, r) {
              var n :| 0 <= n < |Printed(pr, r)| && Printed(pr, r)[n] == pr(y);
              assert Printed(pr, a)[n + 1] == pr(y);
            }
          } else {
            assert Printed(pr, a)[0] == pr(x);
          }
        }
      }
    }
  }

  /** Merging an array with one whose elements all print like elements
      already there appends nothing; in particular an array merged with
      itself is unchanged. */
  lemma {:induction false} NothingNewNothingAdded(seen: seq<string>, els: seq<Node>, pr: Printer)
    requires forall x :: x in els ==> pr(x) in seen
    ensures Fresh(seen, els, pr) == []
    decreases |els|
  {
    if els != [] {
      assert els[0] in els;
      assert forall x :: x in els[1..] ==> x in els;
      NothingNewNothingAdded(seen, els[1..], pr);
    }
  }

  lemma SelfArrayUnchanged(xs: seq<Node>, pr: Printer)
    ensures Fresh(Printed(pr, xs), xs, pr) == []
  {
    forall x | x in xs ensures pr(x) in Printed(pr, xs) {
      var n :| 0 <= n < |xs| && xs[n] == x;
      assert Printed(pr, xs)[n] == pr(x);
    }
    NothingNewNothingAdded(Printed(pr, xs), xs, pr);
  }

  // ---------------------------------------------------------------------
  // The log (lines 105, 113, 118 and 122)
  // ---------------------------------------------------------------------

  /** The names the incoming members are logged under. */
  function IncomingNames(incoming: seq<Member>): seq<string>
  {
    seq(|incoming|, j requires 0 <= j < |incoming| => KeyText(MemberKey(incoming[j])))
  }

  /** Every line a merge at depth d logs is at depth d or deeper. */
  lemma {:induction false} LogDepthProps(m: PropMap, incoming: seq<Member>, i: nat, st: StrategyMap, pr: Printer, depth: nat)
    requires i <= |incoming|
    ensures AtLeastDepth(MergeProps(m, incoming, i, st, pr, depth).log, depth)
    decreases ObjectExpr(incoming), |incoming| - i
  {
    if i < |incoming| && incoming[i].Property? {
      var p := incoming[i];
      assert p.value < incoming[i];
      MergePropsUnfold(m, incoming, i, st, pr, depth);
      EntryOfStep(m, KeyName(p.key), p.key, p.value, st, pr, depth);
      LogDepthStep(Lookup(m, KeyName(p.key)), KeyName(p.key), p.key, p.value, st, pr, depth);
      var o := PropEntry(m, KeyName(p.key), p.key, p.value, st, pr, depth);
      if o.Done? {
        LogDepthProps(o.props, incoming, i + 1, st, pr, depth);
      }
    }
  }

  lemma {:induction false} LogDepthStep(existing: Option<Member>, key: Option<string>, kn: Node, b: Node, st: StrategyMap, pr: Printer, depth: nat)
    ensures AtLeastDepth(PropStep(existing, key, kn, b, st, pr, depth).log, depth)
    decreases b, if b.ObjectExpr? then |b.members| + 1 else 0
  {
    if Resolve(st, KeyText(key), MERGE) == MERGE && existing.Some? && ValueOf(existing.value).Some? {
      var a := ValueOf(existing.value).value;
      if !(a.ArrayExpr? && b.ArrayExpr?) && a.ObjectExpr? && b.ObjectExpr? {
        LogDepthProps(ExistingMap(a.members), b.members, 0, st, pr, depth + 1);
      }
    }
  }

  /** A step logs, at its own depth, only lines under its own name. */
  lemma OtherNamesLogNothing(existing: Option<Member>, key: Option<string>, kn: Node, b: Node, e: Event, st: StrategyMap, pr: Printer, depth: nat)
    requires e.key != KeyText(key) && e.depth == depth
    ensures Count(PropStep(existing, key, kn, b, st, pr, depth).log, e) == 0
  {
    if Resolve(st, KeyText(key), MERGE) == MERGE && existing.Some? && ValueOf(existing.value).Some? {
      var a := ValueOf(existing.value).value;
      if !(a.ArrayExpr? && b.ArrayExpr?) && a.ObjectExpr? && b.ObjectExpr? {
        var nested := MergeProps(ExistingMap(a.members), b.members, 0, st, pr, depth + 1);
        LogDepthProps(ExistingMap(a.members), b.members, 0, st, pr, depth + 1);
        CountAppend([DeepMerged(KeyText(key), depth)], nested.log, e);
        CountDeeper(nested.log, depth + 1, e);
      }
    }
  }

  /** "Merge" mode against an existing property. */
  predicate Merging(existing: Option<Member>, key: Option<string>, st: StrategyMap)
  {
    Resolve(st, KeyText(key), MERGE) == MERGE && existing.Some? && ValueOf(existing.value).Some?
  }

  predicate ArraysMeet(existing: Option<Member>, key: Option<string>, b: Node, st: StrategyMap)
  {
    Merging(existing, key, st) && ValueOf(existing.value).value.ArrayExpr? && b.ArrayExpr?
  }

  predicate ObjectsMeet(existing: Option<Member>, key: Option<string>, b: Node, st: StrategyMap)
  {
    Merging(existing, key, st) && ValueOf(existing.value).value.ObjectExpr? && b.ObjectExpr?
  }

  /** The lines a step logs under its own name at its own depth: one "deep
      merge" line exactly when two object literals meet under "merge", one
      "concatenate" line, with the incoming length and the number added,
      exactly when two array literals do, one incompatibility warning when
      "merge" meets an existing property otherwise, and one override line
      exactly when the mode is "override". */
  lemma OwnStepLog(existing: Option<Member>, key: Option<string>, kn: Node, b: Node, st: StrategyMap, pr: Printer, depth: nat)
    ensures var log, name := PropStep(existing, key, kn, b, st, pr, depth).log, KeyText(key);
      Count(log, DeepMerged(name, depth)) == (if ObjectsMeet(existing, key, b, st) then 1 else 0) &&
      (forall n, c :: Count(log, Concatenated(name, depth, n, c)) ==
        if ArraysMeet(existing, key, b, st) && n == |b.elements| &&
           c == |Fresh(Printed(pr, ValueOf(existing.value).value.elements), b.elements, pr)| then 1 else 0) &&
      Count(log, Incompatible(name, depth)) ==
        (if Resolve(st, name, MERGE) == MERGE && existing.Some? && !ArraysMeet(existing, key, b, st) && !ObjectsMeet(existing, key, b, st) then 1 else 0) &&
      Count(log, Overridden(name, depth)) == (if Resolve(st, name, MERGE) == OVERRIDE then 1 else 0)
  {
    var name := KeyText(key);
    if ObjectsMeet(existing, key, b, st) {
      var a := ValueOf(existing.value).value;
      var nested := MergeProps(ExistingMap(a.members), b.members, 0, st, pr, depth + 1);
      var log := PropStep(existing, key, kn, b, st, pr, depth).log;
      assert log == [DeepMerged(name, depth)] + nested.log;
      LogDepthProps(ExistingMap(a.members), b.members, 0, st, pr, depth + 1);
      CountAppend([DeepMerged(name, depth)], nested.log, DeepMerged(name, depth));
      CountAppend([DeepMerged(name, depth)], nested.log, Incompatible(name, depth));
      CountAppend([DeepMerged(name, depth)], nested.log, Overridden(name, depth));
      CountDeeper(nested.log, depth + 1, DeepMerged(name, depth));
      CountDeeper(nested.log, depth + 1, Incompatible(name, depth));
      CountDeeper(nested.log, depth + 1, Overridden(name, depth));
      forall n, c ensures Count(log, Concatenated(name, depth, n, c)) == 0 {
        CountAppend([DeepMerged(name, depth)], nested.log, Concatenated(name, depth, n, c));
        CountDeeper(nested.log, depth + 1, Concatenated(name, depth, n, c));
      }
    }
  }

  /** A name outside the remaining incoming members gets no line at this
      depth. */
  lemma {:induction false} LaterNamesLogNothing(m: PropMap, incoming: seq<Member>, i: nat, e: Event, st: StrategyMap, pr: Printer, depth: nat)
    requires i <= |incoming| && e.key !in IncomingNames(incoming)[i..] && e.depth == depth
    ensures Count(MergeProps(m, incoming, i, st, pr, depth).log, e) == 0
    decreases |incoming| - i
  {
    if i < |incoming| && incoming[i].Property? {
      var p := incoming[i];
      MergePropsUnfold(m, incoming, i, st, pr, depth);
      EntryOfStep(m, KeyName(p.key), p.key, p.value, st, pr, depth);
      assert IncomingNames(incoming)[i] == KeyText(KeyName(p.key));
      OtherNamesLogNothing(Lookup(m, KeyName(p.key)), KeyName(p.key), p.key, p.value, e, st, pr, depth);
      var o := PropEntry(m, KeyName(p.key), p.key, p.value, st, pr, depth);
      if o.Done? {
        var rest := MergeProps(o.props, incoming, i + 1, st, pr, depth);
        assert IncomingNames(incoming)[i + 1..] == IncomingNames(incoming)[i..][1..];
        LaterNamesLogNothing(o.props, incoming, i + 1, e, st, pr, depth);
        CountAppend(o.log, rest.log, e);
      }
    }
  }

  /** Over a whole successful merge, the lines logged at its depth under
      the name of an incoming key that no other incoming member shares are
      those its own step logs against the original map. */
  lemma {:induction false} NameLogIsOwnStep(m: PropMap, incoming: seq<Member>, i: nat, j: nat, e: Event, st: StrategyMap, pr: Printer, depth: nat)
    requires i <= j < |incoming| && OccursOnce(IncomingNames(incoming), j)
    requires MergeProps(m, incoming, i, st, pr, depth).Done?
    requires e.key == IncomingNames(incoming)[j] && e.depth == depth
    ensures incoming[j].Property?
    ensures var p := incoming[j];
      Count(MergeProps(m, incoming, i, st, pr, depth).log, e)
      == Count(PropStep(Lookup(m, KeyName(p.key)), KeyName(p.key), p.key, p.value, st, pr, depth).log, e)
    decreases |incoming| - i
  {
    DoneHasNoSpread(m, incoming, i, st, pr, depth);
    if i == j {
      OwnNameLog(m, incoming, i, e, st, pr, depth);
    } else {
      var p := incoming[i];
      MergePropsUnfold(m, incoming, i, st, pr, depth);
      EntryOfStep(m, KeyName(p.key), p.key, p.value, st, pr, depth);
      var o := PropEntry(m, KeyName(p.key), p.key, p.value, st, pr, depth);
      CountAppend(o.log, MergeProps(o.props, incoming, i + 1, st, pr, depth).log, e);
      assert IncomingNames(incoming)[i] == KeyText(KeyName(p.key));
      assert IncomingNames(incoming)[j] == KeyText(KeyName(incoming[j].key));
      OtherNamesLogNothing(Lookup(m, KeyName(p.key)), KeyName(p.key), p.key, p.value, e, st, pr, depth);
      EntryFrame(m, KeyName(p.key), p.key, p.value, st, pr, depth);
      NameLogIsOwnStep(o.props, incoming, i + 1, j, e, st, pr, depth);
    }
  }

  /** The case of `NameLogIsOwnStep` where the name is the first one merged. */
  lemma OwnNameLog(m: PropMap, incoming: seq<Member>, i: nat, e: Event, st: StrategyMap, pr: Printer, depth: nat)
    requires i < |incoming| && incoming[i].Property? && OccursOnce(IncomingNames(incoming), i)
    requires MergeProps(m, incoming, i, st, pr, depth).Done?
    requires e.key == IncomingNames(incoming)[i] && e.depth == depth
    ensures var p := incoming[i];
      Count(MergeProps(m, incoming, i, st, pr, depth).log, e)
      == Count(PropStep(Lookup(m, KeyName(p.key)), KeyName(p.key), p.key, p.value, st, pr, depth).log, e)
  {
    var p := incoming[i];
    MergePropsUnfold(m, incoming, i, st, pr, depth);
    EntryOfStep(m, KeyName(p.key), p.key, p.value, st, pr, depth);
    var o := PropEntry(m, KeyName(p.key), p.key, p.value, st, pr, depth);
    CountAppend(o.log, MergeProps(o.props, incoming, i + 1, st, pr, depth).log, e);
    assert e.key !in IncomingNames(incoming)[i + 1..] by {
      forall n | i + 1 <= n < |incoming| ensures IncomingNames(incoming)[n] != e.key { }
    }
    LaterNamesLogNothing(o.props, incoming, i + 1, e, st, pr, depth);
  }

  /** The audit trail of a successful merge of the whole object: under the
      name of an incoming key that no other incoming member shares, the
      lines at the merge's depth are those of its step against the last
      existing member with that key, as `OwnStepLog` counts them. */
  lemma LogPerKey(existing: seq<Member>, incoming: seq<Member>, j: nat, st: StrategyMap, pr: Printer, depth: nat)
    requires OccursOnce(IncomingNames(incoming), j)
    requires MergeProps(ExistingMap(existing), incoming, 0, st, pr, depth).Done?
    ensures incoming[j].Property?
    ensures var log := MergeProps(ExistingMap(existing), incoming, 0, st, pr, depth).log;
      var p := incoming[j]; var key := KeyName(p.key); var b := p.value; var name := KeyText(key);
      var ep := LastNamed(existing, key);
      Count(log, DeepMerged(name, depth)) == (if ObjectsMeet(ep, key, b, st) then 1 else 0) &&
      (forall n, c :: Count(log, Concatenated(name, depth, n, c)) ==
        if ArraysMeet(ep, key, b, st) && n == |b.elements| &&
           c == |Fresh(Printed(pr, ValueOf(ep.value).value.elements), b.elements, pr)| then 1 else 0) &&
      Count(log, Incompatible(name, depth)) ==
        (if Resolve(st, name, MERGE) == MERGE && ep.Some? && !ArraysMeet(ep, key, b, st) && !ObjectsMeet(ep, key, b, st) then 1 else 0) &&
      Count(log, Overridden(name, depth)) == (if Resolve(st, name, MERGE) == OVERRIDE then 1 else 0)
  {
    var e := ExistingMap(existing);
    ExistingMapSpec(existing);
    DoneHasNoSpread(e, incoming, 0, st, pr, depth);
    var p := incoming[j];
    var key, name := KeyName(p.key), KeyText(KeyName(p.key));
    assert IncomingNames(incoming)[j] == name;
    OwnStepLog(LastNamed(existing, key), key, p.key, p.value, st, pr, depth);
    NameLogIsOwnStep(e, incoming, 0, j, DeepMerged(name, depth), st, pr, depth);
    NameLogIsOwnStep(e, incoming, 0, j, Incompatible(name, depth), st, pr, depth);
    NameLogIsOwnStep(e, incoming, 0, j, Overridden(name, depth), st, pr, depth);
    forall n, c ensures Count(MergeProps(e, incoming, 0, st, pr, depth).log, Concatenated(name, depth, n, c))
                     == Count(PropStep(LastNamed(existing, key), key, p.key, p.value, st, pr, depth).log, Concatenated(name, depth, n, c)) {
      NameLogIsOwnStep(e, incoming, 0, j, Concatenated(name, depth, n, c), st, pr, depth);
    }
  }

  // ---------------------------------------------------------------------
  // When the merge throws
  // ---------------------------------------------------------------------

  /** No spread element among the incoming members, at any depth of
      nested object literals. */
  predicate NoSpread(ms: seq<Member>)
  {
    forall j :: 0 <= j < |ms| ==> NoSpreadMember(ms[j])
  }

  predicate NoSpreadMember(m: Member)
  {
    match m
    case Property(_, v) => NoSpreadValue(v)
    case SpreadElement(_) => false
  }

  predicate NoSpreadValue(n: Node)
  {
    n.ObjectExpr? ==> NoSpread(n.members)
  }

  /** Without spread elements in the incoming object the merge never
      throws; a spread element at its top level always makes it throw. */
  lemma {:induction false} NoSpreadNeverThrows(m: PropMap, incoming: seq<Member>, i: nat, st: StrategyMap, pr: Printer, depth: nat)
    requires i <= |incoming| && NoSpread(incoming)
    ensures MergeProps(m, incoming, i, st, pr, depth).Done?
    decreases ObjectExpr(incoming), |incoming| - i
  {
    if i < |incoming| {
      var p := incoming[i];
      assert p.value < incoming[i];
      StepNeverThrows(Lookup(m, KeyName(p.key)), KeyName(p.key), p.key, p.value, st, pr, depth);
      MergePropsUnfold(m, incoming, i, st, pr, depth);
      var o := PropEntry(m, KeyName(p.key), p.key, p.value, st, pr, depth);
      NoSpreadNeverThrows(o.props, incoming, i + 1, st, pr, depth);
    }
  }

  lemma {:induction false} StepNeverThrows(existing: Option<Member>, key: Option<string>, kn: Node, b: Node, st: StrategyMap, pr: Printer, depth: nat)
    requires NoSpreadValue(b)
    ensures PropStep(existing, key, kn, b, st, pr, depth).Put?
    decreases b, if b.ObjectExpr? then |b.members| + 1 else 0
  {
    if b.ObjectExpr? && existing.Some? && existing.value.Property? && existing.value.value.ObjectExpr? {
      NoSpreadNeverThrows(ExistingMap(existing.value.value.members), b.members, 0, st, pr, depth + 1);
    }
  }

  lemma SpreadThrows(m: PropMap, incoming: seq<Member>, i: nat, j: nat, st: StrategyMap, pr: Printer, depth: nat)
    requires i <= j < |incoming| && incoming[j].SpreadElement?
    ensures MergeProps(m, incoming, i, st, pr, depth).Failed?
  {
    if MergeProps(m, incoming, i, st, pr, depth).Done? {
      DoneHasNoSpread(m, incoming, i, st, pr, depth);
    }
  }

  // ---------------------------------------------------------------------
  // Examples
  // ---------------------------------------------------------------------

  /** Duplicate identifier keys of the existing object collapse into the
      first slot, holding the last member; a string-literal key and a
      spread element are dropped; a new incoming key is appended. */
  lemma ExistingKeysCollapse(pr: Printer)
    ensures MergeByStrategy(
              [Property(Identifier("base"), Literal("'/'")),
               Property(Literal("'mode'"), Literal("'dev'")),
               SpreadElement(Identifier("shared")),
               Property(Identifier("base"), Literal("'/app/'"))],
              [Property(Identifier("root"), Literal("'src'"))],
              map[], pr, 0)
         == Merged(ObjectExpr([Property(Identifier("base"), Literal("'/app/'")),
                               Property(Identifier("root"), Literal("'src'"))]), [])
  {
    var existing := [Property(Identifier("base"), Literal("'/'")),
                     Property(Literal("'mode'"), Literal("'dev'")),
                     SpreadElement(Identifier("shared")),
                     Property(Identifier("base"), Literal("'/app/'"))];
    assert existing[..1][..0] == [];
    assert existing[..2][..1] == existing[..1];
    assert existing[..3][..2] == existing[..2];
    assert existing[..3] == existing[..|existing| - 1];
    assert ExistingMap(existing[..1]) == [(Some("base"), existing[0])];
    assert ExistingMap(existing[..3]) == [(Some("base"), existing[0])];
    assert ExistingMap(existing) == [(Some("base"), existing[3])];
  }

  /** Incoming properties with string-literal keys all share the key
      `undefined`: the second is merged against the first (with a warning,
      as two literals) and only the last one is kept. */
  lemma LiteralKeysShareOneSlot(pr: Printer)
    ensures MergeByStrategy(
              [],
              [Property(Literal("'a'"), Literal("1")), Property(Literal("'b'"), Literal("2"))],
              map[], pr, 0)
         == Merged(ObjectExpr([Property(Literal("'b'"), Literal("2"))]), [Incompatible("undefined", 0)])
  {
  }
}
