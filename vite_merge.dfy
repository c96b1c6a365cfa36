/** `mergeFieldsByStrategy(existing, incoming, strategy, depth)` of
    bin/mergeViteConfig.js (lines 69-129): the merge of two object literals
    of a build configuration, node by node.

    The source keeps the merged properties in a `Map` keyed by
    `prop.key.name`, which is `undefined` (here `None`) for a property whose
    key is not an identifier. Nodes are values here: where the source
    updates a node held by that map in place (the array at line 104, the
    nested object at line 114), the model stores the updated node under the
    same key, which leaves its slot where it was. */
module ViteMerge {
  import opened Common
  import opened Strategy
  import opened ViteAst

  type PropMap = Dict<Option<string>, Member>

  /** `prop.key.name` */
  function KeyName(key: Node): (r: Option<string>)
    ensures r.Some? <==> key.Identifier?
  {
    if key.Identifier? then Some(key.name) else None
  }

  /** The text a key becomes as a property name of the strategy and in the
      log: `undefined` is converted to "undefined". */
  function KeyText(k: Option<string>): string
  {
    if k.Some? then k.value else "undefined"
  }

  /** The test of line 72: `prop.key && prop.key.name`. */
  predicate IsNamed(m: Member)
  {
    m.Property? && m.key.Identifier? && m.key.name != ""
  }

  /** `existingMap` after the loop of lines 71-75 over `props`. */
  function ExistingMap(props: seq<Member>): PropMap
  {
    if props == [] then []
    else
      var m := ExistingMap(props[..|props| - 1]);
      var p := props[|props| - 1];
      if IsNamed(p) then Assign(m, Some(p.key.name), p) else m
  }

  /** `existingProp?.value` */
  function ValueOf(m: Member): (r: Option<Node>)
    ensures r.Some? <==> m.Property?
  {
    if m.Property? then Some(m.value) else None
  }

  /** The elements the loop of lines 95-102 appends: those whose printed
      text is not in `seen`, which starts as the printed existing elements
      and grows by each appended element's text. */
  function Fresh(seen: seq<string>, els: seq<Node>, pr: Printer): seq<Node>
    decreases |els|
  {
    if els == [] then []
    else if pr(els[0]) in seen then Fresh(seen, els[1..], pr)
    else [els[0]] + Fresh(seen + [pr(els[0])], els[1..], pr)
  }

  /** The state of the loop over `incoming.properties`: the map and the log
      lines so far, or the TypeError of reading `.name` of a spread
      element's missing key. */
  datatype Outcome = Done(props: PropMap, log: seq<Event>) | Failed(log: seq<Event>)

  function Then(pre: seq<Event>, o: Outcome): (r: Outcome)
    ensures r.Done? == o.Done? && r.log == pre + o.log
    ensures r.Done? ==> r.props == o.props
  {
    match o
    case Done(m, l) => Done(m, pre + l)
    case Failed(l) => Failed(pre + l)
  }

  /** Merges the members `incoming[i..]` into the map `m`, in order. */
  function MergeProps(m: PropMap, incoming: seq<Member>, i: nat, st: StrategyMap, pr: Printer, depth: nat): Outcome
    requires i <= |incoming|
    decreases ObjectExpr(incoming), |incoming| - i
  {
    if i == |incoming| then Done(m, [])
    else
      match incoming[i]
      case SpreadElement(_) => Failed([])
      case Property(kn, b) =>
        match PropEntry(m, KeyName(kn), kn, b, st, pr, depth)
        case Failed(l) => Failed(l)
        case Done(m', l) => Then(l, MergeProps(m', incoming, i + 1, st, pr, depth))
  }

  /** One iteration of the loop, for the property `kn: b` whose key is `key`. */
  function PropEntry(m: PropMap, key: Option<string>, kn: Node, b: Node, st: StrategyMap, pr: Printer, depth: nat): Outcome
    decreases b, if b.ObjectExpr? then |b.members| + 2 else 1
  {
    match PropStep(Lookup(m, key), key, kn, b, st, pr, depth)
    case StepFailed(l) => Failed(l)
    case Put(p, l) => Done(Assign(m, key, p), l)
  }

  /** What one iteration leaves in the map under its key, and logs. */
  datatype Step = Put(prop: Member, log: seq<Event>) | StepFailed(log: seq<Event>)

  function PropStep(existing: Option<Member>, key: Option<string>, kn: Node, b: Node, st: StrategyMap, pr: Printer, depth: nat): Step
    decreases b, if b.ObjectExpr? then |b.members| + 1 else 0
  {
    var name := KeyText(key);
    var mode := Resolve(st, name, MERGE);
    if mode == MERGE && existing.Some? then
      var ep := existing.value;
      var a := ValueOf(ep);
      if a.Some? && a.value.ArrayExpr? && b.ArrayExpr? then
        var added := Fresh(Printed(pr, a.value.elements), b.elements, pr);
        Put(ep.(value := ArrayExpr(a.value.elements + added)), [Concatenated(name, depth, |b.elements|, |added|)])
      else if a.Some? && a.value.ObjectExpr? && b.ObjectExpr? then
        match MergeProps(ExistingMap(a.value.members), b.members, 0, st, pr, depth + 1)
        case Failed(l) => StepFailed([DeepMerged(name, depth)] + l)
        case Done(m, l) => Put(ep.(value := ObjectExpr(ValuesOf(m))), [DeepMerged(name, depth)] + l)
      else
        Put(Property(kn, b), [Incompatible(name, depth)])
    else
      Put(Property(kn, b), if mode == OVERRIDE then [Overridden(name, depth)] else [])
  }

  /** The outcome of a call: the object literal built from the map's
      values (line 128), or the TypeError it threw. */
  datatype Result = Merged(obj: Node, log: seq<Event>) | Threw(log: seq<Event>)

  function MergeByStrategy(existing: seq<Member>, incoming: seq<Member>, st: StrategyMap, pr: Printer, depth: nat): (r: Result)
    ensures r.Merged? ==> r.obj.ObjectExpr?
  {
    match MergeProps(ExistingMap(existing), incoming, 0, st, pr, depth)
    case Failed(l) => Threw(l)
    case Done(m, l) => Merged(ObjectExpr(ValuesOf(m)), l)
  }

  // ---------------------------------------------------------------------
  // The loops of the source, proved against the specification above
  // ---------------------------------------------------------------------

  /** Lines 70-75. */
  method BuildExistingMap(props: seq<Member>) returns (existingMap: PropMap)
    ensures existingMap == ExistingMap(props)
  {
    existingMap := [];
    for i := 0 to |props|
      invariant existingMap == ExistingMap(props[..i])
    {
      assert props[..i + 1][..i] == props[..i];
      var prop := props[i];
      if prop.Property? && prop.key.Identifier? && prop.key.name != "" {
        existingMap := Assign(existingMap, Some(prop.key.name), prop);
      }
    }
    assert props[..|props|] == props;
  }

  /** Lines 91-102: the set of printed existing elements, `newItems` and
      `addedCount`. */
  method AppendByPrint(existing: seq<Node>, incoming: seq<Node>, pr: Printer) returns (newItems: seq<Node>, addedCount: nat)
    ensures newItems == Fresh(Printed(pr, existing), incoming, pr)
    ensures addedCount == |newItems|
  {
    var existingItems: set<string> := set x | x in Printed(pr, existing);
    ghost var seen := Printed(pr, existing);
    newItems := [];
    addedCount := 0;
    assert incoming[0..] == incoming;
    for i := 0 to |incoming|
      invariant existingItems == set x | x in seen
      invariant newItems + Fresh(seen, incoming[i..], pr) == Fresh(Printed(pr, existing), incoming, pr)
      invariant addedCount == |newItems|
    {
      var el := incoming[i];
      var code := pr(el);
      assert incoming[i..][1..] == incoming[i + 1..];
      if code !in existingItems {
        assert newItems + ([el] + Fresh(seen + [code], incoming[i + 1..], pr))
            == (newItems + [el]) + Fresh(seen + [code], incoming[i + 1..], pr);
        newItems := newItems + [el];
        existingItems := existingItems + {code};
        seen := seen + [code];
        addedCount := addedCount + 1;
      }
    }
  }

  /** The whole of `mergeFieldsByStrategy`. */
  method MergeFieldsByStrategy(existing: seq<Member>, incoming: seq<Member>, st: StrategyMap, pr: Printer, depth: nat)
    returns (out: Result)
    ensures out == MergeByStrategy(existing, incoming, st, pr, depth)
    decreases ObjectExpr(incoming), 0
  {
    var existingMap := BuildExistingMap(existing);
    ghost var goal := MergeProps(existingMap, incoming, 0, st, pr, depth);
    var log: seq<Event> := [];
    for i := 0 to |incoming|
      invariant Then(log, MergeProps(existingMap, incoming, i, st, pr, depth)) == goal
    {
      var prop := incoming[i];
      if prop.SpreadElement? {
        // `prop.key.name` reads a property of `undefined`
        return Threw(log);
      }
      assert prop.value < incoming[i];
      var step := MergeProp(existingMap, KeyName(prop.key), prop.key, prop.value, st, pr, depth);
      if step.Failed? {
        return Threw(log + step.log);
      }
      ghost var rest := MergeProps(step.props, incoming, i + 1, st, pr, depth);
      assert log + step.log + rest.log == log + (step.log + rest.log);
      existingMap := step.props;
      log := log + step.log;
    }
    assert log + [] == log;
    return Merged(ObjectExpr(ValuesOf(existingMap)), log);
  }

  /** The body of the loop over `incoming.properties` (lines 78-125) for
      the property `kn: b`. */
  method MergeProp(existingMap: PropMap, key: Option<string>, kn: Node, b: Node, st: StrategyMap, pr: Printer, depth: nat)
    returns (out: Outcome)
    ensures out == PropEntry(existingMap, key, kn, b, st, pr, depth)
    decreases b, 2
  {
    var existingProp := Lookup(existingMap, key);
    var step := MergeStep(existingProp, key, kn, b, st, pr, depth);
    EntryOfStep(existingMap, key, kn, b, st, pr, depth);
    if step.StepFailed? {
      return Failed(step.log);
    }
    return Done(Assign(existingMap, key, step.prop), step.log);
  }

  /** What the body stores under the key, given the member `existingProp`
      the map held there, and what it logs. */
  method MergeStep(existingProp: Option<Member>, key: Option<string>, kn: Node, b: Node, st: StrategyMap, pr: Printer, depth: nat)
    returns (out: Step)
    ensures out == PropStep(existingProp, key, kn, b, st, pr, depth)
    decreases b, 1
  {
    var name := KeyText(key);
    var mergeMode := Resolve(st, name, MERGE);
    var log: seq<Event> := [];
    if mergeMode == MERGE && existingProp.Some? {
      var ep := existingProp.value;
      var a := ValueOf(ep);
      if a.Some? && a.value.ArrayExpr? && b.ArrayExpr? {
        var newItems, addedCount := AppendByPrint(a.value.elements, b.elements, pr);
        // `a.elements = [...a.elements, ...newItems]` on the node the map holds
        ArraysConcatenate(existingProp, key, kn, b, st, pr, depth);
        return Put(ep.(value := ArrayExpr(a.value.elements + newItems)), [Concatenated(name, depth, |b.elements|, addedCount)]);
      }
      if a.Some? && a.value.ObjectExpr? && b.ObjectExpr? {
        var nested := MergeFieldsByStrategy(a.value.members, b.members, st, pr, depth + 1);
        ObjectsMerge(existingProp, key, kn, b, st, pr, depth);
        if nested.Threw? {
          return StepFailed([DeepMerged(name, depth)] + nested.log);
        }
        // `existingProp.value = mergeFieldsByStrategy(a, b, ...)`
        return Put(ep.(value := nested.obj), [DeepMerged(name, depth)] + nested.log);
      }
      // the shapes do not match: warn, then fall through to the replacement
      log := [Incompatible(name, depth)];
    }
    if mergeMode == OVERRIDE {
      log := log + [Overridden(name, depth)];
    }
    PropertyReplaced(existingProp, key, kn, b, st, pr, depth);
    return Put(Property(kn, b), log);
  }

  /** The map after a step is the old one with the key assigned. */
  lemma EntryOfStep(m: PropMap, key: Option<string>, kn: Node, b: Node, st: StrategyMap, pr: Printer, depth: nat)
    ensures var s := PropStep(Lookup(m, key), key, kn, b, st, pr, depth);
      PropEntry(m, key, kn, b, st, pr, depth) == if s.StepFailed? then Failed(s.log) else Done(Assign(m, key, s.prop), s.log)
  {
  }

  // ---------------------------------------------------------------------
  // The outcomes of one step (lines 85-125), one lemma each
  // ---------------------------------------------------------------------

  /** Under "merge", an existing array property and an incoming array: the
      existing property keeps its key and gets the concatenation. */
  lemma ArraysConcatenate(existing: Option<Member>, key: Option<string>, kn: Node, b: Node, st: StrategyMap, pr: Printer, depth: nat)
    requires Resolve(st, KeyText(key), MERGE) == MERGE && existing.Some?
    requires ValueOf(existing.value).Some? && ValueOf(existing.value).value.ArrayExpr? && b.ArrayExpr?
    ensures var a := existing.value.value; var added := Fresh(Printed(pr, a.elements), b.elements, pr);
      PropStep(existing, key, kn, b, st, pr, depth)
      == Put(existing.value.(value := ArrayExpr(a.elements + added)), [Concatenated(KeyText(key), depth, |b.elements|, |added|)])
  {
  }

  /** Under "merge", an existing object property and an incoming object:
      the nested merge one level deeper, whose throw is the step's. */
  lemma ObjectsMerge(existing: Option<Member>, key: Option<string>, kn: Node, b: Node, st: StrategyMap, pr: Printer, depth: nat)
    requires Resolve(st, KeyText(key), MERGE) == MERGE && existing.Some?
    requires ValueOf(existing.value).Some? && ValueOf(existing.value).value.ObjectExpr? && b.ObjectExpr?
    ensures var r := MergeByStrategy(existing.value.value.members, b.members, st, pr, depth + 1);
      PropStep(existing, key, kn, b, st, pr, depth)
      == if r.Threw? then StepFailed([DeepMerged(KeyText(key), depth)] + r.log)
         else Put(existing.value.(value := r.obj), [DeepMerged(KeyText(key), depth)] + r.log)
  {
  }

  /** Otherwise the incoming property replaces whatever was there: with a
      warning when "merge" found a property of another shape, silently
      when there was none, with an override line under "override". */
  lemma PropertyReplaced(existing: Option<Member>, key: Option<string>, kn: Node, b: Node, st: StrategyMap, pr: Printer, depth: nat)
    requires var mode := Resolve(st, KeyText(key), MERGE);
      mode != MERGE || existing.None? || ValueOf(existing.value).None? ||
      !((ValueOf(existing.value).value.ArrayExpr? && b.ArrayExpr?) || (ValueOf(existing.value).value.ObjectExpr? && b.ObjectExpr?))
    ensures var mode := Resolve(st, KeyText(key), MERGE);
      PropStep(existing, key, kn, b, st, pr, depth)
      == Put(Property(kn, b), (if mode == MERGE && existing.Some? then [Incompatible(KeyText(key), depth)] else [])
                              + (if mode == OVERRIDE then [Overridden(KeyText(key), depth)] else []))
  {
  }
}
