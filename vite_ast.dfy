/** The syntax trees bin/mergeViteConfig.js works on, and its two tree
    searches `extractConfigObject` (lines 15-33) and `extractImports`
    (lines 35-44).

    Only the node kinds the merger inspects are distinguished; every other
    node is an `OtherNode` that keeps its children, in the order the
    visitor walks them, so that the searches can descend into it. */
module ViteAst {
  import opened Common

  datatype Node =
    | ObjectExpr(members: seq<Member>)             // `{ ... }`
    | ArrayExpr(elements: seq<Node>)               // `[ ... ]`
    | CallExpr(callee: Node, arguments: seq<Node>)
    | Identifier(name: string)
    | Literal(raw: string)                         // a string, number, boolean or null literal
    | ImportDecl(decl: Import)
    | ExportDefault(declaration: Node)
    | OtherNode(kind: string, children: seq<Node>)

  /** An object member: `key: value` (also `[key]: value`, a shorthand, or
      a method, whose body is an opaque value) or `...argument`. */
  datatype Member =
    | Property(key: Node, value: Node)
    | SpreadElement(argument: Node)

  /** An import declaration: the module it names and its specifiers
      (`x`, `{ a, b as c }`, `* as ns`), each an opaque node. */
  datatype Import = Import(source: string, specifiers: seq<Node>)

  /** `recast.print(node).code`: the printer is not modelled, the merger
      only ever compares printed texts for equality. */
  type Printer = Node -> string

  function Printed(pr: Printer, ns: seq<Node>): (r: seq<string>)
    ensures |r| == |ns| && forall i :: 0 <= i < |ns| ==> r[i] == pr(ns[i])
  {
    seq(|ns|, i requires 0 <= i < |ns| => pr(ns[i]))
  }

  /** `generateDefineConfig(configObject)` (lines 131-138). */
  function GenerateDefineConfig(config: Node): (r: Node)
    ensures config.ObjectExpr? ==> ConfigIn(r) == Some(config)
  {
    ExportDefault(CallExpr(Identifier("defineConfig"), [config]))
  }

  // ---------------------------------------------------------------------
  // extractConfigObject (lines 15-33)
  // ---------------------------------------------------------------------

  /** The test of lines 20-25: a call of the bare identifier `defineConfig`
      whose first argument is an object literal. */
  predicate IsConfigCall(n: Node)
  {
    n.CallExpr? && n.callee.Identifier? && n.callee.name == "defineConfig" &&
    |n.arguments| > 0 && n.arguments[0].ObjectExpr?
  }

  /** A found result overwrites an earlier one. */
  function Latest(later: Option<Node>, earlier: Option<Node>): Option<Node>
  {
    if later.Some? then later else earlier
  }

  /** The last config object the visitor assigns to `configNode` within `n`,
      walking it in pre-order: a matching call is recorded and its own
      children are not visited (`return false`); any other node is
      traversed. */
  function ConfigIn(n: Node): (r: Option<Node>)
    ensures r.Some? ==> r.value.ObjectExpr?
  {
    if IsConfigCall(n) then Some(n.arguments[0])
    else
      match n
      case ObjectExpr(ms) => ConfigInMembers(ms)
      case ArrayExpr(es) => ConfigInAll(es)
      case CallExpr(c, args) => Latest(ConfigInAll(args), ConfigIn(c))
      case ImportDecl(d) => ConfigInAll(d.specifiers)
      case ExportDefault(d) => ConfigIn(d)
      case OtherNode(_, cs) => ConfigInAll(cs)
      case _ => None
  }

  function ConfigInAll(ns: seq<Node>): (r: Option<Node>)
    ensures r.Some? ==> r.value.ObjectExpr?
  {
    if ns == [] then None
    else Latest(ConfigIn(ns[|ns| - 1]), ConfigInAll(ns[..|ns| - 1]))
  }

  function ConfigInMembers(ms: seq<Member>): (r: Option<Node>)
    ensures r.Some? ==> r.value.ObjectExpr?
  {
    if ms == [] then None
    else Latest(ConfigInMember(ms[|ms| - 1]), ConfigInMembers(ms[..|ms| - 1]))
  }

  function ConfigInMember(m: Member): (r: Option<Node>)
    ensures r.Some? ==> r.value.ObjectExpr?
  {
    match m
    case Property(k, v) => Latest(ConfigIn(v), ConfigIn(k))
    case SpreadElement(a) => ConfigIn(a)
  }

  /** A reference for the search: does a matching call occur anywhere in
      `n`, nested matches included. */
  predicate HasConfigCall(n: Node)
  {
    IsConfigCall(n) ||
    match n
    case ObjectExpr(ms) => exists j :: 0 <= j < |ms| && MemberHasConfigCall(ms[j])
    case ArrayExpr(es) => exists j :: 0 <= j < |es| && HasConfigCall(es[j])
    case CallExpr(c, args) => HasConfigCall(c) || exists j :: 0 <= j < |args| && HasConfigCall(args[j])
    case ImportDecl(d) => exists j :: 0 <= j < |d.specifiers| && HasConfigCall(d.specifiers[j])
    case ExportDefault(d) => HasConfigCall(d)
    case OtherNode(_, cs) => exists j :: 0 <= j < |cs| && HasConfigCall(cs[j])
    case _ => false
  }

  predicate MemberHasConfigCall(m: Member)
  {
    match m
    case Property(k, v) => HasConfigCall(k) || HasConfigCall(v)
    case SpreadElement(a) => HasConfigCall(a)
  }

  /** The visitor of lines 17-31 entered at `n` with `configNode` holding
      `found`. */
  method VisitConfig(n: Node, found: Option<Node>) returns (configNode: Option<Node>)
    ensures configNode == Latest(ConfigIn(n), found)
  {
    if IsConfigCall(n) {
      // record the match and do not traverse it
      return Some(n.arguments[0]);
    }
    match n
    case ObjectExpr(ms) =>
      configNode := found;
      for i := 0 to |ms|
        invariant configNode == Latest(ConfigInMembers(ms[..i]), found)
      {
        assert ms[..i + 1][..i] == ms[..i];
        match ms[i]
        case Property(k, v) =>
          configNode := VisitConfig(k, configNode);
          configNode := VisitConfig(v, configNode);
        case SpreadElement(a) =>
          configNode := VisitConfig(a, configNode);
      }
      assert ms[..|ms|] == ms;
    case ArrayExpr(es) =>
      configNode := VisitConfigAll(es, found);
    case CallExpr(c, args) =>
      configNode := VisitConfig(c, found);
      configNode := VisitConfigAll(args, configNode);
    case ImportDecl(d) =>
      configNode := VisitConfigAll(d.specifiers, found);
    case ExportDefault(d) =>
      configNode := VisitConfig(d, found);
    case OtherNode(_, cs) =>
      configNode := VisitConfigAll(cs, found);
    case Identifier(_) =>
      configNode := found;
    case Literal(_) =>
      configNode := found;
  }

  method VisitConfigAll(ns: seq<Node>, found: Option<Node>) returns (configNode: Option<Node>)
    ensures configNode == Latest(ConfigInAll(ns), found)
  {
    configNode := found;
    for i := 0 to |ns|
      invariant configNode == Latest(ConfigInAll(ns[..i]), found)
    {
      assert ns[..i + 1][..i] == ns[..i];
      configNode := VisitConfig(ns[i], configNode);
    }
    assert ns[..|ns|] == ns;
  }

  /** `extractConfigObject(ast)` on a program, its top-level statements. */
  method ExtractConfigObject(program: seq<Node>) returns (configNode: Option<Node>)
    ensures configNode == ConfigInAll(program)
    ensures configNode.Some? ==> configNode.value.ObjectExpr?
  {
    configNode := VisitConfigAll(program, None);
  }

  // ---------------------------------------------------------------------
  // extractImports (lines 35-44)
  // ---------------------------------------------------------------------

  /** Every import declaration within `n`, in pre-order (the visitor
      records a declaration and goes on into it). */
  function ImportsIn(n: Node): seq<Import>
  {
    match n
    case ObjectExpr(ms) => ImportsInMembers(ms)
    case ArrayExpr(es) => ImportsInAll(es)
    case CallExpr(c, args) => ImportsIn(c) + ImportsInAll(args)
    case ImportDecl(d) => [d] + ImportsInAll(d.specifiers)
    case ExportDefault(d) => ImportsIn(d)
    case OtherNode(_, cs) => ImportsInAll(cs)
    case _ => []
  }

  function ImportsInAll(ns: seq<Node>): seq<Import>
  {
    if ns == [] then [] else ImportsInAll(ns[..|ns| - 1]) + ImportsIn(ns[|ns| - 1])
  }

  function ImportsInMembers(ms: seq<Member>): seq<Import>
  {
    if ms == [] then [] else ImportsInMembers(ms[..|ms| - 1]) + ImportsInMember(ms[|ms| - 1])
  }

  function ImportsInMember(m: Member): seq<Import>
  {
    match m
    case Property(k, v) => ImportsIn(k) + ImportsIn(v)
    case SpreadElement(a) => ImportsIn(a)
  }

  /** The visitor of lines 37-42 entered at `n` with `imports` collected so far. */
  method VisitImports(n: Node, collected: seq<Import>) returns (imports: seq<Import>)
    ensures imports == collected + ImportsIn(n)
  {
    match n
    case ObjectExpr(ms) =>
      imports := collected;
      for i := 0 to |ms|
        invariant imports == collected + ImportsInMembers(ms[..i])
      {
        assert ms[..i + 1][..i] == ms[..i];
        match ms[i]
        case Property(k, v) =>
          imports := VisitImports(k, imports);
          imports := VisitImports(v, imports);
        case SpreadElement(a) =>
          imports := VisitImports(a, imports);
      }
      assert ms[..|ms|] == ms;
    case ArrayExpr(es) =>
      imports := VisitImportsAll(es, collected);
    case CallExpr(c, args) =>
      imports := VisitImports(c, collected);
      imports := VisitImportsAll(args, imports);
    case ImportDecl(d) =>
      // `imports.push(path.node)`, then `this.traverse(path)`
      imports := VisitImportsAll(d.specifiers, collected + [d]);
    case ExportDefault(d) =>
      imports := VisitImports(d, collected);
    case OtherNode(_, cs) =>
      imports := VisitImportsAll(cs, collected);
    case Identifier(_) =>
      imports := collected;
    case Literal(_) =>
      imports := collected;
  }

  method VisitImportsAll(ns: seq<Node>, collected: seq<Import>) returns (imports: seq<Import>)
    ensures imports == collected + ImportsInAll(ns)
  {
    imports := collected;
    for i := 0 to |ns|
      invariant imports == collected + ImportsInAll(ns[..i])
    {
      assert ns[..i + 1][..i] == ns[..i];
      imports := VisitImports(ns[i], imports);
    }
    assert ns[..|ns|] == ns;
  }

  /** `extractImports(ast)` on a program. */
  method ExtractImports(program: seq<Node>) returns (imports: seq<Import>)
    ensures imports == ImportsInAll(program)
  {
    imports := VisitImportsAll(program, []);
  }

  // ---------------------------------------------------------------------
  // Properties of the two searches
  // ---------------------------------------------------------------------

  lemma {:induction false} ConfigInAllNone(ns: seq<Node>)
    ensures ConfigInAll(ns).None? <==> forall j :: 0 <= j < |ns| ==> ConfigIn(ns[j]).None?
  {
    if ns != [] {
      var p := ns[..|ns| - 1];
      ConfigInAllNone(p);
      assert forall j :: 0 <= j < |p| ==> p[j] == ns[j];
    }
  }

  lemma {:induction false} ConfigInMembersNone(ms: seq<Member>)
    ensures ConfigInMembers(ms).None? <==> forall j :: 0 <= j < |ms| ==> ConfigInMember(ms[j]).None?
  {
    if ms != [] {
      var p := ms[..|ms| - 1];
      ConfigInMembersNone(p);
      assert forall j :: 0 <= j < |p| ==> p[j] == ms[j];
    }
  }

  /** `extractConfigObject` finds nothing exactly when no call anywhere in
      the tree passes its test: skipping the children of a match never
      hides the only match. */
  lemma {:induction false} NoConfigIffNoCall(n: Node)
    ensures ConfigIn(n).None? <==> !HasConfigCall(n)
  {
    if !IsConfigCall(n) {
      match n
      case ObjectExpr(ms) =>
        ConfigInMembersNone(ms);
        forall j | 0 <= j < |ms| ensures ConfigInMember(ms[j]).None? <==> !MemberHasConfigCall(ms[j]) {
          MemberNoConfigIffNoCall(ms[j]);
        }
      case ArrayExpr(es) =>
        ConfigInAllNone(es);
        forall j | 0 <= j < |es| ensures ConfigIn(es[j]).None? <==> !HasConfigCall(es[j]) {
          NoConfigIffNoCall(es[j]);
        }
      case CallExpr(c, args) =>
        NoConfigIffNoCall(c);
        ConfigInAllNone(args);
        forall j | 0 <= j < |args| ensures ConfigIn(args[j]).None? <==> !HasConfigCall(args[j]) {
          NoConfigIffNoCall(args[j]);
        }
      case ImportDecl(d) =>
        ConfigInAllNone(d.specifiers);
        forall j | 0 <= j < |d.specifiers| ensures ConfigIn(d.specifiers[j]).None? <==> !HasConfigCall(d.specifiers[j]) {
          NoConfigIffNoCall(d.specifiers[j]);
        }
      case ExportDefault(d) =>
        NoConfigIffNoCall(d);
      case OtherNode(_, cs) =>
        ConfigInAllNone(cs);
        forall j | 0 <= j < |cs| ensures ConfigIn(cs[j]).None? <==> !HasConfigCall(cs[j]) {
          NoConfigIffNoCall(cs[j]);
        }
      case Identifier(_) =>
      case Literal(_) =>
    }
  }

  lemma {:induction false} MemberNoConfigIffNoCall(m: Member)
    ensures ConfigInMember(m).None? <==> !MemberHasConfigCall(m)
  {
    match m
    case Property(k, v) =>
      NoConfigIffNoCall(k);
      NoConfigIffNoCall(v);
    case SpreadElement(a) =>
      NoConfigIffNoCall(a);
  }

  /** Of two runs of statements, a match in the later one wins. */
  lemma {:induction false} ConfigInAllAppend(a: seq<Node>, b: seq<Node>)
    ensures ConfigInAll(a + b) == Latest(ConfigInAll(b), ConfigInAll(a))
  {
    if b == [] {
      assert a + b == a;
    } else {
      var p := b[..|b| - 1];
      assert (a + b)[..|a + b| - 1] == a + p;
      assert (a + b)[|a + b| - 1] == b[|b| - 1];
      ConfigInAllAppend(a, p);
    }
  }

  /** The shape of a config file: whatever precedes it, a final
      `export default defineConfig({...}, ...)` supplies the config object,
      and calls nested inside that object are not looked at. */
  lemma ConfigOfDefiningFile(before: seq<Node>, members: seq<Member>, rest: seq<Node>)
    ensures ConfigInAll(before + [ExportDefault(CallExpr(Identifier("defineConfig"), [ObjectExpr(members)] + rest))])
         == Some(ObjectExpr(members))
  {
    var args := [ObjectExpr(members)] + rest;
    assert args[0] == ObjectExpr(members);
    assert IsConfigCall(CallExpr(Identifier("defineConfig"), args));
    var last := ExportDefault(CallExpr(Identifier("defineConfig"), args));
    assert ConfigIn(last) == Some(ObjectExpr(members));
    var p := before + [last];
    assert p[|p| - 1] == last;
  }

  lemma {:induction false} ImportsInAllAppend(a: seq<Node>, b: seq<Node>)
    ensures ImportsInAll(a + b) == ImportsInAll(a) + ImportsInAll(b)
  {
    if b == [] {
      assert a + b == a;
    } else {
      var p := b[..|b| - 1];
      assert (a + b)[..|a + b| - 1] == a + p;
      assert (a + b)[|a + b| - 1] == b[|b| - 1];
      ImportsInAllAppend(a, p);
    }
  }

  /** Every top-level import declaration is collected, after the ones
      found before it and followed by any found inside it. */
  lemma TopLevelImportCollected(before: seq<Node>, d: Import, after: seq<Node>)
    ensures ImportsInAll(before + [ImportDecl(d)] + after)
         == ImportsInAll(before) + ([d] + ImportsInAll(d.specifiers)) + ImportsInAll(after)
  {
    var x := ImportDecl(d);
    ImportsInAllAppend(before + [x], after);
    ImportsInAllAppend(before, [x]);
    SingleImports(x);
  }

  lemma SingleImports(x: Node)
    ensures ImportsInAll([x]) == ImportsIn(x)
  {
    assert [x][..0] == [];
  }
}
