/** What `mergeImportDeclarations` guarantees. */
module ViteImportsLemmas {
  import opened Common
  import opened ViteAst
  import opened ViteImports

  /** Every survivor is filed under its own source, and the sources appear
      once each, in the order they are first seen. */
  lemma {:induction false} SeenSpec(imps: seq<Import>, pr: Printer)
    ensures KeysOf(MergeImports(imps, pr)) == FirstNew([], Sources(imps))
    ensures forall x :: x in MergeImports(imps, pr) ==> x.1.source == x.0
  {
    if imps != [] {
      var pre, imp := imps[..|imps| - 1], imps[|imps| - 1];
      var m := MergeImports(pre, pr);
      SeenSpec(pre, pr);
      assert Sources(imps) == Sources(pre) + [imp.source];
      FirstNewSnoc([], Sources(pre), imp.source);
      FirstNewSpec([], Sources(pre));
      match Lookup(m, imp.source)
      case None =>
        AssignKeys(m, imp.source, imp);
        AssignSlots(m, imp.source, imp);
      case Some(e) =>
        var v := e.(specifiers := e.specifiers + Unseen(Printed(pr, e.specifiers), imp.specifiers, pr));
        LookupIn(m, imp.source);
        AssignKeys(m, imp.source, v);
        AssignSlots(m, imp.source, v);
    }
  }

  lemma {:induction false} SourcesOfValues(m: Seen)
    requires forall x :: x in m ==> x.1.source == x.0
    ensures Sources(ValuesOf(m)) == KeysOf(m)
  {
    forall i | 0 <= i < |m| ensures Sources(ValuesOf(m))[i] == KeysOf(m)[i] {
      assert m[i] in m;
    }
  }

  /** One declaration per module source, in first-seen order across all
      files. */
  lemma OneDeclarationPerSource(groups: seq<seq<Import>>, pr: Printer)
    ensures Sources(MergedImports(groups, pr)) == FirstNew([], Sources(Flatten(groups)))
    ensures NoDuplicates(Sources(MergedImports(groups, pr)))
    ensures forall src :: src in Sources(MergedImports(groups, pr)) <==> src in Sources(Flatten(groups))
  {
    SeenSpec(Flatten(groups), pr);
    SourcesOfValues(MergeImports(Flatten(groups), pr));
    FirstNewSpec([], Sources(Flatten(groups)));
  }

  /** `Unseen` is the filter it is meant to be. */
  lemma {:induction false} UnseenSpec(snapshot: seq<string>, specs: seq<Node>, pr: Printer)
    ensures forall s :: s in Unseen(snapshot, specs, pr) ==> s in specs && pr(s) !in snapshot
    ensures forall s :: s in specs ==> pr(s) in snapshot || s in Unseen(snapshot, specs, pr)
  {
    if specs != [] {
      var pre := specs[..|specs| - 1];
      UnseenSpec(snapshot, pre, pr);
      assert specs == pre + [specs[|specs| - 1]];
    }
  }

  lemma PrintedPrefix(a: seq<Node>, b: seq<Node>, pr: Printer)
    requires a <= b
    ensures forall t :: t in Printed(pr, a) ==> t in Printed(pr, b)
  {
    forall t | t in Printed(pr, a) ensures t in Printed(pr, b) {
      var n :| 0 <= n < |a| && Printed(pr, a)[n] == t;
      assert Printed(pr, b)[n] == t;
    }
  }

  /** Later declarations only extend a survivor's specifiers. */
  lemma {:induction false} SurvivorGrows(xs: seq<Import>, ys: seq<Import>, src: string, pr: Printer)
    requires Lookup(MergeImports(xs, pr), src).Some?
    ensures Lookup(MergeImports(xs + ys, pr), src).Some?
    ensures Lookup(MergeImports(xs, pr), src).value.specifiers <= Lookup(MergeImports(xs + ys, pr), src).value.specifiers
    ensures Lookup(MergeImports(xs + ys, pr), src).value.source == Lookup(MergeImports(xs, pr), src).value.source
  {
    if ys == [] {
      assert xs + ys == xs;
    } else {
      var pre, imp := ys[..|ys| - 1], ys[|ys| - 1];
      SurvivorGrows(xs, pre, src, pr);
      assert xs + ys == (xs + pre) + [imp];
      MergeImportsSnoc(xs + pre, imp, pr);
      var m := MergeImports(xs + pre, pr);
      match Lookup(m, imp.source)
      case None =>
        LookupAssign(m, imp.source, imp, src);
      case Some(e) =>
        var v := e.(specifiers := e.specifiers + Unseen(Printed(pr, e.specifiers), imp.specifiers, pr));
        LookupAssign(m, imp.source, v, src);
    }
  }

  /** The first declaration of a source is its survivor: the result's
      declaration for that source, here the source of `imp` among the
      declarations `pre + [imp] + post`, begins with the first one's
      specifiers. */
  lemma FirstDeclarationSurvives(pre: seq<Import>, imp: Import, post: seq<Import>, pr: Printer)
    requires imp.source !in Sources(pre)
    ensures Lookup(MergeImports(pre + [imp] + post, pr), imp.source).Some?
    ensures imp.specifiers <= Lookup(MergeImports(pre + [imp] + post, pr), imp.source).value.specifiers
  {
    NewSourceStored(pre, imp, pr);
    SurvivorGrows(pre + [imp], post, imp.source, pr);
  }

  /** A declaration whose source has not been seen is stored as it is. */
  lemma NewSourceStored(pre: seq<Import>, imp: Import, pr: Printer)
    requires imp.source !in Sources(pre)
    ensures Lookup(MergeImports(pre + [imp], pr), imp.source) == Some(imp)
  {
    var m := MergeImports(pre, pr);
    SeenSpec(pre, pr);
    FirstNewSpec([], Sources(pre));
    LookupSomeIffKey(m, imp.source);
    MergeImportsSnoc(pre, imp, pr);
    LookupAssign(m, imp.source, imp, imp.source);
  }

  /** Right after a declaration's step, each of its specifiers prints like
      one of the survivor's. */
  lemma StepCovers(m: Seen, imp: Import, s: Node, pr: Printer)
    requires s in imp.specifiers
    ensures Lookup(ImportStep(m, imp, pr), imp.source).Some?
    ensures pr(s) in Printed(pr, Lookup(ImportStep(m, imp, pr), imp.source).value.specifiers)
  {
    match Lookup(m, imp.source)
    case None =>
      LookupAssign(m, imp.source, imp, imp.source);
      var i :| 0 <= i < |imp.specifiers| && imp.specifiers[i] == s;
      assert Printed(pr, imp.specifiers)[i] == pr(s);
    case Some(e) =>
      var added := Unseen(Printed(pr, e.specifiers), imp.specifiers, pr);
      var v := e.(specifiers := e.specifiers + added);
      LookupAssign(m, imp.source, v, imp.source);
      UnseenSpec(Printed(pr, e.specifiers), imp.specifiers, pr);
      PrintedPrefix(e.specifiers, v.specifiers, pr);
      if s in added {
        var i :| 0 <= i < |added| && added[i] == s;
        assert v.specifiers[|e.specifiers| + i] == s;
        assert Printed(pr, v.specifiers)[|e.specifiers| + i] == pr(s);
      }
  }

  /** No specifier is lost: every specifier of every declaration, here
      `imp` among all the declarations `xs + [imp] + ys`, prints like a
      specifier of the survivor for its source. */
  lemma SpecifiersCovered(xs: seq<Import>, imp: Import, ys: seq<Import>, s: Node, pr: Printer)
    requires s in imp.specifiers
    ensures Lookup(MergeImports(xs + [imp] + ys, pr), imp.source).Some?
    ensures pr(s) in Printed(pr, Lookup(MergeImports(xs + [imp] + ys, pr), imp.source).value.specifiers)
  {
    CoveredAfterStep(xs, imp, s, pr);
    CoveredStays(xs + [imp], ys, imp.source, pr(s), pr);
  }

  lemma CoveredStays(xs: seq<Import>, ys: seq<Import>, src: string, t: string, pr: Printer)
    requires Lookup(MergeImports(xs, pr), src).Some?
    requires t in Printed(pr, Lookup(MergeImports(xs, pr), src).value.specifiers)
    ensures Lookup(MergeImports(xs + ys, pr), src).Some?
    ensures t in Printed(pr, Lookup(MergeImports(xs + ys, pr), src).value.specifiers)
  {
    SurvivorGrows(xs, ys, src, pr);
    PrintedPrefix(Lookup(MergeImports(xs, pr), src).value.specifiers, Lookup(MergeImports(xs + ys, pr), src).value.specifiers, pr);
  }

  lemma CoveredAfterStep(pre: seq<Import>, imp: Import, s: Node, pr: Printer)
    requires s in imp.specifiers
    ensures Lookup(MergeImports(pre + [imp], pr), imp.source).Some?
    ensures pr(s) in Printed(pr, Lookup(MergeImports(pre + [imp], pr), imp.source).value.specifiers)
  {
    MergeImportsSnoc(pre, imp, pr);
    StepCovers(MergeImports(pre, pr), imp, s, pr);
  }

  /** Some declaration among `imps` with source `src` lists `s`. */
  predicate Declared(imps: seq<Import>, src: string, s: Node)
  {
    exists k :: 0 <= k < |imps| && imps[k].source == src && s in imps[k].specifiers
  }

  /** Nothing is invented: every specifier of the survivor for a source
      comes from a declaration of that source. */
  lemma {:induction false} SpecifiersFromDeclarations(imps: seq<Import>, src: string, s: Node, pr: Printer)
    requires Lookup(MergeImports(imps, pr), src).Some?
    requires s in Lookup(MergeImports(imps, pr), src).value.specifiers
    ensures Declared(imps, src, s)
  {
    var pre, imp := imps[..|imps| - 1], imps[|imps| - 1];
    var m := MergeImports(pre, pr);
    match Lookup(m, imp.source)
    case None =>
      LookupAssign(m, imp.source, imp, src);
      if imp.source == src {
        assert imps[|imps| - 1] == imp;
      } else {
        SpecifiersFromDeclarations(pre, src, s, pr);
        var k :| 0 <= k < |pre| && pre[k].source == src && s in pre[k].specifiers;
        assert imps[k] == pre[k];
      }
    case Some(e) =>
      var added := Unseen(Printed(pr, e.specifiers), imp.specifiers, pr);
      LookupAssign(m, imp.source, e.(specifiers := e.specifiers + added), src);
      if imp.source == src && s in added {
        UnseenSpec(Printed(pr, e.specifiers), imp.specifiers, pr);
        assert imps[|imps| - 1] == imp;
      } else {
        SpecifiersFromDeclarations(pre, src, s, pr);
        var k :| 0 <= k < |pre| && pre[k].source == src && s in pre[k].specifiers;
        assert imps[k] == pre[k];
      }
  }

  /** Filtering keeps distinct printed texts distinct. */
  lemma {:induction false} UnseenDistinct(snapshot: seq<string>, specs: seq<Node>, pr: Printer)
    requires NoDuplicates(Printed(pr, specs))
    ensures NoDuplicates(Printed(pr, Unseen(snapshot, specs, pr)))
  {
    if specs != [] {
      var pre, s := specs[..|specs| - 1], specs[|specs| - 1];
      assert Printed(pr, pre) == Printed(pr, specs)[..|pre|];
      UnseenDistinct(snapshot, pre, pr);
      UnseenSpec(snapshot, pre, pr);
      var u := Unseen(snapshot, pre, pr);
      if pr(s) !in snapshot {
        forall n | 0 <= n < |u| ensures pr(u[n]) != pr(s) {
          var k :| 0 <= k < |pre| && pre[k] == u[n];
          assert Printed(pr, specs)[k] == pr(u[n]);
        }
      }
    }
  }

  /** A survivor repeats no printed specifier when no declaration does:
      the added specifiers print unlike the survivor's own (the snapshot)
      and unlike each other. */
  lemma {:induction false} SurvivorsDistinct(imps: seq<Import>, src: string, pr: Printer)
    requires forall k :: 0 <= k < |imps| ==> NoDuplicates(Printed(pr, imps[k].specifiers))
    requires Lookup(MergeImports(imps, pr), src).Some?
    ensures NoDuplicates(Printed(pr, Lookup(MergeImports(imps, pr), src).value.specifiers))
  {
    var pre, imp := imps[..|imps| - 1], imps[|imps| - 1];
    var m := MergeImports(pre, pr);
    assert NoDuplicates(Printed(pr, imp.specifiers)) by {
      assert imps[|imps| - 1] == imp;
    }
    assert forall k :: 0 <= k < |pre| ==> NoDuplicates(Printed(pr, pre[k].specifiers)) by {
      forall k | 0 <= k < |pre| ensures NoDuplicates(Printed(pr, pre[k].specifiers)) {
        assert imps[k] == pre[k];
      }
    }
    match Lookup(m, imp.source)
    case None =>
      LookupAssign(m, imp.source, imp, src);
      if imp.source != src {
        SurvivorsDistinct(pre, src, pr);
      }
    case Some(e) =>
      var added := Unseen(Printed(pr, e.specifiers), imp.specifiers, pr);
      LookupAssign(m, imp.source, e.(specifiers := e.specifiers + added), src);
      if imp.source == src {
        SurvivorsDistinct(pre, src, pr);
        UnseenDistinct(Printed(pr, e.specifiers), imp.specifiers, pr);
        UnseenSpec(Printed(pr, e.specifiers), imp.specifiers, pr);
        var all := e.specifiers + added;
        forall a, b | 0 <= a < b < |all| ensures pr(all[a]) != pr(all[b]) {
          if b >= |e.specifiers| {
            assert all[b] == added[b - |e.specifiers|];
            if a < |e.specifiers| {
              assert Printed(pr, e.specifiers)[a] == pr(all[a]);
            } else {
              assert all[a] == added[a - |e.specifiers|];
              assert Printed(pr, added)[a - |e.specifiers|] == pr(all[a]);
              assert Printed(pr, added)[b - |e.specifiers|] == pr(all[b]);
            }
          } else {
            assert Printed(pr, e.specifiers)[a] == pr(all[a]);
            assert Printed(pr, e.specifiers)[b] == pr(all[b]);
          }
        }
      } else {
        SurvivorsDistinct(pre, src, pr);
      }
  }

  /** A printer that prints an identifier as its name. */
  function NameText(n: Node): string
  {
    if n.Identifier? then n.name else ""
  }

  /** The printed texts are a snapshot taken once per later declaration:
      a specifier that occurs twice in it is added twice. */
  lemma SnapshotAddsRepeatedSpecifier()
    ensures MergedImports(
              [[Import("vue", [Identifier("ref")])],
               [Import("vue", [Identifier("computed"), Identifier("computed")])]],
              NameText)
         == [Import("vue", [Identifier("ref"), Identifier("computed"), Identifier("computed")])]
  {
    var i0, i1 := Import("vue", [Identifier("ref")]), Import("vue", [Identifier("computed"), Identifier("computed")]);
    var g0, g1 := [i0], [i1];
    var groups := [g0, g1];
    var none: seq<seq<Import>> := [];
    assert groups[..1] == [g0] && [g0][..0] == none;
    var noImports: seq<Import> := [];
    assert Flatten([g0]) == noImports + g0 == g0;
    assert Flatten(groups) == g0 + g1;
    MergeImportsSnoc(noImports, i0, NameText);
    assert noImports + [i0] == g0;
    var m0 := MergeImports(g0, NameText);
    assert m0 == [("vue", i0)];
    MergeImportsSnoc(g0, i1, NameText);
    assert Lookup(m0, "vue") == Some(i0);
    var specs := i1.specifiers;
    var noSpecs: seq<Node> := [];
    assert specs[..1][..0] == noSpecs && specs[..1] == [Identifier("computed")];
    assert Printed(NameText, i0.specifiers) == ["ref"];
    assert Unseen(["ref"], specs[..1], NameText) == [Identifier("computed")];
    assert Unseen(["ref"], specs, NameText) == specs;
    var joined := Import("vue", [Identifier("ref"), Identifier("computed"), Identifier("computed")]);
    assert i0.(specifiers := i0.specifiers + specs) == joined;
    assert ImportStep(m0, i1, NameText) == [("vue", joined)];
    assert MergeImports(g0 + g1, NameText) == [("vue", joined)];
    assert ValuesOf([("vue", joined)]) == [joined];
  }
}
