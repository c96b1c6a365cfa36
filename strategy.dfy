/** The strategy resolver shared by the three mergers, and the merge log.

    A strategy is the caller's record from field name to mode. The source
    looks a key up as `strategy[key] || <default>`, so a missing entry and an
    empty string both fall back to the merger's default; any other string is
    taken as it is, and only the two strings "merge" and "override" have a
    meaning to the mergers. */
module Strategy {

  const MERGE: string := "merge"
  const OVERRIDE: string := "override"

  type StrategyMap = map<string, string>

  /** `strategy[key] || dflt` */
  function Resolve(st: StrategyMap, key: string, dflt: string): (mode: string)
    ensures key !in st ==> mode == dflt
    ensures key in st && st[key] != "" ==> mode == st[key]
    ensures key in st && st[key] == "" ==> mode == dflt
    ensures mode == "" ==> dflt == ""
  {
    if key in st && st[key] != "" then st[key] else dflt
  }

  /** One line of the merge log, without its wording and indentation: which
      rule fired for which key at which recursion depth. */
  datatype Event =
    | DeepMerged(key: string, depth: nat)
      // "strategy=merge, type=object -> deep merge", logged before recursing
    | Concatenated(key: string, depth: nat, contributed: nat, added: nat)
      // "strategy=merge, type=array -> concatenate <contributed> items, <added> new after de-duplication"
    | Incompatible(key: string, depth: nat)
      // the warning "types are incompatible, using override"
    | Overridden(key: string, depth: nat)
      // "strategy=override -> replace"

  /** How many times `e` occurs in `log`. */
  function Count(log: seq<Event>, e: Event): nat
  {
    if log == [] then 0
    else (if log[0] == e then 1 else 0) + Count(log[1..], e)
  }

  /** True when every event of `log` was logged at depth `d` or deeper. */
  predicate AtLeastDepth(log: seq<Event>, d: nat)
  {
    forall i :: 0 <= i < |log| ==> log[i].depth >= d
  }

  lemma {:induction false} CountAppend(a: seq<Event>, b: seq<Event>, e: Event)
    ensures Count(a + b, e) == Count(a, e) + Count(b, e)
  {
    if a != [] {
      assert (a + b)[1..] == a[1..] + b;
      assert (a + b)[0] == a[0];
      CountAppend(a[1..], b, e);
    } else {
      assert a + b == b;
    }
  }

  /** An event shallower than every event of the log does not occur in it. */
  lemma {:induction false} CountDeeper(log: seq<Event>, d: nat, e: Event)
    requires AtLeastDepth(log, d) && e.depth < d
    ensures Count(log, e) == 0
  {
    if log != [] {
      assert log[0].depth >= d;
      CountDeeper(log[1..], d, e);
    }
  }
}
