/** Small shared vocabulary: an optional value, the outcome of loading one input
    file, and an insertion-ordered dictionary (the behaviour of a JavaScript
    object or `Map` whose keys are enumerated in insertion order). */
module Common {

  datatype Option<T> = None | Some(value: T)

  /** What the drivers learn about one input path before merging it:
      the file does not exist, it exists but does not parse, or it parsed. */
  datatype LoadResult<D> = Missing | Unparsable | Loaded(doc: D)

  /** An insertion-ordered dictionary: a sequence of (key, value) slots. */
  type Dict<K, V> = seq<(K, V)>

  function KeysOf<K, V>(m: Dict<K, V>): seq<K>
  {
    seq(|m|, i requires 0 <= i < |m| => m[i].0)
  }

  function ValuesOf<K, V>(m: Dict<K, V>): seq<V>
  {
    seq(|m|, i requires 0 <= i < |m| => m[i].1)
  }

  /** `m.get(k)` / `m[k]`: the value of the first slot holding `k`. */
  function Lookup<K(==), V>(m: Dict<K, V>, k: K): Option<V>
  {
    if m == [] then None
    else if m[0].0 == k then Some(m[0].1)
    else Lookup(m[1..], k)
  }

  /** `m.set(k, v)` / `m[k] = v`: an existing key keeps its slot and gets the
      new value; a new key is appended. */
  function Assign<K(==), V>(m: Dict<K, V>, k: K, v: V): Dict<K, V>
  {
    if m == [] then [(k, v)]
    else if m[0].0 == k then [(k, v)] + m[1..]
    else [m[0]] + Assign(m[1..], k, v)
  }

  predicate NoDuplicates<T(==)>(s: seq<T>)
  {
    forall i, j :: 0 <= i < j < |s| ==> s[i] != s[j]
  }

  /** The element at `j` occurs nowhere else in `s`. */
  predicate OccursOnce<T(==)>(s: seq<T>, j: nat)
  {
    j < |s| && forall n :: 0 <= n < |s| && n != j ==> s[n] != s[j]
  }

  /** The elements of `xs` that are not in `present` and not earlier in `xs`,
      in their order in `xs`. */
  function FirstNew<T(==)>(present: seq<T>, xs: seq<T>): seq<T>
    decreases |xs|
  {
    if xs == [] then []
    else if xs[0] in present then FirstNew(present, xs[1..])
    else [xs[0]] + FirstNew(present + [xs[0]], xs[1..])
  }

  lemma KeysOfCons<K, V>(m: Dict<K, V>)
    requires m != []
    ensures KeysOf(m) == [m[0].0] + KeysOf(m[1..])
  {
  }

  lemma {:induction false} LookupSomeIffKey<K, V>(m: Dict<K, V>, k: K)
    ensures Lookup(m, k).Some? <==> k in KeysOf(m)
  {
    if m != [] {
      KeysOfCons(m);
      LookupSomeIffKey(m[1..], k);
    }
  }

  lemma {:induction false} LookupIn<K, V>(m: Dict<K, V>, k: K)
    requires Lookup(m, k).Some?
    ensures (k, Lookup(m, k).value) in m
  {
    if m[0].0 != k {
      LookupIn(m[1..], k);
    }
  }

  lemma {:induction false} AssignKeys<K, V>(m: Dict<K, V>, k: K, v: V)
    ensures KeysOf(Assign(m, k, v)) == if k in KeysOf(m) then KeysOf(m) else KeysOf(m) + [k]
  {
    if m != [] {
      KeysOfCons(m);
      if m[0].0 != k {
        AssignKeys(m[1..], k, v);
        KeysOfCons(Assign(m, k, v));
      } else {
        KeysOfCons(Assign(m, k, v));
      }
    }
  }

  lemma {:induction false} LookupAssign<K, V>(m: Dict<K, V>, k: K, v: V, j: K)
    ensures Lookup(Assign(m, k, v), j) == if j == k then Some(v) else Lookup(m, j)
  {
    if m != [] && m[0].0 != k {
      LookupAssign(m[1..], k, v, j);
    }
  }

  /** Assigning a key the value it already has changes nothing. */
  lemma {:induction false} AssignUnchanged<K, V>(m: Dict<K, V>, k: K, v: V)
    requires Lookup(m, k) == Some(v)
    ensures Assign(m, k, v) == m
  {
    if m[0].0 != k {
      AssignUnchanged(m[1..], k, v);
    }
  }

  /** With distinct keys, every slot is what a lookup of its key finds. */
  lemma {:induction false} LookupDistinct<K, V>(m: Dict<K, V>, i: nat)
    requires NoDuplicates(KeysOf(m)) && i < |m|
    ensures Lookup(m, m[i].0) == Some(m[i].1)
  {
    if i > 0 {
      KeysOfCons(m);
      assert KeysOf(m)[0] != KeysOf(m)[i];
      assert KeysOf(m[1..]) == KeysOf(m)[1..];
      LookupDistinct(m[1..], i - 1);
    }
  }

  lemma {:induction false} FirstNewSpec<T>(present: seq<T>, xs: seq<T>)
    ensures forall x :: x in FirstNew(present, xs) <==> x in xs && x !in present
    ensures NoDuplicates(FirstNew(present, xs))
    ensures |FirstNew(present, xs)| <= |xs|
    decreases |xs|
  {
    if xs != [] {
      FirstNewSpec(present, xs[1..]);
      FirstNewSpec(present + [xs[0]], xs[1..]);
      var r := FirstNew(present + [xs[0]], xs[1..]);
      if xs[0] !in present {
        assert FirstNew(present, xs) == [xs[0]] + r;
        assert forall j :: 0 <= j < |r| ==> r[j] != xs[0] by {
          forall j | 0 <= j < |r| ensures r[j] != xs[0] {
            assert r[j] in r;
          }
        }
      }
    }
  }

  /** Adding one element at the end adds it to the first occurrences
      unless it occurred already. */
  lemma {:induction false} FirstNewSnoc<T>(present: seq<T>, xs: seq<T>, x: T)
    ensures FirstNew(present, xs + [x]) == FirstNew(present, xs) + (if x in present || x in xs then [] else [x])
    decreases |xs|
  {
    if xs == [] {
      assert [] + [x] == [x];
    } else {
      assert (xs + [x])[0] == xs[0] && (xs + [x])[1..] == xs[1..] + [x];
      if xs[0] in present {
        FirstNewSnoc(present, xs[1..], x);
      } else {
        FirstNewSnoc(present + [xs[0]], xs[1..], x);
        assert x in present + [xs[0]] || x in xs[1..] <==> x in present || x in xs;
      }
    }
  }

  /** After an assignment each slot is an old one or the assigned pair. */
  lemma {:induction false} AssignSlots<K, V>(m: Dict<K, V>, k: K, v: V)
    ensures forall x :: x in Assign(m, k, v) ==> x in m || x == (k, v)
  {
    if m != [] && m[0].0 != k {
      AssignSlots(m[1..], k, v);
      assert forall x :: x in m[1..] ==> x in m;
    }
  }

  /** One key after another: adding `xs[0]` to `present` (if new) and then
      the first occurrences of the rest gives the first occurrences of all. */
  lemma FirstNewStep<T>(present: seq<T>, xs: seq<T>, after: seq<T>)
    requires xs != []
    requires after == if xs[0] in present then present else present + [xs[0]]
    ensures after + FirstNew(after, xs[1..]) == present + FirstNew(present, xs)
  {
    if xs[0] !in present {
      assert present + [xs[0]] + FirstNew(after, xs[1..]) == present + ([xs[0]] + FirstNew(after, xs[1..]));
    }
  }
}
