/**
 * `flatten_json`: a nested value turned into a dict from dotted paths to its
 * scalar leaves.  Object entries extend the path with `key + "."`, list
 * elements with `index + "."` (only the first twenty elements), and a leaf
 * is stored under its path without the trailing ".".
 */
module Flatten {
  import opened Wrappers
  import opened Dict
  import opened Text
  import opened Values

  /** How many elements of a list are expanded. */
  const ListLimit := 20

  /** `name[:-1]`. */
  function DropLast(name: string): string {
    if name == [] then [] else name[..|name| - 1]
  }

  /** The (path, leaf) pairs `flatten(x, name)` stores, in the order it stores them. */
  function Leaves(x: Json, name: string): seq<(string, Json)>
    decreases x
  {
    match x
    case JObject(f) => FieldLeaves(f, name)
    case JList(items) => ElementLeaves(items, name, 0)
    case _ => [(DropLast(name), x)]
  }

  /** The pairs the entries of `f` contribute, the first entry's first. */
  function FieldLeaves(f: Dict<string, Json>, name: string): seq<(string, Json)>
    decreases f
  {
    if f == [] then []
    else
      assert f[0].1 < f[0];
      Leaves(f[0].1, name + f[0].0 + ".") + FieldLeaves(f[1..], name)
  }

  /** The pairs the elements from index `i` on contribute; indices from the limit on contribute none. */
  function ElementLeaves(items: seq<Json>, name: string, i: nat): seq<(string, Json)>
    decreases items, |items| - i
  {
    if i >= |items| || i >= ListLimit then []
    else Leaves(items[i], name + NatToString(i) + ".") + ElementLeaves(items, name, i + 1)
  }

  /** Storing each pair in turn: a later pair for the same path overwrites an earlier one in place. */
  function PutAll(d: Dict<string, Json>, es: seq<(string, Json)>): Dict<string, Json>
    decreases |es|
  {
    if es == [] then d else PutAll(Put(d, es[0].0, es[0].1), es[1..])
  }

  lemma {:induction false} PutAllAppend(d: Dict<string, Json>, a: seq<(string, Json)>, b: seq<(string, Json)>)
    ensures PutAll(d, a + b) == PutAll(PutAll(d, a), b)
    decreases |a|
  {
    if a != [] {
      assert (a + b)[0] == a[0] && (a + b)[1..] == a[1..] + b;
      PutAllAppend(Put(d, a[0].0, a[0].1), a[1..], b);
    } else {
      assert a + b == b;
    }
  }

  // ---------------------------------------------------------------------------
  // The recursive walk, writing into the caller's dict.
  // ---------------------------------------------------------------------------

  /** `flatten(x, name)` applied to the dict `out`: the new contents of `out`. */
  method FlattenInto(x: Json, name: string, out: Dict<string, Json>) returns (r: Dict<string, Json>)
    ensures r == PutAll(out, Leaves(x, name))
    decreases x
  {
    match x {
      case JObject(f) =>
        r := out;
        var i := 0;
        while i < |f|
          invariant 0 <= i <= |f|
          invariant PutAll(r, FieldLeaves(f[i..], name)) == PutAll(out, FieldLeaves(f, name))
        {
          assert f[i..][0] == f[i] && f[i..][1..] == f[i + 1..];
          assert f[i].1 < f[i];
          var r0 := r;
          r := FlattenInto(f[i].1, name + f[i].0 + ".", r);
          PutAllAppend(r0, Leaves(f[i].1, name + f[i].0 + "."), FieldLeaves(f[i + 1..], name));
          i := i + 1;
        }
        assert f[|f|..] == [];
      case JList(items) =>
        r := out;
        var i := 0;
        while i < |items|
          invariant 0 <= i <= |items|
          invariant PutAll(r, ElementLeaves(items, name, i)) == PutAll(out, ElementLeaves(items, name, 0))
        {
          if i < ListLimit {
            var r0 := r;
            r := FlattenInto(items[i], name + NatToString(i) + ".", r);
            PutAllAppend(r0, Leaves(items[i], name + NatToString(i) + "."), ElementLeaves(items, name, i + 1));
          }
          i := i + 1;
        }
      case _ =>
        r := Put(out, DropLast(name), x);
    }
  }

  /** What `flatten_json(y, prefix)` returns. */
  function Flattened(y: Json, prefix: string): Dict<string, Json> {
    PutAll([], Leaves(y, prefix))
  }

  /** `flatten_json(y, prefix)`: a fresh dict filled by the walk. */
  method FlattenJson(y: Json, prefix: string) returns (r: Dict<string, Json>)
    ensures r == Flattened(y, prefix)
  {
    r := FlattenInto(y, prefix, []);
  }

  // ---------------------------------------------------------------------------
  // Storing pairs one after the other.
  // ---------------------------------------------------------------------------

  /** The keys after storing `es` are the old keys and the paths of `es`. */
  lemma {:induction false} PutAllKeys(d: Dict<string, Json>, es: seq<(string, Json)>, k: string)
    ensures HasKey(PutAll(d, es), k) <==> HasKey(d, k) || exists e :: e in es && e.0 == k
    decreases |es|
  {
    if es != [] {
      PutAllKeys(Put(d, es[0].0, es[0].1), es[1..], k);
      assert forall e :: e in es <==> e == es[0] || e in es[1..] by {
        assert es == [es[0]] + es[1..];
      }
    }
  }

  /** A stored value comes from the old dict or from one of the pairs. */
  lemma {:induction false} PutAllValues(d: Dict<string, Json>, es: seq<(string, Json)>, k: string, v: Json)
    requires Get(PutAll(d, es), k) == Some(v)
    ensures Get(d, k) == Some(v) || (k, v) in es
    decreases |es|
  {
    if es != [] {
      var d' := Put(d, es[0].0, es[0].1);
      PutAllValues(d', es[1..], k, v);
      assert es == [es[0]] + es[1..];
    }
  }

  /** The last pair for a path decides its value. */
  lemma {:induction false} PutAllLastWins(d: Dict<string, Json>, es: seq<(string, Json)>, i: nat)
    requires i < |es|
    requires forall j :: i < j < |es| ==> es[j].0 != es[i].0
    ensures Get(PutAll(d, es), es[i].0) == Some(es[i].1)
    decreases |es|
  {
    var d' := Put(d, es[0].0, es[0].1);
    if i == 0 {
      PutAllUntouched(d', es[1..], es[0].0);
    } else {
      assert forall j :: i - 1 < j < |es[1..]| ==> es[1..][j].0 != es[1..][i - 1].0 by {
        forall j | i - 1 < j < |es[1..]| ensures es[1..][j].0 != es[1..][i - 1].0 {
          assert es[1..][j] == es[j + 1];
        }
      }
      PutAllLastWins(d', es[1..], i - 1);
    }
  }

  /** Pairs for other paths leave a path's value alone. */
  lemma {:induction false} PutAllUntouched(d: Dict<string, Json>, es: seq<(string, Json)>, k: string)
    requires forall j :: 0 <= j < |es| ==> es[j].0 != k
    ensures Get(PutAll(d, es), k) == Get(d, k)
    decreases |es|
  {
    if es != [] {
      assert forall j :: 0 <= j < |es[1..]| ==> es[1..][j].0 != k by {
        forall j | 0 <= j < |es[1..]| ensures es[1..][j].0 != k {
          assert es[1..][j] == es[j + 1];
        }
      }
      PutAllUntouched(Put(d, es[0].0, es[0].1), es[1..], k);
    }
  }

  // ---------------------------------------------------------------------------
  // Properties of the leaves.
  // ---------------------------------------------------------------------------

  /** Every leaf is a scalar (None included); containers never become values. */
  lemma {:induction false} LeavesScalar(x: Json, name: string)
    ensures forall e :: e in Leaves(x, name) ==> IsScalar(e.1)
    decreases x
  {
    match x
    case JObject(f) => FieldLeavesScalar(f, name);
    case JList(items) => ElementLeavesScalar(items, name, 0);
    case _ =>
  }

  lemma {:induction false} FieldLeavesScalar(f: Dict<string, Json>, name: string)
    ensures forall e :: e in FieldLeaves(f, name) ==> IsScalar(e.1)
    decreases f
  {
    if f != [] {
      assert f[0].1 < f[0];
      LeavesScalar(f[0].1, name + f[0].0 + ".");
      FieldLeavesScalar(f[1..], name);
    }
  }

  lemma {:induction false} ElementLeavesScalar(items: seq<Json>, name: string, i: nat)
    ensures forall e :: e in ElementLeaves(items, name, i) ==> IsScalar(e.1)
    decreases items, |items| - i
  {
    if i < |items| && i < ListLimit {
      LeavesScalar(items[i], name + NatToString(i) + ".");
      ElementLeavesScalar(items, name, i + 1);
    }
  }

  /** The keys of `flatten_json` are exactly the leaf paths, and its values are scalars found at them. */
  lemma {:induction false} FlattenedSpec(y: Json, prefix: string)
    ensures forall k :: HasKey(Flattened(y, prefix), k) <==> exists e :: e in Leaves(y, prefix) && e.0 == k
    ensures forall k, v :: Get(Flattened(y, prefix), k) == Some(v) ==> (k, v) in Leaves(y, prefix) && IsScalar(v)
  {
    forall k ensures HasKey(Flattened(y, prefix), k) <==> exists e :: e in Leaves(y, prefix) && e.0 == k {
      PutAllKeys([], Leaves(y, prefix), k);
    }
    forall k, v | Get(Flattened(y, prefix), k) == Some(v) ensures (k, v) in Leaves(y, prefix) && IsScalar(v) {
      PutAllValues([], Leaves(y, prefix), k, v);
      LeavesScalar(y, prefix);
    }
  }

  /** A scalar at the top is stored under the prefix without its last character: `""` for no prefix. */
  lemma {:induction false} ScalarAtTop(y: Json)
    requires IsScalar(y)
    ensures Flattened(y, "") == [("", y)]
  {
    assert Leaves(y, "") == [("", y)];
    assert Put([], "", y) == [("", y)];
    assert PutAll([], [("", y)]) == PutAll([("", y)], []);
  }

  /** The entries of an object contribute their leaves, under `name + key + "."`, and nothing else does. */
  lemma {:induction false} ObjectLeaves(f: Dict<string, Json>, name: string, e: (string, Json))
    ensures e in Leaves(JObject(f), name) <==> exists i :: 0 <= i < |f| && e in Leaves(f[i].1, name + f[i].0 + ".")
    decreases f
  {
    if f != [] {
      assert f[0].1 < f[0];
      ObjectLeaves(f[1..], name, e);
      assert forall i :: 0 < i < |f| ==> f[1..][i - 1] == f[i];
      if e in Leaves(JObject(f[1..]), name) {
        var i :| 0 <= i < |f[1..]| && e in Leaves(f[1..][i].1, name + f[1..][i].0 + ".");
        assert f[1..][i] == f[i + 1];
      }
    }
  }

  /** The elements below the limit contribute their leaves, under `name + index + "."`, and nothing else does. */
  lemma {:induction false} ListLeaves(items: seq<Json>, name: string, e: (string, Json))
    ensures e in Leaves(JList(items), name) <==>
      exists i :: 0 <= i < |items| && i < ListLimit && e in Leaves(items[i], name + NatToString(i) + ".")
  {
    ElementLeavesFrom(items, name, 0, e);
  }

  lemma {:induction false} ElementLeavesFrom(items: seq<Json>, name: string, k: nat, e: (string, Json))
    ensures e in ElementLeaves(items, name, k) <==>
      exists i :: k <= i < |items| && i < ListLimit && e in Leaves(items[i], name + NatToString(i) + ".")
    decreases |items| - k
  {
    if k < |items| && k < ListLimit {
      ElementLeavesFrom(items, name, k + 1, e);
      var here := Leaves(items[k], name + NatToString(k) + ".");
      assert ElementLeaves(items, name, k) == here + ElementLeaves(items, name, k + 1);
      if e in here {
        assert k <= k < |items| && k < ListLimit && e in Leaves(items[k], name + NatToString(k) + ".");
      }
    }
  }

  /** A scalar entry `key: v` of an object is a leaf at `name + key`. */
  lemma {:induction false} ScalarEntryLeaf(f: Dict<string, Json>, name: string, i: nat)
    requires i < |f| && IsScalar(f[i].1)
    ensures (name + f[i].0, f[i].1) in Leaves(JObject(f), name)
  {
    var p := name + f[i].0 + ".";
    assert DropLast(p) == name + f[i].0;
    assert Leaves(f[i].1, p) == [(name + f[i].0, f[i].1)];
    ObjectLeaves(f, name, (name + f[i].0, f[i].1));
  }

  /** Only the first twenty elements count: a longer list flattens like its first twenty. */
  lemma {:induction false} ListTruncation(items: seq<Json>, name: string)
    requires |items| > ListLimit
    ensures Leaves(JList(items), name) == Leaves(JList(items[..ListLimit]), name)
  {
    ElementLeavesPrefix(items, name, 0);
  }

  lemma {:induction false} ElementLeavesPrefix(items: seq<Json>, name: string, i: nat)
    requires |items| > ListLimit && i <= ListLimit
    ensures ElementLeaves(items, name, i) == ElementLeaves(items[..ListLimit], name, i)
    decreases ListLimit - i
  {
    if i < ListLimit {
      assert items[..ListLimit][i] == items[i];
      ElementLeavesPrefix(items, name, i + 1);
    }
  }
}
