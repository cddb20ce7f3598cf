/**
 * The flattener: one JSON value becomes one flat record whose keys are access paths
 * such as `a.b[0].c` and whose values are the leaves found at those paths.
 */
module Flattener {

  import opened Json
  import Decimal

  /** A flat record: synthesized key to stored leaf. */
  type Record = map<string, Json>

  /** The key of array element `i` under `prefix`: `prefix[i]`, 0-based, even when `prefix` is empty. */
  function IndexKey(prefix: string, i: nat): (k: string)
    ensures |k| > |prefix| && k[..|prefix|] == prefix && k[|prefix|] == '['
    ensures k[|prefix| + 1..] == Decimal.NatToString(i) + "]"
  {
    prefix + "[" + Decimal.NatToString(i) + "]"
  }

  /** The key of object member `key` under `prefix`: `prefix.key`, or `key` alone when `prefix` is empty. */
  function MemberKey(prefix: string, key: string): (k: string)
    ensures prefix == "" ==> k == key
    ensures prefix != "" ==> |k| > |prefix| && k[..|prefix|] == prefix && k[|prefix|] == '.'
    ensures prefix != "" ==> k[|prefix| + 1..] == key
  {
    if prefix != "" then prefix + "." + key else key
  }

  /** Different elements of one array get different keys. */
  lemma IndexKeyInjective(prefix: string, i: nat, j: nat)
    requires IndexKey(prefix, i) == IndexKey(prefix, j)
    ensures i == j
  {
    var a, b := Decimal.NatToString(i), Decimal.NatToString(j);
    assert a + "]" == b + "]";
    assert a == (a + "]")[..|a|];
    assert |a| == |b|;
    assert a == b by {
      assert a == (b + "]")[..|a|];
    }
    Decimal.NatToStringValue(i);
    Decimal.NatToStringValue(j);
  }

  /** Different members of one object get different keys. */
  lemma MemberKeyInjective(prefix: string, x: string, y: string)
    requires MemberKey(prefix, x) == MemberKey(prefix, y)
    ensures x == y
  {
    if prefix != "" {
      assert x == MemberKey(prefix, x)[|prefix| + 1..];
    }
  }

  /** `flattenObject(v, prefix, acc)`: the record `acc` after every leaf of `v` has been written into it. */
  function Flatten(v: Json, prefix: string, acc: Record): Record
    decreases v, 1
  {
    match v
    case Arr(elems) =>
      if |elems| == 0 then acc[prefix := Str("[]")] else FlattenElems(elems, prefix, 0, acc)
    case Obj(members) =>
      if |members| == 0 then acc[prefix := Str("{}")] else FlattenMembers(members, prefix, 0, acc)
    case _ => acc[prefix := v]
  }

  /** The `forEach` over array elements, from element `i` on. */
  function FlattenElems(elems: seq<Json>, prefix: string, i: nat, acc: Record): Record
    requires i <= |elems|
    decreases elems, 0, |elems| - i
  {
    if i == |elems| then acc
    else FlattenElems(elems, prefix, i + 1, Flatten(elems[i], IndexKey(prefix, i), acc))
  }

  /** The `forEach` over object members, from member `i` on. */
  function FlattenMembers(members: seq<(string, Json)>, prefix: string, i: nat, acc: Record): Record
    requires i <= |members|
    decreases members, 0, |members| - i
  {
    if i == |members| then acc
    else
      assert members[i].1 < members[i];
      FlattenMembers(members, prefix, i + 1, Flatten(members[i].1, MemberKey(prefix, members[i].0), acc))
  }

  /** `flattenObject(v)` with its defaults: empty prefix and a fresh record. */
  function FlattenRoot(v: Json): Record
  {
    Flatten(v, "", map[])
  }

  /**
   * `parseAndFlatten` after `JSON.parse` succeeded: an array root gives one record per
   * element, in element order; any other root gives exactly one record.
   */
  function ParseAndFlatten(data: Json): (rows: seq<Record>)
    ensures data.Arr? ==> |rows| == |data.elems|
    ensures data.Arr? ==> forall i :: 0 <= i < |rows| ==> rows[i] == FlattenRoot(data.elems[i])
    ensures !data.Arr? ==> rows == [FlattenRoot(data)]
  {
    if !data.Arr? then [FlattenRoot(data)]
    else seq(|data.elems|, i requires 0 <= i < |data.elems| => FlattenRoot(data.elems[i]))
  }

  /**
   * The imperative `flattenObject`: one record threaded through the recursion and the
   * `forEach` loops, with `result[prefix] = ...` as the only update.
   */
  method FlattenObject(v: Json, prefix: string, result: Record) returns (r: Record)
    ensures r == Flatten(v, prefix, result)
    decreases v
  {
    r := result;
    if v.Null? {
      r := r[prefix := v];
    } else if v.Arr? {
      var elems := v.elems;
      if |elems| == 0 {
        r := r[prefix := Str("[]")];
      } else {
        var i := 0;
        while i < |elems|
          invariant 0 <= i <= |elems|
          invariant FlattenElems(elems, prefix, i, r) == Flatten(v, prefix, result)
        {
          r := FlattenObject(elems[i], IndexKey(prefix, i), r);
          i := i + 1;
        }
      }
    } else if v.Obj? {
      var members := v.members;
      if |members| == 0 {
        r := r[prefix := Str("{}")];
      } else {
        var i := 0;
        while i < |members|
          invariant 0 <= i <= |members|
          invariant FlattenMembers(members, prefix, i, r) == Flatten(v, prefix, result)
        {
          var newPrefix := if prefix != "" then prefix + "." + members[i].0 else members[i].0;
          assert members[i].1 < members[i];
          r := FlattenObject(members[i].1, newPrefix, r);
          i := i + 1;
        }
      }
    } else {
      r := r[prefix := v];
    }
  }

  // ---------------------------------------------------------------------------
  // The writes a flattening performs, in order

  /** The (key, leaf) writes `Flatten(v, prefix, _)` performs, in the order it performs them. */
  function Leaves(v: Json, prefix: string): seq<(string, Json)>
    decreases v, 1
  {
    match v
    case Arr(elems) =>
      if |elems| == 0 then [(prefix, Str("[]"))] else ElemLeaves(elems, prefix, 0)
    case Obj(members) =>
      if |members| == 0 then [(prefix, Str("{}"))] else MemberLeaves(members, prefix, 0)
    case _ => [(prefix, v)]
  }

  function ElemLeaves(elems: seq<Json>, prefix: string, i: nat): seq<(string, Json)>
    requires i <= |elems|
    decreases elems, 0, |elems| - i
  {
    if i == |elems| then []
    else Leaves(elems[i], IndexKey(prefix, i)) + ElemLeaves(elems, prefix, i + 1)
  }

  function MemberLeaves(members: seq<(string, Json)>, prefix: string, i: nat): seq<(string, Json)>
    requires i <= |members|
    decreases members, 0, |members| - i
  {
    if i == |members| then []
    else
      assert members[i].1 < members[i];
      Leaves(members[i].1, MemberKey(prefix, members[i].0)) + MemberLeaves(members, prefix, i + 1)
  }

  /** Plain assignment of each write in turn: a later write to a key replaces an earlier one. */
  function Assign(acc: Record, writes: seq<(string, Json)>): Record
    decreases |writes|
  {
    if writes == [] then acc else Assign(acc[writes[0].0 := writes[0].1], writes[1..])
  }

  /** The number of leaves of `v`: scalars, nulls and empty arrays and objects. */
  function LeafCount(v: Json): nat
    decreases v, 1
  {
    match v
    case Arr(elems) => if |elems| == 0 then 1 else ElemsLeafCount(elems, 0)
    case Obj(members) => if |members| == 0 then 1 else MembersLeafCount(members, 0)
    case _ => 1
  }

  function ElemsLeafCount(elems: seq<Json>, i: nat): nat
    requires i <= |elems|
    decreases elems, 0, |elems| - i
  {
    if i == |elems| then 0 else LeafCount(elems[i]) + ElemsLeafCount(elems, i + 1)
  }

  function MembersLeafCount(members: seq<(string, Json)>, i: nat): nat
    requires i <= |members|
    decreases members, 0, |members| - i
  {
    if i == |members| then 0
    else
      assert members[i].1 < members[i];
      LeafCount(members[i].1) + MembersLeafCount(members, i + 1)
  }

  // ---------------------------------------------------------------------------
  // Lemmas

  lemma {:induction false} AssignAppend(acc: Record, a: seq<(string, Json)>, b: seq<(string, Json)>)
    ensures Assign(acc, a + b) == Assign(Assign(acc, a), b)
    decreases |a|
  {
    if a == [] {
      assert a + b == b;
    } else {
      assert (a + b)[0] == a[0] && (a + b)[1..] == a[1..] + b;
      AssignAppend(acc[a[0].0 := a[0].1], a[1..], b);
    }
  }

  /** Flattening performs exactly the writes `Leaves` lists, in that order. */
  lemma {:induction false} FlattenIsAssign(v: Json, prefix: string, acc: Record)
    ensures Flatten(v, prefix, acc) == Assign(acc, Leaves(v, prefix))
    decreases v, 1
  {
    match v
    case Arr(elems) =>
      if |elems| > 0 { ElemsIsAssign(elems, prefix, 0, acc); }
    case Obj(members) =>
      if |members| > 0 { MembersIsAssign(members, prefix, 0, acc); }
    case _ =>
  }

  lemma {:induction false} ElemsIsAssign(elems: seq<Json>, prefix: string, i: nat, acc: Record)
    requires i <= |elems|
    ensures FlattenElems(elems, prefix, i, acc) == Assign(acc, ElemLeaves(elems, prefix, i))
    decreases elems, 0, |elems| - i
  {
    if i < |elems| {
      var first := Leaves(elems[i], IndexKey(prefix, i));
      FlattenIsAssign(elems[i], IndexKey(prefix, i), acc);
      ElemsIsAssign(elems, prefix, i + 1, Flatten(elems[i], IndexKey(prefix, i), acc));
      AssignAppend(acc, first, ElemLeaves(elems, prefix, i + 1));
    }
  }

  lemma {:induction false} MembersIsAssign(members: seq<(string, Json)>, prefix: string, i: nat, acc: Record)
    requires i <= |members|
    ensures FlattenMembers(members, prefix, i, acc) == Assign(acc, MemberLeaves(members, prefix, i))
    decreases members, 0, |members| - i
  {
    if i < |members| {
      assert members[i].1 < members[i];
      var key := MemberKey(prefix, members[i].0);
      FlattenIsAssign(members[i].1, key, acc);
      MembersIsAssign(members, prefix, i + 1, Flatten(members[i].1, key, acc));
      AssignAppend(acc, Leaves(members[i].1, key), MemberLeaves(members, prefix, i + 1));
    }
  }

  /** `key` starts with `prefix`. */
  predicate HasPrefix(key: string, prefix: string) {
    |prefix| <= |key| && key[..|prefix|] == prefix
  }

  lemma HasPrefixTransitive(key: string, middle: string, prefix: string)
    requires HasPrefix(key, middle) && HasPrefix(middle, prefix)
    ensures HasPrefix(key, prefix)
  {
    assert key[..|prefix|] == key[..|middle|][..|prefix|];
  }

  /**
   * Every write stores a scalar (a string, number, boolean, null, or one of the markers
   * `"[]"` and `"{}"`) under a key that extends `prefix`, and there is one write per leaf.
   */
  lemma {:induction false} LeavesShape(v: Json, prefix: string)
    ensures |Leaves(v, prefix)| == LeafCount(v) > 0
    ensures forall j :: 0 <= j < |Leaves(v, prefix)| ==> IsScalar(Leaves(v, prefix)[j].1)
    ensures forall j :: 0 <= j < |Leaves(v, prefix)| ==> HasPrefix(Leaves(v, prefix)[j].0, prefix)
    decreases v, 1
  {
    match v
    case Arr(elems) =>
      if |elems| > 0 { ElemLeavesShape(elems, prefix, 0); }
    case Obj(members) =>
      if |members| > 0 { MemberLeavesShape(members, prefix, 0); }
    case _ =>
  }

  lemma {:induction false} ElemLeavesShape(elems: seq<Json>, prefix: string, i: nat)
    requires i <= |elems|
    ensures |ElemLeaves(elems, prefix, i)| == ElemsLeafCount(elems, i)
    ensures i < |elems| ==> ElemsLeafCount(elems, i) > 0
    ensures forall j :: 0 <= j < |ElemLeaves(elems, prefix, i)| ==> IsScalar(ElemLeaves(elems, prefix, i)[j].1)
    ensures forall j :: 0 <= j < |ElemLeaves(elems, prefix, i)| ==> HasPrefix(ElemLeaves(elems, prefix, i)[j].0, prefix)
    decreases elems, 0, |elems| - i
  {
    if i < |elems| {
      var key := IndexKey(prefix, i);
      var first, rest := Leaves(elems[i], key), ElemLeaves(elems, prefix, i + 1);
      LeavesShape(elems[i], key);
      ElemLeavesShape(elems, prefix, i + 1);
      forall j | 0 <= j < |first| ensures HasPrefix(first[j].0, prefix) {
        HasPrefixTransitive(first[j].0, key, prefix);
      }
      assert ElemLeaves(elems, prefix, i) == first + rest;
    }
  }

  lemma {:induction false} MemberLeavesShape(members: seq<(string, Json)>, prefix: string, i: nat)
    requires i <= |members|
    ensures |MemberLeaves(members, prefix, i)| == MembersLeafCount(members, i)
    ensures i < |members| ==> MembersLeafCount(members, i) > 0
    ensures forall j :: 0 <= j < |MemberLeaves(members, prefix, i)| ==> IsScalar(MemberLeaves(members, prefix, i)[j].1)
    ensures forall j :: 0 <= j < |MemberLeaves(members, prefix, i)| ==> HasPrefix(MemberLeaves(members, prefix, i)[j].0, prefix)
    decreases members, 0, |members| - i
  {
    if i < |members| {
      assert members[i].1 < members[i];
      var key := MemberKey(prefix, members[i].0);
      var first, rest := Leaves(members[i].1, key), MemberLeaves(members, prefix, i + 1);
      LeavesShape(members[i].1, key);
      MemberLeavesShape(members, prefix, i + 1);
      forall j | 0 <= j < |first| ensures HasPrefix(first[j].0, prefix) {
        if prefix != "" {
          HasPrefixTransitive(first[j].0, key, prefix);
        }
      }
      assert MemberLeaves(members, prefix, i) == first + rest;
    }
  }

  /** A key is in the record after the writes iff it was there before or some write names it. */
  lemma {:induction false} AssignDomain(acc: Record, writes: seq<(string, Json)>, k: string)
    ensures k in Assign(acc, writes) <==> k in acc || exists j :: 0 <= j < |writes| && writes[j].0 == k
    decreases |writes|
  {
    if writes != [] {
      AssignDomain(acc[writes[0].0 := writes[0].1], writes[1..], k);
      if exists j :: 0 <= j < |writes| && writes[j].0 == k {
        var j :| 0 <= j < |writes| && writes[j].0 == k;
        if j > 0 { assert writes[1..][j - 1].0 == k; }
      }
    }
  }

  /** The value under a key is the one its last write stored. */
  lemma {:induction false} AssignLastWins(acc: Record, writes: seq<(string, Json)>, j: nat)
    requires j < |writes|
    requires forall j' :: j < j' < |writes| ==> writes[j'].0 != writes[j].0
    ensures writes[j].0 in Assign(acc, writes)
    ensures Assign(acc, writes)[writes[j].0] == writes[j].1
    decreases |writes|
  {
    var next := acc[writes[0].0 := writes[0].1];
    if j == 0 {
      AssignUntouched(next, writes[1..], writes[0].0);
    } else {
      assert writes[1..][j - 1] == writes[j];
      AssignLastWins(next, writes[1..], j - 1);
    }
  }

  /** A key no write names keeps its old value. */
  lemma {:induction false} AssignUntouched(acc: Record, writes: seq<(string, Json)>, k: string)
    requires k in acc
    requires forall j :: 0 <= j < |writes| ==> writes[j].0 != k
    ensures k in Assign(acc, writes) && Assign(acc, writes)[k] == acc[k]
    decreases |writes|
  {
    if writes != [] {
      AssignUntouched(acc[writes[0].0 := writes[0].1], writes[1..], k);
    }
  }

  /** Writes to pairwise different, new keys add one entry each. */
  lemma {:induction false} AssignSize(acc: Record, writes: seq<(string, Json)>)
    requires forall j, j' :: 0 <= j < j' < |writes| ==> writes[j].0 != writes[j'].0
    requires forall j :: 0 <= j < |writes| ==> writes[j].0 !in acc
    ensures |Assign(acc, writes)| == |acc| + |writes|
    decreases |writes|
  {
    if writes != [] {
      var next := acc[writes[0].0 := writes[0].1];
      assert |next| == |acc| + 1;
      AssignSize(next, writes[1..]);
    }
  }

  /** Writes of scalars into a record of scalars leave a record of scalars. */
  lemma {:induction false} AssignScalars(acc: Record, writes: seq<(string, Json)>)
    requires forall k :: k in acc ==> IsScalar(acc[k])
    requires forall j :: 0 <= j < |writes| ==> IsScalar(writes[j].1)
    ensures forall k :: k in Assign(acc, writes) ==> IsScalar(Assign(acc, writes)[k])
    decreases |writes|
  {
    if writes != [] {
      AssignScalars(acc[writes[0].0 := writes[0].1], writes[1..]);
    }
  }

  /**
   * Only leaves are stored: flattening into a record of scalars leaves a record of
   * scalars, never a non-empty array or object.
   */
  lemma FlattenStoresOnlyScalars(v: Json, prefix: string, acc: Record)
    requires forall k :: k in acc ==> IsScalar(acc[k])
    ensures forall k :: k in Flatten(v, prefix, acc) ==> IsScalar(Flatten(v, prefix, acc)[k])
  {
    FlattenIsAssign(v, prefix, acc);
    LeavesShape(v, prefix);
    AssignScalars(acc, Leaves(v, prefix));
  }

  /** The keys after flattening are the old keys plus the key of every leaf. */
  lemma FlattenDomain(v: Json, prefix: string, acc: Record, k: string)
    ensures k in Flatten(v, prefix, acc) <==>
      k in acc || exists j :: 0 <= j < |Leaves(v, prefix)| && Leaves(v, prefix)[j].0 == k
  {
    FlattenIsAssign(v, prefix, acc);
    AssignDomain(acc, Leaves(v, prefix), k);
  }

  /** When two leaves share a key, the later one in traversal order is the value stored. */
  lemma FlattenLaterWriteWins(v: Json, prefix: string, acc: Record, j: nat)
    requires j < |Leaves(v, prefix)|
    requires forall j' :: j < j' < |Leaves(v, prefix)| ==> Leaves(v, prefix)[j'].0 != Leaves(v, prefix)[j].0
    ensures Leaves(v, prefix)[j].0 in Flatten(v, prefix, acc)
    ensures Flatten(v, prefix, acc)[Leaves(v, prefix)[j].0] == Leaves(v, prefix)[j].1
  {
    FlattenIsAssign(v, prefix, acc);
    AssignLastWins(acc, Leaves(v, prefix), j);
  }

  /** Without key collisions there is one key per leaf. */
  lemma FlattenSize(v: Json, prefix: string, acc: Record)
    requires forall j, j' :: 0 <= j < j' < |Leaves(v, prefix)| ==> Leaves(v, prefix)[j].0 != Leaves(v, prefix)[j'].0
    requires forall j :: 0 <= j < |Leaves(v, prefix)| ==> Leaves(v, prefix)[j].0 !in acc
    ensures |Flatten(v, prefix, acc)| == |acc| + LeafCount(v)
  {
    FlattenIsAssign(v, prefix, acc);
    LeavesShape(v, prefix);
    AssignSize(acc, Leaves(v, prefix));
  }

  /** Every record `parseAndFlatten` returns has at least one key and holds only scalars. */
  lemma ParseAndFlattenRows(data: Json)
    ensures forall i :: 0 <= i < |ParseAndFlatten(data)| ==>
      |ParseAndFlatten(data)[i]| > 0 &&
      forall k :: k in ParseAndFlatten(data)[i] ==> IsScalar(ParseAndFlatten(data)[i][k])
  {
    var rows := ParseAndFlatten(data);
    forall i | 0 <= i < |rows|
      ensures |rows[i]| > 0 && forall k :: k in rows[i] ==> IsScalar(rows[i][k])
    {
      var v := if data.Arr? then data.elems[i] else data;
      assert rows[i] == Flatten(v, "", map[]);
      LeavesShape(v, "");
      FlattenDomain(v, "", map[], Leaves(v, "")[0].0);
      FlattenStoresOnlyScalars(v, "", map[]);
    }
  }

  /** The base cases: a root that is null, an empty array, an empty object or a scalar. */
  lemma FlattenBaseCases(v: Json)
    ensures FlattenRoot(Null) == map["" := Null]
    ensures FlattenRoot(Arr([])) == map["" := Str("[]")]
    ensures FlattenRoot(Obj([])) == map["" := Str("{}")]
    ensures IsScalar(v) ==> FlattenRoot(v) == map["" := v]
  {
  }

  /** A single-object root gives one row: `{"x":[1,2]}` becomes `{"x[0]": 1, "x[1]": 2}`. */
  lemma SingleObjectRootExample()
    ensures ParseAndFlatten(Obj([("x", Arr([Num(1), Num(2)]))])) == [map["x[0]" := Num(1), "x[1]" := Num(2)]]
  {
    var elems := [Num(1), Num(2)];
    var members := [("x", Arr(elems))];
    assert IndexKey("x", 0) == "x[0]" && IndexKey("x", 1) == "x[1]";
    var one := map["x[0]" := Num(1)];
    var both := map["x[0]" := Num(1), "x[1]" := Num(2)];
    calc {
      Flatten(Arr(elems), "x", map[]);
      FlattenElems(elems, "x", 0, map[]);
      FlattenElems(elems, "x", 1, one);
      FlattenElems(elems, "x", 2, both);
    }
    calc {
      FlattenRoot(Obj(members));
      FlattenMembers(members, "", 0, map[]);
      FlattenMembers(members, "", 1, both);
    }
  }

  /**
   * Two paths can synthesize the same key: in `{"a.b":1,"a":{"b":2}}` both leaves are
   * stored under `a.b`, the later one wins, and the record has one key for two leaves.
   */
  lemma CollidingPathsExample()
    ensures FlattenRoot(Obj([("a.b", Num(1)), ("a", Obj([("b", Num(2))]))])) == map["a.b" := Num(2)]
    ensures LeafCount(Obj([("a.b", Num(1)), ("a", Obj([("b", Num(2))]))])) == 2
  {
    var inner := [("b", Num(2))];
    var members := [("a.b", Num(1)), ("a", Obj(inner))];
    var first := map["a.b" := Num(1)];
    assert MemberKey("a", "b") == "a.b";
    assert first["a.b" := Num(2)] == map["a.b" := Num(2)];
    calc {
      Flatten(Obj(inner), "a", first);
      FlattenMembers(inner, "a", 0, first);
      FlattenMembers(inner, "a", 1, map["a.b" := Num(2)]);
    }
    calc {
      FlattenRoot(Obj(members));
      FlattenMembers(members, "", 0, map[]);
      FlattenMembers(members, "", 1, first);
      FlattenMembers(members, "", 2, map["a.b" := Num(2)]);
    }
  }
}
