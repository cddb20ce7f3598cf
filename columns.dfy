/** The column unifier: the keys of every record, without duplicates, in sorted order. */
module Columns {

  import opened Flattener
  import opened StringOrder

  /** The keys of the first records, as the `Set` holds them once those have been visited. */
  function KeyUnion(rows: seq<Record>): set<string>
  {
    if rows == [] then {} else KeyUnion(rows[..|rows| - 1]) + rows[|rows| - 1].Keys
  }

  /** The columns of a table: every key of every record, ascending. */
  function AllKeys(rows: seq<Record>): seq<string>
  {
    SortedKeys(KeyUnion(rows))
  }

  lemma {:induction false} KeyUnionMembers(rows: seq<Record>, k: string)
    ensures k in KeyUnion(rows) <==> exists i :: 0 <= i < |rows| && k in rows[i]
    decreases |rows|
  {
    if rows != [] {
      var init := rows[..|rows| - 1];
      KeyUnionMembers(init, k);
      if exists i :: 0 <= i < |init| && k in init[i] {
        var i :| 0 <= i < |init| && k in init[i];
        assert k in rows[i];
      }
      if exists i :: 0 <= i < |rows| && k in rows[i] {
        var i :| 0 <= i < |rows| && k in rows[i];
        if i < |init| { assert k in init[i]; }
      }
    }
  }

  /**
   * The column set: ascending and so free of duplicates; a string is a column iff some
   * record has it as a key; no records, no columns.
   */
  lemma AllKeysSpec(rows: seq<Record>)
    ensures StrictlyAscending(AllKeys(rows))
    ensures forall i, j :: 0 <= i < j < |AllKeys(rows)| ==> AllKeys(rows)[i] != AllKeys(rows)[j]
    ensures forall k :: k in AllKeys(rows) <==> exists i :: 0 <= i < |rows| && k in rows[i]
    ensures rows == [] ==> AllKeys(rows) == []
  {
    var keys := AllKeys(rows);
    forall i, j | 0 <= i < j < |keys| ensures keys[i] != keys[j] {
      LessIrreflexive(keys[i]);
    }
    forall k ensures k in keys <==> exists i :: 0 <= i < |rows| && k in rows[i] {
      KeyUnionMembers(rows, k);
    }
  }

  /** Records that each have a key give at least one column. */
  lemma AllKeysNonEmpty(rows: seq<Record>)
    requires |rows| > 0 && |rows[0]| > 0
    ensures |AllKeys(rows)| > 0
  {
    var k :| k in rows[0];
    KeyUnionMembers(rows, k);
  }

  /**
   * `getAllKeys`: every key of every record is added to a set, record by record, and
   * the set is then sorted.
   */
  method GetAllKeys(dataArray: seq<Record>) returns (keys: seq<string>)
    ensures keys == AllKeys(dataArray)
  {
    var keySet: set<string> := {};
    var i := 0;
    while i < |dataArray|
      invariant 0 <= i <= |dataArray|
      invariant keySet == KeyUnion(dataArray[..i])
    {
      var pending := dataArray[i].Keys;
      ghost var before := keySet;
      while pending != {}
        invariant pending <= dataArray[i].Keys
        invariant keySet == before + (dataArray[i].Keys - pending)
        decreases pending
      {
        var key :| key in pending;
        keySet := keySet + {key};
        pending := pending - {key};
      }
      assert dataArray[..i + 1][..i] == dataArray[..i];
      i := i + 1;
    }
    assert dataArray[..i] == dataArray;
    keys := SortedKeys(keySet);
  }
}
