/** A database table as a sequence of rows in insertion order, each row
    identified by a numeric primary key. */
module Tables {
  import opened Results
  import Seqs

  /** No two rows share a primary key. */
  ghost predicate UniqueKeys<T>(rows: seq<T>, key: T -> nat) {
    forall i, j :: 0 <= i < j < |rows| ==> key(rows[i]) != key(rows[j])
  }

  /** findById: the row carrying `id`, if any. */
  function Find<T>(rows: seq<T>, key: T -> nat, id: nat): (r: Option<T>)
    ensures r.Some? ==> r.value in rows && key(r.value) == id
    ensures r.None? <==> forall i :: 0 <= i < |rows| ==> key(rows[i]) != id
  {
    if rows == [] then None
    else if key(rows[0]) == id then Some(rows[0])
    else
      assert forall i :: 1 <= i < |rows| ==> rows[i] == rows[1..][i - 1];
      Find(rows[1..], key, id)
  }

  /** With unique keys, the row found for a key is the row that has it. */
  lemma {:induction false} FindUnique<T>(rows: seq<T>, key: T -> nat, i: nat)
    requires UniqueKeys(rows, key) && i < |rows|
    ensures Find(rows, key, key(rows[i])) == Some(rows[i])
  {
    if i > 0 {
      assert UniqueKeys(rows[1..], key);
      assert rows[1..][i - 1] == rows[i];
      FindUnique(rows[1..], key, i - 1);
    }
  }

  /** The largest key in use, 0 for an empty table. */
  function MaxKey<T>(rows: seq<T>, key: T -> nat): (m: nat)
    ensures forall i :: 0 <= i < |rows| ==> key(rows[i]) <= m
  {
    if rows == [] then 0
    else
      var m' := MaxKey(rows[1..], key);
      assert forall i :: 1 <= i < |rows| ==> rows[i] == rows[1..][i - 1];
      if key(rows[0]) > m' then key(rows[0]) else m'
  }

  /** The identity the database assigns to the next inserted row. */
  function NextKey<T>(rows: seq<T>, key: T -> nat): (k: nat)
    ensures forall i :: 0 <= i < |rows| ==> key(rows[i]) != k
  {
    MaxKey(rows, key) + 1
  }

  /** save of a new entity: appends the row. */
  function Append<T>(rows: seq<T>, key: T -> nat, v: T): (r: seq<T>)
    requires key(v) == NextKey(rows, key)
    ensures UniqueKeys(rows, key) ==> UniqueKeys(r, key)
    ensures Find(r, key, key(v)) == Some(v)
    ensures forall id :: id != key(v) ==> Find(r, key, id) == Find(rows, key, id)
    ensures |r| == |rows| + 1 && r[..|rows|] == rows
  {
    var r := rows + [v];
    AppendFind(rows, key, v);
    r
  }

  lemma {:induction false} AppendFind<T>(rows: seq<T>, key: T -> nat, v: T)
    ensures forall id ::
              Find(rows + [v], key, id)
              == if Find(rows, key, id).Some? then Find(rows, key, id)
                 else if key(v) == id then Some(v) else None
  {
    if rows != [] {
      AppendFind(rows[1..], key, v);
      assert (rows + [v])[1..] == rows[1..] + [v];
    }
  }

  /** save of an existing entity: the row with the same key is replaced. */
  function Replace<T>(rows: seq<T>, key: T -> nat, v: T): (r: seq<T>)
    ensures |r| == |rows|
    ensures forall i :: 0 <= i < |rows| ==> key(r[i]) == key(rows[i])
    ensures forall i :: 0 <= i < |rows| && key(rows[i]) != key(v) ==> r[i] == rows[i]
    ensures forall i :: 0 <= i < |rows| && key(rows[i]) == key(v) ==> r[i] == v
  {
    seq(|rows|, i requires 0 <= i < |rows| => if key(rows[i]) == key(v) then v else rows[i])
  }

  /** After a replace, the key leads to the new row and every other key is untouched. */
  lemma {:induction false} ReplaceFind<T>(rows: seq<T>, key: T -> nat, v: T, id: nat)
    ensures Find(Replace(rows, key, v), key, id)
         == if id == key(v) && Find(rows, key, id).Some? then Some(v) else Find(rows, key, id)
  {
    if rows != [] {
      var r := Replace(rows, key, v);
      assert r[1..] == Replace(rows[1..], key, v);
      ReplaceFind(rows[1..], key, v, id);
    }
  }

  /** The rows a delete of `id` keeps. */
  function KeyIsNot<T>(key: T -> nat, id: nat): T -> bool { (x: T) => key(x) != id }

  /** deleteById: drops every row carrying `id`. */
  function Delete<T>(rows: seq<T>, key: T -> nat, id: nat): (r: seq<T>)
    ensures Find(r, key, id).None?
    ensures forall i :: 0 <= i < |r| ==> r[i] in rows
    ensures forall i :: 0 <= i < |rows| && key(rows[i]) != id ==> rows[i] in r
  {
    Seqs.Filter(KeyIsNot(key, id), rows)
  }

  /** A delete leaves the rows under every other key where they were. */
  lemma {:induction false} DeleteFind<T>(rows: seq<T>, key: T -> nat, id: nat, other: nat)
    requires other != id
    ensures Find(Delete(rows, key, id), key, other) == Find(rows, key, other)
  {
    if rows != [] {
      var p := KeyIsNot(key, id);
      Seqs.FilterCons(p, rows[0], rows[1..]);
      assert rows == [rows[0]] + rows[1..];
      DeleteFind(rows[1..], key, id, other);
      if p(rows[0]) {
        assert ([rows[0]] + Delete(rows[1..], key, id))[1..] == Delete(rows[1..], key, id);
      }
    }
  }
}
