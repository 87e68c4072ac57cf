/**
 * A table whose key column is `id INTEGER PRIMARY KEY AUTOINCREMENT`, as all
 * three tables of the store are. Rows are kept in rowid order, the order in
 * which SQLite's plain table scan visits them; an unordered `SELECT` returns
 * them in that order in practice, though SQL does not promise it.
 */
module Table {

  import opened Wrappers

  datatype Row<T> = Row(id: nat, data: T)

  /**
   * The keys AUTOINCREMENT hands out: `last` is the largest key ever issued
   * (SQLite's sqlite_sequence entry), every key lies in 1..last, and keys
   * strictly increase in table order, so no two rows share one.
   */
  ghost predicate WellKeyed<T>(t: seq<Row<T>>, last: nat)
  {
    && (forall i :: 0 <= i < |t| ==> 1 <= t[i].id <= last)
    && (forall i, j :: 0 <= i < j < |t| ==> t[i].id < t[j].id)
  }

  /** `SELECT ... WHERE id = ?` then `fetchone()`: the first row carrying the key, if any. */
  function Find<T>(t: seq<Row<T>>, id: int): (r: Option<Row<T>>)
    ensures r.Some? ==> r.value in t && r.value.id == id
    ensures r.None? <==> forall row :: row in t ==> row.id != id
  {
    if t == [] then None
    else if t[0].id == id then Some(t[0])
    else Find(t[1..], id)
  }

  /** In a well-keyed table the row found under a key is the one row that carries it. */
  lemma {:induction false} FindUnique<T>(t: seq<Row<T>>, last: nat, row: Row<T>)
    requires WellKeyed(t, last) && row in t
    ensures Find(t, row.id) == Some(row)
  {
    if t[0] != row {
      var j :| 0 <= j < |t| && t[j] == row;
      assert j > 0 && t[0].id < row.id;
      assert row in t[1..] by { assert t[1..][j - 1] == row; }
      FindUnique(t[1..], last, row);
    }
  }

  /** `UPDATE ... SET <every other column> WHERE id = ?`: rows with the key get the new data in place. */
  function Update<T>(t: seq<Row<T>>, id: int, data: T): (r: seq<Row<T>>)
    ensures |r| == |t|
  {
    if t == [] then []
    else [if t[0].id == id then Row(t[0].id, data) else t[0]] + Update(t[1..], id, data)
  }

  /** Row by row, an update rewrites the data of the rows carrying the key and keeps every other row. */
  lemma {:induction false} UpdateRows<T>(t: seq<Row<T>>, id: int, data: T)
    ensures forall i :: 0 <= i < |t| ==>
              Update(t, id, data)[i] == if t[i].id == id then Row(t[i].id, data) else t[i]
  {
    if t != [] {
      UpdateRows(t[1..], id, data);
      var r := Update(t, id, data);
      assert r == [r[0]] + Update(t[1..], id, data);
      forall i | 1 <= i < |t|
        ensures r[i] == if t[i].id == id then Row(t[i].id, data) else t[i]
      {
        assert r[i] == Update(t[1..], id, data)[i - 1] && t[i] == t[1..][i - 1];
      }
    }
  }

  /** An update leaves every key where it was. */
  lemma UpdateKeepsKeys<T>(t: seq<Row<T>>, last: nat, id: int, data: T)
    requires WellKeyed(t, last)
    ensures WellKeyed(Update(t, id, data), last)
  {
    var r := Update(t, id, data);
    UpdateRows(t, id, data);
    assert forall i :: 0 <= i < |t| ==> r[i].id == t[i].id;
  }

  /** After an update, a lookup under the key sees the new data and every other lookup is as before. */
  lemma {:induction false} FindAfterUpdate<T>(t: seq<Row<T>>, id: int, data: T)
    ensures Find(Update(t, id, data), id) == if Find(t, id).None? then None else Some(Row(Find(t, id).value.id, data))
    ensures forall k :: k != id ==> Find(Update(t, id, data), k) == Find(t, k)
  {
    if t != [] {
      var r := Update(t, id, data);
      assert r[1..] == Update(t[1..], id, data);
      FindAfterUpdate(t[1..], id, data);
    }
  }

  /** An update under a key no row carries changes nothing. */
  lemma UpdateAbsent<T>(t: seq<Row<T>>, id: int, data: T)
    requires Find(t, id).None?
    ensures Update(t, id, data) == t
  {
    var r := Update(t, id, data);
    assert forall i :: 0 <= i < |t| ==> t[i] in t;
    assert forall i :: 0 <= i < |t| ==> r[i] == t[i];
  }

  /** `DELETE FROM ... WHERE id = ?`: the rows with the key go, the others stay in order. */
  function Delete<T>(t: seq<Row<T>>, id: int): (r: seq<Row<T>>)
    ensures |r| <= |t|
    ensures forall row :: row in r ==> row in t && row.id != id
    ensures forall row :: row in t && row.id != id ==> row in r
  {
    if t == [] then []
    else (if t[0].id == id then [] else [t[0]]) + Delete(t[1..], id)
  }

  /** Below the head of a well-keyed table every key is larger than the head's, and the tail is well keyed. */
  lemma TailKeyed<T>(t: seq<Row<T>>, last: nat)
    requires WellKeyed(t, last) && t != []
    ensures WellKeyed(t[1..], last)
    ensures forall row :: row in t[1..] ==> t[0].id < row.id
  {
    forall row | row in t[1..]
      ensures t[0].id < row.id
    {
      var k :| 0 <= k < |t[1..]| && t[1..][k] == row;
      assert t[k + 1] == row;
    }
  }

  /** A row whose key lies below every key of a well-keyed table can head it. */
  lemma ConsKeyed<T>(x: Row<T>, t: seq<Row<T>>, last: nat)
    requires WellKeyed(t, last) && 1 <= x.id <= last
    requires forall row :: row in t ==> x.id < row.id
    ensures WellKeyed([x] + t, last)
  {
    var r := [x] + t;
    forall i, j | 0 <= i < j < |r|
      ensures r[i].id < r[j].id
    {
      assert r[j] == t[j - 1];
      if i == 0 {
        assert t[j - 1] in t;
      } else {
        assert r[i] == t[i - 1];
      }
    }
  }

  /** A delete keeps the remaining keys well formed: nothing is renumbered. */
  lemma {:induction false} DeleteKeepsKeys<T>(t: seq<Row<T>>, last: nat, id: int)
    requires WellKeyed(t, last)
    ensures WellKeyed(Delete(t, id), last)
  {
    if t != [] {
      TailKeyed(t, last);
      DeleteKeepsKeys(t[1..], last, id);
      var rest := Delete(t[1..], id);
      if t[0].id == id {
        assert Delete(t, id) == rest;
      } else {
        assert Delete(t, id) == [t[0]] + rest;
        ConsKeyed(t[0], rest, last);
      }
    }
  }



  /** After a delete the key finds nothing and every other key finds what it found before. */
  lemma {:induction false} FindAfterDelete<T>(t: seq<Row<T>>, id: int)
    ensures forall k :: Find(Delete(t, id), k) == if k == id then None else Find(t, k)
  {
    if t != [] {
      var rest := Delete(t[1..], id);
      FindAfterDelete(t[1..], id);
      if t[0].id == id {
        assert Delete(t, id) == rest;
      } else {
        var r := [t[0]] + rest;
        assert Delete(t, id) == r;
        assert r[0] == t[0] && r[1..] == rest;
      }
    }
  }

  /** A delete under a key no row carries changes nothing. */
  lemma {:induction false} DeleteAbsent<T>(t: seq<Row<T>>, id: int)
    requires Find(t, id).None?
    ensures Delete(t, id) == t
  {
    if t != [] {
      assert t[0] in t;
      DeleteAbsent(t[1..], id);
      assert t == [t[0]] + t[1..];
    }
  }

}
