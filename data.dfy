/** The `Task` table: its rows in store order, and the two queries the service runs on it. */
module Data {
  import opened Models

  /** No two rows share an id (the table's primary key). */
  predicate DistinctIds(rows: seq<Task>)
  {
    forall i, j :: 0 <= i < |rows| && 0 <= j < |rows| && rows[i].id == rows[j].id ==> i == j
  }

  /** Every row has a non-empty title. */
  predicate AllTitled(rows: seq<Task>)
  {
    forall t :: t in rows ==> HasTitle(t)
  }

  /** `Where(t => t.Id == id).FirstOrDefault()`: the position of the first row with that id, if any. */
  function FindIndex(rows: seq<Task>, id: int): (r: Option<nat>)
    ensures r.Some? ==> r.value < |rows| && rows[r.value].id == id
    ensures r.Some? ==> forall j :: 0 <= j < r.value ==> rows[j].id != id
    ensures r.None? <==> forall j :: 0 <= j < |rows| ==> rows[j].id != id
  {
    if rows == [] then None
    else if rows[0].id == id then Some(0)
    else match FindIndex(rows[1..], id)
      case None => None
      case Some(k) => Some(k + 1)
  }

  /** With distinct ids, the row found for an id is the only row carrying it. */
  lemma FindIndexUnique(rows: seq<Task>, k: nat)
    requires DistinctIds(rows)
    requires k < |rows|
    ensures FindIndex(rows, rows[k].id) == Some(k)
  {
  }

  /** `Where(t => t.Id == id).ExecuteDelete()`: the table without the rows carrying that id. */
  function Without(rows: seq<Task>, id: int): (r: seq<Task>)
    ensures forall t :: t in r <==> t in rows && t.id != id
    ensures FindIndex(rows, id).None? ==> r == rows
    ensures |r| <= |rows|
  {
    if rows == [] then []
    else if rows[0].id == id then Without(rows[1..], id)
    else [rows[0]] + Without(rows[1..], id)
  }

  /** Deleting keeps the remaining ids distinct. */
  lemma {:induction false} WithoutDistinct(rows: seq<Task>, id: int)
    requires DistinctIds(rows)
    ensures DistinctIds(Without(rows, id))
  {
    if rows != [] {
      var tail := rows[1..];
      assert DistinctIds(tail) by {
        forall i, j | 0 <= i < |tail| && 0 <= j < |tail| && tail[i].id == tail[j].id
          ensures i == j
        {
          assert rows[i + 1].id == rows[j + 1].id;
        }
      }
      WithoutDistinct(tail, id);
      if rows[0].id != id {
        var rest := Without(tail, id);
        forall t | t in rest ensures t.id != rows[0].id {
          var k :| 0 <= k < |tail| && tail[k] == t;
          assert rows[k + 1] == t;
        }
        var r := [rows[0]] + rest;
        forall i, j | 0 <= i < |r| && 0 <= j < |r| && r[i].id == r[j].id
          ensures i == j
        {
          if i > 0 && j > 0 {
            assert rest[i - 1].id == rest[j - 1].id;
          }
        }
      }
    }
  }

  /** Deleting an id that is present, from a table with distinct ids, removes exactly one row. */
  lemma {:induction false} WithoutSize(rows: seq<Task>, id: int)
    requires DistinctIds(rows)
    requires FindIndex(rows, id).Some?
    ensures |Without(rows, id)| == |rows| - 1
  {
    var tail := rows[1..];
    assert DistinctIds(tail) by {
      forall i, j | 0 <= i < |tail| && 0 <= j < |tail| && tail[i].id == tail[j].id
        ensures i == j
      {
        assert rows[i + 1].id == rows[j + 1].id;
      }
    }
    if rows[0].id == id {
      forall j | 0 <= j < |tail| ensures tail[j].id != id {
        assert rows[j + 1].id != rows[0].id;
      }
      assert Without(tail, id) == tail;
    } else {
      WithoutSize(tail, id);
    }
  }
}
