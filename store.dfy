/**
 * The `Prediction` table: one row per `observation_id`, which the column's
 * unique constraint keeps distinct. The rows are held as a map from that id to
 * the rest of the row, together with the ids in the order the rows were
 * inserted: the rowid order an unordered scan yields in practice.
 */
module Store {
  import opened Wrappers
  import opened Validation

  /** The columns of a row other than its key. `proba` is the model's output, passed through. */
  datatype Record = Record(observation: Observation, proba: real, trueClass: Option<int>)

  /** A row as the endpoints return it: every column, the key included. */
  datatype Row = Row(observationId: int, observation: Observation, proba: real, trueClass: Option<int>)

  /** The failures the store reports: a unique-constraint violation, a lookup that found nothing. */
  datatype StoreError = AlreadyExists(id: int) | DoesNotExist(id: int)

  /** The flat form of a stored row. */
  function ToRow(id: int, r: Record): Row
  {
    Row(id, r.observation, r.proba, r.trueClass)
  }

  /** No id occurs twice in `s`. */
  predicate Distinct(s: seq<int>)
  {
    forall i, j :: 0 <= i < j < |s| ==> s[i] != s[j]
  }

  /** A sequence without repetitions has as many elements as the set of its elements. */
  lemma {:induction false} DistinctCardinality(s: seq<int>)
    requires Distinct(s)
    ensures |set x | x in s| == |s|
  {
    if s != [] {
      var rest := s[1..];
      assert Distinct(rest) by {
        forall i, j | 0 <= i < j < |rest| ensures rest[i] != rest[j] {
          assert rest[i] == s[i + 1] && rest[j] == s[j + 1];
        }
      }
      DistinctCardinality(rest);
      assert s[0] !in rest by {
        forall j | 0 <= j < |rest| ensures rest[j] != s[0] {
          assert rest[j] == s[j + 1];
        }
      }
      assert (set x | x in s) == (set x | x in rest) + {s[0]} by {
        assert s == [s[0]] + rest;
      }
    }
  }

  class PredictionStore {
    /** The rows, keyed by `observation_id`. */
    var table: map<int, Record>
    /** The keys of `table`, oldest row first. */
    var order: seq<int>

    /** Every key is listed once in `order`, and `order` lists nothing else. */
    ghost predicate Valid()
      reads this
    {
      && (forall id :: id in table <==> id in order)
      && Distinct(order)
    }

    /** An empty table. */
    constructor ()
      ensures Valid()
      ensures table == map[] && order == []
    {
      table := map[];
      order := [];
    }

    /**
     * Saves a new row with no `true_class` yet. When the id is taken, the unique
     * constraint rejects the insert, the insert is rolled back and the table
     * stays as it was.
     */
    method Insert(id: int, observation: Observation, proba: real) returns (err: Option<StoreError>)
      requires Valid()
      modifies this
      ensures Valid()
      ensures err == None <==> id !in old(table)
      ensures err.Some? ==> err == Some(AlreadyExists(id)) && table == old(table) && order == old(order)
      ensures err.None? ==>
                table == old(table)[id := Record(observation, proba, None)] && order == old(order) + [id]
      ensures |table| == |old(table)| + (if err.None? then 1 else 0)
    {
      if id in table {
        err := Some(AlreadyExists(id));
      } else {
        table := table[id := Record(observation, proba, None)];
        order := order + [id];
        err := None;
      }
    }

    /**
     * Sets the `true_class` of the row with the given id and returns the whole
     * row; an unknown id is reported and no row is created.
     */
    method Update(id: int, trueClass: Option<int>) returns (r: Result<Row, StoreError>)
      requires Valid()
      modifies this
      ensures Valid()
      ensures table.Keys == old(table).Keys && order == old(order)
      ensures id !in old(table) ==> r == Failure(DoesNotExist(id)) && table == old(table)
      ensures id in old(table) ==>
                table == old(table)[id := old(table)[id].(trueClass := trueClass)]
      ensures id in old(table) ==>
                r.Success? && r.value.observationId == id && r.value.trueClass == trueClass &&
                r.value.observation == old(table)[id].observation && r.value.proba == old(table)[id].proba
    {
      if id !in table {
        r := Failure(DoesNotExist(id));
      } else {
        var rec := table[id].(trueClass := trueClass);
        table := table[id := rec];
        r := Success(ToRow(id, rec));
      }
    }

    /** Every stored row, each exactly once, oldest first. */
    method ListAll() returns (rows: seq<Row>)
      requires Valid()
      ensures |rows| == |table| == |order|
      ensures forall i :: 0 <= i < |rows| ==>
                rows[i].observationId in table && rows[i] == ToRow(rows[i].observationId, table[rows[i].observationId])
      ensures forall id :: id in table ==> exists i :: 0 <= i < |rows| && rows[i].observationId == id
      ensures forall i, j :: 0 <= i < j < |rows| ==> rows[i].observationId != rows[j].observationId
      ensures forall i :: 0 <= i < |rows| ==> rows[i].observationId == order[i]
    {
      rows := [];
      for k := 0 to |order|
        invariant |rows| == k
        invariant forall i :: 0 <= i < k ==> rows[i] == ToRow(order[i], table[order[i]])
      {
        rows := rows + [ToRow(order[k], table[order[k]])];
      }
      assert table.Keys == set x | x in order by {
        forall x ensures x in table.Keys <==> x in order { }
      }
      DistinctCardinality(order);
    }
  }
}
