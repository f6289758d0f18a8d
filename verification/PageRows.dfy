/** What the scans make of a page's rows. */
module PageRows {
  import opened Wrappers

  /** The rows that convert, in order. */
  function Convertible<T>(rows: seq<Option<T>>): (converted: seq<T>) {
    if rows == [] then []
    else (if rows[0].Some? then [rows[0].value] else []) + Convertible(rows[1..])
  }

  /** `indices` are exactly the rows that convert, in order, and `converted` what each converts to. */
  ghost predicate Converts<T>(rows: seq<Option<T>>, converted: seq<T>, indices: seq<nat>) {
    |indices| == |converted| &&
    (forall j :: 0 <= j < |indices| ==> indices[j] < |rows| && rows[indices[j]] == Some(converted[j])) &&
    (forall i, j :: 0 <= i < j < |indices| ==> indices[i] < indices[j]) &&
    (forall k :: 0 <= k < |rows| && rows[k].Some? ==> k in indices)
  }

  /** Every row that converts is there once, and in order. */
  ghost predicate IsConverted<T>(rows: seq<Option<T>>, converted: seq<T>) {
    exists indices :: Converts(rows, converted, indices)
  }

  lemma Regroup<T>(a: seq<T>, b: seq<T>, c: seq<T>)
    ensures a + b + c == a + (b + c)
  {
  }

  function Converted<T>(row: Option<T>): seq<T> {
    if row.Some? then [row.value] else []
  }

  lemma {:induction false} ConvertibleConcat<T>(a: seq<Option<T>>, b: seq<Option<T>>)
    ensures Convertible(a + b) == Convertible(a) + Convertible(b)
  {
    if a == [] {
      assert a + b == b;
    } else {
      assert (a + b)[0] == a[0] && (a + b)[1..] == a[1..] + b;
      ConvertibleConcat(a[1..], b);
      Regroup(Converted(a[0]), Convertible(a[1..]), Convertible(b));
    }
  }

  lemma ConvertibleSnoc<T>(rows: seq<Option<T>>, row: Option<T>)
    ensures Convertible(rows + [row]) == Convertible(rows) + Converted(row)
  {
    ConvertibleConcat(rows, [row]);
    assert [row][1..] == [];
    assert Convertible([row]) == Converted(row) + [];
  }

  lemma ConvertsSnoc<T>(rows: seq<Option<T>>, row: Option<T>, converted: seq<T>, indices: seq<nat>)
    requires Converts(rows, converted, indices)
    ensures Converts(rows + [row], converted + Converted(row), if row.Some? then indices + [|rows|] else indices)
  {
    var more := if row.Some? then indices + [|rows|] else indices;
    forall k | 0 <= k < |rows + [row]| && (rows + [row])[k].Some? ensures k in more {
      if k < |rows| {
        assert rows[k].Some?;
        var j :| 0 <= j < |indices| && indices[j] == k;
        assert more[j] == k;
      } else {
        assert more[|indices|] == k;
      }
    }
  }

  lemma {:induction false} ConvertibleExact<T>(rows: seq<Option<T>>) returns (indices: seq<nat>)
    ensures Converts(rows, Convertible(rows), indices)
  {
    if rows == [] {
      indices := [];
    } else {
      var before, row := rows[..|rows| - 1], rows[|rows| - 1];
      assert rows == before + [row];
      indices := ConvertibleExact(before);
      ConvertibleSnoc(before, row);
      ConvertsSnoc(before, row, Convertible(before), indices);
      if row.Some? {
        indices := indices + [|before|];
      }
    }
  }

  /** A row that converts leaves something to hand over. */
  lemma RowConverts<T>(rows: seq<Option<T>>, k: nat)
    requires k < |rows|
    ensures rows[k].Some? ==> Convertible(rows) != []
  {
    var indices := ConvertibleExact(rows);
  }
}
