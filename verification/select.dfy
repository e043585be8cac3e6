/**
 `selectFromDatabase`: prepares `SELECT <fields>FROM <table>` (no WHERE
 clause). If the driver reports no rows the answer is `false`; otherwise it
 fetches rows until the driver has none left or hands back an empty row (which
 PHP reads as false), and copies the requested columns of each into an inner
 array that is appended to the output. The reported row count and the rows
 the driver hands back are inputs here.

 The inner array is created once, before the first row, and is only ever
 overwritten key by key; the model follows PHP's ordered-array assignment to
 show that no value of an earlier row survives into a later one.
 */
module Select {
  import opened FieldMaps

  /** PHP's `false` when no rows are reported, or the projected rows in fetch
      order (possibly none, when rows are reported but none is fetched). */
  datatype Fetched = NoRows | Rows(rows: seq<FieldMap>)

  /** Reading a column of a fetched row: PHP yields null (with a notice) when
      the row has no such column. */
  function Lookup(row: map<string, Value>, key: string): Value
  {
    if key in row then row[key] else Null
  }

  /** Assigning key `k` of a PHP array: the entry for `k` is overwritten in
      place if there is one, otherwise a new entry is appended. */
  function Assign(a: seq<Entry>, k: string, v: Value): seq<Entry>
  {
    if |a| == 0 then [(k, v)]
    else if a[0].0 == k then [(k, v)] + a[1..]
    else [a[0]] + Assign(a[1..], k, v)
  }

  lemma {:induction false} AssignAppends(a: seq<Entry>, k: string, v: Value)
    requires forall i :: 0 <= i < |a| ==> a[i].0 != k
    ensures Assign(a, k, v) == a + [(k, v)]
  {
    if |a| > 0 {
      AssignAppends(a[1..], k, v);
      assert a == [a[0]] + a[1..];
    }
  }

  lemma {:induction false} AssignOverwrites(a: seq<Entry>, k: string, v: Value, j: nat)
    requires j < |a| && a[j].0 == k
    requires forall i :: 0 <= i < j ==> a[i].0 != k
    ensures Assign(a, k, v) == a[j := (k, v)]
  {
    if j > 0 {
      AssignOverwrites(a[1..], k, v, j - 1);
      assert a[j := (k, v)] == [a[0]] + a[1..][j - 1 := (k, v)];
    }
  }

  /** The inner array built for one row: every requested key, in the field
      map's order, with the row's value for it. */
  function Project(m: seq<Entry>, row: map<string, Value>): seq<Entry>
  {
    seq(|m|, i requires 0 <= i < |m| => (m[i].0, Lookup(row, m[i].0)))
  }

  /** The inner loop over the field map for one row, starting from the inner
      array the previous row left (`stale`, empty before the first row). */
  method ProjectRow(m: FieldMap, row: map<string, Value>, stale: seq<Entry>) returns (inner: seq<Entry>)
    requires stale == [] || Keys(stale) == Keys(m)
    ensures |inner| == |m|
    ensures forall i :: 0 <= i < |m| ==> inner[i] == (m[i].0, Lookup(row, m[i].0))
    ensures inner == Project(m, row)
  {
    inner := stale;
    if stale != [] {
      forall i | 0 <= i < |m|
        ensures stale[i].0 == m[i].0
      {
        assert Keys(stale)[i] == Keys(m)[i];
      }
    }
    var j := 0;
    while j < |m|
      invariant 0 <= j <= |m|
      invariant |inner| == if stale == [] then j else |m|
      invariant forall i :: 0 <= i < j ==> inner[i] == (m[i].0, Lookup(row, m[i].0))
      invariant stale != [] ==> forall i :: j <= i < |m| ==> inner[i].0 == m[i].0
    {
      var k := m[j].0;
      if stale == [] {
        AssignAppends(inner, k, Lookup(row, k));
      } else {
        AssignOverwrites(inner, k, Lookup(row, k), j);
      }
      inner := Assign(inner, k, Lookup(row, k));
      j := j + 1;
    }
  }

  /** How many rows the fetch loop takes: it stops at the end of what the
      driver hands back, or at the first empty row, which PHP reads as false. */
  function RunLength(fetched: seq<map<string, Value>>): (k: nat)
    ensures k <= |fetched|
    ensures forall i :: 0 <= i < k ==> fetched[i] != map[]
    ensures k < |fetched| ==> fetched[k] == map[]
  {
    if |fetched| == 0 || fetched[0] == map[] then 0 else 1 + RunLength(fetched[1..])
  }

  /** `reported` is the driver's row count; `fetched` is what successive
      fetches hand back before the driver signals the end. */
  method SelectFromDatabase(table: string, m: FieldMap, lists: ListBuilders,
                            reported: nat, fetched: seq<map<string, Value>>)
    returns (sql: string, r: Fetched)
    ensures sql == "SELECT " + lists.fields(m) + "FROM " + table
    ensures r.NoRows? <==> reported == 0
    ensures r.Rows? ==> |r.rows| == RunLength(fetched)
    ensures r.Rows? ==> forall n :: 0 <= n < |r.rows| ==> |r.rows[n]| == |m| && Keys(r.rows[n]) == Keys(m)
    ensures r.Rows? ==> forall n, i :: 0 <= n < |r.rows| && 0 <= i < |m| && m[i].0 in fetched[n] ==>
              r.rows[n][i].1 == fetched[n][m[i].0]
    ensures r.Rows? ==> forall n, i :: 0 <= n < |r.rows| && 0 <= i < |m| && m[i].0 !in fetched[n] ==>
              r.rows[n][i].1 == Null
  {
    sql := "SELECT " + lists.fields(m) + "FROM " + table;
    if reported > 0 {
      var output: seq<FieldMap> := [];
      var inner: seq<Entry> := [];
      var n := 0;
      while n < |fetched| && fetched[n] != map[]
        invariant 0 <= n <= RunLength(fetched)
        invariant |output| == n
        invariant forall p :: 0 <= p < n ==> output[p] == Project(m, fetched[p])
        invariant inner == [] || Keys(inner) == Keys(m)
      {
        inner := ProjectRow(m, fetched[n], inner);
        assert Keys(inner) == Keys(m);
        output := output + [inner];
        n := n + 1;
      }
      r := Rows(output);
    } else {
      r := NoRows;
    }
  }

  /** The values of the field map are never read: two maps with the same keys
      project every row alike. */
  lemma ProjectIgnoresValues(m1: FieldMap, m2: FieldMap, row: map<string, Value>)
    requires Keys(m1) == Keys(m2)
    ensures Project(m1, row) == Project(m2, row)
  {
    assert |m1| == |Keys(m1)| && |m2| == |Keys(m2)|;
    forall i | 0 <= i < |m1|
      ensures m1[i].0 == m2[i].0
    {
      assert Keys(m1)[i] == m1[i].0 && Keys(m2)[i] == m2[i].0;
    }
  }
}
