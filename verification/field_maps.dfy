/**
 The field map every helper takes: a PHP array from column name to a scalar.
 PHP arrays keep insertion order and hold each key once, so a field map is an
 ordered sequence of entries with distinct keys.
 */
module FieldMaps {

  /** A PHP scalar as it is handed to `bindValue` or read back from a row. */
  datatype Value = Null | Bool(b: bool) | Int(i: int) | Str(s: string)

  type Entry = (string, Value)

  /** No key appears twice. */
  predicate DistinctKeys(entries: seq<Entry>)
  {
    forall i, j :: 0 <= i < j < |entries| ==> entries[i].0 != entries[j].0
  }

  type FieldMap = m: seq<Entry> | DistinctKeys(m)

  /** The keys of a field map, in order. */
  function Keys(entries: seq<Entry>): seq<string>
  {
    seq(|entries|, i requires 0 <= i < |entries| => entries[i].0)
  }

  /** `getFields` and `getBindFields`, which turn a field map into the column
      list and the placeholder list of a statement. Their implementation is not
      part of this model, so they are kept uninterpreted. */
  datatype ListBuilders = ListBuilders(fields: FieldMap -> string, bindFields: FieldMap -> string)
}
