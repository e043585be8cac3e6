/**
 `insertIntoDatabase` and `deleteFromDatabase`: each prepares one statement
 from a fixed template, binds every entry of the field map to the placeholder
 `:key`, and executes it; a driver error goes to the classifier and is
 swallowed. The column list and the placeholder list come from `getFields` and
 `getBindFields`, whose implementation is not part of this model: they are
 supplied as a pair of uninterpreted functions (`FieldMaps.ListBuilders`).
 */
module Statements {
  import opened FieldMaps
  import opened ErrorClassifier

  /** One `bindValue(placeholder, value)` call. */
  datatype Binding = Binding(placeholder: string, value: Value)

  /** The statement handed to the driver: its text and the calls that bound it. */
  datatype Prepared = Prepared(sql: string, bound: seq<Binding>)

  /** How the driver answers `execute`: it runs, or raises with a message. */
  datatype DriverReply = Executed | Raised(message: string)

  /** What one insert or delete leaves behind: the statement prepared and the
      strings written to the output. The PHP function itself returns nothing. */
  datatype Mutation = Mutation(statement: Prepared, echoed: seq<string>)

  /** The named placeholder a key is bound to. */
  function Placeholder(key: string): string
  {
    ":" + key
  }

  lemma PlaceholderInjective(a: string, b: string)
    ensures Placeholder(a) == Placeholder(b) ==> a == b
  {
    if Placeholder(a) == Placeholder(b) {
      assert a == Placeholder(a)[1..];
      assert b == Placeholder(b)[1..];
    }
  }

  /** The `bindValue` calls the binding loop makes for `m`, in order. */
  function Bindings(m: seq<Entry>): seq<Binding>
  {
    if |m| == 0 then [] else [Binding(Placeholder(m[0].0), m[0].1)] + Bindings(m[1..])
  }

  lemma {:induction false} BindingsOnePerKey(m: seq<Entry>)
    ensures |Bindings(m)| == |m|
    ensures forall i :: 0 <= i < |m| ==> Bindings(m)[i] == Binding(Placeholder(m[i].0), m[i].1)
  {
    if |m| > 0 {
      BindingsOnePerKey(m[1..]);
    }
  }

  /** The statement's parameter table after the calls `calls`, starting from
      `params`; a later call on the same placeholder replaces an earlier one. */
  function BoundAfter(params: map<string, Value>, calls: seq<Binding>): map<string, Value>
    decreases |calls|
  {
    if |calls| == 0 then params
    else BoundAfter(params[calls[0].placeholder := calls[0].value], calls[1..])
  }

  /** The placeholders of the keys of `m`. */
  function PlaceholderSet(m: seq<Entry>): set<string>
  {
    set i | 0 <= i < |m| :: Placeholder(m[i].0)
  }

  lemma PlaceholderSetSplit(m: seq<Entry>)
    requires DistinctKeys(m) && |m| > 0
    ensures DistinctKeys(m[1..])
    ensures PlaceholderSet(m) == {Placeholder(m[0].0)} + PlaceholderSet(m[1..])
    ensures Placeholder(m[0].0) !in PlaceholderSet(m[1..])
  {
    var rest := m[1..];
    forall i, j | 0 <= i < j < |rest|
      ensures rest[i].0 != rest[j].0
    {
      assert rest[i] == m[i + 1] && rest[j] == m[j + 1];
    }
    forall p | p in PlaceholderSet(m)
      ensures p in {Placeholder(m[0].0)} + PlaceholderSet(rest)
    {
      var i :| 0 <= i < |m| && p == Placeholder(m[i].0);
      if i > 0 {
        assert m[i] == rest[i - 1];
      }
    }
    forall p | p in PlaceholderSet(rest)
      ensures p in PlaceholderSet(m)
    {
      var i :| 0 <= i < |rest| && p == Placeholder(rest[i].0);
      assert rest[i] == m[i + 1];
    }
    forall i | 0 <= i < |rest|
      ensures Placeholder(rest[i].0) != Placeholder(m[0].0)
    {
      assert rest[i] == m[i + 1];
      PlaceholderInjective(rest[i].0, m[0].0);
    }
  }

  lemma {:induction false} BoundAfterBindings(params: map<string, Value>, m: seq<Entry>)
    requires DistinctKeys(m)
    ensures BoundAfter(params, Bindings(m)).Keys == params.Keys + PlaceholderSet(m)
    ensures forall i :: 0 <= i < |m| ==> BoundAfter(params, Bindings(m))[Placeholder(m[i].0)] == m[i].1
    ensures forall k :: k in params && k !in PlaceholderSet(m) ==> BoundAfter(params, Bindings(m))[k] == params[k]
    decreases |m|
  {
    if |m| > 0 {
      var head := Placeholder(m[0].0);
      var params' := params[head := m[0].1];
      var rest := m[1..];
      PlaceholderSetSplit(m);
      BoundAfterBindings(params', rest);
      assert Bindings(m)[1..] == Bindings(rest);
      var result := BoundAfter(params, Bindings(m));
      assert result == BoundAfter(params', Bindings(rest));
      forall i | 0 <= i < |m|
        ensures result[Placeholder(m[i].0)] == m[i].1
      {
        if i > 0 {
          assert m[i] == rest[i - 1];
        }
      }
    }
  }

  /** The parameter table the binding loop is meant to leave: `:key` holding
      the key's value, for every key of `m`. */
  function ParameterTable(m: FieldMap): (t: map<string, Value>)
    ensures t.Keys == PlaceholderSet(m)
    ensures forall i :: 0 <= i < |m| ==> t[Placeholder(m[i].0)] == m[i].1
  {
    forall a, b ensures Placeholder(a) == Placeholder(b) ==> a == b {
      PlaceholderInjective(a, b);
    }
    map i | 0 <= i < |m| :: Placeholder(m[i].0) := m[i].1
  }

  /** After the binding loop the statement has exactly one parameter per key,
      `:key`, holding that key's value, and no other parameter. */
  lemma BoundParameters(m: FieldMap)
    ensures BoundAfter(map[], Bindings(m)) == ParameterTable(m)
  {
    BoundAfterBindings(map[], m);
  }

  /** The binding loop: for each entry in map order, bind the value to the
      key's placeholder. */
  method BindValues(m: FieldMap) returns (bound: seq<Binding>)
    ensures |bound| == |m|
    ensures forall i :: 0 <= i < |m| ==> bound[i] == Binding(Placeholder(m[i].0), m[i].1)
    ensures bound == Bindings(m)
  {
    bound := [];
    var i := 0;
    while i < |m|
      invariant 0 <= i <= |m|
      invariant |bound| == i
      invariant forall j :: 0 <= j < i ==> bound[j] == Binding(Placeholder(m[j].0), m[j].1)
    {
      bound := bound + [Binding(Placeholder(m[i].0), m[i].1)];
      i := i + 1;
    }
    BindingsOnePerKey(m);
  }

  /** Bind every entry of `m` into the statement `sql`, execute it, and route
      a driver error to the classifier. */
  method Execute(sql: string, m: FieldMap, reply: DriverReply) returns (r: Mutation)
    ensures r.statement.sql == sql
    ensures |r.statement.bound| == |m|
    ensures forall i :: 0 <= i < |m| ==> r.statement.bound[i] == Binding(Placeholder(m[i].0), m[i].1)
    ensures reply.Executed? ==> r.echoed == []
    ensures reply.Raised? ==> r.echoed == HandlePdoExceptions(reply.message).echoed
  {
    var bound := BindValues(m);
    var echoed: seq<string> := [];
    match reply {
      case Executed =>
      case Raised(message) =>
        echoed := HandlePdoExceptions(message).echoed;
    }
    r := Mutation(Prepared(sql, bound), echoed);
  }

  method InsertIntoDatabase(table: string, m: FieldMap, lists: ListBuilders, reply: DriverReply)
    returns (r: Mutation)
    ensures r.statement.sql
         == "INSERT INTO " + table + " (" + lists.fields(m) + ") Values (" + lists.bindFields(m) + ")"
    ensures |r.statement.bound| == |m|
    ensures forall i :: 0 <= i < |m| ==> r.statement.bound[i] == Binding(Placeholder(m[i].0), m[i].1)
    ensures reply.Executed? ==> r.echoed == []
    ensures reply.Raised? ==> r.echoed == HandlePdoExceptions(reply.message).echoed
  {
    var sql := "INSERT INTO " + table + " (" + lists.fields(m) + ") Values (" + lists.bindFields(m) + ")";
    r := Execute(sql, m, reply);
  }

  /** The WHERE clause is one equality between the whole column list and the
      whole placeholder list, whatever the number of keys. */
  method DeleteFromDatabase(table: string, m: FieldMap, lists: ListBuilders, reply: DriverReply)
    returns (r: Mutation)
    ensures r.statement.sql
         == "DELETE FROM " + table + " WHERE (" + lists.fields(m) + " = " + lists.bindFields(m) + ")"
    ensures |r.statement.bound| == |m|
    ensures forall i :: 0 <= i < |m| ==> r.statement.bound[i] == Binding(Placeholder(m[i].0), m[i].1)
    ensures reply.Executed? ==> r.echoed == []
    ensures reply.Raised? ==> r.echoed == HandlePdoExceptions(reply.message).echoed
  {
    var sql := "DELETE FROM " + table + " WHERE" + " (" + lists.fields(m) + " = " + lists.bindFields(m) + ")";
    r := Execute(sql, m, reply);
  }
}
