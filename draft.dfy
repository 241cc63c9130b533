/**
 * The draft a batch callback works on, with the per-table handler operations
 * of `createTableHandler`: each changes the draft's tables in place.
 */
module Drafts {
  import opened Records
  import opened Tables

  class Draft {
    /** The draft tables, by name. */
    var tables: Snapshot

    constructor (base: Snapshot)
      ensures tables == base
    {
      tables := base;
    }

    /** `add(item)`: pushes one record, or every record of an array, at the end of the table. */
    method Add(name: string, item: Addition)
      requires name in tables
      modifies this
      ensures tables == old(tables)[name := old(tables)[name] + Rows(item)]
    {
      match item
      case Item(r) =>
        tables := tables[name := tables[name] + [r]];
      case Items(rs) =>
        tables := tables[name := tables[name] + rs];
    }

    /**
     * `updateBy(field, newValue)(value)`: walks the table and overwrites `field`
     * on every record whose `field` is `value`; reports whether any record matched.
     */
    method UpdateBy(name: string, field: string, newValue: Value, value: Value) returns (matched: bool)
      requires name in tables
      modifies this
      ensures tables == old(tables)[name := Updated(old(tables)[name], field, newValue, [value])]
      ensures matched == AnyMatch(old(tables)[name], field, [value])
    {
      var rows := tables[name];
      ghost var t := rows;
      matched := false;
      for i := 0 to |rows|
        invariant tables == old(tables) && |rows| == |t|
        invariant forall j :: 0 <= j < i ==> rows[j] == Revised(t[j], field, newValue, [value])
        invariant forall j :: i <= j < |t| ==> rows[j] == t[j]
        invariant matched == AnyMatch(t[..i], field, [value])
      {
        AnyMatchSnoc(t[..i], t[i], field, [value]);
        assert t[..i + 1] == t[..i] + [t[i]];
        var item := rows[i];
        if Get(item, field) == value {
          if !matched {
            matched := true;
          }
          rows := rows[i := Set(item, field, newValue)];
        }
      }
      assert t[..|t|] == t;
      assert rows == Updated(t, field, newValue, [value]);
      tables := tables[name := rows];
    }

    /** `updateBy(field, newValue).in(values)`: the update for every value in order, then `.some(Boolean)`. */
    method UpdateByIn(name: string, field: string, newValue: Value, values: seq<Value>) returns (matched: bool)
      requires name in tables
      modifies this
      ensures tables == old(tables)[name := UpdatedEach(old(tables)[name], field, newValue, values)]
      ensures tables[name] == Updated(old(tables)[name], field, newValue, values)
      ensures matched == (true in UpdateResults(old(tables)[name], field, newValue, values))
      ensures matched == AnyMatch(old(tables)[name], field, values)
    {
      ghost var t := tables[name];
      var results: seq<bool> := [];
      for i := 0 to |values|
        invariant name in tables && tables == old(tables)[name := tables[name]]
        invariant tables[name] == UpdatedEach(t, field, newValue, values[..i])
        invariant results == UpdateResults(t, field, newValue, values[..i])
      {
        ghost var before := tables[name];
        var m := UpdateBy(name, field, newValue, values[i]);
        UpdatedEachNext(t, field, newValue, values, i, before, tables[name], results, m);
        results := results + [m];
      }
      assert values[..|values|] == values;
      matched := true in results;
      UpdatedEachIsUpdated(t, field, newValue, values);
      UpdateResultsAny(t, field, newValue, values);
    }

    /**
     * `deleteBy(field)(value)`: replaces the table by the records whose `field`
     * is not `value`; reports whether any record was removed.
     */
    method DeleteBy(name: string, field: string, value: Value) returns (removed: bool)
      requires name in tables
      modifies this
      ensures tables == old(tables)[name := Without(old(tables)[name], field, [value])]
      ensures removed == AnyMatch(old(tables)[name], field, [value])
    {
      var t := tables[name];
      var kept: seq<Record> := [];
      removed := false;
      for i := 0 to |t|
        invariant tables == old(tables)
        invariant kept == Without(t[..i], field, [value])
        invariant removed == AnyMatch(t[..i], field, [value])
      {
        assert t[..i + 1] == t[..i] + [t[i]];
        WithoutSnoc(t[..i], t[i], field, [value]);
        AnyMatchSnoc(t[..i], t[i], field, [value]);
        if Get(t[i], field) == value {
          removed := true;
        } else {
          kept := kept + [t[i]];
        }
      }
      assert t[..|t|] == t;
      tables := tables[name := kept];
    }

    /** `deleteBy(field).in(values)`: the delete for every value in order, then `.some(Boolean)`. */
    method DeleteByIn(name: string, field: string, values: seq<Value>) returns (removed: bool)
      requires name in tables
      modifies this
      ensures tables == old(tables)[name := WithoutEach(old(tables)[name], field, values)]
      ensures tables[name] == Without(old(tables)[name], field, values)
      ensures removed == (true in DeleteResults(old(tables)[name], field, values))
      ensures removed == AnyMatch(old(tables)[name], field, values)
    {
      ghost var t := tables[name];
      var results: seq<bool> := [];
      for i := 0 to |values|
        invariant name in tables && tables == old(tables)[name := tables[name]]
        invariant tables[name] == WithoutEach(t, field, values[..i])
        invariant results == DeleteResults(t, field, values[..i])
      {
        ghost var before := tables[name];
        var m := DeleteBy(name, field, values[i]);
        WithoutEachNext(t, field, values, i, before, tables[name], results, m);
        results := results + [m];
      }
      assert values[..|values|] == values;
      removed := true in results;
      WithoutEachIsWithout(t, field, values);
      DeleteResultsAny(t, field, values);
    }

    /** `clear()`: the table becomes empty. */
    method Clear(name: string)
      requires name in tables
      modifies this
      ensures tables == old(tables)[name := []]
    {
      tables := tables[name := []];
    }

    /** Performs one handler call of a batch callback. */
    method Apply(op: Op)
      requires op.table in tables
      modifies this
      ensures tables == ApplyOp(old(tables), op)
    {
      match op
      case Add(name, item) =>
        Add(name, item);
      case UpdateBy(name, field, newValue, value) =>
        var _ := UpdateBy(name, field, newValue, value);
      case UpdateByIn(name, field, newValue, values) =>
        var _ := UpdateByIn(name, field, newValue, values);
      case DeleteBy(name, field, value) =>
        var _ := DeleteBy(name, field, value);
      case DeleteByIn(name, field, values) =>
        var _ := DeleteByIn(name, field, values);
      case Clear(name) =>
        Clear(name);
    }
  }
}
