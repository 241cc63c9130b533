/**
 * The store: `Pilaf`, which owns the resolvers and the schema's table names,
 * and the store values `create` returns. A store value is immutable; calling
 * it with a batch yields a new store value (or itself), and each table name
 * reads as the materialised view of that table.
 */
module Stores {
  import opened Wrappers
  import opened Records
  import opened Tables
  import opened Materialiser
  import Drafts

  class Pilaf {
    /** One resolver function per table; its keys are the schema's table names. */
    const resolvers: map<string, ResolverFn>
    /** The schema's tables, always empty: only their names are used. */
    var tables: Snapshot

    ghost predicate Valid()
      reads this
    {
      && tables.Keys == resolvers.Keys
      && forall n :: n in tables ==> tables[n] == []
    }

    /** `new Pilaf(resolvers)`: one empty table per resolver. */
    constructor (resolvers: map<string, ResolverFn>)
      ensures this.resolvers == resolvers
      ensures tables.Keys == resolvers.Keys
      ensures forall n :: n in tables ==> tables[n] == []
      ensures Valid()
    {
      this.resolvers := resolvers;
      tables := CreateTables(resolvers.Keys);
    }

    /** `Pilaf.clear()`: every table empty again, under the same names. */
    method Clear()
      requires Valid()
      modifies this
      ensures tables.Keys == old(tables).Keys
      ensures forall n :: n in tables ==> tables[n] == []
      ensures Valid()
    {
      tables := CreateTables(tables.Keys);
    }

    /** `create(prototypeLike?, tables?)`: a store value over the given tables, or over empty ones. */
    method Create(init: Option<Snapshot>) returns (s: Store)
      ensures fresh(s)
      ensures s.owner == this && s.resolvers == resolvers && s.names == tables.Keys
      ensures init.Some? ==> s.tables == init.value
      ensures init.None? ==> s.tables.Keys == tables.Keys && forall n :: n in s.tables ==> s.tables[n] == []
      ensures Valid() && (init.None? || init.value.Keys == tables.Keys) ==> s.Valid()
    {
      var names := tables.Keys;
      var start := if init.Some? then init.value else CreateTables(names);
      s := new Store(this, names, start);
    }
  }

  class Store {
    /** The `Pilaf` whose `create` made this store value. */
    const owner: Pilaf
    const resolvers: map<string, ResolverFn>
    /** `tableNames`: the table names captured when the store value was created. */
    const names: set<string>
    /** The snapshot this store value wraps; it never changes. */
    const tables: Snapshot

    ghost predicate Valid()
    {
      && names == tables.Keys
      && names == resolvers.Keys
      && resolvers == owner.resolvers
    }

    constructor (owner: Pilaf, names: set<string>, tables: Snapshot)
      ensures this.owner == owner && this.resolvers == owner.resolvers
      ensures this.names == names && this.tables == tables
    {
      this.owner := owner;
      this.resolvers := owner.resolvers;
      this.names := names;
      this.tables := tables;
    }

    /**
     * `store(cb)`: with no callback, this very store; otherwise the callback's
     * handler calls run in order on a draft of the tables. An empty batch gives
     * back this very store, any other batch a new store over the new tables;
     * this store's tables stay as they were.
     */
    method Call(batch: Option<seq<Op>>) returns (r: Store)
      requires Valid() && owner.Valid()
      requires batch.Some? ==> Addressable(tables, batch.value)
      ensures batch.None? || batch == Some([]) ==> r == this
      ensures batch.Some? && batch.value != [] ==> fresh(r)
      ensures r.tables == if batch.Some? then ApplyOps(tables, batch.value) else tables
      ensures r.Valid() && r.owner == owner && r.names == names
    {
      if batch.None? {
        return this;
      }
      var ops := batch.value;
      var draft := new Drafts.Draft(tables);
      for i := 0 to |ops|
        invariant Addressable(tables, ops[..i])
        invariant draft.tables == ApplyOps(tables, ops[..i])
      {
        ApplyOpsStep(tables, ops, i);
        draft.Apply(ops[i]);
      }
      assert ops[..|ops|] == ops;
      if ops == [] {
        r := this;
      } else {
        r := owner.Create(Some(draft.tables));
      }
    }

    /** `store.clear()`: a new store value in which every table is empty, under the same names. */
    method Clear() returns (r: Store)
      requires Valid() && owner.Valid()
      ensures fresh(r)
      ensures r.tables.Keys == names
      ensures forall n :: n in r.tables ==> r.tables[n] == []
      ensures r.Valid() && r.owner == owner && r.names == names
    {
      r := owner.Create(Some(CreateTables(names)));
    }

    /** The getter of table `name`: its materialised view. */
    function Select(name: string): (r: Result<seq<Record>, SelectError>)
      requires name in resolvers
      ensures r.Success? ==> name in tables && |r.value| == |tables[name]|
    {
      Materialiser.Select(resolvers[name], tables, name)
    }
  }
}
