/**
 * `select`: runs a table's resolver against fresh handles and joins every
 * record of the table with the tables its relation descriptors name.
 */
module Materialiser {
  import opened Wrappers
  import opened Records
  import opened Tables
  import opened Resolvers

  /** What makes `select` throw. */
  datatype SelectError =
    | NoRelations                  // the resolver returned undefined
    | UnknownTable(name: string)   // a table that is not in the snapshot was read

  /** A table's resolver function: from the handle set to the descriptor list, or undefined. */
  type ResolverFn = map<string, Handle> -> Option<seq<Descriptor>>

  /** The property name JavaScript uses for a key that may be undefined. */
  function PropertyKey(k: Option<string>): string
  {
    if k.Some? then k.value else "undefined"
  }

  /** The output property a descriptor writes: `result[targetProp.propName]`. */
  function OutputKey(d: Descriptor): string
  {
    PropertyKey(d.propName)
  }

  /** `resolvers.find(resolver => resolver.base === key)`, with `|ds|` standing for "none". */
  function FirstWithBase(ds: seq<Descriptor>, key: string): (i: nat)
    ensures i <= |ds|
    ensures i < |ds| ==> ds[i].base == key
    ensures forall j :: 0 <= j < i ==> ds[j].base != key
  {
    if ds == [] then 0
    else if ds[0].base == key then 0
    else 1 + FirstWithBase(ds[1..], key)
  }

  /** Records as the objects of a JavaScript array. */
  function AsValues(rs: seq<Record>): seq<Value>
  {
    seq(|rs|, i requires 0 <= i < |rs| => Obj(rs[i]))
  }

  /**
   * The value a descriptor attaches to `item`: the first record of the target
   * table whose target field equals `item[base]`, or undefined (`One`), or
   * every such record in table order (`Many`).
   */
  function Join(d: Descriptor, item: Record, tables: Snapshot): Result<Value, SelectError>
  {
    if d.target !in tables then Failure(UnknownTable(d.target))
    else
      var others := tables[d.target];
      var field := PropertyKey(d.targetField);
      var v := Get(item, d.base);
      match d.kind
      case One =>
        var i := FindIndex(others, field, v);
        Success(if i < |others| then Obj(others[i]) else Undefined)
      case Many =>
        Success(Arr(AsValues(Matching(others, field, v))))
  }

  /**
   * What the reduce writes for `key` besides the copy: nothing when no
   * descriptor is based on `key`, otherwise the join of the first one under
   * its output property, or the error the join throws.
   */
  function Attachment(item: Record, key: string, ds: seq<Descriptor>, tables: Snapshot): Result<Option<Field>, SelectError>
  {
    var i := FirstWithBase(ds, key);
    if i == |ds| then Success(None)
    else
      match Join(ds[i], item, tables)
      case Failure(e) => Failure(e)
      case Success(joined) => Success(Some(Field(OutputKey(ds[i]), joined)))
  }

  /** The attachment of every key of `item`, in key order; it does not depend on what the reduce has built so far. */
  function Plan(item: Record, ds: seq<Descriptor>, tables: Snapshot): seq<Result<Option<Field>, SelectError>>
  {
    seq(|item|, j requires 0 <= j < |item| => Attachment(item, item[j].key, ds, tables))
  }

  /** One round of the `itemKeys.reduce`: copy `item[key]`, then make the key's write. */
  function Step(acc: Record, item: Record, key: string, write: Result<Option<Field>, SelectError>): Result<Record, SelectError>
  {
    var copied := Set(acc, key, Get(item, key));
    match write
    case Failure(e) => Failure(e)
    case Success(None) => Success(copied)
    case Success(Some(w)) => Success(Set(copied, w.key, w.value))
  }

  /** The output record after the first `n` keys of `item`, each key's write taken from `plan`. */
  function Fill(item: Record, plan: seq<Result<Option<Field>, SelectError>>, n: nat): Result<Record, SelectError>
    requires n <= |item| == |plan|
  {
    if n == 0 then Success([])
    else
      match Fill(item, plan, n - 1)
      case Failure(e) => Failure(e)
      case Success(acc) => Step(acc, item, item[n - 1].key, plan[n - 1])
  }

  /** The denormalised copy of one record. */
  function Materialise(item: Record, ds: seq<Descriptor>, tables: Snapshot): Result<Record, SelectError>
  {
    Fill(item, Plan(item, ds, tables), |item|)
  }

  /** `results` as one array, or the first error among them: what a `map` whose callback may throw returns. */
  function Collect(results: seq<Result<Record, SelectError>>): (r: Result<seq<Record>, SelectError>)
    ensures r.Success? <==> forall i :: 0 <= i < |results| ==> results[i].Success?
    ensures r.Success? ==> |r.value| == |results| && forall i :: 0 <= i < |results| ==> results[i] == Success(r.value[i])
    ensures r.Failure? ==> exists i :: 0 <= i < |results| && results[i] == Failure(r.error)
    decreases |results|
  {
    if results == [] then Success([])
    else
      var prefix := results[..|results| - 1];
      assert forall i :: 0 <= i < |prefix| ==> prefix[i] == results[i];
      match Collect(prefix)
      case Failure(e) => Failure(e)
      case Success(done) =>
        match results[|results| - 1]
        case Failure(e) => Failure(e)
        case Success(last) => Success(done + [last])
  }

  /** `items.map(...)`: every record of the table materialised, in table order; the first failure is thrown. */
  function MaterialiseAll(t: Table, ds: seq<Descriptor>, tables: Snapshot): Result<seq<Record>, SelectError>
  {
    Collect(seq(|t|, i requires 0 <= i < |t| => Materialise(t[i], ds, tables)))
  }

  /**
   * `select(tableName)`: the resolver sees one handle per table of the
   * snapshot; undefined from it throws; otherwise the table is materialised.
   */
  function Select(resolver: ResolverFn, tables: Snapshot, name: string): (r: Result<seq<Record>, SelectError>)
    ensures resolver(HandleSet(name, tables.Keys)).None? ==> r == Failure(NoRelations)
    ensures r.Success? ==>
              && resolver(HandleSet(name, tables.Keys)).Some?
              && name in tables
              && |r.value| == |tables[name]|
              && forall i :: 0 <= i < |tables[name]| ==>
                   Materialise(tables[name][i], resolver(HandleSet(name, tables.Keys)).value, tables) == Success(r.value[i])
  {
    match resolver(HandleSet(name, tables.Keys))
    case None => Failure(NoRelations)
    case Some(ds) =>
      if name !in tables then Failure(UnknownTable(name))
      else MaterialiseAll(tables[name], ds, tables)
  }

  // ------------------------------------------------------------------ lemmas

  /** Whether every descriptor targets a table of the snapshot. */
  predicate Targeted(ds: seq<Descriptor>, tables: Snapshot)
  {
    forall d :: d in ds ==> d.target in tables
  }

  /** Whether no write of the plan goes to one of `keys`. */
  predicate WritesAvoid(plan: seq<Result<Option<Field>, SelectError>>, keys: set<string>)
  {
    forall j :: 0 <= j < |plan| && plan[j].Success? && plan[j].value.Some? ==> plan[j].value.value.key !in keys
  }

  /** Whether every write of the plan to `w.key` is `w` itself. */
  predicate OnlyWriter(plan: seq<Result<Option<Field>, SelectError>>, w: Field)
  {
    forall j :: 0 <= j < |plan| && plan[j].Success? && plan[j].value.Some? && plan[j].value.value.key == w.key
      ==> plan[j].value.value == w
  }

  /** The reduce throws nothing while no write of the plan does. */
  lemma {:induction false} FillTotal(item: Record, plan: seq<Result<Option<Field>, SelectError>>, n: nat)
    requires n <= |item| == |plan|
    requires forall j :: 0 <= j < |plan| ==> plan[j].Success?
    ensures Fill(item, plan, n).Success?
  {
    if n > 0 {
      FillTotal(item, plan, n - 1);
    }
  }

  /** A write that throws makes the whole reduce throw, once its key is reached. */
  lemma {:induction false} FillFails(item: Record, plan: seq<Result<Option<Field>, SelectError>>, n: nat, m: nat)
    requires m < n <= |item| == |plan|
    requires plan[m].Failure?
    ensures Fill(item, plan, n).Failure?
  {
    if m < n - 1 {
      FillFails(item, plan, n - 1, m);
    }
  }

  /** The `m`-th key of the record, once reached, is copied with its value when no write goes to a key of the record. */
  lemma {:induction false} FillKeeps(item: Record, plan: seq<Result<Option<Field>, SelectError>>, n: nat, m: nat)
    requires m < n <= |item| == |plan|
    requires WritesAvoid(plan, Keys(item))
    requires Fill(item, plan, n).Success?
    ensures item[m].key in Keys(Fill(item, plan, n).value)
    ensures Get(Fill(item, plan, n).value, item[m].key) == Get(item, item[m].key)
  {
    var p := item[m].key;
    assert p in Keys(item) by { assert item[m] in item; }
    if m < n - 1 {
      FillKeeps(item, plan, n - 1, m);
    }
    var acc, key := Fill(item, plan, n - 1).value, item[n - 1].key;
    var copied := Set(acc, key, Get(item, key));
    SetKeys(acc, key, Get(item, key));
    if plan[n - 1].value.Some? {
      var w := plan[n - 1].value.value;
      SetKeys(copied, w.key, w.value);
    }
  }

  /** Once the key that makes write `w` is reached, `w` stays in the output when nothing else writes there. */
  lemma {:induction false} FillAttaches(item: Record, plan: seq<Result<Option<Field>, SelectError>>, n: nat, m: nat, w: Field)
    requires m < n <= |item| == |plan|
    requires plan[m] == Success(Some(w))
    requires w.key !in Keys(item)
    requires OnlyWriter(plan, w)
    requires Fill(item, plan, n).Success?
    ensures Get(Fill(item, plan, n).value, w.key) == w.value
  {
    if m < n - 1 {
      FillAttaches(item, plan, n - 1, m, w);
      assert item[n - 1].key in Keys(item) by { assert item[n - 1] in item; }
    }
  }

  /** The reduce starts from `{}` and only assigns, so its output is a proper object whatever the input record. */
  lemma {:induction false} FillDistinct(item: Record, plan: seq<Result<Option<Field>, SelectError>>, n: nat)
    requires n <= |item| == |plan|
    requires Fill(item, plan, n).Success?
    ensures DistinctKeys(Fill(item, plan, n).value)
  {
    if n > 0 {
      FillDistinct(item, plan, n - 1);
      var acc, key := Fill(item, plan, n - 1).value, item[n - 1].key;
      var copied := Set(acc, key, Get(item, key));
      SetDistinct(acc, key, Get(item, key));
      if plan[n - 1].value.Some? {
        var w := plan[n - 1].value.value;
        SetDistinct(copied, w.key, w.value);
        assert Fill(item, plan, n).value == Set(copied, w.key, w.value);
      } else {
        assert Fill(item, plan, n).value == copied;
      }
    }
  }

  /** The plan's entry for key `j`: the first descriptor based on it decides the write. */
  lemma PlanEntry(item: Record, ds: seq<Descriptor>, tables: Snapshot, j: int)
    requires 0 <= j < |item|
    ensures |Plan(item, ds, tables)| == |item|
    ensures FirstWithBase(ds, item[j].key) == |ds| ==> Plan(item, ds, tables)[j] == Success(None)
    ensures FirstWithBase(ds, item[j].key) < |ds| ==>
              var d := ds[FirstWithBase(ds, item[j].key)];
              Plan(item, ds, tables)[j]
              == if Join(d, item, tables).Failure? then Failure(Join(d, item, tables).error)
                 else Success(Some(Field(OutputKey(d), Join(d, item, tables).value)))
  {
  }

  /** `select` fails only when the resolver returns undefined, provided every relation targets a table. */
  lemma SelectTotal(resolver: ResolverFn, tables: Snapshot, name: string)
    requires name in tables
    requires resolver(HandleSet(name, tables.Keys)).Some?
    requires Targeted(resolver(HandleSet(name, tables.Keys)).value, tables)
    ensures Select(resolver, tables, name).Success?
  {
    var ds := resolver(HandleSet(name, tables.Keys)).value;
    forall i | 0 <= i < |tables[name]| ensures Materialise(tables[name][i], ds, tables).Success? {
      var item := tables[name][i];
      forall j | 0 <= j < |item| ensures Plan(item, ds, tables)[j].Success? {
        PlanEntry(item, ds, tables, j);
        var k := FirstWithBase(ds, item[j].key);
        if k < |ds| {
          assert ds[k] in ds;
        }
      }
      FillTotal(item, Plan(item, ds, tables), |item|);
    }
  }

  /** Every row `select` yields is a proper object: no key occurs twice. */
  lemma SelectObjects(resolver: ResolverFn, tables: Snapshot, name: string)
    requires Select(resolver, tables, name).Success?
    ensures forall i :: 0 <= i < |Select(resolver, tables, name).value| ==> DistinctKeys(Select(resolver, tables, name).value[i])
  {
    var r := Select(resolver, tables, name);
    var ds := resolver(HandleSet(name, tables.Keys)).value;
    forall i | 0 <= i < |r.value| ensures DistinctKeys(r.value[i]) {
      var item := tables[name][i];
      FillDistinct(item, Plan(item, ds, tables), |item|);
    }
  }

  /** Whether no relation selected for a key of the record writes to a property the record already has. */
  predicate NoCollision(item: Record, ds: seq<Descriptor>)
  {
    forall k :: k in Keys(item) && FirstWithBase(ds, k) < |ds| ==> OutputKey(ds[FirstWithBase(ds, k)]) !in Keys(item)
  }

  /** Each output record keeps every property of its source record, when no relation writes over one. */
  lemma KeepsFields(item: Record, ds: seq<Descriptor>, tables: Snapshot)
    requires NoCollision(item, ds)
    requires Materialise(item, ds, tables).Success?
    ensures Keys(item) <= Keys(Materialise(item, ds, tables).value)
    ensures forall k :: k in Keys(item) ==> Get(Materialise(item, ds, tables).value, k) == Get(item, k)
  {
    var plan := Plan(item, ds, tables);
    forall j | 0 <= j < |plan| && plan[j].Success? && plan[j].value.Some?
      ensures plan[j].value.value.key !in Keys(item)
    {
      PlanEntry(item, ds, tables, j);
      assert item[j].key in Keys(item) by { assert item[j] in item; }
    }
    forall k | k in Keys(item)
      ensures k in Keys(Materialise(item, ds, tables).value)
      ensures Get(Materialise(item, ds, tables).value, k) == Get(item, k)
    {
      var f :| f in item && f.key == k;
      var m :| 0 <= m < |item| && item[m] == f;
      FillKeeps(item, plan, |item|, m);
    }
  }

  /**
   * Whether `base` is the only key of the record whose relation writes to the
   * output property of `base`'s relation.
   */
  predicate SoleWriter(item: Record, ds: seq<Descriptor>, base: string)
    requires FirstWithBase(ds, base) < |ds|
  {
    forall k ::
      (k in Keys(item) && FirstWithBase(ds, k) < |ds|
       && OutputKey(ds[FirstWithBase(ds, k)]) == OutputKey(ds[FirstWithBase(ds, base)]))
      ==> k == base
  }

  /** A resolver with a single relation is the sole writer of its output property. */
  lemma SingleRelation(item: Record, ds: seq<Descriptor>, base: string)
    requires |ds| == 1 && ds[0].base == base
    ensures FirstWithBase(ds, base) == 0 && SoleWriter(item, ds, base)
  {
  }

  /**
   * For a key of the record, the first relation based on it attaches its
   * join under its output property, when that property is new and the
   * relation of no other key of the record writes it.
   */
  lemma Attaches(item: Record, ds: seq<Descriptor>, tables: Snapshot, base: string)
    requires base in Keys(item)
    requires FirstWithBase(ds, base) < |ds|
    requires OutputKey(ds[FirstWithBase(ds, base)]) !in Keys(item)
    requires SoleWriter(item, ds, base)
    requires Materialise(item, ds, tables).Success?
    ensures Join(ds[FirstWithBase(ds, base)], item, tables).Success?
    ensures Get(Materialise(item, ds, tables).value, OutputKey(ds[FirstWithBase(ds, base)]))
         == Join(ds[FirstWithBase(ds, base)], item, tables).value
  {
    var plan := Plan(item, ds, tables);
    var i := FirstWithBase(ds, base);
    var f :| f in item && f.key == base;
    var m :| 0 <= m < |item| && item[m] == f;
    PlanEntry(item, ds, tables, m);
    if Join(ds[i], item, tables).Failure? {
      FillFails(item, plan, |item|, m);
    }
    var w := Field(OutputKey(ds[i]), Join(ds[i], item, tables).value);
    forall j | 0 <= j < |plan| && plan[j].Success? && plan[j].value.Some? && plan[j].value.value.key == w.key
      ensures plan[j].value.value == w
    {
      PlanEntry(item, ds, tables, j);
      var k := FirstWithBase(ds, item[j].key);
      assert k < |ds| && OutputKey(ds[k]) == OutputKey(ds[i]);
      assert item[j].key in Keys(item) by { assert item[j] in item; }
      assert k == i;
    }
    FillAttaches(item, plan, |item|, m, w);
  }

  // ------------------------------------------------ relations declared with handles

  /**
   * `users: ({userHobbies}) => [userHobbies('userId', 'hobbies').many('id')]`:
   * each user gets, under the alias, every hobby whose `userId` is the user's
   * `id`, in the order of the hobbies table.
   */
  lemma {:induction false} ManyRelation(item: Record, ds: seq<Descriptor>, tables: Snapshot,
                     h: Handle, name: string, alias: string, base: string)
    requires h.key in tables && name != ""
    requires base in Keys(item) && alias !in Keys(item)
    requires FirstWithBase(ds, base) < |ds|
    requires ds[FirstWithBase(ds, base)] == Resolve(h, Chained(Some(name), Some(alias), Many, base))
    requires SoleWriter(item, ds, base)
    requires Materialise(item, ds, tables).Success?
    ensures Get(Materialise(item, ds, tables).value, alias)
         == Arr(AsValues(Matching(tables[h.key], name, Get(item, base))))
  {
    Attaches(item, ds, tables, base);
  }

  /**
   * `userHobbies: ({users}) => [users('id', 'user').one('userId')]`: each hobby
   * gets, under the alias, the first user whose `id` is the hobby's `userId`,
   * which is the first of the records a `many` relation would collect, or
   * undefined when there is none.
   */
  lemma {:induction false} OneRelation(item: Record, ds: seq<Descriptor>, tables: Snapshot,
                    h: Handle, name: string, alias: string, base: string)
    requires h.key in tables && alias != ""
    requires base in Keys(item) && alias !in Keys(item)
    requires FirstWithBase(ds, base) < |ds|
    requires ds[FirstWithBase(ds, base)] == Resolve(h, Chained(Some(name), Some(alias), One, base))
    requires SoleWriter(item, ds, base)
    requires Materialise(item, ds, tables).Success?
    ensures Get(Materialise(item, ds, tables).value, alias)
         == if Matching(tables[h.key], name, Get(item, base)) == [] then Undefined
            else Obj(Matching(tables[h.key], name, Get(item, base))[0])
  {
    Attaches(item, ds, tables, base);
    FindIsFirstMatching(tables[h.key], name, Get(item, base));
  }

  /** Without an alias, `.one` writes under the target table's name but `.many` under the key "undefined". */
  lemma UnaliasedOutputKeys(h: Handle, name: Option<string>, base: string)
    ensures OutputKey(Resolve(h, Chained(name, None, One, base))) == h.key
    ensures OutputKey(Resolve(h, Chained(name, None, Many, base))) == "undefined"
  {
  }

  /** Without a target field, `.one` joins on the property "undefined" but `.many` on the target table's name. */
  lemma UnnamedJoinFields(h: Handle, alias: Option<string>, base: string)
    ensures PropertyKey(Resolve(h, Chained(None, alias, One, base)).targetField) == "undefined"
    ensures PropertyKey(Resolve(h, Chained(None, alias, Many, base)).targetField) == h.key
  {
  }
}
