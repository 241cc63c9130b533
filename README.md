# pilaf, modelled in Dafny

pilaf is a small in-memory store of normalised tables. It also builds a
denormalised view of those tables on demand.

- A `Pilaf` is made from a map of resolver functions, one per table. Its
  keys are the schema's table names.
- `create()` returns an immutable store value, which is a function:
  - Calling it with a callback runs the callback's handler calls on a draft
    of the tables. These calls are `add`, `updateBy(...)(v)`,
    `updateBy(...).in(vs)`, `deleteBy(...)(v)`, `deleteBy(...).in(vs)` and
    `clear`. The call returns a new store value, or the same one when
    nothing was done.
  - Reading a table name on the store value runs `select`. `select` calls the
    table's resolver with one handle per table. The resolver describes
    relations with `handle(name, alias).one(base)` or `.many(base)`. Each
    record then gets the first matching record (`one`) or every matching
    record (`many`) of the related table.

The modules follow the structure of `src/pilaf.ts`:

| file | module | models |
|---|---|---|
| `wrappers.dfy` | `Wrappers` | `Option` and `Result` |
| `records.dfy` | `Records` | JavaScript values and ordered records: property read, property write |
| `tables.dfy` | `Tables` | `createTables`; what each handler operation does to a table, as functions; a batch as a sequence of operations |
| `draft.dfy` | `Drafts` | `createTableHandler`: the handler operations, as methods that change a draft in place |
| `resolvers.dfy` | `Resolvers` | the relation DSL: handles, `handle(name, alias)`, `.one`, `.many`, and the WeakMap that their calls share |
| `materialiser.dfy` | `Materialiser` | `select`: one descriptor per relation, the per-key reduce, `find` and `filter` joins |
| `store.dfy` | `Stores` | the `Pilaf` class (constructor, `create`, `clear`) and the store value (call, `clear`, table getters) |
| `scenario.dfy` | `Scenario` | the users and hobbies of `src/pilaf.test.ts`, with the test expectations as lemmas |

How JavaScript is modelled:

- A record is a sequence of fields in insertion order, because the output
  of `select` depends on `Object.keys` order.
- Reading a missing property gives `Undefined`.
- Writing a property replaces it in place, or appends it when it is new.
- `===` is equality on the `Value` datatype.
- A property key that is `undefined` is written under the key `"undefined"`.
- `s || fallback` on a string falls back on `undefined` and on `""`.
- The WeakMap that carries a handle's binding to `.one` and `.many` is an
  explicit map from handles to bindings (`Resolvers.Bindings`), threaded
  through a resolver's calls. The `this` that `.one` and `.many` see is the
  handle with its entry (`Resolvers.Builder`).
- A batch callback is the sequence of handler calls it makes (`Tables.Op`).

## Model

| member | source | states |
|---|---|---|
| Tables.CreateTables | src/pilaf.ts:141-149 | `createTables` binds exactly the given names, each to an empty table |
| Stores.Pilaf.constructor | src/pilaf.ts:151-153 | the tables are one empty table per resolver name; the resolvers are kept |
| Stores.Pilaf.Clear | src/pilaf.ts:442-444 | every table is empty again, under the same names |
| Stores.Pilaf.Create | src/pilaf.ts:222-239 | a fresh store value over the given tables, or over empty tables named after the schema; it shares the resolvers and captures the table names |
| Records.Set | src/pilaf.ts:170 | after `item[p] = v`, `p` reads `v` and every other property reads as before |
| Records.SetKeys | src/pilaf.ts:170 | after `item[p] = v` the record's keys are the old keys plus `p` |
| Records.SetAbsentAppends | src/pilaf.ts:391 | writing a property the record lacks appends it after the existing ones (insertion order) |
| Records.SetDistinct | src/pilaf.ts:170 | assigning a property to a proper object (no key twice) gives a proper object |
| Records.SetTwice | src/pilaf.ts:170 | a second write of a property overrides the first |
| Records.GetAbsent | src/pilaf.ts:165 | a property that is not there reads as undefined |
| Drafts.Draft.Add | src/pilaf.ts:207-213 | `add` pushes the one record, or every record of the array in order, at the end of its table; no other table changes |
| Drafts.Draft.UpdateBy | src/pilaf.ts:162-175 | every record whose field is `=== value` gets the new value and nothing else changes; the result is true iff some record matched |
| Tables.AnyMatchSnoc | src/pilaf.ts:164-172 | a table with one more trailing record has a match iff the shorter table has one or that record matches |
| Tables.UpdatedAt | src/pilaf.ts:164-172 | a matched record holds the new value at the field and keeps every other property; an unmatched record is untouched; the length is kept |
| Drafts.Draft.UpdateByIn | src/pilaf.ts:177-179 | `.in(values)` runs the single update for each value in order, without short-circuit; the table ends as updating every record whose field is any of the values; the result is the `.some` of the per-value results and is true iff some record's field was one of the values |
| Tables.UpdateResults | src/pilaf.ts:178 | the per-value result array has one entry per value |
| Tables.UpdatedThen | src/pilaf.ts:177-179 | updating for some values and then for `v` equals updating for the values followed by `v` |
| Tables.UpdatedEachIsUpdated | src/pilaf.ts:177-179 | the sequential fold of single updates equals the one-pass update for all values |
| Tables.UpdateStepMatches | src/pilaf.ts:177-179 | some earlier value hits an original record or the new step hits the table as updated so far, exactly when some original record's field is one of the values so far; the step alone may hit a record that an earlier step rewrote to the new value |
| Tables.UpdateResultsAny | src/pilaf.ts:177-179 | `.some(Boolean)` over the per-value results is true iff some original record's field is one of the values |
| Drafts.Draft.DeleteBy | src/pilaf.ts:185-198 | the table becomes the records whose field is not `=== value`, in their original order; the result is true iff some record was removed |
| Tables.Without | src/pilaf.ts:187-195 | the filter never lengthens the table |
| Tables.WithoutMembers | src/pilaf.ts:187-195 | a record survives the delete iff it was in the table and its field is none of the values |
| Tables.WithoutSnoc | src/pilaf.ts:187-195 | the filter handles one more trailing record by keeping or dropping just that record |
| Tables.WithoutConcat | src/pilaf.ts:187-195 | the delete keeps order: on a concatenation it filters each part |
| Tables.WithoutNothing | src/pilaf.ts:187-195 | deleting for no value keeps the table |
| Tables.WithoutThen | src/pilaf.ts:200-202 | deleting for some values and then for `v` equals deleting for the values followed by `v` |
| Drafts.Draft.DeleteByIn | src/pilaf.ts:200-202 | `.in(values)` runs the single delete for each value in order, without short-circuit; the table ends as the records whose field is none of the values; the result is true iff some record's field was one of them |
| Tables.DeleteResults | src/pilaf.ts:201 | the per-value result array has one entry per value |
| Tables.WithoutEachIsWithout | src/pilaf.ts:200-202 | the sequential fold of single deletes equals one filter for all values |
| Tables.DeleteResultsAny | src/pilaf.ts:200-202 | `.some(Boolean)` over the per-value results is true iff some original record's field is one of the values |
| Drafts.Draft.Clear | src/pilaf.ts:216-218 | `clear` empties that table and no other |
| Drafts.Draft.constructor | src/pilaf.ts:249 | the draft starts as the store value's tables |
| Drafts.Draft.Apply | src/pilaf.ts:206-219 | a handler call changes its own table as the table-level function says, and no other table |
| Tables.ApplyOps | src/pilaf.ts:249-259 | a batch, applied in call order, never adds or removes a table |
| Tables.UntouchedTable | src/pilaf.ts:249-259 | a table that no call of the batch names keeps its records; for example, clearing `users` leaves `userHobbies` |
| Stores.Store.constructor | src/pilaf.ts:233-239 | a store value holds its owner's resolvers, the captured names and the given tables |
| Stores.Store.Call | src/pilaf.ts:241-264 | with no callback, or a callback that does nothing, the very same store value comes back; otherwise a fresh store value over the batch's result; the names and the schema are kept |
| Stores.Store.Clear | src/pilaf.ts:297-303 | a fresh store value with every table empty, under the same names |
| Stores.Store.Select | src/pilaf.ts:288-295 | a table getter that succeeds yields one output record per record of that table |
| Resolvers.InvokedDefaults | src/pilaf.ts:322-360 | after `handle(name, alias)`, `.one` writes under the alias, or the table name when the alias is empty or absent, while `.many` writes under the alias exactly as given; `.one` joins on `name` as given (possibly undefined), `.many` on `name`, or the table name when `name` is empty or absent |
| Resolvers.BindingAfter | src/pilaf.ts:323-327 | after a resolver's calls, the WeakMap entry of each handle is the binding of the last handle call on it, or the initial entry when there was none |
| Resolvers.FinishAfterBind | src/pilaf.ts:322-360 | `.one`/`.many` on a handle after a handle call on it, with no handle call on it in between, yields the chained form's descriptor for that binding, whatever calls came before |
| Resolvers.FinishUnbound | src/pilaf.ts:329-360 | `.one`/`.many` on a handle that no call has bound writes under the table name and joins on its second argument |
| Resolvers.EarlierBuilderRebound | src/pilaf.ts:322-327 | the WeakMap is keyed by the one handle, so after `const a = h(n1, p1); h(n2, p2);` the call `a.one(base)` resolves with `n2` and `p2` |
| Resolvers.DirectCallThrows | src/pilaf.ts:362 | as written, `.one`/`.many` called directly on an exposed handle throws; every chained call agrees with the declared interface |
| Resolvers.DirectDefaults | src/pilaf.ts:329-360 | without a binding, a descriptor writes under the table name and joins on the second argument |
| Resolvers.ResolveTargets | src/pilaf.ts:329-360 | every descriptor targets its handle's table, comes from the selecting table, and keeps the base and the kind of call |
| Materialiser.UnaliasedOutputKeys | src/pilaf.ts:329-360 | with no alias, `.one` attaches under the target table's name but `.many` under the key `"undefined"` |
| Materialiser.UnnamedJoinFields | src/pilaf.ts:337-357 | with no target field, `.one` joins on the property `"undefined"` but `.many` on the target table's name |
| Materialiser.FirstWithBase | src/pilaf.ts:384 | `resolvers.find(r => r.base === key)` gives the first descriptor with that base, or none |
| Tables.Matching | src/pilaf.ts:420-424 | the `filter` join keeps exactly the records whose field is `===` the value, and never lengthens the table |
| Tables.MatchingConcat | src/pilaf.ts:420-424 | the `filter` join keeps table order |
| Tables.MatchingOne | src/pilaf.ts:420-424 | on a one-record table the join gives that record or nothing |
| Tables.FindIndex | src/pilaf.ts:402-406 | the `find` join stops at a matching record with no match before it, or runs off the end |
| Tables.FindIsFirstMatching | src/pilaf.ts:394-429 | `find` finds a record iff `filter` is non-empty, and it finds `filter`'s first record |
| Tables.MatchingAndWithoutPartition | src/pilaf.ts:184-198 | the records `deleteBy(field)(v)` removes are exactly those a join on `field === v` collects: together with the survivors they are the table, as a multiset |
| Materialiser.Collect | src/pilaf.ts:380-437 | `items.map` over the records succeeds iff every record materialises; it then keeps the table's length and order, record by record, and a failure is the error of some record |
| Materialiser.Select | src/pilaf.ts:314-440 | a resolver that returns undefined throws; on success the output has one materialised record per record of the table, in order |
| Materialiser.FillTotal | src/pilaf.ts:380-436 | the per-key reduce never fails when no key's join fails |
| Materialiser.FillDistinct | src/pilaf.ts:380-436 | the reduce starts from `{}` and only assigns, so its output never repeats a key, whatever the input record |
| Materialiser.SelectObjects | src/pilaf.ts:378-437 | every row `select` yields is a proper object: no key occurs twice |
| Materialiser.FillFails | src/pilaf.ts:380-436 | a join that throws on any key makes the whole record's reduce throw |
| Materialiser.SelectTotal | src/pilaf.ts:373-440 | `select` of a table succeeds whenever the resolver returns descriptors that all target tables |
| Materialiser.FillKeeps | src/pilaf.ts:385-391 | when no join writes over a property of the record, each processed property ends in the output with its value |
| Materialiser.KeepsFields | src/pilaf.ts:380-437 | when the relation selected for each of the record's keys (the first descriptor with that base) writes to a new property, every property of the record survives with its value |
| Materialiser.FillAttaches | src/pilaf.ts:384-429 | a join attached while processing a key survives the rest of the reduce when its output key is not a property of the record and no other key writes there |
| Materialiser.Attaches | src/pilaf.ts:384-429 | the first relation on a key of the record attaches its join under its output key, when that key is not a property of the record and the relation of no other key of the record writes there |
| Materialiser.ManyRelation | src/pilaf.ts:412-429 | `handle(name, alias).many(base)` attaches under the alias every record of the target table whose `name` is `===` the record's `base`, in table order |
| Materialiser.OneRelation | src/pilaf.ts:394-411 | `handle(name, alias).one(base)` attaches under the alias the first such record, or undefined when there is none |
| Scenario.AddsInOrder | src/pilaf.test.ts:54-65 | adding two users and then three hobbies leaves each table with its records in call order, whatever the records |
| Scenario.FilledTables | src/pilaf.test.ts:54-65 | the `beforeEach` batch leaves the two users and the three hobbies in insertion order |
| Scenario.SelectUsers | src/pilaf.test.ts:68-80 | each user keeps `id` and `name` and gets its hobbies (0 and 2, then 1) under `hobbies` |
| Scenario.HobbiesOfUsers | src/pilaf.test.ts:68-80 | the `filter` join on `userId` picks hobbies 0 and 2 for user 0 and hobby 1 for user 1, in table order |
| Scenario.UserOutput | src/pilaf.test.ts:68-80 | one user's row: its fields and its hobbies |
| Scenario.SelectHobbies | src/pilaf.test.ts:82-98 | each of the three hobby rows keeps its `id` and `name` and gets its user under `user` |
| Scenario.HobbyOutput | src/pilaf.test.ts:82-98 | one hobby's row: its `id`, `name` and `userId`, and its user, or undefined when there is none |
| Scenario.ClearUsers | src/pilaf.test.ts:110-117 | clearing `users` in a batch leaves no user and all three hobbies |
| Scenario.RenameFoo | src/pilaf.test.ts:119-128 | `updateBy('name', 'foofoo')('foo')` renames user 0 and leaves user 1 as it was |
| Scenario.DeleteUserZero | src/pilaf.test.ts:141-147 | `deleteBy('id')(0)` leaves only user 1 |
| Scenario.EmptyCallback | src/pilaf.test.ts:100-101 | `store(() => {})` gives back the very same store value |
| Scenario.ClearAll | src/pilaf.test.ts:104-108 | after `clear()` both getters yield an empty list |
| Scenario.UpdatedPair | src/pilaf.ts:162-179 | when both records of a two-record table match the values, the update leaves two records reading the new value |
| Scenario.NoneMatching | src/pilaf.ts:420-424 | the `filter` join finds nothing when no record reads the value |
| Scenario.RenameBoth | src/pilaf.test.ts:130-139 | no user is called `foofoo` before; `updateBy('name', 'foofoo').in(['foo', 'bar'])` leaves two users called `foofoo` |
| Scenario.DeleteBoth | src/pilaf.test.ts:149-155 | `deleteBy('id').in([0, 1])` leaves no user |

## Left out

- Immer. The draft is a copy that the handler methods update. Structural
  sharing is not modelled, and neither is immer's check for "no change". So
  any non-empty batch gives a new store value, even when the tables are left
  equal. An empty batch gives the same store value.
- Stores.Store.Call: the callback is modelled by the batch of handler calls
  it makes, and a batch cannot throw. So the path where the callback throws,
  immer discards the draft and the exception propagates is not modelled. A
  batch that calls a handler of a table outside the schema is excluded by a
  precondition (`Tables.Addressable`). In the source, such a handler does
  not exist and the call throws a TypeError.
- The `prototypeLike` argument of `create` (src/pilaf.ts:229-230, 270-286)
  is not modelled. It only adds properties and bound methods to the store
  value.
- The table getters are the function `Stores.Store.Select`. The
  `Object.defineProperty` plumbing is not modelled.
- A resolver is modelled by the descriptors it returns
  (`Materialiser.ResolverFn`). The calls it makes on its handles, and the
  WeakMap they share, are modelled on their own by `Resolvers.RunOps`. The
  two are not connected: the model does not derive a resolver's descriptors
  from a sequence of handle calls.
- A handle call returns `this`, which is the raw `handle` function, and the
  resolver interface declares that value callable again
  (src/pilaf.ts:51, 322-328). Calling it again, as in `users('a')('b')`, is a
  plain call: `this` is undefined in module code, so `resolverResultMap.set`
  throws a TypeError. `Resolvers.HandleOp.Bind` binds a handle and cannot
  express that second call.
- Resolvers.Resolve: a direct `.one`/`.many` call is given the unbound
  defaults. Under the corrected exposure a direct call on a handle that an
  earlier handle call bound reads that binding instead, as
  `Resolvers.FinishAfterBind` states.
- Records given to `add` are not required to be proper objects. The type
  `Records.Record` admits a key twice, where `Get` and `Set` see the first
  occurrence; every record the model itself builds is proper
  (`Records.SetDistinct`, `Materialiser.SelectObjects`).
- Property reads see only the record's own properties. In JavaScript,
  `item[p]` (src/pilaf.ts:165, 188, 404, 422) also reads inherited
  properties such as `constructor` or `toString`, so a key or join field
  with such a name finds a value where `Records.Get` gives `Undefined`.
- JavaScript's ordering of integer-like property keys in `Object.keys` is
  not modelled. Records keep plain insertion order.
- Numbers are integers. Floating point and `NaN` (for which `===` is false)
  are not modelled.
- `===` on objects and arrays is modelled as structural equality, not as
  reference identity.
- `create(prototypeLike, tables)` with a snapshot whose names differ from
  the schema's is allowed, but then the store value is not `Valid()`.
- The `TypeError` of the default branch of `select`'s switch
  (src/pilaf.ts:430-432) cannot be reached. A descriptor's kind is `One` or
  `Many` by construction.
- TypeScript types and interfaces (src/pilaf.ts:1-129) are not modelled, and
  neither is src/utils.ts. They carry no run-time behaviour.
- The `clear` parameter named in `select`'s doc comment
  (src/pilaf.ts:311) does not exist in the code.
- Materialiser.ManyRelation and Materialiser.OneRelation assume that the
  alias is not already a property of the record and that the relation of no
  other key of the record writes the same output key. Otherwise a later
  write of the reduce wins, which `Materialiser.Step` models but no lemma
  states.
- Materialiser.Attaches assumes the same two things: its output key is not a
  property of the record, and the relation of no other key of the record
  writes that output key. When another key's relation writes there, the
  write of whichever key comes later in the record wins; the lemma does not
  state that case.
- Materialiser.KeepsFields assumes that no relation selected for a key of
  the record writes over a property of the record. Descriptors whose base is
  not a key of the record are not constrained. When a selected relation does
  write over a property, the relation's value or the copied property wins,
  depending on key order.

## Findings

| source | as written | input that shows it | evidently intended | confidence | as-written member | corrected member |
|---|---|---|---|---|---|---|
| src/pilaf.ts:362 | each handle is exposed as `handle.bind(handle)`, a new function without the `one` and `many` properties that src/pilaf.ts:329-360 set on `handle`, so the direct form `users.one(base, name)` declared by the interface at src/pilaf.ts:50-55 throws a TypeError (`one` is not a function) | a resolver `({users}) => [users.one('userId', 'id')]` | a direct `.one(base, name)` / `.many(base, name)` gives a descriptor that writes under the table name and joins on `name` | not executed | Resolvers.ResolveAsWritten (exhibited by Resolvers.DirectCallThrows) | Resolvers.Resolve (Resolvers.DirectDefaults) |
