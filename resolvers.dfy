/**
 * The relation DSL a table's resolver function uses during `select`: one handle
 * per table, invoked as `handle(name, propName?)` and finished with
 * `.one(base)` or `.many(base)`, which yields a relation descriptor.
 *
 * The source keeps the binding made by `handle(name, propName?)` in a
 * module-wide WeakMap keyed by the handle. Here that map is an explicit
 * `Bindings` value threaded through a resolver's calls (`RunOps`), and the
 * `this` that `.one` and `.many` see is a `Builder`: the handle with its entry.
 */
module Resolvers {
  import opened Wrappers

  /** How a relation resolves: the first match (`find`) or all matches (`filter`). */
  datatype Cardinality = One | Many

  /**
   * A relation descriptor `{type, propName, from, base, paths: [target, targetField]}`.
   * `propName` and `targetField` are `None` where the source leaves them undefined.
   */
  datatype Descriptor = Descriptor(
    kind: Cardinality,
    propName: Option<string>,
    from: string,
    base: string,
    target: string,
    targetField: Option<string>)

  /** The handle for table `key`, handed to the resolver of table `from`. */
  datatype Handle = Handle(from: string, key: string)

  /** The WeakMap entry `{name, propName}` written by a handle call; either argument may be undefined. */
  datatype Binding = Binding(name: Option<string>, propName: Option<string>)

  /** A handle together with the binding the WeakMap holds for it, if any. */
  datatype Builder = Builder(handle: Handle, binding: Option<Binding>)

  /** The WeakMap `resolverResultMap`, over the handles of one `select`. */
  type Bindings = map<Handle, Binding>

  /** The handles built for one `select` of table `from`: one per table name. */
  function HandleSet(from: string, keys: set<string>): map<string, Handle>
  {
    map key | key in keys :: Handle(from, key)
  }

  /** JavaScript's `s || fallback` on a string that may be undefined: empty and undefined fall back. */
  function OrElse(s: Option<string>, fallback: string): string
  {
    if s.Some? && s.value != "" then s.value else fallback
  }

  /** `handle(name?, propName?)`: records the binding for this handle, replacing any earlier one. */
  function Invoke(m: Bindings, h: Handle, name: Option<string>, propName: Option<string>): Bindings
  {
    m[h := Binding(name, propName)]
  }

  /** The `this` of `.one` and `.many` on handle `h`: `h` with its WeakMap entry, if any. */
  function Lookup(m: Bindings, h: Handle): Builder
  {
    Builder(h, if h in m then Some(m[h]) else None)
  }

  /**
   * `.one(base, name?)`: with a binding, the alias (or the table name when the
   * alias is empty or absent) and the bound field; without one, the table name
   * and the second argument.
   */
  function OneOf(b: Builder, base: string, name: Option<string>): Descriptor
  {
    var key := b.handle.key;
    Descriptor(
      One,
      Some(if b.binding.Some? then OrElse(b.binding.value.propName, key) else key),
      b.handle.from,
      base,
      key,
      if b.binding.Some? then b.binding.value.name else name)
  }

  /**
   * `.many(base, name?)`: with a binding, the alias exactly as given (possibly
   * undefined) and the bound field (the table name when it is empty); without
   * one, the table name and the second argument.
   */
  function ManyOf(b: Builder, base: string, name: Option<string>): Descriptor
  {
    var key := b.handle.key;
    Descriptor(
      Many,
      if b.binding.Some? then b.binding.value.propName else Some(key),
      b.handle.from,
      base,
      key,
      if b.binding.Some? then Some(OrElse(b.binding.value.name, key)) else name)
  }

  /** `handle(name, propName).one(base)` and `handle(name, propName).many(base)`: the asymmetric defaults. */
  lemma InvokedDefaults(h: Handle, name: Option<string>, propName: Option<string>, base: string, extra: Option<string>)
    ensures var b := Lookup(Invoke(map[], h, name, propName), h);
      && OneOf(b, base, extra).propName
         == Some(if propName.Some? && propName.value != "" then propName.value else h.key)
      && ManyOf(b, base, extra).propName == propName
      && OneOf(b, base, extra).targetField == name
      && ManyOf(b, base, extra).targetField == Some(if name.Some? && name.value != "" then name.value else h.key)
  {
  }

  // ------------------------------------------------------------ handle exposure

  /** The calls a resolver can make on the handle of a table. */
  datatype Call =
    | Chained(name: Option<string>, propName: Option<string>, kind: Cardinality, base: string)
    | Direct(kind: Cardinality, base: string, field: Option<string>)

  /** Errors thrown while a resolver runs. */
  datatype DslError = NotAFunction(member: string)

  /**
   * A call on the handle as the source exposes it: the exposed handle is
   * `handle.bind(handle)`, a new function that does not carry the `one` and
   * `many` properties of `handle`, so only the chained form reaches them.
   */
  function ResolveAsWritten(h: Handle, c: Call): Result<Descriptor, DslError>
  {
    match c
    case Chained(name, propName, kind, base) =>
      var b := Builder(h, Some(Binding(name, propName)));
      Success(if kind == One then OneOf(b, base, None) else ManyOf(b, base, None))
    case Direct(kind, base, _) =>
      Failure(NotAFunction(if kind == One then "one" else "many"))
  }

  /** A call on the handle as declared by its interface: both forms reach `one` and `many`. */
  function Resolve(h: Handle, c: Call): Descriptor
  {
    match c
    case Chained(name, propName, kind, base) =>
      var b := Builder(h, Some(Binding(name, propName)));
      if kind == One then OneOf(b, base, None) else ManyOf(b, base, None)
    case Direct(kind, base, name) =>
      var b := Builder(h, None);
      if kind == One then OneOf(b, base, name) else ManyOf(b, base, name)
  }

  /** As written, a direct `.one(base, name)` / `.many(base, name)` on a handle throws, while every chained call agrees with the declared interface. */
  lemma DirectCallThrows(h: Handle, c: Call)
    ensures c.Direct? ==> ResolveAsWritten(h, c).Failure?
    ensures c.Chained? ==> ResolveAsWritten(h, c) == Success(Resolve(h, c))
  {
  }

  /** Declared behaviour of a direct call: the table name as `propName`, the second argument as target field. */
  lemma DirectDefaults(h: Handle, kind: Cardinality, base: string, name: Option<string>)
    ensures Resolve(h, Direct(kind, base, name))
         == Descriptor(kind, Some(h.key), h.from, base, h.key, name)
  {
  }

  /** Every descriptor a handle yields names the handle's table as its target and the calling table as `from`. */
  lemma ResolveTargets(h: Handle, c: Call)
    ensures Resolve(h, c).target == h.key && Resolve(h, c).from == h.from && Resolve(h, c).base == c.base
    ensures Resolve(h, c).kind == c.kind
  {
  }

  // ------------------------------------------------------- the WeakMap across calls

  /**
   * One primitive call of a resolver on a handle: the handle call
   * `h(name?, propName?)`, which records a binding and returns `h` itself, or
   * `.one(base, name?)` / `.many(base, name?)` run with `h` as `this`.
   */
  datatype HandleOp =
    | Bind(handle: Handle, name: Option<string>, propName: Option<string>)
    | Finish(handle: Handle, kind: Cardinality, base: string, field: Option<string>)

  /** One primitive call: the WeakMap after it, and the descriptor it returns, if it is `.one`/`.many`. */
  function Perform(m: Bindings, op: HandleOp): (Bindings, Option<Descriptor>)
  {
    match op
    case Bind(h, name, propName) => (Invoke(m, h, name, propName), None)
    case Finish(h, kind, base, field) =>
      var b := Lookup(m, h);
      (m, Some(if kind == One then OneOf(b, base, field) else ManyOf(b, base, field)))
  }

  /** A resolver's calls in order, starting from WeakMap `m`: the final map and one output per call. */
  function RunOps(m: Bindings, ops: seq<HandleOp>): (r: (Bindings, seq<Option<Descriptor>>))
    ensures |r.1| == |ops|
    decreases |ops|
  {
    if ops == [] then (m, [])
    else
      var before := RunOps(m, ops[..|ops| - 1]);
      var step := Perform(before.0, ops[|ops| - 1]);
      (step.0, before.1 + [step.1])
  }

  /** The binding of the last handle call on `h` among `ops`, or the entry `m` has for `h`. */
  function LastBinding(m: Bindings, ops: seq<HandleOp>, h: Handle): Option<Binding>
    decreases |ops|
  {
    if ops == [] then (if h in m then Some(m[h]) else None)
    else
      var op := ops[|ops| - 1];
      if op.Bind? && op.handle == h then Some(Binding(op.name, op.propName))
      else LastBinding(m, ops[..|ops| - 1], h)
  }

  /** After a resolver's calls, the WeakMap holds for each handle the binding of its last handle call. */
  lemma {:induction false} BindingAfter(m: Bindings, ops: seq<HandleOp>, h: Handle)
    ensures Lookup(RunOps(m, ops).0, h) == Builder(h, LastBinding(m, ops, h))
    decreases |ops|
  {
    if ops != [] {
      BindingAfter(m, ops[..|ops| - 1], h);
    }
  }

  /** The outputs of the first `k` calls are the first `k` outputs. */
  lemma {:induction false} RunOpsPrefix(m: Bindings, ops: seq<HandleOp>, k: nat)
    requires k <= |ops|
    ensures RunOps(m, ops[..k]).1 == RunOps(m, ops).1[..k]
    decreases |ops|
  {
    if k < |ops| {
      RunOpsPrefix(m, ops[..|ops| - 1], k);
      assert ops[..|ops| - 1][..k] == ops[..k];
    } else {
      assert ops[..k] == ops;
    }
  }

  /** The output of call `i` is that call performed on the WeakMap the earlier calls left. */
  lemma OutputAt(m: Bindings, ops: seq<HandleOp>, i: nat)
    requires i < |ops|
    ensures RunOps(m, ops).1[i] == Perform(RunOps(m, ops[..i]).0, ops[i]).1
  {
    RunOpsPrefix(m, ops, i + 1);
    assert ops[..i + 1][..i] == ops[..i];
  }

  /** A handle call on `h` that no later call rebinds decides the entry for `h`. */
  lemma {:induction false} LastBindingAt(m: Bindings, ops: seq<HandleOp>, k: nat, h: Handle)
    requires k < |ops| && ops[k].Bind? && ops[k].handle == h
    requires forall l :: k < l < |ops| ==> !(ops[l].Bind? && ops[l].handle == h)
    ensures LastBinding(m, ops, h) == Some(Binding(ops[k].name, ops[k].propName))
    decreases |ops|
  {
    if k < |ops| - 1 {
      LastBindingAt(m, ops[..|ops| - 1], k, h);
    }
  }

  /** Without any handle call on `h`, the entry for `h` is the initial one. */
  lemma {:induction false} LastBindingNone(m: Bindings, ops: seq<HandleOp>, h: Handle)
    requires forall l :: 0 <= l < |ops| ==> !(ops[l].Bind? && ops[l].handle == h)
    ensures LastBinding(m, ops, h) == (if h in m then Some(m[h]) else None)
    decreases |ops|
  {
    if ops != [] {
      LastBindingNone(m, ops[..|ops| - 1], h);
    }
  }

  /**
   * `.one`/`.many` on `h` after a handle call on `h`, with no handle call on
   * `h` in between, gives the chained form's descriptor for that binding,
   * whatever came before: `h(name, propName).one(base)` resolves as `Resolve`
   * says, and so does any later `.one`/`.many` reached through `h`.
   */
  lemma FinishAfterBind(m: Bindings, ops: seq<HandleOp>, k: nat, i: nat)
    requires k < i < |ops|
    requires ops[k].Bind? && ops[i].Finish? && ops[i].handle == ops[k].handle
    requires forall l :: k < l < i ==> !(ops[l].Bind? && ops[l].handle == ops[k].handle)
    ensures RunOps(m, ops).1[i]
         == Some(Resolve(ops[k].handle, Chained(ops[k].name, ops[k].propName, ops[i].kind, ops[i].base)))
  {
    var h := ops[k].handle;
    OutputAt(m, ops, i);
    BindingAfter(m, ops[..i], h);
    LastBindingAt(m, ops[..i], k, h);
  }

  /** `.one`/`.many` on a handle no call has bound yet: the table name and the second argument. */
  lemma FinishUnbound(m: Bindings, ops: seq<HandleOp>, i: nat)
    requires i < |ops| && ops[i].Finish? && ops[i].handle !in m
    requires forall l :: 0 <= l < i ==> !(ops[l].Bind? && ops[l].handle == ops[i].handle)
    ensures RunOps(m, ops).1[i] == Some(Resolve(ops[i].handle, Direct(ops[i].kind, ops[i].base, ops[i].field)))
  {
    var h := ops[i].handle;
    OutputAt(m, ops, i);
    BindingAfter(m, ops[..i], h);
    LastBindingNone(m, ops[..i], h);
  }

  /**
   * The WeakMap is keyed by the one handle, so a builder kept from an earlier
   * call is rebound by a later one: after `const a = h(n1, p1); h(n2, p2);`,
   * `a.one(base)` resolves with `n2` and `p2`.
   */
  lemma EarlierBuilderRebound(m: Bindings, h: Handle, n1: Option<string>, p1: Option<string>,
                              n2: Option<string>, p2: Option<string>, kind: Cardinality, base: string)
    ensures RunOps(m, [Bind(h, n1, p1), Bind(h, n2, p2), Finish(h, kind, base, None)]).1[2]
         == Some(Resolve(h, Chained(n2, p2, kind, base)))
  {
    FinishAfterBind(m, [Bind(h, n1, p1), Bind(h, n2, p2), Finish(h, kind, base, None)], 1, 2);
  }
}
