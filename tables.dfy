/**
 * Tables and snapshots, and the meaning of every per-table operation of a
 * mutation batch (`add`, `updateBy`, `deleteBy`, their `.in` forms and `clear`)
 * as a function from the old table to the new one.
 */
module Tables {
  import opened Records

  /** A table: records in insertion order; duplicates are allowed. */
  type Table = seq<Record>

  /** A snapshot: every table of the schema by name. */
  type Snapshot = map<string, Table>

  /** `Pilaf.createTables(keys)`: every name bound to an empty table. */
  function CreateTables(names: set<string>): (s: Snapshot)
    ensures s.Keys == names
    ensures forall n :: n in s ==> s[n] == []
  {
    map n | n in names :: []
  }

  /** Whether some record of `t` has a `field` strictly equal to one of `values`. */
  predicate AnyMatch(t: Table, field: string, values: seq<Value>)
  {
    exists r :: r in t && Get(r, field) in values
  }

  /** A table with one more record matches iff the shorter one does or that record does. */
  lemma AnyMatchSnoc(t: Table, x: Record, field: string, values: seq<Value>)
    ensures AnyMatch(t + [x], field, values) <==> AnyMatch(t, field, values) || Get(x, field) in values
  {
    if AnyMatch(t + [x], field, values) && Get(x, field) !in values {
      var r :| r in t + [x] && Get(r, field) in values;
      assert r in t;
    }
    if AnyMatch(t, field, values) {
      var r :| r in t && Get(r, field) in values;
      assert r in t + [x];
    }
    assert x in t + [x];
  }

  // ---------------------------------------------------------------- add

  /** The argument of `add`: one record, or an array of records. */
  datatype Addition = Item(record: Record) | Items(records: seq<Record>)

  /** The records `add` pushes, in call order. */
  function Rows(a: Addition): seq<Record>
  {
    match a
    case Item(r) => [r]
    case Items(rs) => rs
  }

  // ---------------------------------------------------------------- updateBy

  /** One record after `updateBy(field, newValue)` for the given values. */
  function Revised(r: Record, field: string, newValue: Value, values: seq<Value>): Record
  {
    if Get(r, field) in values then Set(r, field, newValue) else r
  }

  /** Every record whose `field` is one of `values` gets `field = newValue`. */
  function Updated(t: Table, field: string, newValue: Value, values: seq<Value>): Table
  {
    seq(|t|, i requires 0 <= i < |t| => Revised(t[i], field, newValue, values))
  }

  /** `updateBy(field, newValue).in(values)`: the single-value update applied for each value in order. */
  function UpdatedEach(t: Table, field: string, newValue: Value, values: seq<Value>): Table
    decreases |values|
  {
    if values == [] then t
    else
      var last := values[|values| - 1];
      Updated(UpdatedEach(t, field, newValue, values[..|values| - 1]), field, newValue, [last])
  }

  /** The array `values.map(value => where(value))` built by `updateBy(...).in(values)`. */
  function UpdateResults(t: Table, field: string, newValue: Value, values: seq<Value>): (r: seq<bool>)
    ensures |r| == |values|
    decreases |values|
  {
    if values == [] then []
    else
      var prefix := values[..|values| - 1];
      UpdateResults(t, field, newValue, prefix)
        + [AnyMatch(UpdatedEach(t, field, newValue, prefix), field, [values[|values| - 1]])]
  }

  /**
   * What `updateBy` does to one record: a matched record holds `newValue` at
   * `field` and keeps every other property; an unmatched record is untouched.
   */
  lemma UpdatedAt(t: Table, field: string, newValue: Value, values: seq<Value>, i: int)
    requires 0 <= i < |t|
    ensures |Updated(t, field, newValue, values)| == |t|
    ensures Get(t[i], field) in values ==>
              && Get(Updated(t, field, newValue, values)[i], field) == newValue
              && Keys(Updated(t, field, newValue, values)[i]) == Keys(t[i]) + {field}
              && forall k :: k != field ==> Get(Updated(t, field, newValue, values)[i], k) == Get(t[i], k)
    ensures Get(t[i], field) !in values ==> Updated(t, field, newValue, values)[i] == t[i]
  {
    SetKeys(t[i], field, newValue);
  }

  /** Updating for `values` and then for `v` is updating for `values + [v]`. */
  lemma UpdatedThen(t: Table, field: string, newValue: Value, values: seq<Value>, v: Value)
    ensures Updated(Updated(t, field, newValue, values), field, newValue, [v])
         == Updated(t, field, newValue, values + [v])
  {
    var once := Updated(t, field, newValue, values);
    forall i | 0 <= i < |t|
      ensures Revised(once[i], field, newValue, [v]) == Revised(t[i], field, newValue, values + [v])
    {
      if Get(t[i], field) in values {
        SetTwice(t[i], field, newValue, newValue);
      }
    }
  }

  /** `.in(values)` on update equals updating every record whose field is any of `values`. */
  lemma {:induction false} UpdatedEachIsUpdated(t: Table, field: string, newValue: Value, values: seq<Value>)
    ensures UpdatedEach(t, field, newValue, values) == Updated(t, field, newValue, values)
    decreases |values|
  {
    if values == [] {
      assert Updated(t, field, newValue, values) == t;
    } else {
      var prefix, last := values[..|values| - 1], values[|values| - 1];
      UpdatedEachIsUpdated(t, field, newValue, prefix);
      UpdatedThen(t, field, newValue, prefix, last);
      assert prefix + [last] == values;
    }
  }

  /**
   * An earlier value hits an original record, or the new step hits the table
   * as updated so far, exactly when the values so far hit an original record.
   * The new step alone may hit a record an earlier step rewrote.
   */
  lemma UpdateStepMatches(t: Table, field: string, newValue: Value, prefix: seq<Value>, v: Value)
    ensures (AnyMatch(t, field, prefix) || AnyMatch(Updated(t, field, newValue, prefix), field, [v]))
        <==> AnyMatch(t, field, prefix + [v])
  {
    var u := Updated(t, field, newValue, prefix);
    if AnyMatch(u, field, [v]) && !AnyMatch(t, field, prefix) {
      var x :| x in u && Get(x, field) in [v];
      var i :| 0 <= i < |u| && u[i] == x;
      assert Get(t[i], field) !in prefix by { assert t[i] in t; }
      assert t[i] in t && Get(t[i], field) in prefix + [v];
    }
    if AnyMatch(t, field, prefix + [v]) && !AnyMatch(t, field, prefix) {
      var x :| x in t && Get(x, field) in prefix + [v];
      var i :| 0 <= i < |t| && t[i] == x;
      assert u[i] == x;
      assert u[i] in u;
    }
  }

  /** One more value of `.in` on update: one more single update, one more result. */
  lemma UpdatedEachStep(t: Table, field: string, newValue: Value, values: seq<Value>, i: int)
    requires 0 <= i < |values|
    ensures UpdatedEach(t, field, newValue, values[..i + 1])
         == Updated(UpdatedEach(t, field, newValue, values[..i]), field, newValue, [values[i]])
    ensures UpdateResults(t, field, newValue, values[..i + 1])
         == UpdateResults(t, field, newValue, values[..i])
            + [AnyMatch(UpdatedEach(t, field, newValue, values[..i]), field, [values[i]])]
  {
    assert values[..i + 1][..i] == values[..i];
  }

  /** The state after one more single update of `.in`, given the state and result before it. */
  lemma UpdatedEachNext(t: Table, field: string, newValue: Value, values: seq<Value>, i: int,
                        before: Table, after: Table, results: seq<bool>, m: bool)
    requires 0 <= i < |values|
    requires before == UpdatedEach(t, field, newValue, values[..i])
    requires results == UpdateResults(t, field, newValue, values[..i])
    requires after == Updated(before, field, newValue, [values[i]]) && m == AnyMatch(before, field, [values[i]])
    ensures after == UpdatedEach(t, field, newValue, values[..i + 1])
    ensures results + [m] == UpdateResults(t, field, newValue, values[..i + 1])
  {
    UpdatedEachStep(t, field, newValue, values, i);
  }

  /** `updateBy(...).in(values)` returns true iff some record's field was one of `values`. */
  lemma {:induction false} UpdateResultsAny(t: Table, field: string, newValue: Value, values: seq<Value>)
    ensures (true in UpdateResults(t, field, newValue, values)) <==> AnyMatch(t, field, values)
    decreases |values|
  {
    if values != [] {
      var prefix, last := values[..|values| - 1], values[|values| - 1];
      UpdateResultsAny(t, field, newValue, prefix);
      UpdatedEachIsUpdated(t, field, newValue, prefix);
      UpdateStepMatches(t, field, newValue, prefix, last);
      assert prefix + [last] == values;
    }
  }

  // ---------------------------------------------------------------- deleteBy

  /** The records whose `field` is none of `values`, in their original order. */
  function Without(t: Table, field: string, values: seq<Value>): (r: Table)
    ensures |r| <= |t|
  {
    if t == [] then []
    else
      var last := t[|t| - 1];
      var rest := Without(t[..|t| - 1], field, values);
      if Get(last, field) in values then rest else rest + [last]
  }

  /** The records that survive a delete are those of the table whose field is none of `values`. */
  lemma {:induction false} WithoutMembers(t: Table, field: string, values: seq<Value>)
    ensures forall x :: x in Without(t, field, values) <==> x in t && Get(x, field) !in values
    decreases |t|
  {
    if t != [] {
      assert t == t[..|t| - 1] + [t[|t| - 1]];
      WithoutMembers(t[..|t| - 1], field, values);
    }
  }

  /** Deleting from a table with one more record at the end. */
  lemma WithoutSnoc(t: Table, x: Record, field: string, values: seq<Value>)
    ensures Without(t + [x], field, values)
         == Without(t, field, values) + (if Get(x, field) in values then [] else [x])
  {
    assert (t + [x])[..|t|] == t;
  }

  /** `deleteBy(field).in(values)`: the single-value delete applied for each value in order. */
  function WithoutEach(t: Table, field: string, values: seq<Value>): Table
    decreases |values|
  {
    if values == [] then t
    else Without(WithoutEach(t, field, values[..|values| - 1]), field, [values[|values| - 1]])
  }

  /** The array `values.map(value => where(value))` built by `deleteBy(...).in(values)`. */
  function DeleteResults(t: Table, field: string, values: seq<Value>): (r: seq<bool>)
    ensures |r| == |values|
    decreases |values|
  {
    if values == [] then []
    else
      var prefix := values[..|values| - 1];
      DeleteResults(t, field, prefix) + [AnyMatch(WithoutEach(t, field, prefix), field, [values[|values| - 1]])]
  }

  /** One more value of `.in` on delete: one more single delete, one more result. */
  lemma WithoutEachStep(t: Table, field: string, values: seq<Value>, i: int)
    requires 0 <= i < |values|
    ensures WithoutEach(t, field, values[..i + 1])
         == Without(WithoutEach(t, field, values[..i]), field, [values[i]])
    ensures DeleteResults(t, field, values[..i + 1])
         == DeleteResults(t, field, values[..i]) + [AnyMatch(WithoutEach(t, field, values[..i]), field, [values[i]])]
  {
    assert values[..i + 1][..i] == values[..i];
  }

  /** The state after one more single delete of `.in`, given the state and result before it. */
  lemma WithoutEachNext(t: Table, field: string, values: seq<Value>, i: int,
                        before: Table, after: Table, results: seq<bool>, m: bool)
    requires 0 <= i < |values|
    requires before == WithoutEach(t, field, values[..i]) && results == DeleteResults(t, field, values[..i])
    requires after == Without(before, field, [values[i]]) && m == AnyMatch(before, field, [values[i]])
    ensures after == WithoutEach(t, field, values[..i + 1])
    ensures results + [m] == DeleteResults(t, field, values[..i + 1])
  {
    WithoutEachStep(t, field, values, i);
  }

  /** Deletion keeps order: deleting from a concatenation deletes from each part. */
  lemma {:induction false} WithoutConcat(a: Table, b: Table, field: string, values: seq<Value>)
    ensures Without(a + b, field, values) == Without(a, field, values) + Without(b, field, values)
    decreases |b|
  {
    if b != [] {
      var last := b[|b| - 1];
      assert (a + b)[..|a + b| - 1] == a + b[..|b| - 1];
      WithoutConcat(a, b[..|b| - 1], field, values);
    } else {
      assert a + b == a;
    }
  }

  /** Deleting for `values` and then for `v` is deleting for `values + [v]`. */
  lemma {:induction false} WithoutThen(t: Table, field: string, values: seq<Value>, v: Value)
    ensures Without(Without(t, field, values), field, [v]) == Without(t, field, values + [v])
    decreases |t|
  {
    if t != [] {
      var prefix, last := t[..|t| - 1], t[|t| - 1];
      WithoutThen(prefix, field, values, v);
      if Get(last, field) !in values {
        WithoutConcat(Without(prefix, field, values), [last], field, [v]);
      }
    }
  }

  /** `.in(values)` on delete keeps exactly the records whose field is none of `values`. */
  lemma {:induction false} WithoutEachIsWithout(t: Table, field: string, values: seq<Value>)
    ensures WithoutEach(t, field, values) == Without(t, field, values)
    decreases |values|
  {
    if values == [] {
      assert Without(t, field, []) == t by { WithoutNothing(t, field); }
    } else {
      var prefix, last := values[..|values| - 1], values[|values| - 1];
      WithoutEachIsWithout(t, field, prefix);
      WithoutThen(t, field, prefix, last);
      assert prefix + [last] == values;
    }
  }

  /** Deleting for no value at all keeps the table as it is. */
  lemma {:induction false} WithoutNothing(t: Table, field: string)
    ensures Without(t, field, []) == t
    decreases |t|
  {
    if t != [] {
      WithoutNothing(t[..|t| - 1], field);
      assert t == t[..|t| - 1] + [t[|t| - 1]];
    }
  }

  /** `deleteBy(...).in(values)` returns true iff some record's field was one of `values`. */
  lemma {:induction false} DeleteResultsAny(t: Table, field: string, values: seq<Value>)
    ensures (true in DeleteResults(t, field, values)) <==> AnyMatch(t, field, values)
    decreases |values|
  {
    if values != [] {
      var prefix, last := values[..|values| - 1], values[|values| - 1];
      DeleteResultsAny(t, field, prefix);
      WithoutEachIsWithout(t, field, prefix);
      assert prefix + [last] == values;
      var w := Without(t, field, prefix);
      WithoutMembers(t, field, prefix);
      if AnyMatch(t, field, values) && !AnyMatch(t, field, prefix) {
        var x :| x in t && Get(x, field) in values;
        assert x in w;
      }
    }
  }

  // ---------------------------------------------------------------- joins

  /** `filter(r => r[field] === v)`: the records matching `v`, in table order. */
  function Matching(t: Table, field: string, v: Value): (r: Table)
    ensures forall x :: x in r <==> x in t && Get(x, field) == v
    ensures |r| <= |t|
  {
    if t == [] then []
    else
      var last := t[|t| - 1];
      assert t == t[..|t| - 1] + [last];
      var rest := Matching(t[..|t| - 1], field, v);
      if Get(last, field) == v then rest + [last] else rest
  }

  /** Matching keeps order: matching in a concatenation matches in each part. */
  lemma {:induction false} MatchingConcat(a: Table, b: Table, field: string, v: Value)
    ensures Matching(a + b, field, v) == Matching(a, field, v) + Matching(b, field, v)
    decreases |b|
  {
    if b != [] {
      assert (a + b)[..|a + b| - 1] == a + b[..|b| - 1];
      MatchingConcat(a, b[..|b| - 1], field, v);
    } else {
      assert a + b == a;
    }
  }

  /** A one-record table matches that record or nothing. */
  lemma MatchingOne(r: Record, field: string, v: Value)
    ensures Matching([r], field, v) == if Get(r, field) == v then [r] else []
  {
    assert [r][..0] == [];
  }

  /** `findIndex(r => r[field] === v)`, with `|t|` standing for "not found". */
  function FindIndex(t: Table, field: string, v: Value): (i: nat)
    ensures i <= |t|
    ensures i < |t| ==> Get(t[i], field) == v
    ensures forall j :: 0 <= j < i ==> Get(t[j], field) != v
  {
    if t == [] then 0
    else if Get(t[0], field) == v then 0
    else 1 + FindIndex(t[1..], field, v)
  }

  /** `find` returns the first record of what `filter` returns, and finds nothing exactly when `filter` is empty. */
  lemma {:induction false} FindIsFirstMatching(t: Table, field: string, v: Value)
    ensures (FindIndex(t, field, v) < |t|) <==> Matching(t, field, v) != []
    ensures FindIndex(t, field, v) < |t| ==> t[FindIndex(t, field, v)] == Matching(t, field, v)[0]
  {
    if t != [] {
      var head, tail := t[0], t[1..];
      assert t == [head] + tail;
      MatchingConcat([head], tail, field, v);
      MatchingOne(head, field, v);
      if Get(head, field) == v {
      } else {
        FindIsFirstMatching(tail, field, v);
        var k := FindIndex(tail, field, v);
        if k < |tail| {
          assert t[1 + k] == tail[k];
        }
      }
    }
  }

  /** `deleteBy(field)(v)` removes exactly the records a join on `field == v` would collect. */
  lemma {:induction false} MatchingAndWithoutPartition(t: Table, field: string, v: Value)
    ensures multiset(Matching(t, field, v)) + multiset(Without(t, field, [v])) == multiset(t)
    decreases |t|
  {
    if t != [] {
      var prefix, last := t[..|t| - 1], t[|t| - 1];
      MatchingAndWithoutPartition(prefix, field, v);
      assert t == prefix + [last];
    }
  }

  // ---------------------------------------------------------------- batches

  /** One call a batch callback makes on a table handler. */
  datatype Op =
    | Add(table: string, item: Addition)
    | UpdateBy(table: string, field: string, newValue: Value, value: Value)
    | UpdateByIn(table: string, field: string, newValue: Value, values: seq<Value>)
    | DeleteBy(table: string, field: string, value: Value)
    | DeleteByIn(table: string, field: string, values: seq<Value>)
    | Clear(table: string)

  /** The table an operation leaves behind. */
  function Applied(t: Table, op: Op): Table
  {
    match op
    case Add(_, item) => t + Rows(item)
    case UpdateBy(_, field, newValue, value) => Updated(t, field, newValue, [value])
    case UpdateByIn(_, field, newValue, values) => UpdatedEach(t, field, newValue, values)
    case DeleteBy(_, field, value) => Without(t, field, [value])
    case DeleteByIn(_, field, values) => WithoutEach(t, field, values)
    case Clear(_) => []
  }

  /** The snapshot after one operation: only the operation's own table changes. */
  function ApplyOp(s: Snapshot, op: Op): Snapshot
    requires op.table in s
  {
    s[op.table := Applied(s[op.table], op)]
  }

  /** Whether every operation addresses a table of the snapshot (the handlers exist only for those). */
  predicate Addressable(s: Snapshot, ops: seq<Op>)
  {
    forall op :: op in ops ==> op.table in s
  }

  /** The snapshot after a whole batch, operations applied in call order; the table names never change. */
  function ApplyOps(s: Snapshot, ops: seq<Op>): (s': Snapshot)
    requires Addressable(s, ops)
    ensures s'.Keys == s.Keys
    decreases |ops|
  {
    if ops == [] then s
    else
      var prefix := ops[..|ops| - 1];
      assert forall op :: op in prefix ==> op in ops;
      ApplyOp(ApplyOps(s, prefix), ops[|ops| - 1])
  }

  /** A batch prefix one operation longer is the shorter prefix followed by that operation. */
  lemma ApplyOpsStep(s: Snapshot, ops: seq<Op>, i: int)
    requires Addressable(s, ops)
    requires 0 <= i < |ops|
    ensures Addressable(s, ops[..i]) && Addressable(s, ops[..i + 1])
    ensures ops[i].table in ApplyOps(s, ops[..i])
    ensures ApplyOps(s, ops[..i + 1]) == ApplyOp(ApplyOps(s, ops[..i]), ops[i])
  {
    assert ops[..i + 1][..i] == ops[..i];
    assert ops[i] in ops;
    assert forall op :: op in ops[..i + 1] ==> op in ops;
  }

  /** A table that no operation of the batch names keeps its records (e.g. clearing `users` leaves `userHobbies`). */
  lemma {:induction false} UntouchedTable(s: Snapshot, ops: seq<Op>, name: string)
    requires Addressable(s, ops)
    requires name in s
    requires forall op :: op in ops ==> op.table != name
    ensures ApplyOps(s, ops)[name] == s[name]
    decreases |ops|
  {
    if ops != [] {
      var prefix := ops[..|ops| - 1];
      assert forall op :: op in prefix ==> op in ops;
      UntouchedTable(s, prefix, name);
      assert ops[|ops| - 1] in ops;
    }
  }
}
