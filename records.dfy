/**
 * Records of the store: plain JavaScript objects. An object is kept as its own
 * properties in key order, because the materialiser walks a record's keys in
 * that order and a later assignment to the same key wins.
 */
module Records {

  /** A JavaScript value as it can sit in a record field. */
  datatype Value =
    | Undefined
    | Null
    | Bool(b: bool)
    | Num(n: int)
    | Str(s: string)
    | Obj(fields: seq<Field>)
    | Arr(elems: seq<Value>)

  /** One own property of an object. */
  datatype Field = Field(key: string, value: Value)

  /** A record: the own properties of a plain object, in key order. */
  type Record = seq<Field>

  /** The property names of a record. */
  function Keys(r: Record): set<string>
  {
    set f | f in r :: f.key
  }

  /** `r[k]`: the value of property `k`, or undefined when `r` has no such property. */
  function Get(r: Record, k: string): Value
  {
    if r == [] then Undefined
    else if r[0].key == k then r[0].value
    else Get(r[1..], k)
  }

  /** A property that is not there reads as undefined. */
  lemma {:induction false} GetAbsent(r: Record, k: string)
    requires k !in Keys(r)
    ensures Get(r, k) == Undefined
  {
    if r != [] {
      assert r[0] in r;
      assert Keys(r[1..]) <= Keys(r) by {
        forall f | f in r[1..] ensures f in r { }
      }
      GetAbsent(r[1..], k);
    }
  }

  /** The keys of a record with one more field in front. */
  lemma KeysCons(f: Field, r: Record)
    ensures Keys([f] + r) == {f.key} + Keys(r)
  {
    forall g | g in [f] + r ensures g.key in {f.key} + Keys(r) {
      if g != f { assert g in r; }
    }
    forall x | x in {f.key} + Keys(r) ensures x in Keys([f] + r) {
      if x != f.key {
        var g :| g in r && g.key == x;
        assert g in [f] + r;
      }
    }
  }

  /**
   * `r[k] = v`: overwrites property `k` where it stands, or adds it at the end.
   * Reading `k` afterwards gives `v`; every other property reads as before.
   */
  function Set(r: Record, k: string, v: Value): (r': Record)
    ensures Get(r', k) == v
    ensures forall k' :: k' != k ==> Get(r', k') == Get(r, k')
  {
    if r == [] then [Field(k, v)]
    else if r[0].key == k then [Field(k, v)] + r[1..]
    else [r[0]] + Set(r[1..], k, v)
  }

  /** Assigning a property adds its key to the record's keys and no other. */
  lemma {:induction false} SetKeys(r: Record, k: string, v: Value)
    ensures Keys(Set(r, k, v)) == Keys(r) + {k}
  {
    if r == [] {
      assert [Field(k, v)] == [Field(k, v)] + [];
      KeysCons(Field(k, v), []);
    } else {
      assert r == [r[0]] + r[1..];
      KeysCons(r[0], r[1..]);
      if r[0].key == k {
        KeysCons(Field(k, v), r[1..]);
      } else {
        SetKeys(r[1..], k, v);
        KeysCons(r[0], Set(r[1..], k, v));
      }
    }
  }

  /** Whether the record is a proper object: no key occurs twice. */
  predicate DistinctKeys(r: Record)
  {
    forall i, j :: 0 <= i < j < |r| ==> r[i].key != r[j].key
  }

  /** A record with one more field in front is a proper object iff the rest is and lacks that key. */
  lemma DistinctCons(f: Field, r: Record)
    ensures DistinctKeys([f] + r) <==> f.key !in Keys(r) && DistinctKeys(r)
  {
    var c := [f] + r;
    if DistinctKeys(c) {
      forall g | g in r ensures g.key != f.key {
        var j :| 0 <= j < |r| && r[j] == g;
        assert c[j + 1] == g && c[0] == f && c[0].key != c[j + 1].key;
      }
      assert f.key !in Keys(r);
      forall i, j | 0 <= i < j < |r| ensures r[i].key != r[j].key {
        assert c[i + 1] == r[i] && c[j + 1] == r[j];
      }
    }
    if f.key !in Keys(r) && DistinctKeys(r) {
      forall i, j | 0 <= i < j < |c| ensures c[i].key != c[j].key {
        if i == 0 {
          assert c[j] == r[j - 1] && r[j - 1] in r;
        } else {
          assert c[i] == r[i - 1] && c[j] == r[j - 1];
        }
      }
    }
  }

  /** Assigning a property to a proper object gives a proper object. */
  lemma {:induction false} SetDistinct(r: Record, k: string, v: Value)
    requires DistinctKeys(r)
    ensures DistinctKeys(Set(r, k, v))
  {
    if r == [] {
      assert Set(r, k, v) == [Field(k, v)] + [];
      DistinctCons(Field(k, v), []);
    } else {
      assert r == [r[0]] + r[1..];
      DistinctCons(r[0], r[1..]);
      KeysCons(r[0], r[1..]);
      if r[0].key == k {
        DistinctCons(Field(k, v), r[1..]);
      } else {
        SetDistinct(r[1..], k, v);
        SetKeys(r[1..], k, v);
        DistinctCons(r[0], Set(r[1..], k, v));
      }
    }
  }

  /** Assigning a property the record does not have appends it. */
  lemma {:induction false} SetAbsentAppends(r: Record, k: string, v: Value)
    requires k !in Keys(r)
    ensures Set(r, k, v) == r + [Field(k, v)]
  {
    if r != [] {
      assert r == [r[0]] + r[1..];
      KeysCons(r[0], r[1..]);
      SetAbsentAppends(r[1..], k, v);
    }
  }

  /** Assigning the same property twice leaves only the second value. */
  lemma {:induction false} SetTwice(r: Record, k: string, a: Value, b: Value)
    ensures Set(Set(r, k, a), k, b) == Set(r, k, b)
  {
    if r != [] && r[0].key != k {
      SetTwice(r[1..], k, a, b);
      assert Set(r, k, a)[1..] == Set(r[1..], k, a);
    }
  }
}
