/**
 * The scenario of the repository's test suite: users and their hobbies,
 * related both ways, filled by one batch of `add` calls.
 */
module Scenario {
  import opened Wrappers
  import opened Records
  import opened Tables
  import opened Resolvers
  import opened Materialiser
  import Stores

  function User(id: int, name: string): Record
  {
    [Field("id", Num(id)), Field("name", Str(name))]
  }

  function Hobby(id: int, name: string, userId: int): Record
  {
    [Field("id", Num(id)), Field("name", Str(name)), Field("userId", Num(userId))]
  }

  /** `users: ({userHobbies}) => [userHobbies('userId', 'hobbies').many('id')]` */
  function UsersResolver(hs: map<string, Handle>): Option<seq<Descriptor>>
  {
    if "userHobbies" in hs then Some([Resolve(hs["userHobbies"], Chained(Some("userId"), Some("hobbies"), Many, "id"))])
    else None
  }

  /** `userHobbies: ({users}) => [users('id', 'user').one('userId')]` */
  function HobbiesResolver(hs: map<string, Handle>): Option<seq<Descriptor>>
  {
    if "users" in hs then Some([Resolve(hs["users"], Chained(Some("id"), Some("user"), One, "userId"))])
    else None
  }

  /** The batch of `beforeEach`: two users, then three hobbies. */
  function Batch(): seq<Op>
  {
    [ Add("users", Item(User(0, "foo"))),
      Add("users", Item(User(1, "bar"))),
      Add("userHobbies", Item(Hobby(0, "プログラミング", 0))),
      Add("userHobbies", Item(Hobby(1, "ゲーム", 1))),
      Add("userHobbies", Item(Hobby(2, "料理", 0)))]
  }

  function Filled(): Snapshot
  {
    ApplyOps(CreateTables({"users", "userHobbies"}), Batch())
  }

  /** Adding two users and then three hobbies leaves each table with its records in call order. */
  lemma AddsInOrder(u0: Record, u1: Record, h0: Record, h1: Record, h2: Record)
    ensures var ops := [Add("users", Item(u0)), Add("users", Item(u1)),
                        Add("userHobbies", Item(h0)), Add("userHobbies", Item(h1)), Add("userHobbies", Item(h2))];
      && Addressable(CreateTables({"users", "userHobbies"}), ops)
      && var s := ApplyOps(CreateTables({"users", "userHobbies"}), ops);
      && "users" in s && s["users"] == [u0, u1]
      && "userHobbies" in s && s["userHobbies"] == [h0, h1, h2]
  {
    var s0 := CreateTables({"users", "userHobbies"});
    var ops := [Add("users", Item(u0)), Add("users", Item(u1)),
                Add("userHobbies", Item(h0)), Add("userHobbies", Item(h1)), Add("userHobbies", Item(h2))];
    assert Addressable(s0, ops);
    assert ops[..0] == [] && ops[..5] == ops;
    ApplyOpsStep(s0, ops, 0);
    ApplyOpsStep(s0, ops, 1);
    ApplyOpsStep(s0, ops, 2);
    ApplyOpsStep(s0, ops, 3);
    ApplyOpsStep(s0, ops, 4);
  }

  /** After the batch, the tables hold the records in insertion order. */
  lemma FilledTables()
    ensures "users" in Filled() && "userHobbies" in Filled()
    ensures Filled()["users"] == [User(0, "foo"), User(1, "bar")]
    ensures Filled()["userHobbies"] == [Hobby(0, "プログラミング", 0), Hobby(1, "ゲーム", 1), Hobby(2, "料理", 0)]
  {
    AddsInOrder(User(0, "foo"), User(1, "bar"),
                Hobby(0, "プログラミング", 0), Hobby(1, "ゲーム", 1), Hobby(2, "料理", 0));
  }

  /** The descriptors `users` resolves to against the filled store. */
  lemma UsersDescriptors()
    ensures "users" in Filled() && "userHobbies" in Filled()
    ensures UsersResolver(HandleSet("users", Filled().Keys)).Some?
    ensures var ds := UsersResolver(HandleSet("users", Filled().Keys)).value;
      && Targeted(ds, Filled()) && FirstWithBase(ds, "id") == 0 && |ds| == 1
      && ds[0] == Resolve(Handle("users", "userHobbies"), Chained(Some("userId"), Some("hobbies"), Many, "id"))
  {
    FilledTables();
    var handles := HandleSet("users", Filled().Keys);
    assert handles["userHobbies"] == Handle("users", "userHobbies");
  }

  /** Three hobbies of users 0, 1 and 0: each user's hobbies, in insertion order. */
  lemma HobbiesOfUsers(h0: Record, h1: Record, h2: Record)
    requires Get(h0, "userId") == Num(0) && Get(h1, "userId") == Num(1) && Get(h2, "userId") == Num(0)
    ensures AsValues(Matching([h0, h1, h2], "userId", Num(0))) == [Obj(h0), Obj(h2)]
    ensures AsValues(Matching([h0, h1, h2], "userId", Num(1))) == [Obj(h1)]
  {
    var hs := [h0, h1, h2];
    assert hs[..2][..1] == [h0] && hs[..2] == [h0, h1] && [h0][..0] == [];
    assert Matching([h0], "userId", Num(0)) == [h0];
    assert Matching([h0, h1], "userId", Num(0)) == [h0];
    assert Matching([h0], "userId", Num(1)) == [];
    assert Matching([h0, h1], "userId", Num(1)) == [h1];
  }

  /** A user record carries exactly the keys `id` and `name`. */
  lemma UserKeys(id: int, name: string)
    ensures Keys(User(id, name)) == {"id", "name"}
  {
    var u := User(id, name);
    KeysCons(u[1], []);
    KeysCons(u[0], [u[1]]);
    assert u == [u[0]] + [u[1]];
  }

  /**
   * The test "set & get items": selecting `users` succeeds; every user keeps
   * its `id` and `name` and gets under `hobbies` its hobbies in insertion
   * order (hobbies 0 and 2 for user 0, hobby 1 for user 1).
   */
  lemma SelectUsers()
    ensures Select(UsersResolver, Filled(), "users").Success?
    ensures var out := Select(UsersResolver, Filled(), "users").value;
      && |out| == 2
      && Get(out[0], "id") == Num(0) && Get(out[0], "name") == Str("foo")
      && Get(out[1], "id") == Num(1) && Get(out[1], "name") == Str("bar")
      && Get(out[0], "hobbies") == Arr([Obj(Hobby(0, "プログラミング", 0)), Obj(Hobby(2, "料理", 0))])
      && Get(out[1], "hobbies") == Arr([Obj(Hobby(1, "ゲーム", 1))])
  {
    var s := Filled();
    FilledTables();
    UsersDescriptors();
    var ds := UsersResolver(HandleSet("users", s.Keys)).value;
    SelectTotal(UsersResolver, s, "users");
    var out := Select(UsersResolver, s, "users").value;
    HobbyKeys(0, "プログラミング", 0);
    HobbyKeys(1, "ゲーム", 1);
    HobbyKeys(2, "料理", 0);
    HobbiesOfUsers(Hobby(0, "プログラミング", 0), Hobby(1, "ゲーム", 1), Hobby(2, "料理", 0));
    UserOutput(0, "foo", ds, s, out[0]);
    UserOutput(1, "bar", ds, s, out[1]);
  }

  /** One user's row of the selection. */
  lemma {:induction false} UserOutput(id: int, name: string, ds: seq<Descriptor>, s: Snapshot, out: Record)
    requires "userHobbies" in s && |ds| == 1 && FirstWithBase(ds, "id") == 0
    requires ds[0] == Resolve(Handle("users", "userHobbies"), Chained(Some("userId"), Some("hobbies"), Many, "id"))
    requires Materialise(User(id, name), ds, s) == Success(out)
    ensures Get(out, "id") == Num(id) && Get(out, "name") == Str(name)
    ensures Get(out, "hobbies") == Arr(AsValues(Matching(s["userHobbies"], "userId", Num(id))))
  {
    var u := User(id, name);
    UserKeys(id, name);
    assert NoCollision(u, ds);
    KeepsFields(u, ds, s);
    assert Get(u, "id") == Num(id);
    assert Get(u, "name") == Str(name) by { assert u[1..] == [Field("name", Str(name))]; }
    SingleRelation(u, ds, "id");
    ManyRelation(u, ds, s, Handle("users", "userHobbies"), "userId", "hobbies", "id");
  }

  /** The descriptors `userHobbies` resolves to against the filled store. */
  lemma HobbiesDescriptors()
    ensures "users" in Filled() && "userHobbies" in Filled()
    ensures HobbiesResolver(HandleSet("userHobbies", Filled().Keys)).Some?
    ensures var ds := HobbiesResolver(HandleSet("userHobbies", Filled().Keys)).value;
      && Targeted(ds, Filled()) && FirstWithBase(ds, "userId") == 0 && |ds| == 1
      && ds[0] == Resolve(Handle("userHobbies", "users"), Chained(Some("id"), Some("user"), One, "userId"))
  {
    FilledTables();
    var handles := HandleSet("userHobbies", Filled().Keys);
    assert handles["users"] == Handle("userHobbies", "users");
  }

  /** Each user is the only one with its id. */
  lemma UsersById(users: Table)
    requires users == [User(0, "foo"), User(1, "bar")]
    ensures Matching(users, "id", Num(0)) == [users[0]]
    ensures Matching(users, "id", Num(1)) == [users[1]]
  {
    assert Get(users[0], "id") == Num(0) && Get(users[1], "id") == Num(1);
    var u1 := users[..1];
    assert u1[..0] == [] && users[..1] == u1;
    assert Matching(u1, "id", Num(0)) == [users[0]];
    assert Matching(u1, "id", Num(1)) == [];
  }

  /** A hobby record carries exactly the keys `id`, `name` and `userId`. */
  lemma HobbyKeys(id: int, name: string, userId: int)
    ensures Keys(Hobby(id, name, userId)) == {"id", "name", "userId"}
    ensures Get(Hobby(id, name, userId), "id") == Num(id)
    ensures Get(Hobby(id, name, userId), "name") == Str(name)
    ensures Get(Hobby(id, name, userId), "userId") == Num(userId)
  {
    var h := Hobby(id, name, userId);
    assert Get(h[1..], "name") == Str(name);
    KeysCons(h[2], []);
    KeysCons(h[1], [h[2]]);
    KeysCons(h[0], [h[1], h[2]]);
    assert h == [h[0]] + ([h[1]] + [h[2]]);
    assert h[1..][1..] == [h[2]];
    assert Get(h[1..][1..], "userId") == Num(userId);
    assert Get(h[1..], "userId") == Num(userId);
  }

  /** One hobby's row of the selection. */
  lemma {:induction false} HobbyOutput(id: int, name: string, userId: int, ds: seq<Descriptor>, s: Snapshot, out: Record)
    requires "users" in s && |ds| == 1 && FirstWithBase(ds, "userId") == 0
    requires ds[0] == Resolve(Handle("userHobbies", "users"), Chained(Some("id"), Some("user"), One, "userId"))
    requires Materialise(Hobby(id, name, userId), ds, s) == Success(out)
    ensures Get(out, "id") == Num(id) && Get(out, "name") == Str(name)
    ensures Get(out, "userId") == Num(userId)
    ensures var m := Matching(s["users"], "id", Num(userId));
      Get(out, "user") == if m == [] then Undefined else Obj(m[0])
  {
    var h := Hobby(id, name, userId);
    HobbyKeys(id, name, userId);
    assert NoCollision(h, ds);
    KeepsFields(h, ds, s);
    SingleRelation(h, ds, "userId");
    OneRelation(h, ds, s, Handle("userHobbies", "users"), "id", "user", "userId");
  }

  /**
   * The second half of "set & get items": every hobby keeps its `id` and
   * `name` and gets under `user` the user whose `id` is its `userId`.
   */
  lemma SelectHobbies()
    ensures Select(HobbiesResolver, Filled(), "userHobbies").Success?
    ensures var out := Select(HobbiesResolver, Filled(), "userHobbies").value;
      && |out| == 3
      && Get(out[0], "id") == Num(0) && Get(out[0], "name") == Str("プログラミング")
      && Get(out[0], "user") == Obj(User(0, "foo"))
      && Get(out[1], "id") == Num(1) && Get(out[1], "name") == Str("ゲーム")
      && Get(out[1], "user") == Obj(User(1, "bar"))
      && Get(out[2], "id") == Num(2) && Get(out[2], "name") == Str("料理")
      && Get(out[2], "user") == Obj(User(0, "foo"))
  {
    var s := Filled();
    FilledTables();
    HobbiesDescriptors();
    var ds := HobbiesResolver(HandleSet("userHobbies", s.Keys)).value;
    SelectTotal(HobbiesResolver, s, "userHobbies");
    var out := Select(HobbiesResolver, s, "userHobbies").value;
    UsersById(s["users"]);
    HobbyOutput(0, "プログラミング", 0, ds, s, out[0]);
    HobbyOutput(1, "ゲーム", 1, ds, s, out[1]);
    HobbyOutput(2, "料理", 0, ds, s, out[2]);
  }

  /** The test "clear": clearing `users` in a batch empties it and leaves the three hobbies. */
  lemma ClearUsers()
    ensures Addressable(Filled(), [Clear("users")])
    ensures ApplyOps(Filled(), [Clear("users")])["users"] == []
    ensures |ApplyOps(Filled(), [Clear("users")])["userHobbies"]| == 3
  {
    FilledTables();
    var ops := [Clear("users")];
    assert ops[..0] == [];
    UntouchedTable(Filled(), ops, "userHobbies");
  }

  /** The end of "set & get items": a callback that does nothing gives back the very same store value. */
  method EmptyCallback(store: Stores.Store) returns (alias: Stores.Store)
    requires store.Valid() && store.owner.Valid()
    ensures alias == store
  {
    alias := store.Call(Some([]));
  }

  /** The test "clear all": after `store.clear()` both getters yield no row. */
  lemma ClearAll()
    ensures Select(UsersResolver, CreateTables(Filled().Keys), "users") == Success([])
    ensures Select(HobbiesResolver, CreateTables(Filled().Keys), "userHobbies") == Success([])
  {
    FilledTables();
    var s := CreateTables(Filled().Keys);
    assert "users" in s && "userHobbies" in s && s["users"] == [] && s["userHobbies"] == [];
    assert "users" in HandleSet("userHobbies", s.Keys) && "userHobbies" in HandleSet("users", s.Keys);
  }

  /** The test "updateBy()()": renaming `foo` to `foofoo` reaches user 0 and only that user. */
  lemma RenameFoo()
    ensures Addressable(Filled(), [UpdateBy("users", "name", Str("foofoo"), Str("foo"))])
    ensures var users := ApplyOps(Filled(), [UpdateBy("users", "name", Str("foofoo"), Str("foo"))])["users"];
      |users| == 2 && Get(users[0], "name") == Str("foofoo") && users[1] == User(1, "bar")
  {
    FilledTables();
    var op := UpdateBy("users", "name", Str("foofoo"), Str("foo"));
    assert [op][..0] == [];
    var t := Filled()["users"];
    assert Get(t[0], "name") == Str("foo") by { assert t[0][1..] == [Field("name", Str("foo"))]; }
    assert Get(t[1], "name") == Str("bar") by { assert t[1][1..] == [Field("name", Str("bar"))]; }
    UpdatedAt(t, "name", Str("foofoo"), [Str("foo")], 0);
    UpdatedAt(t, "name", Str("foofoo"), [Str("foo")], 1);
  }

  /** The test "deleteBy()()": deleting the user with id 0 leaves one user. */
  lemma DeleteUserZero()
    ensures Addressable(Filled(), [DeleteBy("users", "id", Num(0))])
    ensures ApplyOps(Filled(), [DeleteBy("users", "id", Num(0))])["users"] == [User(1, "bar")]
  {
    FilledTables();
    var op := DeleteBy("users", "id", Num(0));
    assert [op][..0] == [];
    var t := Filled()["users"];
    assert t[..1][..0] == [] && t[..1] == [t[0]];
    assert Without(t[..1], "id", [Num(0)]) == [];
  }

  /** Two records that both match `values` both read `newValue` after the update, so the `filter` join finds both. */
  lemma {:induction false} UpdatedPair(t: Table, field: string, newValue: Value, values: seq<Value>)
    requires |t| == 2 && Get(t[0], field) in values && Get(t[1], field) in values
    ensures |Matching(Updated(t, field, newValue, values), field, newValue)| == 2
  {
    var u := Updated(t, field, newValue, values);
    UpdatedAt(t, field, newValue, values, 0);
    UpdatedAt(t, field, newValue, values, 1);
    assert u == [u[0]] + [u[1]];
    MatchingConcat([u[0]], [u[1]], field, newValue);
    MatchingOne(u[0], field, newValue);
    MatchingOne(u[1], field, newValue);
  }

  /** A table none of whose records reads `v` at `field` has no match for it. */
  lemma {:induction false} NoneMatching(t: Table, field: string, v: Value)
    requires forall x :: x in t ==> Get(x, field) != v
    ensures Matching(t, field, v) == []
  {
    if t != [] {
      assert forall x :: x in t[..|t| - 1] ==> x in t;
      NoneMatching(t[..|t| - 1], field, v);
    }
  }

  /**
   * The test "updateBy().in()": no user is called `foofoo` before; renaming
   * both `foo` and `bar` to `foofoo` makes two users called `foofoo`.
   */
  lemma RenameBoth()
    ensures Addressable(Filled(), [UpdateByIn("users", "name", Str("foofoo"), [Str("foo"), Str("bar")])])
    ensures Matching(Filled()["users"], "name", Str("foofoo")) == []
    ensures |Matching(ApplyOps(Filled(), [UpdateByIn("users", "name", Str("foofoo"), [Str("foo"), Str("bar")])])["users"],
                      "name", Str("foofoo"))| == 2
  {
    FilledTables();
    var values := [Str("foo"), Str("bar")];
    var op := UpdateByIn("users", "name", Str("foofoo"), values);
    assert [op][..0] == [];
    var t := Filled()["users"];
    assert Get(t[0], "name") == Str("foo") by { assert t[0][1..] == [Field("name", Str("foo"))]; }
    assert Get(t[1], "name") == Str("bar") by { assert t[1][1..] == [Field("name", Str("bar"))]; }
    NoneMatching(t, "name", Str("foofoo"));
    UpdatedEachIsUpdated(t, "name", Str("foofoo"), values);
    UpdatedPair(t, "name", Str("foofoo"), values);
  }

  /** The test "deleteBy().in()": deleting the users with id 0 and 1 leaves none. */
  lemma DeleteBoth()
    ensures Addressable(Filled(), [DeleteByIn("users", "id", [Num(0), Num(1)])])
    ensures ApplyOps(Filled(), [DeleteByIn("users", "id", [Num(0), Num(1)])])["users"] == []
  {
    FilledTables();
    var values := [Num(0), Num(1)];
    var op := DeleteByIn("users", "id", values);
    assert [op][..0] == [];
    var t := Filled()["users"];
    WithoutEachIsWithout(t, "id", values);
    WithoutMembers(t, "id", values);
  }
}
