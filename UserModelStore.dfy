/** The in-memory user model of app/models/users.py. The class-level list
    `_data` and counter `_id_counter` are the fields of one `Store` object;
    each `UserModel` instance is a `UserObj` whose attributes are
    JSON-like scalars, because `update` may store a value of any type under
    any existing attribute. Keyword arguments are a sequence of
    (name, value) pairs in call order. The bcrypt context is the store's
    `hasher`. */
module UserModelStore {
  import opened Base
  import AuthService

  /** The data attributes of an instance. */
  datatype Row = Row(id: Value, username: Value, password: Value, age: Value, gender: Value, lastLogin: Value)

  /** The methods every instance also has as attributes. */
  const METHOD_NAMES := {"get_hashed_password", "verify_password", "authenticate", "create", "get",
                         "filter", "update", "delete", "all", "create_dummy", "clear"}

  /** What `getattr(user, key)` finds: a data attribute, a bound method
      (equal to no scalar), or nothing (AttributeError). */
  datatype Attr = Field(v: Value) | BoundMethod | Missing

  function GetAttr(r: Row, key: string): Attr
  {
    if key == "id" then Field(r.id)
    else if key == "username" then Field(r.username)
    else if key == "password" then Field(r.password)
    else if key == "age" then Field(r.age)
    else if key == "gender" then Field(r.gender)
    else if key == "last_login" then Field(r.lastLogin)
    else if key in METHOD_NAMES then BoundMethod
    else Missing
  }

  function AttributeError(key: string): Exc
  {
    Error("'UserModel' object has no attribute '" + key + "'")
  }

  /** `all(getattr(user, key) == value for key, value in kwargs.items())`,
      evaluated left to right and stopping at the first mismatch; an unknown
      attribute reached before a mismatch raises. */
  function MatchAll(r: Row, kw: seq<(string, Value)>): Outcome<bool>
  {
    if |kw| == 0 then Returns(true)
    else match GetAttr(r, kw[0].0)
      case Missing => Raises(AttributeError(kw[0].0))
      case BoundMethod => Returns(false)
      case Field(v) => if v != kw[0].1 then Returns(false) else MatchAll(r, kw[1..])
  }

  /** The match holds iff every keyword equals its data attribute, and it
      raises only the AttributeError of a keyword naming no attribute. */
  lemma {:induction false} MatchAllMeaning(r: Row, kw: seq<(string, Value)>)
    ensures MatchAll(r, kw) == Returns(true) <==> forall k :: 0 <= k < |kw| ==> GetAttr(r, kw[k].0) == Field(kw[k].1)
    ensures MatchAll(r, kw).Raises? ==>
      exists k :: 0 <= k < |kw| && GetAttr(r, kw[k].0) == Missing && MatchAll(r, kw).exc == AttributeError(kw[k].0)
  {
    if |kw| > 0 && GetAttr(r, kw[0].0) == Field(kw[0].1) {
      MatchAllMeaning(r, kw[1..]);
      assert forall k :: 1 <= k < |kw| ==> kw[k] == kw[1..][k - 1];
      if MatchAll(r, kw).Raises? {
        var k :| 0 <= k < |kw[1..]| && GetAttr(r, kw[1..][k].0) == Missing && MatchAll(r, kw).exc == AttributeError(kw[1..][k].0);
        assert kw[1..][k] == kw[k + 1];
      }
    }
  }

  /** `setattr(self, key, value)` as `update` applies it: only for an
      attribute that exists (`hasattr`) and a value that is not None. */
  function SetAttr(r: Row, key: string, v: Value): Row
  {
    if v == Null then r
    else if key == "id" then r.(id := v)
    else if key == "username" then r.(username := v)
    else if key == "password" then r.(password := v)
    else if key == "age" then r.(age := v)
    else if key == "gender" then r.(gender := v)
    else if key == "last_login" then r.(lastLogin := v)
    else r
  }

  /** The effect of `update(**kw)`: each pair applied in order. */
  function ApplyUpdate(r: Row, kw: seq<(string, Value)>): Row
  {
    if |kw| == 0 then r else SetAttr(ApplyUpdate(r, kw[..|kw| - 1]), kw[|kw| - 1].0, kw[|kw| - 1].1)
  }

  /** Setting one attribute leaves every other data attribute as it was;
      setting it to a value other than None makes it that value. */
  lemma SetAttrFrame(r: Row, k: string, v: Value, key: string)
    requires GetAttr(r, key).Field?
    ensures k != key ==> GetAttr(SetAttr(r, k, v), key) == GetAttr(r, key)
    ensures k == key && v != Null ==> GetAttr(SetAttr(r, k, v), key) == Field(v)
    ensures GetAttr(SetAttr(r, k, v), key).Field?
  {
  }

  /** `update` leaves alone every attribute it is not given a non-None
      value for. */
  lemma {:induction false} UpdateKeepsUngiven(r: Row, kw: seq<(string, Value)>, key: string)
    requires GetAttr(r, key).Field?
    requires forall k :: 0 <= k < |kw| && kw[k].0 == key ==> kw[k].1 == Null
    ensures GetAttr(ApplyUpdate(r, kw), key) == GetAttr(r, key)
  {
    if |kw| > 0 {
      var init := kw[..|kw| - 1];
      assert forall k :: 0 <= k < |init| ==> init[k] == kw[k];
      UpdateKeepsUngiven(r, init, key);
      SetAttrFrame(ApplyUpdate(r, init), kw[|kw| - 1].0, kw[|kw| - 1].1, key);
    }
  }

  /** An attribute given a non-None value ends with the last such value. */
  lemma {:induction false} UpdateSetsLastGiven(r: Row, kw: seq<(string, Value)>, key: string, k: nat)
    requires GetAttr(r, key).Field?
    requires k < |kw| && kw[k].0 == key && kw[k].1 != Null
    requires forall j :: k < j < |kw| && kw[j].0 == key ==> kw[j].1 == Null
    ensures GetAttr(ApplyUpdate(r, kw), key) == Field(kw[k].1)
    decreases |kw|
  {
    var init := kw[..|kw| - 1];
    var last := kw[|kw| - 1];
    assert forall j :: 0 <= j < |init| ==> init[j] == kw[j];
    if k == |kw| - 1 {
      SetAttrFrame(ApplyUpdate(r, init), last.0, last.1, key);
      assert GetAttr(ApplyUpdate(r, init), key).Field? by {
        ApplyUpdateKeepsFields(r, init, key);
      }
    } else {
      UpdateSetsLastGiven(r, init, key, k);
      SetAttrFrame(ApplyUpdate(r, init), last.0, last.1, key);
    }
  }

  /** A data attribute stays a data attribute through any update. */
  lemma {:induction false} ApplyUpdateKeepsFields(r: Row, kw: seq<(string, Value)>, key: string)
    requires GetAttr(r, key).Field?
    ensures GetAttr(ApplyUpdate(r, kw), key).Field?
  {
    if |kw| > 0 {
      ApplyUpdateKeepsFields(r, kw[..|kw| - 1], key);
      SetAttrFrame(ApplyUpdate(r, kw[..|kw| - 1]), kw[|kw| - 1].0, kw[|kw| - 1].1, key);
    }
  }

  /** The row every new instance starts as (lines 12-18). */
  function NewRow(id: int, username: string, hashed: string, age: int, gender: string): Row
  {
    Row(Int(id), Str(username), Str(hashed), Int(age), Str(gender), Null)
  }

  /** Ids are integers, strictly increasing in list order, and below the
      counter. */
  predicate IdsIncreasing(rows: seq<Row>, counter: int)
  {
    && (forall k :: 0 <= k < |rows| ==> rows[k].id.Int? && rows[k].id.i < counter)
    && (forall i, j :: 0 <= i < j < |rows| ==> rows[i].id.i < rows[j].id.i)
  }

  /** Creating keeps the ids increasing and gives the new user an id no
      other user has. */
  lemma CreateKeepsIdsIncreasing(rows: seq<Row>, counter: int, username: string, hashed: string, age: int, gender: string)
    requires IdsIncreasing(rows, counter)
    ensures IdsIncreasing(rows + [NewRow(counter, username, hashed, age, gender)], counter + 1)
    ensures forall k :: 0 <= k < |rows| ==> rows[k].id != Int(counter)
  {
  }

  /** Removing an entry keeps the ids increasing. */
  lemma RemoveKeepsIdsIncreasing(rows: seq<Row>, counter: int, i: nat)
    requires IdsIncreasing(rows, counter) && i < |rows|
    ensures IdsIncreasing(rows[..i] + rows[i + 1..], counter)
  {
    var rest := rows[..i] + rows[i + 1..];
    assert forall k :: 0 <= k < |rest| ==> rest[k] == rows[if k < i then k else k + 1];
  }

  /** An update without a non-None `id` keeps the id. */
  lemma {:induction false} UpdateKeepsId(r: Row, kw: seq<(string, Value)>)
    requires forall k :: 0 <= k < |kw| && kw[k].0 == "id" ==> kw[k].1 == Null
    ensures ApplyUpdate(r, kw).id == r.id
  {
    UpdateKeepsUngiven(r, kw, "id");
  }

  /** `get`: the index of the first row from `from` on whose attributes
      match, or what the first failing attribute lookup raises. */
  function GetFrom(rows: seq<Row>, kw: seq<(string, Value)>, from: nat): (r: Outcome<Option<nat>>)
    requires from <= |rows|
    ensures r.Returns? && r.value.Some? ==>
      from <= r.value.value < |rows| && MatchAll(rows[r.value.value], kw) == Returns(true) &&
      forall k :: from <= k < r.value.value ==> MatchAll(rows[k], kw) == Returns(false)
    ensures r == Returns(None) <==> forall k :: from <= k < |rows| ==> MatchAll(rows[k], kw) == Returns(false)
    decreases |rows| - from
  {
    if from == |rows| then Returns(None)
    else match MatchAll(rows[from], kw)
      case Raises(e) => Raises(e)
      case Returns(true) => Returns(Some(from))
      case Returns(false) => GetFrom(rows, kw, from + 1)
  }

  /** `get` raises only what the lookup on some row raises, and only when
      no earlier row from `from` on matched or raised. */
  lemma {:induction false} GetFromRaises(rows: seq<Row>, kw: seq<(string, Value)>, from: nat)
    requires from <= |rows|
    ensures GetFrom(rows, kw, from).Raises? ==>
      exists k :: from <= k < |rows| && MatchAll(rows[k], kw) == Raises(GetFrom(rows, kw, from).exc) &&
                  forall j :: from <= j < k ==> MatchAll(rows[j], kw) == Returns(false)
    decreases |rows| - from
  {
    var r := GetFrom(rows, kw, from);
    if from < |rows| && r.Raises? {
      var m := MatchAll(rows[from], kw);
      if m.Raises? {
        assert m == Raises(r.exc);
      } else {
        assert m == Returns(false) && r == GetFrom(rows, kw, from + 1);
        GetFromRaises(rows, kw, from + 1);
        var k :| from + 1 <= k < |rows| && MatchAll(rows[k], kw) == Raises(r.exc) &&
                 forall j :: from + 1 <= j < k ==> MatchAll(rows[j], kw) == Returns(false);
        assert forall j :: from <= j < k ==> MatchAll(rows[j], kw) == Returns(false);
      }
    }
  }

  /** `filter`: the indices, in order, of the rows from `from` on that match,
      or what the first failing attribute lookup raises. */
  function FilterFrom(rows: seq<Row>, kw: seq<(string, Value)>, from: nat): Outcome<seq<nat>>
    requires from <= |rows|
    decreases |rows| - from
  {
    if from == |rows| then Returns([])
    else match MatchAll(rows[from], kw)
      case Raises(e) => Raises(e)
      case Returns(b) =>
        match FilterFrom(rows, kw, from + 1)
        case Raises(e) => Raises(e)
        case Returns(rest) => Returns((if b then [from] else []) + rest)
  }

  /** `filter` raises exactly when some row's attribute lookup raises;
      otherwise it returns exactly the indices of the matching rows, each
      once, in increasing order. */
  lemma {:induction false} FilterFromExact(rows: seq<Row>, kw: seq<(string, Value)>, from: nat)
    requires from <= |rows|
    ensures var r := FilterFrom(rows, kw, from);
            r.Returns? ==>
              && (forall k :: 0 <= k < |r.value| ==> from <= r.value[k] < |rows|)
              && (forall i, j :: 0 <= i < j < |r.value| ==> r.value[i] < r.value[j])
              && (forall k :: from <= k < |rows| ==> (k in r.value <==> MatchAll(rows[k], kw) == Returns(true)))
    ensures FilterFrom(rows, kw, from).Raises? <==> exists k :: from <= k < |rows| && MatchAll(rows[k], kw).Raises?
    decreases |rows| - from
  {
    if from < |rows| {
      FilterFromExact(rows, kw, from + 1);
    }
    FilterFromRaises(rows, kw, from);
  }

  /** `filter` raises exactly when the lookup on some row from `from` on
      raises. */
  lemma {:induction false} FilterFromRaises(rows: seq<Row>, kw: seq<(string, Value)>, from: nat)
    requires from <= |rows|
    ensures FilterFrom(rows, kw, from).Raises? <==> exists k :: from <= k < |rows| && MatchAll(rows[k], kw).Raises?
    decreases |rows| - from
  {
    if from < |rows| {
      FilterFromRaises(rows, kw, from + 1);
      var m := MatchAll(rows[from], kw);
      if m.Raises? {
        assert FilterFrom(rows, kw, from).Raises?;
      } else {
        assert FilterFrom(rows, kw, from).Raises? <==> FilterFrom(rows, kw, from + 1).Raises?;
        if FilterFrom(rows, kw, from).Raises? {
          var k :| from + 1 <= k < |rows| && MatchAll(rows[k], kw).Raises?;
          assert from <= k;
        } else {
          assert forall k :: from <= k < |rows| ==> !MatchAll(rows[k], kw).Raises? by {
            assert forall k :: from + 1 <= k < |rows| ==> !MatchAll(rows[k], kw).Raises?;
          }
        }
      }
    }
  }

  /** `Prepend(acc, FilterFrom(...))`: the loop's result so far followed by
      what the rest of the list gives. */
  function Prepend(acc: seq<nat>, o: Outcome<seq<nat>>): Outcome<seq<nat>>
  {
    match o
    case Raises(e) => Raises(e)
    case Returns(rest) => Returns(acc + rest)
  }

  /** One loop step of `filter`: a row's verdict moves from the rest of the
      list to the result so far. */
  lemma FilterStep(rows: seq<Row>, kw: seq<(string, Value)>, acc: seq<nat>, i: nat)
    requires i < |rows|
    ensures MatchAll(rows[i], kw).Raises? ==> Prepend(acc, FilterFrom(rows, kw, i)) == Raises(MatchAll(rows[i], kw).exc)
    ensures MatchAll(rows[i], kw).Returns? ==>
      Prepend(acc, FilterFrom(rows, kw, i)) ==
      Prepend(acc + (if MatchAll(rows[i], kw).value then [i] else []), FilterFrom(rows, kw, i + 1))
  {
    match FilterFrom(rows, kw, i + 1)
    case Raises(_) =>
    case Returns(rest) =>
      var b := if MatchAll(rows[i], kw) == Returns(true) then [i] else [];
      assert acc + (b + rest) == (acc + b) + rest;
  }

  /** `get` is the head of `filter`: both raise alike, and when `filter`
      returns, `get` gives its first element, or None when it is empty. */
  lemma {:induction false} GetIsFirstOfFilter(rows: seq<Row>, kw: seq<(string, Value)>, from: nat)
    requires from <= |rows|
    ensures FilterFrom(rows, kw, from).Returns? ==>
      GetFrom(rows, kw, from) ==
        (if FilterFrom(rows, kw, from).value == [] then Returns(None) else Returns(Some(FilterFrom(rows, kw, from).value[0])))
    ensures GetFrom(rows, kw, from).Raises? ==> FilterFrom(rows, kw, from) == Raises(GetFrom(rows, kw, from).exc)
    decreases |rows| - from
  {
    if from < |rows| {
      GetIsFirstOfFilter(rows, kw, from + 1);
      match MatchAll(rows[from], kw)
      case Raises(e) =>
        assert GetFrom(rows, kw, from) == Raises(e) && FilterFrom(rows, kw, from) == Raises(e);
      case Returns(true) =>
        assert GetFrom(rows, kw, from) == Returns(Some(from));
      case Returns(false) =>
        assert GetFrom(rows, kw, from) == GetFrom(rows, kw, from + 1);
        assert FilterFrom(rows, kw, from) == FilterFrom(rows, kw, from + 1) by {
          match FilterFrom(rows, kw, from + 1)
          case Raises(_) =>
          case Returns(rest) => assert [] + rest == rest;
        }
    }
  }

  /** Filtering with no keyword arguments gives every user, in order. */
  lemma {:induction false} FilterNoArgsIsAll(rows: seq<Row>, from: nat)
    requires from <= |rows|
    ensures FilterFrom(rows, [], from).Returns?
    ensures |FilterFrom(rows, [], from).value| == |rows| - from
    ensures forall k :: 0 <= k < |rows| - from ==> FilterFrom(rows, [], from).value[k] == from + k
    decreases |rows| - from
  {
    if from < |rows| {
      FilterNoArgsIsAll(rows, from + 1);
    }
  }

  /** Picking every index of a list in order gives the list back. */
  lemma PickEveryIndex<T>(xs: seq<T>, ix: seq<nat>, ys: seq<T>)
    requires |ix| == |xs| && forall k :: 0 <= k < |ix| ==> ix[k] == k
    requires |ys| == |ix| && forall k :: 0 <= k < |ix| ==> ys[k] == xs[ix[k]]
    ensures ys == xs
  {
  }

  /** Whether `verify_password(password, stored)` holds: passlib answers
      False for a None hash and raises for a hash that is not text. */
  function VerifyStored(hasher: AuthService.Hasher, password: string, stored: Value): Outcome<bool>
  {
    match stored
    case Str(h) => Returns(hasher.verify(password, h))
    case Null => Returns(false)
    case Int(_) => Raises(Error("hash must be unicode or bytes, not int"))
  }

  /** `authenticate`: the index of the first row from `from` on with that
      username whose stored hash verifies the password. */
  function AuthFrom(rows: seq<Row>, hasher: AuthService.Hasher, username: string, password: string, from: nat): (r: Outcome<Option<nat>>)
    requires from <= |rows|
    ensures r.Returns? && r.value.Some? ==>
      from <= r.value.value < |rows| && rows[r.value.value].username == Str(username) &&
      VerifyStored(hasher, password, rows[r.value.value].password) == Returns(true)
    ensures r == Returns(None) ==>
      forall k :: from <= k < |rows| && rows[k].username == Str(username) ==>
        VerifyStored(hasher, password, rows[k].password) == Returns(false)
    ensures r.Returns? && r.value.Some? ==>
      forall k :: from <= k < r.value.value && rows[k].username == Str(username) ==>
        VerifyStored(hasher, password, rows[k].password) == Returns(false)
    ensures r.Raises? ==>
      exists k :: from <= k < |rows| && rows[k].username == Str(username) &&
                  rows[k].password.Int? && VerifyStored(hasher, password, rows[k].password) == Raises(r.exc) &&
                  forall j :: from <= j < k && rows[j].username == Str(username) ==>
                    VerifyStored(hasher, password, rows[j].password) == Returns(false)
    decreases |rows| - from
  {
    if from == |rows| then Returns(None)
    else if rows[from].username != Str(username) then AuthFrom(rows, hasher, username, password, from + 1)
    else match VerifyStored(hasher, password, rows[from].password)
      case Raises(e) => Raises(e)
      case Returns(true) => Returns(Some(from))
      case Returns(false) => AuthFrom(rows, hasher, username, password, from + 1)
  }

  /** A user just created with a sound hasher can log in with the password
      they were created with, when no earlier user has that username. */
  lemma {:induction false} CreatedUserAuthenticates(rows: seq<Row>, hasher: AuthService.Hasher, counter: int,
                                                   username: string, password: string, age: int, gender: string, from: nat)
    requires AuthService.Sound(hasher) && from <= |rows|
    requires forall k :: from <= k < |rows| ==> rows[k].username != Str(username)
    ensures AuthFrom(rows + [NewRow(counter, username, hasher.hash(password), age, gender)], hasher, username, password, from)
            == Returns(Some(|rows|))
    decreases |rows| - from
  {
    var rows' := rows + [NewRow(counter, username, hasher.hash(password), age, gender)];
    assert hasher.verify(password, hasher.hash(password));
    if from < |rows| {
      assert rows'[from] == rows[from];
      CreatedUserAuthenticates(rows, hasher, counter, username, password, age, gender, from + 1);
    }
  }

  /** The rows of a list of instances. */
  function RowsOf(objs: seq<UserObj>): (r: seq<Row>)
    reads objs
    ensures |r| == |objs|
    ensures forall k :: 0 <= k < |objs| ==> r[k] == objs[k].Fields()
  {
    if |objs| == 0 then [] else [objs[0].Fields()] + RowsOf(objs[1..])
  }

  /** A UserModel instance. */
  class UserObj {
    var id: Value
    var username: Value
    var password: Value
    var age: Value
    var gender: Value
    var lastLogin: Value

    function Fields(): Row
      reads this
    {
      Row(id, username, password, age, gender, lastLogin)
    }

    /** `__init__`: takes the counter as id, stores the hash of the
        password, then appends itself to the list and advances the counter. */
    constructor (store: Store, username: string, password: string, age: int, gender: string)
      modifies store
      ensures Fields() == NewRow(old(store.idCounter), username, store.hasher.hash(password), age, gender)
      ensures store.data == old(store.data) + [this] && store.idCounter == old(store.idCounter) + 1
    {
      id := Int(store.idCounter);
      this.username := Str(username);
      this.password := Str(store.hasher.hash(password));
      this.age := Int(age);
      this.gender := Str(gender);
      lastLogin := Null;
      new;
      store.data := store.data + [this];
      store.idCounter := store.idCounter + 1;
    }

    /** `update(**kw)`. */
    method Update(kw: seq<(string, Value)>)
      modifies this
      ensures Fields() == ApplyUpdate(old(Fields()), kw)
    {
      var i := 0;
      while i < |kw|
        invariant 0 <= i <= |kw|
        invariant Fields() == ApplyUpdate(old(Fields()), kw[..i])
      {
        var (key, value) := kw[i];
        assert kw[..i + 1][..i] == kw[..i];
        if GetAttr(Fields(), key) != Missing && value != Null {
          var r := SetAttr(Fields(), key, value);
          id, username, password, age, gender, lastLogin := r.id, r.username, r.password, r.age, r.gender, r.lastLogin;
        }
        i := i + 1;
      }
      assert kw[..i] == kw;
    }

    /** `delete`: removes this instance from the list if it is there. */
    method Delete(store: Store)
      modifies store
      ensures store.idCounter == old(store.idCounter)
      ensures match Find(old(store.data), this)
        case None => store.data == old(store.data)
        case Some(i) => store.data == old(store.data)[..i] + old(store.data)[i + 1..]
    {
      var i := 0;
      while i < |store.data|
        invariant 0 <= i <= |store.data|
        invariant store.data == old(store.data)
        invariant this !in store.data[..i]
      {
        if store.data[i] == this {
          store.data := store.data[..i] + store.data[i + 1..];
          return;
        }
        assert store.data[..i + 1] == store.data[..i] + [store.data[i]];
        i := i + 1;
      }
      assert store.data[..i] == store.data;
    }
  }

  /** The class-level state of UserModel. */
  class Store {
    var data: seq<UserObj>
    var idCounter: int
    const hasher: AuthService.Hasher

    function Rows(): seq<Row>
      reads this, data
    {
      RowsOf(data)
    }

    constructor (hasher: AuthService.Hasher)
      ensures data == [] && idCounter == 1 && this.hasher == hasher
    {
      data := [];
      idCounter := 1;
      this.hasher := hasher;
    }

    /** `create`: a new instance, appended to the list. */
    method Create(username: string, password: string, age: int, gender: string) returns (u: UserObj)
      modifies this
      ensures fresh(u) && data == old(data) + [u] && idCounter == old(idCounter) + 1
      ensures Rows() == old(Rows()) + [NewRow(old(idCounter), username, hasher.hash(password), age, gender)]
    {
      u := new UserObj(this, username, password, age, gender);
    }

    /** `get(**kw)`. */
    method Get(kw: seq<(string, Value)>) returns (r: Outcome<Option<UserObj>>)
      ensures match GetFrom(Rows(), kw, 0)
        case Raises(e) => r == Raises(e)
        case Returns(None) => r == Returns(None)
        case Returns(Some(i)) => r == Returns(Some(data[i]))
    {
      var rows := Rows();
      var i := 0;
      while i < |data|
        invariant 0 <= i <= |data|
        invariant GetFrom(rows, kw, 0) == GetFrom(rows, kw, i)
      {
        match MatchAll(data[i].Fields(), kw)
        case Raises(e) =>
          return Raises(e);
        case Returns(true) =>
          return Returns(Some(data[i]));
        case Returns(false) =>
        i := i + 1;
      }
      r := Returns(None);
    }

    /** `filter(**kw)`: the matching instances in list order. */
    method Filter(kw: seq<(string, Value)>) returns (r: Outcome<seq<UserObj>>)
      ensures match FilterFrom(Rows(), kw, 0)
        case Raises(e) => r == Raises(e)
        case Returns(ix) => r.Returns? && |r.value| == |ix| &&
                            forall k :: 0 <= k < |ix| ==> ix[k] < |data| && r.value[k] == data[ix[k]]
    ensures kw == [] ==> r == Returns(All())
    {
      var rows := Rows();
      var found: seq<UserObj> := [];
      ghost var ix: seq<nat> := [];
      var i := 0;
      assert FilterFrom(rows, kw, 0) == Prepend([], FilterFrom(rows, kw, 0)) by {
        match FilterFrom(rows, kw, 0)
        case Raises(_) =>
        case Returns(rest) => assert [] + rest == rest;
      }
      while i < |data|
        invariant 0 <= i <= |data| && |rows| == |data|
        invariant FilterFrom(rows, kw, 0) == Prepend(ix, FilterFrom(rows, kw, i))
        invariant |found| == |ix| && forall k :: 0 <= k < |ix| ==> ix[k] < |data| && found[k] == data[ix[k]]
      {
        FilterStep(rows, kw, ix, i);
        var m := MatchAll(rows[i], kw);
        if m.Raises? {
          return Raises(m.exc);
        }
        if m.value {
          found := found + [data[i]];
          ix := ix + [i];
        } else {
          assert ix + [] == ix;
        }
        i := i + 1;
      }
      assert ix + [] == ix;
      if kw == [] {
        FilterNoArgsIsAll(rows, 0);
        PickEveryIndex(data, ix, found);
      }
      r := Returns(found);
    }

    /** `all`: the list itself. */
    function All(): (r: seq<UserObj>)
      reads this
      ensures r == data
    {
      data
    }

    /** `clear`: empties the list and resets the counter. */
    method Clear()
      modifies this
      ensures data == [] && idCounter == 1
    {
      data := [];
      idCounter := 1;
    }

    /** `authenticate(username, password)`. */
    method Authenticate(username: string, password: string) returns (r: Outcome<Option<UserObj>>)
      ensures match AuthFrom(Rows(), hasher, username, password, 0)
        case Raises(e) => r == Raises(e)
        case Returns(None) => r == Returns(None)
        case Returns(Some(i)) => r == Returns(Some(data[i]))
    {
      var rows := Rows();
      var i := 0;
      while i < |data|
        invariant 0 <= i <= |data|
        invariant AuthFrom(rows, hasher, username, password, 0) == AuthFrom(rows, hasher, username, password, i)
      {
        var user := data[i];
        if user.username == Str(username) {
          match VerifyStored(hasher, password, user.password)
          case Raises(e) =>
            return Raises(e);
          case Returns(true) =>
            return Returns(Some(user));
          case Returns(false) =>
        }
        i := i + 1;
      }
      r := Returns(None);
    }
  }
}
