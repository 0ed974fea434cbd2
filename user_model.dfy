/** models/User.js: the in-memory user store. The module-level `users` array
    and `nextId` counter are the fields of one `UserStore` object; the
    static methods of `User` are its methods. */
module UserModel {
  import opened Seqs
  import opened IntParsing

  /** A stored user; `createdAt` is a time stamp. */
  datatype User = User(id: int, name: string, email: string, password: string, createdAt: int)

  /** The object given to `new User(...)`: `id` and `createdAt` may be
      absent. */
  datatype UserData = UserData(id: Option<int>, name: string, email: string, password: string, createdAt: Option<int>)

  /** An element of what `findAll` returns. */
  datatype PublicUser = PublicUser(id: int, name: string, email: string)

  /** What `toJSON` returns. */
  datatype UserJson = UserJson(id: int, name: string, email: string, createdAt: int)

  /** `id || ...` keeps the given id only when it is truthy: present and
      not 0. */
  predicate IdGiven(id: Option<int>) {
    id.Some? && id.value != 0
  }

  /** Position of the first user with the given id (`findIndex`). */
  function IdIndex(users: seq<User>, id: int): (r: Option<nat>)
    ensures r.Some? ==> r.value < |users| && users[r.value].id == id
    ensures r.Some? ==> forall j :: 0 <= j < r.value ==> users[j].id != id
    ensures r.None? <==> forall j :: 0 <= j < |users| ==> users[j].id != id
  {
    FirstIndex(users, (u: User) => u.id == id)
  }

  /** Position of the first user whose id equals `parseInt(arg)`; NaN
      equals no id. */
  function LookupIndex(users: seq<User>, arg: string): (r: Option<nat>)
    ensures ParseInt(arg).None? ==> r.None?
    ensures ParseInt(arg).Some? ==> r == IdIndex(users, ParseInt(arg).value)
  {
    match ParseInt(arg)
    case None => None
    case Some(n) => IdIndex(users, n)
  }

  /** The store after `deleteById(arg)`: the first user with that id is
      spliced out; nothing changes when there is none. */
  function DeleteId(users: seq<User>, arg: string): (r: seq<User>)
    ensures LookupIndex(users, arg).None? ==> r == users
    ensures LookupIndex(users, arg).Some? ==> r == RemoveAt(users, LookupIndex(users, arg).value)
  {
    match LookupIndex(users, arg)
    case None => users
    case Some(i) => RemoveAt(users, i)
  }

  /** The store after `user.save()`: the first entry with the same id is
      replaced by `user`; nothing is ever inserted. */
  function SaveUser(users: seq<User>, user: User): (r: seq<User>)
    ensures |r| == |users|
    ensures forall j :: 0 <= j < |users| ==> r[j].id == users[j].id
    ensures forall j :: 0 <= j < |users| ==> r[j] == (if IdIndex(users, user.id) == Some(j) then user else users[j])
  {
    match IdIndex(users, user.id)
    case None => users
    case Some(i) => users[i := user]
  }

  /** `toJSON()`: every field except the password. */
  function ToJson(u: User): (r: UserJson)
    ensures r.id == u.id && r.name == u.name && r.email == u.email && r.createdAt == u.createdAt
  {
    UserJson(u.id, u.name, u.email, u.createdAt)
  }

  /** Each id is larger than the one before. */
  ghost predicate Increasing(s: seq<int>) {
    forall k :: 0 <= k < |s| - 1 ==> s[k] < s[k + 1]
  }

  /** Ids handed out in increasing order are pairwise distinct. */
  lemma {:induction false} IncreasingIsOrdered(s: seq<int>, i: nat, j: nat)
    requires Increasing(s) && i < j < |s|
    ensures s[i] < s[j]
    decreases j - i
  {
    if i + 1 < j {
      IncreasingIsOrdered(s, i + 1, j);
    }
  }

  class UserStore {
    /** The module-level `users` array. */
    var users: seq<User>
    /** The module-level `nextId` counter. */
    var nextId: int
    /** The ids the counter has handed out, oldest first. */
    ghost var issued: seq<int>

    ghost predicate Valid()
      reads this
    {
      1 <= nextId && Increasing(issued) &&
      forall k :: 0 <= k < |issued| ==> issued[k] < nextId
    }

    /** Module initialisation: no users, and ids start at 1. */
    constructor ()
      ensures Valid() && users == [] && nextId == 1 && issued == []
    {
      users := [];
      nextId := 1;
      issued := [];
    }

    /** `new User(data)`: keeps a truthy given id and leaves the counter
        alone; otherwise takes `nextId` and advances it. A missing
        `createdAt` is the current time `now`. */
    method NewUser(data: UserData, now: int) returns (u: User)
      requires Valid()
      modifies this`nextId, this`issued
      ensures Valid()
      ensures u.name == data.name && u.email == data.email && u.password == data.password
      ensures u.createdAt == if data.createdAt.Some? then data.createdAt.value else now
      ensures IdGiven(data.id) ==> u.id == data.id.value && nextId == old(nextId) && issued == old(issued)
      ensures !IdGiven(data.id) ==> u.id == old(nextId) && nextId == old(nextId) + 1 && issued == old(issued) + [u.id]
      ensures !IdGiven(data.id) ==> forall k :: 0 <= k < |old(issued)| ==> old(issued)[k] < u.id
    {
      var id: int;
      if IdGiven(data.id) {
        id := data.id.value;
      } else {
        id := nextId;
        nextId := nextId + 1;
        issued := issued + [id];
      }
      var createdAt := if data.createdAt.Some? then data.createdAt.value else now;
      u := User(id, data.name, data.email, data.password, createdAt);
    }

    /** `findAll()`: id, name and email of every user, in store order. */
    function FindAll(): (r: seq<PublicUser>)
      reads this
      ensures |r| == |users|
      ensures forall j :: 0 <= j < |users| ==>
                r[j].id == users[j].id && r[j].name == users[j].name && r[j].email == users[j].email
    {
      var us := users;
      seq(|us|, j requires 0 <= j < |us| => PublicUser(us[j].id, us[j].name, us[j].email))
    }

    /** `findById(id)`: the first user whose id equals `parseInt(id)`, or
        None for undefined. */
    function FindById(id: string): (r: Option<User>)
      reads this
      ensures r.None? <==> ParseInt(id).None? || forall j :: 0 <= j < |users| ==> users[j].id != ParseInt(id).value
      ensures r.Some? ==> r == Some(users[IdIndex(users, ParseInt(id).value).value])
    {
      match LookupIndex(users, id)
      case None => None
      case Some(i) => Some(users[i])
    }

    /** `findByEmail(email)`: the first user whose email is exactly
        `email`, or None for undefined. */
    function FindByEmail(email: string): (r: Option<User>)
      reads this
      ensures r.None? <==> forall j :: 0 <= j < |users| ==> users[j].email != email
      ensures r.Some? ==> exists i :: 0 <= i < |users| && users[i] == r.value && users[i].email == email &&
                                      forall j :: 0 <= j < i ==> users[j].email != email
    {
      Find(users, (u: User) => u.email == email)
    }

    /** `create(data)`: builds the user and appends it to the store. */
    method Create(data: UserData, now: int) returns (u: User)
      requires Valid()
      modifies this
      ensures Valid()
      ensures users == old(users) + [u]
      ensures u.name == data.name && u.email == data.email && u.password == data.password
      ensures u.createdAt == if data.createdAt.Some? then data.createdAt.value else now
      ensures IdGiven(data.id) ==> u.id == data.id.value && nextId == old(nextId)
      ensures !IdGiven(data.id) ==> u.id == old(nextId) && nextId == old(nextId) + 1
      ensures !IdGiven(data.id) ==> u.id !in old(issued)
      ensures issued == if IdGiven(data.id) then old(issued) else old(issued) + [u.id]
    {
      u := NewUser(data, now);
      users := users + [u];
    }

    /** `deleteById(id)`: splices out the first user whose id equals
        `parseInt(id)`, if any. */
    method DeleteById(id: string)
      requires Valid()
      modifies this`users
      ensures Valid()
      ensures users == DeleteId(old(users), id)
    {
      var index := LookupIndex(users, id);
      if index.Some? {
        users := RemoveAt(users, index.value);
      }
    }

    /** `user.save()`: overwrites the first entry with the same id, if any,
        and returns the user. */
    method Save(user: User) returns (r: User)
      requires Valid()
      modifies this`users
      ensures Valid()
      ensures r == user
      ensures users == SaveUser(old(users), user)
    {
      var index := IdIndex(users, user.id);
      if index.Some? {
        users := users[index.value := user];
      }
      r := user;
    }
  }

  /** Two ids the counter handed out are different. */
  lemma IssuedIdsDistinct(store: UserStore, i: nat, j: nat)
    requires store.Valid() && i < j < |store.issued|
    ensures store.issued[i] != store.issued[j]
  {
    IncreasingIsOrdered(store.issued, i, j);
  }

  /** A user appended with an id no earlier user has is found again by the
      decimal form of its id. */
  lemma CreatedUserIsFound(users: seq<User>, u: User)
    requires forall j :: 0 <= j < |users| ==> users[j].id != u.id
    ensures LookupIndex(users + [u], DecimalString(u.id)) == Some(|users|)
  {
    ParseIntRoundTrip(u.id);
    var s := users + [u];
    assert forall j :: 0 <= j < |users| ==> s[j] == users[j];
    assert s[|users|].id == u.id;
  }

  /** Deleting removes exactly one user, the first with that id, and keeps
      the others in order. */
  lemma DeleteRemovesOne(users: seq<User>, arg: string)
    requires LookupIndex(users, arg).Some?
    ensures |DeleteId(users, arg)| == |users| - 1
    ensures multiset(DeleteId(users, arg)) + multiset{users[LookupIndex(users, arg).value]} == multiset(users)
  {
    RemoveAtMultiset(users, LookupIndex(users, arg).value);
  }

  /** Deleting by the decimal form of an id that no user has is a no-op. */
  lemma DeleteAbsentIsNoOp(users: seq<User>, n: int)
    requires forall j :: 0 <= j < |users| ==> users[j].id != n
    ensures DeleteId(users, DecimalString(n)) == users
  {
    ParseIntRoundTrip(n);
  }

  /** The ids in the store are the same before and after a save. */
  lemma {:induction false} SaveKeepsIds(users: seq<User>, user: User)
    ensures Ids(SaveUser(users, user)) == Ids(users)
  {
    var r := SaveUser(users, user);
    assert forall j :: 0 <= j < |users| ==> Ids(r)[j] == Ids(users)[j];
  }

  /** The ids of the users, in store order. */
  function Ids(users: seq<User>): (r: seq<int>)
    ensures |r| == |users|
    ensures forall j :: 0 <= j < |users| ==> r[j] == users[j].id
  {
    seq(|users|, j requires 0 <= j < |users| => users[j].id)
  }
}
