/** The operations every user and support-engineer page performs on the persisted user
    list: look a record up by id, detect an email that is already taken (ignoring case),
    append, rewrite the records with a given id, and delete by id with the guard that
    keeps the signed-in user. */
module UserStore {
  import opened Wrappers
  import opened Types
  import Text
  import Collections
  import Constants

  /** The test `u => u.id === id`. */
  function HasId(id: string): User -> bool {
    Collections.IdIs((u: User) => u.id, id)
  }

  /** `users.find(u => u.id === id)`. */
  function FindById(users: seq<User>, id: string): (r: Option<User>)
    ensures r.None? <==> forall i :: 0 <= i < |users| ==> users[i].id != id
    ensures r.Some? ==> r.value in users && r.value.id == id
    ensures r.Some? ==> exists k :: 0 <= k < |users| && users[k] == r.value &&
                                   forall j :: 0 <= j < k ==> users[j].id != id
  {
    var p := HasId(id);
    var r := Collections.Find(users, p);
    if r.Some? then
      var k := Collections.FirstIndex(users, p).value;
      assert users[k] == r.value && forall j :: 0 <= j < k ==> !p(users[j]);
      r
    else r
  }

  /** Where the record `FindById` returns sits: the object the source's `find` hands back
      is that element of the list itself. */
  function IndexOfId(users: seq<User>, id: string): (r: Option<nat>)
    ensures r.None? <==> FindById(users, id).None?
    ensures r.Some? ==> r.value < |users| && FindById(users, id) == Some(users[r.value])
  {
    Collections.FirstIndex(users, HasId(id))
  }

  /** A stored record that makes `email` a duplicate: the addresses agree ignoring case,
      and the record is not the one being edited (`except`, when there is one). */
  predicate Clashes(u: User, email: string, except: Option<string>) {
    Text.EqualsIgnoreCase(u.email, email) && (except.None? || u.id != except.value)
  }

  /** `users.find(u => u.email.toLowerCase() === email.toLowerCase() && u.id !== except)`. */
  function FindEmailClash(users: seq<User>, email: string, except: Option<string>): (r: Option<User>)
    ensures r.None? <==> forall i :: 0 <= i < |users| ==> !Clashes(users[i], email, except)
    ensures r.Some? ==> r.value in users && Clashes(r.value, email, except)
  {
    Collections.Find(users, (u: User) => Clashes(u, email, except))
  }

  /** No two records share an id. */
  predicate UniqueIds(users: seq<User>) {
    Collections.UniqueBy(users, (u: User) => u.id)
  }

  /** No two records share an email address, ignoring case. */
  predicate UniqueEmails(users: seq<User>) {
    forall i, j :: 0 <= i < j < |users| ==> !Text.EqualsIgnoreCase(users[i].email, users[j].email)
  }

  predicate Consistent(users: seq<User>) {
    UniqueIds(users) && UniqueEmails(users)
  }

  /** Three records with distinct ids and distinct lower-cased emails form a consistent
      list. */
  lemma SeedConsistent(seed: seq<User>)
    requires |seed| == 3
    requires seed[0].id != seed[1].id && seed[0].id != seed[2].id && seed[1].id != seed[2].id
    requires Text.Lower(seed[0].email) != Text.Lower(seed[1].email)
    requires Text.Lower(seed[0].email) != Text.Lower(seed[2].email)
    requires Text.Lower(seed[1].email) != Text.Lower(seed[2].email)
    ensures Consistent(seed)
  {
  }

  /** The users the session starts from when nothing is stored are consistent: their
      emails already differ in their first letter. */
  lemma InitialUsersConsistent()
    ensures Consistent(Constants.InitialUsers)
  {
    var seed := Constants.InitialUsers;
    assert Text.Lower(seed[0].email)[0] == 'a';
    assert Text.Lower(seed[1].email)[0] == 'm';
    assert Text.Lower(seed[2].email)[0] == 'u';
    SeedConsistent(seed);
  }

  /** The fallback list of the add and edit user pages is consistent too. */
  lemma UsersDataConsistent()
    ensures Consistent(Constants.UsersData)
  {
    var seed := Constants.UsersData;
    assert Text.Lower(seed[0].email)[0] == 'a';
    assert Text.Lower(seed[1].email)[0] == 'm';
    assert Text.Lower(seed[2].email)[0] == 'u';
    SeedConsistent(seed);
  }

  /** Appending a record whose email is not taken and whose id is new keeps the list
      consistent. */
  lemma AppendKeepsConsistent(users: seq<User>, u: User)
    requires Consistent(users)
    requires FindEmailClash(users, u.email, None).None?
    requires FindById(users, u.id).None?
    ensures Consistent(users + [u])
  {
    var r := users + [u];
    forall i, j | 0 <= i < j < |r|
      ensures r[i].id != r[j].id && !Text.EqualsIgnoreCase(r[i].email, r[j].email)
    {
      if j == |users| {
        assert !Clashes(users[i], u.email, None);
      }
    }
  }

  /** `users.map(u => u.id === id ? f(u) : u)`. */
  function UpdateById(users: seq<User>, id: string, f: User -> User): (r: seq<User>)
    ensures |r| == |users|
    ensures forall i :: 0 <= i < |users| ==> r[i] == if users[i].id == id then f(users[i]) else users[i]
  {
    Collections.MapWhere(users, (u: User) => u.id == id, f)
  }

  /** Rewriting the record with id `id` keeps the list consistent when the new record keeps
      the id and its email clashes with no other record. */
  lemma UpdateKeepsConsistent(users: seq<User>, id: string, f: User -> User)
    requires Consistent(users)
    requires forall i :: 0 <= i < |users| && users[i].id == id ==>
      f(users[i]).id == id && FindEmailClash(users, f(users[i]).email, Some(id)).None?
    ensures Consistent(UpdateById(users, id, f))
  {
    var r := UpdateById(users, id, f);
    forall i, j | 0 <= i < j < |r|
      ensures r[i].id != r[j].id && !Text.EqualsIgnoreCase(r[i].email, r[j].email)
    {
      if users[i].id == id {
        assert !Clashes(users[j], f(users[i]).email, Some(id));
      } else if users[j].id == id {
        assert !Clashes(users[i], f(users[j]).email, Some(id));
      }
    }
  }

  /** The test `users.filter(u => u.id !== id)` applies. */
  function Others(id: string): User -> bool {
    Collections.IdIsNot((u: User) => u.id, id)
  }

  /** `users.filter(u => u.id !== id)`: every record with that id is gone, every other
      record stays. */
  function RemoveById(users: seq<User>, id: string): (r: seq<User>)
    ensures |r| <= |users|
    ensures forall i :: 0 <= i < |r| ==> r[i] in users && r[i].id != id
    ensures forall i :: 0 <= i < |users| && users[i].id != id ==> users[i] in r
  {
    Collections.Filter(users, Others(id))
  }

  /** Deleting keeps the survivors in order, so it keeps the list consistent. */
  lemma RemoveKeepsConsistent(users: seq<User>, id: string)
    ensures Consistent(users) ==> Consistent(RemoveById(users, id))
  {
    if Consistent(users) {
      Collections.FilterPairwise(users, Others(id), (a: User, b: User) => a.id != b.id);
      Collections.FilterPairwise(users, Others(id), (a: User, b: User) => !Text.EqualsIgnoreCase(a.email, b.email));
    }
  }

  /** With unique ids, deleting a record that is present removes exactly one record. */
  lemma RemoveOne(users: seq<User>, id: string)
    requires UniqueIds(users)
    requires FindById(users, id).Some?
    ensures |RemoveById(users, id)| == |users| - 1
  {
    var k :| 0 <= k < |users| && users[k].id == id;
    RemoveAt(users, k);
  }

  /** With unique ids, deleting the id found at index `k` drops exactly that record and
      keeps every other record in its place. */
  lemma RemoveAt(users: seq<User>, k: nat)
    requires UniqueIds(users)
    requires k < |users|
    ensures RemoveById(users, users[k].id) == users[..k] + users[k + 1..]
    ensures |RemoveById(users, users[k].id)| == |users| - 1
  {
    Collections.FilterDropsOne(users, k, Others(users[k].id));
  }

  /** `handleDeleteUser`: deleting the signed-in user's own id is refused, anything else
      is removed. */
  function GuardedDelete(users: seq<User>, actor: Option<User>, userId: string): (r: seq<User>)
    ensures SelfDelete(actor, userId) ==> r == users
    ensures !SelfDelete(actor, userId) ==> forall i :: 0 <= i < |r| ==> r[i].id != userId
    ensures !SelfDelete(actor, userId) ==>
      (forall i :: 0 <= i < |r| ==> r[i] in users) &&
      (forall i :: 0 <= i < |users| && users[i].id != userId ==> users[i] in r)
    ensures actor.Some? && actor.value in users ==> actor.value in r
    ensures Consistent(users) ==> Consistent(r)
  {
    if SelfDelete(actor, userId) then users
    else
      RemoveKeepsConsistent(users, userId);
      RemoveById(users, userId)
  }

  /** Deleting the same id twice leaves the list as the first delete left it. */
  lemma GuardedDeleteIdempotent(users: seq<User>, actor: Option<User>, userId: string)
    ensures GuardedDelete(GuardedDelete(users, actor, userId), actor, userId)
         == GuardedDelete(users, actor, userId)
  {
    if !SelfDelete(actor, userId) {
      Collections.FilterIdempotent(users, Others(userId));
    }
  }

  /** `userId === currentUser?.id`. */
  predicate SelfDelete(actor: Option<User>, userId: string) {
    actor.Some? && actor.value.id == userId
  }
}
