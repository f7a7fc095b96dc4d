/** models/User.php: the users collection, with unique emails (a unique
    index) and bcrypt password hashes that only `findByEmail` hands out. */
module Users {
  import opened Common

  /** A stored user; `password` holds the hash, never the plaintext. */
  datatype User = User(name: string, email: string, password: string, role: string, createdAt: int, updatedAt: int)

  /** A user as `create` and `findById` return it: the record with its
      password field unset. */
  datatype Profile = Profile(id: Id, name: string, email: string, role: string, createdAt: int, updatedAt: int)

  /** A user as `findByEmail` returns it: the whole record and its id. */
  datatype Account = Account(id: Id, user: User)

  /** The record without its password. */
  function ProfileOf(id: Id, u: User): (p: Profile)
    ensures p.id == id && p.name == u.name && p.email == u.email && p.role == u.role
    ensures p.createdAt == u.createdAt && p.updatedAt == u.updatedAt
  {
    Profile(id, u.name, u.email, u.role, u.createdAt, u.updatedAt)
  }

  /** No two users share an email. */
  ghost predicate UniqueEmails(users: map<Id, User>) {
    forall a, b :: a in users && b in users && a != b ==> users[a].email != users[b].email
  }

  class UserModel {
    var users: map<Id, User>

    ghost predicate Valid()
      reads this
    {
      (forall id :: id in users ==> LowerId(id)) && UniqueEmails(users)
    }

    constructor ()
      ensures Valid() && users == map[]
    {
      users := map[];
    }

    /** Whether a user other than `id` already has `email`. */
    predicate EmailTaken(email: string, id: Id)
      reads this
    {
      exists other :: other in users && other != id && users[other].email == email
    }

    /** `create`: stores the hash of the password and the role, which
        defaults to `customer`; the unique index turns a second user with
        the same email into "Email already exists". The returned user has
        no password field. */
    method Create(name: string, email: string, password: string, role: Option<string>,
                  newId: Id, now: int, rt: Runtime) returns (r: Result<Profile, string>)
      requires Valid() && LowerId(newId) && newId !in users
      modifies this
      ensures Valid()
      ensures old(EmailTaken(email, newId)) ==> r == Err("Email already exists") && users == old(users)
      ensures !old(EmailTaken(email, newId)) ==>
        && users == old(users)[newId := User(name, email, rt.passwordHash(password), role.GetOr("customer"), now, now)]
        && r == Ok(ProfileOf(newId, users[newId]))
    {
      var u := User(name, email, rt.passwordHash(password), if role.Some? then role.value else "customer", now, now);
      if exists other :: other in users && users[other].email == email {
        return Err("Email already exists");
      }
      users := users[newId := u];
      r := Ok(ProfileOf(newId, u));
    }

    /** `findByEmail`: the whole record, hash included, of the one user
        with that email. */
    function FindByEmail(email: string): (r: Option<Account>)
      requires Valid()
      reads this
      ensures r.Some? <==> exists id :: id in users && users[id].email == email
      ensures r.Some? ==> r.value.id in users && users[r.value.id] == r.value.user && r.value.user.email == email
    {
      if exists id :: id in users && users[id].email == email then
        var id :| id in users && users[id].email == email;
        Some(Account(id, users[id]))
      else None
    }

    /** `findById`: the user without password, or null for a malformed or
        unknown id; the profile carries the stored, lower-case id. */
    function FindById(id: string): (r: Option<Profile>)
      reads this
      ensures r.Some? <==> ValidObjectId(id) && Canonical(id) in users
      ensures r.Some? ==> r.value == ProfileOf(Canonical(id), users[Canonical(id)])
    {
      match Find(users, id)
      case Some(u) => Some(ProfileOf(Canonical(id), u))
      case None => None
    }

    /** `update`: sets the supplied name, email and (re-hashed) password and
        updatedAt, and answers whether the document was modified. A
        malformed or unknown id, or an email another user holds (the
        duplicate-key error), gives false and changes nothing. */
    method Update(id: string, name: Option<string>, email: Option<string>, password: Option<string>,
                  now: int, rt: Runtime) returns (modified: bool)
      requires Valid()
      modifies this
      ensures Valid()
      ensures !ValidObjectId(id) || Canonical(id) !in old(users) || (email.Some? && old(EmailTaken(email.value, Canonical(id)))) ==>
        !modified && users == old(users)
      ensures ValidObjectId(id) && Canonical(id) in old(users) && !(email.Some? && old(EmailTaken(email.value, Canonical(id)))) ==>
        var u := old(users)[Canonical(id)];
        var u' := User(name.GetOr(u.name), email.GetOr(u.email),
                       if password.Some? then rt.passwordHash(password.value) else u.password,
                       u.role, u.createdAt, now);
        users == old(users)[Canonical(id) := u'] && (modified <==> u' != u)
    {
      var key := Canonical(id);
      if !ValidObjectId(id) || key !in users {
        return false;
      }
      if email.Some? && EmailTaken(email.value, key) {
        return false;
      }
      var u := users[key];
      var u' := u.(updatedAt := now);
      if name.Some? { u' := u'.(name := name.value); }
      if email.Some? { u' := u'.(email := email.value); }
      if password.Some? { u' := u'.(password := rt.passwordHash(password.value)); }
      users := users[key := u'];
      modified := u' != u;
    }

    /** `delete`: true iff a user was removed. */
    method Delete(id: string) returns (deleted: bool)
      requires Valid()
      modifies this
      ensures Valid()
      ensures deleted <==> ValidObjectId(id) && Canonical(id) in old(users)
      ensures users == if deleted then old(users) - {Canonical(id)} else old(users)
    {
      var key := Canonical(id);
      if !ValidObjectId(id) || key !in users {
        return false;
      }
      users := users - {key};
      deleted := true;
    }
  }
}
