/** The user handlers of backend/controllers/userController.js: listing,
    lookup without the password column, the self-or-admin profile update
    with its `x || old` merge and administrator-only role change, and
    deletion of the user row. */
module Users {
  import opened Common
  import opened Store

  function PublicAll(users: seq<User>): (r: seq<PublicUser>)
    ensures |r| == |users|
    ensures forall k :: 0 <= k < |users| ==> r[k] == Public(users[k])
  {
    seq(|users|, k requires 0 <= k < |users| => Public(users[k]))
  }

  /** `getUsers` (behind `authorize("admin")`): every user, password excluded. */
  function GetUsers(req: Requester, st: Store): (o: Outcome<seq<PublicUser>>)
    ensures o.after == st
    ensures o.reply.Forbidden? <==> !req.IsAdmin()
    ensures o.reply.Ok? || o.reply.Forbidden?
    ensures o.reply.Ok? ==>
      && |o.reply.value| == |st.users|
      && (forall k :: 0 <= k < |st.users| ==> o.reply.value[k] == Public(st.users[k]))
  {
    if !req.IsAdmin() then Outcome(Forbidden(AdminOnly), st)
    else Outcome(Ok(PublicAll(st.users)), st)
  }

  /** `getUserById`: 404 for a missing id; otherwise the row without its
      password. */
  function GetUserById(id: Id, st: Store): (o: Outcome<PublicUser>)
    ensures o.after == st
    ensures o.reply.NotFound? <==> FindUser(st, id).None?
    ensures o.reply.Ok? || o.reply.NotFound?
    ensures o.reply.Ok? ==>
      var u := FindUser(st, id).value;
      && o.reply.value.id == id && o.reply.value.email == u.email && o.reply.value.role == u.role
      && o.reply.value.firstName == u.firstName && o.reply.value.lastName == u.lastName
      && o.reply.value.phoneNumber == u.phoneNumber && o.reply.value.profilePhoto == u.profilePhoto
      && o.reply.value.createdAt == u.createdAt
      && o.reply.value == Public(u)
  {
    match FindUser(st, id)
    case None => Outcome(NotFound("User not found"), st)
    case Some(u) => Outcome(Ok(Public(u)), st)
  }

  /** Body of PUT /api/users/:id. */
  datatype UserUpdate = UserUpdate(
    firstName: Option<string>,
    lastName: Option<string>,
    phoneNumber: Option<string>,
    role: Option<string>)

  /** The merge of `updateUser`: names and phone take a truthy supplied value,
      the role moves only for an administrator sending a truthy role, a
      new upload replaces the photo, and id, email and password never move. */
  function MergeUser(req: Requester, prev: User, u: UserUpdate, upload: Option<string>): (r: User)
    ensures r.id == prev.id && r.email == prev.email && r.password == prev.password && r.createdAt == prev.createdAt
    ensures Truthy(u.firstName) ==> r.firstName == u.firstName.value
    ensures !Truthy(u.firstName) ==> r.firstName == prev.firstName
    ensures Truthy(u.lastName) ==> r.lastName == u.lastName.value
    ensures !Truthy(u.lastName) ==> r.lastName == prev.lastName
    ensures Truthy(u.phoneNumber) ==> r.phoneNumber == u.phoneNumber
    ensures !Truthy(u.phoneNumber) ==> r.phoneNumber == prev.phoneNumber
    ensures req.IsAdmin() && Truthy(u.role) ==> r.role == u.role.value
    ensures !(req.IsAdmin() && Truthy(u.role)) ==> r.role == prev.role
    ensures upload.Some? ==> r.profilePhoto == upload
    ensures upload.None? ==> r.profilePhoto == prev.profilePhoto
  {
    prev.(firstName := Or(u.firstName, prev.firstName),
          lastName := Or(u.lastName, prev.lastName),
          phoneNumber := OrOpt(u.phoneNumber, prev.phoneNumber),
          role := if req.IsAdmin() && Truthy(u.role) then u.role.value else prev.role,
          profilePhoto := if upload.Some? then upload else prev.profilePhoto)
  }

  /** `updateUser`: 404 for a missing id, 403 unless the requester is that
      user or an administrator, nothing written on either; on success exactly
      that row is replaced by its merge. */
  function UpdateUser(req: Requester, id: Id, u: UserUpdate, upload: Option<string>, st: Store): (o: Outcome<PublicUser>)
    ensures o.reply.NotFound? <==> FindUser(st, id).None?
    ensures o.reply.Forbidden? <==> FindUser(st, id).Some? && !OwnerOrAdmin(req, id)
    ensures o.reply.Ok? || o.reply.NotFound? || o.reply.Forbidden?
    ensures !o.reply.Ok? ==> o.after == st
    ensures o.reply.Ok? ==>
      var r := MergeUser(req, FindUser(st, id).value, u, upload);
      && o.reply.value == Public(r)
      && |o.after.users| == |st.users|
      && (forall k :: 0 <= k < |st.users| ==> o.after.users[k] == (if st.users[k].id == id then r else st.users[k]))
      && o.after.items == st.items && o.after.messages == st.messages && o.after.reports == st.reports
    ensures Valid(st) ==> Valid(o.after)
  {
    match FindUser(st, id)
    case None => Outcome(NotFound("User not found"), st)
    case Some(prev) =>
      if prev.id != req.id && !req.IsAdmin() then Outcome(Forbidden("Not authorized to update this user"), st)
      else
        var r := MergeUser(req, prev, u, upload);
        var users := Replace(st.users, id, r, UserKey);
        if Valid(st) then
          ReplaceUserKeepsValid(st, prev, r);
          Outcome(Ok(Public(r)), st.(users := users))
        else Outcome(Ok(Public(r)), st.(users := users))
  }

  /** `deleteUser`: same guards as the update; on success exactly the user row
      goes. The handler reads the user's items only to unlink their photos:
      no item, message or report row is touched. */
  function DeleteUser(req: Requester, id: Id, st: Store): (o: Outcome<string>)
    ensures o.reply.NotFound? <==> FindUser(st, id).None?
    ensures o.reply.Forbidden? <==> FindUser(st, id).Some? && !OwnerOrAdmin(req, id)
    ensures o.reply.Ok? || o.reply.NotFound? || o.reply.Forbidden?
    ensures !o.reply.Ok? ==> o.after == st
    ensures o.reply.Ok? ==>
      && FindUser(o.after, id).None?
      && (forall x :: x in o.after.users <==> x in st.users && x.id != id)
    ensures o.after.items == st.items && o.after.messages == st.messages && o.after.reports == st.reports
    ensures Valid(st) ==> Valid(o.after)
  {
    match FindUser(st, id)
    case None => Outcome(NotFound("User not found"), st)
    case Some(prev) =>
      if prev.id != req.id && !req.IsAdmin() then Outcome(Forbidden("Not authorized to delete this user"), st)
      else
        var after := st.(users := Destroy(st.users, id, UserKey));
        if Valid(st) then
          DestroyKeepsKeys(st.users, id, UserKey, st.nextUserId);
          SubsetKeepsEmails(st.users, after.users, st.nextUserId);
          Outcome(Ok("User removed"), after)
        else Outcome(Ok("User removed"), after)
  }

  predicate UniqueEmails(users: seq<User>) {
    forall i, j :: 0 <= i < j < |users| ==> users[i].email != users[j].email
  }

  /** Rewriting the row of `prev` with a row of the same id and email keeps
      the store's constraints. */
  lemma ReplaceUserKeepsValid(st: Store, prev: User, r: User)
    requires Valid(st)
    requires prev in st.users
    requires r.id == prev.id && r.email == prev.email
    ensures Valid(st.(users := Replace(st.users, prev.id, r, UserKey)))
  {
    var users := Replace(st.users, prev.id, r, UserKey);
    SameKeysKeepKeys(st.users, users, UserKey, st.nextUserId);
    var p :| 0 <= p < |st.users| && st.users[p] == prev;
    forall k | 0 <= k < |st.users| ensures users[k].email == st.users[k].email {
      if st.users[k].id == prev.id {
        assert k == p;
      }
    }
  }

  /** A table whose rows all come from a table with unique emails, and whose
      ids are unique, has unique emails too. */
  lemma SubsetKeepsEmails(xs: seq<User>, ys: seq<User>, next: Id)
    requires UniqueEmails(xs)
    requires KeysBelow(ys, UserKey, next)
    requires forall k :: 0 <= k < |ys| ==> ys[k] in xs
    ensures UniqueEmails(ys)
  {
    forall i, j | 0 <= i < j < |ys| ensures ys[i].email != ys[j].email {
      var a :| 0 <= a < |xs| && xs[a] == ys[i];
      var b :| 0 <= b < |xs| && xs[b] == ys[j];
      assert UserKey(ys[i]) != UserKey(ys[j]);
      assert a != b;
    }
  }
}
