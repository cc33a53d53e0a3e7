/** The user collection and its three writers: registration (register.js),
    admin-only deletion (user/delete.js) and the profile update of the
    session's own user (user/update.js). As for attendance, each handler is a
    pure step function and the `UserTable` class runs it on its stored table. */
module Users {
  import opened Base
  import opened Models

  datatype RegisterRequest = RegisterRequest(
    verb: string, name: string, email: string, password: string, department: string, role: string)

  /** The `user` object of the registration answer; it has no password field. */
  datatype PublicUser = PublicUser(name: string, email: string, role: string, department: string)

  /** The next-auth session, an input here. `id` is absent when the token
      carried none. */
  datatype SessionUser = SessionUser(id: Option<UserId>, email: string)
  datatype Session = Session(user: Option<SessionUser>)

  datatype DeleteRequest = DeleteRequest(verb: string, session: Option<Session>, userId: Option<UserId>)

  /** What the image host answers to an upload. */
  datatype UploadOutcome = Uploaded(url: string) | UploadFailed

  /** The profile update body; `image` is None when the body leaves it out. */
  datatype UpdateRequest = UpdateRequest(
    verb: string, session: Option<Session>,
    age: Option<int>, education: string, state: string, religion: string, image: Option<string>)

  ghost predicate DistinctEmails(users: seq<User>) {
    forall i, j :: 0 <= i < j < |users| ==> users[i].email != users[j].email
  }

  ghost predicate DistinctIds(users: seq<User>) {
    forall i, j :: 0 <= i < j < |users| ==> users[i].id != users[j].id
  }

  ghost predicate IdsBelow(users: seq<User>, bound: UserId) {
    forall i :: 0 <= i < |users| ==> users[i].id < bound
  }

  /** Dropping the user at `k` keeps ids and emails pairwise distinct, and
      with distinct ids it drops exactly the users carrying that id. */
  lemma RemovalKeepsDistinct(users: seq<User>, k: nat)
    requires k < |users|
    ensures DistinctIds(users) ==> DistinctIds(users[..k] + users[k + 1..])
    ensures DistinctEmails(users) ==> DistinctEmails(users[..k] + users[k + 1..])
    ensures DistinctIds(users) ==>
      forall u :: u in users[..k] + users[k + 1..] <==> u in users && u.id != users[k].id
  {
    var rest := users[..k] + users[k + 1..];
    assert forall i :: 0 <= i < |rest| ==> rest[i] == users[if i < k then i else i + 1];
    if DistinctIds(users) {
      forall u | u in users && u.id != users[k].id
        ensures u in rest
      {
        var j :| 0 <= j < |users| && users[j] == u;
        assert j != k;
        assert rest[if j < k then j else j - 1] == u;
      }
    }
  }

  /** `User.findOne({ email })` found someone. */
  function EmailTaken(users: seq<User>, email: string): (r: bool)
    ensures r <==> exists i :: 0 <= i < |users| && users[i].email == email
  {
    FirstIndex(users, (u: User) => u.email == email).Some?
  }

  // ------------------------------------------------------------ register.js

  ghost predicate RegisterFieldsPresent(req: RegisterRequest) {
    req.name != "" && req.email != "" && req.password != "" && req.department != "" && req.role != ""
  }

  /** register.js `handler`; `nextId` is the `_id` the new document gets. */
  function RegisterSpec(users: seq<User>, nextId: UserId, hash: PasswordHash, req: RegisterRequest)
    : (r: (Response<PublicUser>, seq<User>))
    ensures req.verb != "POST" ==> r == (Fail(405, "Method not allowed"), users)
    ensures (req.verb == "POST" && !RegisterFieldsPresent(req)) ==> r == (Fail(400, "All fields are required"), users)
    ensures (req.verb == "POST" && RegisterFieldsPresent(req) && exists i :: 0 <= i < |users| && users[i].email == req.email) ==>
      r == (Fail(400, "User already exists"), users)
    ensures r.0.Fail? ==> r.1 == users
    ensures r.0.Ok? <==> (req.verb == "POST" && RegisterFieldsPresent(req) &&
                          forall i :: 0 <= i < |users| ==> users[i].email != req.email)
    // exactly one user is added; it stores the hash of the password, and the answer omits it
    ensures r.0.Ok? ==>
      r.0.status == 201 && r.0.message == "User registered successfully" &&
      r.0.body == PublicUser(req.name, req.email, req.role, req.department) &&
      |r.1| == |users| + 1 && r.1[..|users|] == users &&
      var u := r.1[|users|];
      u.id == nextId && u.name == req.name && u.email == req.email && u.password == hash(req.password) &&
      u.role == req.role && u.department == req.department
    ensures DistinctEmails(users) ==> DistinctEmails(r.1)
    ensures IdsBelow(users, nextId) && DistinctIds(users) ==> DistinctIds(r.1)
  {
    if req.verb != "POST" then (Fail(405, "Method not allowed"), users)
    else if req.name == "" || req.email == "" || req.password == "" || req.department == "" || req.role == "" then
      (Fail(400, "All fields are required"), users)
    else if EmailTaken(users, req.email) then (Fail(400, "User already exists"), users)
    else
      var created := User(nextId, req.name, req.email, hash(req.password), req.role, req.department,
                          None, "", "", "", "", "", "");
      (Ok(201, "User registered successfully", PublicUser(created.name, created.email, created.role, created.department)),
       users + [created])
  }

  // --------------------------------------------------------- user/delete.js

  /** The requester's stored role is "admin" (the session's claim is not used). */
  ghost predicate StoredAdmin(users: seq<User>, who: SessionUser) {
    who.id.Some? && FindUser(users, who.id.value).Some? && FindUser(users, who.id.value).value.role == "admin"
  }

  /** user/delete.js `handler`. */
  function DeleteSpec(users: seq<User>, req: DeleteRequest): (r: (Response<()>, seq<User>))
    ensures req.verb != "DELETE" ==> r == (Fail(405, "Method Not Allowed"), users)
    ensures (req.verb == "DELETE" && req.session.None?) ==> r == (Fail(401, "Unauthorized. Please log in."), users)
    ensures (req.verb == "DELETE" && req.session.Some? && req.userId.None?) ==> r == (Fail(400, "User ID is required."), users)
    // reading the id of a session without a user throws into the catch block
    ensures (req.verb == "DELETE" && req.session.Some? && req.userId.Some? && req.session.value.user.None?) ==>
      r == (Fail(500, "Internal server error."), users)
    ensures (req.verb == "DELETE" && req.session.Some? && req.userId.Some? && req.session.value.user.Some? &&
             !StoredAdmin(users, req.session.value.user.value)) ==>
      r == (Fail(403, "Access denied. Admins only."), users)
    ensures (req.verb == "DELETE" && req.session.Some? && req.userId.Some? && req.session.value.user.Some? &&
             StoredAdmin(users, req.session.value.user.value) && FindUser(users, req.userId.value).None?) ==>
      r == (Fail(404, "User not found."), users)
    ensures r.0.Fail? ==> r.1 == users
    ensures r.0.Ok? <==> (req.verb == "DELETE" && req.session.Some? && req.userId.Some? && req.session.value.user.Some? &&
                          StoredAdmin(users, req.session.value.user.value) && FindUser(users, req.userId.value).Some?)
    // exactly the target is removed; everyone else stays, in order
    ensures r.0.Ok? ==>
      (r.0.status == 200 &&
       exists k :: 0 <= k < |users| && users[k].id == req.userId.value && r.1 == users[..k] + users[k + 1..])
    ensures (r.0.Ok? && DistinctIds(users)) ==>
      (forall u :: u in r.1 <==> u in users && u.id != req.userId.value)
    ensures DistinctIds(users) ==> DistinctIds(r.1)
    ensures DistinctEmails(users) ==> DistinctEmails(r.1)
  {
    if req.verb != "DELETE" then (Fail(405, "Method Not Allowed"), users)
    else if req.session.None? then (Fail(401, "Unauthorized. Please log in."), users)
    else if req.userId.None? then (Fail(400, "User ID is required."), users)
    else if req.session.value.user.None? then (Fail(500, "Internal server error."), users)
    else
      var requester := if req.session.value.user.value.id.None? then None
                       else FindUser(users, req.session.value.user.value.id.value);
      if requester.None? || requester.value.role != "admin" then (Fail(403, "Access denied. Admins only."), users)
      else match FirstIndex(users, (u: User) => u.id == req.userId.value)
        case None => (Fail(404, "User not found."), users)
        case Some(k) =>
          RemovalKeepsDistinct(users, k);
          (Ok(200, "User deleted successfully.", ()), users[..k] + users[k + 1..])
  }

  // --------------------------------------------------------- user/update.js

  /** The `imageUrl` that goes into `$set`, or None when the upload failed.
      An inline `data:image` value is replaced by the uploaded URL, and any
      other value is kept as given. An absent image gives `undefined`
      (`Some(None)`), a key the update drops, so the stored image stays. */
  function StoredImage(image: Option<string>, upload: UploadOutcome): (r: Option<Option<string>>)
    ensures image.None? ==> r == Some(None)
    ensures image.Some? && "data:image" <= image.value ==> (r.None? <==> upload.UploadFailed?)
    ensures image.Some? && "data:image" <= image.value && upload.Uploaded? ==> r == Some(Some(upload.url))
    ensures image.Some? && !("data:image" <= image.value) ==> r == Some(image)
  {
    match image
    case None => Some(None)
    case Some(value) =>
      // `image && image.startsWith(...)`: the truthiness test as written; "" is no data URL either
      if value != "" && "data:image" <= value then
        match upload
        case UploadFailed => None
        case Uploaded(url) => Some(Some(url))
      else Some(Some(value))
  }

  /** Only the five profile fields may differ. */
  ghost predicate SameAccount(a: User, b: User) {
    a.id == b.id && a.name == b.name && a.email == b.email && a.password == b.password &&
    a.role == b.role && a.department == b.department && a.accountNumber == b.accountNumber && a.bankCode == b.bankCode
  }

  ghost predicate UpdateFieldsPresent(req: UpdateRequest) {
    req.age.Some? && req.age.value != 0 && req.education != "" && req.state != "" && req.religion != ""
  }

  /** user/update.js `handler`; `upload` is the image host's answer. */
  function UpdateSpec(users: seq<User>, req: UpdateRequest, upload: UploadOutcome): (r: (Response<User>, seq<User>))
    ensures req.verb != "POST" ==> r == (Fail(405, "Method Not Allowed"), users)
    ensures (req.verb == "POST" && (req.session.None? || req.session.value.user.None?)) ==>
      r == (Fail(401, "Unauthorized: No valid session"), users)
    ensures (req.verb == "POST" && req.session.Some? && req.session.value.user.Some? && !UpdateFieldsPresent(req)) ==>
      r == (Fail(400, "All fields are required"), users)
    ensures (req.verb == "POST" && req.session.Some? && req.session.value.user.Some? && UpdateFieldsPresent(req) &&
             StoredImage(req.image, upload).None?) ==>
      r == (Fail(500, "Failed to upload image"), users)
    ensures (req.verb == "POST" && req.session.Some? && req.session.value.user.Some? && UpdateFieldsPresent(req) &&
             StoredImage(req.image, upload).Some? && !EmailTaken(users, req.session.value.user.value.email)) ==>
      r == (Fail(404, "User not found"), users)
    ensures r.0.Fail? ==> r.1 == users
    ensures r.0.Ok? <==> (req.verb == "POST" && req.session.Some? && req.session.value.user.Some? &&
                          UpdateFieldsPresent(req) && StoredImage(req.image, upload).Some? &&
                          EmailTaken(users, req.session.value.user.value.email))
  {
    if req.verb != "POST" then (Fail(405, "Method Not Allowed"), users)
    else if req.session.None? || req.session.value.user.None? then (Fail(401, "Unauthorized: No valid session"), users)
    else if req.age.None? || req.age.value == 0 || req.education == "" || req.state == "" || req.religion == "" then
      (Fail(400, "All fields are required"), users)
    else match StoredImage(req.image, upload)
      case None => (Fail(500, "Failed to upload image"), users)
      case Some(imageUrl) =>
        var email := req.session.value.user.value.email;
        match FirstIndex(users, (u: User) => u.email == email)
        case None => (Fail(404, "User not found"), users)
        case Some(k) =>
          var updated := users[k].(age := req.age, education := req.education, state := req.state,
                                   religion := req.religion, image := imageUrl.GetOr(users[k].image));
          (Ok(200, "Profile updated successfully!", updated), users[k := updated])
  }

  /** A successful update rewrites the first user with the session's email:
      it takes the four fields and the image, or keeps its image when the
      body has none, and is answered back, and nothing else changes;
      no update ever touches an account's other fields. */
  lemma UpdateRewritesFirstMatch(users: seq<User>, req: UpdateRequest, upload: UploadOutcome)
    ensures var r := UpdateSpec(users, req, upload);
      r.0.Ok? ==>
      (r.0.status == 200 && |r.1| == |users| &&
       exists k :: (0 <= k < |users| && users[k].email == req.session.value.user.value.email &&
         (forall j :: 0 <= j < k ==> users[j].email != users[k].email) &&
         r.0.body == r.1[k] && SameAccount(users[k], r.1[k]) &&
         r.1[k].age == req.age && r.1[k].education == req.education && r.1[k].state == req.state &&
         r.1[k].religion == req.religion &&
         r.1[k].image == StoredImage(req.image, upload).value.GetOr(users[k].image) &&
         (req.image.None? ==> r.1[k].image == users[k].image) &&
         (forall j :: 0 <= j < |users| && j != k ==> r.1[j] == users[j])))
    ensures var r := UpdateSpec(users, req, upload);
      |r.1| == |users| && forall j :: 0 <= j < |users| ==> SameAccount(users[j], r.1[j])
  {
    var r := UpdateSpec(users, req, upload);
    if r.0.Ok? {
      var email := req.session.value.user.value.email;
      var k := FirstIndex(users, (u: User) => u.email == email).value;
      assert users[k].email == email;
      assert forall j :: 0 <= j < |users| && j != k ==> r.1[j] == users[j];
      assert SameAccount(users[k], r.1[k]);
    }
  }

  /** Rewriting one user's profile fields keeps ids and emails distinct. */
  lemma RewriteKeepsDistinct(users: seq<User>, k: nat, updated: User, bound: UserId)
    requires k < |users| && SameAccount(users[k], updated)
    requires IdsBelow(users, bound) && DistinctIds(users) && DistinctEmails(users)
    ensures var table := users[k := updated];
      IdsBelow(table, bound) && DistinctIds(table) && DistinctEmails(table)
  {
  }

  /** The stored user table, with the source of fresh `_id`s. */
  class UserTable {
    var users: seq<User>
    var nextId: UserId

    ghost predicate Valid()
      reads this
    {
      IdsBelow(users, nextId) && DistinctIds(users) && DistinctEmails(users)
    }

    constructor ()
      ensures Valid() && users == []
    {
      users := [];
      nextId := 0;
    }

    method Register(hash: PasswordHash, req: RegisterRequest) returns (resp: Response<PublicUser>)
      requires Valid()
      modifies this
      ensures Valid()
      ensures (resp, users) == RegisterSpec(old(users), old(nextId), hash, req)
    {
      if req.verb != "POST" {
        return Fail(405, "Method not allowed");
      }
      if req.name == "" || req.email == "" || req.password == "" || req.department == "" || req.role == "" {
        return Fail(400, "All fields are required");
      }
      if EmailTaken(users, req.email) {
        return Fail(400, "User already exists");
      }
      var hashed := hash(req.password);
      var created := User(nextId, req.name, req.email, hashed, req.role, req.department, None, "", "", "", "", "", "");
      users := users + [created];
      nextId := nextId + 1;
      resp := Ok(201, "User registered successfully", PublicUser(created.name, created.email, created.role, created.department));
    }

    method Delete(req: DeleteRequest) returns (resp: Response<()>)
      requires Valid()
      modifies this
      ensures Valid() && nextId == old(nextId)
      ensures (resp, users) == DeleteSpec(old(users), req)
    {
      if req.verb != "DELETE" {
        return Fail(405, "Method Not Allowed");
      }
      if req.session.None? {
        return Fail(401, "Unauthorized. Please log in.");
      }
      if req.userId.None? {
        return Fail(400, "User ID is required.");
      }
      if req.session.value.user.None? {
        return Fail(500, "Internal server error.");
      }
      var who := req.session.value.user.value;
      var requester := if who.id.None? then None else FindUser(users, who.id.value);
      if requester.None? || requester.value.role != "admin" {
        return Fail(403, "Access denied. Admins only.");
      }
      var target := FirstIndex(users, (u: User) => u.id == req.userId.value);
      if target.None? {
        return Fail(404, "User not found.");
      }
      var k := target.value;
      RemovalKeepsDistinct(users, k);
      users := users[..k] + users[k + 1..];
      resp := Ok(200, "User deleted successfully.", ());
    }

    method Update(req: UpdateRequest, upload: UploadOutcome) returns (resp: Response<User>)
      requires Valid()
      modifies this
      ensures Valid() && nextId == old(nextId)
      ensures (resp, users) == UpdateSpec(old(users), req, upload)
    {
      if req.verb != "POST" {
        return Fail(405, "Method Not Allowed");
      }
      if req.session.None? || req.session.value.user.None? {
        return Fail(401, "Unauthorized: No valid session");
      }
      if req.age.None? || req.age.value == 0 || req.education == "" || req.state == "" || req.religion == "" {
        return Fail(400, "All fields are required");
      }
      var imageUrl := req.image;
      // the truthiness test of `image &&` as written; "" is no data URL either
      if req.image.Some? && req.image.value != "" && "data:image" <= req.image.value {
        if upload.UploadFailed? {
          return Fail(500, "Failed to upload image");
        }
        imageUrl := Some(upload.url);
      }
      var email := req.session.value.user.value.email;
      var found := FirstIndex(users, (u: User) => u.email == email);
      if found.None? {
        return Fail(404, "User not found");
      }
      var k := found.value;
      var updated := users[k].(age := req.age, education := req.education, state := req.state,
                               religion := req.religion, image := imageUrl.GetOr(users[k].image));
      RewriteKeepsDistinct(users, k, updated, nextId);
      users := users[k := updated];
      resp := Ok(200, "Profile updated successfully!", updated);
    }
  }
}
