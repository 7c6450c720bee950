/** The route handlers of the backend over its two collections, `User` and
    `Upload`, held as in-memory keyed stores. Each handler reads a record,
    checks the request, and writes the record back; the checks and the
    order in which they fail are those of the handlers. E-mail delivery is
    an abstract sink whose attempts are recorded in a ghost log. */
module Server {
  import opened Common

  /** Record ids. The database assigns them; here a counter in the store does. */
  type Id = nat

  datatype PortfolioEntry = PortfolioEntry(filename: string, path: string)

  datatype User = User(
    id: Id,
    username: string,
    email: string,
    password: string,
    role: string,
    approved: bool,
    likedImages: seq<string>,
    portfolio: seq<PortfolioEntry>)

  /** A user record as the handlers return it: everything but the password. */
  datatype PublicUser = PublicUser(
    id: Id,
    username: string,
    email: string,
    role: string,
    approved: bool,
    likedImages: seq<string>,
    portfolio: seq<PortfolioEntry>)

  datatype Upload = Upload(
    id: Id,
    name: string,
    category: string,
    description: Option<string>,
    src: string,
    uploader: string,
    likeCount: int,
    downloads: int,
    website: Option<string>,
    likedBy: seq<string>)

  /** The failures the handlers report, each with its HTTP status. */
  datatype Error =
    | MissingCredentials   // "Username and password are required"
    | DuplicateUsername    // "Username already exists"
    | InvalidCredentials   // "Invalid credentials"
    | UserNotFound         // "User not found"
    | MissingApproval      // "Approved status is required"
    | AdminRequired        // "Admin access required"
    | NotAnArtist          // "Only artist accounts can be approved/rejected"
    | MissingUploadFields  // "Missing required fields"
    | UploadNotFound       // "Upload not found"

  function Status(e: Error): int {
    match e
    case MissingCredentials => 400
    case DuplicateUsername => 400
    case InvalidCredentials => 401
    case UserNotFound => 404
    case MissingApproval => 400
    case AdminRequired => 403
    case NotAnArtist => 400
    case MissingUploadFields => 400
    case UploadNotFound => 404
  }

  /** A handler's answer: a success status with its body, or a failure. */
  datatype Reply<T> = Ok(status: int, body: T) | Err(error: Error)

  /** The multipart body of `POST /users`: a missing `username` or `password`
      is the empty string; `files` are the names the upload middleware gave
      the stored portfolio files, in order. */
  datatype Registration = Registration(
    username: string,
    email: Option<string>,
    password: string,
    role: Option<string>,
    files: seq<string>)

  /** The multipart body of `POST /uploads`; `file` is the stored file name. */
  datatype UploadRequest = UploadRequest(
    file: Option<string>,
    name: string,
    category: string,
    description: Option<string>,
    website: Option<string>,
    uploader: string)

  /** One attempt to e-mail an approval decision; `delivered` is false when
      the transport failed (the failure is logged and swallowed). */
  datatype Notice = Notice(to: string, username: string, approved: bool, delivered: bool)

  function WithoutPassword(u: User): PublicUser {
    PublicUser(u.id, u.username, u.email, u.role, u.approved, u.likedImages, u.portfolio)
  }

  /** The role stored for a registration: `"normal"` when none was sent. */
  function RoleOf(req: Registration): string {
    req.role.GetOr("normal")
  }

  /** Portfolio entries for the stored files, in file order. */
  function Portfolio(files: seq<string>): (p: seq<PortfolioEntry>)
    ensures |p| == |files|
    ensures forall i :: 0 <= i < |files| ==> p[i] == PortfolioEntry(files[i], "/uploads/" + files[i])
  {
    if files == [] then [] else [PortfolioEntry(files[0], "/uploads/" + files[0])] + Portfolio(files[1..])
  }

  /** The record a successful registration stores, with the schema defaults. */
  function NewUser(id: Id, req: Registration): (u: User)
    ensures u.id == id && u.username == req.username && u.password == req.password
    ensures u.role == (if req.role.Some? then req.role.value else "normal")
    ensures u.approved <==> u.role != "artist"
    ensures u.email == (if req.email.Some? then req.email.value else "")
    ensures u.likedImages == [] && u.portfolio == Portfolio(req.files)
  {
    User(id, req.username, req.email.GetOr(""), req.password, RoleOf(req),
         RoleOf(req) != "artist", [], Portfolio(req.files))
  }

  /** The record a successful upload stores: counters at zero, nobody liking it. */
  function NewUpload(id: Id, req: UploadRequest): (u: Upload)
    requires req.file.Some?
    ensures Consistent(u) && u.likeCount == 0 && u.downloads == 0 && u.likedBy == []
    ensures u.src == "/uploads/" + req.file.value
  {
    Upload(id, req.name, req.category, req.description, "/uploads/" + req.file.value,
           req.uploader, 0, 0, req.website, [])
  }

  predicate UsernameTaken(users: map<Id, User>, username: string) {
    exists id :: id in users && users[id].username == username
  }

  predicate UniqueUsernames(users: map<Id, User>) {
    forall a, b :: a in users && b in users && users[a].username == users[b].username ==> a == b
  }

  predicate IsAdmin(users: map<Id, User>, id: Id) {
    id in users && users[id].role == "admin"
  }

  /** Some stored user is an admin. */
  predicate HasAdmin(users: map<Id, User>) {
    exists a :: a in users && users[a].role == "admin"
  }

  /** The admin check of approval and user deletion as written:
      `User.findOne({ _id: adminId, role: "admin" })`. `adminId` is None when
      the request body has no such field; Mongoose drops a filter key whose
      value is `undefined`, so the query then asks only for some admin. A
      JSON `null` matches no user and is an id that is not in `users`. */
  predicate AdminGate(users: map<Id, User>, adminId: Option<Id>) {
    match adminId
    case None => HasAdmin(users)
    case Some(a) => IsAdmin(users, a)
  }

  /** The admin check the handlers evidently intend: the request names an
      admin. */
  predicate StrictAdminGate(users: map<Id, User>, adminId: Option<Id>) {
    adminId.Some? && IsAdmin(users, adminId.value)
  }

  /** The gate as written lets a request without `adminId` through exactly
      when some admin exists, whoever sends it. */
  lemma MissingAdminIdBypass(users: map<Id, User>, a: Id)
    requires IsAdmin(users, a)
    ensures AdminGate(users, None) && !StrictAdminGate(users, None)
  {
  }

  /** The intended gate refuses a missing id, agrees with the written one on
      every id that is given, and so never admits more. */
  lemma StrictAdminGateRefines(users: map<Id, User>, adminId: Option<Id>)
    ensures !StrictAdminGate(users, None)
    ensures adminId.Some? ==> (StrictAdminGate(users, adminId) <==> AdminGate(users, adminId))
    ensures StrictAdminGate(users, adminId) ==> AdminGate(users, adminId)
  {
  }

  /** The like invariant: the counter is the number of likers, each listed once. */
  predicate Consistent(u: Upload) {
    u.likeCount == |u.likedBy| && NoDuplicates(u.likedBy) && u.downloads >= 0
  }

  /** The like toggle of `PUT /uploads/:id/like`: a liker is removed and the
      counter decremented; anyone else is appended and the counter incremented. */
  function ToggleLike(u: Upload, userName: string): (r: Upload)
    ensures userName in r.likedBy <==> userName !in u.likedBy
    ensures forall v :: v != userName ==> (v in r.likedBy <==> v in u.likedBy)
    ensures r.likeCount == if userName in u.likedBy then u.likeCount - 1 else u.likeCount + 1
    ensures r.(likedBy := u.likedBy, likeCount := u.likeCount) == u
  {
    if userName in u.likedBy then
      u.(likedBy := RemoveAll(u.likedBy, userName), likeCount := u.likeCount - 1)
    else
      u.(likedBy := u.likedBy + [userName], likeCount := u.likeCount + 1)
  }

  /** A toggle keeps the counter equal to the number of likers and the likers distinct. */
  lemma ToggleLikeKeepsConsistent(u: Upload, userName: string)
    requires Consistent(u)
    ensures Consistent(ToggleLike(u, userName))
  {
    if userName in u.likedBy {
      RemoveAllOnce(u.likedBy, userName);
    } else {
      AppendFresh(u.likedBy, userName);
    }
  }

  /** Two toggles by the same user give back the same likers and the same
      count; when the user had not liked the upload, the very same record. */
  lemma ToggleLikeTwice(u: Upload, userName: string)
    ensures var w := ToggleLike(ToggleLike(u, userName), userName);
      w.likeCount == u.likeCount && (forall v :: v in w.likedBy <==> v in u.likedBy)
    ensures userName !in u.likedBy ==> ToggleLike(ToggleLike(u, userName), userName) == u
  {
    var once := ToggleLike(u, userName);
    if userName !in u.likedBy {
      assert once.likedBy == u.likedBy + [userName];
      RemoveAllAppended(u.likedBy, userName);
    } else {
      assert userName !in once.likedBy;
    }
  }

  /** Toggles by the given users, one after another. */
  function ToggleLikeAll(u: Upload, names: seq<string>): Upload
    decreases |names|
  {
    if names == [] then u else ToggleLikeAll(ToggleLike(u, names[0]), names[1..])
  }

  /** Toggles by N distinct users who had not liked the upload leave it liked
      by exactly those users, in order, with the count raised by N. */
  lemma {:induction false} ToggleLikeDistinct(u: Upload, names: seq<string>)
    requires NoDuplicates(names)
    requires forall v :: v in names ==> v !in u.likedBy
    ensures ToggleLikeAll(u, names).likedBy == u.likedBy + names
    ensures ToggleLikeAll(u, names).likeCount == u.likeCount + |names|
    decreases |names|
  {
    if names != [] {
      var next := ToggleLike(u, names[0]);
      assert next.likedBy == u.likedBy + [names[0]];
      assert forall v :: v in names[1..] ==> v != names[0] && v !in u.likedBy;
      ToggleLikeDistinct(next, names[1..]);
      assert u.likedBy + [names[0]] + names[1..] == u.likedBy + names;
    }
  }

  /** The two collections, the id counter, and the log of e-mail attempts. */
  class Store {
    var users: map<Id, User>
    var uploads: map<Id, Upload>
    var nextId: Id
    ghost var notifications: seq<Notice>

    /** Records sit under their own ids, below the counter; usernames are
        unique (the schema's `unique: true`); every upload keeps its like
        invariant. */
    ghost predicate Valid()
      reads this
    {
      && (forall id :: id in users ==> users[id].id == id && id < nextId)
      && (forall id :: id in uploads ==> uploads[id].id == id && id < nextId && Consistent(uploads[id]))
      && UniqueUsernames(users)
    }

    constructor ()
      ensures Valid()
      ensures users == map[] && uploads == map[] && notifications == []
    {
      users, uploads, nextId := map[], map[], 0;
      notifications := [];
    }

    /** `POST /users`. Missing username or password (400), then a taken
        username (400); otherwise the new user is stored under a fresh id. */
    method Register(req: Registration) returns (r: Reply<PublicUser>)
      requires Valid()
      modifies this
      ensures Valid()
      ensures uploads == old(uploads) && notifications == old(notifications)
      ensures req.username == "" || req.password == "" ==> r == Err(MissingCredentials)
      ensures req.username != "" && req.password != "" && UsernameTaken(old(users), req.username)
        ==> r == Err(DuplicateUsername)
      ensures r.Err? ==> users == old(users)
      ensures r.Ok? <==> req.username != "" && req.password != "" && !UsernameTaken(old(users), req.username)
      ensures r.Ok? ==> (old(nextId) !in old(users)
        && users == old(users)[old(nextId) := NewUser(old(nextId), req)]
        && r == Ok(201, WithoutPassword(NewUser(old(nextId), req))))
    {
      if req.username == "" || req.password == "" {
        return Err(MissingCredentials);
      }
      if UsernameTaken(users, req.username) {
        return Err(DuplicateUsername);
      }
      var u := NewUser(nextId, req);
      users := users[nextId := u];
      nextId := nextId + 1;
      r := Ok(201, WithoutPassword(u));
    }

    /** `POST /users/login`: succeeds exactly when a stored user has both the
        given username and the given password, compared verbatim. */
    method Login(username: string, password: string) returns (r: Reply<PublicUser>)
      requires Valid()
      ensures username == "" || password == "" ==> r == Err(MissingCredentials)
      ensures username != "" && password != "" ==>
        (r.Ok? <==> exists id :: id in users && users[id].username == username && users[id].password == password)
      ensures username != "" && password != "" && r.Err? ==> r == Err(InvalidCredentials)
      ensures r.Ok? ==> (r.status == 200 && r.body.id in users
        && users[r.body.id].username == username && users[r.body.id].password == password
        && r.body == WithoutPassword(users[r.body.id]))
    {
      if username == "" || password == "" {
        return Err(MissingCredentials);
      }
      if id :| id in users && users[id].username == username && users[id].password == password {
        r := Ok(200, WithoutPassword(users[id]));
      } else {
        r := Err(InvalidCredentials);
      }
    }

    /** `GET /users/username/:username`, the password left out. */
    method FindByUsername(username: string) returns (r: Reply<PublicUser>)
      requires Valid()
      ensures r.Ok? <==> UsernameTaken(users, username)
      ensures r.Err? ==> r.error == UserNotFound
      ensures r.Ok? ==> (r.status == 200 && r.body.id in users && users[r.body.id].username == username
        && r.body == WithoutPassword(users[r.body.id]))
    {
      if id :| id in users && users[id].username == username {
        r := Ok(200, WithoutPassword(users[id]));
      } else {
        r := Err(UserNotFound);
      }
    }

    /** `PUT /users/:id`: replaces `likedImages` when a list is sent. */
    method UpdateLikedImages(id: Id, likedImages: Option<seq<string>>) returns (r: Reply<PublicUser>)
      requires Valid()
      modifies this
      ensures Valid()
      ensures uploads == old(uploads) && nextId == old(nextId) && notifications == old(notifications)
      ensures id !in old(users) ==> r == Err(UserNotFound) && users == old(users)
      ensures id in old(users) ==>
        users == old(users)[id := if likedImages.Some? then old(users)[id].(likedImages := likedImages.value) else old(users)[id]]
        && r == Ok(200, WithoutPassword(users[id]))
    {
      if id !in users {
        return Err(UserNotFound);
      }
      var u := users[id];
      if likedImages.Some? {
        u := u.(likedImages := likedImages.value);
      }
      users := users[id := u];
      r := Ok(200, WithoutPassword(u));
    }

    /** `PUT /users/:id/approve`. The first failing check wins and changes
        nothing: no decision (400), the admin check `AdminGate` (403), target
        missing (404), target not an artist (400). On success only the
        target's `approved` changes and exactly one e-mail attempt is made;
        whether it is delivered does not affect the reply. */
    method Approve(id: Id, approved: Option<bool>, adminId: Option<Id>, mailFails: bool) returns (r: Reply<PublicUser>)
      requires Valid()
      modifies this
      ensures Valid()
      ensures uploads == old(uploads) && nextId == old(nextId)
      ensures approved.None? ==> r == Err(MissingApproval)
      ensures approved.Some? && !AdminGate(old(users), adminId) ==> r == Err(AdminRequired)
      ensures approved.Some? && AdminGate(old(users), adminId) && id !in old(users) ==> r == Err(UserNotFound)
      ensures approved.Some? && AdminGate(old(users), adminId) && id in old(users) && old(users)[id].role != "artist"
        ==> r == Err(NotAnArtist)
      ensures r.Err? ==> users == old(users) && notifications == old(notifications)
      ensures r.Ok? <==> approved.Some? && AdminGate(old(users), adminId) && id in old(users) && old(users)[id].role == "artist"
      ensures adminId.None? ==>
        (r.Ok? <==> approved.Some? && HasAdmin(old(users)) && id in old(users) && old(users)[id].role == "artist")
      ensures r.Ok? ==> (approved.Some? && AdminGate(old(users), adminId) && id in old(users) && old(users)[id].role == "artist"
        && users == old(users)[id := old(users)[id].(approved := approved.value)]
        && r == Ok(200, WithoutPassword(users[id]))
        && notifications == old(notifications) + [Notice(users[id].email, users[id].username, approved.value, !mailFails)])
    {
      if approved.None? {
        return Err(MissingApproval);
      }
      if !AdminGate(users, adminId) {
        return Err(AdminRequired);
      }
      if id !in users {
        return Err(UserNotFound);
      }
      var user := users[id];
      if user.role != "artist" {
        return Err(NotAnArtist);
      }
      user := user.(approved := approved.value);
      users := users[id := user];
      SendNotification(user.email, user.username, approved.value, mailFails);
      r := Ok(200, WithoutPassword(user));
    }

    /** `sendEmailNotification`: one attempt, its failure caught. */
    method SendNotification(to: string, username: string, approved: bool, fails: bool)
      modifies this`notifications
      ensures notifications == old(notifications) + [Notice(to, username, approved, !fails)]
    {
      notifications := notifications + [Notice(to, username, approved, !fails)];
    }

    /** `DELETE /users/:id`: the admin check `AdminGate` (403), then an existing target (404);
        only the target is removed. An admin may delete itself. */
    method DeleteUser(id: Id, adminId: Option<Id>) returns (r: Reply<PublicUser>)
      requires Valid()
      modifies this
      ensures Valid()
      ensures uploads == old(uploads) && nextId == old(nextId) && notifications == old(notifications)
      ensures !AdminGate(old(users), adminId) ==> r == Err(AdminRequired)
      ensures AdminGate(old(users), adminId) && id !in old(users) ==> r == Err(UserNotFound)
      ensures r.Err? ==> users == old(users)
      ensures r.Ok? <==> AdminGate(old(users), adminId) && id in old(users)
      ensures adminId.None? ==> (r.Ok? <==> HasAdmin(old(users)) && id in old(users))
      ensures r.Ok? ==> users == old(users) - {id} && r == Ok(200, WithoutPassword(old(users)[id]))
    {
      if !AdminGate(users, adminId) {
        return Err(AdminRequired);
      }
      if id !in users {
        return Err(UserNotFound);
      }
      r := Ok(200, WithoutPassword(users[id]));
      users := users - {id};
    }

    /** `POST /uploads`: the file, name, category and uploader are required
        (400); the new upload starts with no likes and no downloads. */
    method CreateUpload(req: UploadRequest) returns (r: Reply<Upload>)
      requires Valid()
      modifies this
      ensures Valid()
      ensures users == old(users) && notifications == old(notifications)
      ensures r.Ok? <==> req.file.Some? && req.name != "" && req.category != "" && req.uploader != ""
      ensures r.Err? ==> r.error == MissingUploadFields && uploads == old(uploads)
      ensures r.Ok? ==> (req.file.Some? && old(nextId) !in old(uploads)
        && uploads == old(uploads)[old(nextId) := NewUpload(old(nextId), req)]
        && r == Ok(201, NewUpload(old(nextId), req)))
    {
      if req.file.None? || req.name == "" || req.category == "" || req.uploader == "" {
        return Err(MissingUploadFields);
      }
      var u := NewUpload(nextId, req);
      uploads := uploads[nextId := u];
      nextId := nextId + 1;
      r := Ok(201, u);
    }

    /** `PUT /uploads/:id/like`: 404 for a missing upload, otherwise the toggle. */
    method Like(id: Id, userName: string) returns (r: Reply<Upload>)
      requires Valid()
      modifies this
      ensures Valid()
      ensures users == old(users) && nextId == old(nextId) && notifications == old(notifications)
      ensures id !in old(uploads) ==> r == Err(UploadNotFound) && uploads == old(uploads)
      ensures id in old(uploads) ==>
        uploads == old(uploads)[id := ToggleLike(old(uploads)[id], userName)] && r == Ok(200, uploads[id])
    {
      if id !in uploads {
        return Err(UploadNotFound);
      }
      ToggleLikeKeepsConsistent(uploads[id], userName);
      var u := ToggleLike(uploads[id], userName);
      uploads := uploads[id := u];
      r := Ok(200, u);
    }

    /** `PUT /uploads/:id/download`: 404 for a missing upload, otherwise one
        more download and nothing else changed. */
    method Download(id: Id) returns (r: Reply<Upload>)
      requires Valid()
      modifies this
      ensures Valid()
      ensures users == old(users) && nextId == old(nextId) && notifications == old(notifications)
      ensures id !in old(uploads) ==> r == Err(UploadNotFound) && uploads == old(uploads)
      ensures id in old(uploads) ==>
        uploads == old(uploads)[id := old(uploads)[id].(downloads := old(uploads)[id].downloads + 1)]
        && r == Ok(200, uploads[id])
    {
      if id !in uploads {
        return Err(UploadNotFound);
      }
      var u := uploads[id].(downloads := uploads[id].downloads + 1);
      uploads := uploads[id := u];
      r := Ok(200, u);
    }

    /** `DELETE /uploads/:id`: 404 for a missing upload, otherwise only it is removed. */
    method DeleteUpload(id: Id) returns (r: Reply<()>)
      requires Valid()
      modifies this
      ensures Valid()
      ensures users == old(users) && nextId == old(nextId) && notifications == old(notifications)
      ensures id !in old(uploads) ==> r == Err(UploadNotFound) && uploads == old(uploads)
      ensures id in old(uploads) ==> uploads == old(uploads) - {id} && r == Ok(200, ())
    {
      if id !in uploads {
        return Err(UploadNotFound);
      }
      uploads := uploads - {id};
      r := Ok(200, ());
    }
  }
}
