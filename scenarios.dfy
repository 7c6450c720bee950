/** Request sequences against a fresh store, each with the replies the
    handlers give. */
module Scenarios {
  import opened Common
  import opened Server

  function Req(username: string, password: string, role: Option<string>): Registration {
    Registration(username, Some(username + "@example.com"), password, role, [])
  }

  /** The same username cannot register twice, whatever the second password. */
  method RegisterTwice() returns (first: Reply<PublicUser>, second: Reply<PublicUser>)
    ensures first.Ok? && first.status == 201 && first.body.role == "normal" && first.body.approved
    ensures second == Err(DuplicateUsername) && Status(second.error) == 400
  {
    var store := new Store();
    first := store.Register(Req("dana", "secret1", None));
    second := store.Register(Req("dana", "other-secret", Some("artist")));
  }

  /** Login compares the stored password verbatim. */
  method LoginAfterRegister() returns (good: Reply<PublicUser>, bad: Reply<PublicUser>)
    ensures good.Ok? && good.body.username == "erin"
    ensures bad == Err(InvalidCredentials) && Status(bad.error) == 401
  {
    var store := new Store();
    var reg := store.Register(Req("erin", "pa55word", None));
    good := store.Login("erin", "pa55word");
    assert store.users == map[reg.body.id := NewUser(reg.body.id, Req("erin", "pa55word", None))];
    assert "pa55word"[0] != "Pa55word"[0];
    bad := store.Login("erin", "Pa55word");
  }

  /** An artist starts unapproved, and a normal user cannot approve them (403). */
  method NonAdminCannotApprove() returns (before: bool, denied: Reply<PublicUser>)
    ensures !before
    ensures denied == Err(AdminRequired) && Status(denied.error) == 403
  {
    var store := new Store();
    var normal := store.Register(Req("gus", "guspass", None));
    var artist := store.Register(Req("fay", "faypass", Some("artist")));
    before := artist.body.approved;
    denied := store.Approve(artist.body.id, Some(true), Some(normal.body.id), false);
  }

  /** An admin's approval succeeds, marks the artist approved, and makes
      exactly one e-mail attempt even when delivery fails. */
  method AdminApproves() returns (granted: Reply<PublicUser>, ghost attempts: nat)
    ensures granted.Ok? && granted.body.username == "fay" && granted.body.approved
    ensures attempts == 1
  {
    var store := new Store();
    var admin := store.Register(Req("root", "rootpass", Some("admin")));
    var artist := store.Register(Req("fay", "faypass", Some("artist")));
    granted := store.Approve(artist.body.id, Some(true), Some(admin.body.id), true);
    attempts := |store.notifications|;
  }

  /** An admin's delete of a registered user succeeds and the reply carries
      that user. */
  method AdminDeletesUser() returns (deleted: Reply<PublicUser>)
    ensures deleted.Ok? && deleted.status == 200 && deleted.body.username == "kim"
  {
    var store := new Store();
    var admin := store.Register(Req("root", "rootpass", Some("admin")));
    assert store.users == map[admin.body.id := NewUser(admin.body.id, Req("root", "rootpass", Some("admin")))];
    var user := store.Register(Req("kim", "kimpass", None));
    deleted := store.DeleteUser(user.body.id, Some(admin.body.id));
  }

  /** Once an admin exists, a delete request without `adminId` succeeds
      whoever sends it: the admin check as written lets it through. */
  method DeleteWithoutAdminId() returns (deleted: Reply<PublicUser>)
    ensures deleted.Ok? && deleted.status == 200 && deleted.body.username == "kim"
  {
    var store := new Store();
    var admin := store.Register(Req("root", "rootpass", Some("admin")));
    assert store.users == map[admin.body.id := NewUser(admin.body.id, Req("root", "rootpass", Some("admin")))];
    var user := store.Register(Req("kim", "kimpass", None));
    assert IsAdmin(store.users, admin.body.id);
    deleted := store.DeleteUser(user.body.id, None);
  }

  /** A user who likes an upload twice leaves it with no likes. */
  method LikeTwice() returns (once: Reply<Upload>, twice: Reply<Upload>)
    ensures once.Ok? && once.body.likedBy == ["carol"] && once.body.likeCount == 1
    ensures twice.Ok? && twice.body.likedBy == [] && twice.body.likeCount == 0
  {
    var store := new Store();
    var created := store.CreateUpload(UploadRequest(Some("1700000000000.jpg"), "Dunes", "nature", None, None, "hal"));
    once := store.Like(created.body.id, "carol");
    twice := store.Like(created.body.id, "carol");
  }

  /** Downloads count up by one per request; a missing upload is a 404. */
  method DownloadThenDelete() returns (download: Reply<Upload>, deleted: Reply<()>, missing: Reply<Upload>)
    ensures download.Ok? && download.body.downloads == 1
    ensures deleted == Ok(200, ())
    ensures missing == Err(UploadNotFound) && Status(missing.error) == 404
  {
    var store := new Store();
    var created := store.CreateUpload(UploadRequest(Some("1700000000001.png"), "Harbor", "city", None, None, "ivy"));
    download := store.Download(created.body.id);
    deleted := store.DeleteUpload(created.body.id);
    missing := store.Download(created.body.id);
  }
}
