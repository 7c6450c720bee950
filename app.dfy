/** The application shell: deleting an upload from the local state, restoring
    the session from the stored username, and choosing the screen for a path. */
module App {
  import opened Common
  import opened Gallery
  import Text

  /** The state `handleDelete` updates. */
  datatype AppState = AppState(images: seq<Image>, userUploads: Buckets)

  /** The buckets after removing the upload `id`: every bucket filtered, and
      those left empty dropped. */
  function PurgedBuckets(buckets: Buckets, id: string): (r: Buckets)
    ensures forall u :: u in r ==> u in buckets && r[u] != [] && IsSubsequence(r[u], buckets[u])
    ensures forall u :: u in buckets && (exists i :: 0 <= i < |buckets[u]| && buckets[u][i].id != id) ==> u in r
  {
    map u | u in buckets && WithoutImage(buckets[u], id) != [] :: WithoutImage(buckets[u], id)
  }

  /** Unfolding helper: `PurgedBuckets` spelled out at one key, so that
      proofs about the purge need not expand the map comprehension. A bucket
      is kept, filtered, exactly when filtering leaves something. */
  lemma PurgedEntry(buckets: Buckets, id: string, u: string)
    ensures u in PurgedBuckets(buckets, id) <==> u in buckets && WithoutImage(buckets[u], id) != []
    ensures u in PurgedBuckets(buckets, id) ==> PurgedBuckets(buckets, id)[u] == WithoutImage(buckets[u], id)
  {
  }

  /** No bucket left holds an upload with that id, and none is empty. */
  lemma PurgeRemovesId(buckets: Buckets, id: string)
    ensures var r := PurgedBuckets(buckets, id);
      forall u :: u in r ==> |r[u]| > 0 && forall i :: 0 <= i < |r[u]| ==> r[u][i].id != id
  {
  }

  /** A non-empty bucket without that id comes through unchanged. */
  lemma PurgeKeepsUntouched(buckets: Buckets, id: string, u: string)
    requires u in buckets && buckets[u] != []
    requires forall i :: 0 <= i < |buckets[u]| ==> buckets[u][i].id != id
    ensures u in PurgedBuckets(buckets, id) && PurgedBuckets(buckets, id)[u] == buckets[u]
  {
    FilterKeepsAll((img: Image) => img.id != id, buckets[u]);
  }

  /** The `for (const user in updatedUploads)` loop: each bucket filtered in
      turn and deleted when it ends up empty. */
  method PurgeUploads(buckets: Buckets, id: string) returns (r: Buckets)
    ensures r == PurgedBuckets(buckets, id)
  {
    r := buckets;
    var todo := buckets.Keys;
    while todo != {}
      invariant todo <= buckets.Keys
      invariant forall u :: u in r <==> u in buckets && (u in todo || WithoutImage(buckets[u], id) != [])
      invariant forall u :: u in r && u in todo ==> r[u] == buckets[u]
      invariant forall u :: u in r && u !in todo ==> r[u] == WithoutImage(buckets[u], id)
      decreases |todo|
    {
      var user :| user in todo;
      var kept := WithoutImage(r[user], id);
      if |kept| == 0 {
        r := r - {user};
      } else {
        r := r[user := kept];
      }
      todo := todo - {user};
    }
    assert r.Keys == PurgedBuckets(buckets, id).Keys;
  }

  /** `handleDelete`: on an ok response the upload `id` leaves `images`
      and every bucket; otherwise nothing changes. */
  method HandleDelete(s: AppState, id: string, ok: bool) returns (r: AppState)
    ensures !ok ==> r == s
    ensures ok ==> r.images == WithoutImage(s.images, id) && r.userUploads == PurgedBuckets(s.userUploads, id)
  {
    if !ok {
      return s;
    }
    var uploads := PurgeUploads(s.userUploads, id);
    r := AppState(WithoutImage(s.images, id), uploads);
  }

  /** The signed-in user and role. */
  datatype Session = Session(userName: string, userRole: string)

  const SignedOut: Session := Session("", "normal")

  predicate IsAuthenticated(s: Session) {
    s.userName != ""
  }

  /** Session restore at start-up. `stored` is the stored username, "" when
      absent; `lookup` is the looked-up user's role ("" when it has none),
      None when the user was not found or the request failed. */
  function RestoreSession(s: Session, stored: string, lookup: Option<string>): (r: Session)
    ensures stored == "" ==> r == s
    ensures stored != "" && lookup.None? ==> r == SignedOut
    ensures stored != "" && lookup.Some? ==> (r.userName == stored
      && r.userRole == (if lookup.value == "" then "normal" else lookup.value))
  {
    if stored == "" then s
    else if lookup.None? then SignedOut
    else Session(stored, if lookup.value == "" then "normal" else lookup.value)
  }

  /** Starting signed out, the session is authenticated after the restore
      exactly when a stored username was found on the server. */
  lemma RestoreAuthenticates(stored: string, lookup: Option<string>)
    ensures IsAuthenticated(RestoreSession(SignedOut, stored, lookup)) <==> stored != "" && lookup.Some?
    ensures !IsAuthenticated(RestoreSession(SignedOut, stored, lookup)) ==> RestoreSession(SignedOut, stored, lookup) == SignedOut
  {
  }

  /** What a route renders. */
  datatype Screen =
    | HomePage
    | AboutPage
    | EditableProfile(userName: string)
    | NormalProfile(userName: string)
    | ProfileView
    | AdminPage
    | RedirectHome

  /** `/profile`: the artist's editable profile for an artist, the normal
      profile for a normal user, a redirect otherwise and when signed out. */
  function ProfileRoute(s: Session): (r: Screen)
    ensures r == EditableProfile(s.userName) <==> IsAuthenticated(s) && s.userRole == "artist"
    ensures r == NormalProfile(s.userName) <==> IsAuthenticated(s) && s.userRole == "normal"
    ensures r == RedirectHome <==> !IsAuthenticated(s) || (s.userRole != "artist" && s.userRole != "normal")
  {
    if !IsAuthenticated(s) then RedirectHome
    else if s.userRole == "artist" then EditableProfile(s.userName)
    else if s.userRole == "normal" then NormalProfile(s.userName)
    else RedirectHome
  }

  /** `/admin`: the dashboard exactly for a signed-in admin. */
  function AdminRoute(s: Session): (r: Screen)
    ensures r == AdminPage <==> IsAuthenticated(s) && s.userRole == "admin"
    ensures r != AdminPage ==> r == RedirectHome
  {
    if IsAuthenticated(s) && s.userRole == "admin" then AdminPage else RedirectHome
  }

  /** `ArtistProfileRoute`: the editable profile exactly when the signed-in
      user is the one in the URL, the read-only view otherwise. */
  function ArtistRoute(loggedInUser: string, urlUser: string): (r: Screen)
    ensures r == EditableProfile(urlUser) <==> loggedInUser == urlUser
    ensures r != EditableProfile(urlUser) ==> r == ProfileView
  {
    if loggedInUser == urlUser then EditableProfile(urlUser) else ProfileView
  }

  /** The route table, on a path split at its slashes. As in React Router,
      the static segments match ignoring case and the parameters keep theirs;
      every other path meets the catch-all redirect. */
  function Resolve(path: seq<string>, s: Session): (r: Screen)
    ensures path == [] ==> r == HomePage
    ensures |path| == 1 && Text.Lower(path[0]) == "about" ==> r == AboutPage
    ensures |path| == 1 && Text.Lower(path[0]) == "profile" ==> r == ProfileRoute(s)
    ensures |path| == 1 && Text.Lower(path[0]) == "admin" ==> r == AdminRoute(s)
    ensures |path| == 1 && Text.Lower(path[0]) !in {"about", "profile", "admin"} ==> r == RedirectHome
    ensures |path| == 2 && Text.Lower(path[0]) == "artist" ==> r == ArtistRoute(s.userName, path[1])
    ensures |path| == 2 && Text.Lower(path[0]) != "artist" ==> r == RedirectHome
    ensures |path| == 3 && Text.Lower(path[0]) == "artist" && Text.Lower(path[1]) == "view" ==> r == ProfileView
    ensures |path| == 3 && (Text.Lower(path[0]) != "artist" || Text.Lower(path[1]) != "view") ==> r == RedirectHome
    ensures |path| > 3 ==> r == RedirectHome
    ensures r.AdminPage? ==> |path| == 1 && Text.Lower(path[0]) == "admin" && IsAuthenticated(s) && s.userRole == "admin"
  {
    if path == [] then HomePage
    else if |path| == 1 then
      var segment := Text.Lower(path[0]);
      if segment == "about" then AboutPage
      else if segment == "profile" then ProfileRoute(s)
      else if segment == "admin" then AdminRoute(s)
      else RedirectHome
    else if |path| == 2 && Text.Lower(path[0]) == "artist" then ArtistRoute(s.userName, path[1])
    else if |path| == 3 && Text.Lower(path[0]) == "artist" && Text.Lower(path[1]) == "view" then ProfileView
    else RedirectHome
  }

  /** Static segments ignore case: `/Admin` is the admin route. */
  lemma AdminPathIgnoresCase(s: Session)
    ensures Resolve(["Admin"], s) == AdminRoute(s)
  {
    var lowered := Text.Lower("Admin");
    assert lowered[0] == 'a' && lowered[1..] == "dmin";
    assert lowered == "admin";
  }

  /** The path string of a non-root path: each segment preceded by a slash. */
  function Href(path: seq<string>): string {
    if path == [] then "" else "/" + path[0] + Href(path[1..])
  }

  /** Unfolding helper: `Href` of a two-segment path. */
  lemma HrefTwo(a: string, b: string)
    ensures Href([a, b]) == "/" + a + "/" + b
  {
    assert [b][1..] == [];
    assert Href([b]) == "/" + b + Href([]) == "/" + b;
    assert [a, b][1..] == [b];
  }

  /** Unfolding helper: `Href` of a three-segment path. */
  lemma HrefThree(a: string, b: string, c: string)
    ensures Href([a, b, c]) == "/" + a + "/" + b + "/" + c
  {
    assert [a, b, c][1..] == [b, c];
    HrefTwo(b, c);
  }
}
