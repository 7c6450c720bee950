/** The artist's own profile page: the images shown, deleting one of them,
    and where the "View Profile" button leads. */
module ArtistProfile {
  import opened Common
  import opened Gallery
  import App
  import Text

  /** The profile being viewed: the URL's user, else the signed-in one. */
  function ProfileUser(urlUserName: string, propUserName: string): (u: string)
    ensures urlUserName != "" ==> u == urlUserName
    ensures urlUserName == "" ==> u == propUserName
  {
    if urlUserName != "" then urlUserName else propUserName
  }

  /** `handleDeleteImage`: the image leaves `images`; the viewed user's
      bucket, when there is one, is filtered and dropped if it empties. */
  function HandleDeleteImage(s: App.AppState, userName: string, imageId: string): (r: App.AppState)
    ensures r.images == WithoutImage(s.images, imageId)
    ensures userName !in s.userUploads ==> r.userUploads == s.userUploads
    ensures userName in s.userUploads ==> r.userUploads == PruneBucket(s.userUploads, userName, imageId)
  {
    App.AppState(WithoutImage(s.images, imageId),
                 if userName in s.userUploads then PruneBucket(s.userUploads, userName, imageId) else s.userUploads)
  }

  /** When only the viewed user's bucket can hold the image and no bucket is
      empty, deleting from the profile leaves the buckets exactly as the
      application-wide delete does. */
  lemma DeleteImageAgreesWithApp(s: App.AppState, userName: string, imageId: string)
    requires forall u :: u in s.userUploads ==> s.userUploads[u] != []
    requires forall u :: u in s.userUploads && u != userName ==>
      forall i :: 0 <= i < |s.userUploads[u]| ==> s.userUploads[u][i].id != imageId
    ensures HandleDeleteImage(s, userName, imageId).userUploads == App.PurgedBuckets(s.userUploads, imageId)
  {
    var buckets := s.userUploads;
    var r := HandleDeleteImage(s, userName, imageId).userUploads;
    var purged := App.PurgedBuckets(buckets, imageId);
    forall u
      ensures u in r <==> u in purged
      ensures u in r ==> r[u] == purged[u]
    {
      if u in buckets {
        DeletedBucket(s, userName, imageId, u);
      }
    }
    MapsEqual(r, purged);
  }

  /** One bucket of `DeleteImageAgreesWithApp`. */
  lemma DeletedBucket(s: App.AppState, userName: string, imageId: string, u: string)
    requires u in s.userUploads && s.userUploads[u] != []
    requires u != userName ==> forall i :: 0 <= i < |s.userUploads[u]| ==> s.userUploads[u][i].id != imageId
    ensures var r := HandleDeleteImage(s, userName, imageId).userUploads;
      (u in r <==> u in App.PurgedBuckets(s.userUploads, imageId))
      && (u in r ==> r[u] == App.PurgedBuckets(s.userUploads, imageId)[u])
  {
    App.PurgedEntry(s.userUploads, imageId, u);
    if u != userName {
      WithoutAbsentImage(s.userUploads[u], imageId);
    }
  }

  /** The "View Profile" destination as written: `/profile/<user>` for the
      owner, `/artist/view/<user>` for anyone else. */
  function ProfileDestinationAsWritten(loggedInUser: string, userName: string): (path: seq<string>)
    ensures loggedInUser == userName ==> App.Href(path) == "/profile/" + userName
    ensures loggedInUser != userName ==> App.Href(path) == "/artist/view/" + userName
  {
    if loggedInUser == userName then App.HrefTwo("profile", userName); ["profile", userName]
    else App.HrefThree("artist", "view", userName); ["artist", "view", userName]
  }

  /** No route matches `/profile/<user>`: the owner's button sends every
      session to the catch-all redirect home. */
  lemma OwnerLinkRedirectsHome(userName: string, s: App.Session)
    ensures App.Resolve(ProfileDestinationAsWritten(userName, userName), s) == App.RedirectHome
  {
    assert Text.Lower("profile")[0] == 'p';
  }

  /** The destination the button evidently means: the owner's own profile
      route `/artist/<user>`, the read-only view for anyone else. */
  function ProfileDestination(loggedInUser: string, userName: string): (path: seq<string>)
    ensures loggedInUser == userName ==> App.Href(path) == "/artist/" + userName
    ensures loggedInUser != userName ==> path == ProfileDestinationAsWritten(loggedInUser, userName)
  {
    if loggedInUser == userName then App.HrefTwo("artist", userName); ["artist", userName]
    else ["artist", "view", userName]
  }

  /** For the signed-in owner the corrected destination opens the editable
      profile; for anyone else it opens the read-only view. */
  lemma DestinationReachesProfile(loggedInUser: string, userName: string, s: App.Session)
    requires s.userName == loggedInUser
    ensures loggedInUser == userName ==> App.Resolve(ProfileDestination(loggedInUser, userName), s) == App.EditableProfile(userName)
    ensures loggedInUser != userName ==> App.Resolve(ProfileDestination(loggedInUser, userName), s) == App.ProfileView
  {
    Text.LowerOfLowerCase("artist");
    Text.LowerOfLowerCase("view");
  }
}
