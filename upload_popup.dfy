/** The upload popup: the checks before an upload, the request body, the
    image built from the server's answer, and where that image is added. */
module UploadPopup {
  import opened Common
  import opened Gallery
  import App

  const ServerUrl := "http://localhost:4000"

  /** The popup's form state; a `File` is present once one was chosen. */
  datatype Form = Form(
    title: string,
    category: string,
    description: string,
    file: Option<File>,
    website: string,
    isLoading: bool,
    errorMessage: string)

  /** What `handleUpload` does before awaiting the server. */
  datatype Attempt = Refused(form: Form) | Sent(form: Form, body: FormData)

  /** The `uploader` the request names: the stored username, or `"Unknown"`. */
  function Uploader(storedUser: string): (u: string)
    ensures u != ""
    ensures storedUser != "" ==> u == storedUser
  {
    if storedUser != "" then storedUser else "Unknown"
  }

  /** `handleUpload` up to the request. A missing file, title or category,
      and then a missing `setUserUploads`, each leave an error and send
      nothing. Otherwise the five fields are sent, and `website` only when
      it is not empty. */
  function HandleUpload(f: Form, hasSetter: bool, storedUser: string): (r: Attempt)
    ensures f.file.None? || f.title == "" || f.category == "" ==>
      r == Refused(f.(errorMessage := "Please fill in all required fields and select an image."))
    ensures f.file.Some? && f.title != "" && f.category != "" && !hasSetter ==>
      r == Refused(f.(errorMessage := "Internal error: Unable to update uploads. Contact support."))
    ensures r.Sent? <==> f.file.Some? && f.title != "" && f.category != "" && hasSetter
    ensures r.Sent? ==> (r.form == f.(isLoading := true, errorMessage := "")
      && |r.body| == (if f.website == "" then 5 else 6)
      && r.body[0] == ("file", Blob(f.file.value))
      && r.body[1] == ("name", Field(f.title))
      && r.body[2] == ("category", Field(f.category))
      && r.body[3] == ("description", Field(f.description))
      && r.body[4] == ("uploader", Field(Uploader(storedUser)))
      && (f.website != "" ==> r.body[5] == ("website", Field(f.website))))
  {
    if f.file.None? || f.title == "" || f.category == "" then
      Refused(f.(errorMessage := "Please fill in all required fields and select an image."))
    else if !hasSetter then
      Refused(f.(errorMessage := "Internal error: Unable to update uploads. Contact support."))
    else
      var body := [("file", Blob(f.file.value)), ("name", Field(f.title)), ("category", Field(f.category)),
                   ("description", Field(f.description)), ("uploader", Field(Uploader(storedUser)))];
      Sent(f.(isLoading := true, errorMessage := ""),
           if f.website != "" then body + [("website", Field(f.website))] else body)
  }

  /** The uploaded record in the server's answer; fields it may omit are
      optional, and `""` stands for an empty string. */
  datatype Uploaded = Uploaded(
    id: string,
    name: Option<string>,
    category: Option<string>,
    description: Option<string>,
    src: string,
    uploader: string,
    likeCount: Option<int>,
    downloads: Option<int>,
    website: Option<string>,
    uploadedAt: Option<string>,
    likedBy: Option<seq<string>>)

  /** `newImage`: counts default to 0, `likedBy` to `[]`, an empty or missing
      website to none, an empty or missing time to `now`, and `src` is made
      absolute. */
  function NewImage(data: Uploaded, now: string): (img: Image)
    ensures img.id == data.id && img.name == data.name && img.category == data.category
    ensures img.description == data.description && img.uploader == data.uploader
    ensures img.src == ServerUrl + data.src
    ensures img.likeCount == Some(OrZero(data.likeCount)) && img.downloads == Some(OrZero(data.downloads))
    ensures img.likedBy == (if data.likedBy.Some? then data.likedBy.value else [])
    ensures img.website.Some? <==> data.website.Some? && data.website.value != ""
    ensures img.website.Some? ==> img.website == data.website
    ensures img.uploadedAt == (if data.uploadedAt.Some? && data.uploadedAt.value != "" then data.uploadedAt.value else now)
  {
    Image(data.id, data.name, data.category, data.description, ServerUrl + data.src, data.uploader,
          Some(OrZero(data.likeCount)), Some(OrZero(data.downloads)),
          if data.website.Some? && data.website.value != "" then data.website else None,
          if data.uploadedAt.Some? && data.uploadedAt.value != "" then data.uploadedAt.value else now,
          if data.likedBy.Some? then data.likedBy.value else [])
  }

  /** The page state after a successful upload: the image at the end of
      `images`, and at the end of the stored user's bucket, which is created
      when missing; no other bucket changes. */
  function AddUpload(s: App.AppState, img: Image, storedUser: string): (r: App.AppState)
    ensures r.images == s.images + [img]
    ensures var user := Uploader(storedUser);
      r.userUploads.Keys == s.userUploads.Keys + {user}
      && r.userUploads[user] == (if user in s.userUploads then s.userUploads[user] else []) + [img]
      && forall u :: u in s.userUploads && u != user ==> r.userUploads[u] == s.userUploads[u]
  {
    var user := Uploader(storedUser);
    var bucket := if user in s.userUploads then s.userUploads[user] else [];
    App.AppState(s.images + [img], s.userUploads[user := bucket + [img]])
  }

  /** Deleting a freshly uploaded image restores the page: when no image
      already had its id and no bucket was empty, the delete undoes the upload. */
  lemma {:induction false} UploadThenDeleteRestores(s: App.AppState, img: Image, storedUser: string)
    requires forall i :: 0 <= i < |s.images| ==> s.images[i].id != img.id
    requires forall u :: u in s.userUploads ==> (s.userUploads[u] != []
      && forall i :: 0 <= i < |s.userUploads[u]| ==> s.userUploads[u][i].id != img.id)
    ensures var added := AddUpload(s, img, storedUser);
      WithoutImage(added.images, img.id) == s.images
      && App.PurgedBuckets(added.userUploads, img.id) == s.userUploads
  {
    var added := AddUpload(s, img, storedUser);
    WithoutAppendedImage(s.images, img);
    var buckets := added.userUploads;
    var purged := App.PurgedBuckets(buckets, img.id);
    forall u
      ensures u in purged <==> u in s.userUploads
      ensures u in purged ==> purged[u] == s.userUploads[u]
    {
      if u in buckets {
        RestoredBucket(s, img, storedUser, u);
      } else {
        App.PurgedEntry(buckets, img.id, u);
      }
    }
    MapsEqual(purged, s.userUploads);
  }

  /** One bucket of `UploadThenDeleteRestores`. */
  lemma RestoredBucket(s: App.AppState, img: Image, storedUser: string, u: string)
    requires forall u :: u in s.userUploads ==> (s.userUploads[u] != []
      && forall i :: 0 <= i < |s.userUploads[u]| ==> s.userUploads[u][i].id != img.id)
    requires u in AddUpload(s, img, storedUser).userUploads
    ensures var purged := App.PurgedBuckets(AddUpload(s, img, storedUser).userUploads, img.id);
      (u in purged <==> u in s.userUploads) && (u in purged ==> purged[u] == s.userUploads[u])
  {
    var added := AddUpload(s, img, storedUser).userUploads;
    App.PurgedEntry(added, img.id, u);
    if u in s.userUploads {
      if u == Uploader(storedUser) {
        WithoutAppendedImage(s.userUploads[u], img);
      } else {
        WithoutAbsentImage(s.userUploads[u], img.id);
      }
    } else {
      WithoutAppendedImage([], img);
    }
  }
}
