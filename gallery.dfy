/** The client's view of the data: the image records the components keep in
    their state, the per-user upload buckets (`userUploads`), browser files
    and multipart form bodies, with the list operations several components
    share. */
module Gallery {
  import opened Common

  /** An image as the client keeps it. Fields the server may omit are optional. */
  datatype Image = Image(
    id: string,
    name: Option<string>,
    category: Option<string>,
    description: Option<string>,
    src: string,
    uploader: string,
    likeCount: Option<int>,
    downloads: Option<int>,
    website: Option<string>,
    uploadedAt: string,
    likedBy: seq<string>)

  /** `userUploads`: each user's bucket `{ uploads: [...] }`, keyed by username. */
  type Buckets = map<string, seq<Image>>

  /** A browser `File`: its name, MIME type and size in bytes. */
  datatype File = File(name: string, mime: string, size: int)

  /** One `FormData` entry value. */
  datatype FormValue = Field(text: string) | Blob(file: File)

  /** A `FormData` body: its entries in append order. */
  type FormData = seq<(string, FormValue)>

  /** `count || 0`. */
  function OrZero(count: Option<int>): int {
    if count.Some? then count.value else 0
  }

  function Likes(img: Image): int {
    OrZero(img.likeCount)
  }

  function Downloads(img: Image): int {
    OrZero(img.downloads)
  }

  /** The images whose uploader is `user`, in order. */
  function ImagesBy(images: seq<Image>, user: string): (r: seq<Image>)
    ensures forall i :: 0 <= i < |r| ==> r[i] in images && r[i].uploader == user
    ensures forall i :: 0 <= i < |images| && images[i].uploader == user ==> images[i] in r
    ensures IsSubsequence(r, images)
    ensures forall img :: multiset(r)[img] == if img.uploader == user then multiset(images)[img] else 0
  {
    FilterCounts((img: Image) => img.uploader == user, images);
    Filter((img: Image) => img.uploader == user, images)
  }

  /** Every image except those with id `id`, in order. */
  function WithoutImage(images: seq<Image>, id: string): (r: seq<Image>)
    ensures forall i :: 0 <= i < |r| ==> r[i] in images && r[i].id != id
    ensures forall i :: 0 <= i < |images| && images[i].id != id ==> images[i] in r
    ensures IsSubsequence(r, images)
    ensures forall img :: multiset(r)[img] == if img.id != id then multiset(images)[img] else 0
  {
    FilterCounts((img: Image) => img.id != id, images);
    Filter((img: Image) => img.id != id, images)
  }

  /** Filtering out an id that no image carries changes nothing. */
  lemma WithoutAbsentImage(images: seq<Image>, id: string)
    requires forall i :: 0 <= i < |images| ==> images[i].id != id
    ensures WithoutImage(images, id) == images
  {
    FilterKeepsAll((img: Image) => img.id != id, images);
  }

  /** Filtering out the id of an image appended to images without that id
      gives the images back. */
  lemma WithoutAppendedImage(images: seq<Image>, img: Image)
    requires forall i :: 0 <= i < |images| ==> images[i].id != img.id
    ensures WithoutImage(images + [img], img.id) == images
  {
    FilterAppend((m: Image) => m.id != img.id, images, img);
    WithoutAbsentImage(images, img.id);
  }

  /** The sum of `likeCount` over the images, a missing count taken as 0. */
  function TotalLikes(images: seq<Image>): int {
    SumOf(Likes, images)
  }

  /** The sum of `downloads` over the images, a missing count taken as 0. */
  function TotalDownloads(images: seq<Image>): int {
    SumOf(Downloads, images)
  }

  /** The images whose uploader is not `user`, in order. */
  function ImagesNotBy(images: seq<Image>, user: string): seq<Image> {
    Filter((img: Image) => img.uploader != user, images)
  }

  /** One user's totals and everyone else's add up to the gallery's totals. */
  lemma {:induction false} TotalsSplitByUploader(images: seq<Image>, user: string)
    ensures TotalLikes(images) == TotalLikes(ImagesBy(images, user)) + TotalLikes(ImagesNotBy(images, user))
    ensures TotalDownloads(images) == TotalDownloads(ImagesBy(images, user)) + TotalDownloads(ImagesNotBy(images, user))
  {
    if images != [] {
      TotalsSplitByUploader(images[1..], user);
    }
  }

  /** Totals over images whose counts are present and non-negative are non-negative. */
  lemma TotalsNonNegative(images: seq<Image>)
    requires forall img :: img in images ==> Likes(img) >= 0 && Downloads(img) >= 0
    ensures TotalLikes(images) >= 0 && TotalDownloads(images) >= 0
  {
    SumOfNonNegative(Likes, images);
    SumOfNonNegative(Downloads, images);
  }

  /** Filters one bucket by image id and drops it when it becomes empty
      (`uploads = uploads.filter(img => img.id !== id)`, then
      `if (uploads.length === 0) delete buckets[user]`). */
  function PruneBucket(buckets: Buckets, user: string, id: string): (r: Buckets)
    requires user in buckets
    ensures r.Keys == if WithoutImage(buckets[user], id) == [] then buckets.Keys - {user} else buckets.Keys
    ensures user in r ==> r[user] == WithoutImage(buckets[user], id) && r[user] != []
    ensures forall u :: u in buckets && u != user ==> u in r && r[u] == buckets[u]
  {
    var kept := WithoutImage(buckets[user], id);
    if |kept| == 0 then buckets - {user} else buckets[user := kept]
  }
}
