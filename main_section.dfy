/** The gallery page: the search and category filter, and what a like or a
    save does to the page's images and to the user's liked ids. */
module MainSection {
  import opened Common
  import opened Gallery
  import Text
  import Server

  /** An image passes when its lowercased name contains the lowercased,
      trimmed query and its category equals the selected one ignoring case;
      an empty query or category does not restrict. */
  predicate Matches(img: Image, searchQuery: string, selectedCategory: string) {
    (searchQuery == "" ||
       (img.name.Some? && Text.Includes(Text.Lower(img.name.value), Text.Trim(Text.Lower(searchQuery)))))
    && (selectedCategory == "" ||
       (img.category.Some? && Text.Lower(img.category.value) == Text.Lower(selectedCategory)))
  }

  /** `filteredImages`: the images that pass, in their original order. */
  function FilteredImages(images: seq<Image>, searchQuery: string, selectedCategory: string): (r: seq<Image>)
    ensures IsSubsequence(r, images)
    ensures forall i :: 0 <= i < |r| ==> r[i] in images
    ensures searchQuery != "" ==> forall i :: 0 <= i < |r| ==>
      r[i].name.Some? && Text.Includes(Text.Lower(r[i].name.value), Text.Trim(Text.Lower(searchQuery)))
    ensures selectedCategory != "" ==> forall i :: 0 <= i < |r| ==>
      r[i].category.Some? && Text.Lower(r[i].category.value) == Text.Lower(selectedCategory)
    ensures forall i :: 0 <= i < |images| && Matches(images[i], searchQuery, selectedCategory) ==> images[i] in r
    ensures forall img :: multiset(r)[img] == if Matches(img, searchQuery, selectedCategory) then multiset(images)[img] else 0
  {
    FilterCounts((img: Image) => Matches(img, searchQuery, selectedCategory), images);
    Filter((img: Image) => Matches(img, searchQuery, selectedCategory), images)
  }

  /** With neither a query nor a category every image is shown. */
  lemma NoFilterKeepsAll(images: seq<Image>)
    ensures FilteredImages(images, "", "") == images
  {
    FilterKeepsAll((img: Image) => Matches(img, "", ""), images);
  }

  /** A query of only white space trims to `""`, which every name includes:
      each named image is kept, each unnamed one dropped. */
  lemma BlankQueryKeepsNamed(images: seq<Image>, searchQuery: string)
    requires searchQuery != "" && forall i :: 0 <= i < |searchQuery| ==> Text.IsSpace(searchQuery[i])
    ensures forall img :: (multiset(FilteredImages(images, searchQuery, ""))[img]
      == if img.name.Some? then multiset(images)[img] else 0)
  {
    var lowered := Text.Lower(searchQuery);
    assert forall i :: 0 <= i < |lowered| ==> Text.IsSpace(lowered[i]);
    assert Text.TrimStart(lowered) == [];
    assert Text.Trim(lowered) == [];
    forall img: Image | img.name.Some?
      ensures Matches(img, searchQuery, "")
    {
      Text.IncludesEmpty(Text.Lower(img.name.value));
    }
  }

  /** The liked ids after a like: `imageId` appended when the server's
      `likedBy` names the user, every occurrence of it removed otherwise. */
  function UpdatedLikes(userLikes: seq<string>, imageId: string, likedBy: seq<string>, userName: string): (r: seq<string>)
    ensures imageId in r <==> userName in likedBy
    ensures userName in likedBy ==> r == userLikes + [imageId]
    ensures userName !in likedBy ==> (IsSubsequence(r, userLikes)
      && (forall id :: id != imageId ==> (id in r <==> id in userLikes))
      && forall id :: id != imageId ==> multiset(r)[id] == multiset(userLikes)[id])
  {
    if userName in likedBy then userLikes + [imageId] else RemoveAll(userLikes, imageId)
  }

  /** Each image with id `imageId` takes the server's `likedBy` and
      `likeCount`; every other image, and every other field, is unchanged. */
  function WithLikes(images: seq<Image>, imageId: string, likedBy: seq<string>, likeCount: int): (r: seq<Image>)
    ensures |r| == |images|
    ensures forall i :: 0 <= i < |images| && images[i].id != imageId ==> r[i] == images[i]
    ensures forall i :: 0 <= i < |images| && images[i].id == imageId ==>
      r[i] == images[i].(likedBy := likedBy, likeCount := Some(likeCount))
  {
    seq(|images|, i requires 0 <= i < |images| =>
      if images[i].id == imageId then images[i].(likedBy := likedBy, likeCount := Some(likeCount)) else images[i])
  }

  /** Each image with id `imageId` takes the server's `downloads`; nothing
      else changes. */
  function WithDownloads(images: seq<Image>, imageId: string, downloads: int): (r: seq<Image>)
    ensures |r| == |images|
    ensures forall i :: 0 <= i < |images| && images[i].id != imageId ==> r[i] == images[i]
    ensures forall i :: 0 <= i < |images| && images[i].id == imageId ==>
      r[i] == images[i].(downloads := Some(downloads))
  {
    seq(|images|, i requires 0 <= i < |images| =>
      if images[i].id == imageId then images[i].(downloads := Some(downloads)) else images[i])
  }

  /** The part of the page's state the handlers change. */
  datatype Page = Page(images: seq<Image>, userLikes: seq<string>, loginPopupVisible: bool)

  /** The request a handler sends, if any. */
  datatype Request = NoRequest | LikeRequest(imageId: string, userName: string) | DownloadRequest(imageId: string)

  /** The updated upload a successful like or download request returns. */
  datatype UploadReply = UploadReply(likedBy: seq<string>, likeCount: int, downloads: int)

  /** A handler's outcome: the new state and the request it made. */
  datatype Outcome = Outcome(page: Page, request: Request)

  /** `handleLike`. `reply` is the server's answer, None when the request
      failed or was not ok. */
  function HandleLike(page: Page, userName: string, imageId: string, reply: Option<UploadReply>): (r: Outcome)
    ensures userName == "" ==> r == Outcome(page.(loginPopupVisible := true), NoRequest)
    ensures userName != "" ==> r.request == LikeRequest(imageId, userName)
    ensures userName != "" && reply.None? ==> r.page == page
    ensures userName != "" && reply.Some? ==> (r.page.loginPopupVisible == page.loginPopupVisible
      && r.page.userLikes == UpdatedLikes(page.userLikes, imageId, reply.value.likedBy, userName)
      && r.page.images == WithLikes(page.images, imageId, reply.value.likedBy, reply.value.likeCount))
  {
    if userName == "" then Outcome(page.(loginPopupVisible := true), NoRequest)
    else if reply.None? then Outcome(page, LikeRequest(imageId, userName))
    else
      var data := reply.value;
      Outcome(page.(userLikes := UpdatedLikes(page.userLikes, imageId, data.likedBy, userName),
                    images := WithLikes(page.images, imageId, data.likedBy, data.likeCount)),
              LikeRequest(imageId, userName))
  }

  /** `handleSave` up to the browser download. */
  function HandleSave(page: Page, userName: string, imageId: string, reply: Option<UploadReply>): (r: Outcome)
    ensures userName == "" ==> r == Outcome(page.(loginPopupVisible := true), NoRequest)
    ensures userName != "" ==> r.request == DownloadRequest(imageId)
    ensures userName != "" && reply.None? ==> r.page == page
    ensures userName != "" && reply.Some? ==>
      r.page == page.(images := WithDownloads(page.images, imageId, reply.value.downloads))
  {
    if userName == "" then Outcome(page.(loginPopupVisible := true), NoRequest)
    else if reply.None? then Outcome(page, DownloadRequest(imageId))
    else Outcome(page.(images := WithDownloads(page.images, imageId, reply.value.downloads)), DownloadRequest(imageId))
  }

  /** What the server answers a like with: its upload after the toggle. */
  function ReplyOf(u: Server.Upload): UploadReply {
    UploadReply(u.likedBy, u.likeCount, u.downloads)
  }

  /** Against the server's like toggle, the page counts the image as liked
      exactly when the user had not liked it before, and the image shows the
      server's new count, one more or one less than before. */
  lemma LikeFollowsServer(page: Page, userName: string, imageId: string, upload: Server.Upload)
    requires userName != ""
    ensures var after := Server.ToggleLike(upload, userName);
      var r := HandleLike(page, userName, imageId, Some(ReplyOf(after)));
      (imageId in r.page.userLikes <==> userName !in upload.likedBy)
      && forall i :: 0 <= i < |page.images| && page.images[i].id == imageId ==>
           r.page.images[i].likedBy == after.likedBy
           && r.page.images[i].likeCount
              == Some(if userName in upload.likedBy then upload.likeCount - 1 else upload.likeCount + 1)
  {
  }

  /** A second like of an image the user had not liked takes it out of the
      liked ids again and restores the server's `likedBy`. */
  lemma LikeTwiceFollowsServer(page: Page, userName: string, imageId: string, upload: Server.Upload)
    requires userName != "" && userName !in upload.likedBy && imageId !in page.userLikes
    ensures var once := Server.ToggleLike(upload, userName);
      var twice := Server.ToggleLike(once, userName);
      var r1 := HandleLike(page, userName, imageId, Some(ReplyOf(once)));
      var r2 := HandleLike(r1.page, userName, imageId, Some(ReplyOf(twice)));
      r2.page.userLikes == page.userLikes && twice == upload
  {
    Server.ToggleLikeTwice(upload, userName);
    RemoveAllAppended(page.userLikes, imageId);
  }
}
