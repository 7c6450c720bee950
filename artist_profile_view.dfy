/** The read-only artist page: whose page it is, what loading it does, and
    the website link and avatar letter it shows. */
module ArtistProfileView {
  import opened Common
  import opened Gallery
  import Text

  /** The viewed artist: the `artistUsername` prop, else the `username`
      route parameter, else the `userName` one; "" when all are missing. */
  function ProfileUsername(artistUsername: string, username: string, userName: string): (u: string)
    ensures u == "" <==> artistUsername == "" && username == "" && userName == ""
    ensures artistUsername != "" ==> u == artistUsername
    ensures artistUsername == "" && username != "" ==> u == username
    ensures artistUsername == "" && username == "" ==> u == userName
  {
    if artistUsername != "" then artistUsername else if username != "" then username else userName
  }

  /** The artist record fields the page reads; "" stands for missing. */
  datatype Artist = Artist(username: string, website: string)

  /** The answer to the profile request: the record, or the failure's message. */
  datatype Lookup = Found(artist: Artist) | Failed(message: string)

  /** The page's state. */
  datatype View = View(artistData: Option<Artist>, artistImages: seq<Image>, loading: bool, error: Option<string>)

  const Opening: View := View(None, [], true, None)

  /** `fetchArtistData`: without a username, an error and no request;
      otherwise the artist and their images on success, the failure's
      message otherwise. Loading ends either way. `lookup` is only consulted
      when a request is made. */
  function Load(v: View, images: seq<Image>, profileUsername: string, lookup: Lookup): (r: (View, bool))
    ensures r.1 <==> profileUsername != ""
    ensures !r.1 ==> r.0 == v.(error := Some("No artist specified in the URL."), loading := false)
    ensures r.1 && lookup.Found? ==>
      r.0 == v.(artistData := Some(lookup.artist), artistImages := ImagesBy(images, profileUsername), loading := false)
    ensures r.1 && lookup.Failed? ==> r.0 == v.(error := Some(lookup.message), loading := false)
    ensures r.0.artistImages != v.artistImages ==> r.1 && lookup.Found?
  {
    if profileUsername == "" then (v.(error := Some("No artist specified in the URL."), loading := false), false)
    else if lookup.Failed? then (v.(error := Some(lookup.message), loading := false), true)
    else (v.(artistData := Some(lookup.artist), artistImages := ImagesBy(images, profileUsername), loading := false), true)
  }

  /** After a successful load every shown image is the artist's, and every
      image of the artist is shown. */
  lemma LoadedImagesAreTheArtists(images: seq<Image>, profileUsername: string, artist: Artist)
    requires profileUsername != ""
    ensures var shown := Load(Opening, images, profileUsername, Found(artist)).0.artistImages;
      (forall i :: 0 <= i < |shown| ==> shown[i].uploader == profileUsername)
      && (forall i :: 0 <= i < |images| && images[i].uploader == profileUsername ==> images[i] in shown)
      && TotalLikes(shown) + TotalLikes(ImagesNotBy(images, profileUsername)) == TotalLikes(images)
  {
    TotalsSplitByUploader(images, profileUsername);
  }

  /** The link target: kept when it starts with `"http"`, given
      `"https://"` otherwise. */
  function WebsiteHref(website: string): (href: string)
    ensures Text.StartsWith(href, "http")
    ensures Text.StartsWith(website, "http") ==> href == website
    ensures !Text.StartsWith(website, "http") ==> href == "https://" + website
  {
    if Text.StartsWith(website, "http") then website else "https://" + website
  }

  /** Normalising twice is normalising once. */
  lemma WebsiteHrefIdempotent(website: string)
    ensures WebsiteHref(WebsiteHref(website)) == WebsiteHref(website)
  {
  }

  /** The default avatar: the username's first character in upper case, or
      `"?"` when the username is missing or empty. */
  function AvatarLetter(username: Option<string>): (letter: string)
    ensures |letter| == 1
    ensures username.None? || username.value == "" ==> letter == "?"
    ensures username.Some? && username.value != "" ==> letter == [Text.UpperChar(username.value[0])]
  {
    if username.None? || username.value == "" then "?" else [Text.UpperChar(username.value[0])]
  }
}
