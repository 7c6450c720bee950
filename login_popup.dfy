/** The sign-up side of the login popup: the portfolio file check, the
    sign-up guards and form body, and the field reset. */
module LoginPopup {
  import opened Common
  import opened Gallery
  import Text

  const MaxImages := 3
  const MaxSize := 5 * 1024 * 1024

  /** The popup's state (its `useState` hooks). */
  datatype Popup = Popup(
    isSignUp: bool,
    loginUserName: string,
    loginPassword: string,
    signUpUserName: string,
    signUpEmail: string,
    signUpPassword: string,
    userRole: string,
    portfolioFiles: seq<File>,
    isLoading: bool,
    errorMessage: string)

  /** The state the popup opens with. */
  const Initial: Popup := Popup(false, "", "", "", "", "", "normal", [], false, "")

  /** `resetFields`: every input cleared, the role back to `"normal"`. */
  function ResetFields(p: Popup): (r: Popup)
    ensures r.isSignUp == p.isSignUp && r.isLoading == p.isLoading
    ensures r.(isSignUp := Initial.isSignUp, isLoading := Initial.isLoading) == Initial
  {
    p.(loginUserName := "", loginPassword := "", signUpUserName := "", signUpEmail := "",
       signUpPassword := "", portfolioFiles := [], errorMessage := "", userRole := "normal")
  }

  /** A portfolio file is kept when it is an image of at most 5 MB. */
  predicate IsAcceptedImage(f: File) {
    Text.StartsWith(f.mime, "image/") && f.size <= MaxSize
  }

  /** The message a rejected file leaves; the type is checked before the size. */
  function RejectionMessage(f: File): string {
    if !Text.StartsWith(f.mime, "image/") then f.name + " is not a valid image file."
    else f.name + " exceeds the 5MB size limit."
  }

  /** The error message after checking `files` in order: the last rejected
      file's message, or `previous` when none was rejected. */
  function LastRejection(files: seq<File>, previous: string): string
    decreases |files|
  {
    if files == [] then previous
    else
      var last := files[|files| - 1];
      if !IsAcceptedImage(last) then RejectionMessage(last)
      else LastRejection(files[..|files| - 1], previous)
  }

  /** When file `k` is rejected and every later one accepted, the error is
      file `k`'s message. */
  lemma {:induction false} LastRejectionIsLast(files: seq<File>, previous: string, k: nat)
    requires k < |files| && !IsAcceptedImage(files[k])
    requires forall j :: k < j < |files| ==> IsAcceptedImage(files[j])
    ensures LastRejection(files, previous) == RejectionMessage(files[k])
    decreases |files|
  {
    var last := |files| - 1;
    if k < last {
      var init := files[..last];
      assert init[k] == files[k];
      assert forall j :: k < j < |init| ==> init[j] == files[j];
      LastRejectionIsLast(init, previous, k);
    }
  }

  /** When every file is accepted, the error stays as it was. */
  lemma {:induction false} LastRejectionNone(files: seq<File>, previous: string)
    requires forall j :: 0 <= j < |files| ==> IsAcceptedImage(files[j])
    ensures LastRejection(files, previous) == previous
    decreases |files|
  {
    if files != [] {
      var init := files[..|files| - 1];
      assert forall j :: 0 <= j < |init| ==> init[j] == files[j];
      LastRejectionNone(init, previous);
    }
  }

  /** Checking one more file: it joins the accepted files when it passes,
      and its message becomes the error when it does not. */
  lemma CheckedOneMore(files: seq<File>, i: nat, previous: string)
    requires i < |files|
    ensures Filter(IsAcceptedImage, files[..i + 1])
      == Filter(IsAcceptedImage, files[..i]) + (if IsAcceptedImage(files[i]) then [files[i]] else [])
    ensures LastRejection(files[..i + 1], previous)
      == if IsAcceptedImage(files[i]) then LastRejection(files[..i], previous) else RejectionMessage(files[i])
  {
    var seen := files[..i + 1];
    assert seen[..i] == files[..i] && seen[i] == files[i];
    assert seen == files[..i] + [files[i]];
    FilterAppend(IsAcceptedImage, files[..i], files[i]);
  }

  /** The `files.filter` pass, whose callback also sets the error message:
      the accepted files in order, and the message after the last rejection. */
  method CheckPortfolio(files: seq<File>, previous: string) returns (valid: seq<File>, errorMessage: string)
    ensures valid == Filter(IsAcceptedImage, files)
    ensures errorMessage == LastRejection(files, previous)
  {
    valid := [];
    errorMessage := previous;
    var i := 0;
    while i < |files|
      invariant 0 <= i <= |files|
      invariant valid == Filter(IsAcceptedImage, files[..i])
      invariant errorMessage == LastRejection(files[..i], previous)
    {
      var file := files[i];
      CheckedOneMore(files, i, previous);
      if !IsAcceptedImage(file) {
        errorMessage := RejectionMessage(file);
      } else {
        valid := valid + [file];
      }
      i := i + 1;
    }
    assert files[..|files|] == files;
  }

  /** `handleImageUpload`. More than three files: an error and nothing else.
      Otherwise the accepted files, in order, replace `portfolioFiles` if
      there is at least one, and each rejected file overwrites the error. */
  method HandleImageUpload(p: Popup, files: seq<File>) returns (r: Popup)
    ensures |files| > MaxImages ==> r == p.(errorMessage := "Please upload a maximum of 3 images.")
    ensures |files| <= MaxImages ==>
      var accepted := Filter(IsAcceptedImage, files);
      r == p.(portfolioFiles := if accepted != [] then accepted else p.portfolioFiles,
               errorMessage := LastRejection(files, p.errorMessage))
  {
    if |files| > MaxImages {
      return p.(errorMessage := "Please upload a maximum of 3 images.");
    }
    var valid, errorMessage := CheckPortfolio(files, p.errorMessage);
    r := p.(portfolioFiles := if |valid| > 0 then valid else p.portfolioFiles, errorMessage := errorMessage);
  }

  /** Every kept file is an image of at most 5 MB and every such file is
      kept, in the original order. */
  lemma AcceptedFiles(files: seq<File>)
    ensures var accepted := Filter(IsAcceptedImage, files);
      IsSubsequence(accepted, files)
      && (forall i :: 0 <= i < |accepted| ==> Text.StartsWith(accepted[i].mime, "image/") && accepted[i].size <= MaxSize)
      && (forall i :: 0 <= i < |files| && Text.StartsWith(files[i].mime, "image/") && files[i].size <= MaxSize
            ==> files[i] in accepted)
      && (forall f :: multiset(accepted)[f] == if IsAcceptedImage(f) then multiset(files)[f] else 0)
  {
    FilterCounts(IsAcceptedImage, files);
  }

  /** A sign-up that passed the guards: the state while the request is out
      and the request's form body. */
  datatype SignUp = Rejected(popup: Popup) | Submitted(popup: Popup, form: FormData)

  /** `handleSignUp` up to the request. Empty username, email or password,
      then a password under six characters, are rejected with a message and
      no request; otherwise the four fields are sent, followed by one
      `portfolio` entry per file when the role is `"artist"`. */
  method HandleSignUp(p: Popup) returns (r: SignUp)
    ensures p.signUpUserName == "" || p.signUpEmail == "" || p.signUpPassword == "" ==>
      r == Rejected(p.(errorMessage := "Please fill in all fields."))
    ensures p.signUpUserName != "" && p.signUpEmail != "" && p.signUpPassword != "" && |p.signUpPassword| < 6 ==>
      r == Rejected(p.(errorMessage := "Password must be at least 6 characters long."))
    ensures r.Submitted? <==> p.signUpUserName != "" && p.signUpEmail != "" && |p.signUpPassword| >= 6
    ensures r.Submitted? ==> r.popup == p.(isLoading := true, errorMessage := "")
    ensures r.Submitted? ==>
      var files := if p.userRole == "artist" then p.portfolioFiles else [];
      |r.form| == 4 + |files| && r.form[..4] == SignUpFields(p)
      && forall i :: 0 <= i < |files| ==> r.form[4 + i] == ("portfolio", Blob(files[i]))
  {
    if p.signUpUserName == "" || p.signUpEmail == "" || p.signUpPassword == "" {
      return Rejected(p.(errorMessage := "Please fill in all fields."));
    }
    if |p.signUpPassword| < 6 {
      return Rejected(p.(errorMessage := "Password must be at least 6 characters long."));
    }
    var form := SignUpFields(p);
    if p.userRole == "artist" && |p.portfolioFiles| > 0 {
      var i := 0;
      while i < |p.portfolioFiles|
        invariant 0 <= i <= |p.portfolioFiles|
        invariant |form| == 4 + i && form[..4] == SignUpFields(p)
        invariant forall k :: 0 <= k < i ==> form[4 + k] == ("portfolio", Blob(p.portfolioFiles[k]))
      {
        form := form + [("portfolio", Blob(p.portfolioFiles[i]))];
        i := i + 1;
      }
    }
    r := Submitted(p.(isLoading := true, errorMessage := ""), form);
  }

  /** The four text fields every sign-up request starts with. */
  function SignUpFields(p: Popup): (form: FormData)
    ensures |form| == 4
  {
    [("username", Field(p.signUpUserName)), ("email", Field(p.signUpEmail)),
     ("password", Field(p.signUpPassword)), ("role", Field(p.userRole))]
  }
}
