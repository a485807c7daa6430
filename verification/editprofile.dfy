/** The profile-edit screen of app/editprofile.tsx without its rendering: loading the form from the cached
    student, picking an image, validating the form, and submitting it. Storage, the network and the
    React state hooks are replaced by values: the screen state is a record, and each server reply is a
    parameter. */
module EditProfile {
  import opened Optional
  import opened Text
  import opened StudentRecord
  import opened ImageCompression

  /** The editable form: `newImage` is the compressed image waiting to be uploaded. */
  datatype FormData = FormData(
    mobileNo: string,
    email: string,
    profilePicUrl: Option<string>,
    newImage: Option<Asset>)

  /** The values the form was loaded with, or last saved. */
  datatype Original = Original(mobileNo: string, email: string, profilePicUrl: Option<string>)

  /** The per-field error messages shown under the inputs. */
  datatype FormErrors = FormErrors(mobileNo: Option<string>, email: Option<string>, image: Option<string>)

  const NoErrors: FormErrors := FormErrors(None, None, None)

  /** The state of the screen once a student is loaded. */
  datatype Screen = Screen(student: Student, form: FormData, original: Original, errors: FormErrors)

  const MobileMessage: string := "Mobile number must be 10 digits."
  const EmailMessage: string := "Invalid email format."
  const UnsupportedImageMessage: string := "Only JPEG or PNG images are allowed."
  const ProcessFailedMessage: string := "Failed to process image. Please try another image."
  const UploadFailedMessage: string := "Image upload failed."
  const UpdateFailedMessage: string := "Failed to update profile."

  /** Builds the screen from the cached student: missing strings become `""`, a falsy picture `null`. */
  function LoadScreen(s: Student): (sc: Screen)
    ensures sc.student == s && sc.errors == NoErrors && sc.form.newImage.None?
    ensures sc.form.mobileNo == OrElse(s.mobileNo, "") && sc.form.email == OrElse(s.email, "")
    ensures sc.form.profilePicUrl == (if Present(s.profilePicUrl) then s.profilePicUrl else None)
    ensures sc.original == Original(sc.form.mobileNo, sc.form.email, sc.form.profilePicUrl)
    ensures !HasChanges(sc.form, sc.original)
  {
    var pic := if Present(s.profilePicUrl) then s.profilePicUrl else None;
    var original := Original(OrElse(s.mobileNo, ""), OrElse(s.email, ""), pic);
    Screen(s, FormData(original.mobileNo, original.email, pic, None), original, NoErrors)
  }

  /** `hasChanges`: the mobile number or the email differs from the loaded values, or an image waits. */
  predicate HasChanges(form: FormData, original: Original): (changed: bool)
    ensures !changed <==> form == FormData(original.mobileNo, original.email, form.profilePicUrl, None)
  {
    form.mobileNo != original.mobileNo || form.email != original.email || form.newImage != None
  }

  // ---------------------------------------------------------------------------------------------
  // Validation

  /** `/^\d{10}$/`: exactly ten ASCII digits. */
  ghost predicate MatchesMobilePattern(m: string) {
    |m| == 10 && forall i :: 0 <= i < |m| ==> IsDigit(m[i])
  }

  /** A character of the class `[^\s@]`. */
  predicate IsAddressChar(c: char) {
    c != '@' && !IsWhitespace(c)
  }

  /** `/^[^\s@]+@[^\s@]+\.[^\s@]+$/`, position by position: an `@` at `at` and a `.` at `dot` cut the
      string into three non-empty runs of `[^\s@]`. */
  ghost predicate MatchesEmailPattern(s: string) {
    exists at, dot ::
      && 0 < at && at + 1 < dot && dot + 1 < |s|
      && s[at] == '@' && s[dot] == '.'
      && forall k :: 0 <= k < |s| && k != at ==> IsAddressChar(s[k])
  }

  /** Some `.` in `d` is neither its first nor its last character. */
  predicate HasInnerDot(d: string) {
    exists p :: 0 < p < |d| - 1 && d[p] == '.'
  }

  /** The email check read as a rule: no whitespace, exactly one `@` with something before it, and a
      domain holding a `.` that is neither its first nor its last character. */
  predicate IsEmailShape(s: string) {
    && (forall k :: 0 <= k < |s| ==> !IsWhitespace(s[k]))
    && match IndexOf(s, '@')
       case None => false
       case Some(at) => at > 0 && '@' !in s[at + 1..] && HasInnerDot(s[at + 1..])
  }

  /** The rule and the regular expression accept the same strings. */
  lemma EmailShapeMatchesPattern(s: string)
    ensures IsEmailShape(s) <==> MatchesEmailPattern(s)
  {
    if IsEmailShape(s) {
      var at := IndexOf(s, '@').value;
      var d := s[at + 1..];
      var p :| 0 < p < |d| - 1 && d[p] == '.';
      var dot := at + 1 + p;
      assert s[dot] == d[p];
      forall k | 0 <= k < |s| && k != at
        ensures IsAddressChar(s[k])
      {
        if k < at {
          assert s[k] in s[..at];
        } else {
          assert s[k] == d[k - at - 1];
          assert s[k] in d;
        }
      }
      assert 0 < at && at + 1 < dot && dot + 1 < |s|;
    }
    if MatchesEmailPattern(s) {
      var at, dot :| && 0 < at && at + 1 < dot && dot + 1 < |s|
        && s[at] == '@' && s[dot] == '.'
        && forall k :: 0 <= k < |s| && k != at ==> IsAddressChar(s[k]);
      forall k | 0 <= k < |s|
        ensures !IsWhitespace(s[k])
      {
        if k != at {
          assert IsAddressChar(s[k]);
        }
      }
      assert s[at] in s;
      var first := IndexOf(s, '@').value;
      assert !IsAddressChar(s[first]);
      var d := s[at + 1..];
      forall j | 0 <= j < |d|
        ensures d[j] != '@'
      {
        assert d[j] == s[at + 1 + j];
      }
      assert d[dot - at - 1] == s[dot];
      assert HasInnerDot(d);
    }
  }

  /** `validateForm`: the mobile number must be ten digits; the email is optional but, when given,
      must match the address pattern. The image error is cleared, since the new error object has none. */
  function ValidateForm(form: FormData): (errors: FormErrors)
    ensures errors.image.None?
    ensures errors.mobileNo.None? <==> MatchesMobilePattern(form.mobileNo)
    ensures errors.mobileNo.Some? ==> errors.mobileNo.value == MobileMessage
    ensures errors.email.None? <==> form.email == "" || MatchesEmailPattern(form.email)
    ensures errors.email.Some? ==> errors.email.value == EmailMessage
  {
    AllDigitsMeansEveryDigit(form.mobileNo);
    EmailShapeMatchesPattern(form.email);
    var mobileError :=
      if form.mobileNo == "" || !(|form.mobileNo| == 10 && AllDigits(form.mobileNo)) then Some(MobileMessage)
      else None;
    var emailError :=
      if form.email != "" && !IsEmailShape(form.email) then Some(EmailMessage)
      else None;
    FormErrors(mobileError, emailError, None)
  }

  /** The form passes `validateForm` when no error was recorded. */
  predicate IsFormValid(form: FormData) {
    ValidateForm(form) == NoErrors
  }

  /** The form is valid exactly when the mobile number is ten digits and the email is empty or an address. */
  lemma FormValidIff(form: FormData)
    ensures IsFormValid(form) <==>
      MatchesMobilePattern(form.mobileNo) && (form.email == "" || MatchesEmailPattern(form.email))
  {
  }

  // ---------------------------------------------------------------------------------------------
  // Picking an image

  /** What the photo library answers: no permission, a cancelled pick, or the picked assets. */
  datatype PickerResult = PermissionDenied | Cancelled | Picked(assets: seq<Asset>)

  /** The screen after a pick, and every encoder call the pick made. */
  datatype PickOutcome = PickOutcome(screen: Screen, attempts: seq<Attempt>)

  /** `pickImage`: only a first asset of type JPEG or PNG is compressed; a successful compression becomes
      the pending `newImage` and clears the image error, a failed one sets it. */
  function PickImage(sc: Screen, picker: PickerResult, encode: Encoder): (p: PickOutcome)
    ensures p.screen.student == sc.student && p.screen.original == sc.original
    ensures p.screen.errors.mobileNo == sc.errors.mobileNo && p.screen.errors.email == sc.errors.email
    ensures p.screen.form.(newImage := sc.form.newImage) == sc.form
    ensures p.attempts != [] <==> picker.Picked? && |picker.assets| > 0 && AcceptedInput(picker.assets[0].mimeType)
    ensures picker.Picked? && |picker.assets| > 0 && !AcceptedInput(picker.assets[0].mimeType) ==>
      p.screen == sc.(errors := sc.errors.(image := Some(UnsupportedImageMessage)))
    ensures p.screen.form.newImage != sc.form.newImage ==>
      && p.screen.errors.image.None?
      && p.screen.form.newImage.Some?
      && p.screen.form.newImage.value.mimeType in {Some(WebpType), Some(JpegType), Some(PngType)}
    ensures picker.PermissionDenied? || picker.Cancelled? || (picker.Picked? && |picker.assets| == 0) ==>
      p == PickOutcome(sc, [])
    ensures picker.Picked? && |picker.assets| > 0 && AcceptedInput(picker.assets[0].mimeType) ==>
      var c := Compress(picker.assets[0], encode);
      && p.attempts == c.attempts
      && (c.result.Some? ==>
            p.screen == sc.(form := sc.form.(newImage := c.result), errors := sc.errors.(image := None)))
      && (c.result.None? ==> p.screen == sc.(errors := sc.errors.(image := Some(ProcessFailedMessage))))
  {
    match picker
    case PermissionDenied => PickOutcome(sc, [])
    case Cancelled => PickOutcome(sc, [])
    case Picked(assets) =>
      if |assets| == 0 then PickOutcome(sc, [])
      else
        var selected := assets[0];
        if !AcceptedInput(selected.mimeType) then
          PickOutcome(sc.(errors := sc.errors.(image := Some(UnsupportedImageMessage))), [])
        else
          var c := Compress(selected, encode);
          AttemptsAreBounded(selected, encode, c);
          OutcomeFrom(selected, selected.uri, StartQuality, encode, c);
          match c.result
          case None =>
            PickOutcome(sc.(errors := sc.errors.(image := Some(ProcessFailedMessage))), c.attempts)
          case Some(compressed) =>
            PickOutcome(
              sc.(form := sc.form.(newImage := Some(compressed)), errors := sc.errors.(image := None)),
              c.attempts)
  }

  /** A JPEG or PNG pick either leaves a pending image, which is a change to save, and no image error,
      or leaves the form as it was with the processing error. */
  lemma AcceptedPickOutcome(sc: Screen, picker: PickerResult, encode: Encoder)
    requires picker.Picked? && |picker.assets| > 0 && AcceptedInput(picker.assets[0].mimeType)
    ensures var p := PickImage(sc, picker, encode);
      || (p.screen.form.newImage.Some? && p.screen.errors.image.None? && HasChanges(p.screen.form, p.screen.original))
      || (p.screen.form == sc.form && p.screen.errors.image == Some(ProcessFailedMessage))
  {
  }

  // ---------------------------------------------------------------------------------------------
  // Submitting

  /** The JSON answer of the image host: HTTP status, uploaded URLs and an optional error text. */
  datatype UploadReply = UploadReply(status: int, urls: seq<string>, error: Option<string>)

  /** The JSON answer of the student API to the `PUT`. */
  datatype UpdateReply = UpdateReply(status: int, success: bool, error: Option<string>)

  /** A request the submission sends. */
  datatype Request = UploadImage(uri: string) | PutStudent(rollNo: string, payload: Student)

  /** How a submission ended; `Failed` carries the text of the alert. */
  datatype SubmitResult = NoChanges | InvalidForm | Failed(message: string) | Saved

  datatype Submission = Submission(screen: Screen, result: SubmitResult, requests: seq<Request>)

  /** `{...student, mobile_no, email: form.email || student.email, profile_pic_url}`. */
  function UpdatePayload(student: Student, form: FormData, picture: Option<string>): (p: Student)
    ensures p.(mobileNo := student.mobileNo, email := student.email, profilePicUrl := student.profilePicUrl) == student
    ensures p.mobileNo == Some(form.mobileNo) && p.profilePicUrl == picture
    ensures form.email != "" ==> p.email == Some(form.email)
    ensures form.email == "" ==> p.email == student.email
  {
    student.(mobileNo := Some(form.mobileNo),
             email := if form.email != "" then Some(form.email) else student.email,
             profilePicUrl := picture)
  }

  /** The upload of a pending image answered with at least one URL, or there was nothing to upload. */
  predicate UploadSucceeds(form: FormData, upload: string -> UploadReply) {
    match form.newImage
    case None => true
    case Some(image) => upload(image.uri).status == 200 && |upload(image.uri).urls| > 0
  }

  /** The picture the `PUT` carries: the first uploaded URL for a pending image, else the form's picture. */
  function SubmittedPicture(form: FormData, upload: string -> UploadReply): Option<string> {
    match form.newImage
    case Some(image) =>
      if upload(image.uri).status == 200 && |upload(image.uri).urls| > 0 then Some(upload(image.uri).urls[0])
      else form.profilePicUrl
    case None => form.profilePicUrl
  }

  /** The requests a submission past both guards sends, in order: one upload for a pending image, then one
      `PUT` of the merged record unless that upload failed. */
  function RequestsSent(student: Student, form: FormData, upload: string -> UploadReply): seq<Request> {
    (if form.newImage.Some? then [UploadImage(form.newImage.value.uri)] else [])
    + (if UploadSucceeds(form, upload)
       then [PutStudent(student.rollNo, UpdatePayload(student, form, SubmittedPicture(form, upload)))]
       else [])
  }

  /** Sends the `PUT` with the payload built from `picture` after the requests in `sent`. On success the
      payload becomes the cached student and the form's values become the original ones; otherwise the
      screen is kept and the server's error text, or the default one, is reported. */
  function SendUpdate(sc: Screen, picture: Option<string>, sent: seq<Request>, update: Student -> UpdateReply)
    : (s: Submission)
    ensures var payload := UpdatePayload(sc.student, sc.form, picture);
      && s.requests == sent + [PutStudent(sc.student.rollNo, payload)]
      && (s.result == Saved <==> update(payload).status == 200 && update(payload).success)
      && (s.result != Saved ==> s.result == Failed(OrElse(update(payload).error, UpdateFailedMessage)) && s.screen == sc)
      && (s.result == Saved ==>
            s.screen == sc.(student := payload,
                            form := sc.form.(newImage := None),
                            original := Original(sc.form.mobileNo, sc.form.email, picture)))
  {
    var payload := UpdatePayload(sc.student, sc.form, picture);
    var reply := update(payload);
    var requests := sent + [PutStudent(sc.student.rollNo, payload)];
    if reply.status == 200 && reply.success then
      Submission(
        sc.(student := payload,
            form := sc.form.(newImage := None),
            original := Original(sc.form.mobileNo, sc.form.email, picture)),
        Saved, requests)
    else
      Submission(sc, Failed(OrElse(reply.error, UpdateFailedMessage)), requests)
  }

  /** The submission once both guards have passed: a pending image is uploaded first and a failed upload
      ends it; then the merged student record is sent with the uploaded or the kept picture. */
  function SubmitValidated(sc: Screen, upload: string -> UploadReply, update: Student -> UpdateReply)
    : (s: Submission)
    ensures s.requests != [] && s.result != NoChanges && s.result != InvalidForm
    ensures sc.form.newImage.None? ==> forall i :: 0 <= i < |s.requests| ==> !s.requests[i].UploadImage?
    ensures sc.form.newImage.Some? ==> s.requests[0] == UploadImage(sc.form.newImage.value.uri)
    ensures !UploadSucceeds(sc.form, upload) ==>
      var reply := upload(sc.form.newImage.value.uri);
      |s.requests| == 1 && s.result == Failed(OrElse(reply.error, UploadFailedMessage))
    ensures forall i :: 0 <= i < |s.requests| && s.requests[i].PutStudent? ==>
      s.requests[i] == PutStudent(sc.student.rollNo, UpdatePayload(sc.student, sc.form, SubmittedPicture(sc.form, upload)))
    ensures UploadSucceeds(sc.form, upload) ==>
      var payload := UpdatePayload(sc.student, sc.form, SubmittedPicture(sc.form, upload));
      && s.requests[|s.requests| - 1] == PutStudent(sc.student.rollNo, payload)
      && (s.result == Saved <==> update(payload).status == 200 && update(payload).success)
      && (s.result != Saved ==> s.result == Failed(OrElse(update(payload).error, UpdateFailedMessage)))
    ensures s.result != Saved ==> s.screen == sc
    ensures s.requests == RequestsSent(sc.student, sc.form, upload)
    ensures s.result == Saved ==>
      var picture := SubmittedPicture(sc.form, upload);
      s.screen == sc.(student := UpdatePayload(sc.student, sc.form, picture),
                      form := sc.form.(newImage := None),
                      original := Original(sc.form.mobileNo, sc.form.email, picture))
  {
    match sc.form.newImage
    case None => SendUpdate(sc, sc.form.profilePicUrl, [], update)
    case Some(image) =>
      var reply := upload(image.uri);
      if reply.status == 200 && |reply.urls| > 0 then
        SendUpdate(sc, Some(reply.urls[0]), [UploadImage(image.uri)], update)
      else
        Submission(sc, Failed(OrElse(reply.error, UploadFailedMessage)), [UploadImage(image.uri)])
  }

  /** `handleSubmit`: stop when nothing changed or the form is invalid; otherwise upload a pending image,
      then send the merged student record. */
  function HandleSubmit(sc: Screen, upload: string -> UploadReply, update: Student -> UpdateReply)
    : (s: Submission)
    ensures !HasChanges(sc.form, sc.original) ==> s == Submission(sc, NoChanges, [])
    ensures HasChanges(sc.form, sc.original) && !IsFormValid(sc.form) ==>
      s.result == InvalidForm && s.requests == [] && s.screen == sc.(errors := ValidateForm(sc.form))
    ensures s.requests != [] <==> HasChanges(sc.form, sc.original) && IsFormValid(sc.form)
    ensures (exists i :: 0 <= i < |s.requests| && s.requests[i].UploadImage?) ==> sc.form.newImage.Some?
    ensures s.result == Saved ==>
      && !HasChanges(s.screen.form, s.screen.original)
      && s.screen.student.rollNo == sc.student.rollNo
      && s.screen.student.mobileNo == Some(sc.form.mobileNo)
      && s.screen.student.email == (if sc.form.email != "" then Some(sc.form.email) else sc.student.email)
    ensures s.result.Failed? || s.result == InvalidForm || s.result == NoChanges ==>
      s.screen.student == sc.student && s.screen.form == sc.form && s.screen.original == sc.original
    ensures HasChanges(sc.form, sc.original) && IsFormValid(sc.form) && sc.form.newImage.Some? ==>
      && s.requests[0] == UploadImage(sc.form.newImage.value.uri)
      && (!UploadSucceeds(sc.form, upload) ==>
            var reply := upload(sc.form.newImage.value.uri);
            |s.requests| == 1 && s.result == Failed(OrElse(reply.error, UploadFailedMessage)))
    ensures forall i :: 0 <= i < |s.requests| && s.requests[i].PutStudent? ==>
      s.requests[i] == PutStudent(sc.student.rollNo, UpdatePayload(sc.student, sc.form, SubmittedPicture(sc.form, upload)))
    ensures HasChanges(sc.form, sc.original) && IsFormValid(sc.form) && UploadSucceeds(sc.form, upload) ==>
      var payload := UpdatePayload(sc.student, sc.form, SubmittedPicture(sc.form, upload));
      && s.requests[|s.requests| - 1] == PutStudent(sc.student.rollNo, payload)
      && (s.result == Saved <==> update(payload).status == 200 && update(payload).success)
      && (s.result != Saved ==> s.result == Failed(OrElse(update(payload).error, UpdateFailedMessage)))
    ensures s.result == Saved ==>
      var picture := SubmittedPicture(sc.form, upload);
      && s.screen.student == UpdatePayload(sc.student, sc.form, picture)
      && s.screen.form == sc.form.(newImage := None)
      && s.screen.original == Original(sc.form.mobileNo, sc.form.email, picture)
    ensures HasChanges(sc.form, sc.original) && IsFormValid(sc.form) ==>
      s.requests == RequestsSent(sc.student, sc.form, upload) && s.screen.errors == NoErrors
  {
    if !HasChanges(sc.form, sc.original) then Submission(sc, NoChanges, [])
    else
      var errors := ValidateForm(sc.form);
      if errors != NoErrors then Submission(sc.(errors := errors), InvalidForm, [])
      else SubmitValidated(sc.(errors := errors), upload, update)
  }

  /** Clearing the email field never clears the stored email: the payload keeps the student's. */
  lemma ClearedEmailKeepsStoredEmail(sc: Screen, upload: string -> UploadReply, update: Student -> UpdateReply)
    requires sc.form.email == ""
    ensures var s := HandleSubmit(sc, upload, update);
      forall i :: 0 <= i < |s.requests| && s.requests[i].PutStudent? ==>
        s.requests[i].payload.email == sc.student.email
  {
  }
}
