/** The submit handlers of the capsule forms, with the network replaced by
    its possible answers: validation before the guard is raised, the
    payloads sent, the upload-error messages and the decision taken on the
    server's answer. */
module CapsuleForms {
  import opened Wrappers
  import opened Text
  import opened Media
  import opened Members

  // ---------------------------------------------------------------------
  // Error answers.

  /** `error.response.data` of a failed request, as far as the forms read it. */
  datatype ErrorData = ErrorData(code: Option<string>, message: Option<string>, notFoundMembers: Option<seq<Member>>)

  /** A rejected request: the server's body when it answered at all, and the
      message of the JavaScript error. */
  datatype HttpError = HttpError(data: Option<ErrorData>, message: Option<string>)

  function ServerMessage(err: HttpError): Option<string> {
    if err.data.Some? then err.data.value.message else None
  }

  /** `error.response?.data?.message || error.message || fallback`: the first
      truthy message, so never empty. */
  function FailureMessage(err: HttpError, fallback: string): (msg: string)
    requires fallback != ""
    ensures msg != ""
    ensures Truthy(ServerMessage(err)) ==> msg == ServerMessage(err).value
    ensures !Truthy(ServerMessage(err)) && Truthy(err.message) ==> msg == err.message.value
    ensures !Truthy(ServerMessage(err)) && !Truthy(err.message) ==> msg == fallback
  {
    OrElse(ServerMessage(err), OrElse(err.message, fallback))
  }

  // ---------------------------------------------------------------------
  // Collaborative capsule creation.

  /** The empty-input check run before the guard is raised: an error exactly
      when the member text trims to nothing. */
  function MemberInputError(input: string): (err: Option<string>)
    ensures err.Some? <==> Trim(input) == ""
    ensures err.Some? ==> err.value == "At least one member is required."
  {
    if Trim(input) == "" then Some("At least one member is required.") else None
  }

  /** The member text is refused exactly when it is all white space. */
  lemma MemberInputErrorIffBlank(input: string)
    ensures MemberInputError(input).Some? <==> AllSpace(input, 0, |input|)
  {
    TrimEmptyIffBlank(input);
  }

  /** The form's fields travel as typed: the lock date is sent as the string
      the date input holds, empty included. */
  datatype CollabPayload = CollabPayload(
    title: string, description: string, lockDate: string,
    memberEmails: seq<Member>, kind: string)

  function CollabPayloadOf(title: string, description: string, lockDate: string, memberInput: string): (p: CollabPayload)
    ensures p.title == title && p.description == description
    ensures p.kind == "collaborative" && p.lockDate == lockDate
    ensures p.memberEmails == ParseMemberInput(memberInput)
    ensures |p.memberEmails| == |Split(memberInput, ',')|
  {
    CollabPayload(title, description, lockDate, ParseMemberInput(memberInput), "collaborative")
  }

  /** `memberStatus` of a successful creation. */
  datatype MemberStatus = MemberStatus(found: seq<Member>, notFound: Option<seq<Member>>)

  /** What the form does once the server has answered. */
  datatype AfterCreate =
    | StayAndWarn(status: MemberStatus)
    | NavigateHome
    | ShowError(shown: Option<MemberStatus>, message: string)

  /** A successful answer keeps the user on the form when some members were
      not found, and leaves for the dashboard otherwise; a failed one shows
      the server's list of unknown members, if any, and a message. */
  function AfterCollabCreate(answer: Result<Option<MemberStatus>>, failure: HttpError): (a: AfterCreate)
    ensures answer.Ok? ==> (a.StayAndWarn? <==> answer.value.Some? && answer.value.value.notFound.Some? && |answer.value.value.notFound.value| > 0)
    ensures answer.Ok? ==> (a.StayAndWarn? ==> a.status == answer.value.value) && (a.NavigateHome? || a.StayAndWarn?)
    ensures answer.Err? ==> a.ShowError? && a.message == FailureMessage(failure, "Error creating capsule")
    ensures answer.Err? ==> (a.shown.Some? <==> failure.data.Some? && failure.data.value.notFoundMembers.Some?)
    ensures a.ShowError? && a.shown.Some? ==> a.shown.value == MemberStatus([], failure.data.value.notFoundMembers)
  {
    match answer
    case Ok(status) =>
      if status.Some? && status.value.notFound.Some? && |status.value.notFound.value| > 0 then StayAndWarn(status.value)
      else NavigateHome
    case Err(_) =>
      var nf := if failure.data.Some? then failure.data.value.notFoundMembers else None;
      ShowError(if nf.Some? then Some(MemberStatus([], nf)) else None, FailureMessage(failure, "Error creating capsule"))
  }

  /** An answer that lists an unknown member never leaves the form. */
  lemma UnknownMemberKeepsForm(found: seq<Member>, missing: Member)
    ensures AfterCollabCreate(Ok(Some(MemberStatus(found, Some([missing])))), HttpError(None, None)) ==
              StayAndWarn(MemberStatus(found, Some([missing])))
  {
  }

  // ---------------------------------------------------------------------
  // Uploads.

  /** The chosen file, as far as the forms read it. */
  datatype FileInfo = FileInfo(mime: string)

  /** The body of a successful upload: some views read `url`, others
      `fileUrl`. */
  datatype UploadReply = UploadReply(url: Option<string>, fileUrl: Option<string>)

  /** The upload error texts of the personal form. */
  const TypeNotAllowed := "File type not allowed. Please check the list of allowed file types."
  const NoFileReceived := "No file was received by the server. Please try again."
  const DefaultUploadError := "File upload failed"

  /** The message the personal form's `uploadFile` throws with after a
      rejected upload. A body from the server decides the message on its
      own; the error's message is consulted only when there is no body. */
  function UploadErrorMessage(err: HttpError): (msg: string)
    ensures msg != ""
    ensures err.data.Some? && err.data.value.code == Some("file_type_not_allowed") ==>
              msg == OrElse(err.data.value.message, TypeNotAllowed)
    ensures err.data.Some? && err.data.value.code == Some("no_file") ==>
              msg == NoFileReceived
    ensures err.data.Some? && err.data.value.code != Some("file_type_not_allowed") && err.data.value.code != Some("no_file") ==>
              msg == OrElse(err.data.value.message, DefaultUploadError)
    ensures err.data.None? ==> msg == OrElse(err.message, DefaultUploadError)
  {
    match err.data
    case Some(d) =>
      if d.code == Some("file_type_not_allowed") then OrElse(d.message, TypeNotAllowed)
      else if d.code == Some("no_file") then NoFileReceived
      else OrElse(d.message, DefaultUploadError)
    case None => OrElse(err.message, DefaultUploadError)
  }

  /** A server body without an error code or message hides the error's own
      message: the fixed default is shown instead. */
  lemma BodyShadowsErrorMessage(m: string)
    requires m != ""
    ensures UploadErrorMessage(HttpError(Some(ErrorData(None, None, None)), Some(m))) == "File upload failed"
    ensures UploadErrorMessage(HttpError(None, Some(m))) == m
  {
  }

  /** The personal form's `uploadFile`: the url of the reply, or the message
      it throws with. A reply without a url throws, is caught by the same
      function's handler (which finds no server body) and is re-thrown with
      the same message. */
  function PersonalUpload(reply: Result<UploadReply>, err: HttpError): (r: Result<string>)
    ensures r.Ok? ==> reply.Ok? && r.value != "" && Some(r.value) == reply.value.url
    ensures reply.Ok? && Truthy(reply.value.url) ==> r == Ok(reply.value.url.value)
    ensures reply.Ok? && !Truthy(reply.value.url) ==> r == Err("No URL returned from upload")
    ensures reply.Err? ==> r == Err(UploadErrorMessage(err))
    ensures r.Err? ==> r.message != ""
  {
    match reply
    case Ok(body) =>
      if Truthy(body.url) then Ok(body.url.value)
      else Err(UploadErrorMessage(HttpError(None, Some("No URL returned from upload"))))
    case Err(_) => Err(UploadErrorMessage(err))
  }

  /** The url the entry forms and the capsule manager get from their upload:
      nothing when no file was chosen or the upload failed, otherwise the
      reply's field as it is (possibly missing or empty). */
  function QuietUpload(file: Option<FileInfo>, reply: Result<UploadReply>, readsFileUrl: bool): (u: Option<string>)
    ensures file.None? || reply.Err? ==> u.None?
    ensures file.Some? && reply.Ok? ==> u == (if readsFileUrl then reply.value.fileUrl else reply.value.url)
  {
    if file.None? || reply.Err? then None
    else if readsFileUrl then reply.value.fileUrl
    else reply.value.url
  }

  // ---------------------------------------------------------------------
  // Personal capsule creation.

  /** A typed media item as the payloads carry it. */
  function Uploaded(url: string, f: FileInfo): MediaRef {
    MediaObject(Some(url), Some(f.mime))
  }

  /** A date input's value: the empty string is sent as `null`. */
  function DateOrNull(s: string): (r: Option<string>)
    ensures r.None? <==> s == ""
    ensures r.Some? ==> r.value == s
  {
    if s == "" then None else Some(s)
  }

  datatype PersonalPayload = PersonalPayload(
    title: string, description: string, media: seq<MediaRef>,
    lockDate: Option<string>, kind: string)

  /** What the personal form does on submit while idle: refuse without a
      file, report an upload failure, or post the capsule. */
  datatype PersonalSubmit =
    | Refused(message: string)
    | UploadFailed(message: string)
    | Posted(payload: PersonalPayload)

  function PersonalSubmitOf(title: string, description: string, lockDate: string,
                            file: Option<FileInfo>, reply: Result<UploadReply>, err: HttpError): (s: PersonalSubmit)
    ensures s.Refused? <==> file.None?
    ensures s.Refused? ==> s.message == "Media file is required."
    ensures s.UploadFailed? ==> s.message != ""
    ensures s.Posted? ==> file.Some? && reply.Ok? && Truthy(reply.value.url)
    ensures s.Posted? ==> s.payload.title == title && s.payload.description == description
    ensures s.Posted? ==> s.payload.kind == "personal" && s.payload.lockDate == DateOrNull(lockDate)
    ensures s.Posted? ==> s.payload.media == [Uploaded(reply.value.url.value, file.value)]
    ensures file.Some? && reply.Ok? && Truthy(reply.value.url) ==> s.Posted?
  {
    if file.None? then Refused("Media file is required.")
    else
      match PersonalUpload(reply, err)
      case Err(m) => UploadFailed(m)
      case Ok(url) =>
        Posted(PersonalPayload(title, description, [Uploaded(url, file.value)], DateOrNull(lockDate), "personal"))
  }

  /** A personal capsule is never posted without its media: every posted
      payload carries exactly one typed item with a non-empty url. */
  lemma PersonalPostHasMedia(title: string, description: string, lockDate: string,
                             file: Option<FileInfo>, reply: Result<UploadReply>, err: HttpError)
    requires PersonalSubmitOf(title, description, lockDate, file, reply, err).Posted?
    ensures |PersonalSubmitOf(title, description, lockDate, file, reply, err).payload.media| == 1
    ensures TreeNormalize(PersonalSubmitOf(title, description, lockDate, file, reply, err).payload.media[0]).url != ""
  {
  }

  /** Where a personal submission ends: back on the dashboard, or on the
      form with a message. */
  datatype Outcome = Home | ErrorShown(message: string)

  /** The upload's message survives the outer handler unchanged, since the
      error it throws carries no server body; a post that fails shows the
      server's message, the error's, or a fixed text. */
  function PersonalOutcome(s: PersonalSubmit, postOk: bool, postErr: HttpError): (o: Outcome)
    ensures s.Refused? ==> o == ErrorShown(s.message)
    ensures s.UploadFailed? && s.message != "" ==> o == ErrorShown(s.message)
    ensures s.Posted? ==> (o.Home? <==> postOk)
    ensures s.Posted? && !postOk ==> o == ErrorShown(FailureMessage(postErr, "Error creating capsule"))
    ensures o.ErrorShown? && !s.Refused? ==> o.message != ""
  {
    match s
    case Refused(m) => ErrorShown(m)
    case UploadFailed(m) => ErrorShown(FailureMessage(HttpError(None, Some(m)), "Error creating capsule"))
    case Posted(_) => if postOk then Home else ErrorShown(FailureMessage(postErr, "Error creating capsule"))
  }

  // ---------------------------------------------------------------------
  // The personal form's storage connectivity test.

  /** `s3Status`: `null` until the test answers (and for good without a
      token), then whether it passed and the text shown for it. */
  datatype S3Status = S3Untested | S3Answered(success: bool, message: string)

  const S3Warning := "Warning: S3 storage connection failed. File uploads may not work."

  /** The status the test leaves: passed exactly when the request succeeded;
      a failure shows the server's message or a fixed text. */
  function S3TestStatus(ok: bool, err: HttpError): (st: S3Status)
    ensures st.S3Answered? && (st.success <==> ok)
    ensures !ok ==> st.message == OrElse(ServerMessage(err), "S3 connection failed")
    ensures st.message != ""
  {
    if ok then S3Answered(true, "S3 connection successful")
    else S3Answered(false, OrElse(ServerMessage(err), "S3 connection failed"))
  }

  /** The form's error line after the test: a failed test replaces it with
      the storage warning, a passed one leaves it alone. */
  function S3TestError(ok: bool, shown: string): (e: string)
    ensures ok ==> e == shown
    ensures !ok ==> e == S3Warning && e != ""
  {
    if ok then shown else S3Warning
  }

  /** The submit button is enabled while no request is in flight, unless the
      test has answered with a failure. */
  function SubmitEnabled(submitting: bool, s3: S3Status): (b: bool)
    ensures b ==> !submitting
    ensures b <==> !submitting && !(s3.S3Answered? && !s3.success)
  {
    !(submitting || (s3.S3Answered? && !s3.success))
  }

  /** A failed connectivity test blocks the personal form for good: the
      button stays disabled, while an unanswered or passed test does not
      block it. */
  lemma FailedS3TestBlocksSubmit(err: HttpError)
    ensures !SubmitEnabled(false, S3TestStatus(false, err))
    ensures SubmitEnabled(false, S3TestStatus(true, err))
    ensures SubmitEnabled(false, S3Untested)
  {
  }

  // ---------------------------------------------------------------------
  // Entries of a collaborative capsule.

  datatype EntryPayload = EntryPayload(content: string, lockDate: Option<string>, media: seq<MediaRef>)

  /** The entry payload of both detail views: one typed item exactly when a
      file was chosen and its upload gave a truthy url; a failed upload still
      posts the entry, without media. */
  function EntryPayloadOf(content: string, lockDate: string, file: Option<FileInfo>, uploaded: Option<string>): (p: EntryPayload)
    ensures p.content == content && p.lockDate == DateOrNull(lockDate)
    ensures |p.media| <= 1
    ensures |p.media| == 1 <==> file.Some? && Truthy(uploaded)
    ensures |p.media| == 1 ==> p.media[0] == Uploaded(uploaded.value, file.value)
  {
    EntryPayload(content, DateOrNull(lockDate),
      if file.Some? && Truthy(uploaded) then [Uploaded(uploaded.value, file.value)] else [])
  }

  /** A failed upload does not stop the entry: it is posted with no media. */
  lemma FailedUploadStillPosts(content: string, lockDate: string, f: FileInfo, err: HttpError)
    ensures EntryPayloadOf(content, lockDate, Some(f), QuietUpload(Some(f), Err("failed"), false)).media == []
    ensures EntryPayloadOf(content, lockDate, Some(f), QuietUpload(Some(f), Err("failed"), false)).content == content
  {
  }

  /** A view reading `fileUrl` drops the media of a reply that only carries
      `url`, where the view reading `url` keeps it. */
  lemma FileUrlFieldMismatch(f: FileInfo, u: string)
    requires u != ""
    ensures |EntryPayloadOf("", "", Some(f), QuietUpload(Some(f), Ok(UploadReply(Some(u), None)), false)).media| == 1
    ensures EntryPayloadOf("", "", Some(f), QuietUpload(Some(f), Ok(UploadReply(Some(u), None)), true)).media == []
  {
  }

  /** The entry form after the post: emptied on success, kept as typed with
      an error message on failure. */
  datatype EntryForm = EntryForm(content: string, lockDate: string, file: Option<FileInfo>, success: string, error: string)

  const EntryAdded := "Memory added successfully!"
  const EntryFailed := "Error adding memory entry."

  /** Both messages are cleared before the post, then the answer sets one of
      them: success empties the fields and the file, failure keeps them. */
  function AfterEntryPost(form: EntryForm, ok: bool): (r: EntryForm)
    ensures ok ==> r == EntryForm("", "", None, EntryAdded, "")
    ensures !ok ==> r == form.(success := "", error := EntryFailed)
  {
    var cleared := form.(success := "", error := "");
    if ok then cleared.(content := "", lockDate := "", file := None, success := EntryAdded)
    else cleared.(error := EntryFailed)
  }

  /** After a post exactly one message is shown, whatever the form showed
      before: the success text iff the post succeeded, the error text iff it
      failed. */
  lemma OneMessageAfterPost(form: EntryForm, ok: bool)
    ensures var r := AfterEntryPost(form, ok);
            (r.success != "" <==> ok) && (r.error != "" <==> !ok)
  {
  }

  /** After a successful post the next submission starts from empty fields
      and no file, so it posts an entry without media. */
  lemma ResetFormPostsNothingExtra(form: EntryForm, u: Option<string>)
    ensures var r := AfterEntryPost(form, true);
            EntryPayloadOf(r.content, r.lockDate, r.file, u) == EntryPayload("", None, [])
  {
  }

  // ---------------------------------------------------------------------
  // The capsule manager.

  datatype ManagerPayload = ManagerPayload(
    title: string, content: string, media: seq<string>,
    lockDate: Option<string>, memberEmails: seq<string>)

  /** The manager's payload: media is the bare url string when the upload
      gave a truthy one, the lock date is `null` when empty, and the member
      e-mails are the trimmed non-empty comma pieces. */
  function ManagerPayloadOf(title: string, content: string, lockDate: string, emails: string, uploaded: Option<string>): (p: ManagerPayload)
    ensures p.media == [] <==> !Truthy(uploaded)
    ensures p.media != [] ==> p.media == [uploaded.value]
    ensures p.title == title && p.content == content
    ensures p.lockDate == DateOrNull(lockDate)
    ensures p.lockDate.None? <==> lockDate == ""
    ensures p.memberEmails == SplitEmails(emails)
  {
    ManagerPayload(title, content, if Truthy(uploaded) then [uploaded.value] else [], DateOrNull(lockDate), SplitEmails(emails))
  }

  /** The manager's bare-string media is what the tree view classifies by
      extension. */
  lemma ManagerMediaIsLegacy(title: string, content: string, lockDate: string, emails: string, u: string)
    requires u != ""
    ensures ManagerPayloadOf(title, content, lockDate, emails, Some(u)).media == [u]
    ensures TreeNormalize(UrlString(u)) == Normalized(u, LegacyMime(u))
  {
  }
}
