# Capsule frontend: a verified model of its decision logic

The capsule frontend is a React application for "time capsules": personal
capsules and collaborative capsules whose members add memory entries.
Capsules and entries may carry a lock date, and before that date the views
show a countdown instead of the content. This project models, in Dafny,
the logic those components contain once markup, HTTP and timers are
stripped away. It covers:

- **Locks and the countdown** (`lock_clock.dfy`): the lock test the views repeat; `calculateTimeLeft` with integer milliseconds; the Timer's non-zero-field display.
- **Media classification** (`media.dfy`): the tree view's legacy extension table and its object normalisation; the detail views' MIME-prefix rule.
- **Member input** (`members.dfy`, `member_examples.dfy`): `parseMemberInput`, including the regular expression `(.*)<(.*)>` as JavaScript runs it; the capsule manager's plain e-mail list.
- **List aggregation** (`grouping.dfy`, `lists.dfy`): the group-by-day `reduce`, the locked/unlocked tally, and how each tree reads the list response.
- **Display decisions** (`views.dfy`, over the records of `capsule.dfy`): entry and capsule bodies, labels with fallbacks, the member line, and the single time snapshot of the collaborative tree.
- **Submission** (`guard.dfy`, `forms.dfy`, `register.dfy`, `submissions.dfy`): the `isSubmitting` guard as a state machine, form validation, payloads, upload-error messages, the reaction to the server's answer, and the password-strength meter.

Modelling choices:

- Instants are integer milliseconds, and a lock date is an `Option`. With exact arithmetic, the JavaScript `Math.floor((d / u) % m)` equals the integer `(d / u) % m` (`LockClock.JsFloorRemIsIntegerRem`, proved over Dafny's exact `real`), so the countdown is modelled on `int`.
- Every network call becomes a parameter holding its possible answers: a reply, or an error carrying an optional server body and message.
- The day key of the grouping (`toLocaleDateString`) is a parameter of the generic `Grouping.GroupBy`.
- Strings are sequences of code points.

## Model

| member | source | states |
|---|---|---|
| LockClock.AbsentDateNeverLocked | src/components/CollaborativeCapsuleTree.js:38-39 | a capsule without a lock date is never shown locked |
| LockClock.UnlockBoundary | src/components/CapsuleDetail.js:135 | an entry is unlocked at its lock instant itself and locked one millisecond before |
| LockClock.UnlockIsPermanent | src/components/CapsuleManager.js:151 | once the lock test is false it stays false as time moves forward |
| LockClock.CalculateTimeLeft | src/components/Timer.js:4-16 | fields exist exactly when the target is still in the future; days is the whole days of the difference; hours < 24, minutes and seconds < 60; the fields floor the difference to whole seconds |
| LockClock.WholeSeconds | src/components/Timer.js:9-12 | the four fields together are the difference in whole seconds |
| LockClock.TimeLeftUnique | src/components/Timer.js:9-12 | any in-range breakdown that floors the difference is the one computed, so the breakdown is unique |
| LockClock.CountdownNonIncreasing | src/components/Timer.js:21-23 | re-evaluating later never shows more time left |
| LockClock.RealFloorQuotient | src/components/Timer.js:9 | flooring the real quotient of naturals is integer division |
| LockClock.JsFloorRemIsIntegerRem | src/components/Timer.js:10-12 | floor of the truncating remainder of the real quotient equals the integer remainder of the integer quotient |
| LockClock.NonZero | src/components/Timer.js:28-35 | keeps every non-zero field and only those, in their order; empty iff all fields are zero |
| LockClock.Display | src/components/Timer.js:27-36 | the countdown lists every non-zero field and only those, days to seconds; "Unlocked" exactly when there are no fields or all four are zero |
| LockClock.ShowsUnlockedIffUnderASecond | src/components/Timer.js:5-12 | the Timer shows "Unlocked" exactly when less than one second remains |
| Media.KindOfMime | src/components/CapsuleDetail.js:156-170 | video iff the type starts with `video/`, audio iff it starts with `audio/`, image otherwise |
| Media.LegacyMime | src/components/PersonalCapsuleTree.js:89-97 | `.mp4`, `.webm`, `.mp3` on the lower-cased url give their MIME types, and every other url gives image/jpeg |
| Media.TreeNormalize | src/components/PersonalCapsuleTree.js:86-101 | a string keeps its url with the extension's type; an object with a url keeps it with its type or image/jpeg; an object without a url gives empty url and type |
| Media.LegacyStringKinds | src/components/PersonalCapsuleTree.js:89-117 | a legacy string is video iff it ends in .mp4 or .webm, audio iff .mp3, ignoring case |
| Media.LegacyCaseInsensitive | src/components/PersonalCapsuleTree.js:89-93 | urls that agree after lower-casing get the same type and kind |
| Media.TreeKindIdempotent | src/components/PersonalCapsuleTree.js:86-117 | classifying the normalised `{url, type}` gives the kind of the original item |
| Media.TreeNormalizeFixedPoint | src/components/PersonalCapsuleTree.js:98-100 | normalising a normalised item with a url changes nothing |
| Media.DetailRender | src/components/CapsuleDetail.js:156-179 | a string is an image of itself; an object is classified by its type (missing type is an image); images take a truthy url or the whole item |
| Media.DetailAgreesWithTree | src/components/CollaborativeCapsuleDetail.js:158-176 | for typed objects with a url the detail rule and the tree rule give the same kind and url |
| Media.LegacyVideoShownAsImageInDetail | src/components/CapsuleDetail.js:202-225 | a bare url ending in .mp4 or .webm, in any letter case, is a video in the tree view but an image in the detail views |
| Media.LegacyVideoExample | src/components/PersonalCapsuleTree.js:89-90 | "a.mp4" is classified as video |
| Media.LegacyDocumentExample | src/components/PersonalCapsuleTree.js:95-96 | "a.pdf" falls back to image |
| Media.TypedExamples | src/components/PersonalCapsuleTree.js:98-117 | a typed audio object is audio in both views; a typed object without url is an image in the tree |
| Text.Trim | src/components/CollaborativeCapsule.js:35 | the result is an infix no longer than the input with no white space at either end |
| Text.TrimIsInfix | src/components/CollaborativeCapsule.js:35 | trimming removes only white space, from both ends |
| Text.TrimEmptyIffBlank | src/components/CollaborativeCapsule.js:57 | a text trims to nothing exactly when it is all white space |
| Text.TrimIdempotent | src/components/CollaborativeCapsule.js:35-38 | trimming a trimmed text changes nothing |
| Text.ToLower | src/components/PersonalCapsuleTree.js:89 | same length, each character mapped on its own |
| Text.ToLowerIdempotent | src/components/Register.js:73 | lower-casing twice is lower-casing once |
| Text.Split | src/components/CollaborativeCapsule.js:34 | at least one piece, no piece holds the separator, and joining the pieces gives the input back |
| Text.SplitFirst | src/components/CapsuleManager.js:57 | a piece before the first separator is split off whole |
| Text.SplitJoin | src/components/CollaborativeCapsule.js:34 | splitting a join of separator-free pieces gives the pieces back |
| Members.LineEnd | src/components/CollaborativeCapsule.js:36 | the end of the line `.` can span from a position |
| Members.LastIndex | src/components/CollaborativeCapsule.js:36 | the last occurrence of a character in a range, or none |
| Members.MatchFrom | src/components/CollaborativeCapsule.js:36 | a hit exists iff some `<` is followed by `>` on its line; the hit is the leftmost line with such a pair, its `>` the last on that line, its `<` the last before it |
| Members.ParseToken | src/components/CollaborativeCapsule.js:35-41 | a token with no `<` followed by `>` on its line (in particular one lacking `<` or `>`) becomes a member named "Unknown" with the token as e-mail; a hit gives the two capture groups, trimmed, as name and e-mail |
| Members.ParsePieces | src/components/CollaborativeCapsule.js:34-42 | one member per piece, in order, each parsed from the trimmed piece |
| Members.SplitCount | src/components/CollaborativeCapsule.js:34 | the pieces number one more than the commas |
| Members.MemberCount | src/components/CollaborativeCapsule.js:34 | the parse yields one member per comma-separated piece, empty pieces included |
| Members.BarePiece | src/components/CollaborativeCapsule.js:39-40 | a piece without `<` yields name "Unknown" and the trimmed piece as e-mail |
| Members.ParseFormat | src/components/CollaborativeCapsule.js:36-38 | `Name <email>` of a well-formed member parses back to that member |
| Members.ParseFormatList | src/components/CollaborativeCapsule.js:33-43 | a well-formed member list written as `Name <email>, ...` parses back to the same list |
| Members.PlainWellFormed | src/components/CollaborativeCapsule.js:36-38 | non-empty names and e-mails made of letters, digits, `@`, `.` and inner spaces form members that round-trip |
| Members.DropEmpty | src/components/CapsuleManager.js:59 | equals the reference filter by non-emptiness: the non-empty strings, in input order, duplicates kept |
| Members.SplitEmails | src/components/CapsuleManager.js:56-59 | the trimmed comma pieces filtered to the non-empty ones, in input order with duplicates kept; each result trimmed and non-empty |
| Members.NonBlankAgreesWithParse | src/components/CapsuleManager.js:56-59 | without `<`, trimming and dropping blanks gives the non-empty e-mails of the member parse |
| Members.SplitEmailsAgreesWithParse | src/components/CapsuleManager.js:56-59 | without `<` the manager's list equals the non-empty e-mails of `parseMemberInput` on the same text |
| MemberExamples.TwoNamedMembers | src/components/CollaborativeCapsule.js:14 | two plain `Name <email>` items joined by ", " parse to those two members |
| MemberExamples.CommentExample | src/components/CollaborativeCapsule.js:14 | the example from the form's comment parses to John Doe and Jane Doe with their addresses |
| Grouping.Filter | src/components/PersonalCapsuleTree.js:21 | never longer than its input |
| Grouping.FilterCounts | src/components/PersonalCapsuleTree.js:21 | keeps every passing item as often as it occurs and nothing else |
| Grouping.Add | src/components/PersonalCapsuleTree.js:33-36 | a new key is appended after all existing ones, a known key leaves the key order unchanged; no group becomes empty |
| Grouping.AddItems | src/components/PersonalCapsuleTree.js:34-35 | the item is pushed at the end of its key's group and no other group changes |
| Grouping.AddFlatten | src/components/PersonalCapsuleTree.js:35 | one step adds exactly the one item to the grouped contents |
| Grouping.GroupBy | src/components/PersonalCapsuleTree.js:32-37 | group keys are distinct and no group is empty |
| Grouping.FirstOccurrences | src/components/PersonalCapsuleTree.js:58 | exactly the keys occurring in the input |
| Grouping.GroupByKeyOrder | src/components/PersonalCapsuleTree.js:32-37 | the groups appear in first-occurrence order of their keys |
| Grouping.GroupByItems | src/components/PersonalCapsuleTree.js:33-35 | the items under a key are exactly the inputs with that key, in input order |
| Grouping.GroupIsFilter | src/components/PersonalCapsuleTree.js:32-37 | every group equals the input filtered by the group's key |
| Grouping.GroupByPermutes | src/components/PersonalCapsuleTree.js:32-37 | the concatenated groups are a permutation of the input |
| CapsuleLists.OfKindExact | src/components/PersonalCapsuleTree.js:21 | filtering by type keeps exactly the capsules of that type |
| CapsuleLists.PersonalList | src/components/PersonalCapsuleTree.js:18-22 | a present `personal` array is used as is; a flat array is filtered to personal capsules; otherwise reading throws and the list stays |
| CapsuleLists.CollaborativeList | src/components/CollaborativeCapsuleTree.js:17-20 | a present `collaborative` array is used as is; a flat array is filtered; no data gives []; an object without the array throws |
| CapsuleLists.FlatListSplitsByKind | src/components/CollaborativeCapsuleTree.js:19 | from a flat array the two trees get disjoint lists covering every capsule of either type |
| CapsuleLists.CountLockStates | src/components/PersonalCapsuleTree.js:40-48 | with one clock reading per capsule, locked + unlocked is the number of capsules, and locked counts exactly the capsules whose lock date lies after their own reading |
| CapsuleLists.LockedCountBetween | src/components/PersonalCapsuleTree.js:42-43 | readings taken between `lo` and `hi` give a locked count between the counts of a single reading at `hi` and at `lo` |
| CapsuleLists.OneReading | src/components/PersonalCapsuleTree.js:42-43 | when every reading is the same instant the locked count is the number of capsules locked at that instant |
| Views.CreatorLabel | src/components/CollaborativeCapsuleTree.js:68 | the preferred field when truthy, a non-empty id, else the fallback; the user object itself iff a user lacks the field; text is never empty |
| Views.TreeTitle | src/components/CollaborativeCapsuleTree.js:45 | the title when truthy, else "Untitled Capsule"; never empty |
| Views.ShownMembers | src/components/CollaborativeCapsuleTree.js:50-53 | when there are detailed members, label i is `name (email)` of member i, a missing field printed as "undefined"; otherwise label i is plain member i's e-mail, or "Unknown Email" when it is falsy |
| Views.MemberLine | src/components/CollaborativeCapsuleTree.js:50-54 | the labels joined by ", ", or "No members found" when the capsule lists none |
| Views.JoinCommaCount | src/components/CollaborativeCapsuleTree.js:51 | joining comma-free labels by ", " puts one comma between neighbours |
| Views.MemberLineCount | src/components/CollaborativeCapsuleTree.js:51-53 | with comma-free labels the line splits back into one piece per shown member |
| Views.Summarize | src/components/CollaborativeCapsuleTree.js:36-69 | one snapshot decides the capsule lock and every entry's lock; one line per entry with its creator label; the empty-entries text iff there are none |
| Views.SharedSnapshot | src/components/CollaborativeCapsuleTree.js:37-59 | a locked capsule shows every entry unlocking no earlier as still counting |
| Views.NonBlank | src/components/PersonalCapsuleTree.js:76 | a text is kept only when it trims to something |
| Views.NonBlankIffNotAllSpace | src/components/PersonalCapsuleTree.js:132 | a text is shown exactly when it has a non-white-space character |
| Views.Leaf | src/components/PersonalCapsuleTree.js:63-135 | countdown iff locked; once unlocked the non-blank description, every media item normalised, and the content iff not blank |
| Views.DetailEntryBody | src/components/CapsuleDetail.js:135-184 | countdown iff locked; media iff unlocked with media, each rendered by the detail rule; otherwise the content when truthy and "No content" when not; never fails |
| Views.CollabEntryBodyAsWritten | src/components/CollaborativeCapsuleDetail.js:108-121 | the render fails exactly for an unlocked entry with media; otherwise it matches the capsule detail |
| Views.RenderMediaUndefined | src/components/CollaborativeCapsuleDetail.js:118 | an unlocked entry with one image makes the view fail |
| Views.CollabEntryBody | src/components/CollaborativeCapsuleDetail.js:117-121 | never fails; countdown iff locked; media iff unlocked with media, each item by the rule of lines 158-176; otherwise the content when truthy and "No content" when not |
| Views.CollabEntryBodyAgrees | src/components/CollaborativeCapsuleDetail.js:117-121 | corrected, the entry shows as in the capsule detail, and differs from the written code only where that fails |
| Views.CollabDetailCreator | src/components/CollaborativeCapsuleDetail.js:128 | the creator's name, a non-empty id, or "Unknown Member"; the user object itself iff it has no name |
| Views.DetailCreator | src/components/CapsuleDetail.js:140 | the creator's e-mail, a non-empty id, or "Unknown"; the user object itself iff it has no e-mail |
| Views.TreeAndDetailCreatorsAgree | src/components/CollaborativeCapsuleTree.js:68 | the collaborative tree credits every entry to the creator the capsule detail view shows |
| Views.DetailCapsuleBody | src/components/CapsuleDetail.js:234-256 | countdown iff the capsule is locked; otherwise its content iff truthy and every media item by the detail rule |
| Views.CapsuleLockIgnoresEntries | src/components/CapsuleDetail.js:234 | the capsule's lock and section do not depend on its entries |
| Views.DescriptionHiddenAfterUnlock | src/components/CollaborativeCapsuleDetail.js:142-146 | a capsule whose lock date has passed is shown unlocked yet its description stays hidden |
| SubmitGuard.Step | src/components/CollaborativeCapsule.js:49-62 | a submit while submitting or failing validation changes nothing; a valid submit while idle sends one request; settling releases the guard; consistency is preserved |
| SubmitGuard.Run | src/components/CollaborativeCapsule.js:45-105 | any event sequence preserves "guard raised iff one request pending" and sent = settled + pending |
| SubmitGuard.UnguardedSent | src/components/CollaborativeCapsuleDetail.js:66-72 | a form without guard sends one request for every valid submit in the event sequence |
| SubmitGuard.AtMostOneInFlight | src/components/CapsuleDetail.js:76-83 | at most one request is ever pending, and sent requests exceed answered ones by at most one |
| SubmitGuard.DoubleClickSendsOnce | src/components/PersonalCapsule.js:101-111 | two quick valid submits send one request |
| SubmitGuard.SettleReleases | src/components/PersonalCapsule.js:146-147 | after the answer, success or failure, the form can send again |
| SubmitGuard.UnguardedDoubleClickSendsTwice | src/components/CapsuleManager.js:48-53 | without the guard two quick submits send two requests |
| CapsuleForms.FailureMessage | src/components/CollaborativeCapsule.js:101 | the server's message, else the error's, else the fixed text; never empty |
| CapsuleForms.MemberInputError | src/components/CollaborativeCapsule.js:57-60 | "At least one member is required." exactly when the input trims to nothing |
| CapsuleForms.MemberInputErrorIffBlank | src/components/CollaborativeCapsule.js:57 | the member text is refused exactly when it is all white space |
| CapsuleForms.CollabPayloadOf | src/components/CollaborativeCapsule.js:66-72 | title and description sent unchanged, type "collaborative", the lock date sent as typed, one parsed member per comma piece |
| CapsuleForms.AfterCollabCreate | src/components/CollaborativeCapsule.js:84-101 | success stays and warns iff `notFound` is non-empty, else goes home; failure shows the server's unknown members, if any, with found = [], and a message |
| CapsuleForms.UnknownMemberKeepsForm | src/components/CollaborativeCapsule.js:84-86 | an answer listing an unknown member keeps the user on the form |
| CapsuleForms.UploadErrorMessage | src/components/PersonalCapsule.js:77-93 | the message by error code, then the server's message, then the error's when there is no body, then the default; never empty |
| CapsuleForms.BodyShadowsErrorMessage | src/components/PersonalCapsule.js:79-91 | a server body without code or message hides the error's own message |
| CapsuleForms.PersonalUpload | src/components/PersonalCapsule.js:67-93 | success only with a truthy url; a reply without url fails with "No URL returned from upload"; a rejected upload fails with the mapped message |
| CapsuleForms.QuietUpload | src/components/CapsuleDetail.js:50-69 | nothing without a file or after a failed upload, else the reply's field as is |
| CapsuleForms.DateOrNull | src/components/PersonalCapsule.js:129 | an empty date becomes null, any other is kept |
| CapsuleForms.PersonalSubmitOf | src/components/PersonalCapsule.js:106-131 | refused iff no file; posted iff the upload gave a url, with the title and description unchanged, type "personal", one typed media item and the nulled date |
| CapsuleForms.S3TestStatus | src/components/PersonalCapsule.js:21-33 | the test passes exactly when its request succeeds; a failure carries the server's message or "S3 connection failed"; never an empty message |
| CapsuleForms.S3TestError | src/components/PersonalCapsule.js:28-33 | a failed test replaces the form's error line with the storage warning, a passed one leaves it |
| CapsuleForms.SubmitEnabled | src/components/PersonalCapsule.js:205 | the button is enabled exactly when nothing is in flight and the test has not answered with a failure |
| CapsuleForms.FailedS3TestBlocksSubmit | src/components/PersonalCapsule.js:21-38 | a failed test disables the personal submit button, a passed or unanswered one does not |
| CapsuleForms.PersonalPostHasMedia | src/components/PersonalCapsule.js:121-128 | a posted personal capsule carries exactly one media item with a non-empty url |
| CapsuleForms.PersonalOutcome | src/components/PersonalCapsule.js:141-145 | home iff the post succeeds; an upload failure's message is shown unchanged; a failed post shows the message chain |
| CapsuleForms.EntryPayloadOf | src/components/CapsuleDetail.js:86-99 | content as typed, lock date nulled when empty, one typed media item iff a file was chosen and its url is truthy |
| CapsuleForms.FailedUploadStillPosts | src/components/CapsuleDetail.js:65-68 | a failed upload still posts the entry, without media |
| CapsuleForms.FileUrlFieldMismatch | src/components/CollaborativeCapsuleDetail.js:58 | a reply carrying only `url` keeps the media for the view reading `url` and drops it for the view reading `fileUrl` |
| CapsuleForms.AfterEntryPost | src/components/CapsuleDetail.js:80-120 | both messages are cleared before the post; success empties the fields and file and shows only the success text; failure keeps the fields and shows only the error |
| CapsuleForms.OneMessageAfterPost | src/components/CapsuleDetail.js:80-120 | whatever was shown before, after a post the success text is shown iff it succeeded and the error iff it failed |
| CapsuleForms.ResetFormPostsNothingExtra | src/components/CapsuleDetail.js:114-115 | after a success the next entry starts empty, with no media |
| CapsuleForms.ManagerPayloadOf | src/components/CapsuleManager.js:61-67 | title and content sent unchanged; media is [] iff the url is falsy, else exactly the bare url; the lock date as typed, or null when empty; the trimmed non-empty e-mails |
| CapsuleForms.ManagerMediaIsLegacy | src/components/CapsuleManager.js:64 | the manager's media is a bare string, which the tree classifies by extension |
| Registration.Score | src/components/Register.js:30-37 | the number of the five tests (lower case, upper case, digit, special character, length 8) the password passes; hence 5 iff all pass and 0 iff none does |
| Registration.Level | src/components/Register.js:39-42 | "" for 0, "weak" for 1-2, "medium" for 3-4, "strong" above |
| Registration.LevelMonotone | src/components/Register.js:39-42 | a higher score never shows a lower level |
| Registration.Strength | src/components/Register.js:24-44 | an empty password shows nothing, any other the level of its score |
| Registration.StrongIffAllTests | src/components/Register.js:30-42 | "strong" iff all five tests pass; a non-empty password can still show nothing |
| Registration.StrengthGrowsWithInput | src/components/Register.js:23-45 | typing one more character never weakens the meter |
| Registration.MatchFlag | src/components/Register.js:48-54 | matching iff the confirmation is empty or equal |
| Registration.MismatchError | src/components/Register.js:61-64 | "Passwords do not match" exactly when the two differ |
| Registration.FlagAndSubmitCheck | src/components/Register.js:48-64 | a flagged mismatch always blocks the submit; the flag shows a match while the submit refuses exactly when the confirmation is empty and the password is not |
| Registration.RegisterPayloadOf | src/components/Register.js:71-76 | the e-mail is sent lower-cased with its length kept, the rest as typed |
| Registration.PayloadEmailStable | src/components/Register.js:73 | re-submitting the lower-cased e-mail sends the same payload |
| Registration.RegisterFailure | src/components/Register.js:83 | the server's message, else "Registration failed"; never empty |
| Submissions.BlankMembersSendNothing | src/components/CollaborativeCapsule.js:57-62 | blank member text leaves the guard idle and sends nothing |
| Submissions.MissingFileSendsNothing | src/components/PersonalCapsule.js:106-111 | without a file the guard stays idle and nothing is sent |
| Submissions.MismatchSendsNothing | src/components/Register.js:61-66 | differing passwords leave the guard idle and send nothing |
| Submissions.ValidSubmitSends | src/components/Register.js:66 | matching passwords raise the guard and send one request |

## Left out

- HTTP calls (axios), `alert`, navigation, `console` output, and the React render cycle: answers and outcomes are parameters and results.
- SubmitGuard.Step: state updates are taken to be immediate. Two clicks in the same React tick could both read the stale `isSubmitting`. The buttons are also disabled while submitting; that is markup and not modelled.
- Timer scheduling (`setInterval`, `clearInterval`): only one re-evaluation is modelled, by `CountdownNonIncreasing`.
- Date parsing, time zones and `toLocaleDateString`: instants are integers and the day key is a parameter. An unparsable date (`NaN`) is modelled as an absent lock date. That is exact for the lock tests, which compare the date and find every comparison with `NaN` false, but not for presence tests: the collaborative detail view hides the description of any capsule whose lock date is present (CollaborativeCapsuleDetail.js:142), so for a present but unparsable date `Views.CollabDescriptionShown` shows a description the view hides.
- Grouping.GroupBy: `Object.keys` lists integer-like keys first in numeric order. Locale date strings such as "1/2/2024" are not integer-like, so insertion order is kept; a locale producing bare integers is not modelled.
- Text.ToLower: only ASCII letters are lower-cased; the full Unicode case mapping of `toLowerCase` is not modelled.
- Views.ShownMembers: a template literal prints "undefined" for a missing member field but "null" for a `null` one; the model has one kind of missing field and prints "undefined" for it.
- JavaScript Numbers are IEEE-754 doubles: the rounding of `difference / u` and of the remainder is not modelled, only exact arithmetic (`LockClock.JsFloorRemIsIntegerRem`).
- Registration.Score: the length test counts code points, where JavaScript counts UTF-16 units; characters outside the Basic Multilingual Plane differ.
- The registration form stores the e-mail as typed (not lower-cased) for the one-time-password step; the verification step, login, password reset, routing, the navigation bar, the dashboard and the authentication context are not part of this model.
- JSX markup, CSS, the file inputs' `accept` lists and the `required` attributes (browser-side validation).
- Views.CreatorLabel: `ObjectChild` stands for React being handed a plain object; the error React then raises is not modelled further.
- Members.MatchFrom: the regular expression is modelled for `String.prototype.match` without flags, which is the only use.
- The S3 connectivity request itself: its outcome is a parameter of `CapsuleForms.S3TestStatus`.
- CapsuleLists.CountLockStates: the leaves of the personal tree read the clock again when they are drawn (PersonalCapsuleTree.js:63), so a lock date crossed between the summary and a leaf can be counted locked yet drawn unlocked; each leaf is modelled by `Views.Leaf` with its own instant, and the two readings are not related.
- CapsuleForms.AfterEntryPost: models the capsule detail's reaction. The collaborative detail view clears its fields and file the same way but sets no success text and re-fetches the capsule; the capsule manager's form reset is not modelled either.
- The entry payload of the collaborative detail view is `CapsuleForms.EntryPayloadOf` applied to the `fileUrl` field of the upload reply, as `CapsuleForms.FileUrlFieldMismatch` shows.
- The loading placeholders ("Loading capsule...") and the re-fetch after a post are not modelled.

Behaviour of the code worth knowing, which the model follows:

- The legacy extension table has only `.mp4`, `.webm` and `.mp3`.
- An object without a type but with a url is an image; its extension is not consulted.
- `parseMemberInput` keeps empty pieces, as members named "Unknown" with an empty e-mail; it does not drop them.
- The collaborative creation payload sends the lock date as typed (an empty string stays empty), while the entry, personal and manager payloads send `null`.

Observations without a Findings row:

- The collaborative detail view and the capsule manager read `fileUrl` from the upload reply, while the capsule detail and personal forms read `url` (`CapsuleForms.FileUrlFieldMismatch`). The server is not part of this model, so which field it returns cannot be settled here.
- The collaborative detail view shows a capsule's description only when it has no lock date, even after that date has passed (`Views.DescriptionHiddenAfterUnlock`).
- The collaborative tree computes `isCapsuleLocked` but shows nothing with it.

## Findings

| source | as written | input that shows it | evidently intended | confidence | as-written member | corrected member |
|---|---|---|---|---|---|---|
| src/components/CollaborativeCapsuleDetail.js:118 | an unlocked entry with media calls `renderMedia`, which this component neither defines nor imports, so rendering throws a ReferenceError | an entry with no lock date and media `["a.png"]` | render the entry's media with the video/audio/image rule the same component applies to the capsule's media (lines 158-176), as the capsule detail view does | high; not executed | Views.CollabEntryBodyAsWritten (shown by Views.RenderMediaUndefined) | Views.CollabEntryBody (proved equal to the capsule detail's entry body by Views.CollabEntryBodyAgrees) |
