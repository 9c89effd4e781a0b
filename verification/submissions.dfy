/** Each guarded form's validation, fed to the shared guard: a submission
    the form refuses is an invalid submit, which leaves the guard idle and
    sends nothing. */
module Submissions {
  import opened Wrappers
  import opened Text
  import opened SubmitGuard
  import opened CapsuleForms
  import opened Registration

  /** Blank member text is refused before the guard is raised. */
  lemma BlankMembersSendNothing(m: Machine, input: string)
    requires m.guard == Idle
    requires AllSpace(input, 0, |input|)
    ensures Step(m, Submit(MemberInputError(input).None?)) == m
  {
    MemberInputErrorIffBlank(input);
  }

  /** The personal form without a file is refused before the guard is raised. */
  lemma MissingFileSendsNothing(m: Machine, title: string, description: string, lockDate: string,
                                reply: Result<UploadReply>, err: HttpError)
    requires m.guard == Idle
    ensures Step(m, Submit(!PersonalSubmitOf(title, description, lockDate, None, reply, err).Refused?)) == m
  {
  }

  /** Differing passwords are refused before the guard is raised, however the
      match flag reads. */
  lemma MismatchSendsNothing(m: Machine, pw: string, confirm: string)
    requires m.guard == Idle && pw != confirm
    ensures Step(m, Submit(MismatchError(pw, confirm).None?)) == m
  {
  }

  /** A form that passes its check raises the guard and sends one request. */
  lemma ValidSubmitSends(m: Machine, pw: string)
    requires m.guard == Idle
    ensures Step(m, Submit(MismatchError(pw, pw).None?)).sent == m.sent + 1
    ensures Step(m, Submit(MismatchError(pw, pw).None?)).guard == Submitting
  {
  }
}
