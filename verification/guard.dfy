/** The `isSubmitting` guard the creation and registration forms share:
    a submit while a request is in flight is ignored, a submit that fails
    validation sends nothing, and the `finally` block always releases the
    guard when the request settles. */
module SubmitGuard {
  datatype Guard = Idle | Submitting

  /** A form submission (passing or failing the form's own validation), or
      the settling of the pending request, successful or not. */
  datatype Event = Submit(valid: bool) | Settle

  /** The guard, the requests still pending, and the running totals of
      requests sent and settled. */
  datatype Machine = Machine(guard: Guard, pending: nat, sent: nat, settled: nat)

  const Start := Machine(Idle, 0, 0, 0)

  /** The guard is raised exactly while one request is pending, and every
      request sent is either pending or settled. */
  predicate Consistent(m: Machine) {
    m.pending <= 1
    && (m.guard == Submitting <==> m.pending == 1)
    && m.sent == m.settled + m.pending
  }

  /** One event of a guarded form. */
  function Step(m: Machine, e: Event): (r: Machine)
    ensures Consistent(m) ==> Consistent(r)
    ensures r.sent == m.sent + (if m.guard == Idle && e == Submit(true) then 1 else 0)
    ensures e.Submit? && m.guard == Submitting ==> r == m
    ensures e == Submit(false) ==> r == m
    ensures Consistent(m) && e.Settle? && m.guard == Submitting ==> r.guard == Idle && r.settled == m.settled + 1
  {
    match e
    case Submit(valid) =>
      if m.guard == Submitting || !valid then m
      else
        assert m.guard == Idle && e == Submit(true);
        m.(guard := Submitting, pending := m.pending + 1, sent := m.sent + 1)
    case Settle =>
      if m.pending == 0 then m
      else m.(guard := Idle, pending := m.pending - 1, settled := m.settled + 1)
  }

  function Run(m: Machine, es: seq<Event>): (r: Machine)
    ensures Consistent(m) ==> Consistent(r)
    ensures r.settled <= m.settled + Settles(es)
    decreases |es|
  {
    if |es| == 0 then m else Run(Step(m, es[0]), es[1..])
  }

  function Settles(es: seq<Event>): nat {
    if |es| == 0 then 0 else (if es[0].Settle? then 1 else 0) + Settles(es[1..])
  }

  /** Over any sequence of clicks and responses, at most one request is in
      flight, and the form never sends more than one request beyond those
      already answered. */
  lemma AtMostOneInFlight(es: seq<Event>)
    ensures Run(Start, es).pending <= 1
    ensures Run(Start, es).sent <= Settles(es) + 1
  {
  }

  /** A double click on a valid form sends one request. */
  lemma DoubleClickSendsOnce()
    ensures Run(Start, [Submit(true), Submit(true)]).sent == 1
    ensures Run(Start, [Submit(true), Submit(true)]).guard == Submitting
  {
  }

  /** After the response, failed or not, the form can submit again. */
  lemma SettleReleases()
    ensures Run(Start, [Submit(true), Settle, Submit(true)]).sent == 2
  {
  }

  /** The forms without a guard send on every valid submit. */
  function UnguardedSent(es: seq<Event>): (n: nat)
    ensures n == multiset(es)[Submit(true)]
    ensures n <= |es|
  {
    if |es| == 0 then 0
    else
      assert es == [es[0]] + es[1..];
      (if es[0] == Submit(true) then 1 else 0) + UnguardedSent(es[1..])
  }

  /** Without the guard a double click sends two requests. */
  lemma UnguardedDoubleClickSendsTwice()
    ensures UnguardedSent([Submit(true), Submit(true)]) == 2
    ensures Run(Start, [Submit(true), Submit(true)]).sent == 1
  {
  }
}
