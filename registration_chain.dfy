/** The promise chain that `userPost` runs once the form has passed its field
    test: a first step that refuses a registered e-mail or saves the user,
    and a second step that mails the confirmation and answers 201 for any
    truthy value the first step resolved with. The response is modelled by
    the statuses actually sent, in order; a status set after the response
    has gone out, or a header set then, throws. */
module RegistrationChain {
  import opened Records
  import opened Http

  /** What the first step resolves with: nothing, the response object (the
      value of `res.json(...)`), or the saved user. */
  datatype StepValue = Nothing | ResponseObject | SavedUser(user: User)

  /** What the request ends with: the statuses sent, the confirmation mails
      handed to the transporter, and whether the chain ends in a rejection
      that nothing handles. */
  datatype ChainEnd = ChainEnd(sent: seq<int>, mails: nat, unhandled: bool)

  /** The `.catch`: it answers 422, but answering throws once a response has
      been sent, and that rejection is handled by nobody. */
  function Catch(sent: seq<int>, mails: nat): (r: ChainEnd)
    ensures r.mails == mails
    ensures r.unhandled <==> sent != []
    ensures r.sent == if sent == [] then [UNPROCESSABLE] else sent
  {
    if sent != [] then ChainEnd(sent, mails, true) else ChainEnd([UNPROCESSABLE], mails, false)
  }

  /** The second step on the value of the first, with `sent` the responses
      already out: any truthy value is mailed and then answered with 201,
      whose `location` header throws into the `.catch` when a response has
      already been sent. */
  function SecondStep(value: StepValue, sent: seq<int>): (r: ChainEnd)
    ensures value.Nothing? ==> r == ChainEnd(sent, 0, false)
    ensures !value.Nothing? ==> r.mails == 1
    ensures !value.Nothing? && sent == [] ==> r == ChainEnd([CREATED], 1, false)
    ensures !value.Nothing? && sent != [] ==> r.unhandled && r.sent == sent
  {
    if value.Nothing? then ChainEnd(sent, 0, false)
    else if sent != [] then Catch(sent, 1)
    else ChainEnd([CREATED], 1, false)
  }

  /** The chain as written: after "Email already registered" the first step
      returns the value of `res.json(...)`, which is the (truthy) response. */
  function ChainAsWritten(emailRegistered: bool, saved: User): (r: ChainEnd)
    // Whatever the first step decided, a confirmation mail is sent.
    ensures r.mails == 1
    ensures r.sent != [] && r.sent[0] == if emailRegistered then UNPROCESSABLE else CREATED
  {
    if emailRegistered then SecondStep(ResponseObject, [UNPROCESSABLE])
    else SecondStep(SavedUser(saved), [])
  }

  /** As written, a duplicate e-mail gets its 422, and then a confirmation
      mail goes to the response object (which has no address), and the chain
      ends in a rejection nobody handles. */
  lemma DuplicateEmailAsWrittenIsUnhandled(saved: User)
    ensures ChainAsWritten(true, saved) == ChainEnd([UNPROCESSABLE], 1, true)
  {
  }

  /** The chain as intended: after the refusal the first step resolves with
      nothing, so the second step does nothing. */
  function Chain(emailRegistered: bool, saved: User): (r: ChainEnd)
    // Exactly one response is sent: 422 for a registered e-mail, else 201;
    // a mail goes out exactly for a new account; nothing is left unhandled.
    ensures r.sent == [if emailRegistered then UNPROCESSABLE else CREATED]
    ensures r.mails == (if emailRegistered then 0 else 1)
    ensures !r.unhandled
  {
    if emailRegistered then SecondStep(Nothing, [UNPROCESSABLE])
    else SecondStep(SavedUser(saved), [])
  }

  /** The two chains differ only after a refusal. */
  lemma ChainsAgreeOnNewAccounts(saved: User)
    ensures ChainAsWritten(false, saved) == Chain(false, saved)
  {
  }
}
