/** The public operation of the identity service: resolve the submitted
    email and/or phone number, then aggregate the anchor's cluster. */
module IdentifyService {
  import opened Wrappers
  import opened ContactEntity
  import opened ContactStore
  import opened Resolver
  import opened Aggregation

  /** The request body: both fields optional. */
  datatype Input = Input(email: Option<string>, phoneNumber: Option<string>)

  datatype Error = InvalidInput

  /** The store after the call, and the view or the error the call returns. */
  datatype Reply = Reply(store: Store, result: Result<View, Error>)

  /** A request field read as a JavaScript condition: absent, null and the
      empty string all count as not given. */
  function Given(v: Option<string>): (b: bool)
    ensures v.None? ==> !b
    ensures v == Some("") ==> !b
    ensures v.Some? && |v.value| > 0 ==> b
  {
    v.Some? && v.value != ""
  }

  /** The dispatch on the request: both fields, email only, phone number only,
      or neither, which is an error. */
  function Resolve(s: Store, input: Input, choice: Choice, now: int): (r: Result<Stored, Error>)
    requires WellFormed(s)
    ensures r.Failure? <==> !Given(input.email) && !Given(input.phoneNumber)
    ensures r.Failure? ==> r.error == InvalidInput
    ensures r.Success? ==> WellFormed(r.value.store)
    ensures Given(input.email) && Given(input.phoneNumber) ==>
      r == Success(HandleEmailAndPhoneNumber(s, input.email.value, input.phoneNumber.value, choice, now))
    ensures Given(input.email) && !Given(input.phoneNumber) ==>
      r == Success(HandleEmailOnly(s, input.email.value, choice.emailHint, now))
    ensures !Given(input.email) && Given(input.phoneNumber) ==>
      r == Success(HandlePhoneNumberOnly(s, input.phoneNumber.value, choice.phoneHint, now))
  {
    if Given(input.email) && Given(input.phoneNumber) then
      Success(HandleEmailAndPhoneNumber(s, input.email.value, input.phoneNumber.value, choice, now))
    else if Given(input.email) then
      Success(HandleEmailOnly(s, input.email.value, choice.emailHint, now))
    else if Given(input.phoneNumber) then
      Success(HandlePhoneNumberOnly(s, input.phoneNumber.value, choice.phoneHint, now))
    else
      Failure(InvalidInput)
  }

  /** `identifyService`: resolve, then project the anchor's cluster. An invalid
      request leaves the store as it was. */
  function Identify(s: Store, input: Input, choice: Choice, now: int): (r: Reply)
    requires WellFormed(s)
    ensures WellFormed(r.store)
    ensures r.result.Failure? <==> !Given(input.email) && !Given(input.phoneNumber)
    ensures r.result.Failure? ==> r.store == s && r.result.error == InvalidInput
  {
    match Resolve(s, input, choice, now)
    case Failure(e) => Reply(s, Failure(e))
    case Success(resolved) =>
      Reply(resolved.store, Success(Project(Gather(resolved.store, resolved.contact), resolved.contact)))
  }
}
