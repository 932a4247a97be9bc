/** `CardController`: the four card endpoints over the card table. A request
    parameter or body that fails its constraints is rejected before the
    handler runs; otherwise the handler calls the service and turns its
    result into a `ResponseEntity`, and an exception the service raises
    leaves the handler unanswered. */
module CardController {
  import opened Wrappers
  import opened Digits
  import opened CardConstant
  import opened CardEntityModel
  import opened CardDto
  import opened CardTable
  import opened CardServiceSpec

  const HTTP_OK: int := 200
  const HTTP_CREATED: int := 201
  const HTTP_EXPECTATION_FAILED: int := 417

  /** The status body the create, update and delete endpoints return. */
  datatype Response = Response(statusCode: string, statusMessage: string)

  datatype ResponseEntity<+T> = ResponseEntity(status: int, body: T)

  /** How a request ends: the handler's response, a rejection by validation
      before the handler ran, or an exception the service raised. */
  datatype Handled<+T> =
    | Responded(entity: ResponseEntity<T>)
    | Rejected(violations: set<Violation>)
    | Raised(error: ServiceError)

  /** The `@Pattern` on the `mobileNumber` request parameter. */
  function AcceptsMobileNumber(mobileNumber: string): (ok: bool)
    ensures ok <==> mobileNumber == "" || IsTwelveDigits(mobileNumber)
  {
    MobilePatternIff(mobileNumber);
    MatchesMobilePattern(mobileNumber)
  }

  /** The messages reported for a rejected request. */
  function Messages(violations: set<Violation>): set<string> {
    set v | v in violations :: v.Message()
  }

  /** A mobile-number parameter the pattern rejects is reported with the
      `@Pattern` annotation's own message, on every endpoint that takes one. */
  lemma RejectionMessage(t: Table, mobileNumber: string, random: int)
    requires 0 <= random < CARD_NUMBER_BOUND
    requires !AcceptsMobileNumber(mobileNumber)
    ensures Messages(Create(t, mobileNumber, random).result.violations) == {"Mobile Number must be 12 digits of number"}
    ensures Messages(Fetch(t, mobileNumber).violations) == {"Mobile Number must be 12 digits of number"}
    ensures Messages(Delete(t, mobileNumber).result.violations) == {"Mobile Number must be 12 digits of number"}
  {
    assert Messages({MobileNumberPattern}) == {MobileNumberPattern.Message()};
  }

  /** The empty number passes the parameter pattern; a five-digit one does not. */
  lemma PatternExamples()
    ensures AcceptsMobileNumber("")
    ensures !AcceptsMobileNumber("12345")
  {
  }

  /** The response `create` builds once `createCard` has returned. */
  function CreatedResponse(r: Outcome<ServiceError>): (h: Handled<Response>)
    ensures h.Responded? <==> r == Pass
    ensures h.Responded? ==> h.entity == ResponseEntity(201, Response("201", "Card created successfully"))
    ensures r.Fail? ==> h == Raised(r.error)
  {
    match r
    case Pass => Responded(ResponseEntity(HTTP_CREATED, Response(STATUS_201, MESSAGE_201)))
    case Fail(e) => Raised(e)
  }

  /** The response `update` and `delete` build from the service's boolean:
      200 on true and 417 on false, both endpoints with the update message. */
  function BooleanResponse(r: Result<bool, ServiceError>): (h: Handled<Response>)
    ensures h.Responded? <==> r.Success?
    ensures r == Success(true) ==>
      h.entity == ResponseEntity(200, Response("200", "Request processed successfully"))
    ensures r == Success(false) ==>
      && h.entity.status == 417 && h.entity.body.statusCode == "417"
      && h.entity.body.statusMessage == "Update operation failed. Please try again or contact Dev team"
      && h.entity.body.statusMessage != MESSAGE_417_DELETE
    ensures r.Failure? ==> h == Raised(r.error)
  {
    match r
    case Success(true) => Responded(ResponseEntity(HTTP_OK, Response(STATUS_200, MESSAGE_200)))
    case Success(false) => Responded(ResponseEntity(HTTP_EXPECTATION_FAILED, Response(STATUS_417, MESSAGE_417_UPDATE)))
    case Failure(e) => Raised(e)
  }

  /** `POST /api/create?mobileNumber=…`, given the service's random draw. */
  function Create(t: Table, mobileNumber: string, random: int): (r: Transition<Handled<Response>>)
    requires 0 <= random < CARD_NUMBER_BOUND
    ensures r.result.Rejected? <==> !(mobileNumber == "" || IsTwelveDigits(mobileNumber))
    ensures r.result.Rejected? ==> r.result.violations == {MobileNumberPattern}
    ensures r.result.Responded? <==>
      (mobileNumber == "" || IsTwelveDigits(mobileNumber)) && !HasCard(t.rows, mobileNumber)
    ensures r.result.Responded? ==> r.result.entity.status == HTTP_CREATED
    ensures !r.result.Responded? ==> r.after == t
  {
    if !AcceptsMobileNumber(mobileNumber) then
      Transition(Rejected({MobileNumberPattern}), t)
    else
      var s := CreateCard(t, mobileNumber, random);
      Transition(CreatedResponse(s.result), s.after)
  }

  /** `GET /api/fetch?mobileNumber=…`; the table is not changed. */
  function Fetch(t: Table, mobileNumber: string): (r: Handled<Card>)
    ensures r.Rejected? <==> !(mobileNumber == "" || IsTwelveDigits(mobileNumber))
    ensures r.Rejected? ==> r.violations == {MobileNumberPattern}
    ensures r.Responded? ==>
      && r.entity.status == HTTP_OK
      && exists id :: id in t.rows && t.rows[id].mobileNumber == mobileNumber
                      && r.entity.body == FromEntity(t.rows[id])
    ensures r == Raised(CardNotFound(mobileNumber)) <==>
      (mobileNumber == "" || IsTwelveDigits(mobileNumber)) && !HasCard(t.rows, mobileNumber)
  {
    if !AcceptsMobileNumber(mobileNumber) then
      Rejected({MobileNumberPattern})
    else
      match FetchCardInfo(t.rows, mobileNumber)
      case Success(card) => Responded(ResponseEntity(HTTP_OK, card))
      case Failure(e) => Raised(e)
  }

  /** `PUT /api/update` with a JSON card body checked by `@Valid`. */
  function Update(t: Table, card: Card): (r: Transition<Handled<Response>>)
    ensures r.result.Rejected? <==> !IsValid(card)
    ensures r.result.Rejected? ==> r.result.violations == Violations(card)
    ensures r.result.Responded? ==>
      r.result.entity == ResponseEntity(200, Response("200", "Request processed successfully"))
    ensures r.result == Raised(CardNotFound(card.mobileNumber)) <==>
      IsValid(card) && !HasCard(t.rows, card.mobileNumber)
    ensures !r.result.Responded? ==> r.after == t
  {
    if !IsValid(card) then
      Transition(Rejected(Violations(card)), t)
    else
      var s := UpdateCard(t, card);
      Transition(BooleanResponse(s.result), s.after)
  }

  /** `DELETE /api/delete?mobileNumber=…`. */
  function Delete(t: Table, mobileNumber: string): (r: Transition<Handled<Response>>)
    ensures r.result.Rejected? <==> !(mobileNumber == "" || IsTwelveDigits(mobileNumber))
    ensures r.result.Rejected? ==> r.result.violations == {MobileNumberPattern}
    ensures r.result.Responded? ==>
      r.result.entity == ResponseEntity(200, Response("200", "Request processed successfully"))
    ensures r.result == Raised(CardNotFound(mobileNumber)) <==>
      (mobileNumber == "" || IsTwelveDigits(mobileNumber)) && !HasCard(t.rows, mobileNumber)
    ensures !r.result.Responded? ==> r.after == t
  {
    if !AcceptsMobileNumber(mobileNumber) then
      Transition(Rejected({MobileNumberPattern}), t)
    else
      var s := DeleteCard(t, mobileNumber);
      Transition(BooleanResponse(s.result), s.after)
  }

  /** No endpoint breaks the one-card-per-number invariant. */
  lemma EndpointsPreserveInvariant(t: Table, mobileNumber: string, random: int, card: Card)
    requires Invariant(t) && 0 <= random < CARD_NUMBER_BOUND
    ensures Invariant(Create(t, mobileNumber, random).after)
    ensures Invariant(Update(t, card).after)
    ensures Invariant(Delete(t, mobileNumber).after)
  {
    CreatePreservesInvariant(t, mobileNumber, random);
    UpdatePreservesInvariant(t, card);
    DeletePreservesInvariant(t, mobileNumber);
  }

  /** Under the invariant, a valid request for a registered number is answered
      200 by update, delete and fetch alike, so the 417 branches never run. */
  lemma RegisteredNumberResponds(t: Table, card: Card)
    requires Invariant(t) && IsValid(card) && HasCard(t.rows, card.mobileNumber)
    ensures Update(t, card).result.Responded?
    ensures Delete(t, card.mobileNumber).result.Responded?
    ensures Fetch(t, card.mobileNumber).Responded?
  {
    ValidIff(card);
    UpdateExisting(t, card);
    DeleteExisting(t, card.mobileNumber);
    FetchUnderInvariant(t, card.mobileNumber);
  }

  /** Creating a card for a new number answers 201, and a fetch of that
      number then answers 200 with the issued card's defaults. */
  lemma CreateThenFetch(t: Table, mobileNumber: string, random: int)
    requires Invariant(t) && 0 <= random < CARD_NUMBER_BOUND
    requires IsTwelveDigits(mobileNumber) && !HasCard(t.rows, mobileNumber)
    ensures var created := Create(t, mobileNumber, random);
      && created.result == Responded(ResponseEntity(201, Response("201", "Card created successfully")))
      && var fetched := Fetch(created.after, mobileNumber);
         && fetched.Responded? && fetched.entity.status == 200
         && fetched.entity.body.mobileNumber == mobileNumber
         && fetched.entity.body.cardType == "Credit Card"
         && fetched.entity.body.totalLimit == 100000
         && fetched.entity.body.amountUsed == 0
         && fetched.entity.body.availableAmount == 100000
         && IsTwelveDigits(fetched.entity.body.cardNumber)
  {
    CreateThenFetchAndCreateAgain(t, mobileNumber, random, random);
  }

  /** The parameter pattern admits the empty number, which the card body's
      `@NotEmpty` forbids: `create` with "" answers 201 and stores a card
      whose own projection, fetched back and sent to `update`, is rejected. */
  lemma EmptyMobileNumberBypass(t: Table, random: int)
    requires Invariant(t) && 0 <= random < CARD_NUMBER_BOUND && !HasCard(t.rows, "")
    ensures var created := Create(t, "", random);
      && created.result.Responded?
      && var fetched := Fetch(created.after, "");
         && fetched.Responded?
         && var rejected := Update(created.after, fetched.entity.body).result;
            rejected.Rejected? && MobileNumberEmpty in rejected.violations
  {
    CreateThenFetchAndCreateAgain(t, "", random, random);
  }
}
