/** What `CardServiceImpl` does, as functions from the card table before a
    call to its result and the table after it, and the properties of those
    functions: one card per mobile number is kept by every operation, new
    cards carry the fixed defaults, update and delete return true or fail. */
module CardServiceSpec {
  import opened Wrappers
  import opened Digits
  import opened CardConstant
  import opened CardEntityModel
  import opened CardDto
  import opened CardTable

  /** The exceptions the service raises, and the repository's failure it
      lets through. */
  datatype ServiceError =
    | CardAlreadyExist(responseMessage: string)
    | ResourceNotFound(resourceName: string, fieldName: string, fieldValue: string)
    | DataAccessFailure(cause: DataAccessError)

  function AlreadyRegistered(mobileNumber: string): ServiceError {
    CardAlreadyExist("Card already registered with given mobileNumber " + mobileNumber)
  }

  function CardNotFound(mobileNumber: string): ServiceError {
    ResourceNotFound("Card", "mobileNumber", mobileNumber)
  }

  /** A call's result together with the table it leaves behind. */
  datatype Transition<+R> = Transition(result: R, after: Table)

  /** The card number is this base plus `Random.nextInt(CARD_NUMBER_BOUND)`. */
  const CARD_NUMBER_BASE: nat := 100000000000
  const CARD_NUMBER_BOUND: nat := 900000000

  /** The table is consistent and holds at most one card per mobile number. */
  ghost predicate Invariant(t: Table) {
    WellFormed(t) && OneCardPerMobile(t.rows)
  }

  /** Every number the card-number formula can produce renders as twelve
      digits beginning "100". */
  lemma CardNumberRendering(n: nat)
    requires CARD_NUMBER_BASE <= n < CARD_NUMBER_BASE + CARD_NUMBER_BOUND
    ensures IsTwelveDigits(DecimalString(n)) && DecimalString(n)[..3] == "100"
  {
    assert Pow10(11) == CARD_NUMBER_BASE;
    assert Pow10(12) == 10 * CARD_NUMBER_BASE;
    DecimalStringLength(n, 11);
    DecimalStringIsDigits(n);
    assert Pow10(9) == 1000000000;
    assert n / Pow10(9) == 100;
    DecimalStringPrefix(n, 9);
    assert DecimalString(100) == "100";
  }

  /** `generateCard`, given the value `Random.nextInt(900000000)` drew. */
  function GenerateCard(mobileNumber: string, random: int): (e: CardEntity)
    requires 0 <= random < CARD_NUMBER_BOUND
    ensures e.cardId == 0 && Unaudited(e) && e.mobileNumber == mobileNumber
    ensures e.cardType == CREDIT_CARD && e.totalLimit as int == NEW_CARD_LIMIT
    ensures e.amountUsed == 0 && e.availableAmount as int == NEW_CARD_LIMIT
    ensures IsTwelveDigits(e.cardNumber) && e.cardNumber[..3] == "100"
    ensures AllDigits(e.cardNumber) && DigitsValue(e.cardNumber) == CARD_NUMBER_BASE + random
  {
    var n := CARD_NUMBER_BASE + random;
    CardNumberRendering(n);
    DecimalStringRoundTrip(n);
    NewCardEntity(mobileNumber, DecimalString(n), CREDIT_CARD,
                  NEW_CARD_LIMIT as Int32, 0, NEW_CARD_LIMIT as Int32)
  }

  /** `checkIfCardAlreadyExist`: passes exactly when no row holds the number. */
  function CheckIfCardAlreadyExist(rows: map<int, CardEntity>, mobileNumber: string): (r: Outcome<ServiceError>)
    ensures r == Pass <==> !HasCard(rows, mobileNumber)
    ensures |Matching(rows, mobileNumber)| == 1 ==> r == Fail(AlreadyRegistered(mobileNumber))
    ensures |Matching(rows, mobileNumber)| > 1 ==> r.Fail? && r.error.DataAccessFailure?
  {
    match FindByMobileNumber(rows, mobileNumber)
    case Failure(e) => Fail(DataAccessFailure(e))
    case Success(found) => if found.Some? then Fail(AlreadyRegistered(mobileNumber)) else Pass
  }

  /** `createCard`, given the value the random draw produced. */
  function CreateCard(t: Table, mobileNumber: string, random: int): (r: Transition<Outcome<ServiceError>>)
    requires 0 <= random < CARD_NUMBER_BOUND
    ensures r.result.Fail? <==> HasCard(t.rows, mobileNumber)
    ensures r.result.Fail? ==> r.after == t
  {
    var checked := CheckIfCardAlreadyExist(t.rows, mobileNumber);
    if checked.Fail? then Transition(checked, t)
    else Transition(Pass, Save(t, GenerateCard(mobileNumber, random)).table)
  }

  /** `fetchCardInfo`: the projection of the row holding the number. */
  function FetchCardInfo(rows: map<int, CardEntity>, mobileNumber: string): (r: Result<Card, ServiceError>)
    ensures r == Failure(CardNotFound(mobileNumber)) <==> !HasCard(rows, mobileNumber)
    ensures r.Success? ==>
      exists id :: id in rows && rows[id].mobileNumber == mobileNumber && r.value == FromEntity(rows[id])
    ensures r.Failure? && r.error.DataAccessFailure? <==> |Matching(rows, mobileNumber)| > 1
    ensures |Matching(rows, mobileNumber)| == 1 ==> r.Success?
  {
    match FindByMobileNumber(rows, mobileNumber)
    case Failure(e) => Failure(DataAccessFailure(e))
    case Success(None) => Failure(CardNotFound(mobileNumber))
    case Success(Some(e)) => Success(FromEntity(e))
  }

  /** The `copy` in `updateCard`: the stored entity with the card's six
      business fields. */
  function UpdatedEntity(e: CardEntity, card: Card): (r: CardEntity)
    ensures SameIdentity(r, e) && FromEntity(r) == card
  {
    Copy(e, card.mobileNumber, card.cardNumber, card.cardType, card.totalLimit, card.amountUsed, card.availableAmount)
  }

  /** `updateCard`: looks the row up by the card's own mobile number. */
  function UpdateCard(t: Table, card: Card): (r: Transition<Result<bool, ServiceError>>)
    ensures r.result != Success(false)
    ensures r.result.Failure? ==> r.after == t
    ensures r.result == Failure(CardNotFound(card.mobileNumber)) <==> !HasCard(t.rows, card.mobileNumber)
  {
    match FindByMobileNumber(t.rows, card.mobileNumber)
    case Failure(e) => Transition(Failure(DataAccessFailure(e)), t)
    case Success(None) => Transition(Failure(CardNotFound(card.mobileNumber)), t)
    case Success(Some(e)) => Transition(Success(true), Save(t, UpdatedEntity(e, card)).table)
  }

  /** `deleteCard`: deletes by the `cardId` of the row the lookup found. */
  function DeleteCard(t: Table, mobileNumber: string): (r: Transition<Result<bool, ServiceError>>)
    ensures r.result != Success(false)
    ensures r.result.Failure? ==> r.after == t
    ensures r.result == Failure(CardNotFound(mobileNumber)) <==> !HasCard(t.rows, mobileNumber)
    ensures r.result.Success? ==>
      exists id :: id in t.rows && t.rows[id].mobileNumber == mobileNumber
                   && r.after == DeleteById(t, t.rows[id].cardId)
  {
    match FindByMobileNumber(t.rows, mobileNumber)
    case Failure(e) => Transition(Failure(DataAccessFailure(e)), t)
    case Success(None) => Transition(Failure(CardNotFound(mobileNumber)), t)
    case Success(Some(e)) => Transition(Success(true), DeleteById(t, e.cardId))
  }

  // ---------------------------------------------------------------------
  // createCard

  /** A number already registered: creation fails with the service's message
      and the table is untouched. */
  lemma CreateExisting(t: Table, mobileNumber: string, random: int)
    requires Invariant(t) && HasCard(t.rows, mobileNumber)
    requires 0 <= random < CARD_NUMBER_BOUND
    ensures CreateCard(t, mobileNumber, random) == Transition(Fail(AlreadyRegistered(mobileNumber)), t)
  {
    OneCardPerMobileMatchesAtMostOne(t.rows, mobileNumber);
  }

  /** What `createCard` stores for a new number under a new identifier. */
  ghost predicate IsIssuedCard(e: CardEntity, id: int, mobileNumber: string) {
    e.cardId == id && e.mobileNumber == mobileNumber && Unaudited(e)
    && e.cardType == "Credit Card" && e.totalLimit == 100000 && e.amountUsed == 0 && e.availableAmount == 100000
    && IsTwelveDigits(e.cardNumber) && e.cardNumber[..3] == "100"
    && CARD_NUMBER_BASE <= DigitsValue(e.cardNumber) < CARD_NUMBER_BASE + CARD_NUMBER_BOUND
  }

  /** A fresh number: creation succeeds and adds exactly one row, under the
      next identifier, holding a newly issued card; every other row stays. */
  lemma CreateFresh(t: Table, mobileNumber: string, random: int)
    requires WellFormed(t) && !HasCard(t.rows, mobileNumber)
    requires 0 <= random < CARD_NUMBER_BOUND
    ensures var r := CreateCard(t, mobileNumber, random);
      && r.result == Pass
      && t.nextId !in t.rows
      && r.after.rows.Keys == t.rows.Keys + {t.nextId}
      && r.after.nextId == t.nextId + 1
      && (forall id :: id in t.rows ==> r.after.rows[id] == t.rows[id])
      && IsIssuedCard(r.after.rows[t.nextId], t.nextId, mobileNumber)
  {
    var e := GenerateCard(mobileNumber, random);
    assert !IsStored(t, e);
    var s := Save(t, e);
    assert s.entity == e.(cardId := t.nextId);
  }

  lemma CreatePreservesInvariant(t: Table, mobileNumber: string, random: int)
    requires Invariant(t) && 0 <= random < CARD_NUMBER_BOUND
    ensures Invariant(CreateCard(t, mobileNumber, random).after)
  {
    if !HasCard(t.rows, mobileNumber) {
      CreateFresh(t, mobileNumber, random);
      var after := CreateCard(t, mobileNumber, random).after;
      forall i, j | i in after.rows && j in after.rows && after.rows[i].mobileNumber == after.rows[j].mobileNumber
        ensures i == j
      {
        if i != t.nextId && j != t.nextId {
          assert t.rows[i].mobileNumber == t.rows[j].mobileNumber;
        }
      }
    }
  }

  /** After creating a card for a fresh number, fetching it returns the
      issued card, and creating again fails as already registered. */
  lemma CreateThenFetchAndCreateAgain(t: Table, mobileNumber: string, random: int, random': int)
    requires Invariant(t) && !HasCard(t.rows, mobileNumber)
    requires 0 <= random < CARD_NUMBER_BOUND && 0 <= random' < CARD_NUMBER_BOUND
    ensures var after := CreateCard(t, mobileNumber, random).after;
      && FetchCardInfo(after.rows, mobileNumber) == Success(FromEntity(after.rows[t.nextId]))
      && IsIssuedCard(after.rows[t.nextId], t.nextId, mobileNumber)
      && CreateCard(after, mobileNumber, random') == Transition(Fail(AlreadyRegistered(mobileNumber)), after)
  {
    CreateFresh(t, mobileNumber, random);
    CreatePreservesInvariant(t, mobileNumber, random);
    var after := CreateCard(t, mobileNumber, random).after;
    assert HasCard(after.rows, mobileNumber) by {
      assert after.rows[t.nextId].mobileNumber == mobileNumber;
    }
    FindByMobileNumberUnique(after, mobileNumber);
    CreateExisting(after, mobileNumber, random');
  }

  // ---------------------------------------------------------------------
  // fetchCardInfo

  /** Under the invariant a fetch either finds the number's card or fails
      with not-found; it never reports a multiple-result failure. */
  lemma FetchUnderInvariant(t: Table, mobileNumber: string)
    requires Invariant(t)
    ensures var r := FetchCardInfo(t.rows, mobileNumber);
      HasCard(t.rows, mobileNumber) <==> r.Success?
    ensures var r := FetchCardInfo(t.rows, mobileNumber);
      r.Success? ==> r.value.mobileNumber == mobileNumber
  {
    OneCardPerMobileMatchesAtMostOne(t.rows, mobileNumber);
  }

  // ---------------------------------------------------------------------
  // updateCard

  /** An existing number: update returns true and rewrites that one row as
      the stored entity with the card's business fields; nothing else
      changes, the identifier generator included. */
  lemma UpdateExisting(t: Table, card: Card)
    requires Invariant(t) && HasCard(t.rows, card.mobileNumber)
    ensures var r := UpdateCard(t, card);
      r.result == Success(true)
      && exists id :: id in t.rows && t.rows[id].mobileNumber == card.mobileNumber
           && r.after == Table(t.rows[id := UpdatedEntity(t.rows[id], card)], t.nextId)
  {
    FindByMobileNumberUnique(t, card.mobileNumber);
    var e := FindByMobileNumber(t.rows, card.mobileNumber).value.value;
    var id := e.cardId;
    assert IsStored(t, UpdatedEntity(e, card));
    assert UpdateCard(t, card).after == Table(t.rows[id := UpdatedEntity(t.rows[id], card)], t.nextId);
  }

  lemma UpdatePreservesInvariant(t: Table, card: Card)
    requires Invariant(t)
    ensures Invariant(UpdateCard(t, card).after)
  {
    if HasCard(t.rows, card.mobileNumber) {
      UpdateExisting(t, card);
      var after := UpdateCard(t, card).after;
      var id :| id in t.rows && t.rows[id].mobileNumber == card.mobileNumber
                && after == Table(t.rows[id := UpdatedEntity(t.rows[id], card)], t.nextId);
      forall i, j | i in after.rows && j in after.rows && after.rows[i].mobileNumber == after.rows[j].mobileNumber
        ensures i == j
      {
        assert after.rows[i].mobileNumber == t.rows[i].mobileNumber;
        assert after.rows[j].mobileNumber == t.rows[j].mobileNumber;
      }
    } else {
      FindByMobileNumberUnique(t, card.mobileNumber);
    }
  }

  /** After a successful update, fetching by the same number returns exactly
      the card that was sent. */
  lemma UpdateThenFetch(t: Table, card: Card)
    requires Invariant(t) && HasCard(t.rows, card.mobileNumber)
    ensures FetchCardInfo(UpdateCard(t, card).after.rows, card.mobileNumber) == Success(card)
  {
    UpdateExisting(t, card);
    UpdatePreservesInvariant(t, card);
    var after := UpdateCard(t, card).after;
    var id :| id in t.rows && t.rows[id].mobileNumber == card.mobileNumber
              && after == Table(t.rows[id := UpdatedEntity(t.rows[id], card)], t.nextId);
    assert after.rows[id].mobileNumber == card.mobileNumber;
    FindByMobileNumberUnique(after, card.mobileNumber);
  }

  /** Updating with the card a fetch returned leaves the table as it was. */
  lemma UpdateWithFetchedCardIsNoOp(t: Table, mobileNumber: string)
    requires Invariant(t) && HasCard(t.rows, mobileNumber)
    ensures var c := FetchCardInfo(t.rows, mobileNumber);
      c.Success? && UpdateCard(t, c.value) == Transition(Success(true), t)
  {
    FindByMobileNumberUnique(t, mobileNumber);
    var e := FindByMobileNumber(t.rows, mobileNumber).value.value;
    var c := FromEntity(e);
    assert UpdatedEntity(e, c) == e;
    assert t.rows[e.cardId := e] == t.rows;
  }

  // ---------------------------------------------------------------------
  // deleteCard

  /** An existing number: delete returns true and removes exactly that row;
      afterwards no row holds the number. */
  lemma DeleteExisting(t: Table, mobileNumber: string)
    requires Invariant(t) && HasCard(t.rows, mobileNumber)
    ensures var r := DeleteCard(t, mobileNumber);
      r.result == Success(true)
      && (exists id :: id in t.rows && t.rows[id].mobileNumber == mobileNumber
                       && r.after == Table(t.rows - {id}, t.nextId))
      && !HasCard(r.after.rows, mobileNumber)
  {
    FindByMobileNumberUnique(t, mobileNumber);
    var r := DeleteCard(t, mobileNumber);
    var id := FindByMobileNumber(t.rows, mobileNumber).value.value.cardId;
    assert r.after == Table(t.rows - {id}, t.nextId);
    if HasCard(r.after.rows, mobileNumber) {
      assert false;
    }
  }

  lemma DeletePreservesInvariant(t: Table, mobileNumber: string)
    requires Invariant(t)
    ensures Invariant(DeleteCard(t, mobileNumber).after)
  {
  }

  /** After a delete, both a fetch and a second delete of the number fail
      with not-found. */
  lemma DeleteThenFetchAndDeleteAgain(t: Table, mobileNumber: string)
    requires Invariant(t) && HasCard(t.rows, mobileNumber)
    ensures var after := DeleteCard(t, mobileNumber).after;
      && FetchCardInfo(after.rows, mobileNumber) == Failure(CardNotFound(mobileNumber))
      && DeleteCard(after, mobileNumber) == Transition(Failure(CardNotFound(mobileNumber)), after)
  {
    DeleteExisting(t, mobileNumber);
  }

  // ---------------------------------------------------------------------
  // Any sequence of calls

  /** One call of the service, with the random draw a `createCard` made. */
  datatype Request =
    | CreateRequest(mobileNumber: string, random: int)
    | FetchRequest(mobileNumber: string)
    | UpdateRequest(card: Card)
    | DeleteRequest(mobileNumber: string)

  predicate IsDraw(q: Request) {
    q.CreateRequest? ==> 0 <= q.random < CARD_NUMBER_BOUND
  }

  /** The table after one call; a fetch changes nothing. */
  function Step(t: Table, q: Request): Table
    requires IsDraw(q)
  {
    match q
    case CreateRequest(m, random) => CreateCard(t, m, random).after
    case FetchRequest(_) => t
    case UpdateRequest(card) => UpdateCard(t, card).after
    case DeleteRequest(m) => DeleteCard(t, m).after
  }

  /** The table after a sequence of calls, in order. */
  function Run(t: Table, qs: seq<Request>): Table
    requires forall i :: 0 <= i < |qs| ==> IsDraw(qs[i])
    decreases |qs|
  {
    if qs == [] then t else Run(Step(t, qs[0]), qs[1..])
  }

  /** One card per mobile number holds after every call of every kind... */
  lemma StepPreservesInvariant(t: Table, q: Request)
    requires Invariant(t) && IsDraw(q)
    ensures Invariant(Step(t, q))
  {
    match q
    case CreateRequest(m, random) => CreatePreservesInvariant(t, m, random);
    case FetchRequest(_) =>
    case UpdateRequest(card) => UpdatePreservesInvariant(t, card);
    case DeleteRequest(m) => DeletePreservesInvariant(t, m);
  }

  /** ...and so after any sequence of calls. */
  lemma {:induction false} RunPreservesInvariant(t: Table, qs: seq<Request>)
    requires Invariant(t)
    requires forall i :: 0 <= i < |qs| ==> IsDraw(qs[i])
    ensures Invariant(Run(t, qs))
    decreases |qs|
  {
    if qs != [] {
      StepPreservesInvariant(t, qs[0]);
      assert forall i :: 0 <= i < |qs[1..]| ==> IsDraw(qs[1..][i]) by {
        forall i | 0 <= i < |qs[1..]| ensures IsDraw(qs[1..][i]) {
          assert qs[1..][i] == qs[i + 1];
        }
      }
      RunPreservesInvariant(Step(t, qs[0]), qs[1..]);
    }
  }

  predicate FailedOnDataAccess<T>(r: Result<T, ServiceError>) {
    r.Failure? && r.error.DataAccessFailure?
  }

  /** While the invariant holds, no operation surfaces the repository's
      multiple-result failure. */
  lemma NoDataAccessFailureUnderInvariant(t: Table, q: Request)
    requires Invariant(t) && IsDraw(q)
    ensures q.CreateRequest? ==> !FailedOnDataAccess(CreateCard(t, q.mobileNumber, q.random).result.ToResult())
    ensures q.FetchRequest? ==> !FailedOnDataAccess(FetchCardInfo(t.rows, q.mobileNumber))
    ensures q.UpdateRequest? ==> !FailedOnDataAccess(UpdateCard(t, q.card).result)
    ensures q.DeleteRequest? ==> !FailedOnDataAccess(DeleteCard(t, q.mobileNumber).result)
  {
    match q
    case CreateRequest(m, _) => FindByMobileNumberUnique(t, m);
    case FetchRequest(m) => FindByMobileNumberUnique(t, m);
    case UpdateRequest(card) => FindByMobileNumberUnique(t, card.mobileNumber);
    case DeleteRequest(m) => FindByMobileNumberUnique(t, m);
  }
}
