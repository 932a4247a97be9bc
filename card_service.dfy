/** `CardServiceImpl`: the service over a mutable `CardRepository`. Each
    method changes the repository exactly as its `CardServiceSpec` function
    says and keeps one card per mobile number. */
module CardService {
  import opened Wrappers
  import opened CardEntityModel
  import opened CardDto
  import opened CardStore
  import CardTable
  import Spec = CardServiceSpec

  class CardServiceImpl {
    const cardRepository: CardRepository

    ghost predicate Valid()
      reads this, cardRepository
    {
      Spec.Invariant(cardRepository.Snapshot())
    }

    constructor (cardRepository: CardRepository)
      requires Spec.Invariant(cardRepository.Snapshot())
      ensures this.cardRepository == cardRepository && Valid()
    {
      this.cardRepository := cardRepository;
    }

    /** Creates a card for a number not yet registered; the card number is
        drawn at random from the bound `Random.nextInt` is given. */
    method CreateCard(mobileNumber: string) returns (r: Outcome<Spec.ServiceError>)
      requires Valid()
      modifies cardRepository
      ensures Valid()
      ensures exists random ::
        && 0 <= random < Spec.CARD_NUMBER_BOUND
        && Spec.CreateCard(old(cardRepository.Snapshot()), mobileNumber, random)
           == Spec.Transition(r, cardRepository.Snapshot())
    {
      ghost var before := cardRepository.Snapshot();
      r := CheckIfCardAlreadyExist(mobileNumber);
      if r.Pass? {
        var random :| 0 <= random < Spec.CARD_NUMBER_BOUND;
        var _ := cardRepository.Save(Spec.GenerateCard(mobileNumber, random));
        Spec.CreatePreservesInvariant(before, mobileNumber, random);
        assert Spec.CreateCard(before, mobileNumber, random) == Spec.Transition(r, cardRepository.Snapshot());
      } else {
        assert Spec.CreateCard(before, mobileNumber, 0) == Spec.Transition(r, cardRepository.Snapshot());
      }
    }

    method CheckIfCardAlreadyExist(mobileNumber: string) returns (r: Outcome<Spec.ServiceError>)
      ensures r == Spec.CheckIfCardAlreadyExist(cardRepository.rows, mobileNumber)
    {
      var optionalCard := cardRepository.FindByMobileNumber(mobileNumber);
      match optionalCard
      case Failure(e) =>
        r := Fail(Spec.DataAccessFailure(e));
      case Success(found) =>
        r := if found.Some? then Fail(Spec.AlreadyRegistered(mobileNumber)) else Pass;
    }

    method FetchCardInfo(mobileNumber: string) returns (r: Result<Card, Spec.ServiceError>)
      ensures r == Spec.FetchCardInfo(cardRepository.rows, mobileNumber)
    {
      var optionalCard := cardRepository.FindByMobileNumber(mobileNumber);
      match optionalCard
      case Failure(e) =>
        r := Failure(Spec.DataAccessFailure(e));
      case Success(None) =>
        r := Failure(Spec.CardNotFound(mobileNumber));
      case Success(Some(cardEntity)) =>
        r := Success(FromEntity(cardEntity));
    }

    method UpdateCard(card: Card) returns (r: Result<bool, Spec.ServiceError>)
      requires Valid()
      modifies cardRepository
      ensures Valid()
      ensures Spec.UpdateCard(old(cardRepository.Snapshot()), card) == Spec.Transition(r, cardRepository.Snapshot())
    {
      ghost var before := cardRepository.Snapshot();
      Spec.UpdatePreservesInvariant(before, card);
      var optionalCard := cardRepository.FindByMobileNumber(card.mobileNumber);
      match optionalCard
      case Failure(e) =>
        r := Failure(Spec.DataAccessFailure(e));
      case Success(None) =>
        r := Failure(Spec.CardNotFound(card.mobileNumber));
      case Success(Some(found)) =>
        var cardEntity := Spec.UpdatedEntity(found, card);
        var _ := cardRepository.Save(cardEntity);
        r := Success(true);
    }

    method DeleteCard(mobileNumber: string) returns (r: Result<bool, Spec.ServiceError>)
      requires Valid()
      modifies cardRepository
      ensures Valid()
      ensures Spec.DeleteCard(old(cardRepository.Snapshot()), mobileNumber) == Spec.Transition(r, cardRepository.Snapshot())
    {
      ghost var before := cardRepository.Snapshot();
      Spec.DeletePreservesInvariant(before, mobileNumber);
      var optionalCard := cardRepository.FindByMobileNumber(mobileNumber);
      match optionalCard
      case Failure(e) =>
        r := Failure(Spec.DataAccessFailure(e));
      case Success(None) =>
        r := Failure(Spec.CardNotFound(mobileNumber));
      case Success(Some(cardEntity)) =>
        cardRepository.DeleteById(cardEntity.cardId);
        r := Success(true);
    }
  }

  /** A client of the service on an empty store: create, a second create
      of the same number, and fetch. */
  method CreateScenario(mobileNumber: string) {
    var repository := new CardRepository();
    var service := new CardServiceImpl(repository);

    ghost var t0 := repository.Snapshot();
    var created := service.CreateCard(mobileNumber);
    ghost var draw :| 0 <= draw < Spec.CARD_NUMBER_BOUND
      && Spec.CreateCard(t0, mobileNumber, draw) == Spec.Transition(created, repository.Snapshot());
    Spec.CreateFresh(t0, mobileNumber, draw);
    assert created == Pass;

    ghost var t1 := repository.Snapshot();
    var again := service.CreateCard(mobileNumber);
    ghost var draw' :| 0 <= draw' < Spec.CARD_NUMBER_BOUND
      && Spec.CreateCard(t1, mobileNumber, draw') == Spec.Transition(again, repository.Snapshot());
    Spec.CreateThenFetchAndCreateAgain(t0, mobileNumber, draw, draw');
    assert again == Fail(Spec.AlreadyRegistered(mobileNumber));

    var fetched := service.FetchCardInfo(mobileNumber);
    assert fetched.Success? && fetched.value.cardType == "Credit Card";
    assert fetched.value.totalLimit == 100000 && fetched.value.amountUsed == 0 && fetched.value.availableAmount == 100000;
  }

  /** A client of the service holding a registered card: update it, fetch
      the update back, delete it, and find it gone. */
  method UpdateDeleteScenario(service: CardServiceImpl, card: Card)
    requires service.Valid() && CardTable.HasCard(service.cardRepository.rows, card.mobileNumber)
    modifies service.cardRepository
  {
    ghost var t2 := service.cardRepository.Snapshot();
    var updated := service.UpdateCard(card);
    Spec.UpdateThenFetch(t2, card);
    assert updated == Success(true);
    var refetched := service.FetchCardInfo(card.mobileNumber);
    assert refetched == Success(card);

    ghost var t3 := service.cardRepository.Snapshot();
    var deleted := service.DeleteCard(card.mobileNumber);
    Spec.DeleteThenFetchAndDeleteAgain(t3, card.mobileNumber);
    assert deleted == Success(true);
    var gone := service.FetchCardInfo(card.mobileNumber);
    assert gone == Failure(Spec.CardNotFound(card.mobileNumber));
    var deletedAgain := service.DeleteCard(card.mobileNumber);
    assert deletedAgain == Failure(Spec.CardNotFound(card.mobileNumber));
  }
}
