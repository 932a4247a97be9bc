# cards-v2 card service, modelled in Dafny

This project models the card microservice of the cards-v2 application. It stores one credit card per customer mobile number and serves four REST endpoints: create, fetch, update and delete.

- **Entity and transfer object.** The persisted `CardEntity` record is a datatype with an identifier, six business fields and four nullable audit fields. The `Card` transfer object is a datatype too. Its bean-validation constraints become a set of violations. Its projection from the entity becomes a function.
- **Repository.** The JPA repository is a card table: rows keyed by `cardId` plus the identifier generator's next value.
  - `CardTable` gives the meaning of `findByMobileNumber`, `save` and `deleteById` as functions on that value.
  - `CardStore.CardRepository` is the mutable store. It is a class whose methods update its `rows` and `nextId` fields exactly as those functions say.
- **Service.** `CardServiceSpec` states each `CardServiceImpl` operation as a function from the table before a call to the result and the table after it. It also proves the operations' properties. The main one is that at most one card holds each mobile number, after any call and after any sequence of calls.
  - `CardService.CardServiceImpl` is the imperative service over a `CardRepository`. Each method is proved to perform exactly its `CardServiceSpec` function's transition.
  - The random card-number draw is a nondeterministic choice in `[0, 900000000)`.
- **Controller.** `CardController` models the four endpoints. It covers the mobile-number parameter pattern, validation of the request body, and the mapping from the service's outcome to an HTTP status and a `Response` body.
- **Supporting modules.** `Digits` supplies decimal rendering and its general length, prefix and round-trip lemmas. `CardServiceSpec.CardNumberRendering` uses them to show that every possible card number renders as twelve digits beginning "100". `CardConstant` holds the service's literals, and `Wrappers` holds the `Option`, `Result` and `Outcome` types.

Exceptions are values. `CardAlreadyExistException` becomes `CardAlreadyExist` and `ResourceNotFoundException` becomes `ResourceNotFound`. A repository query that matches several rows becomes `DataAccessFailure`. At the controller, a thrown exception is `Raised` and a failed validation is `Rejected`.

Two details of the controller, both modelled as the code has them:
- `CardConstant.MESSAGE_417_DELETE` (`CardConstant.kt` line 12) is defined but never used. The 417 branch of `delete` answers with `MESSAGE_417_UPDATE` (`CardController.kt` line 206).
- The OpenAPI annotations declare a 417 response for `update` and `delete` (`CardController.kt` lines 122-125 and 170-173). The 417 branches run only when the service returns `false`, and it never does (`CardService.kt` lines 74 and 84). A missing card makes the service throw `ResourceNotFoundException` (`CardService.kt` lines 62 and 79). That exception goes to a handler that is not part of this model, so the model reports it as `Raised`.

`CardService.CreateScenario` and `CardService.UpdateDeleteScenario` are usage examples of the service's method contracts. The first runs create, a repeated create and fetch on an empty repository. The second runs update, fetch, delete and a repeated delete on a registered card. They state nothing beyond what the contracts give, so they have no row below.

## Model

| member | source | states |
|---|---|---|
| Digits.DecimalStringIsDigits | src/main/kotlin/com/exercise/cards/service/CardService.kt:33 | `Long.toString` of a non-negative number yields only ASCII digits |
| Digits.DecimalStringRoundTrip | src/main/kotlin/com/exercise/cards/service/CardService.kt:33 | reading the decimal rendering back gives the number |
| Digits.DecimalStringLength | src/main/kotlin/com/exercise/cards/service/CardService.kt:33 | a number in `[10^k, 10^(k+1))` renders as k+1 digits |
| Digits.DecimalStringPrefix | src/main/kotlin/com/exercise/cards/service/CardService.kt:33 | dropping k low-order digits gives a prefix of the rendering |
| CardEntityModel.NewCardEntity | src/main/kotlin/com/exercise/cards/entity/CardEntity.kt:18-48 | a freshly built entity has cardId 0, all four audit fields null, and the business fields as given |
| CardEntityModel.Copy | src/main/kotlin/com/exercise/cards/service/CardService.kt:63-70 | `copy` with the six business fields named keeps the identifier and the audit fields, and sets exactly those six fields |
| CardEntityModel.IdentityAndFieldsDetermineEntity | src/main/kotlin/com/exercise/cards/entity/CardEntity.kt:18-48 | identifier, audit fields and business fields are the whole entity |
| CardEntityModel.CopyOwnFieldsIsIdentity | src/main/kotlin/com/exercise/cards/entity/CardEntity.kt:24-34 | copying an entity's own business fields gives back the same entity |
| CardDto.DigitRepeatIff | src/main/kotlin/com/exercise/cards/dto/Card.kt:16 | `[0-9]{k}` matches exactly the strings of length k made of ASCII digits |
| CardDto.MobilePatternIff | src/main/kotlin/com/exercise/cards/dto/Card.kt:15-16 | `(^$\|[0-9]{12})` as a full match accepts exactly "" and the twelve-digit strings |
| CardDto.Violations | src/main/kotlin/com/exercise/cards/dto/Card.kt:13-51 | each constraint is reported iff its field breaks it; an empty number reports only the `@NotEmpty` message |
| CardDto.ValidIff | src/main/kotlin/com/exercise/cards/dto/Card.kt:13-51 | a card is valid iff both numbers are twelve digits, the type is non-empty, the limit is positive, and both amounts are non-negative |
| CardDto.AmountsNeedNotAddUp | src/main/kotlin/com/exercise/cards/dto/Card.kt:35-51 | changing the available amount to any non-negative value never changes validity: no relation between the three amounts is checked |
| CardDto.FromEntity | src/main/kotlin/com/exercise/cards/dto/Card.kt:53-60 | `Card(cardEntity)` copies the six business fields verbatim |
| CardDto.FromEntityIgnoresIdentity | src/main/kotlin/com/exercise/cards/dto/Card.kt:53-60 | two entities project to the same card iff their business fields agree, so the identifier and audit fields are dropped |
| CardTable.FindByMobileNumber | src/main/kotlin/com/exercise/cards/repository/CardRepository.kt:8 | empty iff no row holds the number; the single matching row when there is exactly one; an IncorrectResultSize failure iff several rows match |
| CardTable.OneCardPerMobileMatchesAtMostOne | src/main/kotlin/com/exercise/cards/repository/CardRepository.kt:8 | with one card per number, at most one row matches |
| CardTable.FindByMobileNumberUnique | src/main/kotlin/com/exercise/cards/repository/CardRepository.kt:8 | under the invariant the query never fails, and it finds the row stored under its own identifier |
| CardTable.Save | src/main/kotlin/com/exercise/cards/service/CardService.kt:72 | `save` inserts an unstored entity under a fresh identifier and replaces a stored one; returns the saved entity; every other row is unchanged; well-formedness is kept |
| CardTable.DeleteById | src/main/kotlin/com/exercise/cards/service/CardService.kt:82 | `deleteById` removes exactly that key, keeps every other row, and keeps well-formedness and one card per number |
| CardStore.CardRepository.constructor | src/main/kotlin/com/exercise/cards/repository/CardRepository.kt:7-9 | the store starts empty, with the generator at 1 |
| CardStore.CardRepository.FindByMobileNumber | src/main/kotlin/com/exercise/cards/repository/CardRepository.kt:8 | the query on the store's current rows, changing nothing |
| CardStore.CardRepository.Save | src/main/kotlin/com/exercise/cards/service/CardService.kt:29 | the store's new state and the returned entity are exactly those of the `save` function |
| CardStore.CardRepository.DeleteById | src/main/kotlin/com/exercise/cards/service/CardService.kt:82 | the store's new state is exactly that of the `deleteById` function |
| CardServiceSpec.CardNumberRendering | src/main/kotlin/com/exercise/cards/service/CardService.kt:33 | every value `100000000000 + Random.nextInt(900000000)` can take renders as twelve digits beginning "100" |
| CardServiceSpec.GenerateCard | src/main/kotlin/com/exercise/cards/service/CardService.kt:32-43 | a new card has identifier 0, no audit data, type "Credit Card", limit 100000, used 0, available 100000, and a twelve-digit number starting "100" whose value is the base plus the draw |
| CardServiceSpec.CheckIfCardAlreadyExist | src/main/kotlin/com/exercise/cards/service/CardService.kt:45-50 | passes iff no row holds the number; with one row, fails with "Card already registered with given mobileNumber " followed by the number |
| CardServiceSpec.CreateCard | src/main/kotlin/com/exercise/cards/service/CardService.kt:26-30 | fails iff the number is registered, and then leaves the table unchanged |
| CardServiceSpec.FetchCardInfo | src/main/kotlin/com/exercise/cards/service/CardService.kt:52-58 | not-found iff no row holds the number; success whenever exactly one row matches, and on success the projection of the matching row; a data-access failure iff several rows match |
| CardServiceSpec.UpdatedEntity | src/main/kotlin/com/exercise/cards/service/CardService.kt:61-70 | the updated entity keeps the stored identity and projects to exactly the card sent |
| CardServiceSpec.UpdateCard | src/main/kotlin/com/exercise/cards/service/CardService.kt:60-75 | never returns false; not-found iff no row holds the card's number; any failure leaves the table unchanged |
| CardServiceSpec.DeleteCard | src/main/kotlin/com/exercise/cards/service/CardService.kt:77-85 | never returns false; not-found iff the number is absent; on success, the table is the old one minus the found row's cardId |
| CardServiceSpec.CreateExisting | src/main/kotlin/com/exercise/cards/service/CardService.kt:26-27 | for a registered number, create fails with already-registered and leaves the table unchanged |
| CardServiceSpec.CreateFresh | src/main/kotlin/com/exercise/cards/service/CardService.kt:26-43 | for a fresh number, create adds exactly one row under the next identifier, holding the issued defaults; every other row is kept |
| CardServiceSpec.CreatePreservesInvariant | src/main/kotlin/com/exercise/cards/service/CardService.kt:26-50 | create keeps at most one card per mobile number |
| CardServiceSpec.CreateThenFetchAndCreateAgain | src/main/kotlin/com/exercise/cards/service/CardService.kt:26-58 | after creating, fetch returns the issued card, and a second create fails and changes nothing |
| CardServiceSpec.FetchUnderInvariant | src/main/kotlin/com/exercise/cards/service/CardService.kt:52-58 | under the invariant, fetch succeeds iff the number is registered, and the card it returns carries that number |
| CardServiceSpec.UpdateExisting | src/main/kotlin/com/exercise/cards/service/CardService.kt:60-75 | for a registered number, update returns true and rewrites only that row, keeping its identity; the generator is unchanged |
| CardServiceSpec.UpdatePreservesInvariant | src/main/kotlin/com/exercise/cards/service/CardService.kt:60-75 | update keeps at most one card per mobile number |
| CardServiceSpec.UpdateThenFetch | src/main/kotlin/com/exercise/cards/service/CardService.kt:52-75 | after an update, fetch returns exactly the card that was sent |
| CardServiceSpec.UpdateWithFetchedCardIsNoOp | src/main/kotlin/com/exercise/cards/service/CardService.kt:52-75 | updating with the card a fetch returned leaves the table unchanged |
| CardServiceSpec.DeleteExisting | src/main/kotlin/com/exercise/cards/service/CardService.kt:77-85 | for a registered number, delete returns true and removes exactly the found row; no row holds the number afterwards |
| CardServiceSpec.DeletePreservesInvariant | src/main/kotlin/com/exercise/cards/service/CardService.kt:77-85 | delete keeps at most one card per mobile number |
| CardServiceSpec.DeleteThenFetchAndDeleteAgain | src/main/kotlin/com/exercise/cards/service/CardService.kt:52-85 | after a delete, both fetch and a second delete fail with not-found |
| CardServiceSpec.StepPreservesInvariant | src/main/kotlin/com/exercise/cards/service/CardService.kt:22-87 | every one of the four operations keeps the invariant |
| CardServiceSpec.RunPreservesInvariant | src/main/kotlin/com/exercise/cards/service/CardService.kt:22-87 | the invariant holds after any sequence of calls |
| CardServiceSpec.NoDataAccessFailureUnderInvariant | src/main/kotlin/com/exercise/cards/service/CardService.kt:22-87 | under the invariant, no operation surfaces the repository's multiple-result failure |
| CardService.CardServiceImpl.constructor | src/main/kotlin/com/exercise/cards/service/CardService.kt:22-25 | the service is wired to the given repository, which holds one card per number |
| CardService.CardServiceImpl.CreateCard | src/main/kotlin/com/exercise/cards/service/CardService.kt:26-43 | for some draw in range, the result and the repository's new state are those of the `CardServiceSpec` create; the invariant is kept |
| CardService.CardServiceImpl.CheckIfCardAlreadyExist | src/main/kotlin/com/exercise/cards/service/CardService.kt:45-50 | the pre-check's outcome on the current rows |
| CardService.CardServiceImpl.FetchCardInfo | src/main/kotlin/com/exercise/cards/service/CardService.kt:52-58 | the `CardServiceSpec` fetch on the current rows |
| CardService.CardServiceImpl.UpdateCard | src/main/kotlin/com/exercise/cards/service/CardService.kt:60-75 | the result and the repository's new state are those of the `CardServiceSpec` update; the invariant is kept |
| CardService.CardServiceImpl.DeleteCard | src/main/kotlin/com/exercise/cards/service/CardService.kt:77-85 | the result and the repository's new state are those of the `CardServiceSpec` delete; the invariant is kept |
| CardController.AcceptsMobileNumber | src/main/kotlin/com/exercise/cards/controller/CardController.kt:67-69 | the request parameter is accepted iff it is "" or twelve digits |
| CardController.RejectionMessage | src/main/kotlin/com/exercise/cards/controller/CardController.kt:68 | a parameter the pattern rejects is reported with exactly the message "Mobile Number must be 12 digits of number" |
| CardController.PatternExamples | src/main/kotlin/com/exercise/cards/controller/CardController.kt:67-69 | "" is accepted and "12345" is rejected |
| CardController.CreatedResponse | src/main/kotlin/com/exercise/cards/controller/CardController.kt:70-79 | once the service returns, create answers 201 with "201" and "Card created successfully"; an exception is passed through |
| CardController.BooleanResponse | src/main/kotlin/com/exercise/cards/controller/CardController.kt:140-158 | true gives 200 with "200" and "Request processed successfully"; false gives 417 with "417" and the update failure message (also for delete, lines 191-209), never the delete message |
| CardController.Create | src/main/kotlin/com/exercise/cards/controller/CardController.kt:65-80 | rejected iff the number fails the pattern; 201 iff it passes and is not registered; anything other than 201 leaves the table unchanged |
| CardController.Fetch | src/main/kotlin/com/exercise/cards/controller/CardController.kt:101-111 | rejected iff the pattern fails; 200 with the stored card's projection; not-found iff the number passes the pattern but is absent |
| CardController.Update | src/main/kotlin/com/exercise/cards/controller/CardController.kt:136-159 | rejected with exactly the body's violations iff the body is invalid; any response is 200; not-found iff the body is valid but unregistered; anything other than 200 leaves the table unchanged |
| CardController.Delete | src/main/kotlin/com/exercise/cards/controller/CardController.kt:184-210 | rejected iff the pattern fails; any response is 200; not-found iff the number passes the pattern but is absent; anything other than 200 leaves the table unchanged |
| CardController.EndpointsPreserveInvariant | src/main/kotlin/com/exercise/cards/controller/CardController.kt:65-210 | no endpoint breaks the one-card-per-number invariant |
| CardController.RegisteredNumberResponds | src/main/kotlin/com/exercise/cards/controller/CardController.kt:136-210 | for a valid card whose number is registered, update, delete and fetch all respond, so the 417 branches are never reached |
| CardController.CreateThenFetch | src/main/kotlin/com/exercise/cards/controller/CardController.kt:65-111 | create for a new number answers 201, and fetch then answers 200 with the issued defaults |
| CardController.EmptyMobileNumberBypass | src/main/kotlin/com/exercise/cards/controller/CardController.kt:66-159 | "" passes the parameter pattern, so create stores a card for it; the fetched card then fails the body's `@NotEmpty` when sent to update |

## Left out

- Spring wiring, HTTP routing, content negotiation and the OpenAPI annotations are not modelled. Nor are `getBuildInfo`, `getJavaVersion` and `getContactInfo` (`CardController.kt` lines 212-276); they only read configuration and the environment.
- The application bootstrap and the configuration properties (`CardsApplication.kt`, `ProjectContactInfo.kt`) are not modelled.
- The JPA auditing listener (`AuditAware.kt`) is not modelled. Audit fields pass through `save` untouched, so `createdBy`, `updatedAt` and the other audit fields are never filled in.
- The database and JPA library are replaced by a map from `cardId` to entity plus a counter for the next identifier.
  - `cardId` (a `Long`) is an unbounded integer, so exhaustion of the identifier sequence is not modelled.
  - The Kotlin `Int` amounts are a 32-bit newtype.
- CardTable.Save: saving an entity with a nonzero identifier that is not stored is modelled as an insert under a fresh identifier. The service never does this.
- CardTable.DeleteById: deleting an absent identifier is a no-op. The service only deletes identifiers it has just found.
- CardTable.FindByMobileNumber: a derived single-result query that matches several rows fails with an `IncorrectResultSize` value. The model does not cover the library's exception type or message.
- `kotlin.random.Random` is replaced by a nondeterministic draw in `[0, 900000000)`, given to the `CardServiceSpec` functions as a parameter. Two cards may get the same card number; neither the model nor the code checks for this.
- The race between two concurrent creates for the same number is not modelled; the model is sequential.
- The exception handler is not modelled, and neither are `ResourceNotFoundException`, `ErrorResponse` and the transfer objects' JSON mapping. So the HTTP status an exception produces is not modelled: neither the `BAD_REQUEST` on `CardAlreadyExistException` nor any other. A raised exception stays a `Raised` value.
- The 417 branches of `update` and `delete` are modelled, but they are dead code: the service never returns `false`.
- CardService.CardServiceImpl.CreateCard: its postcondition says the new state is the `CardServiceSpec` create for *some* draw in range. It names no particular draw, because the draw is random.
