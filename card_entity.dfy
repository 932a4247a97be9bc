/** The persisted card record (`CardEntity`). */
module CardEntityModel {
  import opened Wrappers

  /** Kotlin's `Int`: a signed 32-bit integer. */
  newtype Int32 = x: int | -0x8000_0000 <= x < 0x8000_0000

  /** A `LocalDateTime` written by the auditing listener; the service never
      reads or writes one, so only its identity matters here. */
  datatype Timestamp = Timestamp(epochNanos: int)

  /** `cardId` is the store's identifier (0 until the store assigns one); the
      six business fields are immutable; the four audit fields are nullable. */
  datatype CardEntity = CardEntity(
    cardId: int,
    mobileNumber: string,
    cardNumber: string,
    cardType: string,
    totalLimit: Int32,
    amountUsed: Int32,
    availableAmount: Int32,
    createdAt: Option<Timestamp>,
    createdBy: Option<string>,
    updatedAt: Option<Timestamp>,
    updatedBy: Option<string>)

  /** No audit field has been written yet. */
  predicate Unaudited(e: CardEntity) {
    e.createdAt.None? && e.createdBy.None? && e.updatedAt.None? && e.updatedBy.None?
  }

  /** Same record identity: the identifier and every audit field agree. */
  predicate SameIdentity(a: CardEntity, b: CardEntity) {
    a.cardId == b.cardId && a.createdAt == b.createdAt && a.createdBy == b.createdBy
    && a.updatedAt == b.updatedAt && a.updatedBy == b.updatedBy
  }

  /** The same six business fields. */
  predicate SameBusinessFields(a: CardEntity, b: CardEntity) {
    a.mobileNumber == b.mobileNumber && a.cardNumber == b.cardNumber && a.cardType == b.cardType
    && a.totalLimit == b.totalLimit && a.amountUsed == b.amountUsed && a.availableAmount == b.availableAmount
  }

  /** The primary constructor called with only the business fields named:
      every defaulted parameter takes its default. */
  function NewCardEntity(mobileNumber: string, cardNumber: string, cardType: string,
                         totalLimit: Int32, amountUsed: Int32, availableAmount: Int32): (e: CardEntity)
    ensures e.cardId == 0 && Unaudited(e)
    ensures e.mobileNumber == mobileNumber && e.cardNumber == cardNumber && e.cardType == cardType
    ensures e.totalLimit == totalLimit && e.amountUsed == amountUsed && e.availableAmount == availableAmount
  {
    CardEntity(0, mobileNumber, cardNumber, cardType, totalLimit, amountUsed, availableAmount,
               None, None, None, None)
  }

  /** The data class's `copy` with the six business fields named: the
      identifier and the audit fields are carried over from `e`. */
  function Copy(e: CardEntity, mobileNumber: string, cardNumber: string, cardType: string,
                totalLimit: Int32, amountUsed: Int32, availableAmount: Int32): (r: CardEntity)
    ensures SameIdentity(r, e)
    ensures r.mobileNumber == mobileNumber && r.cardNumber == cardNumber && r.cardType == cardType
    ensures r.totalLimit == totalLimit && r.amountUsed == amountUsed && r.availableAmount == availableAmount
  {
    e.(mobileNumber := mobileNumber, cardNumber := cardNumber, cardType := cardType,
       totalLimit := totalLimit, amountUsed := amountUsed, availableAmount := availableAmount)
  }

  /** Two entities with the same identity and the same business fields are
      the same entity: nothing else distinguishes them. */
  lemma IdentityAndFieldsDetermineEntity(a: CardEntity, b: CardEntity)
    requires SameIdentity(a, b) && SameBusinessFields(a, b)
    ensures a == b
  {
  }

  /** Copying an entity's own business fields into it changes nothing. */
  lemma CopyOwnFieldsIsIdentity(e: CardEntity)
    ensures Copy(e, e.mobileNumber, e.cardNumber, e.cardType, e.totalLimit, e.amountUsed, e.availableAmount) == e
  {
  }
}
