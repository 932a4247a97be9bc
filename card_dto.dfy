/** The card transfer object (`Card`): its field constraints and its
    projection from the entity. */
module CardDto {
  import opened Digits
  import opened CardEntityModel

  datatype Card = Card(
    mobileNumber: string,
    cardNumber: string,
    cardType: string,
    totalLimit: Int32,
    amountUsed: Int32,
    availableAmount: Int32)

  /** One failed field constraint of the transfer object. */
  datatype Violation =
    | MobileNumberEmpty | MobileNumberPattern
    | CardNumberEmpty | CardNumberPattern
    | CardTypeEmpty | TotalLimitNotPositive | AmountUsedNegative | AvailableAmountNegative
  {
    /** The annotated constraint fails on `c`. */
    predicate ViolatedBy(c: Card) {
      match this
      case MobileNumberEmpty => |c.mobileNumber| == 0
      case MobileNumberPattern => !MatchesMobilePattern(c.mobileNumber)
      case CardNumberEmpty => |c.cardNumber| == 0
      case CardNumberPattern => !MatchesMobilePattern(c.cardNumber)
      case CardTypeEmpty => |c.cardType| == 0
      case TotalLimitNotPositive => !(c.totalLimit > 0)
      case AmountUsedNegative => !(c.amountUsed >= 0)
      case AvailableAmountNegative => !(c.availableAmount >= 0)
    }

    /** The message the constraint's annotation carries. */
    function Message(): string {
      match this
      case MobileNumberEmpty => "Mobile Number can not be a null or empty"
      case MobileNumberPattern => "Mobile Number must be 12 digits of number"
      case CardNumberEmpty => "Card Number can not be a null or empty"
      case CardNumberPattern => "CardNumber must be 12 digits of number"
      case CardTypeEmpty => "CardType can not be a null or empty"
      case TotalLimitNotPositive => "Total card limit should be greater than zero"
      case AmountUsedNegative => "Total amount used should be equal or greater than zero"
      case AvailableAmountNegative => "Total available amount should be equal or greater than zero"
    }
  }

  /** `[0-9]{k}`: k repetitions of the digit class, consumed left to right. */
  predicate MatchesDigitRepeat(s: string, k: nat)
    decreases k
  {
    if k == 0 then s == [] else |s| >= 1 && IsAsciiDigit(s[0]) && MatchesDigitRepeat(s[1..], k - 1)
  }

  /** The pattern `(^$|[0-9]{12})` matched against the whole string: the
      empty alternative or exactly twelve digits. */
  predicate MatchesMobilePattern(s: string) {
    s == [] || MatchesDigitRepeat(s, 12)
  }

  lemma {:induction false} DigitRepeatIff(s: string, k: nat)
    ensures MatchesDigitRepeat(s, k) <==> |s| == k && AllDigits(s)
    decreases k
  {
    if k > 0 && |s| >= 1 {
      DigitRepeatIff(s[1..], k - 1);
      if AllDigits(s[1..]) && IsAsciiDigit(s[0]) {
        forall i | 0 <= i < |s| ensures IsAsciiDigit(s[i]) {
          if i > 0 { assert s[i] == s[1..][i - 1]; }
        }
      }
      if AllDigits(s) {
        forall i | 0 <= i < |s| - 1 ensures IsAsciiDigit(s[1..][i]) {
          assert s[1..][i] == s[i + 1];
        }
      }
    }
  }

  /** The pattern accepts exactly the empty string and the strings of twelve
      ASCII digits. */
  lemma MobilePatternIff(s: string)
    ensures MatchesMobilePattern(s) <==> s == "" || IsTwelveDigits(s)
  {
    DigitRepeatIff(s, 12);
  }

  /** The constraint violations bean validation reports for a card; a
      `@NotEmpty` string must have at least one character, and a `@Pattern`
      accepts the empty string, so an empty number reports only the
      `@NotEmpty` message. */
  function Violations(c: Card): (v: set<Violation>)
    ensures MobileNumberEmpty in v <==> c.mobileNumber == ""
    ensures MobileNumberPattern in v <==> !(c.mobileNumber == "" || IsTwelveDigits(c.mobileNumber))
    ensures CardNumberEmpty in v <==> c.cardNumber == ""
    ensures CardNumberPattern in v <==> !(c.cardNumber == "" || IsTwelveDigits(c.cardNumber))
    ensures CardTypeEmpty in v <==> c.cardType == ""
    ensures TotalLimitNotPositive in v <==> c.totalLimit <= 0
    ensures AmountUsedNegative in v <==> c.amountUsed < 0
    ensures AvailableAmountNegative in v <==> c.availableAmount < 0
  {
    MobilePatternIff(c.mobileNumber);
    MobilePatternIff(c.cardNumber);
    set x: Violation | x.ViolatedBy(c)
  }

  /** A card passes validation when no constraint is violated. */
  predicate IsValid(c: Card) {
    Violations(c) == {}
  }

  /** Validity, field by field: both numbers are exactly twelve digits, the
      type is non-empty, the limit is positive, the two amounts are not
      negative. */
  lemma ValidIff(c: Card)
    ensures IsValid(c) <==>
      IsTwelveDigits(c.mobileNumber) && IsTwelveDigits(c.cardNumber) && c.cardType != ""
      && c.totalLimit > 0 && c.amountUsed >= 0 && c.availableAmount >= 0
  {
    var v := Violations(c);
    if !IsValid(c) {
      var x :| x in v;
    }
  }

  /** Validity imposes no arithmetic relation between the three amounts:
      replacing a non-negative available amount by any other non-negative
      value, whatever the limit and the amount used are, leaves validity as
      it was. */
  lemma AmountsNeedNotAddUp(c: Card, availableAmount: Int32)
    requires c.availableAmount >= 0 && availableAmount >= 0
    ensures IsValid(c.(availableAmount := availableAmount)) <==> IsValid(c)
  {
    ValidIff(c);
    ValidIff(c.(availableAmount := availableAmount));
  }

  /** `Card(cardEntity)`: the six business fields, verbatim. */
  function FromEntity(e: CardEntity): (c: Card)
    ensures c.mobileNumber == e.mobileNumber && c.cardNumber == e.cardNumber && c.cardType == e.cardType
    ensures c.totalLimit == e.totalLimit && c.amountUsed == e.amountUsed && c.availableAmount == e.availableAmount
  {
    Card(e.mobileNumber, e.cardNumber, e.cardType, e.totalLimit, e.amountUsed, e.availableAmount)
  }

  /** The projection drops exactly the identifier and the audit fields:
      two entities project to the same card iff their business fields agree. */
  lemma FromEntityIgnoresIdentity(a: CardEntity, b: CardEntity)
    ensures FromEntity(a) == FromEntity(b) <==> SameBusinessFields(a, b)
  {
  }
}
