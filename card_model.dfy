/**
 * The Card schema: card kinds and statuses, the MM/YY expiry-date pattern,
 * the per-kind required fields and defaults applied when a card document is
 * validated, and the credit-card `pre('save')` hook.
 */
module CardModel {
  import opened Wrappers
  import opened Entities

  /** The `status` enum of the Card schema. */
  datatype CardStatus = Activa | Bloqueada | Expirada | Cancelada

  function StatusName(st: CardStatus): string {
    match st
    case Activa => "activa"
    case Bloqueada => "bloqueada"
    case Expirada => "expirada"
    case Cancelada => "cancelada"
  }

  /** Enum validation of `status`: exactly the four names are accepted. */
  function ParseCardStatus(name: string): (r: Option<CardStatus>)
    ensures r.Some? <==> name in ["activa", "bloqueada", "expirada", "cancelada"]
    ensures r.Some? ==> StatusName(r.value) == name
  {
    if name == "activa" then Some(Activa)
    else if name == "bloqueada" then Some(Bloqueada)
    else if name == "expirada" then Some(Expirada)
    else if name == "cancelada" then Some(Cancelada)
    else None
  }

  /** Expired and cancelled cards admit no further status change. */
  predicate Terminal(st: CardStatus) {
    st == Expirada || st == Cancelada
  }

  /**
   * The fields a card carries depend on its `cardType`: a credit card has a
   * limit, an available balance and a debt; a debit card is linked to an account.
   */
  datatype CardKind =
    | Credito(creditLimit: Money, availableBalance: Money, currentDebt: Money)
    | Debito(linkedAccountId: AccountId)

  datatype Card = Card(owner: UserId, number: string, expiryDate: string, status: CardStatus, kind: CardKind)

  /** The credit-card invariant: the debt stays within the limit and the available balance is what is left. */
  predicate CardValid(c: Card) {
    c.kind.Credito? ==>
      && 0 <= c.kind.currentDebt <= c.kind.creditLimit
      && c.kind.availableBalance == c.kind.creditLimit - c.kind.currentDebt
  }

  // ---------------------------------------------------------------------------
  // Expiry date: /^(0[1-9]|1[0-2])\/?([0-9]{2})$/
  // ---------------------------------------------------------------------------

  predicate IsDigit(c: char) {
    '0' <= c <= '9'
  }

  /** Two characters that spell a month 01..12. */
  predicate IsMonth(tens: char, units: char) {
    || (tens == '0' && '1' <= units <= '9')
    || (tens == '1' && '0' <= units <= '2')
  }

  /** The expiry-date pattern: a month, an optional slash, then two digits, and nothing else. */
  predicate ExpiryMatches(s: string) {
    || (|s| == 4 && IsMonth(s[0], s[1]) && IsDigit(s[2]) && IsDigit(s[3]))
    || (|s| == 5 && IsMonth(s[0], s[1]) && s[2] == '/' && IsDigit(s[3]) && IsDigit(s[4]))
  }

  function DigitChar(d: int): (c: char)
    requires 0 <= d <= 9
    ensures IsDigit(c) && c as int - '0' as int == d
  {
    ('0' as int + d) as char
  }

  function TwoDigits(n: int): (r: string)
    requires 0 <= n <= 99
    ensures |r| == 2 && IsDigit(r[0]) && IsDigit(r[1])
    ensures (r[0] as int - '0' as int) * 10 + (r[1] as int - '0' as int) == n
  {
    [DigitChar(n / 10), DigitChar(n % 10)]
  }

  /** An independent description of the accepted strings: month, optional '/', two-digit year. */
  function FormatExpiry(month: int, year: int, slash: bool): (r: string)
    requires 1 <= month <= 12 && 0 <= year <= 99
    ensures |r| == if slash then 5 else 4
  {
    TwoDigits(month) + (if slash then "/" else "") + TwoDigits(year)
  }

  lemma TwoDigitsOf(a: char, b: char)
    requires IsDigit(a) && IsDigit(b)
    ensures 0 <= (a as int - '0' as int) * 10 + (b as int - '0' as int) <= 99
    ensures TwoDigits((a as int - '0' as int) * 10 + (b as int - '0' as int)) == [a, b]
  {
    var n := (a as int - '0' as int) * 10 + (b as int - '0' as int);
    var r := TwoDigits(n);
    assert (r[0] as int - '0' as int) * 10 + (r[1] as int - '0' as int) == n;
    assert r[0] == a && r[1] == b;
  }

  /** A two-digit rendering of 1..12 is a month in the pattern's sense, and conversely. */
  lemma MonthDigits(m: int)
    requires 1 <= m <= 12
    ensures IsMonth(TwoDigits(m)[0], TwoDigits(m)[1])
  {
    if m < 10 {
      assert m / 10 == 0 && m % 10 == m;
    } else {
      assert m / 10 == 1 && m % 10 == m - 10;
    }
  }

  /** The validator accepts a string exactly when it is some month, an optional slash and some year. */
  lemma {:induction false} ExpiryMatchesExactly(s: string)
    ensures ExpiryMatches(s) <==>
      exists m, y, slash :: 1 <= m <= 12 && 0 <= y <= 99 && s == FormatExpiry(m, y, slash)
  {
    if ExpiryMatches(s) {
      var slash := |s| == 5;
      var k := if slash then 3 else 2;
      var m := (s[0] as int - '0' as int) * 10 + (s[1] as int - '0' as int);
      var y := (s[k] as int - '0' as int) * 10 + (s[k + 1] as int - '0' as int);
      TwoDigitsOf(s[0], s[1]);
      TwoDigitsOf(s[k], s[k + 1]);
      assert 1 <= m <= 12;
      assert s == FormatExpiry(m, y, slash);
    }
    if exists m, y, slash :: 1 <= m <= 12 && 0 <= y <= 99 && s == FormatExpiry(m, y, slash) {
      var m, y, slash :| 1 <= m <= 12 && 0 <= y <= 99 && s == FormatExpiry(m, y, slash);
      MonthDigits(m);
      var mm, yy := TwoDigits(m), TwoDigits(y);
      assert s[0] == mm[0] && s[1] == mm[1];
      if slash {
        assert s[2] == '/' && s[3] == yy[0] && s[4] == yy[1];
      } else {
        assert s[2] == yy[0] && s[3] == yy[1];
      }
    }
  }

  // ---------------------------------------------------------------------------
  // Schema validation: required callbacks, defaults, enums and the pattern
  // ---------------------------------------------------------------------------

  /** A card document as handed to the schema; unset fields are `None`. */
  datatype CardDoc = CardDoc(
    owner: UserId,
    number: string,
    cardType: string,
    expiryDate: string,
    status: Option<string>,
    creditLimit: Option<Money>,
    availableBalance: Option<Money>,
    currentDebt: Option<Money>,
    linkedAccountId: Option<AccountId>)

  /**
   * Mongoose validation of a card document. Defaults are applied first
   * (`status` to "activa", `availableBalance` of a credit card to its limit,
   * `currentDebt` to 0); then `cardType` and `status` must be in their
   * enums, the expiry date must match the pattern, a credit card needs its
   * limit and a debit card its linked account.
   */
  function ValidateCard(d: CardDoc): (r: Result<Card, Error>)
    ensures r.Failure? ==> r.error == ValidationError
    ensures r.Success? ==> ExpiryMatches(d.expiryDate)
    ensures r.Success? ==> StatusName(r.value.status) == d.status.GetOr("activa")
    ensures r.Success? ==> r.value.owner == d.owner && r.value.number == d.number && r.value.expiryDate == d.expiryDate
    ensures d.cardType != "credito" && d.cardType != "debito" ==> r.Failure?
    ensures d.cardType == "credito" && d.creditLimit.None? ==> r.Failure?
    ensures d.cardType == "debito" && d.linkedAccountId.None? ==> r.Failure?
    ensures d.cardType == "credito" && d.creditLimit.Some? && ExpiryMatches(d.expiryDate)
            && ParseCardStatus(d.status.GetOr("activa")).Some? ==>
              && r.Success?
              && r.value.kind == Credito(d.creditLimit.value,
                                        d.availableBalance.GetOr(d.creditLimit.value),
                                        d.currentDebt.GetOr(0))
    ensures d.cardType == "debito" && d.linkedAccountId.Some? && ExpiryMatches(d.expiryDate)
            && ParseCardStatus(d.status.GetOr("activa")).Some? ==>
              r == Success(Card(d.owner, d.number, d.expiryDate,
                                ParseCardStatus(d.status.GetOr("activa")).value,
                                Debito(d.linkedAccountId.value)))
  {
    var status := ParseCardStatus(d.status.GetOr("activa"));
    if status.None? || !ExpiryMatches(d.expiryDate) then Failure(ValidationError)
    else if d.cardType == "credito" then
      if d.creditLimit.None? then Failure(ValidationError)
      else
        var limit := d.creditLimit.value;
        Success(Card(d.owner, d.number, d.expiryDate, status.value,
                     Credito(limit, d.availableBalance.GetOr(limit), d.currentDebt.GetOr(0))))
    else if d.cardType == "debito" then
      if d.linkedAccountId.None? then Failure(ValidationError)
      else Success(Card(d.owner, d.number, d.expiryDate, status.value, Debito(d.linkedAccountId.value)))
    else Failure(ValidationError)
  }

  /** The document a stored card is saved as. */
  function ToDoc(c: Card): (d: CardDoc)
    ensures d.owner == c.owner && d.number == c.number && d.expiryDate == c.expiryDate
  {
    match c.kind
    case Credito(limit, available, debt) =>
      CardDoc(c.owner, c.number, "credito", c.expiryDate, Some(StatusName(c.status)),
              Some(limit), Some(available), Some(debt), None)
    case Debito(linked) =>
      CardDoc(c.owner, c.number, "debito", c.expiryDate, Some(StatusName(c.status)),
              None, None, None, Some(linked))
  }

  /** Every card whose expiry date matches the pattern passes validation unchanged. */
  lemma ValidateToDoc(c: Card)
    requires ExpiryMatches(c.expiryDate)
    ensures ValidateCard(ToDoc(c)) == Success(c)
  {
    assert ParseCardStatus(StatusName(c.status)) == Some(c.status);
  }

  // ---------------------------------------------------------------------------
  // The pre('save') hook
  // ---------------------------------------------------------------------------

  /**
   * What the hook leaves behind. A debit card is untouched. For a credit card
   * the debt is floored at 0 and the available balance is then recomputed as
   * limit minus debt, overwriting the earlier cap and floor of the available
   * balance whatever they did.
   */
  function SaveHook(c: Card): (r: Card)
    ensures c.kind.Debito? ==> r == c
    ensures c.kind.Credito? ==>
      && r.kind.Credito?
      && r == c.(kind := Credito(c.kind.creditLimit, r.kind.availableBalance, r.kind.currentDebt))
      && r.kind.currentDebt == (if c.kind.currentDebt < 0 then 0 else c.kind.currentDebt)
      && r.kind.availableBalance == r.kind.creditLimit - r.kind.currentDebt
      && r.kind.availableBalance <= r.kind.creditLimit
      && (r.kind.availableBalance >= 0 <==> r.kind.currentDebt <= r.kind.creditLimit)
  {
    match c.kind
    case Debito(_) => c
    case Credito(limit, _, debt) =>
      var debt' := if debt < 0 then 0 else debt;
      c.(kind := Credito(limit, limit - debt', debt'))
  }

  /** The hook written as the sequence of conditional field assignments it performs. */
  method PreSave(c: Card) returns (r: Card)
    ensures r == SaveHook(c)
  {
    r := c;
    if r.kind.Credito? {
      var limit, available, debt := r.kind.creditLimit, r.kind.availableBalance, r.kind.currentDebt;
      if available > limit {
        available := limit;
      }
      if available < 0 {
        available := 0;
      }
      if debt < 0 {
        debt := 0;
      }
      available := limit - debt;
      r := r.(kind := Credito(limit, available, debt));
    }
  }

  /** Running the hook twice is the same as running it once. */
  lemma SaveHookIdempotent(c: Card)
    ensures SaveHook(SaveHook(c)) == SaveHook(c)
  {
  }

  /** A card that already satisfies the credit-card invariant is left as it is. */
  lemma SaveHookKeepsValid(c: Card)
    requires CardValid(c)
    ensures SaveHook(c) == c
  {
  }

  /** The hook restores the invariant whenever the debt does not exceed the limit. */
  lemma SaveHookRestoresValid(c: Card)
    requires c.kind.Credito? ==> c.kind.currentDebt <= c.kind.creditLimit && 0 <= c.kind.creditLimit
    ensures CardValid(SaveHook(c))
  {
  }
}
