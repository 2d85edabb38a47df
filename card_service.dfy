/**
 * The card operations: issuing a card, paying a credit card from an
 * account, purchases, cash advances and status changes. As in the account
 * service, each operation is a function over the store and a method on the
 * `Db` proved to commit exactly what the function says. Every write of a card
 * goes through the schema's pre('save') hook.
 */
module CardService {
  import opened Wrappers
  import opened Entities
  import opened CardModel
  import opened Rules
  import opened Ledger

  /** No stored card already carries `number`. */
  predicate FreshCardNumber(s: Store, number: string) {
    forall c :: c in s.cards ==> s.cards[c].number != number
  }

  /** A record that links a card and optionally an account. */
  function CardRecord(owner: UserId, kind: RecordKind, amount: Money, card: CardId, account: Option<AccountId>): (r: Record)
    ensures r.owner == owner && r.kind == kind && r.amount == amount
    ensures r.card == Some(card) && r.account == account && r.loan.None?
    ensures r.fromNumber.None? && r.toNumber.None?
  {
    Record(owner, kind, amount, account, None, Some(card), None, None)
  }

  // ---------------------------------------------------------------------------
  // createCard
  // ---------------------------------------------------------------------------

  /** `Card.create`: schema validation, then the hook, then the new document. */
  function InsertCard(s: Store, id: CardId, doc: CardDoc): (r: Result<Store, Error>)
    ensures r.Failure? <==> ValidateCard(doc).Failure?
    ensures r.Success? ==> r.value == s.(cards := s.cards[id := SaveHook(ValidateCard(doc).value)])
  {
    match ValidateCard(doc)
    case Failure(e) => Failure(e)
    case Success(c) => Success(s.(cards := s.cards[id := SaveHook(c)]))
  }

  /**
   * Issuing a card. `id` and `number` are the fresh identifier and the fresh
   * card number. The type and the expiry date must be given; a credit card
   * needs a positive limit and starts with all of it available and no debt;
   * a debit card needs an account of the caller to link to; any other type
   * is refused. The document is then validated by the schema, which rejects
   * an expiry date outside the MM/YY pattern.
   */
  /** What `createCard` demands of each card type: a positive limit, or a linked account of the caller. */
  predicate KindDataGiven(s: Store, user: UserId, cardType: Option<string>, creditLimit: Option<Money>,
                          linkedAccount: Option<AccountId>) {
    || (cardType == Some("credito") && creditLimit.Some? && creditLimit.value > 0)
    || (cardType == Some("debito") && linkedAccount.Some? && OwnedAccount(s, user, linkedAccount.value).Some?)
  }

  function CardCreation(s: Store, user: UserId, id: CardId, number: string, cardType: Option<string>,
                        expiryDate: Option<string>, creditLimit: Option<Money>, linkedAccount: Option<AccountId>)
    : (r: Result<Store, Error>)
    requires id !in s.cards && FreshCardNumber(s, number)
    ensures user !in s.users ==> r == Failure(NotFound(NoUser))
    ensures user in s.users && (!Present(cardType) || !Present(expiryDate)) ==> r == Failure(MissingCardData)
    ensures (user in s.users && Present(cardType) && Present(expiryDate)
             && cardType.value != "credito" && cardType.value != "debito") ==> r == Failure(InvalidCardType)
    ensures (user in s.users && Present(expiryDate) && cardType == Some("credito")
             && (creditLimit.None? || creditLimit.value <= 0)) ==> r == Failure(CreditLimitRequired)
    ensures (user in s.users && Present(expiryDate) && cardType == Some("debito")
             && linkedAccount.None?) ==> r == Failure(LinkedAccountRequired)
    ensures (user in s.users && Present(expiryDate) && cardType == Some("debito") && linkedAccount.Some?
             && OwnedAccount(s, user, linkedAccount.value).None?) ==> r == Failure(NotFound(NoLinkedAccount))
    ensures r.Success? ==>
      && Present(expiryDate) && ExpiryMatches(expiryDate.value)
      && id in r.value.cards
      && r.value == s.(cards := s.cards[id := r.value.cards[id]])
      && var c := r.value.cards[id];
      && c.owner == user && c.number == number && c.expiryDate == expiryDate.value && c.status == Activa
      && CardValid(c)
      && (cardType == Some("credito") ==> creditLimit.Some? && creditLimit.value > 0
                                          && c.kind == Credito(creditLimit.value, creditLimit.value, 0))
      && (cardType == Some("debito") ==> linkedAccount.Some? && OwnedAccount(s, user, linkedAccount.value).Some?
                                         && c.kind == Debito(linkedAccount.value))
    ensures (user in s.users && Present(cardType) && Present(expiryDate) && !ExpiryMatches(expiryDate.value))
            ==> r.Failure?
    ensures (user in s.users && Present(expiryDate) && KindDataGiven(s, user, cardType, creditLimit, linkedAccount)
             && !ExpiryMatches(expiryDate.value)) ==> r == Failure(ValidationError)
    ensures r.Success? <==>
      user in s.users && Present(expiryDate) && KindDataGiven(s, user, cardType, creditLimit, linkedAccount)
      && ExpiryMatches(expiryDate.value)
  {
    if user !in s.users then Failure(NotFound(NoUser))
    else if !Present(cardType) || !Present(expiryDate) then Failure(MissingCardData)
    else
      var doc := CardDoc(user, number, cardType.value, expiryDate.value, Some("activa"), None, None, None, None);
      if cardType.value == "credito" then
        if creditLimit.None? || creditLimit.value <= 0 then Failure(CreditLimitRequired)
        else InsertCard(s, id, doc.(creditLimit := creditLimit, availableBalance := creditLimit, currentDebt := Some(0)))
      else if cardType.value == "debito" then
        if linkedAccount.None? then Failure(LinkedAccountRequired)
        else if OwnedAccount(s, user, linkedAccount.value).None? then Failure(NotFound(NoLinkedAccount))
        else InsertCard(s, id, doc.(linkedAccountId := linkedAccount))
      else Failure(InvalidCardType)
  }

  /** Issuing a card keeps every invariant. */
  lemma CardCreationValid(s: Store, user: UserId, id: CardId, number: string, cardType: Option<string>,
                          expiryDate: Option<string>, creditLimit: Option<Money>, linkedAccount: Option<AccountId>)
    requires Valid(s) && id !in s.cards && FreshCardNumber(s, number)
    requires CardCreation(s, user, id, number, cardType, expiryDate, creditLimit, linkedAccount).Success?
    ensures Valid(CardCreation(s, user, id, number, cardType, expiryDate, creditLimit, linkedAccount).value)
  {
  }

  method CreateCard(db: Db, user: UserId, id: CardId, number: string, cardType: Option<string>,
                    expiryDate: Option<string>, creditLimit: Option<Money>, linkedAccount: Option<AccountId>)
    returns (err: Option<Error>)
    requires id !in db.cards && FreshCardNumber(db.Snapshot(), number)
    modifies db
    ensures Commits(CardCreation(old(db.Snapshot()), user, id, number, cardType, expiryDate, creditLimit, linkedAccount),
                    old(db.Snapshot()), db.Snapshot(), err)
  {
    if user !in db.users {
      return Some(NotFound(NoUser));
    }
    if !Present(cardType) || !Present(expiryDate) {
      return Some(MissingCardData);
    }
    var doc := CardDoc(user, number, cardType.value, expiryDate.value, Some("activa"), None, None, None, None);
    if cardType.value == "credito" {
      if creditLimit.None? || creditLimit.value <= 0 {
        return Some(CreditLimitRequired);
      }
      doc := doc.(creditLimit := creditLimit, availableBalance := creditLimit, currentDebt := Some(0));
    } else if cardType.value == "debito" {
      if linkedAccount.None? {
        return Some(LinkedAccountRequired);
      }
      if OwnedAccount(db.Snapshot(), user, linkedAccount.value).None? {
        return Some(NotFound(NoLinkedAccount));
      }
      doc := doc.(linkedAccountId := linkedAccount);
    } else {
      return Some(InvalidCardType);
    }
    var validated := ValidateCard(doc);
    if validated.Failure? {
      return Some(validated.error);
    }
    db.SaveCard(id, validated.value);
    return None;
  }

  // ---------------------------------------------------------------------------
  // makeCardPayment
  // ---------------------------------------------------------------------------

  /**
   * Paying a credit card of the caller from an account of the caller. The
   * source must hold the REQUESTED amount, but only the part of it that
   * covers the debt is applied: the account is debited by the applied
   * amount, the debt drops by it, the available balance is recomputed from
   * the limit, and one 'pago_tarjeta' record of the applied amount is written.
   */
  function CardPayment(s: Store, user: UserId, cardId: CardId, amount: Money, source: Option<AccountId>)
    : (r: Result<Store, Error>)
    ensures amount <= 0 ==> r == Failure(InvalidAmount)
    ensures amount > 0 && source.None? ==> r == Failure(SourceAccountRequired)
    ensures amount > 0 && source.Some? && OwnedCreditCard(s, user, cardId).None? ==> r == Failure(NotFound(NoCard))
    ensures (amount > 0 && source.Some? && OwnedCreditCard(s, user, cardId).Some?
             && s.cards[cardId].status != Activa) ==> r == Failure(CardNotActive)
    ensures (amount > 0 && source.Some? && OwnedCreditCard(s, user, cardId).Some?
             && s.cards[cardId].status == Activa && s.cards[cardId].kind.currentDebt <= 0) ==> r == Failure(NoDebt)
    ensures (amount > 0 && source.Some? && OwnedCreditCard(s, user, cardId).Some?
             && s.cards[cardId].status == Activa && s.cards[cardId].kind.currentDebt > 0) ==>
              && (OwnedAccount(s, user, source.value).None? ==> r == Failure(NotFound(NoPaymentAccount)))
              && (OwnedAccount(s, user, source.value).Some? && s.accounts[source.value].balance < amount ==>
                    r == Failure(InsufficientFunds))
    ensures r.Failure? && r.error == InsufficientFunds ==>
              source.Some? && source.value in s.accounts && s.accounts[source.value].balance < amount
    ensures r.Success? <==>
      && amount > 0 && source.Some? && OwnedCreditCard(s, user, cardId).Some?
      && s.cards[cardId].status == Activa && s.cards[cardId].kind.currentDebt > 0
      && OwnedAccount(s, user, source.value).Some? && s.accounts[source.value].balance >= amount
    ensures r.Success? ==>
      var c, src := s.cards[cardId], source.value;
      var applied := Applied(amount, c.kind.currentDebt);
      var debt := c.kind.currentDebt - applied;
      && 0 < applied <= amount && applied <= c.kind.currentDebt
      && AccountsUnchangedExcept(s, r.value, {src})
      && r.value.accounts[src] == s.accounts[src].(balance := s.accounts[src].balance - applied)
      && r.value.accounts[src].balance >= 0
      && CardsUnchangedExcept(s, r.value, cardId)
      && r.value.cards[cardId] == c.(kind := Credito(c.kind.creditLimit, c.kind.creditLimit - debt, debt))
      && debt >= 0
      && r.value.users == s.users && r.value.accountIndex == s.accountIndex && r.value.loans == s.loans
      && r.value.records == s.records + [CardRecord(user, PagoTarjeta, applied, cardId, source)]
  {
    if amount <= 0 then Failure(InvalidAmount)
    else if source.None? then Failure(SourceAccountRequired)
    else match OwnedCreditCard(s, user, cardId)
      case None => Failure(NotFound(NoCard))
      case Some(card) =>
        if card.status != Activa then Failure(CardNotActive)
        else if card.kind.currentDebt <= 0 then Failure(NoDebt)
        else match OwnedAccount(s, user, source.value)
          case None => Failure(NotFound(NoPaymentAccount))
          case Some(account) =>
            if account.balance < amount then Failure(InsufficientFunds)
            else
              var applied := Applied(amount, card.kind.currentDebt);
              var debt := card.kind.currentDebt - applied;
              var card' := card.(kind := Credito(card.kind.creditLimit, card.kind.creditLimit - debt, debt));
              Success(s.(accounts := s.accounts[source.value := account.(balance := account.balance - applied)],
                         cards := s.cards[cardId := SaveHook(card')],
                         records := s.records + [CardRecord(user, PagoTarjeta, applied, cardId, source)]))
  }

  /** A card payment keeps every invariant. */
  lemma CardPaymentValid(s: Store, user: UserId, cardId: CardId, amount: Money, source: Option<AccountId>)
    requires Valid(s) && CardPayment(s, user, cardId, amount, source).Success?
    ensures Valid(CardPayment(s, user, cardId, amount, source).value)
  {
    var s' := CardPayment(s, user, cardId, amount, source).value;
    assert forall n :: n in s'.accountIndex ==> s'.accounts[s'.accountIndex[n]].number == s.accounts[s.accountIndex[n]].number;
  }

  /** Overpaying a debt takes only the debt out of the account and clears it. */
  lemma CardPaymentCapped(s: Store, user: UserId, cardId: CardId, amount: Money, source: Option<AccountId>)
    requires CardPayment(s, user, cardId, amount, source).Success?
    requires amount >= s.cards[cardId].kind.currentDebt
    ensures var s' := CardPayment(s, user, cardId, amount, source).value;
      && s'.cards[cardId].kind.currentDebt == 0
      && s'.cards[cardId].kind.availableBalance == s.cards[cardId].kind.creditLimit
      && s'.accounts[source.value].balance == s.accounts[source.value].balance - s.cards[cardId].kind.currentDebt
      && s'.records[|s.records|].amount == s.cards[cardId].kind.currentDebt
  {
  }

  /** The money in accounts drops by the applied amount, never by the requested one. */
  lemma CardPaymentTotal(s: Store, user: UserId, cardId: CardId, amount: Money, source: Option<AccountId>)
    requires CardPayment(s, user, cardId, amount, source).Success?
    ensures TotalBalance(CardPayment(s, user, cardId, amount, source).value.accounts)
            == TotalBalance(s.accounts) - Applied(amount, s.cards[cardId].kind.currentDebt)
  {
    var src := source.value;
    var applied := Applied(amount, s.cards[cardId].kind.currentDebt);
    TotalBalanceUpdate(s.accounts, src, s.accounts[src].(balance := s.accounts[src].balance - applied));
  }

  method MakeCardPayment(db: Db, user: UserId, cardId: CardId, amount: Money, source: Option<AccountId>)
    returns (err: Option<Error>)
    modifies db
    ensures Commits(CardPayment(old(db.Snapshot()), user, cardId, amount, source), old(db.Snapshot()), db.Snapshot(), err)
  {
    if amount <= 0 {
      return Some(InvalidAmount);
    }
    if source.None? {
      return Some(SourceAccountRequired);
    }
    var found := OwnedCreditCard(db.Snapshot(), user, cardId);
    if found.None? {
      return Some(NotFound(NoCard));
    }
    var card := found.value;
    if card.status != Activa {
      return Some(CardNotActive);
    }
    if card.kind.currentDebt <= 0 {
      return Some(NoDebt);
    }
    var payer := OwnedAccount(db.Snapshot(), user, source.value);
    if payer.None? {
      return Some(NotFound(NoPaymentAccount));
    }
    var account := payer.value;
    if account.balance < amount {
      return Some(InsufficientFunds);
    }
    var applied := Applied(amount, card.kind.currentDebt);
    account := account.(balance := account.balance - applied);
    var debt := card.kind.currentDebt - applied;
    card := card.(kind := Credito(card.kind.creditLimit, card.kind.creditLimit - debt, debt));
    db.SaveAccount(source.value, account);
    db.SaveCard(cardId, card);
    db.AppendRecords([CardRecord(user, PagoTarjeta, applied, cardId, source)]);
    return None;
  }

  // ---------------------------------------------------------------------------
  // makePurchase
  // ---------------------------------------------------------------------------

  /**
   * A purchase with an active card of the caller. A credit card needs enough
   * available balance and moves the amount from available to debt; a debit
   * card debits its linked account, which is looked up by id alone, without
   * an owner check. One 'compra_tarjeta' record of the amount is written,
   * linking the card and, for a debit card, the account.
   */
  function Purchase(s: Store, user: UserId, cardId: CardId, amount: Money): (r: Result<Store, Error>)
    ensures amount <= 0 ==> r == Failure(InvalidAmount)
    ensures amount > 0 && OwnedCard(s, user, cardId).None? ==> r == Failure(NotFound(NoCard))
    ensures amount > 0 && OwnedCard(s, user, cardId).Some? && s.cards[cardId].status != Activa ==>
              r == Failure(CardNotActive)
    ensures r.Success? ==> amount > 0 && OwnedCard(s, user, cardId).Some? && s.cards[cardId].status == Activa
    ensures r.Success? && s.cards[cardId].kind.Credito? ==>
      var c := s.cards[cardId];
      var debt := if c.kind.currentDebt + amount < 0 then 0 else c.kind.currentDebt + amount;
      && c.kind.availableBalance >= amount
      && r.value.accounts == s.accounts
      && CardsUnchangedExcept(s, r.value, cardId)
      && r.value.cards[cardId] == c.(kind := Credito(c.kind.creditLimit, c.kind.creditLimit - debt, debt))
      && (CardValid(c) ==>
            && r.value.cards[cardId].kind.currentDebt == c.kind.currentDebt + amount
            && r.value.cards[cardId].kind.availableBalance == c.kind.availableBalance - amount
            && CardValid(r.value.cards[cardId]))
      && r.value.records == s.records + [CardRecord(user, CompraTarjeta, amount, cardId, None)]
    ensures (amount > 0 && OwnedCard(s, user, cardId).Some? && s.cards[cardId].status == Activa
             && s.cards[cardId].kind.Credito?) ==>
              && (r.Success? <==> s.cards[cardId].kind.availableBalance >= amount)
              && (s.cards[cardId].kind.availableBalance < amount ==> r == Failure(InsufficientCredit))
    ensures (amount > 0 && OwnedCard(s, user, cardId).Some? && s.cards[cardId].status == Activa
             && s.cards[cardId].kind.Debito?) ==>
              var linked := s.cards[cardId].kind.linkedAccountId;
              && (linked !in s.accounts ==> r == Failure(NotFound(NoLinkedAccount)))
              && (linked in s.accounts && s.accounts[linked].balance < amount ==> r == Failure(InsufficientFunds))
              && (r.Success? <==> linked in s.accounts && s.accounts[linked].balance >= amount)
    ensures r.Success? && s.cards[cardId].kind.Debito? ==>
      var linked := s.cards[cardId].kind.linkedAccountId;
      && AccountsUnchangedExcept(s, r.value, {linked})
      && r.value.accounts[linked] == s.accounts[linked].(balance := s.accounts[linked].balance - amount)
      && r.value.accounts[linked].balance >= 0
      && r.value.cards == s.cards
      && r.value.records == s.records + [CardRecord(user, CompraTarjeta, amount, cardId, Some(linked))]
    ensures r.Success? ==> r.value.users == s.users && r.value.accountIndex == s.accountIndex && r.value.loans == s.loans
  {
    if amount <= 0 then Failure(InvalidAmount)
    else match OwnedCard(s, user, cardId)
      case None => Failure(NotFound(NoCard))
      case Some(card) =>
        if card.status != Activa then Failure(CardNotActive)
        else match card.kind
          case Credito(limit, available, debt) =>
            if available < amount then Failure(InsufficientCredit)
            else
              var card' := card.(kind := Credito(limit, available - amount, debt + amount));
              Success(s.(cards := s.cards[cardId := SaveHook(card')],
                         records := s.records + [CardRecord(user, CompraTarjeta, amount, cardId, None)]))
          case Debito(linked) =>
            if linked !in s.accounts then Failure(NotFound(NoLinkedAccount))
            else
              var account := s.accounts[linked];
              if account.balance < amount then Failure(InsufficientFunds)
              else
                Success(s.(accounts := s.accounts[linked := account.(balance := account.balance - amount)],
                           records := s.records + [CardRecord(user, CompraTarjeta, amount, cardId, Some(linked))]))
  }

  /** A purchase keeps every invariant. */
  lemma PurchaseValid(s: Store, user: UserId, cardId: CardId, amount: Money)
    requires Valid(s) && Purchase(s, user, cardId, amount).Success?
    ensures Valid(Purchase(s, user, cardId, amount).value)
  {
    var s' := Purchase(s, user, cardId, amount).value;
    assert forall n :: n in s'.accountIndex ==> s'.accounts[s'.accountIndex[n]].number == s.accounts[s.accountIndex[n]].number;
  }

  /** On a valid credit card a purchase keeps debt plus available balance (the limit) fixed. */
  lemma CreditPurchaseKeepsLimit(s: Store, user: UserId, cardId: CardId, amount: Money)
    requires Purchase(s, user, cardId, amount).Success? && s.cards[cardId].kind.Credito?
    requires CardValid(s.cards[cardId])
    ensures var c' := Purchase(s, user, cardId, amount).value.cards[cardId];
      c'.kind.currentDebt + c'.kind.availableBalance
      == s.cards[cardId].kind.currentDebt + s.cards[cardId].kind.availableBalance
  {
  }

  method MakePurchase(db: Db, user: UserId, cardId: CardId, amount: Money) returns (err: Option<Error>)
    modifies db
    ensures Commits(Purchase(old(db.Snapshot()), user, cardId, amount), old(db.Snapshot()), db.Snapshot(), err)
  {
    if amount <= 0 {
      return Some(InvalidAmount);
    }
    var found := OwnedCard(db.Snapshot(), user, cardId);
    if found.None? {
      return Some(NotFound(NoCard));
    }
    var card := found.value;
    if card.status != Activa {
      return Some(CardNotActive);
    }
    var record := CardRecord(user, CompraTarjeta, amount, cardId, None);
    if card.kind.Credito? {
      if card.kind.availableBalance < amount {
        return Some(InsufficientCredit);
      }
      var debt := card.kind.currentDebt + amount;
      var available := card.kind.availableBalance - amount;
      card := card.(kind := Credito(card.kind.creditLimit, available, debt));
      db.SaveCard(cardId, card);
    } else {
      var linked := card.kind.linkedAccountId;
      if linked !in db.accounts {
        return Some(NotFound(NoLinkedAccount));
      }
      var account := db.accounts[linked];
      if account.balance < amount {
        return Some(InsufficientFunds);
      }
      account := account.(balance := account.balance - amount);
      db.SaveAccount(linked, account);
      record := record.(account := Some(linked));
    }
    db.AppendRecords([record]);
    return None;
  }

  // ---------------------------------------------------------------------------
  // makeCashAdvance
  // ---------------------------------------------------------------------------

  /**
   * A cash advance on an active credit card of the caller: a debit card is
   * not found, since the lookup filters on the credit type. The amount moves
   * from available balance to debt and one 'avance_efectivo_tarjeta' record
   * linking the card is written.
   */
  function CashAdvance(s: Store, user: UserId, cardId: CardId, amount: Money): (r: Result<Store, Error>)
    ensures amount <= 0 ==> r == Failure(InvalidAmount)
    ensures amount > 0 && OwnedCreditCard(s, user, cardId).None? ==> r == Failure(NotFound(NoCard))
    ensures amount > 0 && OwnedCreditCard(s, user, cardId).Some? && s.cards[cardId].status != Activa ==>
              r == Failure(CardNotActive)
    ensures (amount > 0 && OwnedCreditCard(s, user, cardId).Some? && s.cards[cardId].status == Activa
             && s.cards[cardId].kind.availableBalance < amount) ==> r == Failure(InsufficientCredit)
    ensures r.Success? <==>
      && amount > 0 && OwnedCreditCard(s, user, cardId).Some? && s.cards[cardId].status == Activa
      && s.cards[cardId].kind.availableBalance >= amount
    ensures r.Success? ==>
      var c := s.cards[cardId];
      var debt := if c.kind.currentDebt + amount < 0 then 0 else c.kind.currentDebt + amount;
      && r.value.accounts == s.accounts
      && CardsUnchangedExcept(s, r.value, cardId)
      && r.value.cards[cardId] == c.(kind := Credito(c.kind.creditLimit, c.kind.creditLimit - debt, debt))
      && (CardValid(c) ==>
            && r.value.cards[cardId].kind.currentDebt == c.kind.currentDebt + amount
            && r.value.cards[cardId].kind.availableBalance == c.kind.availableBalance - amount
            && CardValid(r.value.cards[cardId]))
      && r.value.users == s.users && r.value.accountIndex == s.accountIndex && r.value.loans == s.loans
      && r.value.records == s.records + [CardRecord(user, AvanceEfectivoTarjeta, amount, cardId, None)]
  {
    if amount <= 0 then Failure(InvalidAmount)
    else match OwnedCreditCard(s, user, cardId)
      case None => Failure(NotFound(NoCard))
      case Some(card) =>
        if card.status != Activa then Failure(CardNotActive)
        else if card.kind.availableBalance < amount then Failure(InsufficientCredit)
        else
          var k := card.kind;
          var card' := card.(kind := Credito(k.creditLimit, k.availableBalance - amount, k.currentDebt + amount));
          Success(s.(cards := s.cards[cardId := SaveHook(card')],
                     records := s.records + [CardRecord(user, AvanceEfectivoTarjeta, amount, cardId, None)]))
  }

  /** A debit card never gets a cash advance, whatever its state. */
  lemma CashAdvanceNeedsCredit(s: Store, user: UserId, cardId: CardId, amount: Money)
    requires amount > 0 && cardId in s.cards && s.cards[cardId].kind.Debito?
    ensures CashAdvance(s, user, cardId, amount) == Failure(NotFound(NoCard))
  {
  }

  /** A cash advance keeps every invariant. */
  lemma CashAdvanceValid(s: Store, user: UserId, cardId: CardId, amount: Money)
    requires Valid(s) && CashAdvance(s, user, cardId, amount).Success?
    ensures Valid(CashAdvance(s, user, cardId, amount).value)
  {
  }

  method MakeCashAdvance(db: Db, user: UserId, cardId: CardId, amount: Money) returns (err: Option<Error>)
    modifies db
    ensures Commits(CashAdvance(old(db.Snapshot()), user, cardId, amount), old(db.Snapshot()), db.Snapshot(), err)
  {
    if amount <= 0 {
      return Some(InvalidAmount);
    }
    var found := OwnedCreditCard(db.Snapshot(), user, cardId);
    if found.None? {
      return Some(NotFound(NoCard));
    }
    var card := found.value;
    if card.status != Activa {
      return Some(CardNotActive);
    }
    if card.kind.availableBalance < amount {
      return Some(InsufficientCredit);
    }
    var debt := card.kind.currentDebt + amount;
    var available := card.kind.availableBalance - amount;
    card := card.(kind := Credito(card.kind.creditLimit, available, debt));
    db.SaveCard(cardId, card);
    db.AppendRecords([CardRecord(user, AvanceEfectivoTarjeta, amount, cardId, None)]);
    return None;
  }

  // ---------------------------------------------------------------------------
  // updateCardStatus
  // ---------------------------------------------------------------------------

  /** The targets a caller may ask for; 'expirada' is set by no operation. */
  predicate AllowedTarget(target: string) {
    target == "activa" || target == "bloqueada" || target == "cancelada"
  }

  /**
   * A status change of a card of the caller. The target is checked before
   * the lookup; an expired or cancelled card is refused even when the target
   * is its current status; asking for the current status of any other card
   * changes nothing. No record is written.
   */
  function StatusUpdate(s: Store, user: UserId, cardId: CardId, target: string): (r: Result<Store, Error>)
    ensures !AllowedTarget(target) ==> r == Failure(InvalidStatus)
    ensures AllowedTarget(target) && OwnedCard(s, user, cardId).None? ==> r == Failure(NotFound(NoCard))
    ensures AllowedTarget(target) && OwnedCard(s, user, cardId).Some? && Terminal(s.cards[cardId].status) ==>
              r == Failure(TerminalState)
    ensures r.Success? <==>
      AllowedTarget(target) && OwnedCard(s, user, cardId).Some? && !Terminal(s.cards[cardId].status)
    ensures r.Success? && StatusName(s.cards[cardId].status) == target ==> r.value == s
    ensures r.Success? ==>
      && cardId in r.value.cards
      && StatusName(r.value.cards[cardId].status) == target
      && r.value == s.(cards := s.cards[cardId := r.value.cards[cardId]])
      && (CardValid(s.cards[cardId]) ==>
            r.value.cards[cardId] == s.cards[cardId].(status := r.value.cards[cardId].status))
  {
    if !AllowedTarget(target) then Failure(InvalidStatus)
    else match OwnedCard(s, user, cardId)
      case None => Failure(NotFound(NoCard))
      case Some(card) =>
        var status := ParseCardStatus(target).value;
        if Terminal(card.status) then Failure(TerminalState)
        else if card.status == status then Success(s)
        else Success(s.(cards := s.cards[cardId := SaveHook(card.(status := status))]))
  }

  /** A status change keeps every invariant. */
  lemma StatusUpdateValid(s: Store, user: UserId, cardId: CardId, target: string)
    requires Valid(s) && StatusUpdate(s, user, cardId, target).Success?
    ensures Valid(StatusUpdate(s, user, cardId, target).value)
  {
  }

  method UpdateCardStatus(db: Db, user: UserId, cardId: CardId, target: string) returns (err: Option<Error>)
    modifies db
    ensures Commits(StatusUpdate(old(db.Snapshot()), user, cardId, target), old(db.Snapshot()), db.Snapshot(), err)
  {
    if !AllowedTarget(target) {
      return Some(InvalidStatus);
    }
    var found := OwnedCard(db.Snapshot(), user, cardId);
    if found.None? {
      return Some(NotFound(NoCard));
    }
    var card := found.value;
    if Terminal(card.status) {
      return Some(TerminalState);
    }
    var status := ParseCardStatus(target).value;
    if card.status == status {
      return None;
    }
    card := card.(status := status);
    db.SaveCard(cardId, card);
    return None;
  }
}
