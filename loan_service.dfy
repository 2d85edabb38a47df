/**
 * The loan operations: granting a loan and paying it, optionally from an
 * account. Each operation is a function over the store and a method on the
 * `Db` proved to commit exactly what the function says.
 */
module LoanService {
  import opened Wrappers
  import opened Entities
  import opened LoanModel
  import opened Rules
  import opened Ledger

  /** A record that links a loan and optionally an account. */
  function LoanRecord(owner: UserId, kind: RecordKind, amount: Money, loan: LoanId, account: Option<AccountId>): (r: Record)
    ensures r.owner == owner && r.kind == kind && r.amount == amount
    ensures r.loan == Some(loan) && r.account == account && r.card.None?
    ensures r.fromNumber.None? && r.toNumber.None?
  {
    Record(owner, kind, amount, account, Some(loan), None, None, None)
  }

  // ---------------------------------------------------------------------------
  // createLoan
  // ---------------------------------------------------------------------------

  /** The guard of `createLoan`: every field given, and amount, rate and term positive. */
  predicate LoanDataValid(loanType: Option<string>, amount: Option<Money>, interestRate: Option<real>, term: Option<int>) {
    && Present(loanType) && amount.Some? && interestRate.Some? && term.Some?
    && amount.value > 0 && interestRate.value > 0.0 && term.value > 0
  }

  /**
   * Granting a loan. `id` is the fresh identifier of the new document. The
   * loan starts with the whole amount outstanding and status 'activo', the
   * schema rejects a type outside its enum, and one 'desembolso_prestamo'
   * record of the amount, linked to the loan, is written.
   */
  function LoanCreation(s: Store, user: UserId, id: LoanId, loanType: Option<string>, amount: Option<Money>,
                        interestRate: Option<real>, term: Option<int>): (r: Result<Store, Error>)
    requires id !in s.loans
    ensures user !in s.users ==> r == Failure(NotFound(NoUser))
    ensures user in s.users && !LoanDataValid(loanType, amount, interestRate, term) ==> r == Failure(InvalidLoanData)
    ensures (user in s.users && LoanDataValid(loanType, amount, interestRate, term)
             && ParseLoanType(loanType.value).None?) ==> r == Failure(ValidationError)
    ensures r.Success? <==>
      user in s.users && LoanDataValid(loanType, amount, interestRate, term) && ParseLoanType(loanType.value).Some?
    ensures r.Success? ==>
      && id in r.value.loans
      && var loan := r.value.loans[id];
      && r.value.loans == s.loans[id := loan]
      && loan == Loan(user, ParseLoanType(loanType.value).value, amount.value, interestRate.value, term.value,
                      amount.value, Activo)
      && LoanValid(loan)
      && r.value.records == s.records + [LoanRecord(user, DesembolsoPrestamo, amount.value, id, None)]
      && r.value.users == s.users && r.value.accounts == s.accounts
      && r.value.accountIndex == s.accountIndex && r.value.cards == s.cards
  {
    if user !in s.users then Failure(NotFound(NoUser))
    else if !LoanDataValid(loanType, amount, interestRate, term) then Failure(InvalidLoanData)
    else match ValidateLoan(LoanDoc(user, loanType, amount, interestRate, term, amount, Some("activo")))
      case Failure(e) => Failure(e)
      case Success(loan) =>
        Success(s.(loans := s.loans[id := loan],
                   records := s.records + [LoanRecord(user, DesembolsoPrestamo, amount.value, id, None)]))
  }

  /** Granting a loan keeps every invariant. */
  lemma LoanCreationValid(s: Store, user: UserId, id: LoanId, loanType: Option<string>, amount: Option<Money>,
                          interestRate: Option<real>, term: Option<int>)
    requires Valid(s) && id !in s.loans
    requires LoanCreation(s, user, id, loanType, amount, interestRate, term).Success?
    ensures Valid(LoanCreation(s, user, id, loanType, amount, interestRate, term).value)
  {
    var s' := LoanCreation(s, user, id, loanType, amount, interestRate, term).value;
    assert forall i :: |s.records| <= i < |s'.records| ==> s'.records[i].amount == amount.value;
  }

  method CreateLoan(db: Db, user: UserId, id: LoanId, loanType: Option<string>, amount: Option<Money>,
                    interestRate: Option<real>, term: Option<int>) returns (err: Option<Error>)
    requires id !in db.loans
    modifies db
    ensures Commits(LoanCreation(old(db.Snapshot()), user, id, loanType, amount, interestRate, term),
                    old(db.Snapshot()), db.Snapshot(), err)
  {
    if user !in db.users {
      return Some(NotFound(NoUser));
    }
    if !LoanDataValid(loanType, amount, interestRate, term) {
      return Some(InvalidLoanData);
    }
    var validated := ValidateLoan(LoanDoc(user, loanType, amount, interestRate, term, amount, Some("activo")));
    if validated.Failure? {
      return Some(validated.error);
    }
    db.SaveLoan(id, validated.value);
    db.AppendRecords([LoanRecord(user, DesembolsoPrestamo, amount.value, id, None)]);
    return None;
  }

  // ---------------------------------------------------------------------------
  // makeLoanPayment
  // ---------------------------------------------------------------------------

  /**
   * Paying an active, unpaid loan of the caller. When a source account is
   * given it must be the caller's and hold the REQUESTED amount, and it is
   * debited by the full requested amount. Only the part that covers the
   * outstanding balance is applied to the loan; when nothing is left the loan
   * becomes 'pagado'. One 'pago_prestamo' record of the applied amount is
   * written, linking the loan and the source account if any.
   */
  function LoanPayment(s: Store, user: UserId, loanId: LoanId, amount: Money, source: Option<AccountId>)
    : (r: Result<Store, Error>)
    ensures amount <= 0 ==> r == Failure(InvalidAmount)
    ensures amount > 0 && OwnedLoan(s, user, loanId).None? ==> r == Failure(NotFound(NoLoan))
    ensures amount > 0 && OwnedLoan(s, user, loanId).Some? && s.loans[loanId].status != Activo ==>
              r == Failure(LoanNotActive)
    ensures (amount > 0 && OwnedLoan(s, user, loanId).Some? && s.loans[loanId].status == Activo
             && s.loans[loanId].remainingBalance <= 0) ==> r == Failure(AlreadyPaid)
    ensures (amount > 0 && OwnedLoan(s, user, loanId).Some? && s.loans[loanId].status == Activo
             && s.loans[loanId].remainingBalance > 0 && source.Some?) ==>
              && (OwnedAccount(s, user, source.value).None? ==> r == Failure(NotFound(NoPaymentAccount)))
              && (OwnedAccount(s, user, source.value).Some? && s.accounts[source.value].balance < amount ==>
                    r == Failure(InsufficientFunds))
    ensures r.Success? <==>
      && amount > 0 && OwnedLoan(s, user, loanId).Some?
      && s.loans[loanId].status == Activo && s.loans[loanId].remainingBalance > 0
      && (source.Some? ==> OwnedAccount(s, user, source.value).Some? && s.accounts[source.value].balance >= amount)
    ensures r.Success? ==>
      var l := s.loans[loanId];
      var applied := Applied(amount, l.remainingBalance);
      && 0 < applied <= amount && applied <= l.remainingBalance
      && LoansUnchangedExcept(s, r.value, loanId)
      && r.value.loans[loanId] == l.(remainingBalance := r.value.loans[loanId].remainingBalance,
                                     status := r.value.loans[loanId].status)
      && r.value.loans[loanId].remainingBalance == l.remainingBalance - applied
      && RemainingBalanceValid(r.value.loans[loanId].remainingBalance)
      && (r.value.loans[loanId].status == Pagado <==> r.value.loans[loanId].remainingBalance == 0)
      && (r.value.loans[loanId].status != Pagado ==> r.value.loans[loanId].status == Activo)
      && (source.None? ==> r.value.accounts == s.accounts)
      && (source.Some? ==>
            && AccountsUnchangedExcept(s, r.value, {source.value})
            && r.value.accounts[source.value]
               == s.accounts[source.value].(balance := s.accounts[source.value].balance - amount)
            && r.value.accounts[source.value].balance >= 0)
      && r.value.users == s.users && r.value.accountIndex == s.accountIndex && r.value.cards == s.cards
      && r.value.records == s.records + [LoanRecord(user, PagoPrestamo, applied, loanId, source)]
  {
    if amount <= 0 then Failure(InvalidAmount)
    else match OwnedLoan(s, user, loanId)
      case None => Failure(NotFound(NoLoan))
      case Some(loan) =>
        if loan.status != Activo then Failure(LoanNotActive)
        else if loan.remainingBalance <= 0 then Failure(AlreadyPaid)
        else
          var debited := DebitSource(s, user, source, amount);
          if debited.Failure? then Failure(debited.error)
          else
            var applied := Applied(amount, loan.remainingBalance);
            var remaining := Payoff(loan.remainingBalance, applied);
            var loan' := if remaining == 0 then loan.(remainingBalance := 0, status := Pagado)
                         else loan.(remainingBalance := remaining);
            Success(s.(accounts := debited.value,
                       loans := s.loans[loanId := loan'],
                       records := s.records + [LoanRecord(user, PagoPrestamo, applied, loanId, source)]))
  }

  /** The optional payment account: checked against the requested amount and debited by all of it. */
  function DebitSource(s: Store, user: UserId, source: Option<AccountId>, amount: Money)
    : (r: Result<map<AccountId, Account>, Error>)
    ensures source.None? ==> r == Success(s.accounts)
    ensures source.Some? && OwnedAccount(s, user, source.value).None? ==> r == Failure(NotFound(NoPaymentAccount))
    ensures source.Some? && OwnedAccount(s, user, source.value).Some? && s.accounts[source.value].balance < amount ==>
              r == Failure(InsufficientFunds)
    ensures r.Success? <==>
      source.None? || (OwnedAccount(s, user, source.value).Some? && s.accounts[source.value].balance >= amount)
    ensures r.Success? && source.Some? ==>
      && r.value.Keys == s.accounts.Keys
      && (forall id :: id in s.accounts && id != source.value ==> r.value[id] == s.accounts[id])
      && r.value[source.value].balance == s.accounts[source.value].balance - amount
      && r.value[source.value].owner == user
      && r.value[source.value].number == s.accounts[source.value].number
      && r.value[source.value].accountType == s.accounts[source.value].accountType
  {
    match source
    case None => Success(s.accounts)
    case Some(id) =>
      match OwnedAccount(s, user, id)
      case None => Failure(NotFound(NoPaymentAccount))
      case Some(a) =>
        if a.balance < amount then Failure(InsufficientFunds)
        else Success(s.accounts[id := a.(balance := a.balance - amount)])
  }

  /** Debiting a payment account takes exactly the requested amount out of the money held in accounts. */
  lemma DebitSourceTotal(s: Store, user: UserId, source: Option<AccountId>, amount: Money)
    requires DebitSource(s, user, source, amount).Success?
    ensures TotalBalance(DebitSource(s, user, source, amount).value)
            == TotalBalance(s.accounts) - (if source.Some? then amount else 0)
  {
    if source.Some? {
      var a := s.accounts[source.value];
      TotalBalanceUpdate(s.accounts, source.value, a.(balance := a.balance - amount));
    }
  }

  /** A loan payment keeps every invariant. */
  lemma LoanPaymentValid(s: Store, user: UserId, loanId: LoanId, amount: Money, source: Option<AccountId>)
    requires Valid(s) && LoanPayment(s, user, loanId, amount, source).Success?
    ensures Valid(LoanPayment(s, user, loanId, amount, source).value)
  {
    var s' := LoanPayment(s, user, loanId, amount, source).value;
    assert forall n :: n in s'.accountIndex ==> s'.accounts[s'.accountIndex[n]].number == s.accounts[s.accountIndex[n]].number;
  }

  /**
   * What leaves the accounts and what the loan is reduced by differ exactly by
   * the part of the request that exceeds the outstanding balance, when paying
   * from an account: an overpayment is debited but applied to nothing.
   */
  lemma LoanPaymentOverpayment(s: Store, user: UserId, loanId: LoanId, amount: Money, source: Option<AccountId>)
    requires LoanPayment(s, user, loanId, amount, source).Success?
    ensures var s' := LoanPayment(s, user, loanId, amount, source).value;
      var reduction := s.loans[loanId].remainingBalance - s'.loans[loanId].remainingBalance;
      var debited := TotalBalance(s.accounts) - TotalBalance(s'.accounts);
      && reduction == Applied(amount, s.loans[loanId].remainingBalance)
      && debited == (if source.Some? then amount else 0)
      && (source.Some? ==> debited - reduction == (if amount > s.loans[loanId].remainingBalance
                                                   then amount - s.loans[loanId].remainingBalance else 0))
  {
    if source.Some? {
      var a := s.accounts[source.value];
      TotalBalanceUpdate(s.accounts, source.value, a.(balance := a.balance - amount));
    }
  }

  /** Paying at least what is owed settles the loan; paying less leaves it active with the difference owed. */
  lemma LoanPaymentSettles(s: Store, user: UserId, loanId: LoanId, amount: Money, source: Option<AccountId>)
    requires LoanPayment(s, user, loanId, amount, source).Success?
    ensures var l' := LoanPayment(s, user, loanId, amount, source).value.loans[loanId];
      && (amount >= s.loans[loanId].remainingBalance ==> l'.remainingBalance == 0 && l'.status == Pagado)
      && (amount < s.loans[loanId].remainingBalance ==>
            l'.remainingBalance == s.loans[loanId].remainingBalance - amount && l'.status == Activo)
  {
  }

  method MakeLoanPayment(db: Db, user: UserId, loanId: LoanId, amount: Money, source: Option<AccountId>)
    returns (err: Option<Error>)
    modifies db
    ensures Commits(LoanPayment(old(db.Snapshot()), user, loanId, amount, source), old(db.Snapshot()), db.Snapshot(), err)
  {
    if amount <= 0 {
      return Some(InvalidAmount);
    }
    var found := OwnedLoan(db.Snapshot(), user, loanId);
    if found.None? {
      return Some(NotFound(NoLoan));
    }
    var loan := found.value;
    if loan.status != Activo {
      return Some(LoanNotActive);
    }
    if loan.remainingBalance <= 0 {
      return Some(AlreadyPaid);
    }
    if source.Some? {
      var payer := OwnedAccount(db.Snapshot(), user, source.value);
      if payer.None? {
        return Some(NotFound(NoPaymentAccount));
      }
      var account := payer.value;
      if account.balance < amount {
        return Some(InsufficientFunds);
      }
      account := account.(balance := account.balance - amount);
      db.SaveAccount(source.value, account);
    }
    var applied := Applied(amount, loan.remainingBalance);
    loan := loan.(remainingBalance := loan.remainingBalance - applied);
    if loan.remainingBalance <= 0 {
      loan := loan.(remainingBalance := 0, status := Pagado);
    }
    db.SaveLoan(loanId, loan);
    db.AppendRecords([LoanRecord(user, PagoPrestamo, applied, loanId, source)]);
    return None;
  }
}
