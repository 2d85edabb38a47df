/**
 * The account operations: opening an account, deposits, withdrawals and
 * transfers. Each operation is a function from the store before to the store
 * after (or an error), followed by the method that performs it on a `Db`
 * step by step and is proved to commit exactly that outcome.
 */
module AccountService {
  import opened Wrappers
  import opened Entities
  import opened Ledger

  // ---------------------------------------------------------------------------
  // createAccount
  // ---------------------------------------------------------------------------

  /**
   * Opening an account. `id` and `number` are the fresh identifier and the
   * fresh account number handed out by the store and the number generator.
   * The type defaults to "ahorro" and the balance to the initial balance or 0;
   * no record is written.
   */
  function AccountCreation(s: Store, user: UserId, id: AccountId, number: string,
                           accountType: Option<string>, initialBalance: Option<Money>): (r: Result<Store, Error>)
    requires id !in s.accounts && number !in s.accountIndex
    ensures user !in s.users ==> r == Failure(NotFound(NoUser))
    ensures r.Success? <==> user in s.users && ParseAccountType(OrDefault(accountType, "ahorro")).Some?
    ensures r.Failure? && user in s.users ==> r.error == ValidationError
    ensures r.Success? ==>
      && id in r.value.accounts
      && r.value.accounts == s.accounts[id := r.value.accounts[id]]
      && r.value.accounts[id].owner == user
      && r.value.accounts[id].number == number
      && r.value.accounts[id].balance == initialBalance.GetOr(0)
      && ParseAccountType(OrDefault(accountType, "ahorro")) == Some(r.value.accounts[id].accountType)
      && (!Present(accountType) ==> r.value.accounts[id].accountType == Ahorro)
      && r.value.accountIndex == s.accountIndex[number := id]
      && r.value.records == s.records
      && r.value.users == s.users && r.value.cards == s.cards && r.value.loans == s.loans
  {
    if user !in s.users then Failure(NotFound(NoUser))
    else
      var accountType := ParseAccountType(OrDefault(accountType, "ahorro"));
      if accountType.None? then Failure(ValidationError)
      else
        var account := Account(user, number, accountType.value, initialBalance.GetOr(0));
        Success(s.(accounts := s.accounts[id := account], accountIndex := s.accountIndex[number := id]))
  }

  /** Opening an account keeps the invariants exactly when its initial balance is not negative. */
  lemma AccountCreationValid(s: Store, user: UserId, id: AccountId, number: string,
                             accountType: Option<string>, initialBalance: Option<Money>)
    requires Valid(s) && id !in s.accounts && number !in s.accountIndex
    requires AccountCreation(s, user, id, number, accountType, initialBalance).Success?
    ensures Valid(AccountCreation(s, user, id, number, accountType, initialBalance).value)
            <==> initialBalance.GetOr(0) >= 0
  {
    var s' := AccountCreation(s, user, id, number, accountType, initialBalance).value;
    if initialBalance.GetOr(0) >= 0 {
      forall n | n in s'.accountIndex
        ensures s'.accountIndex[n] in s'.accounts && s'.accounts[s'.accountIndex[n]].number == n
      {
        if n != number {
          assert s.accountIndex[n] in s.accounts && s.accountIndex[n] != id;
        }
      }
      forall a | a in s'.accounts
        ensures s'.accounts[a].number in s'.accountIndex && s'.accountIndex[s'.accounts[a].number] == a
      {
        if a != id {
          assert s.accounts[a].number in s.accountIndex && s.accounts[a].number != number;
        }
      }
    } else {
      assert s'.accounts[id].balance < 0;
    }
  }

  /** Opening an account adds its initial balance to the money held in accounts. */
  lemma AccountCreationTotal(s: Store, user: UserId, id: AccountId, number: string,
                             accountType: Option<string>, initialBalance: Option<Money>)
    requires id !in s.accounts && number !in s.accountIndex
    requires AccountCreation(s, user, id, number, accountType, initialBalance).Success?
    ensures TotalBalance(AccountCreation(s, user, id, number, accountType, initialBalance).value.accounts)
            == TotalBalance(s.accounts) + initialBalance.GetOr(0)
  {
    var s' := AccountCreation(s, user, id, number, accountType, initialBalance).value;
    TotalBalanceInsert(s.accounts, id, s'.accounts[id]);
  }

  method CreateAccount(db: Db, user: UserId, id: AccountId, number: string,
                       accountType: Option<string>, initialBalance: Option<Money>) returns (err: Option<Error>)
    requires id !in db.accounts && number !in db.accountIndex
    modifies db
    ensures Commits(AccountCreation(old(db.Snapshot()), user, id, number, accountType, initialBalance),
                    old(db.Snapshot()), db.Snapshot(), err)
  {
    if user !in db.users {
      return Some(NotFound(NoUser));
    }
    var parsed := ParseAccountType(OrDefault(accountType, "ahorro"));
    if parsed.None? {
      return Some(ValidationError);
    }
    var balance := initialBalance.GetOr(0);
    db.InsertAccount(id, Account(user, number, parsed.value, balance));
    return None;
  }

  // ---------------------------------------------------------------------------
  // makeDeposit
  // ---------------------------------------------------------------------------

  /**
   * A deposit into an account of the caller: the amount is checked before
   * any lookup, the balance grows by the amount, and one 'deposito' record
   * linked to the account is appended. Nothing else changes.
   */
  function Deposit(s: Store, user: UserId, id: AccountId, amount: Money): (r: Result<Store, Error>)
    ensures amount <= 0 ==> r == Failure(InvalidAmount)
    ensures amount > 0 && OwnedAccount(s, user, id).None? ==> r == Failure(NotFound(NoAccount))
    ensures r.Success? <==> amount > 0 && OwnedAccount(s, user, id).Some?
    ensures r.Success? ==>
      && AccountsUnchangedExcept(s, r.value, {id})
      && r.value.accounts[id] == s.accounts[id].(balance := s.accounts[id].balance + amount)
      && SameExceptAccounts(s, r.value)
      && r.value.records == s.records + [AccountRecord(user, Deposito, amount, id)]
  {
    if amount <= 0 then Failure(InvalidAmount)
    else match OwnedAccount(s, user, id)
      case None => Failure(NotFound(NoAccount))
      case Some(account) =>
        Success(s.(accounts := s.accounts[id := account.(balance := account.balance + amount)],
                   records := s.records + [AccountRecord(user, Deposito, amount, id)]))
  }

  /** A deposit keeps every invariant. */
  lemma DepositValid(s: Store, user: UserId, id: AccountId, amount: Money)
    requires Valid(s) && Deposit(s, user, id, amount).Success?
    ensures Valid(Deposit(s, user, id, amount).value)
  {
    var s' := Deposit(s, user, id, amount).value;
    assert forall n :: n in s'.accountIndex ==> s'.accounts[s'.accountIndex[n]].number == s.accounts[s.accountIndex[n]].number;
  }

  /** The money held in accounts grows by exactly the amount deposited. */
  lemma DepositTotal(s: Store, user: UserId, id: AccountId, amount: Money)
    requires Deposit(s, user, id, amount).Success?
    ensures TotalBalance(Deposit(s, user, id, amount).value.accounts) == TotalBalance(s.accounts) + amount
  {
    TotalBalanceUpdate(s.accounts, id, s.accounts[id].(balance := s.accounts[id].balance + amount));
  }

  method MakeDeposit(db: Db, user: UserId, id: AccountId, amount: Money) returns (err: Option<Error>)
    modifies db
    ensures Commits(Deposit(old(db.Snapshot()), user, id, amount), old(db.Snapshot()), db.Snapshot(), err)
  {
    if amount <= 0 {
      return Some(InvalidAmount);
    }
    var found := OwnedAccount(db.Snapshot(), user, id);
    if found.None? {
      return Some(NotFound(NoAccount));
    }
    var account := found.value;
    account := account.(balance := account.balance + amount);
    db.SaveAccount(id, account);
    db.AppendRecords([AccountRecord(user, Deposito, amount, id)]);
    return None;
  }

  // ---------------------------------------------------------------------------
  // makeWithdrawal
  // ---------------------------------------------------------------------------

  /**
   * A withdrawal from an account of the caller: it fails when the balance is
   * below the amount; otherwise the balance drops by the amount and one
   * 'retiro' record linked to the account is appended.
   */
  function Withdrawal(s: Store, user: UserId, id: AccountId, amount: Money): (r: Result<Store, Error>)
    ensures amount <= 0 ==> r == Failure(InvalidAmount)
    ensures amount > 0 && OwnedAccount(s, user, id).None? ==> r == Failure(NotFound(NoAccount))
    ensures amount > 0 && OwnedAccount(s, user, id).Some? && s.accounts[id].balance < amount ==>
              r == Failure(InsufficientFunds)
    ensures r.Success? <==> amount > 0 && OwnedAccount(s, user, id).Some? && s.accounts[id].balance >= amount
    ensures r.Success? ==>
      && AccountsUnchangedExcept(s, r.value, {id})
      && r.value.accounts[id] == s.accounts[id].(balance := s.accounts[id].balance - amount)
      && r.value.accounts[id].balance >= 0
      && SameExceptAccounts(s, r.value)
      && r.value.records == s.records + [AccountRecord(user, Retiro, amount, id)]
  {
    if amount <= 0 then Failure(InvalidAmount)
    else match OwnedAccount(s, user, id)
      case None => Failure(NotFound(NoAccount))
      case Some(account) =>
        if account.balance < amount then Failure(InsufficientFunds)
        else Success(s.(accounts := s.accounts[id := account.(balance := account.balance - amount)],
                        records := s.records + [AccountRecord(user, Retiro, amount, id)]))
  }

  /** A withdrawal keeps every invariant. */
  lemma WithdrawalValid(s: Store, user: UserId, id: AccountId, amount: Money)
    requires Valid(s) && Withdrawal(s, user, id, amount).Success?
    ensures Valid(Withdrawal(s, user, id, amount).value)
  {
    var s' := Withdrawal(s, user, id, amount).value;
    assert forall n :: n in s'.accountIndex ==> s'.accounts[s'.accountIndex[n]].number == s.accounts[s.accountIndex[n]].number;
  }

  /** The money held in accounts drops by exactly the amount withdrawn. */
  lemma WithdrawalTotal(s: Store, user: UserId, id: AccountId, amount: Money)
    requires Withdrawal(s, user, id, amount).Success?
    ensures TotalBalance(Withdrawal(s, user, id, amount).value.accounts) == TotalBalance(s.accounts) - amount
  {
    TotalBalanceUpdate(s.accounts, id, s.accounts[id].(balance := s.accounts[id].balance - amount));
  }

  method MakeWithdrawal(db: Db, user: UserId, id: AccountId, amount: Money) returns (err: Option<Error>)
    modifies db
    ensures Commits(Withdrawal(old(db.Snapshot()), user, id, amount), old(db.Snapshot()), db.Snapshot(), err)
  {
    if amount <= 0 {
      return Some(InvalidAmount);
    }
    var found := OwnedAccount(db.Snapshot(), user, id);
    if found.None? {
      return Some(NotFound(NoAccount));
    }
    var account := found.value;
    if account.balance < amount {
      return Some(InsufficientFunds);
    }
    account := account.(balance := account.balance - amount);
    db.SaveAccount(id, account);
    db.AppendRecords([AccountRecord(user, Retiro, amount, id)]);
    return None;
  }

  // ---------------------------------------------------------------------------
  // makeTransfer
  // ---------------------------------------------------------------------------

  /** The two records of a transfer: out for the source owner, in for the destination owner. */
  function TransferRecords(from: Account, fromId: AccountId, to: Account, toId: AccountId, amount: Money): (r: seq<Record>)
    ensures |r| == 2
    ensures r[0].kind == TransferenciaSalida && r[0].owner == from.owner && r[0].account == Some(fromId)
    ensures r[1].kind == TransferenciaEntrada && r[1].owner == to.owner && r[1].account == Some(toId)
    ensures forall i :: 0 <= i < 2 ==>
      && r[i].amount == amount
      && r[i].fromNumber == Some(from.number) && r[i].toNumber == Some(to.number)
      && r[i].loan.None? && r[i].card.None?
  {
    [ Record(from.owner, TransferenciaSalida, amount, Some(fromId), None, None, Some(from.number), Some(to.number)),
      Record(to.owner, TransferenciaEntrada, amount, Some(toId), None, None, Some(from.number), Some(to.number)) ]
  }

  /**
   * A transfer from an account of the caller to any account, found by its
   * number. The guards run in a fixed order: the source must exist and be
   * owned, must hold the amount, the destination must exist, and only then is
   * a transfer to the same account number refused.
   */
  function Transfer(s: Store, user: UserId, fromId: AccountId, toNumber: string, amount: Money): (r: Result<Store, Error>)
    ensures amount <= 0 ==> r == Failure(InvalidAmount)
    ensures amount > 0 && OwnedAccount(s, user, fromId).None? ==> r == Failure(NotFound(NoAccount))
    ensures amount > 0 && OwnedAccount(s, user, fromId).Some? && s.accounts[fromId].balance < amount ==>
              r == Failure(InsufficientFunds)
    ensures (amount > 0 && OwnedAccount(s, user, fromId).Some? && s.accounts[fromId].balance >= amount
             && AccountByNumber(s, toNumber).None?) ==> r == Failure(NotFound(NoDestination))
    ensures r.Failure? && r.error == SameAccount ==> toNumber == s.accounts[fromId].number
    ensures r.Success? <==>
      && amount > 0 && OwnedAccount(s, user, fromId).Some? && s.accounts[fromId].balance >= amount
      && AccountByNumber(s, toNumber).Some? && toNumber != s.accounts[fromId].number
    ensures r.Success? ==>
      var toId := AccountByNumber(s, toNumber).value;
      && toId != fromId
      && AccountsUnchangedExcept(s, r.value, {fromId, toId})
      && r.value.accounts[fromId] == s.accounts[fromId].(balance := s.accounts[fromId].balance - amount)
      && r.value.accounts[toId] == s.accounts[toId].(balance := s.accounts[toId].balance + amount)
      && r.value.accounts[fromId].balance + r.value.accounts[toId].balance
         == s.accounts[fromId].balance + s.accounts[toId].balance
      && SameExceptAccounts(s, r.value)
      && r.value.records == s.records + TransferRecords(s.accounts[fromId], fromId, s.accounts[toId], toId, amount)
  {
    if amount <= 0 then Failure(InvalidAmount)
    else match OwnedAccount(s, user, fromId)
      case None => Failure(NotFound(NoAccount))
      case Some(from) =>
        if from.balance < amount then Failure(InsufficientFunds)
        else match AccountByNumber(s, toNumber)
          case None => Failure(NotFound(NoDestination))
          case Some(toId) =>
            var to := s.accounts[toId];
            if from.number == to.number then Failure(SameAccount)
            else
              var accounts := s.accounts[fromId := from.(balance := from.balance - amount)];
              Success(s.(accounts := accounts[toId := to.(balance := to.balance + amount)],
                         records := s.records + TransferRecords(from, fromId, to, toId, amount)))
  }

  /** A transfer moves money between two accounts and creates none: the total is unchanged. */
  lemma TransferConserves(s: Store, user: UserId, fromId: AccountId, toNumber: string, amount: Money)
    requires Transfer(s, user, fromId, toNumber, amount).Success?
    ensures TotalBalance(Transfer(s, user, fromId, toNumber, amount).value.accounts) == TotalBalance(s.accounts)
  {
    var toId := AccountByNumber(s, toNumber).value;
    var from, to := s.accounts[fromId], s.accounts[toId];
    var debited := s.accounts[fromId := from.(balance := from.balance - amount)];
    TotalBalanceUpdate(s.accounts, fromId, from.(balance := from.balance - amount));
    TotalBalanceUpdate(debited, toId, to.(balance := to.balance + amount));
  }

  /** A transfer keeps every invariant. */
  lemma TransferValid(s: Store, user: UserId, fromId: AccountId, toNumber: string, amount: Money)
    requires Valid(s) && Transfer(s, user, fromId, toNumber, amount).Success?
    ensures Valid(Transfer(s, user, fromId, toNumber, amount).value)
  {
    var s' := Transfer(s, user, fromId, toNumber, amount).value;
    assert forall n :: n in s'.accountIndex ==> s'.accounts[s'.accountIndex[n]].number == s.accounts[s.accountIndex[n]].number;
    assert forall i :: 0 <= i < |s'.records| ==> s'.records[i].amount > 0 by {
      var toId := AccountByNumber(s, toNumber).value;
      var added := TransferRecords(s.accounts[fromId], fromId, s.accounts[toId], toId, amount);
      assert forall i :: |s.records| <= i < |s'.records| ==> s'.records[i] == added[i - |s.records|];
    }
  }

  /**
   * A transfer to the source's own number is refused, but the balance guard
   * comes first: with too little money the error is insufficient funds.
   */
  lemma SelfTransfer(s: Store, user: UserId, fromId: AccountId, amount: Money)
    requires IndexValid(s) && amount > 0 && OwnedAccount(s, user, fromId).Some?
    ensures var r := Transfer(s, user, fromId, s.accounts[fromId].number, amount);
      r == Failure(if s.accounts[fromId].balance < amount then InsufficientFunds else SameAccount)
  {
    var number := s.accounts[fromId].number;
    assert AccountByNumber(s, number) == Some(fromId);
  }

  method MakeTransfer(db: Db, user: UserId, fromId: AccountId, toNumber: string, amount: Money)
    returns (err: Option<Error>)
    modifies db
    ensures Commits(Transfer(old(db.Snapshot()), user, fromId, toNumber, amount), old(db.Snapshot()), db.Snapshot(), err)
  {
    if amount <= 0 {
      return Some(InvalidAmount);
    }
    var source := OwnedAccount(db.Snapshot(), user, fromId);
    if source.None? {
      return Some(NotFound(NoAccount));
    }
    var from := source.value;
    if from.balance < amount {
      return Some(InsufficientFunds);
    }
    var destination := AccountByNumber(db.Snapshot(), toNumber);
    if destination.None? {
      return Some(NotFound(NoDestination));
    }
    var toId := destination.value;
    var to := db.accounts[toId];
    if from.number == to.number {
      return Some(SameAccount);
    }
    var records := TransferRecords(from, fromId, to, toId, amount);
    from := from.(balance := from.balance - amount);
    to := to.(balance := to.balance + amount);
    db.SaveAccount(fromId, from);
    db.SaveAccount(toId, to);
    db.AppendRecords(records);
    return None;
  }
}
