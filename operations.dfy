/**
 * Every operation of the core as one request type, one step function that
 * dispatches it, and the properties that hold across all operations and all
 * sequences of them: the invariants are kept, records are only appended
 * (one per balance change, two per transfer), and a terminal card stays terminal.
 */
module Operations {
  import opened Wrappers
  import opened Entities
  import opened CardModel
  import opened Ledger
  import AccountService
  import CardService
  import LoanService

  datatype Op =
    | CreateAccountOp(user: UserId, accountId: AccountId, number: string,
                      accountType: Option<string>, initialBalance: Option<Money>)
    | DepositOp(user: UserId, accountId: AccountId, amount: Money)
    | WithdrawalOp(user: UserId, accountId: AccountId, amount: Money)
    | TransferOp(user: UserId, accountId: AccountId, toNumber: string, amount: Money)
    | CreateCardOp(user: UserId, cardId: CardId, number: string, cardType: Option<string>,
                   expiryDate: Option<string>, creditLimit: Option<Money>, linkedAccount: Option<AccountId>)
    | CardPaymentOp(user: UserId, cardId: CardId, amount: Money, source: Option<AccountId>)
    | PurchaseOp(user: UserId, cardId: CardId, amount: Money)
    | CashAdvanceOp(user: UserId, cardId: CardId, amount: Money)
    | StatusUpdateOp(user: UserId, cardId: CardId, target: string)
    | CreateLoanOp(user: UserId, loanId: LoanId, loanType: Option<string>, principal: Option<Money>,
                   interestRate: Option<real>, term: Option<int>)
    | LoanPaymentOp(user: UserId, loanId: LoanId, amount: Money, source: Option<AccountId>)

  /** The identifiers and numbers a creating request brings are not taken yet (the unique indexes). */
  predicate Fresh(s: Store, op: Op) {
    match op
    case CreateAccountOp(_, id, number, _, _) => id !in s.accounts && number !in s.accountIndex
    case CreateCardOp(_, id, number, _, _, _, _) => id !in s.cards && CardService.FreshCardNumber(s, number)
    case CreateLoanOp(_, id, _, _, _, _) => id !in s.loans
    case _ => true
  }

  /** One request against the store; a request whose new key is taken fails as a duplicate key. */
  function Step(s: Store, op: Op): (r: Result<Store, Error>)
    ensures !Fresh(s, op) ==> r == Failure(DuplicateKey)
  {
    if !Fresh(s, op) then Failure(DuplicateKey)
    else match op
      case CreateAccountOp(u, id, n, t, b) => AccountService.AccountCreation(s, u, id, n, t, b)
      case DepositOp(u, id, a) => AccountService.Deposit(s, u, id, a)
      case WithdrawalOp(u, id, a) => AccountService.Withdrawal(s, u, id, a)
      case TransferOp(u, id, n, a) => AccountService.Transfer(s, u, id, n, a)
      case CreateCardOp(u, id, n, t, e, l, k) => CardService.CardCreation(s, u, id, n, t, e, l, k)
      case CardPaymentOp(u, id, a, src) => CardService.CardPayment(s, u, id, a, src)
      case PurchaseOp(u, id, a) => CardService.Purchase(s, u, id, a)
      case CashAdvanceOp(u, id, a) => CardService.CashAdvance(s, u, id, a)
      case StatusUpdateOp(u, id, t) => CardService.StatusUpdate(s, u, id, t)
      case CreateLoanOp(u, id, t, a, i, n) => LoanService.LoanCreation(s, u, id, t, a, i, n)
      case LoanPaymentOp(u, id, a, src) => LoanService.LoanPayment(s, u, id, a, src)
  }

  /** The store after a request: the new state on success, the old one on failure (the session aborts). */
  function After(s: Store, op: Op): (s': Store)
    ensures Step(s, op).Failure? ==> s' == s
    ensures Step(s, op).Success? ==> s' == Step(s, op).value
  {
    match Step(s, op)
    case Success(s') => s'
    case Failure(_) => s
  }

  /** A request that could open an account with a negative balance; the service does not check it. */
  predicate OpensOverdrawn(op: Op) {
    op.CreateAccountOp? && op.initialBalance.GetOr(0) < 0
  }

  /** Every committed request keeps the invariants, apart from opening an account already overdrawn. */
  lemma StepValid(s: Store, op: Op)
    requires Valid(s) && !OpensOverdrawn(op)
    ensures Valid(After(s, op))
  {
    if Step(s, op).Success? {
      match op
      case CreateAccountOp(u, id, n, t, b) => AccountService.AccountCreationValid(s, u, id, n, t, b);
      case DepositOp(u, id, a) => AccountService.DepositValid(s, u, id, a);
      case WithdrawalOp(u, id, a) => AccountService.WithdrawalValid(s, u, id, a);
      case TransferOp(u, id, n, a) => AccountService.TransferValid(s, u, id, n, a);
      case CreateCardOp(u, id, n, t, e, l, k) => CardService.CardCreationValid(s, u, id, n, t, e, l, k);
      case CardPaymentOp(u, id, a, src) => CardService.CardPaymentValid(s, u, id, a, src);
      case PurchaseOp(u, id, a) => CardService.PurchaseValid(s, u, id, a);
      case CashAdvanceOp(u, id, a) => CardService.CashAdvanceValid(s, u, id, a);
      case StatusUpdateOp(u, id, t) => CardService.StatusUpdateValid(s, u, id, t);
      case CreateLoanOp(u, id, t, a, i, n) => LoanService.LoanCreationValid(s, u, id, t, a, i, n);
      case LoanPaymentOp(u, id, a, src) => LoanService.LoanPaymentValid(s, u, id, a, src);
    }
  }

  /** How many records a successful request appends. */
  function RecordsWritten(op: Op): nat {
    match op
    case CreateAccountOp(_, _, _, _, _) => 0
    case CreateCardOp(_, _, _, _, _, _, _) => 0
    case StatusUpdateOp(_, _, _) => 0
    case TransferOp(_, _, _, _) => 2
    case _ => 1
  }

  /**
   * Records are immutable: a request only appends, one record per balance
   * change and two for a transfer; a failed request appends nothing.
   */
  lemma StepAppendsRecords(s: Store, op: Op)
    ensures s.records <= After(s, op).records
    ensures |After(s, op).records| == |s.records| + (if Step(s, op).Success? then RecordsWritten(op) else 0)
  {
  }

  /** Nothing is ever deleted: every account, card and loan survives every request. */
  lemma StepKeepsEntities(s: Store, op: Op)
    ensures s.accounts.Keys <= After(s, op).accounts.Keys
    ensures s.cards.Keys <= After(s, op).cards.Keys
    ensures s.loans.Keys <= After(s, op).loans.Keys
  {
  }

  /** An expired or cancelled card keeps its status whatever request comes next. */
  lemma StepKeepsTerminal(s: Store, op: Op, c: CardId)
    requires c in s.cards && Terminal(s.cards[c].status)
    ensures c in After(s, op).cards && After(s, op).cards[c].status == s.cards[c].status
  {
  }

  /** Requests applied one after another, each committing or aborting on its own. */
  function Run(s: Store, ops: seq<Op>): (s': Store)
    ensures |s.records| <= |s'.records|
    decreases |ops|
  {
    if ops == [] then s else (StepAppendsRecords(s, ops[0]); Run(After(s, ops[0]), ops[1..]))
  }

  /** Any sequence of requests keeps the invariants when none opens an account already overdrawn. */
  lemma {:induction false} RunValid(s: Store, ops: seq<Op>)
    requires Valid(s)
    requires forall i :: 0 <= i < |ops| ==> !OpensOverdrawn(ops[i])
    ensures Valid(Run(s, ops))
    decreases |ops|
  {
    if ops != [] {
      StepValid(s, ops[0]);
      RunValid(After(s, ops[0]), ops[1..]);
    }
  }

  /** Once a card is expired or cancelled, no sequence of requests changes its status. */
  lemma {:induction false} RunKeepsTerminal(s: Store, ops: seq<Op>, c: CardId)
    requires c in s.cards && Terminal(s.cards[c].status)
    ensures c in Run(s, ops).cards && Run(s, ops).cards[c].status == s.cards[c].status
    decreases |ops|
  {
    if ops != [] {
      StepKeepsTerminal(s, ops[0], c);
      RunKeepsTerminal(After(s, ops[0]), ops[1..], c);
    }
  }

  /** The record log of a run extends the log it started from. */
  lemma {:induction false} RunAppendsRecords(s: Store, ops: seq<Op>)
    ensures s.records <= Run(s, ops).records
    decreases |ops|
  {
    if ops != [] {
      StepAppendsRecords(s, ops[0]);
      RunAppendsRecords(After(s, ops[0]), ops[1..]);
    }
  }
}
