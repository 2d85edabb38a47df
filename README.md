# Banking ledger core in Dafny

This project models the core of a small online-banking backend: the account,
card and loan services (`accountService.js`, `cardService.js`,
`loanService.js`) and the document rules of the `Card` and `Loan` models that
every save passes through. A customer owns savings (`ahorro`) or current
(`corriente`) accounts, deposits, withdraws and transfers between them by
account number, holds credit (`credito`) or debit (`debito`) cards, and takes
loans that are repaid from an account. Every money-moving operation runs
inside a database session and either commits all its writes (balances, card
or loan fields, one or two transaction records) or none of them.

The model has two layers.

- **Specification functions** over an immutable `Ledger.Store` (users,
  accounts, the unique account-number index, cards, loans and the
  transaction log). Each service operation is a function
  `Op(s, …): Result<Store, Error>` whose contract lists every guard in the
  order the service checks it, the error each produces, and on success the
  exact new balances, card or loan fields and records. Lemmas beside each
  one prove the ledger invariants (`Ledger.Valid`) are preserved, money is
  conserved or moved by exactly the amount, and the core's rules hold.
- **Imperative methods** on the class `Ledger.Db`, whose fields the
  services update in place (`account.balance += amount; await
  account.save()`). Each service method mutates the `Db` step by step, as
  the source does, and is proved to commit exactly what its specification
  function says, or to leave the `Db` untouched and report the error
  (`Ledger.Commits`). Card saves always run the model's pre-save hook
  (`CardModel.PreSave`).

`Operations` folds all eleven operations into one request type and proves
the invariants for arbitrary request sequences; `Scenarios` evaluates
concrete runs.

Conventions: identifiers are naturals; amounts are integers (cents); the
interest rate is a real. The values the source generates (document ids,
random account and card numbers) are parameters that the caller guarantees
to be fresh; `Operations.Step` refuses a non-fresh one with `DuplicateKey`,
as the unique indexes would.

Behaviour mirrored from the code rather than smoothed over:

- a loan payment checks the account against the *requested* amount and
  debits all of it, even when only `min(requested, remaining)` is applied to
  the loan (`LoanService.LoanPaymentOverpayment`); a card payment checks the
  requested amount but debits only the applied amount;
- a debit-card purchase debits the linked account without checking who owns
  it, and a transfer's destination is any account with that number;
- `createAccount` accepts any `initialBalance`, including a negative one
  (`AccountService.AccountCreationValid` is an if-and-only-if on this);
- the pre-save hook's cap and floor of `availableBalance` are overwritten by
  the final recomputation `creditLimit - currentDebt`, so the stored
  available balance is negative exactly when the debt exceeds the limit;
- a cash advance on a debit card is reported as "card not found", because
  the card is looked up with `cardType: 'credito'`.

## Model

| member | source | states |
|---|---|---|
| Entities.ParseAccountType | backend/models/Account.js:15-20 | the account type accepts exactly `ahorro` and `corriente`, each mapping to its own variant |
| CardModel.ParseCardStatus | backend/models/Card.js:27-32 | a status parses iff it is one of the four enum values, and parsing inverts the status name |
| CardModel.ExpiryMatchesExactly | backend/models/Card.js:25 | an expiry string matches `MM/YY` or `MMYY` iff it is the rendering of some month 1..12 and two-digit year, with or without the slash |
| CardModel.ValidateCard | backend/models/Card.js:17-55 | a card document is accepted only with a known type, a valid expiry and its type's required fields; status defaults to `activa`, available balance to the limit, debt to 0; every rejection is a validation error |
| CardModel.ValidateToDoc | backend/models/Card.js:17-55 | validating the document of any card with a well-formed expiry gives back that same card |
| CardModel.SaveHook | backend/models/Card.js:63-78 | the hook leaves debit cards alone; for a credit card it floors the debt at 0 and sets available to limit minus debt, which is at most the limit and is non-negative iff debt does not exceed the limit |
| CardModel.PreSave | backend/models/Card.js:63-78 | the sequence of conditional field updates in the hook computes `SaveHook` |
| CardModel.SaveHookIdempotent | backend/models/Card.js:63-78 | running the hook twice is the same as running it once |
| CardModel.SaveHookKeepsValid | backend/models/Card.js:63-78 | a card already satisfying the card invariant is not changed by the hook |
| CardModel.SaveHookRestoresValid | backend/models/Card.js:74-75 | whenever debt is at most a non-negative limit, the hook's recomputation yields a card satisfying the invariant |
| LoanModel.ParseLoanType | backend/models/Loan.js:10-15 | the loan type accepts exactly the four enum values, and each name maps to the variant whose stored name it is |
| LoanModel.ParseLoanStatus | backend/models/Loan.js:33-38 | the loan status accepts exactly `activo`, `pagado` and `incumplimiento`, and each name maps to the variant whose stored name it is |
| LoanModel.ValidateLoan | backend/models/Loan.js:3-51 | a document is accepted iff amount, rate and term are present, type and status (defaulting to `personal` and `activo`) are in their enums and the remaining balance (defaulting to the amount) is non-negative; every rejection is a validation error; an accepted loan copies its fields, takes the amount as remaining balance and `personal`/`activo` as type and status when absent, and owes a non-negative balance |
| LoanModel.ValidateLoanDefaults | backend/models/Loan.js:10-38 | a document giving only amount, rate and term becomes an active personal loan whose remaining balance is the amount |
| LoanModel.ValidateLoanRejectsNegativeDefault | backend/models/Loan.js:28-51 | with a negative amount the defaulted remaining balance fails the non-negativity validator |
| Rules.Applied | backend/services/loanService.js:97 | the applied payment is the smaller of requested and outstanding: it is at most both, equals one of them, and is positive when both are |
| Rules.Payoff | backend/services/loanService.js:98-105 | the new remaining balance is the old minus the payment floored at 0, and is 0 exactly when the payment covers it |
| Rules.PayoffOfApplied | backend/services/loanService.js:97-105 | paying the applied amount reduces the balance by exactly that amount and settles it iff the request covered it |
| Ledger.OwnedAccount | backend/services/accountService.js:72-73 | an account is found iff it exists and belongs to the user |
| Ledger.AccountByNumber | backend/services/accountService.js:141-142 | on a consistent index, an account number resolves iff some account carries that number, and to that account |
| Ledger.OwnedCard | backend/services/cardService.js:130-131 | a card is found iff it exists and belongs to the user |
| Ledger.OwnedCreditCard | backend/services/cardService.js:82-83 | a card is found iff it exists, belongs to the user and is a credit card |
| Ledger.OwnedLoan | backend/services/loanService.js:75-76 | a loan is found iff it exists and belongs to the user |
| Ledger.Db.SaveAccount | backend/services/accountService.js:76 | saving an account replaces that account's document and changes nothing else |
| Ledger.Db.InsertAccount | backend/services/accountService.js:29-34 | creating an account adds its document and its unique-index entry and changes nothing else |
| Ledger.Db.SaveLoan | backend/services/loanService.js:106 | saving a loan replaces that loan's document and changes nothing else |
| Ledger.Db.AppendRecords | backend/services/accountService.js:78-84 | creating transaction records appends them to the log and changes nothing else |
| Ledger.Db.SaveCard | backend/services/cardService.js:99 | saving a card stores it after the pre-save hook and changes nothing else |
| AccountService.AccountCreation | backend/services/accountService.js:22-36 | a missing user is reported first, an unknown account type is a validation error; otherwise the account is added with the given type (`ahorro` when absent), balance the initial one or 0, and its number indexed, with no record written |
| AccountService.AccountCreationValid | backend/services/accountService.js:33 | the ledger stays valid after opening an account iff the initial balance is non-negative |
| AccountService.AccountCreationTotal | backend/services/accountService.js:33 | opening an account adds its initial balance to the total of all balances |
| AccountService.CreateAccount | backend/services/accountService.js:22-36 | the method commits exactly `AccountCreation` or leaves the store unchanged |
| AccountService.Deposit | backend/services/accountService.js:66-94 | a non-positive amount or a foreign or missing account is refused; otherwise only that balance grows by the amount and one deposit record is appended |
| AccountService.DepositValid | backend/services/accountService.js:66-94 | a deposit preserves the ledger invariants |
| AccountService.DepositTotal | backend/services/accountService.js:75 | a deposit raises the total of all balances by exactly the amount |
| AccountService.MakeDeposit | backend/services/accountService.js:66-94 | the method commits exactly `Deposit` or leaves the store unchanged |
| AccountService.Withdrawal | backend/services/accountService.js:97-126 | refused for a non-positive amount, a missing or foreign account, or a balance below the amount; otherwise only that balance drops by the amount and one withdrawal record is appended |
| AccountService.WithdrawalValid | backend/services/accountService.js:105-107 | a withdrawal preserves the invariants, in particular no balance becomes negative |
| AccountService.WithdrawalTotal | backend/services/accountService.js:107 | a withdrawal lowers the total of all balances by exactly the amount |
| AccountService.MakeWithdrawal | backend/services/accountService.js:97-126 | the method commits exactly `Withdrawal` or leaves the store unchanged |
| AccountService.TransferRecords | backend/services/accountService.js:154-172 | a transfer writes an outgoing record for the sender's owner and an incoming one for the receiver's owner, both carrying the amount and both account numbers |
| AccountService.Transfer | backend/services/accountService.js:129-188 | guards in source order (amount, source ownership, funds, destination by number, same account); on success the source drops and the destination rises by the amount, nothing else changes, and the two records are appended |
| AccountService.TransferConserves | backend/services/accountService.js:147-148 | a transfer leaves the total of all balances unchanged |
| AccountService.TransferValid | backend/services/accountService.js:129-188 | a transfer preserves the ledger invariants |
| AccountService.SelfTransfer | backend/services/accountService.js:136-143 | a transfer to the source's own number fails: with insufficient funds when the balance is short, otherwise as a same-account transfer |
| AccountService.MakeTransfer | backend/services/accountService.js:129-188 | the method commits exactly `Transfer` or leaves the store unchanged |
| CardService.InsertCard | backend/services/cardService.js:43 | creating a card document fails iff schema validation fails, and otherwise stores the validated card after the pre-save hook |
| CardService.CardCreation | backend/services/cardService.js:21-44 | missing user, missing type or expiry, missing or non-positive limit, missing or foreign linked account and unknown type are each reported with their own error, and a bad expiry behind otherwise complete data as a validation error; creation succeeds iff the user exists and the expiry and the type's data are valid; a credit card starts with available equal to the limit and no debt |
| CardService.CardCreationValid | backend/services/cardService.js:21-44 | creating a card preserves the ledger invariants |
| CardService.CreateCard | backend/services/cardService.js:21-44 | the method commits exactly `CardCreation` or leaves the store unchanged |
| CardService.CardPayment | backend/services/cardService.js:74-121 | guards in source order (amount, source account given, credit card owned, active, has debt, source account owned, funds for the requested amount), each with its own error; on success the applied amount `min(requested, debt)` moves from the account to the card and one record is appended |
| CardService.CardPaymentValid | backend/services/cardService.js:74-121 | a card payment preserves the ledger invariants |
| CardService.CardPaymentCapped | backend/services/cardService.js:93-96 | paying at least the debt clears it, restores the full limit and debits only the debt |
| CardService.CardPaymentTotal | backend/services/cardService.js:93-94 | a card payment lowers the total of account balances by the applied amount |
| CardService.MakeCardPayment | backend/services/cardService.js:74-121 | the method commits exactly `CardPayment` or leaves the store unchanged |
| CardService.Purchase | backend/services/cardService.js:124-169 | refused for a bad amount, a missing or foreign card, an inactive card; a credit purchase needs enough available credit, else fails as insufficient credit, and moves the amount from available to debt; a debit purchase needs the linked account to exist and cover the amount and debits it; one record is appended |
| CardService.PurchaseValid | backend/services/cardService.js:124-169 | a purchase preserves the ledger invariants |
| CardService.CreditPurchaseKeepsLimit | backend/services/cardService.js:142-145 | on a valid credit card a purchase keeps debt plus available equal to the limit |
| CardService.MakePurchase | backend/services/cardService.js:124-169 | the method commits exactly `Purchase` or leaves the store unchanged |
| CardService.CashAdvance | backend/services/cardService.js:172-206 | refused for a bad amount, a card that is not the user's credit card, an inactive card or insufficient credit; otherwise debt grows and available shrinks by the amount and one record is appended |
| CardService.CashAdvanceNeedsCredit | backend/services/cardService.js:178-179 | a cash advance on a debit card is reported as card not found |
| CardService.CashAdvanceValid | backend/services/cardService.js:172-206 | a cash advance preserves the ledger invariants |
| CardService.MakeCashAdvance | backend/services/cardService.js:172-206 | the method commits exactly `CashAdvance` or leaves the store unchanged |
| CardService.StatusUpdate | backend/services/cardService.js:209-229 | an unknown target status, a missing card and a cancelled or expired card are refused; otherwise only the card's status becomes the target, and asking for the current status changes nothing |
| CardService.StatusUpdateValid | backend/services/cardService.js:209-229 | a status change preserves the ledger invariants |
| CardService.UpdateCardStatus | backend/services/cardService.js:209-229 | the method commits exactly `StatusUpdate` or leaves the store unchanged |
| LoanService.LoanCreation | backend/services/loanService.js:8-37 | a missing user and incomplete or non-positive loan data are refused; otherwise an active loan whose remaining balance is the amount is added with one disbursement record |
| LoanService.LoanCreationValid | backend/services/loanService.js:8-37 | creating a loan preserves the ledger invariants |
| LoanService.CreateLoan | backend/services/loanService.js:8-37 | the method commits exactly `LoanCreation` or leaves the store unchanged |
| LoanService.DebitSource | backend/services/loanService.js:84-94 | succeeds iff no account is given or the user's account covers the requested amount; a foreign account and a short balance have their own errors; on success only that account changes, losing the full requested amount |
| LoanService.DebitSourceTotal | backend/services/loanService.js:88-92 | debiting the payment account lowers the total of all balances by exactly the requested amount |
| LoanService.LoanPayment | backend/services/loanService.js:66-129 | guards in source order (amount, loan owned, active, not yet paid, payment account); on success the remaining balance drops by `min(requested, remaining)`, the loan becomes paid when it reaches 0, and one record of the applied amount is appended |
| LoanService.LoanPaymentValid | backend/services/loanService.js:66-129 | a loan payment preserves the ledger invariants, including that a loan is paid exactly when nothing remains |
| LoanService.LoanPaymentOverpayment | backend/services/loanService.js:88-97 | with a payment account, the account loses the requested amount while the loan shrinks only by the applied one; the difference is the excess over the remaining balance |
| LoanService.LoanPaymentSettles | backend/services/loanService.js:97-105 | after a payment the loan is paid iff the request covered the remaining balance, and active otherwise |
| LoanService.MakeLoanPayment | backend/services/loanService.js:66-129 | the method commits exactly `LoanPayment` or leaves the store unchanged |
| Operations.Step | backend/models/Account.js:10-14 | a request whose new id or number is already taken fails with a duplicate-key error |
| Operations.After | backend/services/accountService.js:86-90 | a failed request leaves the store as it was (the session aborts); a successful one commits its new state |
| Operations.StepValid | backend/services/accountService.js:65-188 | every request except opening an overdrawn account keeps the ledger invariants |
| Operations.StepAppendsRecords | backend/services/accountService.js:78-84 | a request only appends to the transaction log, by exactly the number of records the operation writes when it succeeds |
| Operations.StepKeepsEntities | backend/services/accountService.js:191-199 | no request removes an account, a card or a loan |
| Operations.StepKeepsTerminal | backend/services/cardService.js:219-221 | a cancelled or expired card keeps its status through any request |
| Operations.RunValid | backend/services/accountService.js:65-188 | any sequence of requests that opens no overdrawn account keeps the ledger invariants |
| Operations.RunKeepsTerminal | backend/services/cardService.js:219-221 | a cancelled or expired card keeps its status through any sequence of requests |
| Operations.RunAppendsRecords | backend/services/accountService.js:78-84 | the transaction log of any run extends the initial log |
| Scenarios.ScenarioWithdrawAll | backend/services/accountService.js:97-126 | withdrawing the whole balance empties the account and a further cent is refused |
| Scenarios.ScenarioTransfer | backend/services/accountService.js:129-188 | a full-balance transfer of 200 turns balances 200 and 50 into 0 and 250 with two records |
| Scenarios.ScenarioCreditLimit | backend/services/cardService.js:142-145 | spending the whole limit leaves no credit, and the next purchase is refused |
| Scenarios.ScenarioLoanPaidOff | backend/services/loanService.js:97-105 | paying the whole balance settles the loan and a later payment is refused |
| Scenarios.ScenarioCancelledStaysCancelled | backend/services/cardService.js:219-221 | a cancelled card cannot be reactivated |
| Scenarios.ScenarioDebitPurchaseForeignAccount | backend/services/cardService.js:147-151 | a debit purchase debits a linked account owned by someone else |
| Scenarios.ScenarioLoanOverpayment | backend/services/loanService.js:88-97 | paying 1000 on a loan owing 10 empties an account of 1000 and records 10 |
| Scenarios.ScenarioCardOverpayment | backend/services/cardService.js:90-96 | paying 1000 on a card owing 10 takes only 10 from the account |

## Left out

- Account and card number generation (`generateAccountNumber`, `generateCardNumber`) and document ids: random and I/O bound; the fresh values are parameters.
- The read-only queries (`getUserAccounts`, `getAccountBalance`, `getAccountHistory`, `getUserCards`, `getCardDetails`, `getCardTransactionHistory`, `getUserLoans`, `getLoanDetails`, `getLoanPaymentHistory`): they change nothing and only filter and sort stored documents.
- Record descriptions, timestamps, the loan's `disbursementDate` and log output: free text and clocks carry no rule of the core.
- Concurrency between sessions: each operation is one atomic step; interleavings and write conflicts are not modelled.
- `createLoan` writes the loan and its disbursement record outside any session, so a failure between the two writes can leave a loan without its record; the model writes both together.
- Floating-point amounts, `NaN` and non-numeric inputs: amounts are integers and JavaScript truthiness is modelled only for absent, empty and zero values.
- Mongoose reports all failed validators at once; the model reports a single validation error.
- Mongoose validates every `save()`, but the model runs schema validation only when a card or loan is created. The later saves (cardService.js:99, 146, 185 and 227; loanService.js:106) would always pass it: they change only numbers, which keep their types, a card status taken from the enum, a loan status of `pagado`, and a remaining balance floored at 0 (loanService.js:101-102). No required field is cleared and the expiry date is never rewritten.
- A debit card's `currentDebt` field, which the schema defaults to 0, is not represented: debit cards carry only their linked account.
- Users: only their existence is modelled; registration, authentication, controllers, routes and the frontend are outside the core.
- Account.js and Transaction.js contribute only the shapes of `Entities.Account` and `Entities.Record`; their other fields are not part of this model.
