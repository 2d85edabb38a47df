/** Concrete runs of the operations, one per worked example of how the ledger behaves. */
module Scenarios {
  import opened Wrappers
  import opened Entities
  import opened CardModel
  import opened LoanModel
  import opened Ledger
  import AccountService
  import CardService
  import LoanService

  /** A store with users 1 and 2 and the given accounts, registered in the number index. */
  function WithAccounts(accounts: map<AccountId, Account>, index: map<string, AccountId>): Store {
    Store({1, 2}, accounts, index, map[], map[], [])
  }

  /** Withdrawing the whole balance empties the account; one more cent is refused and changes nothing. */
  lemma ScenarioWithdrawAll()
    ensures
      var s := WithAccounts(map[10 := Account(1, "1000000001", Ahorro, 500)], map["1000000001" := 10]);
      var r := AccountService.Withdrawal(s, 1, 10, 500);
      && r.Success?
      && r.value.accounts[10].balance == 0
      && r.value.records == [AccountRecord(1, Retiro, 500, 10)]
      && AccountService.Withdrawal(r.value, 1, 10, 1) == Failure(InsufficientFunds)
  {
  }

  /** A transfer of the whole source balance: 200 and 50 become 0 and 250, with two linked records. */
  lemma ScenarioTransfer()
    ensures
      var s := WithAccounts(map[10 := Account(1, "1000000001", Ahorro, 200), 11 := Account(2, "1000000002", Corriente, 50)],
                            map["1000000001" := 10, "1000000002" := 11]);
      var r := AccountService.Transfer(s, 1, 10, "1000000002", 200);
      && r.Success?
      && r.value.accounts[10].balance == 0 && r.value.accounts[11].balance == 250
      && |r.value.records| == 2
      && r.value.records[0].kind == TransferenciaSalida && r.value.records[1].kind == TransferenciaEntrada
      && r.value.records[0].amount == 200 && r.value.records[1].amount == 200
      && r.value.records[0].owner == 1 && r.value.records[1].owner == 2
  {
    var s := WithAccounts(map[10 := Account(1, "1000000001", Ahorro, 200), 11 := Account(2, "1000000002", Corriente, 50)],
                          map["1000000001" := 10, "1000000002" := 11]);
    assert AccountByNumber(s, "1000000002") == Some(11);
  }

  /** Spending the whole limit leaves nothing available; the next purchase is refused. */
  lemma ScenarioCreditLimit()
    ensures
      var card := Card(1, "4000123412341234", "12/30", Activa, Credito(1000, 1000, 0));
      var s := Store({1}, map[], map[], map[20 := card], map[], []);
      var r := CardService.Purchase(s, 1, 20, 1000);
      && r.Success?
      && r.value.cards[20].kind == Credito(1000, 0, 1000)
      && CardService.Purchase(r.value, 1, 20, 1) == Failure(InsufficientCredit)
  {
  }

  /** Paying the whole balance settles the loan; a later payment is refused. */
  lemma ScenarioLoanPaidOff()
    ensures
      var loan := Loan(1, Personal, 300, 5.0, 12, 300, Activo);
      var s := Store({1}, map[], map[], map[], map[30 := loan], []);
      var r := LoanService.LoanPayment(s, 1, 30, 300, None);
      && r.Success?
      && r.value.loans[30].remainingBalance == 0 && r.value.loans[30].status == Pagado
      && LoanService.LoanPayment(r.value, 1, 30, 50, None) == Failure(LoanNotActive)
  {
  }

  /** A cancelled card cannot be reactivated. */
  lemma ScenarioCancelledStaysCancelled()
    ensures
      var card := Card(1, "4000123412341234", "1230", Activa, Debito(10));
      var s := Store({1}, map[], map[], map[20 := card], map[], []);
      var r := CardService.StatusUpdate(s, 1, 20, "cancelada");
      && r.Success?
      && r.value.cards[20].status == Cancelada
      && CardService.StatusUpdate(r.value, 1, 20, "activa") == Failure(TerminalState)
  {
  }

  /** A debit purchase debits the linked account even when that account belongs to someone else. */
  lemma ScenarioDebitPurchaseForeignAccount()
    ensures
      var card := Card(1, "4000123412341234", "12/30", Activa, Debito(11));
      var s := Store({1, 2}, map[11 := Account(2, "1000000002", Ahorro, 80)], map["1000000002" := 11],
                     map[20 := card], map[], []);
      var r := CardService.Purchase(s, 1, 20, 30);
      && r.Success?
      && r.value.accounts[11].balance == 50
      && r.value.records[0].account == Some(11)
  {
  }

  /** Paying 1000 towards a loan that owes 10 needs 1000 in the account and takes all of it. */
  lemma ScenarioLoanOverpayment()
    ensures
      var loan := Loan(1, Personal, 100, 5.0, 12, 10, Activo);
      var s := Store({1}, map[10 := Account(1, "1000000001", Ahorro, 1000)], map["1000000001" := 10],
                     map[], map[30 := loan], []);
      var r := LoanService.LoanPayment(s, 1, 30, 1000, Some(10));
      && r.Success?
      && r.value.accounts[10].balance == 0
      && r.value.loans[30].remainingBalance == 0
      && r.value.records[0].amount == 10
  {
  }

  /** The same overpayment against a card debt of 10 takes only 10 out of the account. */
  lemma ScenarioCardOverpayment()
    ensures
      var card := Card(1, "4000123412341234", "12/30", Activa, Credito(500, 490, 10));
      var s := Store({1}, map[10 := Account(1, "1000000001", Ahorro, 1000)], map["1000000001" := 10],
                     map[20 := card], map[], []);
      var r := CardService.CardPayment(s, 1, 20, 1000, Some(10));
      && r.Success?
      && r.value.accounts[10].balance == 990
      && r.value.cards[20].kind == Credito(500, 500, 0)
      && r.value.records[0].amount == 10
  {
  }
}
