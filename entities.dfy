/**
 * The plain document shapes of the ledger: users, accounts and transaction
 * records (the Account and Transaction schemas), and the error taxonomy that
 * every operation reports from.
 */
module Entities {
  import opened Wrappers

  type UserId = nat
  type AccountId = nat
  type CardId = nat
  type LoanId = nat

  /** An amount of money, in cents. */
  type Money = int

  /** The `accountType` enum of the Account schema. */
  datatype AccountType = Ahorro | Corriente

  /** Enum validation of `accountType`: exactly the two listed names are accepted. */
  function ParseAccountType(name: string): (r: Option<AccountType>)
    ensures r == Some(Ahorro) <==> name == "ahorro"
    ensures r == Some(Corriente) <==> name == "corriente"
    ensures r.None? <==> name != "ahorro" && name != "corriente"
  {
    if name == "ahorro" then Some(Ahorro)
    else if name == "corriente" then Some(Corriente)
    else None
  }

  /** An account document: owner, unique external number, type and balance. */
  datatype Account = Account(owner: UserId, number: string, accountType: AccountType, balance: Money)

  /** The nine record kinds of the Transaction schema. */
  datatype RecordKind =
    | Deposito
    | Retiro
    | TransferenciaSalida
    | TransferenciaEntrada
    | PagoPrestamo
    | DesembolsoPrestamo
    | PagoTarjeta
    | CompraTarjeta
    | AvanceEfectivoTarjeta

  /**
   * A transaction record. The optional links and the two counterparty
   * account numbers are the schema's optional fields; the description and
   * the date are not modelled.
   */
  datatype Record = Record(
    owner: UserId,
    kind: RecordKind,
    amount: Money,
    account: Option<AccountId>,
    loan: Option<LoanId>,
    card: Option<CardId>,
    fromNumber: Option<string>,
    toNumber: Option<string>)

  /** A record that links only an account, as deposits and withdrawals write. */
  function AccountRecord(owner: UserId, kind: RecordKind, amount: Money, account: AccountId): (r: Record)
    ensures r.owner == owner && r.kind == kind && r.amount == amount
    ensures r.account == Some(account) && r.loan.None? && r.card.None?
    ensures r.fromNumber.None? && r.toNumber.None?
  {
    Record(owner, kind, amount, Some(account), None, None, None, None)
  }

  /** Which lookup came back empty. */
  datatype Missing =
    | NoUser
    | NoAccount
    | NoDestination
    | NoPaymentAccount
    | NoLinkedAccount
    | NoCard
    | NoLoan

  /** One typed failure per distinct error the services throw. */
  datatype Error =
    | InvalidAmount
    | NotFound(what: Missing)
    | InsufficientFunds
    | InsufficientCredit
    | SameAccount
    | SourceAccountRequired
    | CardNotActive
    | NoDebt
    | LoanNotActive
    | AlreadyPaid
    | InvalidStatus
    | TerminalState
    | MissingCardData
    | CreditLimitRequired
    | LinkedAccountRequired
    | InvalidCardType
    | InvalidLoanData
    | ValidationError
    | DuplicateKey

  /** JavaScript's `x || fallback` on an optional string: absent and empty both fall back. */
  function OrDefault(x: Option<string>, fallback: string): (r: string)
    ensures (x.None? || x == Some("")) ==> r == fallback
    ensures x.Some? && x.value != "" ==> r == x.value
  {
    if x.Some? && x.value != "" then x.value else fallback
  }

  /** JavaScript truthiness of an optional string argument. */
  predicate Present(x: Option<string>) {
    x.Some? && x.value != ""
  }
}
