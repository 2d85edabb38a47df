/**
 * The Loan schema: loan types and statuses with their defaults, the default
 * of `remainingBalance` to the original amount, and its non-negativity validator.
 */
module LoanModel {
  import opened Wrappers
  import opened Entities

  /** The `loanType` enum; "personal" is the default. */
  datatype LoanType = Personal | Hipotecario | Automotriz | Estudiantil

  /** The stored name of each loan type. */
  function LoanTypeName(t: LoanType): string {
    match t
    case Personal => "personal"
    case Hipotecario => "hipotecario"
    case Automotriz => "automotriz"
    case Estudiantil => "estudiantil"
  }

  function ParseLoanType(name: string): (r: Option<LoanType>)
    ensures r.Some? <==> name in ["personal", "hipotecario", "automotriz", "estudiantil"]
    ensures r.Some? ==> LoanTypeName(r.value) == name
    ensures r == Some(Personal) <==> name == "personal"
  {
    if name == "personal" then Some(Personal)
    else if name == "hipotecario" then Some(Hipotecario)
    else if name == "automotriz" then Some(Automotriz)
    else if name == "estudiantil" then Some(Estudiantil)
    else None
  }

  /** The `status` enum; "activo" is the default. */
  datatype LoanStatus = Activo | Pagado | Incumplimiento

  /** The stored name of each loan status. */
  function LoanStatusName(st: LoanStatus): string {
    match st
    case Activo => "activo"
    case Pagado => "pagado"
    case Incumplimiento => "incumplimiento"
  }

  function ParseLoanStatus(name: string): (r: Option<LoanStatus>)
    ensures r.Some? <==> name in ["activo", "pagado", "incumplimiento"]
    ensures r.Some? ==> LoanStatusName(r.value) == name
    ensures r == Some(Activo) <==> name == "activo"
  {
    if name == "activo" then Some(Activo)
    else if name == "pagado" then Some(Pagado)
    else if name == "incumplimiento" then Some(Incumplimiento)
    else None
  }

  /** A validated loan. `interestRate` is the annual rate in percent, `term` the number of months. */
  datatype Loan = Loan(
    owner: UserId,
    loanType: LoanType,
    amount: Money,
    interestRate: real,
    term: int,
    remainingBalance: Money,
    status: LoanStatus)

  /** The custom validator on `remainingBalance`. */
  predicate RemainingBalanceValid(value: Money) {
    value >= 0
  }

  /** The loan invariant: nothing negative is owed, and a loan is paid exactly when nothing is owed. */
  predicate LoanValid(l: Loan) {
    RemainingBalanceValid(l.remainingBalance) && (l.status == Pagado <==> l.remainingBalance == 0)
  }

  /** A loan document as handed to the schema; unset fields are `None`. */
  datatype LoanDoc = LoanDoc(
    owner: UserId,
    loanType: Option<string>,
    amount: Option<Money>,
    interestRate: Option<real>,
    term: Option<int>,
    remainingBalance: Option<Money>,
    status: Option<string>)

  /**
   * Mongoose validation of a loan document: defaults first (`loanType`
   * "personal", `remainingBalance` the amount, `status` "activo"), then the
   * required fields, the two enums and the `remainingBalance` validator.
   */
  function ValidateLoan(d: LoanDoc): (r: Result<Loan, Error>)
    ensures r.Failure? ==> r.error == ValidationError
    ensures d.amount.None? || d.interestRate.None? || d.term.None? ==> r.Failure?
    ensures (d.remainingBalance.Some? && !RemainingBalanceValid(d.remainingBalance.value)) ==> r.Failure?
    ensures r.Success? <==>
      && d.amount.Some? && d.interestRate.Some? && d.term.Some?
      && ParseLoanType(d.loanType.GetOr("personal")).Some?
      && ParseLoanStatus(d.status.GetOr("activo")).Some?
      && RemainingBalanceValid(d.remainingBalance.GetOr(d.amount.value))
    ensures r.Success? ==>
      && r.value.owner == d.owner
      && r.value.amount == d.amount.value
      && r.value.interestRate == d.interestRate.value
      && r.value.term == d.term.value
      && r.value.remainingBalance == d.remainingBalance.GetOr(d.amount.value)
      && RemainingBalanceValid(r.value.remainingBalance)
      && ParseLoanType(d.loanType.GetOr("personal")) == Some(r.value.loanType)
      && ParseLoanStatus(d.status.GetOr("activo")) == Some(r.value.status)
  {
    var loanType := ParseLoanType(d.loanType.GetOr("personal"));
    var status := ParseLoanStatus(d.status.GetOr("activo"));
    if d.amount.None? || d.interestRate.None? || d.term.None? || loanType.None? || status.None? then
      Failure(ValidationError)
    else
      var remaining := d.remainingBalance.GetOr(d.amount.value);
      if !RemainingBalanceValid(remaining) then Failure(ValidationError)
      else Success(Loan(d.owner, loanType.value, d.amount.value, d.interestRate.value,
                        d.term.value, remaining, status.value))
  }

  /** A document that sets only the required fields gets every default: personal, the whole amount owed, active. */
  lemma ValidateLoanDefaults(owner: UserId, amount: Money, interestRate: real, term: int)
    requires amount >= 0
    ensures var r := ValidateLoan(LoanDoc(owner, None, Some(amount), Some(interestRate), Some(term), None, None));
      r == Success(Loan(owner, Personal, amount, interestRate, term, amount, Activo))
  {
  }

  /** A loan whose original amount is negative is rejected when its balance is left to default. */
  lemma ValidateLoanRejectsNegativeDefault(owner: UserId, amount: Money, interestRate: real, term: int)
    requires amount < 0
    ensures ValidateLoan(LoanDoc(owner, None, Some(amount), Some(interestRate), Some(term), None, None)).Failure?
  {
  }
}
