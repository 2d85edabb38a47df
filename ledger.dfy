/**
 * The ledger store: the state the services read and write (users, accounts
 * with their unique-number index, cards, loans and the append-only record
 * log), its invariants, the owner-scoped lookups, and the `Db` object whose
 * methods perform the individual writes.
 */
module Ledger {
  import opened Wrappers
  import opened Entities
  import opened CardModel
  import opened LoanModel

  /** A snapshot of every collection the core touches. */
  datatype Store = Store(
    users: set<UserId>,
    accounts: map<AccountId, Account>,
    accountIndex: map<string, AccountId>,
    cards: map<CardId, Card>,
    loans: map<LoanId, Loan>,
    records: seq<Record>)

  predicate AccountsValid(s: Store) {
    forall id :: id in s.accounts ==> s.accounts[id].balance >= 0
  }

  /** The unique index on `accountNumber` agrees with the accounts in both directions. */
  predicate IndexValid(s: Store) {
    && (forall n :: n in s.accountIndex ==>
          s.accountIndex[n] in s.accounts && s.accounts[s.accountIndex[n]].number == n)
    && (forall id :: id in s.accounts ==>
          s.accounts[id].number in s.accountIndex && s.accountIndex[s.accounts[id].number] == id)
  }

  predicate CardsValid(s: Store) {
    forall id :: id in s.cards ==> CardValid(s.cards[id])
  }

  predicate LoansValid(s: Store) {
    forall id :: id in s.loans ==> LoanValid(s.loans[id])
  }

  predicate RecordsValid(s: Store) {
    forall i :: 0 <= i < |s.records| ==> s.records[i].amount > 0
  }

  /** The invariants every committed state is meant to satisfy. */
  predicate Valid(s: Store) {
    AccountsValid(s) && IndexValid(s) && CardsValid(s) && LoansValid(s) && RecordsValid(s)
  }

  // ---------------------------------------------------------------------------
  // Lookups (`findOne` with and without the owner filter)
  // ---------------------------------------------------------------------------

  /** `Account.findOne({ _id, userId })`: absent and not-owned look the same. */
  function OwnedAccount(s: Store, user: UserId, id: AccountId): (r: Option<Account>)
    ensures r.Some? <==> id in s.accounts && s.accounts[id].owner == user
    ensures r.Some? ==> r.value == s.accounts[id]
  {
    if id in s.accounts && s.accounts[id].owner == user then Some(s.accounts[id]) else None
  }

  /** `Account.findOne({ accountNumber })`: no owner filter. */
  function AccountByNumber(s: Store, number: string): (r: Option<AccountId>)
    ensures r.Some? ==> r.value in s.accounts && s.accounts[r.value].number == number
    ensures IndexValid(s) ==> (r.Some? <==> exists id :: id in s.accounts && s.accounts[id].number == number)
  {
    if number in s.accountIndex && s.accountIndex[number] in s.accounts
       && s.accounts[s.accountIndex[number]].number == number
    then Some(s.accountIndex[number])
    else None
  }

  /** `Card.findOne({ _id, userId })`. */
  function OwnedCard(s: Store, user: UserId, id: CardId): (r: Option<Card>)
    ensures r.Some? <==> id in s.cards && s.cards[id].owner == user
    ensures r.Some? ==> r.value == s.cards[id]
  {
    if id in s.cards && s.cards[id].owner == user then Some(s.cards[id]) else None
  }

  /** `Card.findOne({ _id, userId, cardType: 'credito' })`: a debit card is not found. */
  function OwnedCreditCard(s: Store, user: UserId, id: CardId): (r: Option<Card>)
    ensures r.Some? <==> id in s.cards && s.cards[id].owner == user && s.cards[id].kind.Credito?
    ensures r.Some? ==> r.value == s.cards[id]
  {
    if id in s.cards && s.cards[id].owner == user && s.cards[id].kind.Credito? then Some(s.cards[id]) else None
  }

  /** `Loan.findOne({ _id, userId })`. */
  function OwnedLoan(s: Store, user: UserId, id: LoanId): (r: Option<Loan>)
    ensures r.Some? <==> id in s.loans && s.loans[id].owner == user
    ensures r.Some? ==> r.value == s.loans[id]
  {
    if id in s.loans && s.loans[id].owner == user then Some(s.loans[id]) else None
  }

  /**
   * The all-or-nothing contract of a session: on success the store holds
   * exactly the new state and no error is reported; on failure the error is
   * reported and the store is as it was.
   */
  predicate Commits(out: Result<Store, Error>, before: Store, after: Store, err: Option<Error>) {
    match out
    case Success(s') => err.None? && after == s'
    case Failure(e) => err == Some(e) && after == before
  }

  // ---------------------------------------------------------------------------
  // Frame conditions
  // ---------------------------------------------------------------------------

  /** Users, the number index, cards and loans are as they were. */
  predicate SameExceptAccounts(s: Store, s': Store) {
    s'.users == s.users && s'.accountIndex == s.accountIndex && s'.cards == s.cards && s'.loans == s.loans
  }

  /** No account appeared or vanished, and those outside `ids` are as they were. */
  predicate AccountsUnchangedExcept(s: Store, s': Store, ids: set<AccountId>) {
    && s'.accounts.Keys == s.accounts.Keys
    && forall id :: id in s.accounts && id !in ids ==> s'.accounts[id] == s.accounts[id]
  }

  /** No card appeared or vanished, and those other than `id` are as they were. */
  predicate CardsUnchangedExcept(s: Store, s': Store, id: CardId) {
    && s'.cards.Keys == s.cards.Keys
    && forall c :: c in s.cards && c != id ==> s'.cards[c] == s.cards[c]
  }

  /** No loan appeared or vanished, and those other than `id` are as they were. */
  predicate LoansUnchangedExcept(s: Store, s': Store, id: LoanId) {
    && s'.loans.Keys == s.loans.Keys
    && forall l :: l in s.loans && l != id ==> s'.loans[l] == s.loans[l]
  }

  // ---------------------------------------------------------------------------
  // The money held in accounts
  // ---------------------------------------------------------------------------

  /** The sum of all account balances. */
  ghost function TotalBalance(m: map<AccountId, Account>): int
    decreases |m|
  {
    if m == map[] then 0
    else
      var id :| id in m;
      m[id].balance + TotalBalance(m - {id})
  }

  /** The sum can be split at any account, not only at the one the definition picks. */
  lemma {:induction false} TotalBalanceRemove(m: map<AccountId, Account>, id: AccountId)
    requires id in m
    ensures TotalBalance(m) == m[id].balance + TotalBalance(m - {id})
    decreases |m|
  {
    var j :| j in m && TotalBalance(m) == m[j].balance + TotalBalance(m - {j});
    if j != id {
      assert id in m - {j} && j in m - {id};
      assert |m - {j}| == |m| - 1;
      TotalBalanceRemove(m - {j}, id);
      TotalBalanceRemove(m - {id}, j);
      assert (m - {j}) - {id} == (m - {id}) - {j};
    }
  }

  /** Replacing one account changes the sum by the change of that account's balance. */
  lemma TotalBalanceUpdate(m: map<AccountId, Account>, id: AccountId, a: Account)
    requires id in m
    ensures TotalBalance(m[id := a]) == TotalBalance(m) - m[id].balance + a.balance
  {
    TotalBalanceRemove(m, id);
    TotalBalanceRemove(m[id := a], id);
    assert m[id := a] - {id} == m - {id};
  }

  /** Adding a new account adds its balance to the sum. */
  lemma TotalBalanceInsert(m: map<AccountId, Account>, id: AccountId, a: Account)
    requires id !in m
    ensures TotalBalance(m[id := a]) == TotalBalance(m) + a.balance
  {
    TotalBalanceRemove(m[id := a], id);
    assert m[id := a] - {id} == m;
  }

  // ---------------------------------------------------------------------------
  // The database object
  // ---------------------------------------------------------------------------

  /** The collections as mutable state; each method is one write of the underlying store. */
  class Db {
    var users: set<UserId>
    var accounts: map<AccountId, Account>
    var accountIndex: map<string, AccountId>
    var cards: map<CardId, Card>
    var loans: map<LoanId, Loan>
    var records: seq<Record>

    function Snapshot(): Store
      reads this
    {
      Store(users, accounts, accountIndex, cards, loans, records)
    }

    constructor (s: Store)
      ensures Snapshot() == s
    {
      users, accounts, accountIndex := s.users, s.accounts, s.accountIndex;
      cards, loans, records := s.cards, s.loans, s.records;
    }

    /** `account.save()`: the Account schema has no hook and no validator beyond its types. */
    method SaveAccount(id: AccountId, a: Account)
      modifies this
      ensures Snapshot() == old(Snapshot()).(accounts := old(accounts)[id := a])
    {
      accounts := accounts[id := a];
    }

    /** `Account.create`: the new document and its entry in the unique index on `accountNumber`. */
    method InsertAccount(id: AccountId, a: Account)
      modifies this
      ensures Snapshot() == old(Snapshot()).(accounts := old(accounts)[id := a],
                                              accountIndex := old(accountIndex)[a.number := id])
    {
      accounts := accounts[id := a];
      accountIndex := accountIndex[a.number := id];
    }

    /** `card.save()`: the pre('save') hook runs before the document is written. */
    method SaveCard(id: CardId, c: Card)
      modifies this
      ensures Snapshot() == old(Snapshot()).(cards := old(cards)[id := SaveHook(c)])
    {
      var hooked := PreSave(c);
      cards := cards[id := hooked];
    }

    /** `loan.save()`. */
    method SaveLoan(id: LoanId, l: Loan)
      modifies this
      ensures Snapshot() == old(Snapshot()).(loans := old(loans)[id := l])
    {
      loans := loans[id := l];
    }

    /** `Transaction.create([...])`: records are only ever appended. */
    method AppendRecords(rs: seq<Record>)
      modifies this
      ensures Snapshot() == old(Snapshot()).(records := old(records) + rs)
    {
      records := records + rs;
    }
  }
}
