/** The bank's tables: accounts, the transaction journal, OTC reservations and interbank postings. */
module Books {
  import opened Sequences
  import opened AppErrors

  const BANK_ACCOUNTS: map<string, string> := map[
    "RSD" := "444000000000000000", "EUR" := "444000000000000001",
    "USD" := "444000000000000002", "CHF" := "444000000000000003",
    "GBP" := "444000000000000004", "JPY" := "444000000000000005",
    "CAD" := "444000000000000006", "AUD" := "444000000000000007"]

  const BANK_CODE := "444"

  /** A full account number of another bank. */
  predicate IsForeign(number: string) { |number| == 18 && number[..3] != BANK_CODE }

  datatype Account = Account(
    number: string, clientID: nat, currency: string, active: bool, balance: real, available: real,
    dailyLimit: real, monthlyLimit: real, dailySpending: real, monthlySpending: real)

  datatype TransactionStatus = Processing | Completed | Rejected

  /** Who wrote a journal entry: trade settlement, a payment, or the payment history of an interbank posting. */
  datatype Origin = Settlement | Payment | CashRecord(postingID: string)

  datatype Transaction = Transaction(
    payer: string, recipient: string, startAmount: real, startCurrency: string,
    endAmount: real, endCurrency: string, commission: real, status: TransactionStatus, origin: Origin)

  datatype ReservationStatus = Reserved | Released | Committed | Refunded

  datatype Reservation = Reservation(
    executionID: string, buyer: string, seller: string, tradeAmount: real, tradeCurrency: string,
    sourceAmount: real, sourceCurrency: string, destinationAmount: real, destinationCurrency: string,
    status: ReservationStatus)

  datatype PostingStatus = Prepared | CashCommitted | RolledBack

  datatype Posting = Posting(
    postingID: string, account: string, currency: string, amount: real,
    requestedCurrency: string, requestedAmount: real, status: PostingStatus,
    bankingTxID: nat, counterparty: string)

  datatype Books = Books(
    accounts: map<string, Account>, journal: seq<Transaction>,
    reservations: seq<Reservation>, postings: seq<Posting>)

  /** The repository calls that can fail. */
  datatype RepoOp =
    | FindCustomer | FindBank | CreateTransaction | GetTransaction | UpdateTransaction
    | FindPayer | FindRecipient | UpdatePayer | UpdateRecipient
    | FindReservation | CreateReservation | SaveReservation | FindBuyer | FindSeller | UpdateBuyer | UpdateSeller
    | FindPosting | CreatePosting | SavePosting | FindAccount | FindClientAccounts | UpdateAccount | CreatePayment
    | FindBankTo | FindBankFrom

  const DB_FAILURE: Err := InternalErr(Plain(DB_ERROR))

  const PANIC: Err := Plain("nil dereference")

  /** The stored row with the columns that an update of balances writes. */
  function WithBalances(stored: Account, row: Account): Account {
    stored.(balance := row.balance, available := row.available,
            dailySpending := row.dailySpending, monthlySpending := row.monthlySpending)
  }

  /** The tables as a mutable store. */
  class Database {
    var accounts: map<string, Account>
    var journal: seq<Transaction>
    var reservations: seq<Reservation>
    var postings: seq<Posting>

    constructor (b: Books)
      ensures View() == b
    {
      accounts, journal, reservations, postings := b.accounts, b.journal, b.reservations, b.postings;
    }

    function View(): Books
      reads this
    {
      Books(accounts, journal, reservations, postings)
    }

    /** Writes back the balances of a row that was read before. */
    method UpdateBalance(row: Account)
      requires row.number in accounts
      modifies this`accounts
      ensures accounts == old(accounts)[row.number := WithBalances(old(accounts)[row.number], row)]
    {
      accounts := accounts[row.number := WithBalances(accounts[row.number], row)];
    }

    method Rollback(b: Books)
      modifies this
      ensures View() == b
    {
      accounts, journal, reservations, postings := b.accounts, b.journal, b.reservations, b.postings;
    }
  }

  ghost predicate Keyed(accounts: map<string, Account>) {
    forall n :: n in accounts ==> accounts[n].number == n
  }

  /** The account after both its balances have moved. */
  function Moved(accounts: map<string, Account>, n: string, balance: real, available: real): Account
    requires n in accounts
  {
    accounts[n].(balance := accounts[n].balance + balance, available := accounts[n].available + available)
  }

  // ----- what the tables say about one account -----

  /** What an entry moves on account `a`. */
  function Leg(t: Transaction, a: string): real {
    (if t.recipient == a then t.endAmount else 0.0) - (if t.payer == a then t.startAmount else 0.0)
  }

  function RecordedBy(a: string): Transaction -> real {
    (t: Transaction) => if t.origin.Settlement? then Leg(t, a) else 0.0
  }

  function BankAccountFor(currency: string): string {
    if currency in BANK_ACCOUNTS then BANK_ACCOUNTS[currency] else ""
  }

  /** What a payment moves on `a`: between two currencies the bank's accounts for both stand in between. */
  function PaymentLeg(t: Transaction, a: string): real {
    if t.startCurrency == t.endCurrency then Leg(t, a)
    else
      Leg(t, a) + (if BankAccountFor(t.startCurrency) == a then t.startAmount else 0.0)
                - (if BankAccountFor(t.endCurrency) == a then t.endAmount else 0.0)
  }

  /** What a completed entry moved on `a`. A payment to another bank moves nothing itself: its money moves
      with the interbank posting that names it. */
  function SettledBy(a: string): Transaction -> real {
    (t: Transaction) =>
      if !t.status.Completed? then 0.0
      else if t.origin.Settlement? then Leg(t, a)
      else if t.origin.Payment? && !IsForeign(t.recipient) then PaymentLeg(t, a)
      else 0.0
  }

  function TradedBy(a: string): Reservation -> real {
    (r: Reservation) =>
      if r.status.Committed? then
        (if r.seller == a then r.destinationAmount else 0.0) - (if r.buyer == a then r.sourceAmount else 0.0)
      else 0.0
  }

  function ReservedBy(a: string): Reservation -> real {
    (r: Reservation) => if r.status.Reserved? && r.buyer == a then r.sourceAmount else 0.0
  }

  function PostedBy(a: string): Posting -> real {
    (p: Posting) => if p.status.CashCommitted? && p.account == a then p.amount else 0.0
  }

  function PreparedBy(a: string): Posting -> real {
    (p: Posting) => if p.status.Prepared? && p.account == a && p.amount < 0.0 then -p.amount else 0.0
  }

  /** Everything that completed settlements and payments, committed trades and committed postings moved on `a`. */
  ghost function Turnover(b: Books, a: string): real {
    Sum(b.journal, SettledBy(a)) + Sum(b.reservations, TradedBy(a)) + Sum(b.postings, PostedBy(a))
  }

  /** Everything that open reservations and prepared outgoing postings hold on `a`. */
  ghost function Held(b: Books, a: string): real {
    Sum(b.reservations, ReservedBy(a)) + Sum(b.postings, PreparedBy(a))
  }

  /** The books balance: every account is its opening balance plus exactly what the tables moved on it,
      and exactly what the tables hold is unavailable. */
  ghost predicate Reconciled(opening: map<string, real>, b: Books) {
    && b.accounts.Keys == opening.Keys
    && forall a :: a in b.accounts ==>
         && b.accounts[a].balance == opening[a] + Turnover(b, a)
         && b.accounts[a].available == b.accounts[a].balance - Held(b, a)
  }

  /** Accounts have numbers, and the bank's own ones are in the currencies they stand for. */
  ghost predicate Seeded(accounts: map<string, Account>) {
    "" !in accounts && forall code :: code in BANK_ACCOUNTS && BANK_ACCOUNTS[code] in accounts ==>
      accounts[BANK_ACCOUNTS[code]].currency == code
  }

  /** A payment carries the currencies of its parties, of which only the recipient may be at another bank. */
  predicate PaymentLinked(accounts: map<string, Account>, t: Transaction) {
    && t.payer in accounts && t.startCurrency == accounts[t.payer].currency
    && (IsForeign(t.recipient) || (t.recipient in accounts && t.endCurrency == accounts[t.recipient].currency))
    && (t.startCurrency == t.endCurrency ==> t.startAmount == t.endAmount)
  }

  predicate EntryLinked(accounts: map<string, Account>, t: Transaction) {
    match t.origin
    case Settlement => t.payer in accounts && t.recipient in accounts
    case Payment => PaymentLinked(accounts, t)
    case CashRecord(_) => t.status.Completed?
  }

  /** Rows refer to accounts that exist, and no trade is between an account and itself. */
  ghost predicate Linked(b: Books) {
    && Keyed(b.accounts) && Seeded(b.accounts)
    && (forall t :: t in b.journal ==> EntryLinked(b.accounts, t))
    && (forall r :: r in b.reservations ==> r.buyer in b.accounts && r.seller in b.accounts && r.buyer != r.seller)
    && (forall p :: p in b.postings ==> p.account in b.accounts)
  }

  /** No account is overdrawn beyond its holds, and the recorded amounts are positive. */
  ghost predicate Solvent(b: Books) {
    && (forall a :: a in b.accounts ==> b.accounts[a].available >= 0.0)
    && (forall t :: t in b.journal && !t.origin.CashRecord? ==> t.startAmount > 0.0 && t.endAmount > 0.0)
    && (forall r :: r in b.reservations ==> r.sourceAmount > 0.0 && r.destinationAmount > 0.0)
  }

  /** One open reservation is covered by what its buyer's account holds, however many others are open. */
  lemma ReservationIsCovered(opening: map<string, real>, b: Books, i: nat)
    requires Reconciled(opening, b) && Linked(b) && Solvent(b)
    requires i < |b.reservations| && b.reservations[i].status.Reserved?
    ensures var r, buyer := b.reservations[i], b.accounts[b.reservations[i].buyer];
      r.sourceAmount <= buyer.balance - buyer.available && r.sourceAmount <= buyer.balance
  {
    var r := b.reservations[i];
    RowBelowSum(b.reservations, i, ReservedBy(r.buyer));
    SumNonNegative(b.postings, PreparedBy(r.buyer));
  }

  lemma PostingIsCovered(opening: map<string, real>, b: Books, i: nat)
    requires Reconciled(opening, b) && Linked(b) && Solvent(b)
    requires i < |b.postings| && b.postings[i].status.Prepared? && b.postings[i].amount < 0.0
    ensures -b.postings[i].amount <= b.accounts[b.postings[i].account].balance
  {
    var p := b.postings[i];
    RowBelowSum(b.postings, i, PreparedBy(p.account));
    SumNonNegative(b.reservations, ReservedBy(p.account));
  }

  // ----- what a change of one row does to one account -----

  /** From `b` to `c` the account moved by exactly what the tables gained, and holds what they hold. */
  ghost predicate Accounted(b: Books, c: Books, a: string)
    requires a in b.accounts && a in c.accounts
  {
    && c.accounts[a].balance - b.accounts[a].balance == Turnover(c, a) - Turnover(b, a)
    && c.accounts[a].available - b.accounts[a].available ==
       Turnover(c, a) - Turnover(b, a) - (Held(c, a) - Held(b, a))
  }

  lemma AccountedKeepsReconciled(opening: map<string, real>, b: Books, c: Books)
    requires Reconciled(opening, b) && c.accounts.Keys == b.accounts.Keys
    requires forall a :: a in b.accounts ==> Accounted(b, c, a)
    ensures Reconciled(opening, c)
  {
    forall a | a in c.accounts
      ensures c.accounts[a].balance == opening[a] + Turnover(c, a)
      ensures c.accounts[a].available == c.accounts[a].balance - Held(c, a)
    {
      assert Accounted(b, c, a);
    }
  }

  lemma JournalGrows(b: Books, c: Books, t: Transaction, a: string)
    requires c.journal == b.journal + [t] && c.reservations == b.reservations && c.postings == b.postings
    ensures Turnover(c, a) - Turnover(b, a) == SettledBy(a)(t) && Held(c, a) == Held(b, a)
  {
    SumAppend(b.journal, t, SettledBy(a));
  }

  lemma JournalChanges(b: Books, c: Books, i: nat, t: Transaction, a: string)
    requires i < |b.journal| && c.journal == b.journal[i := t]
    requires c.reservations == b.reservations && c.postings == b.postings
    ensures Turnover(c, a) - Turnover(b, a) == SettledBy(a)(t) - SettledBy(a)(b.journal[i]) && Held(c, a) == Held(b, a)
  {
    SumUpdate(b.journal, i, t, SettledBy(a));
  }

  lemma ReservationsGrow(b: Books, c: Books, r: Reservation, a: string)
    requires c.reservations == b.reservations + [r] && c.journal == b.journal && c.postings == b.postings
    ensures Turnover(c, a) - Turnover(b, a) == TradedBy(a)(r) && Held(c, a) - Held(b, a) == ReservedBy(a)(r)
  {
    SumAppend(b.reservations, r, TradedBy(a));
    SumAppend(b.reservations, r, ReservedBy(a));
  }

  lemma ReservationsChange(b: Books, c: Books, i: nat, r: Reservation, a: string)
    requires i < |b.reservations| && c.reservations == b.reservations[i := r]
    requires c.journal == b.journal && c.postings == b.postings
    ensures Turnover(c, a) - Turnover(b, a) == TradedBy(a)(r) - TradedBy(a)(b.reservations[i])
    ensures Held(c, a) - Held(b, a) == ReservedBy(a)(r) - ReservedBy(a)(b.reservations[i])
  {
    SumUpdate(b.reservations, i, r, TradedBy(a));
    SumUpdate(b.reservations, i, r, ReservedBy(a));
  }

  lemma PostingsGrow(b: Books, c: Books, p: Posting, a: string)
    requires c.postings == b.postings + [p] && c.journal == b.journal && c.reservations == b.reservations
    ensures Turnover(c, a) - Turnover(b, a) == PostedBy(a)(p) && Held(c, a) - Held(b, a) == PreparedBy(a)(p)
  {
    SumAppend(b.postings, p, PostedBy(a));
    SumAppend(b.postings, p, PreparedBy(a));
  }

  lemma PostingsChange(b: Books, c: Books, i: nat, p: Posting, a: string)
    requires i < |b.postings| && c.postings == b.postings[i := p] && c.reservations == b.reservations
    requires c.journal == b.journal || (|c.journal| == |b.journal| + 1 && c.journal[..|b.journal|] == b.journal &&
                                        c.journal[|b.journal|].origin.CashRecord?)
    ensures Turnover(c, a) - Turnover(b, a) == PostedBy(a)(p) - PostedBy(a)(b.postings[i])
    ensures Held(c, a) - Held(b, a) == PreparedBy(a)(p) - PreparedBy(a)(b.postings[i])
  {
    SumUpdate(b.postings, i, p, PostedBy(a));
    SumUpdate(b.postings, i, p, PreparedBy(a));
    if c.journal != b.journal {
      SumAppend(b.journal, c.journal[|b.journal|], SettledBy(a));
      assert c.journal == b.journal + [c.journal[|b.journal|]];
    }
  }
}
