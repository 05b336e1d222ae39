/** A bank with two accounts, on which what fails in general is shown to fail. */
module SmallBooks {
  import opened ExchangeRates
  import opened Books

  /** An account in RSD that may spend 100 a day and a month. */
  function Customer(number: string, balance: real): Account {
    Account(number, 1, RSD, true, balance, balance, 100.0, 100.0, 0.0, 0.0)
  }

  /** Two accounts, of which `B` holds `x`, and nothing else. */
  predicate JustOpened(opening: map<string, real>, b: Books, x: real) {
    && b == Books(map["B" := Customer("B", x), "S" := Customer("S", 0.0)], [], [], [])
    && opening == map["B" := x, "S" := 0.0]
  }

  lemma JustOpenedBalances(opening: map<string, real>, b: Books, x: real)
    requires JustOpened(opening, b, x)
    ensures Reconciled(opening, b) && Linked(b)
  {
    assert b.accounts.Keys == {"B", "S"};
    EmptyTablesBalance(opening, b);
  }

  lemma EmptyTablesBalance(opening: map<string, real>, b: Books)
    requires b.journal == [] && b.reservations == [] && b.postings == []
    requires Keyed(b.accounts) && b.accounts.Keys == opening.Keys == {"B", "S"}
    requires forall n :: n in b.accounts ==> b.accounts[n].balance == b.accounts[n].available == opening[n]
    ensures Reconciled(opening, b) && Linked(b)
  {
    NoBankAccountsHere(b.accounts);
  }

  lemma NoBankAccountsHere(accounts: map<string, Account>)
    requires accounts.Keys == {"B", "S"}
    ensures Seeded(accounts)
  {
    assert forall code :: code in BANK_ACCOUNTS ==> |BANK_ACCOUNTS[code]| == 18;
  }

  /** 60 from `B` to `recipient`, not yet processed. */
  function OpenSixty(recipient: string, origin: Origin): Transaction {
    Transaction("B", recipient, 60.0, RSD, 60.0, RSD, 0.0, Processing, origin)
  }

  /** An open entry moves nothing yet. */
  lemma OpenEntryBalances(opening: map<string, real>, b: Books, t: Transaction)
    requires Reconciled(opening, b) && Linked(b) && t.status.Processing? && EntryLinked(b.accounts, t)
    ensures Reconciled(opening, b.(journal := b.journal + [t])) && Linked(b.(journal := b.journal + [t]))
  {
    var c := b.(journal := b.journal + [t]);
    forall a | a in b.accounts
      ensures Accounted(b, c, a)
    {
      JournalGrows(b, c, t, a);
    }
    AccountedKeepsReconciled(opening, b, c);
  }
}
