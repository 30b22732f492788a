/** The balance table and all that was ever applied to it. */
module BalanceBooks {
  import opened Wrappers
  import opened Totals
  import opened Journal
  import opened JournalPersistence

  /** Which entry a reversal reverses, and the idempotency key it was asked for with. */
  datatype Reversing = Reversing(index: nat, key: string)

  datatype Entry = Entry(periodId: string, currency: string, lines: seq<PersistedLine>, voided: bool,
                         reverses: Option<Reversing>)

  /** The chart of accounts by code, the balance table, and the entries applied to it, one after the other. */
  datatype Books = Books(accounts: map<string, Account>, rows: map<RowKey, BalanceRow>, applied: seq<Entry>)

  /** Codes name their accounts and ids are unique. */
  ghost predicate Chart(accounts: map<string, Account>) {
    && (forall code :: code in accounts ==> accounts[code].code == code)
    && (forall c, d :: c in accounts && d in accounts && accounts[c].id == accounts[d].id ==> c == d)
  }

  ghost predicate OfChart(ms: seq<Movement>, accounts: map<string, Account>) {
    forall m :: m in ms ==> m.account.code in accounts && accounts[m.account.code] == m.account
  }

  const DEBITS: Movement -> int := (m: Movement) => m.debit
  const CREDITS: Movement -> int := (m: Movement) => m.credit

  ghost predicate Even(ms: seq<Movement>) {
    Sum(ms, DEBITS) == Sum(ms, CREDITS)
  }

  /** The lines of a reversal: the same accounts with the sides swapped. */
  function ReversedLines(lines: seq<PersistedLine>, currency: string): (reversed: seq<PersistedLine>)
    ensures |reversed| == |lines|
  {
    seq(|lines|, i requires 0 <= i < |lines| =>
      lines[i].(movement := Movement(lines[i].movement.account, lines[i].movement.credit, lines[i].movement.debit),
                memo := Some("Reversal"), currency := currency))
  }

  function ReversalOf(original: Entry, index: nat, key: string, periodId: string): Entry {
    Entry(periodId, original.currency, ReversedLines(original.lines, original.currency), false,
          Some(Reversing(index, key)))
  }

  ghost function Applying(books: Books, entry: Entry): Books {
    books.(rows := Applied(books.rows, entry.periodId, entry.currency, Movements(entry.lines)),
           applied := books.applied + [entry])
  }

  // ----- What every application keeps ----------------------------------------------------------

  /** All that a period's entries do to the accounts, in their order. */
  function PeriodMovements(entries: seq<Entry>, periodId: string): seq<Movement> {
    if entries == [] then []
    else
      var last := entries[|entries| - 1];
      PeriodMovements(entries[..|entries| - 1], periodId) +
      if last.periodId == periodId then Movements(last.lines) else []
  }

  ghost predicate Sound(entry: Entry, accounts: map<string, Account>) {
    Even(Movements(entry.lines)) && OfChart(Movements(entry.lines), accounts)
  }

  /** A stored row holds the totals of all its movements and the closing balance they give. */
  ghost predicate RowMatches(rows: map<RowKey, BalanceRow>, key: RowKey, ms: seq<Movement>) {
    && (key in rows <==> Touches(ms, key.accountId))
    && (key in rows ==>
          var all := Grouped(ms, key.accountId);
          && rows[key].debitTotal == all.debit && rows[key].creditTotal == all.credit
          && rows[key].closingBalance == ClosingBalanceFor(all.account.accountType, all.debit, all.credit))
  }

  ghost predicate Recorded(books: Books) {
    && Chart(books.accounts)
    && (forall i :: 0 <= i < |books.applied| ==> Sound(books.applied[i], books.accounts))
    && (forall key: RowKey :: RowMatches(books.rows, key, PeriodMovements(books.applied, key.periodId)))
  }

  lemma TouchesConcat(s: seq<Movement>, t: seq<Movement>, id: string)
    ensures Touches(s + t, id) <==> Touches(s, id) || Touches(t, id)
  {
    if Touches(s, id) {
      var i :| 0 <= i < |s| && s[i].account.id == id;
      assert (s + t)[i].account.id == id;
    }
    if Touches(t, id) {
      var i :| 0 <= i < |t| && t[i].account.id == id;
      assert (s + t)[|s| + i].account.id == id;
    }
  }

  lemma ChartAccount(accounts: map<string, Account>, s: seq<Movement>, t: seq<Movement>, id: string)
    requires Chart(accounts) && OfChart(s, accounts) && OfChart(t, accounts)
    requires Touches(s, id) && Touches(t, id)
    ensures FirstAccount(s, id) == FirstAccount(t, id)
  {
    FirstAccountIn(s, id);
    FirstAccountIn(t, id);
  }

  lemma OfChartConcat(s: seq<Movement>, t: seq<Movement>, accounts: map<string, Account>)
    requires OfChart(s, accounts) && OfChart(t, accounts)
    ensures OfChart(s + t, accounts)
  {
  }

  /** The totals of two batches add up. */
  lemma GroupedConcat(accounts: map<string, Account>, before: seq<Movement>, ms: seq<Movement>, id: string)
    requires Chart(accounts) && OfChart(before, accounts) && OfChart(ms, accounts) && Touches(ms, id)
    ensures Touches(before + ms, id)
    ensures var all, some := Grouped(before + ms, id), Grouped(ms, id);
            all.account == some.account &&
            if Touches(before, id) then
              && all.debit == Grouped(before, id).debit + some.debit
              && all.credit == Grouped(before, id).credit + some.credit
            else all == some
  {
    TouchesConcat(before, ms, id);
    OfChartConcat(before, ms, accounts);
    SumConcat(before, ms, DebitAt(id));
    SumConcat(before, ms, CreditAt(id));
    ChartAccount(accounts, ms, before + ms, id);
    if !Touches(before, id) {
      UntouchedSums(before, id);
    }
  }

  lemma GroupedBefore(accounts: map<string, Account>, before: seq<Movement>, ms: seq<Movement>, id: string)
    requires Chart(accounts) && OfChart(before, accounts) && OfChart(ms, accounts)
    requires !Touches(ms, id) && Touches(before, id)
    ensures Touches(before + ms, id) && Grouped(before + ms, id) == Grouped(before, id)
  {
    TouchesConcat(before, ms, id);
    OfChartConcat(before, ms, accounts);
    SumConcat(before, ms, DebitAt(id));
    SumConcat(before, ms, CreditAt(id));
    ChartAccount(accounts, before, before + ms, id);
    UntouchedSums(ms, id);
  }

  lemma RowMatchesNext(accounts: map<string, Account>, rows: map<RowKey, BalanceRow>, periodId: string,
                       currency: string, before: seq<Movement>, ms: seq<Movement>, key: RowKey)
    requires Chart(accounts) && OfChart(before, accounts) && OfChart(ms, accounts)
    requires key.periodId == periodId && RowMatches(rows, key, before)
    ensures RowMatches(Applied(rows, periodId, currency, ms), key, before + ms)
  {
    hide Applied, Touches, Grouped, Sum, Chart, OfChart;
    AppliedAt(rows, periodId, currency, ms, key);
    TouchesConcat(before, ms, key.accountId);
    if Touches(ms, key.accountId) {
      GroupedConcat(accounts, before, ms, key.accountId);
    } else if Touches(before, key.accountId) {
      GroupedBefore(accounts, before, ms, key.accountId);
    }
  }

  lemma {:induction false} PeriodOfChart(entries: seq<Entry>, accounts: map<string, Account>, periodId: string)
    requires forall i :: 0 <= i < |entries| ==> Sound(entries[i], accounts)
    ensures OfChart(PeriodMovements(entries, periodId), accounts)
  {
    if entries != [] {
      var last := |entries| - 1;
      assert Sound(entries[last], accounts);
      PeriodOfChart(entries[..last], accounts, periodId);
    }
  }

  lemma {:induction false} PeriodEven(entries: seq<Entry>, accounts: map<string, Account>, periodId: string)
    requires forall i :: 0 <= i < |entries| ==> Sound(entries[i], accounts)
    ensures Even(PeriodMovements(entries, periodId))
  {
    if entries != [] {
      var last := |entries| - 1;
      assert Sound(entries[last], accounts);
      PeriodEven(entries[..last], accounts, periodId);
      var before, ms := PeriodMovements(entries[..last], periodId), Movements(entries[last].lines);
      if entries[last].periodId == periodId {
        SumConcat(before, ms, DEBITS);
        SumConcat(before, ms, CREDITS);
      } else {
        assert before + [] == before;
      }
    }
  }

  lemma PeriodNext(entries: seq<Entry>, entry: Entry, periodId: string)
    ensures PeriodMovements(entries + [entry], periodId) ==
            PeriodMovements(entries, periodId) + if entry.periodId == periodId then Movements(entry.lines) else []
  {
    assert (entries + [entry])[..|entries|] == entries;
  }

  /** Applying an entry keeps each stored row equal to the totals of all that was applied. */
  lemma ApplyingKeeps(books: Books, entry: Entry)
    requires Recorded(books) && Sound(entry, books.accounts)
    ensures Recorded(Applying(books, entry))
  {
    hide Chart, Sound, Even, OfChart, Applied, RowMatches;
    var after := Applying(books, entry);
    forall key: RowKey
      ensures RowMatches(after.rows, key, PeriodMovements(after.applied, key.periodId))
    {
      ApplyingRow(books, entry, key);
    }
  }

  lemma ApplyingRow(books: Books, entry: Entry, key: RowKey)
    requires Recorded(books) && Sound(entry, books.accounts)
    ensures var after := Applying(books, entry);
            RowMatches(after.rows, key, PeriodMovements(after.applied, key.periodId))
  {
    var before := PeriodMovements(books.applied, key.periodId);
    var ms := Movements(entry.lines);
    PeriodNext(books.applied, entry, key.periodId);
    assert RowMatches(books.rows, key, before);
    if entry.periodId == key.periodId {
      PeriodOfChart(books.applied, books.accounts, key.periodId);
      RowMatchesNext(books.accounts, books.rows, key.periodId, entry.currency, before, ms, key);
    } else {
      AppliedAt(books.rows, entry.periodId, entry.currency, ms, key);
      assert before + [] == before;
    }
  }

  /** Whether an entry is voided makes no difference to what it does. */
  lemma {:induction false} VoidingChangesNothing(entries: seq<Entry>, index: nat, voided: bool, periodId: string)
    requires index < |entries|
    ensures PeriodMovements(entries[index := entries[index].(voided := voided)], periodId) ==
            PeriodMovements(entries, periodId)
  {
    var last := |entries| - 1;
    var after := entries[index := entries[index].(voided := voided)];
    if index == last {
      assert after[..last] == entries[..last];
    } else {
      assert after[..last] == entries[..last][index := entries[index].(voided := voided)];
      VoidingChangesNothing(entries[..last], index, voided, periodId);
    }
  }

  lemma {:induction false} ReversedSums(lines: seq<PersistedLine>, currency: string, id: string)
    ensures var ms, reversed := Movements(lines), Movements(ReversedLines(lines, currency));
            && Sum(reversed, DEBITS) == Sum(ms, CREDITS) && Sum(reversed, CREDITS) == Sum(ms, DEBITS)
            && Sum(reversed, DebitAt(id)) == Sum(ms, CreditAt(id))
            && Sum(reversed, CreditAt(id)) == Sum(ms, DebitAt(id))
  {
    if lines != [] {
      var last := |lines| - 1;
      ReversedSums(lines[..last], currency, id);
      assert Movements(lines)[..last] == Movements(lines[..last]);
      assert Movements(ReversedLines(lines, currency))[..last] == Movements(ReversedLines(lines[..last], currency));
    }
  }

  lemma ReversedSound(entry: Entry, accounts: map<string, Account>, index: nat, key: string, periodId: string)
    requires Sound(entry, accounts)
    ensures Sound(ReversalOf(entry, index, key, periodId), accounts)
  {
    ReversedSums(entry.lines, entry.currency, "");
    var ms, reversed := Movements(entry.lines), Movements(ReversedLines(entry.lines, entry.currency));
    forall m | m in reversed ensures m.account.code in accounts && accounts[m.account.code] == m.account {
      var i :| 0 <= i < |reversed| && reversed[i] == m;
      assert ms[i] in ms;
    }
  }

  /** Persisted sums are the draft's, by account and in total. */
  lemma {:induction false} PersistedSums(lines: seq<JournalLine>, accounts: map<string, Account>,
                                         persisted: seq<PersistedLine>, code: string)
    requires Chart(accounts) && code in accounts
    requires |lines| == |persisted|
    requires forall i :: 0 <= i < |lines| ==> Persists(lines[i], accounts, persisted[i])
    ensures var ms, id := Movements(persisted), accounts[code].id;
            && Sum(ms, DEBITS) == TotalDebit(lines) && Sum(ms, CREDITS) == TotalCredit(lines)
            && Sum(ms, DebitAt(id)) - Sum(ms, CreditAt(id)) == Net(lines, code)
  {
    if lines != [] {
      var last := |lines| - 1;
      PersistedSums(lines[..last], accounts, persisted[..last], code);
      assert Movements(persisted)[..last] == Movements(persisted[..last]);
      assert Persists(lines[last], accounts, persisted[last]);
    }
  }

  lemma PersistedSound(lines: seq<JournalLine>, accounts: map<string, Account>, persisted: seq<PersistedLine>, e: Entry)
    requires Chart(accounts) && Balanced(lines) && |lines| == |persisted| && e.lines == persisted
    requires forall i :: 0 <= i < |lines| ==> Persists(lines[i], accounts, persisted[i])
    ensures Sound(e, accounts)
  {
    assert Persists(lines[0], accounts, persisted[0]);
    PersistedSums(lines, accounts, persisted, lines[0].accountCode);
    var ms := Movements(persisted);
    forall m | m in ms ensures m.account.code in accounts && accounts[m.account.code] == m.account {
      var i :| 0 <= i < |ms| && ms[i] == m;
      assert Persists(lines[i], accounts, persisted[i]);
    }
  }

  // ----- How an application moves a balance -----------------------------------------------------

  function ClosingOf(books: Books, periodId: string, account: Account): int {
    var key := RowKey(account.id, periodId);
    if key in books.rows then books.rows[key].closingBalance else 0
  }

  /** What an entry adds to the closing balance of an account. */
  function Effect(entry: Entry, account: Account): int {
    var ms := Movements(entry.lines);
    ClosingBalanceFor(account.accountType, Sum(ms, DebitAt(account.id)), Sum(ms, CreditAt(account.id)))
  }

  lemma ClosingIsApplied(books: Books, periodId: string, code: string)
    requires Recorded(books) && code in books.accounts
    ensures var account, ms := books.accounts[code], PeriodMovements(books.applied, periodId);
            ClosingOf(books, periodId, account) ==
            ClosingBalanceFor(account.accountType, Sum(ms, DebitAt(account.id)), Sum(ms, CreditAt(account.id)))
  {
    var account, ms := books.accounts[code], PeriodMovements(books.applied, periodId);
    assert RowMatches(books.rows, RowKey(account.id, periodId), ms);
    if Touches(ms, account.id) {
      PeriodOfChart(books.applied, books.accounts, periodId);
      FirstAccountIn(ms, account.id);
    } else {
      UntouchedSums(ms, account.id);
    }
  }

  lemma ApplyingMovesBalance(books: Books, entry: Entry, code: string)
    requires Recorded(books) && Sound(entry, books.accounts) && code in books.accounts
    ensures var account := books.accounts[code];
            ClosingOf(Applying(books, entry), entry.periodId, account) ==
            ClosingOf(books, entry.periodId, account) + Effect(entry, account)
  {
    ApplyingKeeps(books, entry);
    ClosingIsApplied(books, entry.periodId, code);
    ClosingIsApplied(Applying(books, entry), entry.periodId, code);
    PeriodNext(books.applied, entry, entry.periodId);
    var before, ms := PeriodMovements(books.applied, entry.periodId), Movements(entry.lines);
    SumConcat(before, ms, DebitAt(books.accounts[code].id));
    SumConcat(before, ms, CreditAt(books.accounts[code].id));
  }

  /** A reversal has the opposite effect, in its own period. */
  lemma ReversalEffect(entry: Entry, index: nat, key: string, periodId: string, account: Account)
    ensures Effect(ReversalOf(entry, index, key, periodId), account) == -Effect(entry, account)
  {
    ReversedSums(entry.lines, entry.currency, account.id);
  }
}
