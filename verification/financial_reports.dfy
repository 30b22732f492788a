/** src/modules/accounting/use-cases/financial-reports.service.ts */
module FinancialReports {
  import opened Wrappers
  import opened Text
  import opened Totals
  import opened JournalPersistence
  import opened BalanceBooks
  import opened Ledgers

  /** A balance row read together with its account. */
  datatype ReportRow = ReportRow(account: Account, debitTotal: int, creditTotal: int, closingBalance: int)

  const ROW_DEBIT: ReportRow -> int := (row: ReportRow) => row.debitTotal
  const ROW_CREDIT: ReportRow -> int := (row: ReportRow) => row.creditTotal
  const ROW_CLOSING: ReportRow -> int := (row: ReportRow) => row.closingBalance

  /** The rows of a period, each once, in some order. */
  ghost predicate Lists(books: Books, periodId: string, rows: seq<ReportRow>) {
    && (forall i, j :: 0 <= i < j < |rows| ==> rows[i].account.id != rows[j].account.id)
    && (forall i :: 0 <= i < |rows| ==> IsRow(books, periodId, rows[i]))
    && (forall key :: key in books.rows && key.periodId == periodId ==> HasAccount(rows, key.accountId))
  }

  ghost predicate IsRow(books: Books, periodId: string, row: ReportRow) {
    var key := RowKey(row.account.id, periodId);
    && row.account.code in books.accounts && books.accounts[row.account.code] == row.account
    && key in books.rows
    && row.debitTotal == books.rows[key].debitTotal && row.creditTotal == books.rows[key].creditTotal
    && row.closingBalance == books.rows[key].closingBalance
  }

  ghost predicate HasAccount(rows: seq<ReportRow>, id: string) {
    exists i :: 0 <= i < |rows| && rows[i].account.id == id
  }

  // ----- The reports ---------------------------------------------------------------------------

  datatype TrialBalanceTotals = TrialBalanceTotals(debitTotal: int, creditTotal: int, balanced: bool)

  function TrialBalance(rows: seq<ReportRow>): TrialBalanceTotals {
    var totalDebit, totalCredit := Sum(rows, ROW_DEBIT), Sum(rows, ROW_CREDIT);
    TrialBalanceTotals(totalDebit, totalCredit, totalDebit == totalCredit)
  }

  function Section(rows: seq<ReportRow>, accountType: AccountType): seq<ReportRow> {
    if rows == [] then []
    else
      var last := rows[|rows| - 1];
      Section(rows[..|rows| - 1], accountType) + if last.account.accountType == accountType then [last] else []
  }

  datatype BalanceSheetTotals = BalanceSheetTotals(assets: int, liabilities: int, equity: int)

  function BalanceSheet(rows: seq<ReportRow>): BalanceSheetTotals {
    BalanceSheetTotals(Sum(Section(rows, ASSET), ROW_CLOSING), Sum(Section(rows, LIABILITY), ROW_CLOSING),
                       Sum(Section(rows, EQUITY), ROW_CLOSING))
  }

  datatype IncomeStatementTotals = IncomeStatementTotals(revenue: int, expenses: int, netIncome: int)

  function IncomeStatement(rows: seq<ReportRow>): IncomeStatementTotals {
    var revenue, expenses := Sum(Section(rows, REVENUE), ROW_CLOSING), Sum(Section(rows, EXPENSE), ROW_CLOSING);
    IncomeStatementTotals(revenue, expenses, revenue - expenses)
  }

  datatype ReportError = AccountCodeRequired | AccountNotFound(code: string)

  function Delta(accountType: AccountType): Movement -> int {
    (m: Movement) => if accountType.DebitNormal() then m.debit - m.credit else m.credit - m.debit
  }

  /** `lines` answers the query for the account's lines of the period, in the report's order. */
  method GeneralLedger(accountCode: Option<string>, accounts: map<string, Account>,
                       linesOf: map<string, seq<Movement>>)
    returns (r: Result<seq<int>, ReportError>)
    ensures r.Failure? ==>
              r.error == if accountCode.None? || Trim(accountCode.value) == "" then AccountCodeRequired
                         else AccountNotFound(Trim(accountCode.value))
    ensures r.Success? <==> accountCode.Some? && Trim(accountCode.value) != "" && Trim(accountCode.value) in accounts
    ensures r.Success? ==>
              var account := accounts[Trim(accountCode.value)];
              r.value == Running(LinesOf(linesOf, account.id), account.accountType)
  {
    hide Trim, Sum, Running;
    if accountCode.None? || Trim(accountCode.value) == "" {
      return Failure(AccountCodeRequired);
    }
    var code := Trim(accountCode.value);
    if code !in accounts {
      return Failure(AccountNotFound(code));
    }
    var account := accounts[code];
    var lines := LinesOf(linesOf, account.id);
    EmptySum(lines[..0], Delta(account.accountType));
    var running := 0;
    var entries := [];
    for i := 0 to |lines|
      invariant running == Sum(lines[..i], Delta(account.accountType))
      invariant entries == Running(lines[..i], account.accountType)
    {
      assert lines[..i + 1] == lines[..i] + [lines[i]];
      RunningNext(lines, i, account.accountType);
      SumAppended(lines[..i], lines[i], Delta(account.accountType));
      var delta := if account.accountType.ASSET? || account.accountType.EXPENSE?
                   then lines[i].debit - lines[i].credit else lines[i].credit - lines[i].debit;
      running := running + delta;
      entries := entries + [running];
    }
    assert lines[..|lines|] == lines;
    return Success(entries);
  }

  function LinesOf(linesOf: map<string, seq<Movement>>, id: string): seq<Movement> {
    if id in linesOf then linesOf[id] else []
  }

  /** The running balance after each line: the sum of all deltas so far. */
  function Running(lines: seq<Movement>, accountType: AccountType): (running: seq<int>)
    ensures |running| == |lines|
    ensures forall i :: 0 <= i < |lines| ==> running[i] == Sum(lines[..i + 1], Delta(accountType))
  {
    seq(|lines|, i requires 0 <= i < |lines| => Sum(lines[..i + 1], Delta(accountType)))
  }

  lemma RunningNext(lines: seq<Movement>, i: nat, accountType: AccountType)
    requires i < |lines|
    ensures Running(lines[..i + 1], accountType) ==
            Running(lines[..i], accountType) + [Sum(lines[..i + 1], Delta(accountType))]
  {
    var next, now := Running(lines[..i + 1], accountType), Running(lines[..i], accountType);
    forall k | 0 <= k <= i ensures next[k] == Sum(lines[..k + 1], Delta(accountType)) {
      assert lines[..i + 1][..k + 1] == lines[..k + 1];
    }
    forall k | 0 <= k < i ensures now[k] == next[k] {
      assert lines[..i][..k + 1] == lines[..k + 1];
    }
  }

  // ----- The general ledger ends at the stored balance -----------------------------------------

  function AccountMovements(ms: seq<Movement>, id: string): seq<Movement> {
    if ms == [] then []
    else
      var last := ms[|ms| - 1];
      AccountMovements(ms[..|ms| - 1], id) + if last.account.id == id then [last] else []
  }

  lemma {:induction false} AccountSums(ms: seq<Movement>, id: string, accountType: AccountType)
    ensures Sum(AccountMovements(ms, id), Delta(accountType)) ==
            ClosingBalanceFor(accountType, Sum(ms, DebitAt(id)), Sum(ms, CreditAt(id)))
  {
    if ms != [] {
      var init, last := ms[..|ms| - 1], ms[|ms| - 1];
      AccountSums(init, id, accountType);
      if last.account.id == id {
        SumAppended(AccountMovements(init, id), last, Delta(accountType));
      } else {
        assert AccountMovements(init, id) + [] == AccountMovements(init, id);
      }
    }
  }

  lemma {:induction false} NoneUnlessTouched(ms: seq<Movement>, id: string)
    ensures AccountMovements(ms, id) == [] <==> !Touches(ms, id)
  {
    if ms != [] {
      var init, last := ms[..|ms| - 1], ms[|ms| - 1];
      NoneUnlessTouched(init, id);
      assert ms == init + [last];
      GroupedNext(init, last, id);
    }
  }

  /** In whatever order an account's lines are listed, the last running balance is what the journal gives. */
  lemma RunningEndsAtJournal(ledger: Ledger, periodId: string, account: Account, lines: seq<Movement>)
    requires multiset(lines) == multiset(AccountMovements(PeriodMovements(ledger.entries, periodId), account.id))
    ensures var running := Running(lines, account.accountType);
            if running != [] then running[|running| - 1] == JournalClosing(ledger, periodId, account)
            else JournalClosing(ledger, periodId, account) == 0
  {
    hide Sum;
    var ms := PeriodMovements(ledger.entries, periodId);
    var own := AccountMovements(ms, account.id);
    AccountSums(ms, account.id, account.accountType);
    SumPermuted(lines, own, Delta(account.accountType));
    assert |lines| == |multiset(lines)| == |multiset(own)| == |own|;
    assert lines[..|lines|] == lines;
    if lines == [] {
      EmptySum(lines, Delta(account.accountType));
    }
  }

  lemma EmptySum<T>(s: seq<T>, f: T -> int)
    requires s == []
    ensures Sum(s, f) == 0
  {
  }

  /**
   * In whatever order the period's lines of an account are listed, the last running balance is
   * the stored closing balance, and there is a stored balance exactly when there are lines.
   */
  lemma RunningEndsAtClosing(ledger: Ledger, periodId: string, code: string, lines: seq<Movement>)
    requires Kept(ledger) && OnceEach(ledger) && code in ledger.books.accounts
    requires multiset(lines) ==
             multiset(AccountMovements(PeriodMovements(ledger.entries, periodId), ledger.books.accounts[code].id))
    ensures var books := ledger.books;
            var account := books.accounts[code];
            var running := Running(lines, account.accountType);
            && (running != [] <==> RowKey(account.id, periodId) in books.rows)
            && (running != [] ==>
                  running[|running| - 1] == books.rows[RowKey(account.id, periodId)].closingBalance)
  {
    var books := ledger.books;
    var account, ms := books.accounts[code], PeriodMovements(books.applied, periodId);
    assert PeriodMovements(ledger.entries, periodId) == ms;
    var own := AccountMovements(ms, account.id);
    assert RowMatches(books.rows, RowKey(account.id, periodId), ms);
    AccountSums(ms, account.id, account.accountType);
    NoneUnlessTouched(ms, account.id);
    SumPermuted(lines, own, Delta(account.accountType));
    assert |lines| == |multiset(lines)| == |multiset(own)| == |own|;
    assert lines[..|lines|] == lines;
    ClosingIsApplied(books, periodId, code);
  }

  // ----- Trial balance -------------------------------------------------------------------------

  ghost predicate AllListed(ms: seq<Movement>, rows: seq<ReportRow>) {
    forall i :: 0 <= i < |ms| ==> HasAccount(rows, ms[i].account.id)
  }

  ghost predicate Distinct(rows: seq<ReportRow>) {
    forall i, j :: 0 <= i < j < |rows| ==> rows[i].account.id != rows[j].account.id
  }

  function DebitOfRow(ms: seq<Movement>): ReportRow -> int {
    (row: ReportRow) => Sum(ms, DebitAt(row.account.id))
  }

  function CreditOfRow(ms: seq<Movement>): ReportRow -> int {
    (row: ReportRow) => Sum(ms, CreditAt(row.account.id))
  }

  /** Exactly one row receives an amount that is booked on its account. */
  lemma {:induction false} OneRowOnly(rows: seq<ReportRow>, id: string, amount: int, f: ReportRow -> int)
    requires Distinct(rows)
    requires forall row :: f(row) == When(row.account.id == id, amount)
    ensures Sum(rows, f) == When(HasAccount(rows, id), amount)
  {
    if rows != [] {
      var init, last := rows[..|rows| - 1], rows[|rows| - 1];
      OneRowOnly(init, id, amount, f);
      if HasAccount(init, id) {
        var i :| 0 <= i < |init| && init[i].account.id == id;
        assert rows[i].account.id == id && last.account.id != id;
      } else {
        assert forall k :: 0 <= k < |init| ==> rows[k].account.id == init[k].account.id;
        assert HasAccount(rows, id) <==> last.account.id == id;
      }
    }
  }

  /** Counting by account or by line gives the same totals. */
  lemma {:induction false} CountedTwice(ms: seq<Movement>, rows: seq<ReportRow>)
    requires Distinct(rows) && AllListed(ms, rows)
    ensures Sum(rows, DebitOfRow(ms)) == Sum(ms, DEBITS)
    ensures Sum(rows, CreditOfRow(ms)) == Sum(ms, CREDITS)
  {
    if ms == [] {
      SumScaled(rows, DebitOfRow(ms), DebitOfRow(ms), 0);
      SumScaled(rows, CreditOfRow(ms), CreditOfRow(ms), 0);
    } else {
      var init, last := ms[..|ms| - 1], ms[|ms| - 1];
      assert AllListed(init, rows);
      CountedTwice(init, rows);
      var debit := (row: ReportRow) => When(row.account.id == last.account.id, last.debit);
      var credit := (row: ReportRow) => When(row.account.id == last.account.id, last.credit);
      OneRowOnly(rows, last.account.id, last.debit, debit);
      OneRowOnly(rows, last.account.id, last.credit, credit);
      SumOfSums(rows, DebitOfRow(init), debit, DebitOfRow(ms));
      SumOfSums(rows, CreditOfRow(init), credit, CreditOfRow(ms));
    }
  }

  lemma RowTotals(books: Books, periodId: string, rows: seq<ReportRow>)
    requires Recorded(books) && Lists(books, periodId, rows)
    ensures var ms := PeriodMovements(books.applied, periodId);
            && Sum(rows, ROW_DEBIT) == Sum(ms, DEBITS) && Sum(rows, ROW_CREDIT) == Sum(ms, CREDITS)
  {
    var ms := PeriodMovements(books.applied, periodId);
    forall i | 0 <= i < |ms| ensures HasAccount(rows, ms[i].account.id) {
      assert Touches(ms, ms[i].account.id);
      assert RowMatches(books.rows, RowKey(ms[i].account.id, periodId), ms);
    }
    CountedTwice(ms, rows);
    forall i | 0 <= i < |rows|
      ensures ROW_DEBIT(rows[i]) == DebitOfRow(ms)(rows[i])
      ensures ROW_CREDIT(rows[i]) == CreditOfRow(ms)(rows[i])
    {
      assert IsRow(books, periodId, rows[i]);
      assert RowMatches(books.rows, RowKey(rows[i].account.id, periodId), ms);
    }
    SumSame(rows, ROW_DEBIT, DebitOfRow(ms));
    SumSame(rows, ROW_CREDIT, CreditOfRow(ms));
  }

  /** After any run, late commits included, a period's trial balance lists all that was applied, and balances. */
  lemma TrialBalanceBalances(accounts: map<string, Account>, actions: seq<Action>, t: Ledger, periodId: string,
                             rows: seq<ReportRow>)
    requires Chart(accounts) && IsRun(Empty(accounts), actions, t) && Lists(t.books, periodId, rows)
    ensures TrialBalance(rows).balanced && TrialBalance(rows).debitTotal == TrialBalance(rows).creditTotal
    ensures TrialBalance(rows).debitTotal == Sum(PeriodMovements(t.books.applied, periodId), DEBITS)
  {
    hide WellFormed, IsRun, Lists;
    RunRecorded(accounts, actions, t);
    RowTotals(t.books, periodId, rows);
    PeriodEven(t.books.applied, accounts, periodId);
  }

  // ----- The accounting equation ---------------------------------------------------------------

  ghost predicate ClosingsRight(rows: seq<ReportRow>) {
    forall i :: 0 <= i < |rows| ==>
      rows[i].closingBalance == ClosingBalanceFor(rows[i].account.accountType, rows[i].debitTotal, rows[i].creditTotal)
  }

  lemma SectionNext(rows: seq<ReportRow>, accountType: AccountType)
    requires rows != []
    ensures var last := rows[|rows| - 1];
            Sum(Section(rows, accountType), ROW_CLOSING) ==
            Sum(Section(rows[..|rows| - 1], accountType), ROW_CLOSING) +
            When(last.account.accountType == accountType, last.closingBalance)
  {
    var init, last := rows[..|rows| - 1], rows[|rows| - 1];
    SumAppended(Section(init, accountType), last, ROW_CLOSING);
    assert Section(init, accountType) + [] == Section(init, accountType);
  }

  /** What a row adds to the total of an account type. */
  function OfType(accountType: AccountType): ReportRow -> int {
    (row: ReportRow) => if row.account.accountType == accountType then row.closingBalance else 0
  }

  lemma {:induction false} SectionTotal(rows: seq<ReportRow>, accountType: AccountType)
    ensures Sum(Section(rows, accountType), ROW_CLOSING) == Sum(rows, OfType(accountType))
  {
    if rows != [] {
      SectionTotal(rows[..|rows| - 1], accountType);
      SectionNext(rows, accountType);
    }
  }

  /** Each total adds up the closing balances of the accounts of its own type, over all rows. */
  lemma FiveTotals(rows: seq<ReportRow>)
    ensures BalanceSheet(rows).assets == Sum(rows, OfType(ASSET))
    ensures BalanceSheet(rows).liabilities == Sum(rows, OfType(LIABILITY))
    ensures BalanceSheet(rows).equity == Sum(rows, OfType(EQUITY))
    ensures IncomeStatement(rows).revenue == Sum(rows, OfType(REVENUE))
    ensures IncomeStatement(rows).expenses == Sum(rows, OfType(EXPENSE))
    ensures IncomeStatement(rows).netIncome == Sum(rows, OfType(REVENUE)) - Sum(rows, OfType(EXPENSE))
  {
    hide Section, Sum;
    SectionTotal(rows, ASSET);
    SectionTotal(rows, LIABILITY);
    SectionTotal(rows, EQUITY);
    SectionTotal(rows, REVENUE);
    SectionTotal(rows, EXPENSE);
  }

  /** The sections hold the signed closing balances, so they differ by the totals' difference. */
  lemma {:induction false} SectionsSplit(rows: seq<ReportRow>)
    requires ClosingsRight(rows)
    ensures var sheet, income := BalanceSheet(rows), IncomeStatement(rows);
            Sum(rows, ROW_DEBIT) - Sum(rows, ROW_CREDIT) ==
            sheet.assets + income.expenses - sheet.liabilities - sheet.equity - income.revenue
  {
    if rows != [] {
      var last := rows[|rows| - 1];
      SectionsSplit(rows[..|rows| - 1]);
      assert last.closingBalance == ClosingBalanceFor(last.account.accountType, last.debitTotal, last.creditTotal);
      SectionNext(rows, ASSET);
      SectionNext(rows, LIABILITY);
      SectionNext(rows, EQUITY);
      SectionNext(rows, REVENUE);
      SectionNext(rows, EXPENSE);
    }
  }

  lemma ListedClosings(books: Books, periodId: string, rows: seq<ReportRow>)
    requires Recorded(books) && Lists(books, periodId, rows)
    ensures ClosingsRight(rows)
  {
    var ms := PeriodMovements(books.applied, periodId);
    PeriodOfChart(books.applied, books.accounts, periodId);
    forall i | 0 <= i < |rows|
      ensures rows[i].closingBalance ==
              ClosingBalanceFor(rows[i].account.accountType, rows[i].debitTotal, rows[i].creditTotal)
    {
      assert IsRow(books, periodId, rows[i]);
      assert RowMatches(books.rows, RowKey(rows[i].account.id, periodId), ms);
      FirstAccountIn(ms, rows[i].account.id);
    }
  }

  /** After any run, late commits included: assets = liabilities + equity + net income. */
  lemma AccountingEquation(accounts: map<string, Account>, actions: seq<Action>, t: Ledger, periodId: string,
                           rows: seq<ReportRow>)
    requires Chart(accounts) && IsRun(Empty(accounts), actions, t) && Lists(t.books, periodId, rows)
    ensures var sheet, income := BalanceSheet(rows), IncomeStatement(rows);
            sheet.assets == sheet.liabilities + sheet.equity + income.netIncome
  {
    hide WellFormed, IsRun, Lists, Section;
    RunRecorded(accounts, actions, t);
    TrialBalanceBalances(accounts, actions, t, periodId, rows);
    ListedClosings(t.books, periodId, rows);
    SectionsSplit(rows);
  }
}
