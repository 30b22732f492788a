/** src/modules/accounting/use-cases/journal-persistence.util.ts */
module JournalPersistence {
  import opened Wrappers
  import opened Totals
  import opened Journal

  datatype AccountType = ASSET | LIABILITY | EQUITY | REVENUE | EXPENSE {
    predicate DebitNormal() {
      ASSET? || EXPENSE?
    }
  }

  datatype Account = Account(id: string, code: string, accountType: AccountType)

  function ClosingBalanceFor(accountType: AccountType, debitTotal: int, creditTotal: int): int {
    if accountType.DebitNormal() then debitTotal - creditTotal else creditTotal - debitTotal
  }

  // ----- Draft lines to persisted lines --------------------------------------------------------

  /** What a line does to an account. */
  datatype Movement = Movement(account: Account, debit: int, credit: int)

  datatype PersistedLine = PersistedLine(movement: Movement, lineNo: nat, memo: Option<string>, currency: string)

  datatype PersistenceError = AccountNotResolved(code: string)

  function MapDraftLinesToPersisted(draftLines: seq<JournalLine>, accounts: map<string, Account>, currency: string)
    : (r: Result<seq<PersistedLine>, PersistenceError>)
  {
    if draftLines == [] then Success([])
    else
      var last := |draftLines| - 1;
      var line := draftLines[last];
      var mapped :- MapDraftLinesToPersisted(draftLines[..last], accounts, currency);
      if line.accountCode !in accounts then Failure(AccountNotResolved(line.accountCode))
      else
        var movement := Movement(accounts[line.accountCode], line.debit, line.credit);
        Success(mapped + [PersistedLine(movement, last + 1, line.memo, currency)])
  }

  predicate Resolvable(draftLines: seq<JournalLine>, accounts: map<string, Account>) {
    forall i :: 0 <= i < |draftLines| ==> draftLines[i].accountCode in accounts
  }

  ghost predicate Persists(line: JournalLine, accounts: map<string, Account>, persisted: PersistedLine) {
    && line.accountCode in accounts && persisted.memo == line.memo
    && persisted.movement == Movement(accounts[line.accountCode], line.debit, line.credit)
  }

  /** Every line keeps its place, or the first unresolved code is reported. */
  lemma {:induction false} MapsEveryLine(draftLines: seq<JournalLine>, accounts: map<string, Account>, currency: string)
    ensures var r := MapDraftLinesToPersisted(draftLines, accounts, currency);
            && (r.Success? <==> Resolvable(draftLines, accounts))
            && (r.Success? ==>
                  && |r.value| == |draftLines|
                  && forall i :: 0 <= i < |draftLines| ==>
                       && Persists(draftLines[i], accounts, r.value[i])
                       && r.value[i].lineNo == i + 1 && r.value[i].currency == currency)
            && (r.Failure? ==>
                  exists i :: 0 <= i < |draftLines| && Resolvable(draftLines[..i], accounts) &&
                    draftLines[i].accountCode == r.error.code && r.error.code !in accounts)
  {
    if draftLines != [] {
      var last := |draftLines| - 1;
      MapsEveryLine(draftLines[..last], accounts, currency);
      var r := MapDraftLinesToPersisted(draftLines[..last], accounts, currency);
      if r.Failure? {
        var i :| 0 <= i < last && Resolvable(draftLines[..last][..i], accounts) &&
          draftLines[i].accountCode == r.error.code && r.error.code !in accounts;
        assert draftLines[..last][..i] == draftLines[..i];
      }
    }
  }

  function Movements(lines: seq<PersistedLine>): (ms: seq<Movement>)
    ensures |ms| == |lines|
  {
    seq(|lines|, i requires 0 <= i < |lines| => lines[i].movement)
  }

  // ----- Account balances ----------------------------------------------------------------------

  datatype RowKey = RowKey(accountId: string, periodId: string)

  datatype BalanceRow = BalanceRow(debitTotal: int, creditTotal: int, closingBalance: int, currency: string)

  function DebitAt(id: string): Movement -> int {
    (m: Movement) => When(m.account.id == id, m.debit)
  }

  function CreditAt(id: string): Movement -> int {
    (m: Movement) => When(m.account.id == id, m.credit)
  }

  predicate Touches(ms: seq<Movement>, id: string) {
    exists i :: 0 <= i < |ms| && ms[i].account.id == id
  }

  /** The account of the first movement with this id. */
  function FirstAccount(ms: seq<Movement>, id: string): Account
    requires Touches(ms, id)
  {
    if ms[0].account.id == id then ms[0].account else FirstAccount(ms[1..], id)
  }

  /** No two movements disagree on what an account is. */
  ghost predicate Consistent(ms: seq<Movement>) {
    forall m, n :: m in ms && n in ms && m.account.id == n.account.id ==> m.account == n.account
  }

  function NewRow(rows: map<RowKey, BalanceRow>, key: RowKey, currency: string, m: Movement): BalanceRow {
    var debitTotal := m.debit + if key in rows then rows[key].debitTotal else 0;
    var creditTotal := m.credit + if key in rows then rows[key].creditTotal else 0;
    BalanceRow(debitTotal, creditTotal, ClosingBalanceFor(m.account.accountType, debitTotal, creditTotal),
               if key in rows then rows[key].currency else currency)
  }

  /** All movements on one account as one. */
  function Grouped(ms: seq<Movement>, id: string): Movement
    requires Touches(ms, id)
  {
    Movement(FirstAccount(ms, id), Sum(ms, DebitAt(id)), Sum(ms, CreditAt(id)))
  }

  predicate Affects(ms: seq<Movement>, periodId: string, key: RowKey) {
    key.periodId == periodId && Touches(ms, key.accountId)
  }

  /** The table after the movements: each touched account moves by its sums, all else stays. */
  ghost function Applied(rows: map<RowKey, BalanceRow>, periodId: string, currency: string, ms: seq<Movement>)
    : map<RowKey, BalanceRow>
  {
    map key | key in rows.Keys + (set m | m in ms :: RowKey(m.account.id, periodId)) ::
      if Affects(ms, periodId, key) then NewRow(rows, key, currency, Grouped(ms, key.accountId)) else rows[key]
  }

  lemma AppliedAt(rows: map<RowKey, BalanceRow>, periodId: string, currency: string, ms: seq<Movement>, key: RowKey)
    ensures var after := Applied(rows, periodId, currency, ms);
            && (key in after <==> key in rows || Affects(ms, periodId, key))
            && (key in after ==>
                  after[key] ==
                  if Affects(ms, periodId, key) then NewRow(rows, key, currency, Grouped(ms, key.accountId))
                  else rows[key])
  {
    hide NewRow, Grouped;
    if Touches(ms, key.accountId) {
      var i :| 0 <= i < |ms| && ms[i].account.id == key.accountId;
      assert ms[i] in ms;
    }
  }

  /** A touched row: both totals grow by the sums of its lines, and the balance is theirs in the normal direction. */
  lemma RowAfter(rows: map<RowKey, BalanceRow>, periodId: string, currency: string, ms: seq<Movement>, id: string)
    requires Touches(ms, id)
    ensures var key, after := RowKey(id, periodId), Applied(rows, periodId, currency, ms);
            var before := if key in rows then rows[key] else BalanceRow(0, 0, 0, currency);
            && key in after
            && after[key].debitTotal == before.debitTotal + Sum(ms, DebitAt(id))
            && after[key].creditTotal == before.creditTotal + Sum(ms, CreditAt(id))
            && after[key].closingBalance ==
               (if FirstAccount(ms, id).accountType in {ASSET, EXPENSE}
                then after[key].debitTotal - after[key].creditTotal
                else after[key].creditTotal - after[key].debitTotal)
            && after[key].currency == before.currency
  {
    hide Sum, FirstAccount;
    AppliedAt(rows, periodId, currency, ms, RowKey(id, periodId));
  }

  class BalanceTable {
    var rows: map<RowKey, BalanceRow>

    constructor ()
      ensures rows == map[]
    {
      rows := map[];
    }

    method ApplyBalanceIncrements(periodId: string, currency: string, lines: seq<Movement>)
      modifies this
      ensures rows == Applied(old(rows), periodId, currency, lines)
    {
      hide NewRow, Applied, GroupedSoFar, Written;
      NothingGrouped();
      var byAccount: map<string, Movement> := map[];
      var order: seq<string> := []; // the Map's insertion order
      for i := 0 to |lines|
        invariant rows == old(rows)
        invariant GroupedSoFar(byAccount, order, lines[..i])
      {
        var line := lines[i];
        var id := line.account.id;
        var prev := if id in byAccount then byAccount[id] else Movement(line.account, 0, 0);
        GroupNext(byAccount, order, lines[..i], line);
        if id !in byAccount {
          order := order + [id];
        }
        byAccount := byAccount[id := Movement(prev.account, prev.debit + line.debit, prev.credit + line.credit)];
        assert lines[..i + 1] == lines[..i] + [line];
      }
      assert lines[..|lines|] == lines;
      GroupOrder(byAccount, order, lines);
      NothingWritten(rows, periodId, currency, byAccount);
      for j := 0 to |order|
        invariant Written(old(rows), rows, periodId, currency, byAccount, order[..j])
      {
        var movement := byAccount[order[j]];
        var key := RowKey(order[j], periodId);
        WriteNext(old(rows), rows, periodId, currency, byAccount, order, j);
        rows := rows[key := NewRow(rows, key, currency, movement)];
      }
      assert order[..|order|] == order;
      WrittenIsApplied(old(rows), rows, periodId, currency, byAccount, order, lines);
    }
  }

  ghost predicate GroupedSoFar(byAccount: map<string, Movement>, order: seq<string>, ms: seq<Movement>) {
    && (forall j, k :: 0 <= j < k < |order| ==> order[j] != order[k])
    && (forall id :: id in order <==> id in byAccount)
    && (forall id :: id in byAccount <==> Touches(ms, id))
    && (forall id :: id in byAccount ==> byAccount[id] == Grouped(ms, id))
  }

  lemma NothingGrouped()
    ensures GroupedSoFar(map[], [], [])
  {
  }

  lemma GroupOrder(byAccount: map<string, Movement>, order: seq<string>, ms: seq<Movement>)
    requires GroupedSoFar(byAccount, order, ms)
    ensures forall j :: 0 <= j < |order| ==> order[j] in byAccount
    ensures forall j, k :: 0 <= j < k < |order| ==> order[j] != order[k]
  {
  }

  lemma NothingWritten(rows: map<RowKey, BalanceRow>, periodId: string, currency: string,
                       byAccount: map<string, Movement>)
    ensures Written(rows, rows, periodId, currency, byAccount, [])
  {
  }

  lemma GroupedNext(ms: seq<Movement>, m: Movement, id: string)
    ensures Touches(ms + [m], id) <==> Touches(ms, id) || m.account.id == id
    ensures Touches(ms + [m], id) ==>
              var prev := if Touches(ms, id) then Grouped(ms, id) else Movement(m.account, 0, 0);
              Grouped(ms + [m], id) ==
              if m.account.id == id then Movement(prev.account, prev.debit + m.debit, prev.credit + m.credit) else prev
  {
    var all := ms + [m];
    SumAppended(ms, m, DebitAt(id));
    SumAppended(ms, m, CreditAt(id));
    assert all[|ms|] == m;
    if Touches(ms, id) {
      var i :| 0 <= i < |ms| && ms[i].account.id == id;
      assert all[i].account.id == id;
      FirstAccountKept(ms, m, id);
    } else {
      UntouchedSums(ms, id);
      if m.account.id == id {
        FirstAccountLast(ms, m, id);
      }
    }
  }

  lemma {:induction false} FirstAccountKept(ms: seq<Movement>, m: Movement, id: string)
    requires Touches(ms, id)
    ensures Touches(ms + [m], id) && FirstAccount(ms + [m], id) == FirstAccount(ms, id)
  {
    var i :| 0 <= i < |ms| && ms[i].account.id == id;
    assert (ms + [m])[i].account.id == id;
    if ms[0].account.id != id {
      assert ms[1..][i - 1].account.id == id;
      assert (ms + [m])[1..] == ms[1..] + [m];
      FirstAccountKept(ms[1..], m, id);
    }
  }

  lemma {:induction false} FirstAccountLast(ms: seq<Movement>, m: Movement, id: string)
    requires !Touches(ms, id) && m.account.id == id
    ensures Touches(ms + [m], id) && FirstAccount(ms + [m], id) == m.account
  {
    assert (ms + [m])[|ms|].account.id == id;
    if ms != [] {
      assert ms[0].account.id != id;
      assert (ms + [m])[1..] == ms[1..] + [m];
      FirstAccountLast(ms[1..], m, id);
    }
  }

  lemma {:induction false} UntouchedSums(ms: seq<Movement>, id: string)
    requires !Touches(ms, id)
    ensures Sum(ms, DebitAt(id)) == 0 && Sum(ms, CreditAt(id)) == 0
  {
    if ms != [] {
      assert ms[|ms| - 1].account.id != id;
      UntouchedSums(ms[..|ms| - 1], id);
    }
  }

  lemma GroupNext(byAccount: map<string, Movement>, order: seq<string>, ms: seq<Movement>, m: Movement)
    requires GroupedSoFar(byAccount, order, ms)
    ensures var id := m.account.id;
            var prev := if id in byAccount then byAccount[id] else Movement(m.account, 0, 0);
            GroupedSoFar(byAccount[id := Movement(prev.account, prev.debit + m.debit, prev.credit + m.credit)],
                         if id in byAccount then order else order + [id], ms + [m])
  {
    hide Touches, Grouped;
    forall id ensures
      && (Touches(ms + [m], id) <==> Touches(ms, id) || m.account.id == id)
      && (Touches(ms + [m], id) ==>
            var prev := if Touches(ms, id) then Grouped(ms, id) else Movement(m.account, 0, 0);
            Grouped(ms + [m], id) ==
            if m.account.id == id then Movement(prev.account, prev.debit + m.debit, prev.credit + m.credit) else prev)
    {
      GroupedNext(ms, m, id);
    }
  }

  ghost predicate Written(before: map<RowKey, BalanceRow>, rows: map<RowKey, BalanceRow>, periodId: string,
                          currency: string, byAccount: map<string, Movement>, done: seq<string>)
  {
    && (forall id :: id in done ==> id in byAccount)
    && (forall key :: key in rows <==> key in before || (key.periodId == periodId && key.accountId in done))
    && (forall key :: key in rows ==>
          rows[key] == if key.periodId == periodId && key.accountId in done
                       then NewRow(before, key, currency, byAccount[key.accountId]) else before[key])
  }

  lemma WriteNext(before: map<RowKey, BalanceRow>, rows: map<RowKey, BalanceRow>, periodId: string,
                  currency: string, byAccount: map<string, Movement>, order: seq<string>, j: nat)
    requires j < |order| && order[j] in byAccount
    requires forall i, k :: 0 <= i < k < |order| ==> order[i] != order[k]
    requires Written(before, rows, periodId, currency, byAccount, order[..j])
    ensures var key := RowKey(order[j], periodId);
            Written(before, rows[key := NewRow(rows, key, currency, byAccount[order[j]])], periodId, currency,
                    byAccount, order[..j + 1])
  {
    var key := RowKey(order[j], periodId);
    assert order[j] !in order[..j];
    assert order[..j + 1] == order[..j] + [order[j]];
    assert key in rows <==> key in before;
    assert NewRow(rows, key, currency, byAccount[order[j]]) == NewRow(before, key, currency, byAccount[order[j]]);
  }

  lemma WrittenIsApplied(before: map<RowKey, BalanceRow>, rows: map<RowKey, BalanceRow>, periodId: string,
                         currency: string, byAccount: map<string, Movement>, order: seq<string>, ms: seq<Movement>)
    requires GroupedSoFar(byAccount, order, ms)
    requires Written(before, rows, periodId, currency, byAccount, order)
    ensures rows == Applied(before, periodId, currency, ms)
  {
    hide NewRow, Grouped, Touches, Applied;
    forall key
      ensures key in rows <==> key in Applied(before, periodId, currency, ms)
      ensures key in rows ==> rows[key] == Applied(before, periodId, currency, ms)[key]
    {
      AppliedAt(before, periodId, currency, ms, key);
    }
  }

  // ----- Grouping changes nothing --------------------------------------------------------------

  /** Writing the table once for every single movement. */
  ghost function OneByOne(rows: map<RowKey, BalanceRow>, periodId: string, currency: string, ms: seq<Movement>)
    : map<RowKey, BalanceRow>
  {
    if ms == [] then rows
    else
      var before := OneByOne(rows, periodId, currency, ms[..|ms| - 1]);
      var m := ms[|ms| - 1];
      var key := RowKey(m.account.id, periodId);
      before[key := NewRow(before, key, currency, m)]
  }

  lemma {:induction false} FirstAccountIn(ms: seq<Movement>, id: string)
    requires Touches(ms, id)
    ensures exists m :: m in ms && m.account == FirstAccount(ms, id) && m.account.id == id
  {
    if ms[0].account.id == id {
      assert ms[0] in ms;
    } else {
      var i :| 0 <= i < |ms| && ms[i].account.id == id;
      assert ms[1..][i - 1].account.id == id;
      FirstAccountIn(ms[1..], id);
    }
  }

  /** Under consistency the grouped movement belongs to the account of every member. */
  lemma GroupedAccount(ms: seq<Movement>, m: Movement)
    requires Consistent(ms + [m]) && Touches(ms, m.account.id)
    ensures Grouped(ms, m.account.id).account == m.account
  {
    FirstAccountIn(ms, m.account.id);
    var n :| n in ms && n.account == FirstAccount(ms, m.account.id) && n.account.id == m.account.id;
    assert n in ms + [m] && m in ms + [m];
  }

  lemma AppliedNext(rows: map<RowKey, BalanceRow>, periodId: string, currency: string, ms: seq<Movement>,
                    m: Movement, key: RowKey)
    requires Consistent(ms + [m])
    ensures var before := Applied(rows, periodId, currency, ms);
            var at := RowKey(m.account.id, periodId);
            var after := before[at := NewRow(before, at, currency, m)];
            var all := Applied(rows, periodId, currency, ms + [m]);
            (key in after <==> key in all) && (key in after ==> after[key] == all[key])
  {
    hide Applied, Touches, Grouped, FirstAccount, Consistent;
    AppliedAt(rows, periodId, currency, ms, key);
    AppliedAt(rows, periodId, currency, ms + [m], key);
    GroupedNext(ms, m, key.accountId);
    if Touches(ms, m.account.id) {
      GroupedAccount(ms, m);
    }
  }

  lemma {:induction false} GroupingIsOneByOne(rows: map<RowKey, BalanceRow>, periodId: string, currency: string,
                                              ms: seq<Movement>)
    requires Consistent(ms)
    ensures Applied(rows, periodId, currency, ms) == OneByOne(rows, periodId, currency, ms)
  {
    if ms != [] {
      var init, m := ms[..|ms| - 1], ms[|ms| - 1];
      assert ms == init + [m];
      GroupingIsOneByOne(rows, periodId, currency, init);
      forall key
        ensures key in OneByOne(rows, periodId, currency, ms) <==> key in Applied(rows, periodId, currency, ms)
        ensures key in OneByOne(rows, periodId, currency, ms) ==>
                  OneByOne(rows, periodId, currency, ms)[key] == Applied(rows, periodId, currency, ms)[key]
      {
        AppliedNext(rows, periodId, currency, init, m, key);
      }
    }
  }

  lemma GroupedPermuted(s: seq<Movement>, t: seq<Movement>, id: string)
    requires multiset(s) == multiset(t) && Consistent(s)
    ensures Touches(s, id) <==> Touches(t, id)
    ensures Touches(s, id) ==> Grouped(s, id) == Grouped(t, id)
  {
    TouchesPermuted(s, t, id);
    TouchesPermuted(t, s, id);
    if Touches(s, id) {
      SumPermuted(s, t, DebitAt(id));
      SumPermuted(s, t, CreditAt(id));
      FirstAccountIn(s, id);
      FirstAccountIn(t, id);
      var m :| m in s && m.account == FirstAccount(s, id) && m.account.id == id;
      var n :| n in t && n.account == FirstAccount(t, id) && n.account.id == id;
      assert n in multiset(t);
      assert n in s;
    }
  }

  lemma TouchesPermuted(s: seq<Movement>, t: seq<Movement>, id: string)
    requires multiset(s) == multiset(t)
    ensures Touches(s, id) ==> Touches(t, id)
  {
    if Touches(s, id) {
      var i :| 0 <= i < |s| && s[i].account.id == id;
      assert s[i] in multiset(t);
      var j :| 0 <= j < |t| && t[j] == s[i];
    }
  }

  lemma ConsistentPermuted(s: seq<Movement>, t: seq<Movement>)
    requires multiset(s) == multiset(t) && Consistent(s)
    ensures Consistent(t)
  {
    forall m | m in t ensures m in s {
      assert m in multiset(t);
    }
  }

  lemma AppliedPermuted(rows: map<RowKey, BalanceRow>, periodId: string, currency: string,
                        ms: seq<Movement>, permuted: seq<Movement>)
    requires Consistent(ms) && multiset(ms) == multiset(permuted)
    ensures Applied(rows, periodId, currency, permuted) == Applied(rows, periodId, currency, ms)
  {
    hide Applied, Touches, Grouped, Consistent, NewRow;
    var after, other := Applied(rows, periodId, currency, ms), Applied(rows, periodId, currency, permuted);
    forall key ensures (key in other <==> key in after) && (key in after ==> other[key] == after[key]) {
      AppliedAt(rows, periodId, currency, permuted, key);
      AppliedAt(rows, periodId, currency, ms, key);
      GroupedPermuted(ms, permuted, key.accountId);
    }
  }

  /** Applying the lines one by one, in any order, ends in the same balances as the grouped writes. */
  lemma AnyOrder(rows: map<RowKey, BalanceRow>, periodId: string, currency: string,
                 ms: seq<Movement>, permuted: seq<Movement>)
    requires Consistent(ms) && multiset(ms) == multiset(permuted)
    ensures OneByOne(rows, periodId, currency, permuted) == Applied(rows, periodId, currency, ms)
  {
    ConsistentPermuted(ms, permuted);
    GroupingIsOneByOne(rows, periodId, currency, permuted);
    AppliedPermuted(rows, periodId, currency, ms, permuted);
  }
}
