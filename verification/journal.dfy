/** src/modules/accounting/domain/journal.ts */
module Journal {
  import opened Wrappers
  import opened Text
  import opened Totals

  datatype JournalLine = JournalLine(accountCode: string, debit: int, credit: int, memo: Option<string>) {
    predicate OneSided() {
      (debit > 0) != (credit > 0)
    }
  }

  datatype JournalError =
    | AmountNotPositive
    | AccountCodeRequired
    | NoLines
    | Unbalanced(debit: int, credit: int)
    | NotOneSided(accountCode: string)

  function DebitLine(accountCode: string, amount: int, memo: Option<string>): JournalLine {
    JournalLine(accountCode, amount, 0, memo)
  }

  function CreditLine(accountCode: string, amount: int, memo: Option<string>): JournalLine {
    JournalLine(accountCode, 0, amount, memo)
  }

  const DEBIT: JournalLine -> int := (line: JournalLine) => line.debit
  const CREDIT: JournalLine -> int := (line: JournalLine) => line.credit

  function TotalDebit(lines: seq<JournalLine>): int {
    Sum(lines, DEBIT)
  }

  function TotalCredit(lines: seq<JournalLine>): int {
    Sum(lines, CREDIT)
  }

  /** The error for adding this amount to this account, if any. */
  function LineError(accountCode: string, amount: int): Outcome<JournalError> {
    if amount <= 0 then Fail(AmountNotPositive)
    else if Trim(accountCode) == "" then Fail(AccountCodeRequired)
    else Pass
  }

  ghost predicate Balanced(lines: seq<JournalLine>) {
    && lines != [] && TotalDebit(lines) == TotalCredit(lines)
    && forall line :: line in lines ==> line.OneSided()
  }

  /** Lines that `addDebit` and `addCredit` have let pass. */
  ghost predicate Added(lines: seq<JournalLine>) {
    forall line :: line in lines ==>
      line.OneSided() && line.debit >= 0 && line.credit >= 0 && Trim(line.accountCode) != ""
  }

  // ----- Effect on the accounts ----------------------------------------------------------------

  function NetAt(code: string): JournalLine -> int {
    (line: JournalLine) => if line.accountCode == code then line.debit - line.credit else 0
  }

  /** Debits less credits of one account. */
  function Net(lines: seq<JournalLine>, code: string): int {
    Sum(lines, NetAt(code))
  }

  /** The same amounts on the same accounts, the other way round. */
  ghost predicate Mirrored(s: seq<JournalLine>, t: seq<JournalLine>) {
    |s| == |t| && forall i :: 0 <= i < |s| ==>
      s[i].accountCode == t[i].accountCode && s[i].debit == t[i].credit && s[i].credit == t[i].debit
  }

  lemma {:induction false} MirroredNet(s: seq<JournalLine>, t: seq<JournalLine>, code: string)
    requires Mirrored(s, t)
    ensures Net(s, code) == -Net(t, code)
    ensures TotalDebit(s) == TotalCredit(t) && TotalCredit(s) == TotalDebit(t)
  {
    if s != [] {
      MirroredNet(s[..|s| - 1], t[..|t| - 1], code);
    }
  }

  /** Lines that each touch one side: what both columns sum to. */
  lemma {:induction false} OneColumn(lines: seq<JournalLine>)
    ensures (forall line :: line in lines ==> line.credit == 0) ==> TotalCredit(lines) == 0
    ensures (forall line :: line in lines ==> line.debit == 0) ==> TotalDebit(lines) == 0
  {
    if lines != [] {
      OneColumn(lines[..|lines| - 1]);
    }
  }

  ghost predicate FirstTwoSided(lines: seq<JournalLine>, i: nat)
    requires i < |lines|
  {
    !lines[i].OneSided() && forall j :: 0 <= j < i ==> lines[j].OneSided()
  }

  class JournalDraft {
    const currency: string
    const description: Option<string>
    var lines: seq<JournalLine>

    constructor (currency: string, description: Option<string>)
      ensures lines == [] && this.currency == currency && this.description == description
    {
      this.currency, this.description := currency, description;
      lines := [];
    }

    method AddDebit(accountCode: string, amount: int, memo: Option<string>) returns (r: Outcome<JournalError>)
      modifies this
      ensures r == LineError(accountCode, amount)
      ensures lines == old(lines) + if r.Pass? then [DebitLine(accountCode, amount, memo)] else []
      ensures r == Fail(AmountNotPositive) <==> amount <= 0
      ensures r == Fail(AccountCodeRequired) <==>
              amount > 0 && forall i :: 0 <= i < |accountCode| ==> IsSpace(accountCode[i])
      ensures r.Pass? ==> lines == old(lines) + [JournalLine(accountCode, amount, 0, memo)]
      ensures r.Fail? ==> lines == old(lines) && r.error in {AmountNotPositive, AccountCodeRequired}
    {
      hide Trim, IsSpace;
      BlankExactly(accountCode);
      if amount <= 0 {
        return Fail(AmountNotPositive);
      }
      if Trim(accountCode) == "" {
        return Fail(AccountCodeRequired);
      }
      lines := lines + [DebitLine(accountCode, amount, memo)];
      return Pass;
    }

    method AddCredit(accountCode: string, amount: int, memo: Option<string>) returns (r: Outcome<JournalError>)
      modifies this
      ensures r == LineError(accountCode, amount)
      ensures lines == old(lines) + if r.Pass? then [CreditLine(accountCode, amount, memo)] else []
      ensures r == Fail(AmountNotPositive) <==> amount <= 0
      ensures r == Fail(AccountCodeRequired) <==>
              amount > 0 && forall i :: 0 <= i < |accountCode| ==> IsSpace(accountCode[i])
      ensures r.Pass? ==> lines == old(lines) + [JournalLine(accountCode, 0, amount, memo)]
      ensures r.Fail? ==> lines == old(lines) && r.error in {AmountNotPositive, AccountCodeRequired}
    {
      hide Trim, IsSpace;
      BlankExactly(accountCode);
      if amount <= 0 {
        return Fail(AmountNotPositive);
      }
      if Trim(accountCode) == "" {
        return Fail(AccountCodeRequired);
      }
      lines := lines + [CreditLine(accountCode, amount, memo)];
      return Pass;
    }

    method AssertBalanced() returns (r: Outcome<JournalError>)
      ensures r.Pass? <==> Balanced(lines)
      ensures r.Pass? <==>
              && lines != [] && TotalDebit(lines) == TotalCredit(lines)
              && forall i :: 0 <= i < |lines| ==>
                   (lines[i].debit > 0 && lines[i].credit <= 0) || (lines[i].debit <= 0 && lines[i].credit > 0)
      ensures lines == [] ==> r == Fail(NoLines)
      ensures lines != [] && TotalDebit(lines) != TotalCredit(lines) ==>
                r == Fail(Unbalanced(TotalDebit(lines), TotalCredit(lines)))
      ensures r.Fail? && lines != [] && TotalDebit(lines) == TotalCredit(lines) ==>
                exists i :: 0 <= i < |lines| && FirstTwoSided(lines, i) && r == Fail(NotOneSided(lines[i].accountCode))
    {
      if |lines| == 0 {
        return Fail(NoLines);
      }
      if TotalDebit(lines) != TotalCredit(lines) {
        return Fail(Unbalanced(TotalDebit(lines), TotalCredit(lines)));
      }
      for i := 0 to |lines|
        invariant forall j :: 0 <= j < i ==> lines[j].OneSided()
      {
        var hasDebit, hasCredit := lines[i].debit > 0, lines[i].credit > 0;
        if hasDebit == hasCredit {
          assert lines[i] in lines && FirstTwoSided(lines, i);
          return Fail(NotOneSided(lines[i].accountCode));
        }
      }
      return Pass;
    }
  }
}
