/** What the posting rules book on which account, in terms of the input as it is given. */
module PostingMeaning {
  import opened Wrappers
  import opened Text
  import opened Totals
  import opened Journal
  import opened PostingRules

  /** The accounts of the purposes and of the beneficiaries, by their codes in the chart of accounts. */
  lemma ChartOfAccounts(purpose: string, beneficiary: string)
    ensures DefaultCreditAccount("ORDER") == "1200" && DefaultCreditAccount("RIDE") == "1300"
    ensures DefaultCreditAccount("EVENT_BOOKING") == "2200" && DefaultCreditAccount("WALLET_TOP_UP") == "1100"
    ensures purpose !in {"ORDER", "RIDE", "EVENT_BOOKING", "WALLET_TOP_UP"} ==> DefaultCreditAccount(purpose) == "3000"
    ensures DefaultPayableAccount("RIDER") == "2100" && DefaultPayableAccount("MERCHANT") == "2000"
    ensures DefaultPayableAccount("ORGANIZER") == "2200" && DefaultPayableAccount("CUSTOMER") == "1100"
    ensures beneficiary !in {"RIDER", "MERCHANT", "ORGANIZER", "CUSTOMER"} ==>
              DefaultPayableAccount(beneficiary) == "3000"
    ensures EscrowAccount(Some("RIDE")) == "1300" && EscrowAccount(None) == "1200"
    ensures purpose != "RIDE" ==> EscrowAccount(Some(purpose)) == "1200"
    ensures PLATFORM_CASH == "1000" && PAYOUT_CLEARING == "6000" && DEFAULT_CURRENCY == "KES"
  {
  }

  /** The lines of a release, of a payout, and of a payment without allocations, as they are booked. */
  lemma LinesBooked(input: PostingInput, beneficiary: string, purpose: Option<string>, amount: int)
    ensures ReleaseLines(beneficiary, purpose, amount) ==
            [JournalLine(if purpose == Some("RIDE") then "1300" else "1200", amount, 0, Some("Release escrow")),
             JournalLine(DefaultPayableAccount(beneficiary), 0, amount, Some("Payable " + beneficiary))]
    ensures PayoutLines(beneficiary, amount) ==
            [JournalLine(DefaultPayableAccount(beneficiary), amount, 0, Some("Payout " + beneficiary)),
             JournalLine("6000", 0, amount, Some("Payout clearing"))]
    ensures input.allocations == [] ==>
              PaymentLines(input) ==
              [JournalLine("1000", input.amount, 0, Some("Payment clearing")),
               JournalLine(DefaultCreditAccount(input.purpose), 0, input.amount, Some("Purpose " + input.purpose))]
  {
  }

  /** The allocation names an account: its hint is more than space. */
  predicate Names(h: Hint) {
    h.accountCodeHint.Some? && exists i :: 0 <= i < |h.accountCodeHint.value| && !IsSpace(h.accountCodeHint.value[i])
  }

  lemma NamesExactly(h: Hint)
    ensures h.Hinted() <==> Names(h)
  {
    hide Trim, IsSpace;
    if h.accountCodeHint.Some? {
      BlankExactly(h.accountCodeHint.value);
    }
  }

  function NamedAmount(): Hint -> int {
    (h: Hint) => if Names(h) then h.amount else 0
  }

  function NamedAmountAt(code: string): Hint -> int {
    (h: Hint) => if Names(h) && Trim(h.accountCodeHint.value) == code then h.amount else 0
  }

  lemma {:induction false} NamedRows(rows: seq<Hint>)
    ensures Allocated(HintedRows(rows)) == Sum(rows, NamedAmount())
    ensures forall h :: h in HintedRows(rows) <==> h in rows && Names(h)
  {
    hide Hint.Hinted, Names;
    if rows != [] {
      var init, last := rows[..|rows| - 1], rows[|rows| - 1];
      NamedRows(init);
      NamesExactly(last);
      assert rows == init + [last];
      if last.Hinted() {
        SumAppended(HintedRows(init), last, HINT_AMOUNT);
      } else {
        assert HintedRows(init) + [] == HintedRows(init);
      }
    }
  }

  /** What is accepted: a positive amount, and allocations that are positive and do not exceed it. */
  lemma PostableExactly(input: PostingInput)
    ensures Postable(input) <==>
            && input.amount > 0
            && (forall h :: h in input.allocations && Names(h) ==> h.amount > 0)
            && Sum(input.allocations, NamedAmount()) <= input.amount
    ensures !Postable(input) ==>
            PostingError(input) ==
            if input.amount > 0 && forall h :: h in input.allocations && Names(h) ==> h.amount > 0
            then Unbalanced(input.amount, Sum(input.allocations, NamedAmount()))
            else AmountNotPositive
  {
    hide Names, Sum, HintedRows;
    var hinted := HintedRows(input.allocations);
    NamedRows(input.allocations);
    assert AllPositive(hinted) <==> forall h :: h in hinted ==> h.amount > 0 by {
      if AllPositive(hinted) {
        forall h | h in hinted ensures h.amount > 0 {
          var i :| 0 <= i < |hinted| && hinted[i] == h;
        }
      }
    }
  }

  lemma {:induction false} NetOfHints(rows: seq<Hint>, code: string)
    ensures Net(HintLines(HintedRows(rows), Credit), code) == -Sum(rows, NamedAmountAt(code))
  {
    hide Names, Hint.Hinted, Trim;
    if rows != [] {
      var init, last := rows[..|rows| - 1], rows[|rows| - 1];
      NetOfHints(init, code);
      NamesExactly(last);
      HintedCode(last);
      var before := HintedRows(init);
      if last.Hinted() {
        var line := Credit.Line(last.Code(), last.amount, last.caption);
        assert HintLines(before + [last], Credit) == HintLines(before, Credit) + [line];
        SumAppended(HintLines(before, Credit), line, NetAt(code));
      } else {
        assert before + [] == before;
      }
    }
  }

  lemma HintedCode(h: Hint)
    ensures Names(h) ==> h.Code() == Trim(h.accountCodeHint.value)
  {
  }

  /**
   * A payment debits its amount to cash; it credits each named allocation to its account, and what is left to
   * the account of the purpose.
   */
  lemma NetOfAnyPayment(input: PostingInput, code: string)
    requires Postable(input)
    ensures Net(PaymentLines(input), code) ==
            (if code == "1000" then input.amount else 0)
            - Sum(input.allocations, NamedAmountAt(code))
            - (if code == DefaultCreditAccount(input.purpose)
               then input.amount - Sum(input.allocations, NamedAmount()) else 0)
  {
    hide Sum, NamedAmountAt, NamedAmount, DefaultCreditAccount;
    var hinted := HintedRows(input.allocations);
    NamedRows(input.allocations);
    NetOfHints(input.allocations, code);
    var cash := DebitLine(PLATFORM_CASH, input.amount, Some("Payment clearing"));
    SumConcat([cash], PurposeLines(input, Credit), NetAt(code));
    SumOfOne(cash, NetAt(code));
    NetOfRest(input, code);
  }

  /** The purpose's account is credited with what the named allocations leave. */
  lemma NetOfRest(input: PostingInput, code: string)
    requires Postable(input)
    ensures var hinted := HintedRows(input.allocations);
            Net(PurposeLines(input, Credit), code) ==
            Net(HintLines(hinted, Credit), code) -
            if code == DefaultCreditAccount(input.purpose) then input.amount - Allocated(hinted) else 0
  {
    hide DefaultCreditAccount, HintedRows;
    var hinted := HintedRows(input.allocations);
    var account, lines := DefaultCreditAccount(input.purpose), HintLines(hinted, Credit);
    var rest := input.amount - Allocated(hinted);
    if hinted == [] {
      SumOfOne(CreditLine(account, input.amount, Some("Purpose " + input.purpose)), NetAt(code));
    } else if rest > 0 {
      SumAppended(lines, CreditLine(account, rest, Some("Unallocated " + input.purpose)), NetAt(code));
    } else {
      assert lines + [] == lines;
    }
  }
}
