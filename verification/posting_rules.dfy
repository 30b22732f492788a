/** src/modules/accounting/domain/posting-rules.ts */
module PostingRules {
  import opened Wrappers
  import opened Text
  import opened Totals
  import opened Journal

  // Chart-of-accounts codes.
  const CUSTOMER_WALLETS := "1100"
  const PLATFORM_CASH := "1000"
  const ESCROW_COMMERCE := "1200"
  const ESCROW_RIDES := "1300"
  const MERCHANT_PAYABLES := "2000"
  const RIDER_PAYABLES := "2100"
  const ORGANIZER_PAYABLES := "2200"
  const REVENUE_HOLDING := "3000"
  const PAYOUT_CLEARING := "6000"

  const DEFAULT_CURRENCY := "KES"

  datatype Hint = Hint(amount: int, accountCodeHint: Option<string>, caption: Option<string>) {
    /** Rows without a hint, or with a blank one, are ignored. */
    predicate Hinted() {
      accountCodeHint.Some? && Trim(accountCodeHint.value) != ""
    }

    function Code(): string {
      if accountCodeHint.Some? then Trim(accountCodeHint.value) else ""
    }
  }

  datatype PostingInput = PostingInput(purpose: string, amount: int, currency: Option<string>,
                                       description: Option<string>, allocations: seq<Hint>)

  function GetOr<T>(o: Option<T>, default: T): T {
    if o.Some? then o.value else default
  }

  function DefaultCreditAccount(purpose: string): string {
    match purpose
    case "ORDER" => ESCROW_COMMERCE
    case "RIDE" => ESCROW_RIDES
    case "EVENT_BOOKING" => ORGANIZER_PAYABLES
    case "WALLET_TOP_UP" => CUSTOMER_WALLETS
    case _ => REVENUE_HOLDING
  }

  function DefaultPayableAccount(beneficiary: string): string {
    match beneficiary
    case "RIDER" => RIDER_PAYABLES
    case "MERCHANT" => MERCHANT_PAYABLES
    case "ORGANIZER" => ORGANIZER_PAYABLES
    case "CUSTOMER" => CUSTOMER_WALLETS
    case _ => REVENUE_HOLDING
  }

  function EscrowAccount(purpose: Option<string>): string {
    if purpose == Some("RIDE") then ESCROW_RIDES else ESCROW_COMMERCE
  }

  // ----- What the resolvers post ---------------------------------------------------------------

  function HintedRows(rows: seq<Hint>): (hinted: seq<Hint>)
    ensures forall h :: h in hinted ==> h.Hinted() && h in rows
  {
    if rows == [] then []
    else HintedRows(rows[..|rows| - 1]) + if rows[|rows| - 1].Hinted() then [rows[|rows| - 1]] else []
  }

  const HINT_AMOUNT: Hint -> int := (h: Hint) => h.amount

  function Allocated(rows: seq<Hint>): int {
    Sum(rows, HINT_AMOUNT)
  }

  lemma NothingAllocated()
    ensures Allocated([]) == 0
  {
  }

  predicate AllPositive(rows: seq<Hint>) {
    forall i :: 0 <= i < |rows| ==> rows[i].amount > 0
  }

  /** A payment credits what a refund debits. */
  datatype Side = Debit | Credit {
    function Line(code: string, amount: int, memo: Option<string>): JournalLine {
      if Debit? then DebitLine(code, amount, memo) else CreditLine(code, amount, memo)
    }
  }

  function HintLines(rows: seq<Hint>, side: Side): (lines: seq<JournalLine>)
    ensures |lines| == |rows|
  {
    seq(|rows|, i requires 0 <= i < |rows| => side.Line(rows[i].Code(), rows[i].amount, rows[i].caption))
  }

  /** The lines against the purpose's account and the hinted ones. */
  function PurposeLines(input: PostingInput, side: Side): seq<JournalLine> {
    var hinted := HintedRows(input.allocations);
    var account := DefaultCreditAccount(input.purpose);
    var remaining := input.amount - Allocated(hinted);
    if hinted == [] then [side.Line(account, input.amount, Some("Purpose " + input.purpose))]
    else HintLines(hinted, side) +
         if remaining > 0 then [side.Line(account, remaining, Some("Unallocated " + input.purpose))] else []
  }

  function PaymentLines(input: PostingInput): seq<JournalLine> {
    [DebitLine(PLATFORM_CASH, input.amount, Some("Payment clearing"))] + PurposeLines(input, Credit)
  }

  function RefundLines(input: PostingInput): seq<JournalLine> {
    PurposeLines(input, Debit) + [CreditLine(PLATFORM_CASH, input.amount, Some("Refund clearing"))]
  }

  /** Amount and hinted allocations are positive, and the allocations do not exceed the amount. */
  predicate Postable(input: PostingInput) {
    input.amount > 0 && AllPositive(HintedRows(input.allocations)) &&
    Allocated(HintedRows(input.allocations)) <= input.amount
  }

  /** The first error in the order of the resolvers' tests. */
  function PostingError(input: PostingInput): JournalError {
    if input.amount > 0 && AllPositive(HintedRows(input.allocations))
    then Unbalanced(input.amount, Allocated(HintedRows(input.allocations)))
    else AmountNotPositive
  }

  // ----- Accepted input gives balanced lines ---------------------------------------------------

  lemma CodesKept(name: string)
    ensures Trim(DefaultCreditAccount(name)) != "" && Trim(DefaultPayableAccount(name)) != ""
    ensures Trim(PLATFORM_CASH) != "" && Trim(PAYOUT_CLEARING) != ""
    ensures Trim(ESCROW_COMMERCE) != "" && Trim(ESCROW_RIDES) != ""
  {
    hide Trim;
    NumeralKept(DefaultCreditAccount(name));
    NumeralKept(DefaultPayableAccount(name));
    NumeralKept(PLATFORM_CASH);
    NumeralKept(PAYOUT_CLEARING);
    NumeralKept(ESCROW_COMMERCE);
    NumeralKept(ESCROW_RIDES);
  }

  lemma NumeralKept(code: string)
    requires |code| == 4 && IsDigit(code[0]) && IsDigit(code[3])
    ensures Trim(code) != ""
  {
    TrimmedUnchanged(code);
  }

  lemma EscrowCodeKept(purpose: Option<string>)
    ensures Trim(EscrowAccount(purpose)) != ""
  {
    CodesKept("");
  }

  function Column(side: Side): JournalLine -> int {
    if side.Debit? then DEBIT else CREDIT
  }

  lemma {:induction false} HintLinesTotal(rows: seq<Hint>, side: Side)
    ensures Sum(HintLines(rows, side), Column(side)) == Allocated(rows)
  {
    if rows != [] {
      var last := |rows| - 1;
      HintLinesTotal(rows[..last], side);
      assert HintLines(rows, side)[..last] == HintLines(rows[..last], side);
    }
  }

  lemma HintLinesAdded(rows: seq<Hint>, side: Side)
    requires forall h :: h in rows ==> h.Hinted()
    requires AllPositive(rows)
    ensures Added(HintLines(rows, side))
  {
    forall i | 0 <= i < |rows| ensures Trim(rows[i].Code()) != "" {
      assert rows[i] in rows;
      TrimTwice(rows[i].accountCodeHint.value);
    }
  }

  predicate OnSide(lines: seq<JournalLine>, side: Side) {
    forall i :: 0 <= i < |lines| ==> if side.Debit? then lines[i].credit == 0 else lines[i].debit == 0
  }

  lemma PurposeLinesTotal(input: PostingInput, side: Side)
    requires Postable(input)
    ensures Sum(PurposeLines(input, side), Column(side)) == input.amount
    ensures Added(PurposeLines(input, side)) && OnSide(PurposeLines(input, side), side)
  {
    hide Sum, Trim, DefaultCreditAccount;
    var hinted := HintedRows(input.allocations);
    var remaining := input.amount - Allocated(hinted);
    CodesKept(input.purpose);
    var account := DefaultCreditAccount(input.purpose);
    if hinted == [] {
      SumOfOne(side.Line(account, input.amount, Some("Purpose " + input.purpose)), Column(side));
    } else {
      HintLinesTotal(hinted, side);
      HintLinesAdded(hinted, side);
      if remaining > 0 {
        SumAppended(HintLines(hinted, side),
                    side.Line(account, remaining, Some("Unallocated " + input.purpose)), Column(side));
      } else {
        assert HintLines(hinted, side) + [] == HintLines(hinted, side);
      }
    }
  }

  lemma OtherColumn(lines: seq<JournalLine>, side: Side)
    requires OnSide(lines, side)
    ensures side.Debit? ==> TotalCredit(lines) == 0
    ensures side.Credit? ==> TotalDebit(lines) == 0
  {
    OneColumn(lines);
  }

  /** Both sides of an accepted payment and of its refund total exactly the amount. */
  lemma AcceptedBalances(input: PostingInput)
    requires Postable(input)
    ensures var p := PaymentLines(input);
            Balanced(p) && Added(p) && TotalDebit(p) == input.amount == TotalCredit(p)
    ensures var r := RefundLines(input);
            Balanced(r) && Added(r) && TotalDebit(r) == input.amount == TotalCredit(r)
  {
    CodesKept(input.purpose);
    PurposeLinesTotal(input, Credit);
    PurposeLinesTotal(input, Debit);
    OtherColumn(PurposeLines(input, Credit), Credit);
    OtherColumn(PurposeLines(input, Debit), Debit);
    var cashIn := DebitLine(PLATFORM_CASH, input.amount, Some("Payment clearing"));
    var cashOut := CreditLine(PLATFORM_CASH, input.amount, Some("Refund clearing"));
    SumConcat([cashIn], PurposeLines(input, Credit), DEBIT);
    SumConcat([cashIn], PurposeLines(input, Credit), CREDIT);
    SumConcat(PurposeLines(input, Debit), [cashOut], DEBIT);
    SumConcat(PurposeLines(input, Debit), [cashOut], CREDIT);
    SumOfOne(cashIn, DEBIT);
    SumOfOne(cashIn, CREDIT);
    SumOfOne(cashOut, DEBIT);
    SumOfOne(cashOut, CREDIT);
  }

  lemma PurposeLinesMirrored(input: PostingInput)
    ensures Mirrored(PurposeLines(input, Credit), PurposeLines(input, Debit))
  {
  }

  /** A payment and the refund of the same input cancel on every account. */
  lemma RefundUndoesPayment(input: PostingInput, code: string)
    ensures Net(PaymentLines(input) + RefundLines(input), code) == 0
  {
    hide Sum, PurposeLines, NetAt;
    var cashIn := DebitLine(PLATFORM_CASH, input.amount, Some("Payment clearing"));
    var cashOut := CreditLine(PLATFORM_CASH, input.amount, Some("Refund clearing"));
    PurposeLinesMirrored(input);
    SumConcat(PaymentLines(input), RefundLines(input), NetAt(code));
    SumConcat([cashIn], PurposeLines(input, Credit), NetAt(code));
    SumConcat(PurposeLines(input, Debit), [cashOut], NetAt(code));
    MirroredNet([cashIn], [cashOut], code);
    MirroredNet(PurposeLines(input, Credit), PurposeLines(input, Debit), code);
  }

  // ----- The resolvers -------------------------------------------------------------------------

  method Checked(draft: JournalDraft) returns (r: Result<JournalDraft, JournalError>)
    ensures Balanced(draft.lines) ==> r == Success(draft)
    ensures r.Success? ==> Balanced(draft.lines) && r.value == draft
  {
    var balanced := draft.AssertBalanced();
    match balanced
    case Pass => return Success(draft);
    case Fail(error) => return Failure(error);
  }

  method ResolvePayment(input: PostingInput) returns (r: Result<JournalDraft, JournalError>)
    ensures r.Success? <==> Postable(input)
    ensures r.Failure? ==> r.error == PostingError(input)
    ensures r.Success? ==>
              && fresh(r.value) && r.value.lines == PaymentLines(input)
              && r.value.currency == GetOr(input.currency, DEFAULT_CURRENCY)
              && r.value.description == Some(GetOr(input.description, "Payment collected (" + input.purpose + ")"))
  {
    hide Sum, Trim, DefaultCreditAccount, Added, Balanced;
    if input.amount <= 0 {
      return Failure(AmountNotPositive);
    }
    var draft := new JournalDraft(
      GetOr(input.currency, DEFAULT_CURRENCY),
      Some(GetOr(input.description, "Payment collected (" + input.purpose + ")")));
    var defaultCredit := DefaultCreditAccount(input.purpose);
    var hinted := HintedRows(input.allocations);
    CodesKept(input.purpose);
    var cashIn := DebitLine(PLATFORM_CASH, input.amount, Some("Payment clearing"));
    var added := draft.AddDebit(PLATFORM_CASH, input.amount, Some("Payment clearing"));
    assert added.Pass?;
    if |hinted| == 0 {
      NothingAllocated();
      added := draft.AddCredit(defaultCredit, input.amount, Some("Purpose " + input.purpose));
      assert draft.lines == PaymentLines(input);
      AcceptedBalances(input);
      r := Checked(draft);
      return;
    }
    NothingAllocated();
    var hintedTotal := 0;
    for i := 0 to |hinted|
      invariant fresh(draft)
      invariant draft.lines == [cashIn] + HintLines(hinted[..i], Credit)
      invariant hintedTotal == Allocated(hinted[..i])
      invariant AllPositive(hinted[..i])
    {
      var row := hinted[i];
      assert row in hinted;
      if row.amount <= 0 {
        assert !AllPositive(hinted);
        return Failure(AmountNotPositive);
      }
      hintedTotal := hintedTotal + row.amount;
      TrimTwice(row.accountCodeHint.value);
      added := draft.AddCredit(row.Code(), row.amount, row.caption);
      assert added.Pass?;
      NextHint(hinted, i, Credit);
    }
    assert hinted[..|hinted|] == hinted;
    if hintedTotal > input.amount {
      return Failure(Unbalanced(input.amount, hintedTotal));
    }
    var remaining := input.amount - hintedTotal;
    if remaining > 0 {
      added := draft.AddCredit(defaultCredit, remaining, Some("Unallocated " + input.purpose));
    }
    assert draft.lines == PaymentLines(input);
    AcceptedBalances(input);
    r := Checked(draft);
  }

  lemma NextHint(rows: seq<Hint>, i: nat, side: Side)
    requires i < |rows|
    ensures HintLines(rows[..i + 1], side) ==
            HintLines(rows[..i], side) + [side.Line(rows[i].Code(), rows[i].amount, rows[i].caption)]
    ensures Allocated(rows[..i + 1]) == Allocated(rows[..i]) + rows[i].amount
    ensures AllPositive(rows[..i]) && rows[i].amount > 0 ==> AllPositive(rows[..i + 1])
  {
    assert rows[..i + 1] == rows[..i] + [rows[i]];
    SumAppended(rows[..i], rows[i], HINT_AMOUNT);
  }

  method ResolveRefund(input: PostingInput) returns (r: Result<JournalDraft, JournalError>)
    ensures r.Success? <==> Postable(input)
    ensures r.Failure? ==> r.error == PostingError(input)
    ensures r.Success? ==>
              && fresh(r.value) && r.value.lines == RefundLines(input)
              && r.value.currency == GetOr(input.currency, DEFAULT_CURRENCY)
              && r.value.description == Some(GetOr(input.description, "Refund (" + input.purpose + ")"))
  {
    hide Sum, Trim, DefaultCreditAccount, Added, Balanced;
    if input.amount <= 0 {
      return Failure(AmountNotPositive);
    }
    var draft := new JournalDraft(
      GetOr(input.currency, DEFAULT_CURRENCY),
      Some(GetOr(input.description, "Refund (" + input.purpose + ")")));
    var defaultDebit := DefaultCreditAccount(input.purpose);
    var hinted := HintedRows(input.allocations);
    CodesKept(input.purpose);
    var added: Outcome<JournalError>;
    if |hinted| == 0 {
      NothingAllocated();
      added := draft.AddDebit(defaultDebit, input.amount, Some("Purpose " + input.purpose));
      added := draft.AddCredit(PLATFORM_CASH, input.amount, Some("Refund clearing"));
      assert draft.lines == RefundLines(input);
      AcceptedBalances(input);
      r := Checked(draft);
      return;
    }
    NothingAllocated();
    var hintedTotal := 0;
    for i := 0 to |hinted|
      invariant fresh(draft)
      invariant draft.lines == HintLines(hinted[..i], Debit)
      invariant hintedTotal == Allocated(hinted[..i])
      invariant AllPositive(hinted[..i])
    {
      var row := hinted[i];
      assert row in hinted;
      if row.amount <= 0 {
        assert !AllPositive(hinted);
        return Failure(AmountNotPositive);
      }
      hintedTotal := hintedTotal + row.amount;
      TrimTwice(row.accountCodeHint.value);
      added := draft.AddDebit(row.Code(), row.amount, row.caption);
      assert added.Pass?;
      NextHint(hinted, i, Debit);
    }
    assert hinted[..|hinted|] == hinted;
    if hintedTotal > input.amount {
      return Failure(Unbalanced(input.amount, hintedTotal));
    }
    var remaining := input.amount - hintedTotal;
    if remaining > 0 {
      added := draft.AddDebit(defaultDebit, remaining, Some("Unallocated " + input.purpose));
    }
    added := draft.AddCredit(PLATFORM_CASH, input.amount, Some("Refund clearing"));
    assert draft.lines == RefundLines(input);
    AcceptedBalances(input);
    r := Checked(draft);
  }

  function ReleaseLines(beneficiary: string, purpose: Option<string>, amount: int): seq<JournalLine> {
    [DebitLine(EscrowAccount(purpose), amount, Some("Release escrow")),
     CreditLine(DefaultPayableAccount(beneficiary), amount, Some("Payable " + beneficiary))]
  }

  function PayoutLines(beneficiary: string, amount: int): seq<JournalLine> {
    [DebitLine(DefaultPayableAccount(beneficiary), amount, Some("Payout " + beneficiary)),
     CreditLine(PAYOUT_CLEARING, amount, Some("Payout clearing"))]
  }

  lemma PairBalances(debitCode: string, creditCode: string, amount: int, m: Option<string>, n: Option<string>)
    requires amount > 0
    ensures Balanced([DebitLine(debitCode, amount, m), CreditLine(creditCode, amount, n)])
  {
    SumOfTwo(DebitLine(debitCode, amount, m), CreditLine(creditCode, amount, n), DEBIT);
    SumOfTwo(DebitLine(debitCode, amount, m), CreditLine(creditCode, amount, n), CREDIT);
  }

  method ResolveEscrowRelease(beneficiary: string, purpose: Option<string>, amount: int,
                              currency: Option<string>, description: Option<string>)
    returns (r: Result<JournalDraft, JournalError>)
    ensures amount <= 0 ==> r == Failure(AmountNotPositive)
    ensures amount > 0 ==>
              && r.Success? && fresh(r.value) && r.value.lines == ReleaseLines(beneficiary, purpose, amount)
              && r.value.currency == GetOr(currency, DEFAULT_CURRENCY)
              && Balanced(r.value.lines)
  {
    hide Sum, Trim, DefaultPayableAccount, EscrowAccount, Balanced;
    if amount <= 0 {
      return Failure(AmountNotPositive);
    }
    var draft := new JournalDraft(GetOr(currency, DEFAULT_CURRENCY),
                                  Some(GetOr(description, "Escrow release (" + beneficiary + ")")));
    var escrowAccount := EscrowAccount(purpose);
    var payableAccount := DefaultPayableAccount(beneficiary);
    CodesKept(beneficiary);
    EscrowCodeKept(purpose);
    var added := draft.AddDebit(escrowAccount, amount, Some("Release escrow"));
    added := draft.AddCredit(payableAccount, amount, Some("Payable " + beneficiary));
    assert draft.lines == ReleaseLines(beneficiary, purpose, amount);
    PairBalances(escrowAccount, payableAccount, amount, Some("Release escrow"), Some("Payable " + beneficiary));
    r := Checked(draft);
  }

  method ResolveSettlementPayout(beneficiary: string, amount: int, currency: Option<string>,
                                 description: Option<string>)
    returns (r: Result<JournalDraft, JournalError>)
    ensures amount <= 0 ==> r == Failure(AmountNotPositive)
    ensures amount > 0 ==>
              && r.Success? && fresh(r.value) && r.value.lines == PayoutLines(beneficiary, amount)
              && r.value.currency == GetOr(currency, DEFAULT_CURRENCY)
              && Balanced(r.value.lines)
  {
    hide Sum, Trim, DefaultPayableAccount, EscrowAccount, Balanced;
    if amount <= 0 {
      return Failure(AmountNotPositive);
    }
    var draft := new JournalDraft(GetOr(currency, DEFAULT_CURRENCY),
                                  Some(GetOr(description, "Settlement payout (" + beneficiary + ")")));
    var debitAccount := DefaultPayableAccount(beneficiary);
    CodesKept(beneficiary);
    var added := draft.AddDebit(debitAccount, amount, Some("Payout " + beneficiary));
    added := draft.AddCredit(PAYOUT_CLEARING, amount, Some("Payout clearing"));
    assert draft.lines == PayoutLines(beneficiary, amount);
    PairBalances(debitAccount, PAYOUT_CLEARING, amount, Some("Payout " + beneficiary), Some("Payout clearing"));
    r := Checked(draft);
  }

  // ----- The escrow cycle ----------------------------------------------------------------------

  /** Money released to, or paid out to, one beneficiary type. */
  datatype Part = Part(beneficiary: string, amount: int)

  const PART_AMOUNT: Part -> int := (part: Part) => part.amount

  function PartAt(code: string): Part -> int {
    (part: Part) => if DefaultPayableAccount(part.beneficiary) == code then part.amount else 0
  }

  function AllReleases(parts: seq<Part>, purpose: string): seq<JournalLine> {
    if parts == [] then []
    else var last := parts[|parts| - 1];
      AllReleases(parts[..|parts| - 1], purpose) + ReleaseLines(last.beneficiary, Some(purpose), last.amount)
  }

  function AllPayouts(parts: seq<Part>): seq<JournalLine> {
    if parts == [] then []
    else var last := parts[|parts| - 1];
      AllPayouts(parts[..|parts| - 1]) + PayoutLines(last.beneficiary, last.amount)
  }

  lemma {:induction false} NetOfReleases(parts: seq<Part>, purpose: string, code: string)
    ensures Net(AllReleases(parts, purpose), code) ==
            When(code == EscrowAccount(Some(purpose)), Sum(parts, PART_AMOUNT)) - Sum(parts, PartAt(code))
  {
    if parts != [] {
      var init, last := parts[..|parts| - 1], parts[|parts| - 1];
      NetOfReleases(init, purpose, code);
      var lines := ReleaseLines(last.beneficiary, Some(purpose), last.amount);
      SumConcat(AllReleases(init, purpose), lines, NetAt(code));
      SumOfTwo(lines[0], lines[1], NetAt(code));
    }
  }

  lemma {:induction false} NetOfPayouts(parts: seq<Part>, code: string)
    ensures Net(AllPayouts(parts), code) ==
            Sum(parts, PartAt(code)) - When(code == PAYOUT_CLEARING, Sum(parts, PART_AMOUNT))
  {
    if parts != [] {
      var init, last := parts[..|parts| - 1], parts[|parts| - 1];
      NetOfPayouts(init, code);
      var lines := PayoutLines(last.beneficiary, last.amount);
      SumConcat(AllPayouts(init), lines, NetAt(code));
      SumOfTwo(lines[0], lines[1], NetAt(code));
    }
  }

  lemma NetOfPayment(input: PostingInput, code: string)
    requires HintedRows(input.allocations) == []
    ensures Net(PaymentLines(input), code) ==
            When(code == PLATFORM_CASH, input.amount) - When(code == DefaultCreditAccount(input.purpose), input.amount)
  {
    hide DefaultCreditAccount;
    var lines := PaymentLines(input);
    assert lines == [lines[0], lines[1]];
    SumOfTwo(lines[0], lines[1], NetAt(code));
  }

  /** Every part falls on one of the five payable accounts. */
  lemma {:induction false} PartsByAccount(parts: seq<Part>)
    ensures Sum(parts, PART_AMOUNT) ==
            Sum(parts, PartAt(RIDER_PAYABLES)) + Sum(parts, PartAt(MERCHANT_PAYABLES)) +
            Sum(parts, PartAt(ORGANIZER_PAYABLES)) + Sum(parts, PartAt(CUSTOMER_WALLETS)) +
            Sum(parts, PartAt(REVENUE_HOLDING))
  {
    if parts != [] {
      PartsByAccount(parts[..|parts| - 1]);
    }
  }

  lemma {:induction false} NoPartsElsewhere(parts: seq<Part>, code: string)
    requires code in {PLATFORM_CASH, ESCROW_COMMERCE, ESCROW_RIDES, PAYOUT_CLEARING}
    ensures Sum(parts, PartAt(code)) == 0
  {
    if parts != [] {
      NoPartsElsewhere(parts[..|parts| - 1], code);
    }
  }

  /** What has been paid out of each account is what was released into it. */
  ghost predicate PaidAsReleased(releases: seq<Part>, payouts: seq<Part>) {
    forall code :: Sum(releases, PartAt(code)) == Sum(payouts, PartAt(code))
  }

  /** Cash in and payout clearing remain; every other account is back where it started. */
  ghost predicate Closed(lines: seq<JournalLine>, amount: int) {
    forall code :: Net(lines, code) == When(code == PLATFORM_CASH, amount) - When(code == PAYOUT_CLEARING, amount)
  }

  function Cycle(input: PostingInput, releases: seq<Part>, payouts: seq<Part>): seq<JournalLine> {
    PaymentLines(input) + AllReleases(releases, input.purpose) + AllPayouts(payouts)
  }

  /** What an account holds at any point of the cycle. */
  lemma CyclePosition(input: PostingInput, releases: seq<Part>, payouts: seq<Part>, code: string)
    requires HintedRows(input.allocations) == []
    ensures Net(Cycle(input, releases, payouts), code) ==
            When(code == PLATFORM_CASH, input.amount)
            - When(code == DefaultCreditAccount(input.purpose), input.amount)
            + When(code == EscrowAccount(Some(input.purpose)), Sum(releases, PART_AMOUNT))
            - Sum(releases, PartAt(code)) + Sum(payouts, PartAt(code))
            - When(code == PAYOUT_CLEARING, Sum(payouts, PART_AMOUNT))
  {
    var p, r, o := PaymentLines(input), AllReleases(releases, input.purpose), AllPayouts(payouts);
    SumConcat(p + r, o, NetAt(code));
    SumConcat(p, r, NetAt(code));
    NetOfPayment(input, code);
    NetOfReleases(releases, input.purpose, code);
    NetOfPayouts(payouts, code);
  }

  lemma CycleNets(input: PostingInput, releases: seq<Part>, payouts: seq<Part>, posted: seq<JournalLine>)
    requires HintedRows(input.allocations) == []
    requires Sum(releases, PART_AMOUNT) == input.amount
    requires PaidAsReleased(releases, payouts)
    requires multiset(posted) == multiset(Cycle(input, releases, payouts))
    ensures forall code :: Net(posted, code) ==
              When(code == PLATFORM_CASH, input.amount) - When(code == PAYOUT_CLEARING, input.amount)
              - When(code == DefaultCreditAccount(input.purpose), input.amount)
              + When(code == EscrowAccount(Some(input.purpose)), input.amount)
  {
    hide Sum, DefaultCreditAccount, EscrowAccount, DefaultPayableAccount, Cycle, When;
    PartsByAccount(releases);
    PartsByAccount(payouts);
    forall code
      ensures Net(posted, code) ==
              When(code == PLATFORM_CASH, input.amount) - When(code == PAYOUT_CLEARING, input.amount)
              - When(code == DefaultCreditAccount(input.purpose), input.amount)
              + When(code == EscrowAccount(Some(input.purpose)), input.amount)
    {
      SumPermuted(posted, Cycle(input, releases, payouts), NetAt(code));
      CyclePosition(input, releases, payouts, code);
      assert Sum(releases, PartAt(code)) == Sum(payouts, PartAt(code));
    }
  }

  /** Only these two purposes pay into the account that the release debits. */
  lemma PaysIntoEscrow(purpose: string)
    ensures DefaultCreditAccount(purpose) == EscrowAccount(Some(purpose)) <==> purpose in {"ORDER", "RIDE"}
    ensures EscrowAccount(Some(purpose)) != PLATFORM_CASH && EscrowAccount(Some(purpose)) != PAYOUT_CLEARING
  {
    assert ESCROW_COMMERCE[1] != PLATFORM_CASH[1] && ESCROW_RIDES[1] != PLATFORM_CASH[1];
    assert ESCROW_COMMERCE[0] != PAYOUT_CLEARING[0] && ESCROW_RIDES[0] != PAYOUT_CLEARING[0];
    assert ESCROW_COMMERCE[1] != ESCROW_RIDES[1];
  }

  /**
   * Releasing an un-hinted payment in full and paying out what was released, in any parts and
   * posted in any order, closes exactly for the two purposes that pay into escrow.
   */
  lemma EscrowCycleCloses(input: PostingInput, releases: seq<Part>, payouts: seq<Part>, posted: seq<JournalLine>)
    requires input.amount > 0 && HintedRows(input.allocations) == []
    requires Sum(releases, PART_AMOUNT) == input.amount
    requires PaidAsReleased(releases, payouts)
    requires multiset(posted) == multiset(Cycle(input, releases, payouts))
    ensures Closed(posted, input.amount) <==> input.purpose in {"ORDER", "RIDE"}
  {
    hide Sum, DefaultCreditAccount, EscrowAccount, DefaultPayableAccount, Cycle, PaidAsReleased, Net;
    CycleNets(input, releases, payouts, posted);
    PaysIntoEscrow(input.purpose);
    var escrow := EscrowAccount(Some(input.purpose));
    if DefaultCreditAccount(input.purpose) != escrow {
      assert Net(posted, escrow) == input.amount;
    }
  }
}
