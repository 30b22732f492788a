/** Posting, keeping as a draft and reversing: src/modules/accounting/use-cases/journal.service.ts */
module Ledgers {
  import opened Wrappers
  import opened Text
  import opened Totals
  import opened Journal
  import opened JournalPersistence
  import opened BalanceBooks
  import PostingRules

  /** A journal kept as a draft, and the entry it has become. */
  datatype Draft = Draft(entry: Entry, posted: Option<nat>)

  /** A request that has passed its checks and is about to begin its transaction. */
  datatype Request = PostRequest(draft: nat) | ReverseRequest(reversing: Reversing)

  /** The balances, the journal of what was posted, the drafts, and the requests that have passed their checks. */
  datatype Ledger = Ledger(books: Books, entries: seq<Entry>, drafts: seq<Draft>, passed: set<Request>)

  datatype LedgerError =
    | DraftRejected(journal: JournalError)
    | Unresolved(code: string)
    | KeyRequired
    | NoSuchEntry
    | NotADraft
    | VoidedWithoutReversal

  // ----- Steps ---------------------------------------------------------------------------------

  ghost function Recording(ledger: Ledger, entry: Entry): Ledger {
    ledger.(books := Applying(ledger.books, entry), entries := ledger.entries + [entry])
  }

  ghost predicate CanPost(ledger: Ledger, lines: seq<JournalLine>) {
    Balanced(lines) && Resolvable(lines, ledger.books.accounts)
  }

  ghost function Post(ledger: Ledger, periodId: string, currency: string, lines: seq<JournalLine>): Ledger {
    match MapDraftLinesToPersisted(lines, ledger.books.accounts, currency)
    case Success(persisted) =>
      if Balanced(lines) then Recording(ledger, Entry(periodId, currency, persisted, false, None)) else ledger
    case Failure(_) => ledger
  }

  ghost function Save(ledger: Ledger, periodId: string, currency: string, lines: seq<JournalLine>): Ledger {
    match MapDraftLinesToPersisted(lines, ledger.books.accounts, currency)
    case Success(persisted) =>
      if Balanced(lines)
      then ledger.(drafts := ledger.drafts + [Draft(Entry(periodId, currency, persisted, false, None), None)])
      else ledger
    case Failure(_) => ledger
  }

  ghost predicate CanPostDraft(ledger: Ledger, draft: nat) {
    draft < |ledger.drafts| && ledger.drafts[draft].posted.None?
  }

  ghost function CheckPost(ledger: Ledger, draft: nat): Ledger {
    if CanPostDraft(ledger, draft) then ledger.(passed := ledger.passed + {PostRequest(draft)}) else ledger
  }

  /** The transaction of `postDraft`, which does not look at the status again: it applies the lines and sets it. */
  ghost function CommittedPost(ledger: Ledger, draft: nat): Ledger
    requires WellFormed(ledger)
  {
    if PostRequest(draft) !in ledger.passed then ledger
    else
      assert RequestFits(ledger, PostRequest(draft)) && DraftFits(ledger, draft);
      var d := ledger.drafts[draft];
      match d.posted
      case None => Recording(ledger, d.entry).(drafts := ledger.drafts[draft := d.(posted := Some(|ledger.entries|))])
      case Some(i) =>
        ledger.(books := Applying(ledger.books, d.entry),
                entries := ledger.entries[i := ledger.entries[i].(voided := false)])
  }

  predicate HasKey(entry: Entry, key: string) {
    entry.reverses.Some? && entry.reverses.value.key == key
  }

  predicate KeyUsed(entries: seq<Entry>, key: string) {
    exists i :: 0 <= i < |entries| && HasKey(entries[i], key)
  }

  predicate ReversesEntry(entry: Entry, index: nat) {
    entry.reverses.Some? && entry.reverses.value.index == index
  }

  /** The first entry that satisfies `f`. */
  function First(entries: seq<Entry>, f: Entry -> bool): (r: Option<nat>)
    ensures r.Some? ==> r.value < |entries| && f(entries[r.value])
    ensures r.None? ==> forall i :: 0 <= i < |entries| ==> !f(entries[i])
  {
    if entries == [] then None
    else if f(entries[0]) then Some(0)
    else match First(entries[1..], f)
      case Some(i) => assert entries[1..][i] == entries[i + 1]; Some(i + 1)
      case None => assert forall i :: 1 <= i < |entries| ==> entries[i] == entries[1..][i - 1]; None
  }

  /** A new key, and an entry that is not voided. */
  ghost predicate CanReverse(ledger: Ledger, index: nat, key: string) {
    key != "" && !KeyUsed(ledger.entries, key) && index < |ledger.entries| && !ledger.entries[index].voided
  }

  ghost function CheckReversal(ledger: Ledger, index: nat, key: string): Ledger {
    if CanReverse(ledger, index, key)
    then ledger.(passed := ledger.passed + {ReverseRequest(Reversing(index, key))}) else ledger
  }

  /** A further entry, which voids the one it reverses. */
  function Entered(entries: seq<Entry>, entry: Entry): (after: seq<Entry>)
    requires entry.reverses.Some? ==> entry.reverses.value.index < |entries|
    ensures |after| == |entries| + 1 && after[|entries|] == entry
    ensures forall j :: 0 <= j < |entries| ==>
              after[j] == if ReversesEntry(entry, j) then entries[j].(voided := true) else entries[j]
  {
    var all := entries + [entry];
    match entry.reverses
    case None => all
    case Some(r) => all[r.index := all[r.index].(voided := true)]
  }

  /** The transaction of `reversePosted`, which looks at the key again, but not at the status. */
  ghost function CommittedReversal(ledger: Ledger, index: nat, key: string, periodId: string): Ledger
    requires WellFormed(ledger)
  {
    if ReverseRequest(Reversing(index, key)) !in ledger.passed || KeyUsed(ledger.entries, key) then ledger
    else
      var reversal := ReversalOf(ledger.entries[index], index, key, periodId);
      ledger.(books := Applying(ledger.books, reversal), entries := Entered(ledger.entries, reversal))
  }

  /** References lead somewhere, and no line is missing. */
  ghost predicate WellFormed(ledger: Ledger) {
    && (forall d :: 0 <= d < |ledger.drafts| ==> DraftFits(ledger, d))
    && (forall r :: r in ledger.passed ==> RequestFits(ledger, r))
    && (forall j :: 0 <= j < |ledger.entries| ==> ReversalFits(ledger, j))
  }

  ghost predicate DraftFits(ledger: Ledger, d: nat)
    requires d < |ledger.drafts|
  {
    var draft := ledger.drafts[d];
    && Sound(draft.entry, ledger.books.accounts) && draft.entry.lines != [] && draft.entry.reverses.None?
    && !draft.entry.voided && (draft.posted.Some? ==> draft.posted.value < |ledger.entries|)
  }

  ghost predicate RequestFits(ledger: Ledger, r: Request) {
    match r
    case PostRequest(draft) => draft < |ledger.drafts|
    case ReverseRequest(Reversing(index, key)) => index < |ledger.entries| && key != ""
  }

  ghost predicate ReversalFits(ledger: Ledger, j: nat)
    requires j < |ledger.entries|
  {
    && Sound(ledger.entries[j], ledger.books.accounts)
    && (ledger.entries[j].reverses.Some? ==> ledger.entries[j].reverses.value.index < j)
  }

  /** What clients do, `Check` and `Commit` being the two halves of a request, and the transaction one step. */
  datatype Action =
    | Posting(periodId: string, currency: string, lines: seq<JournalLine>)
    | Saving(periodId: string, currency: string, lines: seq<JournalLine>)
    | CheckingPost(draft: nat)
    | CommittingPost(draft: nat)
    | CheckingReversal(index: nat, key: string)
    | CommittingReversal(index: nat, key: string, periodId: string)

  ghost function Step(ledger: Ledger, action: Action): Ledger
    requires WellFormed(ledger)
  {
    match action
    case Posting(periodId, currency, lines) => Post(ledger, periodId, currency, lines)
    case Saving(periodId, currency, lines) => Save(ledger, periodId, currency, lines)
    case CheckingPost(draft) => CheckPost(ledger, draft)
    case CommittingPost(draft) => CommittedPost(ledger, draft)
    case CheckingReversal(index, key) => CheckReversal(ledger, index, key)
    case CommittingReversal(index, key, periodId) => CommittedReversal(ledger, index, key, periodId)
  }

  function Empty(accounts: map<string, Account>): Ledger {
    Ledger(Books(accounts, map[], []), [], [], {})
  }

  /** The stored rows are right and references lead somewhere. */
  ghost predicate Kept(ledger: Ledger) {
    Recorded(ledger.books) && WellFormed(ledger)
  }

  /** `t` comes from `s` by these actions. */
  ghost predicate IsRun(s: Ledger, actions: seq<Action>, t: Ledger)
    decreases |actions|
  {
    if actions == [] then s == t
    else WellFormed(s) && IsRun(Step(s, actions[0]), actions[1..], t)
  }

  // ----- The service ---------------------------------------------------------------------------

  class JournalService {
    const accounts: map<string, Account>
    const table: BalanceTable
    var entries: seq<Entry>
    var drafts: seq<Draft>
    ghost var applied: seq<Entry>
    ghost var passed: set<Request>

    constructor (accounts: map<string, Account>)
      ensures fresh(table) && Value() == Empty(accounts)
    {
      this.accounts, entries, drafts, applied, passed := accounts, [], [], [], {};
      table := new BalanceTable();
    }

    ghost function Value(): Ledger
      reads this, table
    {
      Ledger(Books(accounts, table.rows, applied), entries, drafts, passed)
    }

    /** The check that every resolver makes of its draft, then the lines of the journal or the first error. */
    method Persisted(draft: JournalDraft) returns (r: Result<seq<PersistedLine>, LedgerError>)
      ensures r.Success? <==> CanPost(Value(), draft.lines)
      ensures r.Success? ==> MapDraftLinesToPersisted(draft.lines, accounts, draft.currency) == Success(r.value)
      ensures r.Failure? ==>
                !Balanced(draft.lines) || MapDraftLinesToPersisted(draft.lines, accounts, draft.currency).Failure?
    {
      hide Balanced;
      MapsEveryLine(draft.lines, accounts, draft.currency);
      var balanced := draft.AssertBalanced();
      match balanced {
        case Fail(error) => return Failure(DraftRejected(error));
        case Pass =>
      }
      var mapped := MapDraftLinesToPersisted(draft.lines, accounts, draft.currency);
      match mapped {
        case Failure(error) => return Failure(Unresolved(error.code));
        case Success(lines) => return Success(lines);
      }
    }

    /** The whole of a posting: the check that every resolver makes of its draft, then `postDraftLinesInTx`. */
    method PostDraftLines(draft: JournalDraft, periodId: string) returns (r: Outcome<LedgerError>)
      modifies this, table
      ensures Value() == Post(old(Value()), periodId, draft.currency, old(draft.lines))
      ensures r.Pass? <==> CanPost(old(Value()), old(draft.lines))
      ensures r.Pass? ==> |entries| == |old(entries)| + 1
    {
      hide Balanced, Applied, MapDraftLinesToPersisted;
      var lines := Persisted(draft);
      if lines.Failure? {
        return Fail(lines.error);
      }
      var entry := Entry(periodId, draft.currency, lines.value, false, None);
      table.ApplyBalanceIncrements(periodId, draft.currency, Movements(lines.value));
      entries, applied := entries + [entry], applied + [entry];
      return Pass;
    }

    method CreateDraft(draft: JournalDraft, periodId: string) returns (r: Outcome<LedgerError>)
      modifies this
      ensures Value() == Save(old(Value()), periodId, draft.currency, old(draft.lines))
      ensures r.Pass? <==> CanPost(old(Value()), old(draft.lines))
    {
      hide Balanced, MapDraftLinesToPersisted;
      var lines := Persisted(draft);
      if lines.Failure? {
        return Fail(lines.error);
      }
      drafts := drafts + [Draft(Entry(periodId, draft.currency, lines.value, false, None), None)];
      return Pass;
    }

    /** `postDraft` up to its transaction: the entry there is already, or None to go on with the transaction. */
    method RequestPost(draft: nat) returns (r: Result<Option<nat>, LedgerError>)
      requires WellFormed(Value())
      modifies this`passed
      ensures Value() == CheckPost(old(Value()), draft)
      ensures r == Success(None) <==> CanPostDraft(Value(), draft)
      ensures r.Success? && r.value.Some? ==> draft < |drafts| && drafts[draft].posted == r.value
      ensures r.Failure? <==>
                draft >= |drafts| ||
                (drafts[draft].posted.Some? && DraftFits(Value(), draft) && entries[drafts[draft].posted.value].voided)
    {
      if draft >= |drafts| {
        return Failure(NoSuchEntry);
      }
      var d := drafts[draft];
      assert DraftFits(Value(), draft);
      if d.posted.Some? {
        if entries[d.posted.value].voided {
          return Failure(NotADraft);
        }
        return Success(d.posted);
      }
      passed := passed + {PostRequest(draft)};
      return Success(None);
    }

    /** The transaction of `postDraft`. */
    method CommitPost(draft: nat)
      requires WellFormed(Value()) && PostRequest(draft) in passed
      modifies this, table
      ensures Value() == CommittedPost(old(Value()), draft)
    {
      hide Applied;
      assert RequestFits(Value(), PostRequest(draft));
      assert DraftFits(Value(), draft);
      var d := drafts[draft];
      table.ApplyBalanceIncrements(d.entry.periodId, d.entry.currency, Movements(d.entry.lines));
      applied := applied + [d.entry];
      match d.posted {
        case None =>
          drafts := drafts[draft := d.(posted := Some(|entries|))];
          entries := entries + [d.entry];
        case Some(i) =>
          entries := entries[i := entries[i].(voided := false)];
      }
    }

    /** `reversePosted` up to its transaction: the reversal there is already, or None to go on. */
    method RequestReversal(index: nat, idempotencyKey: string) returns (r: Result<Option<nat>, LedgerError>)
      modifies this`passed
      ensures Value() == CheckReversal(old(Value()), index, Trim(idempotencyKey))
      ensures r == Success(None) <==> CanReverse(Value(), index, Trim(idempotencyKey))
      ensures r.Success? && r.value.Some? ==>
                && r.value.value < |entries|
                && (HasKey(entries[r.value.value], Trim(idempotencyKey)) ||
                    ReversesEntry(entries[r.value.value], index))
      ensures ReversedOnce(entries) ==>
                (r.Failure? <==>
                   Trim(idempotencyKey) == "" ||
                   (index >= |entries| && !KeyUsed(entries, Trim(idempotencyKey))))
    {
      hide Trim;
      var key := Trim(idempotencyKey);
      if key == "" {
        return Failure(KeyRequired);
      }
      var byKey := First(entries, (entry: Entry) => HasKey(entry, key));
      if byKey.Some? {
        return Success(byKey);
      }
      if index >= |entries| {
        return Failure(NoSuchEntry);
      }
      if entries[index].voided {
        var existing := First(entries, (entry: Entry) => ReversesEntry(entry, index));
        if existing.Some? {
          return Success(existing);
        }
        return Failure(VoidedWithoutReversal);
      }
      passed := passed + {ReverseRequest(Reversing(index, key))};
      return Success(None);
    }

    /** The transaction of `reversePosted`. */
    method CommitReversal(index: nat, key: string, periodId: string) returns (reversal: nat)
      requires WellFormed(Value()) && ReverseRequest(Reversing(index, key)) in passed
      modifies this, table
      ensures Value() == CommittedReversal(old(Value()), index, key, periodId)
      ensures reversal < |entries| && HasKey(entries[reversal], key)
    {
      hide Applied;
      assert RequestFits(Value(), ReverseRequest(Reversing(index, key)));
      var again := First(entries, (entry: Entry) => HasKey(entry, key));
      if again.Some? {
        return again.value;
      }
      var original := entries[index];
      var entry := ReversalOf(original, index, key, periodId);
      table.ApplyBalanceIncrements(periodId, original.currency, Movements(entry.lines));
      applied := applied + [entry];
      entries := Entered(entries, entry);
      return |entries| - 1;
    }
  }

  // ----- What every run keeps ------------------------------------------------------------------

  lemma PostKeeps(ledger: Ledger, periodId: string, currency: string, lines: seq<JournalLine>)
    requires Kept(ledger)
    ensures Kept(Post(ledger, periodId, currency, lines)) && Kept(Save(ledger, periodId, currency, lines))
  {
    hide Sound, RowMatches, Applied, Chart, Persists, Balanced, Recorded;
    MapsEveryLine(lines, ledger.books.accounts, currency);
    var mapped := MapDraftLinesToPersisted(lines, ledger.books.accounts, currency);
    if Balanced(lines) && mapped.Success? {
      var entry := Entry(periodId, currency, mapped.value, false, None);
      LinesSound(ledger, lines, entry);
      ApplyingKeeps(ledger.books, entry);
      RecordedFits(ledger, entry);
      SavedFits(ledger, entry);
    }
  }

  lemma LinesSound(ledger: Ledger, lines: seq<JournalLine>, entry: Entry)
    requires Recorded(ledger.books) && CanPost(ledger, lines)
    requires MapDraftLinesToPersisted(lines, ledger.books.accounts, entry.currency) == Success(entry.lines)
    ensures Sound(entry, ledger.books.accounts) && entry.lines != []
  {
    hide Sound, RowMatches;
    MapsEveryLine(lines, ledger.books.accounts, entry.currency);
    PersistedSound(lines, ledger.books.accounts, entry.lines, entry);
  }

  lemma RecordedFits(ledger: Ledger, entry: Entry)
    requires WellFormed(ledger) && Sound(entry, ledger.books.accounts) && entry.reverses.None?
    ensures WellFormed(Recording(ledger, entry))
  {
    hide Sound, Applied;
    var after := Recording(ledger, entry);
    forall d | 0 <= d < |after.drafts| ensures DraftFits(after, d) {
      assert DraftFits(ledger, d);
    }
    forall r | r in after.passed ensures RequestFits(after, r) {
      assert RequestFits(ledger, r);
    }
    forall j | 0 <= j < |after.entries| ensures ReversalFits(after, j) {
      assert j < |ledger.entries| ==> ReversalFits(ledger, j);
    }
  }

  lemma SavedFits(ledger: Ledger, entry: Entry)
    requires WellFormed(ledger) && Sound(entry, ledger.books.accounts) && entry.lines != []
    requires entry.reverses.None? && !entry.voided
    ensures WellFormed(ledger.(drafts := ledger.drafts + [Draft(entry, None)]))
  {
    hide Sound;
    var after := ledger.(drafts := ledger.drafts + [Draft(entry, None)]);
    forall d | 0 <= d < |after.drafts| ensures DraftFits(after, d) {
      assert d < |ledger.drafts| ==> DraftFits(ledger, d);
    }
    forall r | r in after.passed ensures RequestFits(after, r) {
      assert RequestFits(ledger, r);
    }
    forall j | 0 <= j < |after.entries| ensures ReversalFits(after, j) {
      assert ReversalFits(ledger, j);
    }
  }

  lemma CheckKeeps(ledger: Ledger, request: Request)
    requires WellFormed(ledger) && RequestFits(ledger, request)
    ensures WellFormed(ledger.(passed := ledger.passed + {request}))
  {
    hide Sound;
    var after := ledger.(passed := ledger.passed + {request});
    forall d | 0 <= d < |after.drafts| ensures DraftFits(after, d) {
      assert DraftFits(ledger, d);
    }
    forall r | r in after.passed ensures RequestFits(after, r) {
      assert r != request ==> RequestFits(ledger, r);
    }
    forall j | 0 <= j < |after.entries| ensures ReversalFits(after, j) {
      assert ReversalFits(ledger, j);
    }
  }

  lemma CommitPostKeeps(ledger: Ledger, draft: nat)
    requires Kept(ledger)
    ensures Kept(CommittedPost(ledger, draft))
  {
    hide Sound, Applied, Recorded;
    if PostRequest(draft) in ledger.passed {
      assert RequestFits(ledger, PostRequest(draft));
      assert DraftFits(ledger, draft);
      var d, after := ledger.drafts[draft], CommittedPost(ledger, draft);
      ApplyingKeeps(ledger.books, d.entry);
      forall e | 0 <= e < |after.drafts| ensures DraftFits(after, e) {
        assert DraftFits(ledger, e);
      }
      forall r | r in after.passed ensures RequestFits(after, r) {
        assert RequestFits(ledger, r);
      }
      forall j | 0 <= j < |after.entries| ensures ReversalFits(after, j) {
        if j < |ledger.entries| {
          assert ReversalFits(ledger, j);
          SameLinesSound(ledger.entries[j], after.entries[j], ledger.books.accounts);
        }
      }
    }
  }

  lemma SameLinesSound(entry: Entry, other: Entry, accounts: map<string, Account>)
    requires Sound(entry, accounts) && other.lines == entry.lines
    ensures Sound(other, accounts)
  {
  }

  lemma CommitReversalKeeps(ledger: Ledger, index: nat, key: string, periodId: string)
    requires Kept(ledger)
    ensures Kept(CommittedReversal(ledger, index, key, periodId))
  {
    hide Sound, Applied, Recorded, Entered, ReversedLines;
    if ReverseRequest(Reversing(index, key)) in ledger.passed && !KeyUsed(ledger.entries, key) {
      assert RequestFits(ledger, ReverseRequest(Reversing(index, key)));
      assert ReversalFits(ledger, index);
      var after := CommittedReversal(ledger, index, key, periodId);
      ReversedSound(ledger.entries[index], ledger.books.accounts, index, key, periodId);
      ApplyingKeeps(ledger.books, ReversalOf(ledger.entries[index], index, key, periodId));
      forall e | 0 <= e < |after.drafts| ensures DraftFits(after, e) {
        assert DraftFits(ledger, e);
      }
      forall r | r in after.passed ensures RequestFits(after, r) {
        assert RequestFits(ledger, r);
      }
      forall j | 0 <= j < |after.entries| ensures ReversalFits(after, j) {
        if j < |ledger.entries| {
          assert ReversalFits(ledger, j);
          SameLinesSound(ledger.entries[j], after.entries[j], ledger.books.accounts);
        }
      }
    }
  }

  lemma StepKeeps(ledger: Ledger, action: Action)
    requires Kept(ledger)
    ensures Kept(Step(ledger, action)) && Step(ledger, action).books.accounts == ledger.books.accounts
  {
    hide Recorded, WellFormed, Balanced, Applied, MapDraftLinesToPersisted;
    match action
    case Posting(periodId, currency, lines) => PostKeeps(ledger, periodId, currency, lines);
    case Saving(periodId, currency, lines) => PostKeeps(ledger, periodId, currency, lines);
    case CheckingPost(draft) =>
      if CanPostDraft(ledger, draft) {
        CheckKeeps(ledger, PostRequest(draft));
      }
    case CommittingPost(draft) => CommitPostKeeps(ledger, draft);
    case CheckingReversal(index, key) =>
      if CanReverse(ledger, index, key) {
        CheckKeeps(ledger, ReverseRequest(Reversing(index, key)));
      }
    case CommittingReversal(index, key, periodId) => CommitReversalKeeps(ledger, index, key, periodId);
  }

  /** Every run leaves each stored row equal to the totals of all that was applied to it. */
  lemma {:induction false} RunKept(s: Ledger, actions: seq<Action>, t: Ledger)
    requires Kept(s) && IsRun(s, actions, t)
    ensures Kept(t) && t.books.accounts == s.books.accounts
    decreases |actions|
  {
    hide Kept, Step;
    if actions != [] {
      StepKeeps(s, actions[0]);
      RunKept(Step(s, actions[0]), actions[1..], t);
    }
  }

  lemma RunRecorded(accounts: map<string, Account>, actions: seq<Action>, t: Ledger)
    requires Chart(accounts) && IsRun(Empty(accounts), actions, t)
    ensures Recorded(t.books) && WellFormed(t) && t.books.accounts == accounts
  {
    assert Kept(Empty(accounts));
    RunKept(Empty(accounts), actions, t);
  }

  // ----- Late commits --------------------------------------------------------------------------

  /** The journal lists, for each period, exactly what was applied to the balances. */
  ghost predicate OnceEach(ledger: Ledger) {
    forall periodId: string ::
      PeriodMovements(ledger.entries, periodId) == PeriodMovements(ledger.books.applied, periodId)
  }

  /** A draft is posted by a request that has passed its check before another one posted it. */
  ghost predicate LatePost(ledger: Ledger, action: Action)
    requires WellFormed(ledger)
  {
    action.CommittingPost? && PostRequest(action.draft) in ledger.passed &&
    RequestFits(ledger, PostRequest(action.draft)) && ledger.drafts[action.draft].posted.Some?
  }

  lemma AppendedMovements(s: seq<Entry>, t: seq<Entry>, entry: Entry)
    requires forall periodId: string :: PeriodMovements(s, periodId) == PeriodMovements(t, periodId)
    ensures forall periodId: string :: PeriodMovements(s + [entry], periodId) == PeriodMovements(t + [entry], periodId)
  {
    forall periodId: string
      ensures PeriodMovements(s + [entry], periodId) == PeriodMovements(t + [entry], periodId)
    {
      PeriodNext(s, entry, periodId);
      PeriodNext(t, entry, periodId);
    }
  }

  lemma EnteredMovements(entries: seq<Entry>, entry: Entry)
    requires entry.reverses.Some? && entry.reverses.value.index < |entries|
    ensures forall periodId: string ::
              PeriodMovements(Entered(entries, entry), periodId) == PeriodMovements(entries + [entry], periodId)
  {
    forall periodId: string
      ensures PeriodMovements(Entered(entries, entry), periodId) == PeriodMovements(entries + [entry], periodId)
    {
      VoidingChangesNothing(entries + [entry], entry.reverses.value.index, true, periodId);
    }
  }

  /** What was applied stays what the journal lists exactly when no draft is posted late. */
  lemma OnceEachExactly(ledger: Ledger, action: Action)
    requires Kept(ledger) && OnceEach(ledger)
    ensures OnceEach(Step(ledger, action)) <==> !LatePost(ledger, action)
  {
    hide Recorded, Applied, Balanced, MapDraftLinesToPersisted, PeriodMovements, Sound;
    match action
    case Posting(periodId, currency, lines) =>
      var mapped := MapDraftLinesToPersisted(lines, ledger.books.accounts, currency);
      if mapped.Success? {
        AppendedMovements(ledger.entries, ledger.books.applied, Entry(periodId, currency, mapped.value, false, None));
      }
    case CommittingPost(draft) =>
      if PostRequest(draft) in ledger.passed {
        assert RequestFits(ledger, PostRequest(draft));
        assert DraftFits(ledger, draft);
        CommitPostOnce(ledger, draft);
      }
    case CommittingReversal(index, key, periodId) =>
      if ReverseRequest(Reversing(index, key)) in ledger.passed && !KeyUsed(ledger.entries, key) {
        assert RequestFits(ledger, ReverseRequest(Reversing(index, key)));
        var reversal := ReversalOf(ledger.entries[index], index, key, periodId);
        AppendedMovements(ledger.entries, ledger.books.applied, reversal);
        EnteredMovements(ledger.entries, reversal);
      }
    case _ =>
  }

  lemma CommitPostOnce(ledger: Ledger, draft: nat)
    requires WellFormed(ledger) && OnceEach(ledger) && PostRequest(draft) in ledger.passed
    requires draft < |ledger.drafts| && DraftFits(ledger, draft)
    ensures OnceEach(CommittedPost(ledger, draft)) <==> ledger.drafts[draft].posted.None?
  {
    hide WellFormed, Applied, Sound, PeriodMovements;
    var d := ledger.drafts[draft];
    match d.posted {
      case None => AppendedMovements(ledger.entries, ledger.books.applied, d.entry);
      case Some(i) =>
        var periodId := d.entry.periodId;
        PeriodNext(ledger.books.applied, d.entry, periodId);
        VoidingChangesNothing(ledger.entries, i, false, periodId);
        assert |Movements(d.entry.lines)| > 0;
        var after := CommittedPost(ledger, draft);
        assert |PeriodMovements(after.books.applied, periodId)| > |PeriodMovements(after.entries, periodId)|;
    }
  }

  /** An entry is voided exactly when a later one reverses it, and then only one does. */
  ghost predicate ReversedOnce(entries: seq<Entry>) {
    && (forall i, j :: 0 <= i < j < |entries| && entries[i].reverses.Some? && entries[j].reverses.Some? ==>
          entries[i].reverses.value.index != entries[j].reverses.value.index)
    && (forall j :: 0 <= j < |entries| && entries[j].reverses.Some? ==> entries[j].reverses.value.index < j)
    && (forall i :: 0 <= i < |entries| ==> (entries[i].voided <==> IsReversed(entries, i)))
  }

  ghost predicate IsReversed(entries: seq<Entry>, i: nat) {
    exists j :: 0 <= j < |entries| && ReversesEntry(entries[j], i)
  }

  lemma ReversedOnceKept(entries: seq<Entry>, entry: Entry)
    requires ReversedOnce(entries) && !entry.voided
    requires entry.reverses.Some? ==>
               entry.reverses.value.index < |entries| && !entries[entry.reverses.value.index].voided
    ensures ReversedOnce(Entered(entries, entry))
  {
    hide IsReversed, Entered;
    var after := Entered(entries, entry);
    forall i | 0 <= i < |after|
      ensures after[i].voided <==> IsReversed(after, i)
    {
      ReversedNext(entries, entry, after, i);
    }
    forall j | 0 <= j < |entries| && entries[j].reverses.Some? && entry.reverses.Some?
      ensures entries[j].reverses.value.index != entry.reverses.value.index
    {
      ReversesVoided(entries, j);
    }
  }

  lemma ReversesVoided(entries: seq<Entry>, j: nat)
    requires ReversedOnce(entries) && j < |entries| && entries[j].reverses.Some?
    ensures entries[j].reverses.value.index < |entries| && entries[entries[j].reverses.value.index].voided
  {
    assert ReversesEntry(entries[j], entries[j].reverses.value.index);
  }

  lemma ReversedNext(entries: seq<Entry>, entry: Entry, after: seq<Entry>, i: nat)
    requires |after| == |entries| + 1 && after[|entries|].reverses == entry.reverses
    requires forall j :: 0 <= j < |entries| ==> after[j].reverses == entries[j].reverses
    requires forall j :: 0 <= j < |entries| && entries[j].reverses.Some? ==> entries[j].reverses.value.index < j
    ensures IsReversed(after, i) <==> IsReversed(entries, i) || ReversesEntry(entry, i)
    ensures i >= |entries| ==> !IsReversed(entries, i)
  {
    if j :| 0 <= j < |entries| && ReversesEntry(entries[j], i) {
      assert ReversesEntry(after[j], i);
    }
    if ReversesEntry(entry, i) {
      assert ReversesEntry(after[|entries|], i);
    }
    if j :| 0 <= j < |after| && ReversesEntry(after[j], i) {
      assert j < |entries| ==> ReversesEntry(entries[j], i);
    }
  }

  /** A commit that finds the entry voided: by another reversal, or, for a draft, by the reversal of its entry. */
  ghost predicate LateReversal(ledger: Ledger, action: Action)
    requires WellFormed(ledger)
  {
    match action
    case CommittingReversal(index, key, _) =>
      && ReverseRequest(Reversing(index, key)) in ledger.passed && !KeyUsed(ledger.entries, key)
      && RequestFits(ledger, ReverseRequest(Reversing(index, key))) && ledger.entries[index].voided
    case CommittingPost(draft) =>
      && LatePost(ledger, action) && DraftFits(ledger, draft)
      && ledger.entries[ledger.drafts[draft].posted.value].voided
    case _ => false
  }

  lemma TwiceReversed(entries: seq<Entry>, entry: Entry)
    requires ReversedOnce(entries) && entry.reverses.Some? && entry.reverses.value.index < |entries|
    requires entries[entry.reverses.value.index].voided
    ensures !ReversedOnce(Entered(entries, entry))
  {
    var index, after := entry.reverses.value.index, Entered(entries, entry);
    assert IsReversed(entries, index);
    var j :| 0 <= j < |entries| && ReversesEntry(entries[j], index);
    assert after[j].reverses.value.index == after[|entries|].reverses.value.index;
  }

  lemma Unvoided(entries: seq<Entry>, i: nat)
    requires ReversedOnce(entries) && i < |entries|
    ensures ReversedOnce(entries[i := entries[i].(voided := false)]) <==> !entries[i].voided
  {
    var after := entries[i := entries[i].(voided := false)];
    assert !entries[i].voided ==> after == entries;
    if entries[i].voided {
      assert IsReversed(entries, i);
      var j :| 0 <= j < |entries| && ReversesEntry(entries[j], i);
      assert ReversesEntry(after[j], i) && IsReversed(after, i);
    }
  }

  /** No entry is reversed twice exactly when no commit finds its entry voided. */
  lemma ReversedOnceExactly(ledger: Ledger, action: Action)
    requires WellFormed(ledger) && ReversedOnce(ledger.entries)
    ensures ReversedOnce(Step(ledger, action).entries) <==> !LateReversal(ledger, action)
  {
    hide ReversedOnce, Applied, Balanced, MapDraftLinesToPersisted, Sound, Entered, ReversedLines;
    match action
    case Posting(periodId, currency, lines) =>
      var mapped := MapDraftLinesToPersisted(lines, ledger.books.accounts, currency);
      if mapped.Success? {
        NewEntry(ledger.entries, Entry(periodId, currency, mapped.value, false, None));
      }
    case CommittingPost(draft) =>
      if PostRequest(draft) in ledger.passed {
        assert RequestFits(ledger, PostRequest(draft));
        assert DraftFits(ledger, draft);
        match ledger.drafts[draft].posted {
          case None => NewEntry(ledger.entries, ledger.drafts[draft].entry);
          case Some(i) => Unvoided(ledger.entries, i);
        }
      }
    case CommittingReversal(index, key, periodId) =>
      if ReverseRequest(Reversing(index, key)) in ledger.passed && !KeyUsed(ledger.entries, key) {
        assert RequestFits(ledger, ReverseRequest(Reversing(index, key)));
        var reversal := ReversalOf(ledger.entries[index], index, key, periodId);
        if ledger.entries[index].voided {
          TwiceReversed(ledger.entries, reversal);
        } else {
          ReversedOnceKept(ledger.entries, reversal);
        }
      }
    case _ =>
  }

  lemma NewEntry(entries: seq<Entry>, entry: Entry)
    requires ReversedOnce(entries) && !entry.voided && entry.reverses.None?
    ensures ReversedOnce(entries + [entry])
  {
    ReversedOnceKept(entries, entry);
  }

  /** No commit of the run comes late. */
  ghost predicate InTime(s: Ledger, actions: seq<Action>)
    decreases |actions|
  {
    actions == [] ||
    (WellFormed(s) && !LatePost(s, actions[0]) && !LateReversal(s, actions[0]) &&
     InTime(Step(s, actions[0]), actions[1..]))
  }

  lemma {:induction false} InTimeKeeps(s: Ledger, actions: seq<Action>, t: Ledger)
    requires Kept(s) && OnceEach(s) && ReversedOnce(s.entries) && IsRun(s, actions, t) && InTime(s, actions)
    ensures OnceEach(t) && ReversedOnce(t.entries)
    decreases |actions|
  {
    hide Kept, Step, OnceEach, ReversedOnce, WellFormed, LatePost, LateReversal;
    if actions != [] {
      StepKeeps(s, actions[0]);
      OnceEachExactly(s, actions[0]);
      KeptFits(s);
      ReversedOnceExactly(s, actions[0]);
      InTimeKeeps(Step(s, actions[0]), actions[1..], t);
    }
  }

  lemma KeptFits(ledger: Ledger)
    requires Kept(ledger)
    ensures WellFormed(ledger)
  {
  }

  /** Over every run without a late commit: the journal lists what was applied, and no entry is reversed twice. */
  lemma RunInTime(accounts: map<string, Account>, actions: seq<Action>, t: Ledger)
    requires Chart(accounts) && IsRun(Empty(accounts), actions, t) && InTime(Empty(accounts), actions)
    ensures OnceEach(t) && ReversedOnce(t.entries)
  {
    assert Kept(Empty(accounts));
    InTimeKeeps(Empty(accounts), actions, t);
  }

  /** Idempotency keys do hold: no two reversals have the same one. */
  ghost predicate KeysOnce(entries: seq<Entry>) {
    forall i, j :: 0 <= i < j < |entries| && entries[i].reverses.Some? && entries[j].reverses.Some? ==>
      entries[i].reverses.value.key != entries[j].reverses.value.key
  }

  lemma StepKeysOnce(ledger: Ledger, action: Action)
    requires WellFormed(ledger) && KeysOnce(ledger.entries)
    ensures KeysOnce(Step(ledger, action).entries)
  {
    hide Applied, Balanced, MapDraftLinesToPersisted, Sound, Entered, ReversedLines;
    if action.CommittingPost? && PostRequest(action.draft) in ledger.passed {
      assert RequestFits(ledger, PostRequest(action.draft));
      assert DraftFits(ledger, action.draft);
    } else if action.CommittingReversal? {
      var reversing := Reversing(action.index, action.key);
      if ReverseRequest(reversing) in ledger.passed && !KeyUsed(ledger.entries, action.key) {
        assert RequestFits(ledger, ReverseRequest(reversing));
        assert forall i :: 0 <= i < |ledger.entries| ==> !HasKey(ledger.entries[i], action.key);
      }
    }
  }

  lemma {:induction false} RunKeysOnce(s: Ledger, actions: seq<Action>, t: Ledger)
    requires WellFormed(s) && KeysOnce(s.entries) && IsRun(s, actions, t)
    ensures KeysOnce(t.entries)
    decreases |actions|
  {
    hide Step, KeysOnce;
    if actions != [] {
      StepKeysOnce(s, actions[0]);
      if |actions| > 1 {
        assert WellFormed(Step(s, actions[0]));
        RunKeysOnce(Step(s, actions[0]), actions[1..], t);
      }
    }
  }

  // ----- Two requests for the same -------------------------------------------------------------

  /** Both pass their checks before the first commits: the entry is reversed twice, and its effect taken back twice. */
  lemma TwoReversals(s: Ledger, index: nat, j: string, k: string, code: string)
    requires Kept(s) && ReversedOnce(s.entries) && code in s.books.accounts && j != k
    requires CanReverse(s, index, j) && CanReverse(s, index, k)
    ensures var entry, account := s.entries[index], s.books.accounts[code];
            exists t ::
              && IsRun(s, [CheckingReversal(index, j), CheckingReversal(index, k),
                           CommittingReversal(index, j, entry.periodId),
                           CommittingReversal(index, k, entry.periodId)], t)
              && !ReversedOnce(t.entries)
              && ClosingOf(t.books, entry.periodId, account) ==
                 ClosingOf(s.books, entry.periodId, account) - 2 * Effect(entry, account)
  {
    hide Kept, WellFormed, ReversedOnce, Recorded, ClosingOf, Effect, Applied, Entered, ReversedLines;
    var entry := s.entries[index];
    var a, b := CheckingReversal(index, j), CheckingReversal(index, k);
    var c, d := CommittingReversal(index, j, entry.periodId), CommittingReversal(index, k, entry.periodId);
    KeptFits(s);
    StepKeeps(s, a);
    var s1 := Step(s, a);
    KeptFits(s1);
    StepKeeps(s1, b);
    var s2 := Step(s1, b);
    KeptFits(s2);
    StepKeeps(s2, c);
    var s3 := Step(s2, c);
    KeptFits(s3);
    FreshKeyStays(s2, index, j, k, entry.periodId);
    StepKeeps(s3, d);
    var s4 := Step(s3, d);
    ReversedOnceExactly(s2, c);
    ReversedOnceExactly(s3, d);
    CommitTakesBack(s2, index, j, entry.periodId, code);
    CommitTakesBack(s3, index, k, entry.periodId, code);
    SameEffect(entry, s3.entries[index], s.books.accounts[code]);
    FourSteps(s, [a, b, c, d], s4);
  }

  lemma FourSteps(s: Ledger, actions: seq<Action>, t: Ledger)
    requires |actions| == 4 && WellFormed(s) && WellFormed(Step(s, actions[0]))
    requires WellFormed(Step(Step(s, actions[0]), actions[1]))
    requires WellFormed(Step(Step(Step(s, actions[0]), actions[1]), actions[2]))
    requires t == Step(Step(Step(Step(s, actions[0]), actions[1]), actions[2]), actions[3])
    ensures IsRun(s, actions, t)
  {
    hide Step, WellFormed;
    assert IsRun(t, actions[4..], t);
    assert actions[3..][1..] == actions[4..] && actions[2..][1..] == actions[3..] && actions[1..][1..] == actions[2..];
    var s1 := Step(s, actions[0]);
    var s2 := Step(s1, actions[1]);
    var s3 := Step(s2, actions[2]);
    assert IsRun(s3, actions[3..], t);
    assert IsRun(s2, actions[2..], t);
    assert IsRun(s1, actions[1..], t);
  }

  /** After the first commit the second still finds its key new, and the entry it reverses voided. */
  lemma FreshKeyStays(ledger: Ledger, index: nat, j: string, k: string, periodId: string)
    requires WellFormed(ledger) && j != k && index < |ledger.entries|
    requires ReverseRequest(Reversing(index, j)) in ledger.passed && !KeyUsed(ledger.entries, j)
    requires !KeyUsed(ledger.entries, k)
    ensures var after := CommittedReversal(ledger, index, j, periodId);
            && after.passed == ledger.passed && !KeyUsed(after.entries, k) && |after.entries| == |ledger.entries| + 1
            && after.entries[index] == ledger.entries[index].(voided := true)
  {
    hide Applied, Entered, ReversedLines, WellFormed;
    var after := CommittedReversal(ledger, index, j, periodId);
    forall i | 0 <= i < |after.entries| ensures !HasKey(after.entries[i], k) {
      if i < |ledger.entries| {
        assert !HasKey(ledger.entries[i], k);
      }
    }
  }

  lemma SameEffect(entry: Entry, other: Entry, account: Account)
    requires other.lines == entry.lines
    ensures Effect(other, account) == Effect(entry, account)
  {
  }

  /** A commit that takes effect takes back, in its period, what the entry had added. */
  lemma CommitTakesBack(ledger: Ledger, index: nat, key: string, periodId: string, code: string)
    requires Kept(ledger) && code in ledger.books.accounts && index < |ledger.entries|
    requires ReverseRequest(Reversing(index, key)) in ledger.passed && !KeyUsed(ledger.entries, key)
    ensures WellFormed(ledger)
    ensures var account := ledger.books.accounts[code];
            ClosingOf(CommittedReversal(ledger, index, key, periodId).books, periodId, account) ==
            ClosingOf(ledger.books, periodId, account) - Effect(ledger.entries[index], account)
  {
    hide Recorded, ClosingOf, Effect, Applied, Entered, ReversedLines, Sound;
    assert ReversalFits(ledger, index);
    ReversedSound(ledger.entries[index], ledger.books.accounts, index, key, periodId);
    ApplyingMovesBalance(ledger.books, ReversalOf(ledger.entries[index], index, key, periodId), code);
    ReversalEffect(ledger.entries[index], index, key, periodId, ledger.books.accounts[code]);
  }

  /** The balance that the journal's own lines give, as the general ledger adds them up. */
  function JournalClosing(ledger: Ledger, periodId: string, account: Account): int {
    var ms := PeriodMovements(ledger.entries, periodId);
    ClosingBalanceFor(account.accountType, Sum(ms, DebitAt(account.id)), Sum(ms, CreditAt(account.id)))
  }

  lemma JournalGrows(ledger: Ledger, entry: Entry, account: Account)
    ensures JournalClosing(Recording(ledger, entry), entry.periodId, account) ==
            JournalClosing(ledger, entry.periodId, account) + Effect(entry, account)
  {
    hide Applied;
    var before, ms := PeriodMovements(ledger.entries, entry.periodId), Movements(entry.lines);
    PeriodNext(ledger.entries, entry, entry.periodId);
    SumConcat(before, ms, DebitAt(account.id));
    SumConcat(before, ms, CreditAt(account.id));
  }

  lemma JournalAgrees(ledger: Ledger, periodId: string, code: string)
    requires Kept(ledger) && OnceEach(ledger) && code in ledger.books.accounts
    ensures JournalClosing(ledger, periodId, ledger.books.accounts[code]) ==
            ClosingOf(ledger.books, periodId, ledger.books.accounts[code])
  {
    hide WellFormed, Sum, ClosingOf;
    ClosingIsApplied(ledger.books, periodId, code);
    assert PeriodMovements(ledger.entries, periodId) == PeriodMovements(ledger.books.applied, periodId);
  }

  lemma SameEntries(ledger: Ledger, other: Ledger, periodId: string, account: Account)
    requires ledger.entries == other.entries
    ensures JournalClosing(ledger, periodId, account) == JournalClosing(other, periodId, account)
  {
  }

  lemma UnvoidedClosing(ledger: Ledger, other: Ledger, i: nat, periodId: string, account: Account)
    requires i < |ledger.entries| && other.entries == ledger.entries[i := ledger.entries[i].(voided := false)]
    ensures JournalClosing(other, periodId, account) == JournalClosing(ledger, periodId, account)
  {
    VoidingChangesNothing(ledger.entries, i, false, periodId);
  }

  /** Two requests to post a draft, both checked before the first commits, apply its lines twice. */
  lemma TwoPosts(s: Ledger, draft: nat, code: string)
    requires Kept(s) && OnceEach(s) && code in s.books.accounts && CanPostDraft(s, draft)
    ensures var entry, account := s.drafts[draft].entry, s.books.accounts[code];
            exists t ::
              && IsRun(s, [CheckingPost(draft), CheckingPost(draft), CommittingPost(draft), CommittingPost(draft)], t)
              && !OnceEach(t) && |t.entries| == |s.entries| + 1
              && ClosingOf(t.books, entry.periodId, account) ==
                 ClosingOf(s.books, entry.periodId, account) + 2 * Effect(entry, account)
              && JournalClosing(t, entry.periodId, account) ==
                 ClosingOf(s.books, entry.periodId, account) + Effect(entry, account)
  {
    hide Kept, WellFormed, OnceEach, Recorded, ClosingOf, Effect, Applied, JournalClosing;
    var entry := s.drafts[draft].entry;
    var a, c := CheckingPost(draft), CommittingPost(draft);
    KeptFits(s);
    StepKeeps(s, a);
    var s1 := Step(s, a);
    KeptFits(s1);
    StepKeeps(s1, a);
    var s2 := Step(s1, a);
    KeptFits(s2);
    StepKeeps(s2, c);
    var s3 := Step(s2, c);
    KeptFits(s3);
    StepKeeps(s3, c);
    var s4 := Step(s3, c);
    DraftStays(s2, draft);
    SameJournal(s, s2);
    OnceEachExactly(s2, c);
    OnceEachExactly(s3, c);
    DraftSound(s2, draft);
    DraftSound(s3, draft);
    ApplyingMovesBalance(s2.books, entry, code);
    ApplyingMovesBalance(s3.books, entry, code);
    JournalAgrees(s2, entry.periodId, code);
    JournalGrows(s2, entry, s.books.accounts[code]);
    SameEntries(s3, Recording(s2, entry), entry.periodId, s.books.accounts[code]);
    UnvoidedClosing(s3, s4, |s2.entries|, entry.periodId, s.books.accounts[code]);
    FourSteps(s, [a, a, c, c], s4);
  }

  lemma SameJournal(s: Ledger, t: Ledger)
    requires OnceEach(s) && t.entries == s.entries && t.books == s.books
    ensures OnceEach(t)
  {
  }

  lemma DraftSound(ledger: Ledger, draft: nat)
    requires Kept(ledger) && draft < |ledger.drafts|
    ensures Sound(ledger.drafts[draft].entry, ledger.books.accounts) && Recorded(ledger.books)
  {
    assert DraftFits(ledger, draft);
  }

  lemma DraftStays(ledger: Ledger, draft: nat)
    requires Kept(ledger) && PostRequest(draft) in ledger.passed && CanPostDraft(ledger, draft)
    ensures WellFormed(ledger)
    ensures var after := CommittedPost(ledger, draft);
            && |after.drafts| == |ledger.drafts| && after.drafts[draft].posted == Some(|ledger.entries|)
            && after.drafts[draft].entry == ledger.drafts[draft].entry && after.passed == ledger.passed
            && RequestFits(after, PostRequest(draft)) && |after.entries| == |ledger.entries| + 1
  {
    hide Applied, Recorded;
  }

  // ----- How a posting moves a balance ---------------------------------------------------------

  /** A posting moves each closing balance by what its draft nets to on that account. */
  lemma PostMovesBalance(ledger: Ledger, periodId: string, currency: string, lines: seq<JournalLine>, code: string)
    requires Kept(ledger) && CanPost(ledger, lines) && code in ledger.books.accounts
    ensures var account := ledger.books.accounts[code];
            ClosingOf(Post(ledger, periodId, currency, lines).books, periodId, account) ==
            ClosingOf(ledger.books, periodId, account) + ClosingBalanceFor(account.accountType, Net(lines, code), 0)
  {
    hide Sound, RowMatches, Applied, Persists, Balanced, Net, Sum, ClosingOf, WellFormed;
    MapsEveryLine(lines, ledger.books.accounts, currency);
    var persisted := MapDraftLinesToPersisted(lines, ledger.books.accounts, currency).value;
    var entry := Entry(periodId, currency, persisted, false, None);
    PersistedSound(lines, ledger.books.accounts, persisted, entry);
    PersistedSums(lines, ledger.books.accounts, persisted, code);
    ApplyingMovesBalance(ledger.books, entry, code);
  }

  // ----- Whole transactions --------------------------------------------------------------------

  ghost function PostAll(ledger: Ledger, periodId: string, currency: string, drafts: seq<seq<JournalLine>>): Ledger {
    if drafts == [] then ledger
    else Post(PostAll(ledger, periodId, currency, drafts[..|drafts| - 1]), periodId, currency, drafts[|drafts| - 1])
  }

  function Flat(drafts: seq<seq<JournalLine>>): seq<JournalLine> {
    if drafts == [] then [] else Flat(drafts[..|drafts| - 1]) + drafts[|drafts| - 1]
  }

  lemma {:induction false} PostAllMovesBalance(ledger: Ledger, periodId: string, currency: string,
                                               drafts: seq<seq<JournalLine>>, code: string)
    requires Kept(ledger) && code in ledger.books.accounts
    requires forall i :: 0 <= i < |drafts| ==> CanPost(ledger, drafts[i])
    ensures var after, account := PostAll(ledger, periodId, currency, drafts), ledger.books.accounts[code];
            && Kept(after) && after.books.accounts == ledger.books.accounts
            && ClosingOf(after.books, periodId, account) ==
               ClosingOf(ledger.books, periodId, account) +
               ClosingBalanceFor(account.accountType, Net(Flat(drafts), code), 0)
  {
    hide Kept, Balanced, NetAt, Applied, ClosingOf;
    if drafts != [] {
      var init, last := drafts[..|drafts| - 1], drafts[|drafts| - 1];
      PostAllMovesBalance(ledger, periodId, currency, init, code);
      var before := PostAll(ledger, periodId, currency, init);
      assert CanPost(ledger, last);
      PostKeeps(before, periodId, currency, last);
      PostMovesBalance(before, periodId, currency, last, code);
      SumConcat(Flat(init), last, NetAt(code));
    }
  }

  /** Posting a payment and then its refund leaves every closing balance as it was. */
  lemma RefundRestoresBalances(ledger: Ledger, periodId: string, currency: string,
                               input: PostingRules.PostingInput, code: string)
    requires Kept(ledger) && code in ledger.books.accounts && PostingRules.Postable(input)
    requires Resolvable(PostingRules.PaymentLines(input), ledger.books.accounts)
    requires Resolvable(PostingRules.RefundLines(input), ledger.books.accounts)
    ensures var drafts := [PostingRules.PaymentLines(input), PostingRules.RefundLines(input)];
            ClosingOf(PostAll(ledger, periodId, currency, drafts).books, periodId, ledger.books.accounts[code]) ==
            ClosingOf(ledger.books, periodId, ledger.books.accounts[code])
  {
    hide PostingRules.PaymentLines, PostingRules.RefundLines, Kept, Net, Balanced, ClosingOf, PostAll, Resolvable;
    var payment, refund := PostingRules.PaymentLines(input), PostingRules.RefundLines(input);
    PostingRules.AcceptedBalances(input);
    PostAllMovesBalance(ledger, periodId, currency, [payment, refund], code);
    assert [payment, refund][..1] == [payment] && [payment][..0] == [];
    assert Flat([payment]) == payment;
    assert Flat([payment, refund]) == payment + refund;
    PostingRules.RefundUndoesPayment(input, code);
  }

  /** An escrow cycle posted in any order returns every account but cash and clearing. */
  lemma CycleRestoresBalances(ledger: Ledger, periodId: string, currency: string, drafts: seq<seq<JournalLine>>,
                              input: PostingRules.PostingInput, releases: seq<PostingRules.Part>,
                              payouts: seq<PostingRules.Part>, code: string)
    requires Kept(ledger) && code in ledger.books.accounts
    requires forall i :: 0 <= i < |drafts| ==> CanPost(ledger, drafts[i])
    requires multiset(Flat(drafts)) == multiset(PostingRules.Cycle(input, releases, payouts))
    requires input.amount > 0 && PostingRules.HintedRows(input.allocations) == []
    requires input.purpose in {"ORDER", "RIDE"}
    requires Sum(releases, PostingRules.PART_AMOUNT) == input.amount
    requires PostingRules.PaidAsReleased(releases, payouts)
    ensures code != PostingRules.PLATFORM_CASH && code != PostingRules.PAYOUT_CLEARING ==>
              ClosingOf(PostAll(ledger, periodId, currency, drafts).books, periodId, ledger.books.accounts[code]) ==
              ClosingOf(ledger.books, periodId, ledger.books.accounts[code])
  {
    hide Kept, Net, Balanced, ClosingOf, PostAll, Flat, CanPost, Sum;
    PostAllMovesBalance(ledger, periodId, currency, drafts, code);
    PostingRules.EscrowCycleCloses(input, releases, payouts, Flat(drafts));
    assert PostingRules.Closed(Flat(drafts), input.amount);
  }
}
