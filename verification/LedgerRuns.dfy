/** What holds over whole runs of the ledger: where every manual account's balance comes from,
    and that undoing an import leaves what would be there had it never happened. */
module LedgerRuns {
  import opened Wrappers
  import opened Sums
  import opened Ledger

  /** A refused step changes nothing. */
  ghost function Next(s: State, op: Op): State {
    match Apply(s, op)
    case Done(state) => state
    case Refused(_) => s
  }

  ghost function Run(s: State, ops: seq<Op>): State
    decreases |ops|
  {
    if ops == [] then s else Run(Next(s, ops[0]), ops[1..])
  }

  /** Every new row of the run gets an identifier nothing has at the time. */
  ghost predicate FreshRun(s: State, ops: seq<Op>)
    decreases |ops|
  {
    ops != [] ==> Fresh(s, ops[0]) && FreshRun(Next(s, ops[0]), ops[1..])
  }

  // ---- Where a balance comes from ----

  /** What of a balance its transactions and imports don't account for. */
  ghost function Base(s: State, account: Id): int
    requires account in s.accounts
  {
    s.accounts[account].balance - SumIn(s.transactions, account) - Sum(Beyond(s.imports, account))
  }

  /** How far an explicit edit of the balance moves it. */
  ghost function Edit(s: State, op: Op, account: Id): int {
    if op.SetBalance? && op.account == account && account in s.accounts && Apply(s, op).Done?
    then op.balance - s.accounts[account].balance
    else 0
  }

  ghost function Edits(s: State, ops: seq<Op>, account: Id): int
    decreases |ops|
  {
    if ops == [] then 0 else Edit(s, ops[0], account) + Edits(Next(s, ops[0]), ops[1..], account)
  }

  lemma SumWithReplaced(transactions: map<Id, Transaction>, id: Id, t: Transaction, account: Id)
    ensures SumIn(transactions[id := t], account)
      == SumIn(transactions, account) + (if t.account == account then t.amount else 0)
         - if id in transactions && transactions[id].account == account then transactions[id].amount else 0
  {
    var amount := if t.account == account then t.amount else 0;
    SumReplaced(AmountsIn(transactions, account), id, amount);
    assert AmountsIn(transactions[id := t], account) == AmountsIn(transactions, account)[id := amount];
  }

  lemma SumLessRemoved(transactions: map<Id, Transaction>, ids: set<Id>, account: Id)
    ensures SumIn(transactions - ids, account) == SumIn(transactions, account) - SumIn(Only(transactions, ids), account)
  {
    SumSplit(AmountsIn(transactions, account), ids);
    assert AmountsIn(transactions - ids, account) == AmountsIn(transactions, account) - ids;
    assert AmountsIn(Only(transactions, ids), account) == Only(AmountsIn(transactions, account), ids);
  }

  lemma {:induction false} SumOfAdded(rows: seq<Row>, account: Id, importId: Id, a: Id)
    requires DistinctIds(rows)
    ensures SumIn(Added(rows, account, importId), a) == if a == account then TotalOf(rows) else 0
  {
    if rows == [] {
      assert AmountsIn(map[], a) == map[];
    } else {
      var n := |rows| - 1;
      var before := Added(rows[..n], account, importId);
      SumOfAdded(rows[..n], account, importId, a);
      AddedRows(rows[..n], account, importId);
      SumWithReplaced(before, rows[n].id, Added(rows, account, importId)[rows[n].id], a);
    }
  }

  lemma SumInJoined(m: map<Id, Transaction>, n: map<Id, Transaction>, a: Id)
    requires m.Keys !! n.Keys
    ensures SumIn(m + n, a) == SumIn(m, a) + SumIn(n, a)
  {
    SumJoined(AmountsIn(m, a), AmountsIn(n, a));
    assert AmountsIn(m + n, a) == AmountsIn(m, a) + AmountsIn(n, a);
  }

  lemma SumWithAdded(s: State, rows: seq<Row>, account: Id, importId: Id, a: Id)
    requires DistinctIds(rows) && forall row :: row in rows ==> row.id !in s.transactions
    ensures SumIn(s.transactions + Added(rows, account, importId), a)
      == SumIn(s.transactions, a) + if a == account then TotalOf(rows) else 0
  {
    hide SumIn;
    var added := Added(rows, account, importId);
    AddedRows(rows, account, importId);
    SumOfAdded(rows, account, importId, a);
    SumInJoined(s.transactions, added, a);
  }

  lemma BeyondWith(imports: map<Id, Import>, i: Id, record: Import, account: Id)
    requires i !in imports
    ensures Sum(Beyond(imports[i := record], account))
      == Sum(Beyond(imports, account)) + if record.account == account then record.change - record.total else 0
  {
    var beyond := if record.account == account then record.change - record.total else 0;
    SumReplaced(Beyond(imports, account), i, beyond);
    assert Beyond(imports[i := record], account) == Beyond(imports, account)[i := beyond];
  }

  lemma BeyondWithout(imports: map<Id, Import>, i: Id, account: Id)
    requires i in imports
    ensures Sum(Beyond(imports - {i}, account)) == Sum(Beyond(imports, account)) + PutBack(imports[i], account)
  {
    SumWithout(Beyond(imports, account), i);
    assert Beyond(imports - {i}, account) == Beyond(imports, account) - {i};
  }

  ghost predicate KeepsBase(s: State, op: Op, account: Id)
    requires account in s.accounts
  {
    var s' := Next(s, op);
    && s'.accounts.Keys == s.accounts.Keys && s'.accounts[account].source == s.accounts[account].source
    && (s.accounts[account].source.Linked? ==> s'.accounts[account].balance == s.accounts[account].balance)
    && (s.accounts[account].source.Manual? ==> Base(s', account) == Base(s, account) + Edit(s, op, account))
  }

  lemma ImportKeepsBase(s: State, op: Op, account: Id)
    requires op.ImportFile? && Fresh(s, op) && account in s.accounts && Apply(s, op).Done?
    ensures KeepsBase(s, op, account)
  {
    hide SumIn, Beyond, Added, TotalOf;
    SumWithAdded(s, op.rows, op.account, op.importId, account);
    BeyondWith(s.imports, op.importId, Next(s, op).imports[op.importId], account);
  }

  lemma UndoKeepsBase(s: State, importId: Id, account: Id)
    requires account in s.accounts && importId in s.imports
    ensures KeepsBase(s, Undo(importId), account)
  {
    RowsAreOnly(s.transactions, importId);
    hide SumIn, Beyond, RowsOf;
    SumLessRemoved(s.transactions, RowsOf(s.transactions, importId).Keys, account);
    BeyondWithout(s.imports, importId, account);
  }

  lemma UpdateKeepsBase(s: State, op: Op, account: Id)
    requires Valid(s) && op.Update? && account in s.accounts && Apply(s, op).Done?
    ensures KeepsBase(s, op, account)
  {
    hide SumIn, Beyond;
    SumWithReplaced(s.transactions, op.id, Updated(s.transactions[op.id], op.toAccount, op.toDate, op.toAmount),
      account);
  }

  /** One step: a linked account's balance stays the bank's, and what a manual account's balance
      has beyond its transactions and imports changes only by an explicit edit. */
  lemma StepKeepsBase(s: State, op: Op, account: Id)
    requires Valid(s) && Fresh(s, op) && account in s.accounts
    ensures var s' := Next(s, op);
      && s'.accounts.Keys == s.accounts.Keys && s'.accounts[account].source == s.accounts[account].source
      && (s.accounts[account].source.Linked? ==> s'.accounts[account].balance == s.accounts[account].balance)
      && (s.accounts[account].source.Manual? ==> Base(s', account) == Base(s, account) + Edit(s, op, account))
  {
    hide SumIn, Beyond, Valid;
    if Apply(s, op).Done? {
      match op
      case Create(id, to, date, amount) =>
        SumWithReplaced(s.transactions, id, Transaction(to, date, amount, false, None), account);
      case Update(_, _, _, _) => UpdateKeepsBase(s, op, account);
      case Remove(ids) => SumLessRemoved(s.transactions, ids, account);
      case ImportFile(_, _, _, _) => ImportKeepsBase(s, op, account);
      case Undo(importId) => UndoKeepsBase(s, importId, account);
      case SetBalance(_, _) =>
      case SetClosed(_, _) =>
    }
  }

  lemma NextIsValid(s: State, op: Op)
    requires Valid(s) && Fresh(s, op)
    ensures Valid(Next(s, op))
  {
    if Apply(s, op).Done? {
      ApplyKeepsValid(s, op);
    }
  }

  /** Over a whole run, whatever it does: a manual account's balance is what it had to begin with
      beyond transactions and imports, plus its explicit edits, plus its transactions now, plus
      what its imports still in effect moved it beyond their own rows. A linked account's never moves. */
  lemma {:induction false} BalanceOverRuns(s: State, ops: seq<Op>, account: Id)
    requires Valid(s) && FreshRun(s, ops) && account in s.accounts
    ensures var end := Run(s, ops);
      && Valid(end) && account in end.accounts && end.accounts[account].source == s.accounts[account].source
      && (s.accounts[account].source.Linked? ==> end.accounts[account].balance == s.accounts[account].balance)
      && (s.accounts[account].source.Manual? ==>
            end.accounts[account].balance
            == Base(s, account) + Edits(s, ops, account)
               + SumIn(end.transactions, account) + Sum(Beyond(end.imports, account)))
    decreases |ops|
  {
    hide SumIn, Beyond, Apply, Valid, Fresh;
    if ops != [] {
      StepKeepsBase(s, ops[0], account);
      NextIsValid(s, ops[0]);
      BalanceOverRuns(Next(s, ops[0]), ops[1..], account);
    }
  }

  // ---- Each step, by what the tables say ----

  /** Every manual account's balance moves just as far as the sum of its transactions does, and
      nothing else of any account changes. */
  ghost predicate FollowTransactions(s: State, s': State) {
    && s'.accounts.Keys == s.accounts.Keys
    && forall a: Id :: a in s.accounts ==>
      s'.accounts[a] == s.accounts[a].(
        balance := s.accounts[a].balance + if s.accounts[a].source.Linked? then 0
          else SumIn(s'.transactions, a) - SumIn(s.transactions, a))
  }

  /** A transaction is created in an account that is there, kept by hand and open, and in no other. */
  lemma CreateIsExactly(s: State, id: Id, account: Id, date: int, amount: int)
    requires id !in s.transactions
    ensures var outcome := Apply(s, Create(id, account, date, amount));
      if account !in s.accounts then outcome == Refused(UnknownAccount)
      else if s.accounts[account].source.Linked? then outcome == Refused(LinkedAccount)
      else if s.accounts[account].closed then outcome == Refused(AccountClosed)
      else
        && outcome.Done? && FollowTransactions(s, outcome.state) && outcome.state.imports == s.imports
        && outcome.state.transactions == s.transactions[id := Transaction(account, date, amount, false, None)]
  {
    hide SumIn;
    forall a: Id {
      SumWithReplaced(s.transactions, id, Transaction(account, date, amount, false, None), a);
    }
  }

  /** A transaction a bank keeps up to date, in an account still linked, keeps its account, day and amount;
      any other can change them, and go to any account that can be written to. */
  lemma UpdateIsExactly(s: State, id: Id, toAccount: Option<Id>, toDate: Option<int>, toAmount: Option<int>)
    requires Valid(s)
    ensures var outcome := Apply(s, Update(id, toAccount, toDate, toAmount));
      if id !in s.transactions then outcome == Refused(NotFound)
      else
        var t := s.transactions[id];
        var moves := toAccount.Some? && toAccount.value != t.account;
        if t.fromBank && s.accounts[t.account].source.Linked?
           && (moves || (toDate.Some? && toDate.value != t.date) || (toAmount.Some? && toAmount.value != t.amount))
        then outcome == Refused(FromBank)
        else if moves && toAccount.value !in s.accounts then outcome == Refused(UnknownAccount)
        else if moves && s.accounts[toAccount.value].source.Linked? then outcome == Refused(LinkedAccount)
        else if moves && s.accounts[toAccount.value].closed then outcome == Refused(AccountClosed)
        else
          outcome.Done? && id in outcome.state.transactions && var t' := outcome.state.transactions[id];
          && outcome.state.transactions == s.transactions[id := t'] && outcome.state.imports == s.imports
          && FollowTransactions(s, outcome.state)
          && t'.account == (if toAccount.Some? then toAccount.value else t.account)
          && t'.date == (if toDate.Some? then toDate.value else t.date)
          && t'.amount == (if toAmount.Some? then toAmount.value else t.amount)
          && t'.fromBank == t.fromBank && t'.importId == t.importId
  {
    hide SumIn;
    if id in s.transactions {
      var t' := Updated(s.transactions[id], toAccount, toDate, toAmount);
      forall a: Id {
        SumWithReplaced(s.transactions, id, t', a);
      }
    }
  }

  /** Removing transactions takes just those out, and their amounts with them. */
  lemma RemoveIsExactly(s: State, ids: set<Id>)
    ensures var outcome := Apply(s, Remove(ids));
      && outcome.Done? && FollowTransactions(s, outcome.state)
      && outcome.state.transactions == s.transactions - ids && outcome.state.imports == s.imports
  {
    hide SumIn, Only;
    forall a: Id {
      SumLessRemoved(s.transactions, ids, a);
    }
  }

  /** Why an import is refused, and that it isn't otherwise. */
  lemma ImportIsRefusedExactly(s: State, importId: Id, account: Id, rows: seq<Row>, choice: BalanceChoice)
    ensures var outcome := Apply(s, ImportFile(importId, account, rows, choice));
      if account !in s.accounts then outcome == Refused(UnknownAccount)
      else if s.accounts[account].closed then outcome == Refused(AccountClosed)
      else if rows == [] then outcome == Refused(NothingToImport)
      else if s.accounts[account].source.Linked? && choice != Keep then outcome == Refused(BankBalance)
      else if choice == File(None) then outcome == Refused(NoClosingBalance)
      else outcome.Done?
  {
    hide TotalOf, Added;
  }

  /** An import that isn't refused, and what it leaves. */
  lemma ImportParts(s: State, op: Op)
    requires op.ImportFile? && Apply(s, op).Done?
    ensures op.account in s.accounts && BalanceProblem(s.accounts[op.account], op.choice).None?
    ensures var account, total := s.accounts[op.account], TotalOf(op.rows);
      var change := BalanceChange(account, op.choice, total);
      && Next(s, op).accounts == s.accounts[op.account := account.(balance := account.balance + change)]
      && Next(s, op).imports == s.imports[op.importId := Import(op.account, total, change)]
      && Next(s, op).transactions == s.transactions + Added(op.rows, op.account, op.importId)
  {
    hide TotalOf, Added;
  }

  lemma {:induction false} AddedRow(rows: seq<Row>, account: Id, importId: Id, i: nat)
    requires i < |rows| && DistinctIds(rows)
    ensures var added := Added(rows, account, importId);
      rows[i].id in added
      && added[rows[i].id] == Transaction(account, rows[i].date, rows[i].amount, false, Some(importId))
  {
    var n := |rows| - 1;
    if i < n {
      AddedRow(rows[..n], account, importId, i);
    }
  }

  /** An import adds its rows to its account and touches no other transaction. */
  lemma ImportAddsItsRows(s: State, op: Op)
    requires op.ImportFile? && Fresh(s, op) && Apply(s, op).Done?
    ensures var after := Apply(s, op).state.transactions;
      && after.Keys == s.transactions.Keys + (set row | row in op.rows :: row.id)
      && (forall id :: id in s.transactions ==> after[id] == s.transactions[id])
      && forall row :: row in op.rows ==>
        after[row.id] == Transaction(op.account, row.date, row.amount, false, Some(op.importId))
  {
    hide TotalOf, Added;
    ImportParts(s, op);
    AddedRows(op.rows, op.account, op.importId);
    forall row | row in op.rows
      ensures Next(s, op).transactions[row.id] ==
        Transaction(op.account, row.date, row.amount, false, Some(op.importId))
    {
      var i :| 0 <= i < |op.rows| && op.rows[i] == row;
      AddedRow(op.rows, op.account, op.importId, i);
    }
  }

  /** What importing leaves of the balance: as it was when kept; the file's, on a manual account;
      or, on a manual account, moved just as far as the sum of its transactions moved. */
  lemma ImportMovesTheBalance(s: State, op: Op)
    requires op.ImportFile? && Fresh(s, op) && Apply(s, op).Done?
    ensures var s', a := Apply(s, op).state, op.account;
      && a in s.accounts && op.importId in s'.imports && s'.accounts.Keys == s.accounts.Keys
      && (forall other :: other in s.accounts && other != a ==> s'.accounts[other] == s.accounts[other])
      && var account, account' := s.accounts[a], s'.accounts[a];
      && var imported := SumIn(s'.transactions, a) - SumIn(s.transactions, a);
      && account' == account.(balance := account'.balance)
      && (op.choice.Keep? ==> account'.balance == account.balance)
      && (op.choice.File? ==>
        account.source.Manual? && op.choice.closing == Some(account'.balance))
      && (op.choice.Move? ==>
        account.source.Manual? && account'.balance == account.balance + imported)
      && s'.imports[op.importId] == Import(a, imported, account'.balance - account.balance)
  {
    hide SumIn, Added, TotalOf;
    ImportParts(s, op);
    SumWithAdded(s, op.rows, op.account, op.importId, op.account);
  }

  /** Undoing an import takes out the transactions it made, wherever they are, and puts back on its own
      account what it changed the balance by beyond its rows' total. */
  lemma UndoIsExactly(s: State, importId: Id)
    ensures var outcome := Apply(s, Undo(importId));
      if importId !in s.imports then outcome == Refused(NotFound)
      else
        var record := s.imports[importId];
        && outcome.Done? && outcome.state.imports == s.imports - {importId}
        && (forall id :: id in outcome.state.transactions <==>
          id in s.transactions && s.transactions[id].importId != Some(importId))
        && (forall id :: id in outcome.state.transactions ==> outcome.state.transactions[id] == s.transactions[id])
        && outcome.state.accounts.Keys == s.accounts.Keys
        && forall a: Id :: a in s.accounts ==>
          var before, after := s.accounts[a], outcome.state.accounts[a];
          var over := if a == record.account then record.total - record.change else 0;
          && after == before.(balance := after.balance)
          && (before.source.Linked? ==> after.balance == before.balance)
          && (before.source.Manual? ==>
            after.balance - before.balance ==
            SumIn(outcome.state.transactions, a) - SumIn(s.transactions, a) + over)
  {
    hide SumIn;
    RowsAreOnly(s.transactions, importId);
    forall a: Id {
      SumLessRemoved(s.transactions, RowsOf(s.transactions, importId).Keys, a);
    }
  }

  /** A balance is set and an account closed or opened on an account there is; a linked one's balance is
      the bank's, and only setting it to what it is goes through. Nothing else changes. */
  lemma SettingIsExactly(s: State, account: Id, balance: int, closed: bool)
    ensures account !in s.accounts ==>
      Apply(s, SetBalance(account, balance)) == Apply(s, SetClosed(account, closed)) == Refused(NotFound)
    ensures account in s.accounts ==>
      var before := s.accounts[account];
      && Apply(s, SetClosed(account, closed)) ==
        Done(State(s.accounts[account := Account(before.source, closed, before.balance)], s.transactions, s.imports))
      && Apply(s, SetBalance(account, balance)) ==
        if before.source.Linked? && before.balance != balance then Refused(LinkedAccount)
        else
          Done(State(s.accounts[account := Account(before.source, before.closed, balance)], s.transactions, s.imports))
  {
  }

  // ---- A run with an import and the same run without it ----

  function Others(transactions: map<Id, Transaction>, importId: Id): map<Id, Transaction> {
    map id | id in transactions && !IsOf(transactions[id], importId) :: transactions[id]
  }

  /** A step of the run with the import, as the run without it has it: steps on the import's own
      rows drop out, and removing several leaves those out. */
  function Dropped(s: State, op: Op, importId: Id): seq<Op> {
    match op
    case Update(id, _, _, _) => if id in s.transactions && IsOf(s.transactions[id], importId) then [] else [op]
    case Remove(ids) => [Remove(ids - RowsOf(s.transactions, importId).Keys)]
    case _ => [op]
  }

  /** Where the run without the import gets to from `t`, while the run with it goes on from `s`. */
  ghost function RunWithout(s: State, t: State, ops: seq<Op>, importId: Id): State
    decreases |ops|
  {
    if ops == [] then t
    else RunWithout(Next(s, ops[0]), Run(t, Dropped(s, ops[0], importId)), ops[1..], importId)
  }

  /** The import isn't undone or imported again by these steps. */
  predicate LeavesImport(ops: seq<Op>, importId: Id) {
    forall i :: 0 <= i < |ops| ==> ops[i] != Undo(importId) && !(ops[i].ImportFile? && ops[i].importId == importId)
  }

  predicate SetsBalance(op: Op, account: Id) {
    (op.SetBalance? && op.account == account) || (op.ImportFile? && op.account == account && op.choice.File?)
  }

  /** Nothing sets an account's balance outright: no edit of it, and no import that takes the file's. */
  predicate SetsNoBalance(ops: seq<Op>, account: Id) {
    forall i :: 0 <= i < |ops| ==> !SetsBalance(ops[i], account)
  }

  /** The same import, whatever it changed the balance by. */
  ghost predicate Alike(a: Import, b: Import) {
    a.account == b.account && a.total == b.total
  }

  ghost predicate SameAccount(a: Account, b: Account) {
    a.source == b.source && a.closed == b.closed && (a.source.Linked? ==> a.balance == b.balance)
  }

  /** `t` is `s` without the import and its rows, balances aside. */
  ghost predicate Twin(s: State, t: State, importId: Id) {
    && t.transactions == Others(s.transactions, importId)
    && t.imports.Keys == s.imports.Keys - {importId}
    && (forall i :: i in t.imports ==> Alike(t.imports[i], s.imports[i]))
    && t.accounts.Keys == s.accounts.Keys
    && (forall a: Id :: a in t.accounts ==> SameAccount(t.accounts[a], s.accounts[a]))
  }

  /** Accepted in both, or refused in both for the same reason. */
  ghost predicate SameAnswer(a: Outcome, b: Outcome) {
    a.Done? == b.Done? && (a.Refused? ==> a.problem == b.problem)
  }

  /** Every step both runs take, they answer alike. */
  ghost predicate AnswersAlike(s: State, t: State, ops: seq<Op>, importId: Id)
    decreases |ops|
  {
    ops != [] ==>
      var dropped := Dropped(s, ops[0], importId);
      && (dropped != [] ==> SameAnswer(Apply(s, ops[0]), Apply(t, dropped[0])))
      && AnswersAlike(Next(s, ops[0]), Run(t, dropped), ops[1..], importId)
  }

  lemma RunOne(t: State, op: Op)
    ensures Run(t, [op]) == Next(t, op)
    ensures FreshRun(t, [op]) <==> Fresh(t, op)
    ensures forall account :: Edits(t, [op], account) == Edit(t, op, account)
  {
    assert [op][1..] == [];
  }

  lemma TwinCreate(s: State, t: State, op: Op, importId: Id)
    requires op.Create? && Fresh(s, op) && Twin(s, t, importId)
    ensures Fresh(t, op) && Twin(Next(s, op), Next(t, op), importId) && SameAnswer(Apply(s, op), Apply(t, op))
  {
    var created := Transaction(op.account, op.date, op.amount, false, None);
    assert Others(s.transactions[op.id := created], importId) == Others(s.transactions, importId)[op.id := created];
  }

  lemma SameUpdateProblem(s: State, t: State, id: Id, toAccount: Option<Id>, toDate: Option<int>,
        toAmount: Option<int>, importId: Id)
    requires Twin(s, t, importId) && id in t.transactions
    ensures UpdateProblem(t, id, toAccount, toDate, toAmount) == UpdateProblem(s, id, toAccount, toDate, toAmount)
  {
  }

  lemma MovedTwins(s: map<Id, Account>, t: map<Id, Account>, f: Id -> int, g: Id -> int)
    requires t.Keys == s.Keys && forall a: Id :: a in t ==> SameAccount(t[a], s[a])
    ensures MoveAll(t, g).Keys == MoveAll(s, f).Keys
    ensures forall a: Id :: a in MoveAll(t, g) ==> SameAccount(MoveAll(t, g)[a], MoveAll(s, f)[a])
  {
  }

  lemma TwinUpdate(s: State, t: State, op: Op, importId: Id)
    requires op.Update? && Twin(s, t, importId)
    requires !(op.id in s.transactions && IsOf(s.transactions[op.id], importId))
    ensures Twin(Next(s, op), Next(t, op), importId) && SameAnswer(Apply(s, op), Apply(t, op))
  {
    if op.id in s.transactions {
      var before := s.transactions[op.id];
      SameUpdateProblem(s, t, op.id, op.toAccount, op.toDate, op.toAmount, importId);
      var updated := Updated(before, op.toAccount, op.toDate, op.toAmount);
      assert Others(s.transactions[op.id := updated], importId) == Others(s.transactions, importId)[op.id := updated];
      MovedTwins(s.accounts, t.accounts, a => Replacing(before, updated, a), a => Replacing(before, updated, a));
    }
  }

  lemma TwinDropped(s: State, t: State, op: Op, importId: Id)
    requires op.Update? && Twin(s, t, importId)
    requires op.id in s.transactions && IsOf(s.transactions[op.id], importId)
    ensures Twin(Next(s, op), t, importId)
  {
    var before := s.transactions[op.id];
    var updated := Updated(before, op.toAccount, op.toDate, op.toAmount);
    assert Others(s.transactions[op.id := updated], importId) == Others(s.transactions, importId);
    MovedTwins(s.accounts, t.accounts, a => Replacing(before, updated, a), a => 0);
    assert forall a: Id :: a in t.accounts ==> MoveAll(t.accounts, a => 0)[a] == t.accounts[a];
  }

  lemma TwinRemove(s: State, t: State, ids: set<Id>, importId: Id)
    requires Twin(s, t, importId)
    ensures Twin(Next(s, Remove(ids)), Next(t, Remove(ids - RowsOf(s.transactions, importId).Keys)), importId)
  {
    hide SumIn;
    var kept := ids - RowsOf(s.transactions, importId).Keys;
    assert Others(s.transactions - ids, importId) == Others(s.transactions, importId) - kept;
    MovedTwins(s.accounts, t.accounts, a => -SumIn(Only(s.transactions, ids), a), a => -SumIn(Only(t.transactions,
      kept), a));
  }

  lemma ImportedInto(a: Account, b: Account, choice: BalanceChoice, total: int)
    requires SameAccount(b, a) && BalanceProblem(a, choice).None? && BalanceProblem(b, choice).None?
    ensures var a', b' := a.balance + BalanceChange(a, choice, total), b.balance + BalanceChange(b, choice, total);
      SameAccount(b.(balance := b'), a.(balance := a'))
  {
  }

  lemma SameImportProblem(s: State, t: State, op: Op, importId: Id)
    requires op.ImportFile? && Twin(s, t, importId)
    ensures var problem := ImportProblem(s, op.account, op.rows, op.choice);
      && ImportProblem(t, op.account, op.rows, op.choice) == problem
      && (problem.None? ==> op.account in s.accounts && BalanceProblem(s.accounts[op.account], op.choice).None?)
      && (problem.None? ==> BalanceProblem(t.accounts[op.account], op.choice).None?)
  {
  }

  lemma SameImportAnswer(s: State, t: State, op: Op, importId: Id)
    requires op.ImportFile? && Twin(s, t, importId)
    ensures SameAnswer(Apply(s, op), Apply(t, op))
    ensures Apply(s, op).Refused? ==> Next(s, op) == s && Next(t, op) == t
  {
    hide TotalOf, Added, ImportProblem;
    SameImportProblem(s, t, op, importId);
  }

  lemma OthersAreFewer(transactions: map<Id, Transaction>, importId: Id)
    ensures Others(transactions, importId).Keys <= transactions.Keys
  {
  }

  lemma OthersWithAdded(transactions: map<Id, Transaction>, added: map<Id, Transaction>, importId: Id)
    requires forall id :: id in added ==> !IsOf(added[id], importId)
    requires transactions.Keys !! added.Keys
    ensures Others(transactions + added, importId) == Others(transactions, importId) + added
  {
  }

  lemma TwinWith(s: State, t: State, importId: Id, account: Id, a: Account, b: Account,
        added: map<Id, Transaction>, i: Id, x: Import, y: Import)
    requires Twin(s, t, importId) && account in s.accounts && SameAccount(b, a) && i != importId && Alike(y, x)
    requires Others(s.transactions + added, importId) == Others(s.transactions, importId) + added
    ensures Twin(State(s.accounts[account := a], s.transactions + added, s.imports[i := x]),
      State(t.accounts[account := b], t.transactions + added, t.imports[i := y]), importId)
  {
    hide Others;
  }

  lemma FreshInTwin(s: State, t: State, op: Op, importId: Id)
    requires op.ImportFile? && Fresh(s, op) && Twin(s, t, importId)
    ensures Fresh(t, op)
    ensures op.account in s.accounts ==>
      op.account in t.accounts && SameAccount(t.accounts[op.account], s.accounts[op.account])
  {
    hide DistinctIds;
    OthersAreFewer(s.transactions, importId);
  }

  lemma TwinImport(s: State, t: State, op: Op, importId: Id)
    requires op.ImportFile? && op.importId != importId && Fresh(s, op) && Twin(s, t, importId)
    ensures Fresh(t, op) && Twin(Next(s, op), Next(t, op), importId) && SameAnswer(Apply(s, op), Apply(t, op))
  {
    hide TotalOf, Added, Others, Apply, Next, BalanceChange, BalanceProblem;
    var added := Added(op.rows, op.account, op.importId);
    AddedRows(op.rows, op.account, op.importId);
    OthersWithAdded(s.transactions, added, importId);
    SameImportAnswer(s, t, op, importId);
    FreshInTwin(s, t, op, importId);
    hide IsOf, DistinctIds, Fresh, Twin;
    if Apply(s, op).Done? {
      ImportParts(s, op);
      ImportParts(t, op);
      var a, b, total := s.accounts[op.account], t.accounts[op.account], TotalOf(op.rows);
      ImportedInto(a, b, op.choice, total);
      TwinWith(s, t, importId, op.account, Next(s, op).accounts[op.account], Next(t, op).accounts[op.account],
        added, op.importId, Next(s, op).imports[op.importId], Next(t, op).imports[op.importId]);
    }
  }

  lemma TwinUndo(s: State, t: State, other: Id, importId: Id)
    requires other != importId && Twin(s, t, importId)
    ensures Twin(Next(s, Undo(other)), Next(t, Undo(other)), importId) &&
        SameAnswer(Apply(s, Undo(other)), Apply(t, Undo(other)))
  {
    hide SumIn;
    if other in s.imports {
      var rows := RowsOf(s.transactions, other);
      assert rows == RowsOf(t.transactions, other);
      assert Others(s.transactions - rows.Keys, importId) == Others(s.transactions, importId) - rows.Keys;
      MovedTwins(s.accounts, t.accounts,
        a => PutBack(s.imports[other], a) - SumIn(rows, a), a => PutBack(t.imports[other], a) - SumIn(rows, a));
    }
  }

  lemma TwinSet(s: State, t: State, op: Op, importId: Id)
    requires (op.SetBalance? || op.SetClosed?) && Twin(s, t, importId)
    ensures Twin(Next(s, op), Next(t, op), importId) && SameAnswer(Apply(s, op), Apply(t, op))
  {
  }

  lemma ImportStays(s: State, op: Op, importId: Id)
    requires importId in s.imports && op != Undo(importId)
    ensures importId in Next(s, op).imports
  {
  }

  /** Each step keeps the two runs alike. */
  lemma TwinStep(s: State, t: State, op: Op, importId: Id)
    requires Fresh(s, op) && Twin(s, t, importId) && importId in s.imports
    requires op != Undo(importId) && !(op.ImportFile? && op.importId == importId)
    ensures FreshRun(t, Dropped(s, op, importId))
    ensures Twin(Next(s, op), Run(t, Dropped(s, op, importId)), importId)
    ensures importId in Next(s, op).imports
    ensures Dropped(s, op, importId) != [] ==> SameAnswer(Apply(s, op), Apply(t, Dropped(s, op, importId)[0]))
  {
    hide Twin, SumIn;
    RunOne(t, op);
    ImportStays(s, op, importId);
    match op
    case Create(_, _, _, _) => TwinCreate(s, t, op, importId);
    case Update(id, _, _, _) =>
      if id in s.transactions && IsOf(s.transactions[id], importId) {
        TwinDropped(s, t, op, importId);
      } else {
        TwinUpdate(s, t, op, importId);
      }
    case Remove(ids) =>
      TwinRemove(s, t, ids, importId);
      RunOne(t, Remove(ids - RowsOf(s.transactions, importId).Keys));
    case ImportFile(_, _, _, _) => TwinImport(s, t, op, importId);
    case Undo(other) => TwinUndo(s, t, other, importId);
    case SetBalance(_, _) => TwinSet(s, t, op, importId);
    case SetClosed(_, _) => TwinSet(s, t, op, importId);
  }

  lemma {:induction false} RunIsValid(s: State, ops: seq<Op>)
    requires Valid(s) && FreshRun(s, ops)
    ensures Valid(Run(s, ops))
    decreases |ops|
  {
    hide Valid, Apply, Fresh;
    if ops != [] {
      NextIsValid(s, ops[0]);
      RunIsValid(Next(s, ops[0]), ops[1..]);
    }
  }

  lemma {:induction false} TwinRuns(s: State, t: State, ops: seq<Op>, importId: Id)
    requires Valid(s) && Valid(t) && FreshRun(s, ops) && Twin(s, t, importId) && importId in s.imports
    requires LeavesImport(ops, importId)
    ensures Twin(Run(s, ops), RunWithout(s, t, ops, importId), importId)
    ensures Valid(Run(s, ops)) && Valid(RunWithout(s, t, ops, importId))
    ensures importId in Run(s, ops).imports
    ensures AnswersAlike(s, t, ops, importId)
    decreases |ops|
  {
    hide Twin, Valid, Apply, Fresh, Dropped, SameAnswer;
    if ops != [] {
      var t' := Run(t, Dropped(s, ops[0], importId));
      TwinStep(s, t, ops[0], importId);
      NextIsValid(s, ops[0]);
      RunIsValid(t, Dropped(s, ops[0], importId));
      TwinRuns(Next(s, ops[0]), t', ops[1..], importId);
    }
  }

  // ---- What undoing would take out, and what of that is gone already ----

  /** What undoing an import now would take off an account's balance. */
  ghost function InEffect(s: State, importId: Id, account: Id): int {
    SumIn(RowsOf(s.transactions, importId), account)
    - if importId in s.imports then PutBack(s.imports[importId], account) else 0
  }

  /** Of what undoing would take off, `lost` is what setting the balance outright has overwritten,
      and `restores` how much each import that took its file's balance overwrote: undoing that one
      brings it back. */
  datatype Overwritten = Overwritten(lost: int, restores: map<Id, int>)

  const NOTHING_YET := Overwritten(0, map[])

  /** What one step of the run overwrites. Only that run itself is looked at. */
  ghost function Overwriting(s: State, o: Overwritten, op: Op, importId: Id, account: Id): Overwritten {
    if Apply(s, op).Refused? then o
    else
      var now := InEffect(s, importId, account);
      match op
      case SetBalance(a, _) => if a == account then o.(lost := now) else o
      case ImportFile(other, a, _, choice) =>
        if a == account && choice.File? then Overwritten(now, o.restores[other := now - o.lost]) else o
      case Undo(other) => if other in o.restores
        then Overwritten(o.lost - o.restores[other], o.restores - {other}) else o
      case _ => o
  }

  ghost function OverRun(s: State, o: Overwritten, ops: seq<Op>, importId: Id, account: Id): Overwritten
    decreases |ops|
  {
    if ops == [] then o
    else OverRun(Next(s, ops[0]), Overwriting(s, o, ops[0], importId, account), ops[1..], importId, account)
  }

  ghost predicate ChangesApart(a: map<Id, Import>, b: map<Id, Import>, restores: map<Id, int>, account: Id) {
    && (forall i :: i in restores ==> i in b && b[i].account == account)
    && (forall i :: i in b && b[i].account == account ==>
          i in a && a[i].change == b[i].change - if i in restores then restores[i] else 0)
  }

  /** How far a manual account's balance is from the run without the import, and its imports' changes. */
  ghost predicate Apart(s: State, t: State, o: Overwritten, importId: Id, account: Id) {
    && account in s.accounts && account in t.accounts
    && s.accounts[account].balance - t.accounts[account].balance == InEffect(s, importId, account) - o.lost
    && ChangesApart(s.imports, t.imports, o.restores, account)
  }

  lemma SameRows(transactions: map<Id, Transaction>, after: map<Id, Transaction>, importId: Id)
    requires forall id :: id in transactions && IsOf(transactions[id], importId) <==>
        id in after && IsOf(after[id], importId)
    requires forall id :: id in transactions && IsOf(transactions[id], importId) ==> after[id] == transactions[id]
    ensures RowsOf(after, importId) == RowsOf(transactions, importId)
  {
  }

  lemma ApartCreate(s: State, t: State, o: Overwritten, op: Op, importId: Id, account: Id)
    requires op.Create? && Fresh(s, op) && Twin(s, t, importId) && Apart(s, t, o, importId, account)
    ensures Apart(Next(s, op), Next(t, op), o, importId, account)
  {
    hide SumIn;
    SameRows(s.transactions, s.transactions[op.id := Transaction(op.account, op.date, op.amount, false, None)],
      importId);
  }

  lemma ApartUpdate(s: State, t: State, o: Overwritten, op: Op, importId: Id, account: Id)
    requires op.Update? && Twin(s, t, importId) && Apart(s, t, o, importId, account) &&
        s.accounts[account].source.Manual?
    requires !(op.id in s.transactions && IsOf(s.transactions[op.id], importId))
    ensures Apart(Next(s, op), Next(t, op), o, importId, account)
  {
    hide SumIn;
    if op.id in s.transactions {
      SameUpdateProblem(s, t, op.id, op.toAccount, op.toDate, op.toAmount, importId);
      var updated := Updated(s.transactions[op.id], op.toAccount, op.toDate, op.toAmount);
      SameRows(s.transactions, s.transactions[op.id := updated], importId);
    }
  }

  /** Changing a row of the import changes what undoing would take off as it changes the balance. */
  lemma ApartOwnUpdate(s: State, t: State, o: Overwritten, op: Op, importId: Id, account: Id)
    requires op.Update? && Apart(s, t, o, importId, account) && s.accounts[account].source.Manual?
    requires op.id in s.transactions && IsOf(s.transactions[op.id], importId)
    ensures Apart(Next(s, op), t, o, importId, account)
  {
    hide SumIn;
    var updated := Updated(s.transactions[op.id], op.toAccount, op.toDate, op.toAmount);
    SumWithReplaced(RowsOf(s.transactions, importId), op.id, updated, account);
    assert RowsOf(s.transactions[op.id := updated], importId) == RowsOf(s.transactions, importId)[op.id := updated];
  }

  /** What removing takes of the import, and of everything else. */
  lemma RemovedRows(transactions: map<Id, Transaction>, ids: set<Id>, importId: Id)
    ensures var rows, taken := RowsOf(transactions, importId), Only(transactions, ids);
      && Only(taken, rows.Keys) == Only(rows, ids)
      && taken - rows.Keys == Only(Others(transactions, importId), ids - rows.Keys)
      && RowsOf(transactions - ids, importId) == rows - ids
  {
  }

  /** So does removing some of its rows. */
  lemma ApartRemove(s: State, t: State, o: Overwritten, ids: set<Id>, importId: Id, account: Id)
    requires Twin(s, t, importId) && Apart(s, t, o, importId, account) && s.accounts[account].source.Manual?
    ensures Apart(Next(s, Remove(ids)), Next(t, Remove(ids - RowsOf(s.transactions, importId).Keys)), o, importId,
        account)
  {
    var rows := RowsOf(s.transactions, importId);
    SumLessRemoved(Only(s.transactions, ids), rows.Keys, account);
    SumLessRemoved(rows, ids, account);
    RemovedRows(s.transactions, ids, importId);
    hide SumIn, RowsOf, Others, IsOf, Only;
  }

  lemma ImportedElsewhere(s: State, op: Op, importId: Id, account: Id)
    requires op.ImportFile? && op.importId != importId && Fresh(s, op) && Apply(s, op).Done?
    ensures InEffect(Next(s, op), importId, account) == InEffect(s, importId, account)
  {
    ImportParts(s, op);
    AddedRows(op.rows, op.account, op.importId);
    SameRows(s.transactions, s.transactions + Added(op.rows, op.account, op.importId), importId);
    hide SumIn, TotalOf, Added, RowsOf, IsOf, Next, Apply, DistinctIds;
  }

  /** An import of the same file into both: what it makes of their balances, and records of them. */
  lemma ImportedAlike(a: Account, b: Account, choice: BalanceChoice, total: int)
    requires BalanceProblem(a, choice).None? && BalanceProblem(b, choice).None?
    ensures var x, y := BalanceChange(a, choice, total), BalanceChange(b, choice, total);
      if choice.File? then a.balance + x == b.balance + y else x == y
  {
  }

  lemma OneMoreImport(a: map<Id, Import>, b: map<Id, Import>, restores: map<Id, int>, account: Id,
        i: Id, x: Import, y: Import)
    requires ChangesApart(a, b, restores, account) && i !in a && i !in b && x.account == y.account
    ensures x.account != account || x.change == y.change ==> ChangesApart(a[i := x], b[i := y], restores, account)
    ensures x.account == account ==> ChangesApart(a[i := x], b[i := y], restores[i := y.change - x.change], account)
  {
  }

  /** What an import does to a balance in both runs, and what it overwrites. */
  lemma ImportedBalances(s: State, t: State, o: Overwritten, op: Op, importId: Id, account: Id)
    requires op.ImportFile? && Apply(s, op).Done? && Apply(t, op).Done? && Apart(s, t, o, importId, account)
    ensures var s', t', o' := Next(s, op), Next(t, op), Overwriting(s, o, op, importId, account);
      account in s'.accounts && account in t'.accounts
      && s'.accounts[account].balance - t'.accounts[account].balance == InEffect(s, importId, account) - o'.lost
      && var x, y := s'.imports[op.importId], t'.imports[op.importId];
      && x.account == y.account == op.account && (op.choice.File? || x.change == y.change)
      && o'.restores ==
        if op.account == account && op.choice.File? then o.restores[op.importId := y.change - x.change] else o.restores
  {
    hide SumIn, TotalOf, Added, RowsOf, Next, InEffect, AfterImport, ImportProblem, ChangesApart;
    ImportParts(s, op);
    ImportParts(t, op);
    ImportedAlike(s.accounts[op.account], t.accounts[op.account], op.choice, TotalOf(op.rows));
    hide BalanceChange, BalanceProblem;
  }

  lemma ApartImport(s: State, t: State, o: Overwritten, op: Op, importId: Id, account: Id)
    requires op.ImportFile? && op.importId != importId && Fresh(s, op) && op.importId !in t.imports
    requires Apply(s, op).Done? && Apply(t, op).Done? && Apart(s, t, o, importId, account)
    ensures Apart(Next(s, op), Next(t, op), Overwriting(s, o, op, importId, account), importId, account)
  {
    hide TotalOf, Added, Next, InEffect, Apply, ChangesApart, Overwriting, BalanceChange, BalanceProblem;
    ImportParts(s, op);
    ImportParts(t, op);
    ImportedElsewhere(s, op, importId, account);
    ImportedBalances(s, t, o, op, importId, account);
    OneMoreImport(s.imports, t.imports, o.restores, account, op.importId,
      Next(s, op).imports[op.importId], Next(t, op).imports[op.importId]);
  }

  lemma UndoneBalance(s: State, importId: Id, account: Id)
    requires importId in s.imports && account in s.accounts && s.accounts[account].source.Manual?
    ensures var undone := Next(s, Undo(importId));
      account in undone.accounts && undone.accounts[account].balance ==
        s.accounts[account].balance - InEffect(s, importId, account)
  {
    hide SumIn;
  }

  lemma UndoneParts(s: State, importId: Id)
    requires importId in s.imports
    ensures Apply(s, Undo(importId)).Done?
    ensures var undone := Next(s, Undo(importId));
      && undone.accounts.Keys == s.accounts.Keys && undone.imports == s.imports - {importId}
      && undone.transactions == s.transactions - RowsOf(s.transactions, importId).Keys
  {
    hide SumIn;
  }

  lemma TwinImports(s: State, t: State, importId: Id)
    requires Twin(s, t, importId)
    ensures t.imports.Keys == s.imports.Keys - {importId} && forall i :: i in t.imports ==>
        Alike(t.imports[i], s.imports[i])
  {
  }

  lemma SameOtherRows(s: State, t: State, other: Id, importId: Id)
    requires Twin(s, t, importId) && other != importId
    ensures RowsOf(s.transactions, other) == RowsOf(t.transactions, other)
  {
  }

  lemma OtherRowsStay(transactions: map<Id, Transaction>, other: Id, importId: Id)
    requires other != importId
    ensures RowsOf(transactions - RowsOf(transactions, other).Keys, importId) == RowsOf(transactions, importId)
  {
  }

  lemma UndoneChanges(a: map<Id, Import>, b: map<Id, Import>, restores: map<Id, int>, account: Id, other: Id)
    requires ChangesApart(a, b, restores, account)
    ensures ChangesApart(a - {other}, b - {other}, restores - {other}, account)
  {
  }

  lemma TwinAccount(s: State, t: State, importId: Id, account: Id)
    requires Twin(s, t, importId) && account in t.accounts
    ensures account in s.accounts && SameAccount(t.accounts[account], s.accounts[account])
  {
  }

  /** Undoing another import brings back what it overwrote. */
  lemma ApartUndo(s: State, t: State, o: Overwritten, other: Id, importId: Id, account: Id)
    requires other != importId && other in s.imports && Twin(s, t, importId)
    requires Apart(s, t, o, importId, account) && s.accounts[account].source.Manual?
    ensures Apart(Next(s, Undo(other)), Next(t, Undo(other)), Overwriting(s, o, Undo(other), importId, account),
        importId, account)
  {
    hide SumIn, RowsOf, Next, Apply, Twin;
    UndoneParts(s, other);
    TwinImports(s, t, importId);
    UndoneParts(t, other);
    TwinAccount(s, t, importId, account);
    UndoneBalance(s, other, account);
    UndoneBalance(t, other, account);
    SameOtherRows(s, t, other, importId);
    OtherRowsStay(s.transactions, other, importId);
    assert other !in o.restores ==> o.restores - {other} == o.restores;
    UndoneChanges(s.imports, t.imports, o.restores, account, other);
  }

  lemma ApartStep(s: State, t: State, o: Overwritten, op: Op, importId: Id, account: Id)
    requires Fresh(s, op) && Twin(s, t, importId) && importId in s.imports
    requires op != Undo(importId) && !(op.ImportFile? && op.importId == importId)
    requires Apart(s, t, o, importId, account) && s.accounts[account].source.Manual?
    ensures Apart(Next(s, op), Run(t, Dropped(s, op, importId)), Overwriting(s, o, op, importId, account),
        importId, account)
  {
    RunOne(t, op);
    match op
    case Create(_, _, _, _) => ApartCreate(s, t, o, op, importId, account);
    case Update(id, _, _, _) =>
      if id in s.transactions && IsOf(s.transactions[id], importId) {
        ApartOwnUpdate(s, t, o, op, importId, account);
      } else {
        ApartUpdate(s, t, o, op, importId, account);
      }
    case Remove(ids) =>
      ApartRemove(s, t, o, ids, importId, account);
      RunOne(t, Remove(ids - RowsOf(s.transactions, importId).Keys));
    case ImportFile(_, _, _, _) =>
      TwinImport(s, t, op, importId);
      TwinImports(s, t, importId);
      if Apply(s, op).Done? { ApartImport(s, t, o, op, importId, account); }
    case Undo(other) => if other in s.imports { ApartUndo(s, t, o, other, importId, account); }
    case SetBalance(_, _) =>
    case SetClosed(_, _) =>
  }

  lemma {:induction false} ApartOverRuns(s: State, t: State, o: Overwritten, ops: seq<Op>, importId: Id, account: Id)
    requires Valid(s) && FreshRun(s, ops) && Twin(s, t, importId) && importId in s.imports &&
        LeavesImport(ops, importId)
    requires account in s.accounts && s.accounts[account].source.Manual? && Apart(s, t, o, importId, account)
    ensures Apart(Run(s, ops), RunWithout(s, t, ops, importId), OverRun(s, o, ops, importId, account), importId,
        account)
    decreases |ops|
  {
    hide Twin, Valid, Apply, Fresh, Dropped, Apart, Overwriting;
    if ops != [] {
      ApartStep(s, t, o, ops[0], importId, account);
      TwinStep(s, t, ops[0], importId);
      NextIsValid(s, ops[0]);
      StepKeepsBase(s, ops[0], account);
      ApartOverRuns(Next(s, ops[0]), Run(t, Dropped(s, ops[0], importId)), Overwriting(s, o, ops[0], importId,
        account), ops[1..], importId, account);
    }
  }

  // ---- Undoing an import ----

  lemma ImportedRows(s: State, op: Op)
    requires Valid(s) && op.ImportFile? && Fresh(s, op)
    ensures var added := Added(op.rows, op.account, op.importId);
      && Others(s.transactions + added, op.importId) == s.transactions
      && RowsOf(s.transactions + added, op.importId) == added
  {
    AddedRows(op.rows, op.account, op.importId);
    hide Added, DistinctIds;
  }

  lemma OneImportApart(s: State, op: Op)
    requires Valid(s) && op.ImportFile? && Fresh(s, op) && Apply(s, op).Done?
    ensures forall a: Id :: a in s.accounts ==> Apart(Next(s, op), s, NOTHING_YET, op.importId, a)
  {
    ImportedRows(s, op);
    forall a: Id {
      SumOfAdded(op.rows, op.account, op.importId, a);
    }
    hide SumIn, TotalOf, Added, RowsOf, Others, DistinctIds, Valid;
  }

  /** Just after an import, the state is a twin of the one before it, apart by what undoing takes off. */
  lemma ImportIsATwin(s: State, op: Op)
    requires Valid(s) && op.ImportFile? && Fresh(s, op) && Apply(s, op).Done?
    ensures Twin(Next(s, op), s, op.importId) && op.importId in Next(s, op).imports
    ensures forall a: Id :: a in s.accounts ==> Apart(Next(s, op), s, NOTHING_YET, op.importId, a)
    ensures Next(s, op).accounts.Keys == s.accounts.Keys
  {
    hide SumIn, TotalOf, Added, DistinctIds, Apart;
    ImportedRows(s, op);
    OneImportApart(s, op);
    hide Others, RowsOf, IsOf;
  }

  lemma UndoneTwin(s: State, t: State, importId: Id)
    requires Twin(s, t, importId) && importId in s.imports
    ensures var undone := Next(s, Undo(importId));
      && undone.transactions == t.transactions
      && undone.imports.Keys == t.imports.Keys && (forall i :: i in t.imports ==>
        Alike(t.imports[i], undone.imports[i]))
      && undone.accounts.Keys == t.accounts.Keys && (forall a: Id :: a in t.accounts ==>
        SameAccount(t.accounts[a], undone.accounts[a]))
      && undone.imports == s.imports - {importId}
  {
    hide SumIn;
    var rows := RowsOf(s.transactions, importId);
    assert s.transactions - rows.Keys == Others(s.transactions, importId);
    MovedTwins(s.accounts, t.accounts, a => PutBack(s.imports[importId], a) - SumIn(rows, a), a => 0);
    assert forall a: Id :: a in t.accounts ==> MoveAll(t.accounts, a => 0)[a] == t.accounts[a];
  }

  lemma ApartIs(s: State, t: State, o: Overwritten, importId: Id, account: Id)
    requires Twin(s, t, importId) && Apart(s, t, o, importId, account)
    ensures s.accounts[account].balance - t.accounts[account].balance == InEffect(s, importId, account) - o.lost
    ensures ChangesApart(s.imports - {importId}, t.imports, o.restores, account)
  {
  }

  /** Undoing an import, after any run at all, leaves the transactions, the accounts and the
      imports of the run without it; and a manual account's balance is off by exactly what
      setting it outright had overwritten of the import, which the undo takes off once more. */
  lemma UndoLeavesTheRest(s: State, op: Op, ops: seq<Op>, account: Id)
    requires Valid(s) && op.ImportFile? && Fresh(s, op) && Apply(s, op).Done?
    requires FreshRun(Next(s, op), ops) && LeavesImport(ops, op.importId)
    requires account in s.accounts
    ensures var start := Next(s, op);
      var undone := Next(Run(start, ops), Undo(op.importId));
      var without := RunWithout(start, s, ops, op.importId);
      var o := OverRun(start, NOTHING_YET, ops, op.importId, account);
      && undone.transactions == without.transactions
      && undone.imports.Keys == without.imports.Keys
      && (forall i :: i in without.imports ==> Alike(without.imports[i], undone.imports[i]))
      && account in undone.accounts && account in without.accounts &&
        SameAccount(without.accounts[account], undone.accounts[account])
      && undone.accounts[account].source == s.accounts[account].source
      && (s.accounts[account].source.Manual? ==>
            && undone.accounts[account].balance == without.accounts[account].balance - o.lost
            && ChangesApart(undone.imports, without.imports, o.restores, account))
  {
    var importId, start := op.importId, Next(s, op);
    var last, without := Run(start, ops), RunWithout(start, s, ops, importId);
    hide *;
    ImportIsATwin(s, op);
    NextIsValid(s, op);
    TwinRuns(start, s, ops, importId);
    UndoneTwin(last, without, importId);
    StepKeepsBase(s, op, account);
    BalanceOverRuns(start, ops, account);
    StepKeepsBase(last, Undo(importId), account);
    if s.accounts[account].source.Manual? {
      ApartOverRuns(start, s, NOTHING_YET, ops, importId, account);
      UndoneBalance(last, importId, account);
      ApartIs(last, without, OverRun(start, NOTHING_YET, ops, importId, account), importId, account);
    }
  }

  lemma SameAccountExactly(a: Account, b: Account)
    requires SameAccount(a, b)
    ensures a == b <==> b.source.Linked? || a.balance == b.balance
  {
  }

  /** So an undo leaves an account as if the import had never happened if and only if nothing it
      would take off had been overwritten. What is overwritten is read off the run itself. */
  lemma UndoErasesExactly(s: State, op: Op, ops: seq<Op>, account: Id)
    requires Valid(s) && op.ImportFile? && Fresh(s, op) && Apply(s, op).Done?
    requires FreshRun(Next(s, op), ops) && LeavesImport(ops, op.importId)
    requires account in s.accounts
    ensures var start := Next(s, op);
      var undone := Next(Run(start, ops), Undo(op.importId));
      var without := RunWithout(start, s, ops, op.importId);
      && account in undone.accounts && account in without.accounts
      && (undone.accounts[account] == without.accounts[account]
          <==> s.accounts[account].source.Linked? || OverRun(start, NOTHING_YET, ops, op.importId, account).lost == 0)
  {
    hide *;
    UndoLeavesTheRest(s, op, ops, account);
    var undone := Next(Run(Next(s, op), ops), Undo(op.importId));
    var without := RunWithout(Next(s, op), s, ops, op.importId);
    SameAccountExactly(without.accounts[account], undone.accounts[account]);
  }

  lemma {:induction false} NothingMoreOverwritten(s: State, o: Overwritten, ops: seq<Op>, importId: Id, account: Id)
    requires SetsNoBalance(ops, account) && o.restores == map[]
    ensures OverRun(s, o, ops, importId, account) == o
    decreases |ops|
  {
    if ops != [] {
      hide InEffect;
      assert !SetsBalance(ops[0], account);
      assert Overwriting(s, o, ops[0], importId, account) == o by { hide Apply; }
      NothingMoreOverwritten(Next(s, ops[0]), o, ops[1..], importId, account);
    }
  }

  lemma SameImports(a: map<Id, Import>, b: map<Id, Import>, account: Id)
    requires ChangesApart(a, b, map[], account)
    requires forall i :: i in b ==> i in a && Alike(b[i], a[i])
    ensures forall i :: i in b && b[i].account == account ==> a[i] == b[i]
  {
  }

  /** Undoing an import leaves everything as if it had never happened, whatever was created,
      edited, moved, deleted, imported or undone since, its own rows included, for every account
      that nothing set the balance of outright in between. */
  lemma UndoErasesImport(s: State, op: Op, ops: seq<Op>, account: Id)
    requires Valid(s) && op.ImportFile? && Fresh(s, op) && Apply(s, op).Done?
    requires FreshRun(Next(s, op), ops) && LeavesImport(ops, op.importId)
    requires account in s.accounts && SetsNoBalance(ops, account)
    ensures var start := Next(s, op);
      var undone := Next(Run(start, ops), Undo(op.importId));
      var without := RunWithout(start, s, ops, op.importId);
      && undone.transactions == without.transactions
      && undone.imports.Keys == without.imports.Keys
      && (forall i :: i in without.imports ==> Alike(without.imports[i], undone.imports[i]))
      && account in undone.accounts && account in without.accounts
      && undone.accounts[account] == without.accounts[account]
      && (s.accounts[account].source.Manual? ==>
            forall i :: i in without.imports && without.imports[i].account == account ==>
              undone.imports[i] == without.imports[i])
  {
    assert NOTHING_YET == Overwritten(0, map[]);
    hide *;
    UndoLeavesTheRest(s, op, ops, account);
    UndoErasesExactly(s, op, ops, account);
    NothingMoreOverwritten(Next(s, op), NOTHING_YET, ops, op.importId, account);
    var undone := Next(Run(Next(s, op), ops), Undo(op.importId));
    var without := RunWithout(Next(s, op), s, ops, op.importId);
    if s.accounts[account].source.Manual? {
      SameImports(undone.imports, without.imports, account);
    }
  }

  // ---- When a balance was set by hand in between ----

  predicate TakesNoFile(ops: seq<Op>, account: Id) {
    forall i :: 0 <= i < |ops| ==> !(ops[i].ImportFile? && ops[i].account == account && ops[i].choice.File?)
  }

  lemma {:induction false} NothingToRestore(s: State, o: Overwritten, ops: seq<Op>, importId: Id, account: Id)
    requires TakesNoFile(ops, account) && o.restores == map[]
    ensures OverRun(s, o, ops, importId, account).restores == map[]
    decreases |ops|
  {
    if ops != [] {
      hide InEffect;
      assert Overwriting(s, o, ops[0], importId, account).restores == map[] by { hide Apply; }
      NothingToRestore(Next(s, ops[0]), Overwriting(s, o, ops[0], importId, account), ops[1..], importId, account);
    }
  }

  lemma {:induction false} RunsCompose(s: State, o: Overwritten, a: seq<Op>, b: seq<Op>, importId: Id, account: Id)
    ensures Run(s, a + b) == Run(Run(s, a), b)
    ensures OverRun(s, o, a + b, importId, account) ==
        OverRun(Run(s, a), OverRun(s, o, a, importId, account), b, importId, account)
    decreases |a|
  {
    if a == [] {
      assert a + b == b;
    } else {
      hide Next, Overwriting;
      assert (a + b)[1..] == a[1..] + b;
      RunsCompose(Next(s, a[0]), Overwriting(s, o, a[0], importId, account), a[1..], b, importId, account);
    }
  }

  lemma {:induction false} AccountStays(s: State, ops: seq<Op>, account: Id)
    requires account in s.accounts
    ensures account in Run(s, ops).accounts && Run(s, ops).accounts[account].source == s.accounts[account].source
    decreases |ops|
  {
    if ops != [] {
      assert account in Next(s, ops[0]).accounts &&
        Next(s, ops[0]).accounts[account].source == s.accounts[account].source by {
        hide SumIn, Added, TotalOf;
      }
      hide Next;
      AccountStays(Next(s, ops[0]), ops[1..], account);
    }
  }

  /** When a balance is set by hand between an import and its undo, with anything before and anything
      but outright sets after, the undo takes off what the import still had in effect when it was
      set; so the balance is as if the import had never happened if and only if that was nothing. */
  lemma BalanceSetBetween(s: State, op: Op, before: seq<Op>, balance: int, after: seq<Op>, account: Id)
    requires Valid(s) && op.ImportFile? && Fresh(s, op) && Apply(s, op).Done?
    requires account in s.accounts && s.accounts[account].source.Manual?
    requires var ops := before + ([SetBalance(account, balance)] + after);
      FreshRun(Next(s, op), ops) && LeavesImport(ops, op.importId)
    requires TakesNoFile(before, account) && SetsNoBalance(after, account)
    ensures var start, ops := Next(s, op), before + ([SetBalance(account, balance)] + after);
      var undone := Next(Run(start, ops), Undo(op.importId));
      var without := RunWithout(start, s, ops, op.importId);
      var overwritten := InEffect(Run(start, before), op.importId, account);
      && account in undone.accounts && account in without.accounts
      && undone.accounts[account].balance == without.accounts[account].balance - overwritten
      && (undone.accounts[account] == without.accounts[account] <==> overwritten == 0)
  {
    hide InEffect, Run, RunWithout, FreshRun, LeavesImport, Valid, Fresh, TakesNoFile, SetsNoBalance;
    var start, edit := Next(s, op), SetBalance(account, balance);
    var ops := before + ([edit] + after);
    ImportIsATwin(s, op);
    AccountStays(start, before, account);
    var mid, o := Run(start, before), OverRun(start, NOTHING_YET, before, op.importId, account);
    NothingToRestore(start, NOTHING_YET, before, op.importId, account);
    RunsCompose(start, NOTHING_YET, before, [edit] + after, op.importId, account);
    assert ([edit] + after)[1..] == after;
    var o' := Overwriting(mid, o, edit, op.importId, account);
    assert OverRun(mid, o, [edit] + after, op.importId, account) ==
      OverRun(Next(mid, edit), o', after, op.importId, account);
    NothingMoreOverwritten(Next(mid, edit), o', after, op.importId, account);
    UndoLeavesTheRest(s, op, ops, account);
    UndoErasesExactly(s, op, ops, account);
  }
}
