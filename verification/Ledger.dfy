/** Balances, transactions and statement imports (`api/transactions.py`, `imports/service.py`,
    `finance/accounts.py`, `api/accounts.py`). Each request is one atomic step on three tables.
    `Apply` says what every step should leave, with sums over what it touches; the class makes
    the steps the way the source does, accumulating changes and moving balances in loops. */
module Ledger {
  import opened Wrappers
  import opened Sums

  datatype Source = Manual | Linked

  datatype Account = Account(source: Source, closed: bool, balance: int)

  datatype Transaction = Transaction(account: Id, date: int, amount: int, fromBank: bool, importId: Option<Id>)

  datatype Import = Import(account: Id, total: int, change: int)

  /** A row chosen from a file, with the identifier its transaction gets. */
  datatype Row = Row(id: Id, date: int, amount: int)

  /** What importing does to the balance: set it to the file's, when it has one, move it, or keep it. */
  datatype BalanceChoice = File(closing: Option<int>) | Move | Keep

  datatype State = State(accounts: map<Id, Account>, transactions: map<Id, Transaction>, imports: map<Id, Import>)

  datatype Op =
    | Create(id: Id, account: Id, date: int, amount: int)
    | Update(id: Id, toAccount: Option<Id>, toDate: Option<int>, toAmount: Option<int>)
    | Remove(ids: set<Id>)
    | ImportFile(importId: Id, account: Id, rows: seq<Row>, choice: BalanceChoice)
    | Undo(importId: Id)
    | SetBalance(account: Id, balance: int)
    | SetClosed(account: Id, closed: bool)

  datatype Problem =
    | NotFound | UnknownAccount | LinkedAccount | AccountClosed
    | FromBank | BankBalance | NoClosingBalance | NothingToImport

  datatype Outcome = Done(state: State) | Refused(problem: Problem)

  // ---- Sums over the tables ----

  /** What each transaction adds to an account's balance. */
  ghost function AmountsIn(transactions: map<Id, Transaction>, account: Id): map<Id, int> {
    map id | id in transactions :: if transactions[id].account == account then transactions[id].amount else 0
  }

  ghost function SumIn(transactions: map<Id, Transaction>, account: Id): int {
    Sum(AmountsIn(transactions, account))
  }

  /** How far an import moved an account's balance beyond its own transactions. */
  ghost function Beyond(imports: map<Id, Import>, account: Id): map<Id, int> {
    map i | i in imports :: if imports[i].account == account then imports[i].change - imports[i].total else 0
  }

  predicate IsOf(t: Transaction, importId: Id) {
    t.importId == Some(importId)
  }

  function RowsOf(transactions: map<Id, Transaction>, importId: Id): map<Id, Transaction> {
    map id | id in transactions && IsOf(transactions[id], importId) :: transactions[id]
  }

  function TotalOf(rows: seq<Row>): int {
    if rows == [] then 0 else TotalOf(rows[..|rows| - 1]) + rows[|rows| - 1].amount
  }

  /** The transactions an import adds. */
  function Added(rows: seq<Row>, account: Id, importId: Id): map<Id, Transaction> {
    if rows == [] then map[]
    else
      var row := rows[|rows| - 1];
      var t := Transaction(account, row.date, row.amount, false, Some(importId));
      Added(rows[..|rows| - 1], account, importId)[row.id := t]
  }

  // ---- What each step should leave ----

  /** A manual account's balance follows its transactions; a linked one's is the bank's. */
  function Moved(account: Account, change: int): Account {
    if account.source.Manual? then account.(balance := account.balance + change) else account
  }

  /** Every account moved by its own change. */
  ghost function MoveAll(accounts: map<Id, Account>, change: Id -> int): map<Id, Account> {
    map a | a in accounts :: Moved(accounts[a], change(a))
  }

  /** The first reason an account can't be written to by hand, in the order they are checked. */
  function WritableProblem(accounts: map<Id, Account>, account: Id): Option<Problem> {
    if account !in accounts then Some(UnknownAccount)
    else if accounts[account].source.Linked? then Some(LinkedAccount)
    else if accounts[account].closed then Some(AccountClosed)
    else None
  }

  function UpdateProblem(s: State, id: Id, toAccount: Option<Id>, toDate: Option<int>,
        toAmount: Option<int>): Option<Problem>
    requires id in s.transactions
  {
    var t := s.transactions[id];
    var account, amount, date := toAccount.GetOr(t.account), toAmount.GetOr(t.amount), toDate.GetOr(t.date);
    if t.account !in s.accounts then Some(NotFound)
    else if t.fromBank && s.accounts[t.account].source.Linked? &&
      (account != t.account || amount != t.amount || date != t.date) then
      Some(FromBank)
    else if account != t.account then WritableProblem(s.accounts, account)
    else None
  }

  function BalanceProblem(account: Account, choice: BalanceChoice): Option<Problem> {
    if account.source.Linked? && !choice.Keep? then Some(BankBalance)
    else if choice.File? && choice.closing.None? then Some(NoClosingBalance)
    else None
  }

  function BalanceChange(account: Account, choice: BalanceChoice, total: int): int
    requires BalanceProblem(account, choice).None?
  {
    match choice
    case Move => total
    case File(closing) => closing.value - account.balance
    case Keep => 0
  }

  function ImportProblem(s: State, account: Id, rows: seq<Row>, choice: BalanceChoice): Option<Problem> {
    if account !in s.accounts then Some(UnknownAccount)
    else if s.accounts[account].closed then Some(AccountClosed)
    else if rows == [] then Some(NothingToImport)
    else BalanceProblem(s.accounts[account], choice)
  }

  ghost function AfterCreate(s: State, id: Id, account: Id, date: int, amount: int): Outcome {
    var problem := WritableProblem(s.accounts, account);
    if problem.Some? then Refused(problem.value)
    else
      Done(s.(accounts := s.accounts[account := Moved(s.accounts[account], amount)],
              transactions := s.transactions[id := Transaction(account, date, amount, false, None)]))
  }

  function Updated(t: Transaction, toAccount: Option<Id>, toDate: Option<int>, toAmount: Option<int>): Transaction {
    t.(account := toAccount.GetOr(t.account), date := toDate.GetOr(t.date), amount := toAmount.GetOr(t.amount))
  }

  /** How far replacing a transaction by another moves each account. */
  function Replacing(before: Transaction, after: Transaction, account: Id): int {
    (if account == after.account then after.amount else 0) - if account == before.account then before.amount else 0
  }

  ghost function AfterUpdate(s: State, id: Id, toAccount: Option<Id>, toDate: Option<int>,
        toAmount: Option<int>): Outcome {
    if id !in s.transactions then Refused(NotFound)
    else
      var problem := UpdateProblem(s, id, toAccount, toDate, toAmount);
      if problem.Some? then Refused(problem.value)
      else
        var t, t' := s.transactions[id], Updated(s.transactions[id], toAccount, toDate, toAmount);
        Done(s.(accounts := MoveAll(s.accounts, a => Replacing(t, t', a)), transactions := s.transactions[id := t']))
  }

  ghost function AfterRemove(s: State, ids: set<Id>): Outcome {
    Done(s.(accounts := MoveAll(s.accounts, a => -SumIn(Only(s.transactions, ids), a)),
      transactions := s.transactions - ids))
  }

  ghost function AfterImport(s: State, importId: Id, account: Id, rows: seq<Row>, choice: BalanceChoice): Outcome {
    var problem := ImportProblem(s, account, rows, choice);
    if problem.Some? then Refused(problem.value)
    else
      var total := TotalOf(rows);
      var change := BalanceChange(s.accounts[account], choice, total);
      Done(State(s.accounts[account := s.accounts[account].(balance := s.accounts[account].balance + change)],
                 s.transactions + Added(rows, account, importId),
                 s.imports[importId := Import(account, total, change)]))
  }

  /** What undoing an import puts back, besides taking its rows out where they are now. */
  function PutBack(record: Import, account: Id): int {
    if account == record.account then record.total - record.change else 0
  }

  ghost function AfterUndo(s: State, importId: Id): Outcome {
    if importId !in s.imports then Refused(NotFound)
    else
      var record, rows := s.imports[importId], RowsOf(s.transactions, importId);
      Done(State(MoveAll(s.accounts, a => PutBack(record, a) - SumIn(rows, a)), s.transactions - rows.Keys,
        s.imports - {importId}))
  }

  ghost function AfterSetBalance(s: State, account: Id, balance: int): Outcome {
    if account !in s.accounts then Refused(NotFound)
    else if s.accounts[account].source.Linked? && balance != s.accounts[account].balance then Refused(LinkedAccount)
    else Done(s.(accounts := s.accounts[account := s.accounts[account].(balance := balance)]))
  }

  ghost function AfterSetClosed(s: State, account: Id, closed: bool): Outcome {
    if account !in s.accounts then Refused(NotFound)
    else Done(s.(accounts := s.accounts[account := s.accounts[account].(closed := closed)]))
  }

  ghost function Apply(s: State, op: Op): Outcome {
    match op
    case Create(id, account, date, amount) => AfterCreate(s, id, account, date, amount)
    case Update(id, toAccount, toDate, toAmount) => AfterUpdate(s, id, toAccount, toDate, toAmount)
    case Remove(ids) => AfterRemove(s, ids)
    case ImportFile(importId, account, rows, choice) => AfterImport(s, importId, account, rows, choice)
    case Undo(importId) => AfterUndo(s, importId)
    case SetBalance(account, balance) => AfterSetBalance(s, account, balance)
    case SetClosed(account, closed) => AfterSetClosed(s, account, closed)
  }

  // ---- What the database guarantees between steps ----

  /** Foreign keys: transactions and imports are of accounts there are. */
  ghost predicate Valid(s: State) {
    && (forall id :: id in s.transactions ==> s.transactions[id].account in s.accounts)
    && (forall id :: id in s.transactions && s.transactions[id].importId.Some? ==>
      s.transactions[id].importId.value in s.imports)
    && (forall i :: i in s.imports ==> s.imports[i].account in s.accounts)
  }

  ghost predicate DistinctIds(rows: seq<Row>) {
    forall i, j :: 0 <= i < j < |rows| ==> rows[i].id != rows[j].id
  }

  /** New rows get identifiers nothing has. */
  ghost predicate Fresh(s: State, op: Op) {
    match op
    case Create(id, _, _, _) => id !in s.transactions
    case ImportFile(importId, _, rows, _) =>
      importId !in s.imports && DistinctIds(rows) && forall row :: row in rows ==> row.id !in s.transactions
    case _ => true
  }

  lemma {:induction false} AddedRows(rows: seq<Row>, account: Id, importId: Id)
    ensures Added(rows, account, importId).Keys == set row | row in rows :: row.id
    ensures var added := Added(rows, account, importId);
      forall id :: id in added ==> added[id].account == account && IsOf(added[id], importId)
  {
    if rows != [] {
      var n := |rows| - 1;
      AddedRows(rows[..n], account, importId);
      assert rows == rows[..n] + [rows[n]];
    }
  }

  lemma ApplyKeepsValid(s: State, op: Op)
    requires Valid(s) && Fresh(s, op) && Apply(s, op).Done?
    ensures Valid(Apply(s, op).state)
  {
    if op.ImportFile? {
      AddedRows(op.rows, op.account, op.importId);
    }
  }

  // ---- The steps as the source takes them ----

  /** A step either leaves what it should, or says why not and changes nothing. */
  ghost predicate Leaves(outcome: Outcome, before: State, problem: Option<Problem>, after: State) {
    match outcome
    case Done(state) => problem.None? && after == state
    case Refused(why) => problem == Some(why) && after == before
  }

  lemma SameMoves(accounts: map<Id, Account>, f: Id -> int, g: Id -> int)
    requires forall a: Id :: f(a) == g(a)
    ensures MoveAll(accounts, f) == MoveAll(accounts, g)
  {
  }

  lemma MovesOfUpdate(accounts: map<Id, Account>, t: Transaction, t': Transaction)
    requires t.account in accounts && t'.account in accounts
    ensures var all := MoveAll(accounts, a => Replacing(t, t', a));
      if t.account != t'.account then
        var first := accounts[t'.account := Moved(accounts[t'.account], t'.amount)];
        all == first[t.account := Moved(first[t.account], -t.amount)]
      else if t.amount != t'.amount then
        all == accounts[t.account := Moved(accounts[t.account], t'.amount - t.amount)]
      else
        all == accounts
  {
  }

  lemma OnlyFound<V>(m: map<Id, V>, ids: set<Id>)
    ensures Only(m, m.Keys * ids) == Only(m, ids) && m - m.Keys * ids == m - ids
  {
  }

  lemma RowsAreOnly(transactions: map<Id, Transaction>, importId: Id)
    ensures RowsOf(transactions, importId) == Only(transactions, RowsOf(transactions, importId).Keys)
  {
  }

  function ChangeOf(changes: map<Id, int>, account: Id): int {
    if account in changes then changes[account] else 0
  }

  lemma NoneIn(transactions: map<Id, Transaction>, ids: set<Id>, account: Id)
    requires forall id :: id in ids && id in transactions ==> transactions[id].account != account
    ensures SumIn(Only(transactions, ids), account) == 0
  {
    var amounts := AmountsIn(Only(transactions, ids), account);
    forall id | id in amounts
      ensures amounts[id] == 0
    {
      assert id in ids;
    }
    SumZero(amounts);
  }

  lemma NoneTaken(transactions: map<Id, Transaction>, ids: set<Id>)
    requires ids == {}
    ensures forall a: Id :: SumIn(Only(transactions, ids), a) == 0
  {
    forall a: Id
      ensures SumIn(Only(transactions, ids), a) == 0
    {
      NoneIn(transactions, ids, a);
    }
  }

  lemma OneMoreTakenOut(transactions: map<Id, Transaction>, ids: set<Id>, id: Id, account: Id)
    requires id in transactions && id !in ids
    ensures SumIn(Only(transactions, ids + {id}), account)
      == SumIn(Only(transactions, ids), account)
         + if transactions[id].account == account then transactions[id].amount else 0
  {
    var t := transactions[id];
    var amount := if t.account == account then t.amount else 0;
    SumReplaced(AmountsIn(Only(transactions, ids), account), id, amount);
    assert AmountsIn(Only(transactions, ids + {id}), account) ==
      AmountsIn(Only(transactions, ids), account)[id := amount];
  }

  /** What taking each of these transactions out changes, by account, on top of what `start` has. */
  method TakenOut(transactions: map<Id, Transaction>, ids: set<Id>, start: map<Id, int>) returns (changes: map<Id, int>)
    requires ids <= transactions.Keys
    ensures forall a: Id :: a in changes ==> a in start || exists id :: id in ids && transactions[id].account == a
    ensures forall a: Id :: ChangeOf(changes, a) == ChangeOf(start, a) - SumIn(Only(transactions, ids), a)
  {
    hide SumIn;
    changes := start;
    NoneTaken(transactions, {});
    var left: set<Id> := ids;
    assert ids - left == {};
    while left != {}
      invariant left <= ids
      invariant forall a: Id :: a in changes ==> a in start || exists id :: id in ids && transactions[id].account == a
      invariant forall a: Id :: ChangeOf(changes, a) == ChangeOf(start, a) - SumIn(Only(transactions, ids - left), a)
    {
      var id := AnyOf(left);
      var t := transactions[id];
      forall a: Id {
        OneMoreTakenOut(transactions, ids - left, id, a);
      }
      assert ids - (left - {id}) == ids - left + {id};
      changes := changes[t.account := ChangeOf(changes, t.account) - t.amount];
      left := left - {id};
    }
    assert ids - {} == ids;
  }

  /** What an import's rows that are still in its account add up to. */
  method Remaining(transactions: map<Id, Transaction>, own: set<Id>, account: Id) returns (remaining: int)
    requires own <= transactions.Keys
    requires forall id :: id in own ==> transactions[id].account == account
    ensures remaining == SumIn(Only(transactions, own), account)
  {
    hide SumIn;
    NoneTaken(transactions, {});
    remaining := 0;
    var left: set<Id> := own;
    assert own - left == {};
    while left != {}
      invariant left <= own
      invariant remaining == SumIn(Only(transactions, own - left), account)
    {
      var id := AnyOf(left);
      OneMoreTakenOut(transactions, own - left, id, account);
      assert own - (left - {id}) == own - left + {id};
      remaining := remaining + transactions[id].amount;
      left := left - {id};
    }
    assert own - {} == own;
  }

  /** An import's rows in its own account and the others make up all of them, account by account. */
  lemma RowsByAccount(transactions: map<Id, Transaction>, rows: set<Id>, own: set<Id>, account: Id)
    requires own <= rows <= transactions.Keys
    requires forall id :: id in rows ==> (id in own <==> transactions[id].account == account)
    ensures forall a: Id :: a != account ==>
        SumIn(Only(transactions, rows - own), a) == SumIn(Only(transactions, rows), a)
    ensures SumIn(Only(transactions, own), account) == SumIn(Only(transactions, rows), account)
    ensures SumIn(Only(transactions, rows - own), account) == 0
  {
    forall a
      ensures SumIn(Only(transactions, rows), a) ==
          SumIn(Only(transactions, own), a) + SumIn(Only(transactions, rows - own), a)
    {
      var all := AmountsIn(Only(transactions, rows), a);
      SumSplit(all, own);
      assert Only(all, own) == AmountsIn(Only(transactions, own), a);
      assert all - own == AmountsIn(Only(transactions, rows - own), a);
    }
    NoneIn(transactions, rows - own, account);
    forall a: Id | a != account
      ensures SumIn(Only(transactions, own), a) == 0
    {
      NoneIn(transactions, own, a);
    }
  }

  /** What undoing an import changes, by account: its own account gets back what is left of the
      import's change beyond its rows, and every account loses the rows that are in it now. */
  method UndoChanges(transactions: map<Id, Transaction>, rows: set<Id>, record: Import) returns (changes: map<Id, int>)
    requires rows <= transactions.Keys
    ensures forall a: Id :: a in changes ==>
        a == record.account || exists id :: id in rows && transactions[id].account == a
    ensures forall a: Id :: ChangeOf(changes, a) == PutBack(record, a) - SumIn(Only(transactions, rows), a)
  {
    hide SumIn;
    var own := set id | id in rows && transactions[id].account == record.account;
    var remaining := Remaining(transactions, own, record.account);
    changes := TakenOut(transactions, rows - own, map[record.account := record.total - remaining - record.change]);
    RowsByAccount(transactions, rows, own, record.account);
  }

  lemma OneMoreRow(rows: seq<Row>, n: nat, account: Id, importId: Id)
    requires n < |rows|
    ensures TotalOf(rows[..n + 1]) == TotalOf(rows[..n]) + rows[n].amount
    ensures var t := Transaction(account, rows[n].date, rows[n].amount, false, Some(importId));
      Added(rows[..n + 1], account, importId) == Added(rows[..n], account, importId)[rows[n].id := t]
  {
    assert rows[..n + 1][..n] == rows[..n];
  }

  method TotalAmount(rows: seq<Row>) returns (total: int)
    ensures total == TotalOf(rows)
  {
    total := 0;
    for n := 0 to |rows|
      invariant total == TotalOf(rows[..n])
    {
      OneMoreRow(rows, n, Id(0), Id(0));
      total := total + rows[n].amount;
    }
    assert rows[..|rows|] == rows;
  }

  method WithRows(before: map<Id, Transaction>, rows: seq<Row>, account: Id, importId: Id)
        returns (transactions: map<Id, Transaction>)
    ensures transactions == before + Added(rows, account, importId)
  {
    transactions := before;
    for n := 0 to |rows|
      invariant transactions == before + Added(rows[..n], account, importId)
    {
      OneMoreRow(rows, n, account, importId);
      var row := rows[n];
      transactions := transactions[row.id := Transaction(account, row.date, row.amount, false, Some(importId))];
    }
    assert rows[..|rows|] == rows;
  }

  class Books {
    var accounts: map<Id, Account>
    var transactions: map<Id, Transaction>
    var imports: map<Id, Import>

    constructor (accounts: map<Id, Account>)
      ensures Now() == State(accounts, map[], map[]) && Valid(Now())
    {
      this.accounts, transactions, imports := accounts, map[], map[];
    }

    function Now(): State
      reads this
    {
      State(accounts, transactions, imports)
    }

    method MoveBalance(account: Id, change: int)
      requires account in accounts
      modifies this`accounts
      ensures accounts == old(accounts)[account := Moved(old(accounts)[account], change)]
    {
      if accounts[account].source.Linked? || change == 0 {
        return;
      }
      accounts := accounts[account := accounts[account].(balance := accounts[account].balance + change)];
    }

    /** Moves the balance of each account that has a change, one after another. */
    method MoveBalances(changes: map<Id, int>)
      requires changes.Keys <= accounts.Keys
      modifies this`accounts
      ensures accounts == MoveAll(old(accounts), a => ChangeOf(changes, a))
    {
      var left: set<Id> := changes.Keys;
      while left != {}
        invariant left <= changes.Keys && accounts.Keys == old(accounts).Keys
        invariant forall a: Id :: a in accounts ==>
          accounts[a] == if a in changes && a !in left then Moved(old(accounts)[a], changes[a]) else old(accounts)[a]
      {
        var account := AnyOf(left);
        MoveBalance(account, changes[account]);
        left := left - {account};
      }
      ghost var moved := MoveAll(old(accounts), a => ChangeOf(changes, a));
      assert forall a: Id :: a in moved ==> moved[a] == accounts[a];
      assert moved == accounts;
    }

    method CreateTransaction(id: Id, account: Id, date: int, amount: int) returns (problem: Option<Problem>)
      requires Valid(Now()) && Fresh(Now(), Create(id, account, date, amount))
      modifies this
      ensures Leaves(AfterCreate(old(Now()), id, account, date, amount), old(Now()), problem, Now())
    {
      problem := WritableProblem(accounts, account);
      if problem.Some? {
        return;
      }
      transactions := transactions[id := Transaction(account, date, amount, false, None)];
      MoveBalance(account, amount);
    }

    method UpdateTransaction(id: Id, toAccount: Option<Id>, toDate: Option<int>, toAmount: Option<int>)
          returns (problem: Option<Problem>)
      requires Valid(Now())
      modifies this
      ensures Leaves(AfterUpdate(old(Now()), id, toAccount, toDate, toAmount), old(Now()), problem, Now())
    {
      hide MoveAll, Moved;
      if id !in transactions {
        return Some(NotFound);
      }
      problem := UpdateProblem(Now(), id, toAccount, toDate, toAmount);
      if problem.Some? {
        return;
      }
      var t := transactions[id];
      var account, amount := toAccount.GetOr(t.account), toAmount.GetOr(t.amount);
      ghost var t' := Updated(t, toAccount, toDate, toAmount);
      MovesOfUpdate(accounts, t, t');
      if account != t.account {
        MoveBalance(account, amount);
        MoveBalance(t.account, -t.amount);
      } else if amount != t.amount {
        MoveBalance(t.account, amount - t.amount);
      }
      transactions := transactions[id := t.(account := account, date := toDate.GetOr(t.date), amount := amount)];
    }

    method RemoveTransactions(ids: set<Id>) returns (removed: nat)
      requires Valid(Now())
      modifies this
      ensures Leaves(AfterRemove(old(Now()), ids), old(Now()), None, Now())
      ensures removed == |old(transactions).Keys * ids|
    {
      hide SumIn, MoveAll, Only;
      var found := transactions.Keys * ids;
      var changes := TakenOut(transactions, found, map[]);
      OnlyFound(transactions, ids);
      MoveBalances(changes);
      transactions := transactions - found;
      removed := |found|;
      SameMoves(old(accounts), a => ChangeOf(changes, a), a => -SumIn(Only(old(transactions), ids), a));
    }

    method ImportRows(importId: Id, account: Id, rows: seq<Row>, choice: BalanceChoice)
          returns (problem: Option<Problem>)
      requires Valid(Now()) && Fresh(Now(), ImportFile(importId, account, rows, choice))
      modifies this
      ensures Leaves(AfterImport(old(Now()), importId, account, rows, choice), old(Now()), problem, Now())
    {
      hide TotalOf, Added;
      problem := ImportProblem(Now(), account, rows, choice);
      if problem.Some? {
        return;
      }
      var total := TotalAmount(rows);
      var change := BalanceChange(accounts[account], choice, total);
      imports := imports[importId := Import(account, total, change)];
      transactions := WithRows(transactions, rows, account, importId);
      if change != 0 {
        accounts := accounts[account := accounts[account].(balance := accounts[account].balance + change)];
      }
    }

    method UndoImport(importId: Id) returns (problem: Option<Problem>, removed: nat)
      requires Valid(Now())
      modifies this
      ensures Leaves(AfterUndo(old(Now()), importId), old(Now()), problem, Now())
      ensures problem.None? ==> removed == |RowsOf(old(transactions), importId)|
    {
      hide SumIn, MoveAll, Only;
      if importId !in imports {
        return Some(NotFound), 0;
      }
      var record, rows := imports[importId], RowsOf(transactions, importId).Keys;
      RowsAreOnly(transactions, importId);
      var changes := UndoChanges(transactions, rows, record);
      MoveBalances(changes);
      transactions := transactions - rows;
      imports := imports - {importId};
      problem, removed := None, |rows|;
      ghost var before := old(transactions);
      SameMoves(old(accounts), a => ChangeOf(changes, a),
        a => PutBack(record, a) - SumIn(RowsOf(before, importId), a));
    }

    method PatchBalance(account: Id, balance: int) returns (problem: Option<Problem>)
      modifies this
      ensures Leaves(AfterSetBalance(old(Now()), account, balance), old(Now()), problem, Now())
    {
      if account !in accounts {
        return Some(NotFound);
      }
      if balance != accounts[account].balance {
        if accounts[account].source.Linked? {
          return Some(LinkedAccount);
        }
        accounts := accounts[account := accounts[account].(balance := balance)];
      }
      problem := None;
    }

    method PatchClosed(account: Id, closed: bool) returns (problem: Option<Problem>)
      modifies this
      ensures Leaves(AfterSetClosed(old(Now()), account, closed), old(Now()), problem, Now())
    {
      if account !in accounts {
        return Some(NotFound);
      }
      accounts := accounts[account := accounts[account].(closed := closed)];
      problem := None;
    }
  }
}
