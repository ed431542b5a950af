/** Which of a file's rows an account already has (`imports/matching.py`). Every transaction is the
    match of one row at most: by the bank's ID, then by content, then by being near. Rows are known
    by their place in the file; texts are as they are compared. */
module Matching {
  import opened Wrappers

  const WINDOW := 3

  /** A row as the file has it. One that can't be read has no date or amount to speak of. */
  datatype Row = Row(readable: bool, date: int, amount: int, description: string, externalId: Option<string>)

  /** A transaction of the account. */
  datatype Transaction = Transaction(
    id: Id, date: int, amount: int, payee: string, description: Option<string>, externalId: Option<string>,
    fromFile: bool)

  datatype Content = Content(date: int, amount: int, text: string)

  function ContentOf(row: Row): Content {
    Content(row.date, row.amount, row.description)
  }

  function Described(t: Transaction): string {
    t.description.GetOr(t.payee)
  }

  predicate HasContent(t: Transaction, content: Content) {
    t.date == content.date && t.amount == content.amount && content.text in {Described(t), t.payee}
  }

  function Distance(t: Transaction, row: Row): int {
    if t.date < row.date then row.date - t.date else t.date - row.date
  }

  // ---- Rows that share an ID ----

  predicate HasId(row: Row, id: string) {
    row.readable && row.externalId == Some(id)
  }

  /** The first readable row with an ID. */
  function FirstWith(rows: seq<Row>, id: string): (i: nat)
    ensures i <= |rows|
  {
    if rows == [] || HasId(rows[0], id) then 0 else 1 + FirstWith(rows[1..], id)
  }

  lemma {:induction false} FirstIsFirst(rows: seq<Row>, id: string, n: nat)
    requires n < |rows|
    ensures n < FirstWith(rows, id) ==> !HasId(rows[n], id)
    ensures n == FirstWith(rows, id) ==> HasId(rows[n], id)
  {
    if n > 0 && !HasId(rows[0], id) {
      FirstIsFirst(rows[1..], id, n - 1);
    }
  }

  /** It repeats an earlier row with the same ID. */
  predicate Repeats(rows: seq<Row>, i: nat)
    requires i < |rows|
  {
    rows[i].readable && rows[i].externalId.Some? &&
    var first := FirstWith(rows, rows[i].externalId.value);
    first < i && ContentOf(rows[first]) == ContentOf(rows[i])
  }

  /** It only shares its ID with an earlier row, so it loses it. */
  predicate LosesId(rows: seq<Row>, i: nat)
    requires i < |rows|
  {
    rows[i].readable && rows[i].externalId.Some? &&
    var first := FirstWith(rows, rows[i].externalId.value);
    first < i && ContentOf(rows[first]) != ContentOf(rows[i])
  }

  lemma FateOf(rows: seq<Row>, n: nat)
    requires n < |rows|
    ensures !(rows[n].readable && rows[n].externalId.Some?) ==> !Repeats(rows, n) && !LosesId(rows, n)
    ensures rows[n].readable && rows[n].externalId.Some? ==>
      var first := FirstWith(rows, rows[n].externalId.value);
      && first <= n
      && (Repeats(rows, n) <==> first < n && ContentOf(rows[first]) == ContentOf(rows[n]))
      && (LosesId(rows, n) <==> first < n && ContentOf(rows[first]) != ContentOf(rows[n]))
  {
    if rows[n].readable && rows[n].externalId.Some? {
      FirstIsFirst(rows, rows[n].externalId.value, n);
    }
  }

  /** Only a row's own ID can be new with it. */
  lemma SeenNext(rows: seq<Row>, n: nat)
    requires n < |rows|
    ensures forall id :: FirstWith(rows, id) <= n && !(rows[n].readable && rows[n].externalId == Some(id)) ==>
        FirstWith(rows, id) < n
  {
    hide FirstWith;
    forall id | !(rows[n].readable && rows[n].externalId == Some(id))
      ensures FirstWith(rows, id) != n
    {
      FirstIsFirst(rows, id, n);
    }
  }

  function WithoutSharedIds(rows: seq<Row>): (r: seq<Row>)
    ensures |r| == |rows|
  {
    seq(|rows|, i requires 0 <= i < |rows| => if LosesId(rows, i) then rows[i].(externalId := None) else rows[i])
  }

  /** The first row of each ID among the first `n`. */
  ghost predicate Seen(rows: seq<Row>, seen: map<string, Row>, n: nat) {
    && (forall id :: id in seen <==> FirstWith(rows, id) < n)
    && (forall id :: id in seen ==> FirstWith(rows, id) < |rows| && seen[id] == rows[FirstWith(rows, id)])
  }

  lemma NextSeen(rows: seq<Row>, seen: map<string, Row>, n: nat)
    requires n < |rows| && Seen(rows, seen, n)
    ensures var row := rows[n];
      if row.readable && row.externalId.Some? && row.externalId.value !in seen
      then Seen(rows, seen[row.externalId.value := row], n + 1)
      else Seen(rows, seen, n + 1)
  {
    FateOf(rows, n);
    SeenNext(rows, n);
    hide FirstWith, Repeats, LosesId, HasId;
  }

  /** What the loop finds out about a row, from the first row with its ID. */
  lemma FateFromSeen(rows: seq<Row>, seen: map<string, Row>, n: nat)
    requires n < |rows| && Seen(rows, seen, n)
    ensures var row := rows[n];
      var shared := row.readable && row.externalId.Some? && row.externalId.value in seen;
      && (Repeats(rows, n) <==> shared && ContentOf(seen[row.externalId.value]) == ContentOf(row))
      && (LosesId(rows, n) <==> shared && ContentOf(seen[row.externalId.value]) != ContentOf(row))
  {
    FateOf(rows, n);
    hide FirstWith, Repeats, LosesId, ContentOf;
  }

  /** The source's loop: it remembers the first row of each ID. */
  method SameIds(rows: seq<Row>) returns (after: seq<Row>, repeats: seq<bool>)
    ensures after == WithoutSharedIds(rows)
    ensures |repeats| == |rows| && forall i :: 0 <= i < |rows| ==> repeats[i] == Repeats(rows, i)
  {
    after, repeats := rows, [];
    var seen: map<string, Row> := map[];
    assert Seen(rows, seen, 0);
    hide Seen, FirstWith, Repeats, LosesId, ContentOf;
    for n := 0 to |rows|
      invariant |after| == |rows| && |repeats| == n
      invariant forall i :: 0 <= i < |rows| ==>
          after[i] == if i < n && LosesId(rows, i) then rows[i].(externalId := None) else rows[i]
      invariant forall i :: 0 <= i < n ==> repeats[i] == Repeats(rows, i)
      invariant Seen(rows, seen, n)
    {
      NextSeen(rows, seen, n);
      FateFromSeen(rows, seen, n);
      var row, repeated := rows[n], false;
      if row.readable && row.externalId.Some? {
        var id := row.externalId.value;
        if id !in seen {
          seen := seen[id := row];
        } else if ContentOf(seen[id]) == ContentOf(row) {
          repeated := true;
        } else {
          after := after[n := row.(externalId := None)];
        }
      }
      repeats := repeats + [repeated];
    }
  }

  // ---- The account's transactions, and taking them ----

  /** The account's transaction with an ID; it has each once. */
  function WithId(table: seq<Transaction>, id: string): Option<Transaction> {
    if table == [] then None
    else if table[0].externalId == Some(id) then Some(table[0])
    else WithId(table[1..], id)
  }

  predicate InWindow(rows: seq<Row>, t: Transaction) {
    (exists i :: 0 <= i < |rows| && rows[i].readable && rows[i].date - WINDOW <= t.date) &&
    (exists i :: 0 <= i < |rows| && rows[i].readable && t.date <= rows[i].date + WINDOW)
  }

  /** The transactions around the file's days, in order. */
  function Around(table: seq<Transaction>, rows: seq<Row>): seq<Transaction> {
    if table == [] then []
    else Around(table[..|table| - 1], rows) + if InWindow(rows, table[|table| - 1]) then [table[|table| - 1]] else []
  }

  /** Those of them with a content, in order. */
  function WithContent(around: seq<Transaction>, content: Content): (r: seq<Transaction>)
    ensures forall t :: t in r <==> t in around && HasContent(t, content)
  {
    if around == [] then []
    else
      var last := around[|around| - 1];
      assert around == around[..|around| - 1] + [last];
      WithContent(around[..|around| - 1], content) + if HasContent(last, content) then [last] else []
  }

  /** The first not used yet; none only when all are used. */
  function FirstUnused(candidates: seq<Transaction>, used: set<Id>): (r: Option<Transaction>)
    ensures r.None? ==> forall t :: t in candidates ==> t.id in used
    ensures r.Some? ==> r.value in candidates && r.value.id !in used
  {
    if candidates == [] then None
    else if candidates[0].id !in used then Some(candidates[0])
    else
      assert candidates == [candidates[0]] + candidates[1..];
      FirstUnused(candidates[1..], used)
  }

  /** The first of them not used yet with a content. */
  function Unused(around: seq<Transaction>, used: set<Id>, content: Content): Option<Transaction> {
    FirstUnused(WithContent(around, content), used)
  }

  lemma {:induction false} FirstUnusedAppends(a: seq<Transaction>, b: seq<Transaction>, used: set<Id>)
    ensures FirstUnused(a + b, used) ==
        if FirstUnused(a, used).Some? then FirstUnused(a, used) else FirstUnused(b, used)
  {
    if a == [] {
      assert a + b == b;
    } else {
      assert (a + b)[1..] == a[1..] + b;
      FirstUnusedAppends(a[1..], b, used);
    }
  }

  /** It has the content and isn't used, and every one before it with that content is; there is
      none only when all with that content are used. */
  ghost predicate IsFirstUnused(around: seq<Transaction>, used: set<Id>, content: Content, found: Option<Transaction>) {
    if found.None? then forall t :: t in around && HasContent(t, content) ==> t.id in used
    else
      exists k :: 0 <= k < |around| && around[k] == found.value && HasContent(around[k], content) &&
        around[k].id !in used
        && forall i :: 0 <= i < k && HasContent(around[i], content) ==> around[i].id in used
  }

  lemma UnusedOfOneMore(around: seq<Transaction>, used: set<Id>, content: Content)
    requires around != []
    ensures var n := |around| - 1;
      var before := Unused(around[..n], used, content);
      Unused(around, used, content)
      == if before.Some? then before
         else if HasContent(around[n], content) && around[n].id !in used then Some(around[n])
         else None
  {
    var last := around[|around| - 1];
    hide HasContent;
    FirstUnusedAppends(WithContent(around[..|around| - 1], content), if HasContent(last, content) then [last] else [],
      used);
    assert [last][1..] == [];
  }

  lemma FirstOfOneMore(around: seq<Transaction>, used: set<Id>, content: Content, found: Option<Transaction>)
    requires around != [] && IsFirstUnused(around[..|around| - 1], used, content, found)
    ensures found.Some? ==> IsFirstUnused(around, used, content, found)
    ensures var last := around[|around| - 1];
      found.None? ==>
        IsFirstUnused(around, used, content, if HasContent(last, content) && last.id !in used then Some(last) else None)
  {
    hide HasContent;
    var n := |around| - 1;
    forall i | 0 <= i < n
      ensures around[..n][i] == around[i] && around[i] in around[..n]
    {
    }
    assert around == around[..n] + [around[n]];
  }

  lemma {:induction false} UnusedIsFirst(around: seq<Transaction>, used: set<Id>, content: Content)
    ensures IsFirstUnused(around, used, content, Unused(around, used, content))
  {
    if around != [] {
      var n := |around| - 1;
      UnusedIsFirst(around[..n], used, content);
      UnusedOfOneMore(around, used, content);
      FirstOfOneMore(around, used, content, Unused(around[..n], used, content));
    }
  }

  predicate SamePayee(t: Transaction, payee: string) {
    payee in {Described(t), t.payee}
  }

  predicate IsNear(t: Transaction, row: Row, payee: string) {
    t.amount == row.amount && Distance(t, row) <= if !t.fromFile || SamePayee(t, payee) then WINDOW else 0
  }

  /** Nearer: the same payee first, then fewer days off, then not from a file. */
  predicate Nearer(a: Transaction, b: Transaction, row: Row, payee: string) {
    if SamePayee(a, payee) != SamePayee(b, payee) then SamePayee(a, payee)
    else if Distance(a, row) != Distance(b, row) then Distance(a, row) < Distance(b, row)
    else !a.fromFile && b.fromFile
  }

  /** The nearest not used yet, and the earliest of several just as near. */
  function Nearest(around: seq<Transaction>, used: set<Id>, row: Row, payee: string): Option<Transaction> {
    if around == [] then None
    else
      var last := around[|around| - 1];
      var best := Nearest(around[..|around| - 1], used, row, payee);
      if last.id in used || !IsNear(last, row, payee) then best
      else if best.None? || Nearer(last, best.value, row, payee) then Some(last)
      else best
  }

  predicate CanBe(t: Transaction, used: set<Id>, row: Row, payee: string) {
    t.id !in used && IsNear(t, row, payee)
  }

  lemma NearerOrders(a: Transaction, b: Transaction, c: Transaction, row: Row, payee: string)
    requires Nearer(a, b, row, payee) && !Nearer(c, b, row, payee)
    ensures Nearer(a, c, row, payee)
  {
  }

  lemma NotBoth(a: Transaction, b: Transaction, row: Row, payee: string)
    requires Nearer(a, b, row, payee)
    ensures !Nearer(b, a, row, payee)
  {
  }

  lemma NotNearerThanItself(t: Transaction, row: Row, payee: string)
    ensures !Nearer(t, t, row, payee)
  {
  }

  /** Of all that can be it, none is nearer than the one found, and it is nearer than every earlier one. */
  lemma {:induction false} NearestIsNearest(around: seq<Transaction>, used: set<Id>, row: Row, payee: string)
        returns (k: nat)
    ensures var best := Nearest(around, used, row, payee);
      if best.None? then forall t :: t in around ==> !CanBe(t, used, row, payee)
      else
        && k < |around| && around[k] == best.value && CanBe(around[k], used, row, payee)
        && (forall i :: 0 <= i < k && CanBe(around[i], used, row, payee) ==> Nearer(around[k], around[i], row, payee))
        && (forall i :: k < i < |around| && CanBe(around[i], used, row, payee) ==>
          !Nearer(around[i], around[k], row, payee))
  {
    k := 0;
    if around != [] {
      hide IsNear, Nearer;
      var n := |around| - 1;
      var last, best := around[n], Nearest(around[..n], used, row, payee);
      k := NearestIsNearest(around[..n], used, row, payee);
      assert around == around[..n] + [last];
      if CanBe(last, used, row, payee) && (best.None? || Nearer(last, best.value, row, payee)) {
        forall i | 0 <= i < n && CanBe(around[i], used, row, payee)
          ensures Nearer(last, around[i], row, payee)
        {
          assert around[..n][i] == around[i] && around[i] in around[..n];
          if i < k {
            assert Nearer(best.value, around[i], row, payee);
            NotBoth(best.value, around[i], row, payee);
          }
          if i != k { NearerOrders(last, best.value, around[i], row, payee); }
        }
        k := n;
      }
    }
  }

  // ---- Going through the rows, taking a transaction for each ----

  function Take(found: Option<Transaction>, used: set<Id>): Option<Transaction> {
    if found.Some? && found.value.id !in used then found else None
  }

  /** What has been used, and what each row so far took. */
  datatype Progress = Progress(used: set<Id>, taken: seq<Option<Transaction>>) {
    function Then(took: Option<Transaction>): Progress {
      Progress(if took.Some? then used + {took.value.id} else used, taken + [took])
    }
  }

  /** The rows up to the n-th in turn, each that is looked for taking what it finds unless it's used. */
  function Phase(find: (nat, set<Id>) -> Option<Transaction>, looked: nat -> bool, start: set<Id>,
        n: nat): (r: Progress)
    ensures |r.taken| == n
  {
    if n == 0 then Progress(start, [])
    else
      var before := Phase(find, looked, start, n - 1);
      before.Then(if looked(n - 1) then Take(find(n - 1, before.used), before.used) else None)
  }

  /** The transaction with a row's ID, if that ID can be the bank's. */
  function FoundById(table: seq<Transaction>, row: Row): Option<Transaction> {
    if row.externalId.Some? && row.externalId.value != "" then WithId(table, row.externalId.value) else None
  }

  predicate IsSame(t: Transaction, row: Row) {
    t.amount == row.amount && Distance(t, row) <= WINDOW
  }

  function FindById(table: seq<Transaction>, rows: seq<Row>): (nat, set<Id>) -> Option<Transaction> {
    (i: nat, used: set<Id>) =>
      if i < |rows| then
        var found := FoundById(table, rows[i]);
        if found.Some? && IsSame(found.value, rows[i]) then found else None
      else None
  }

  function FindSame(around: seq<Transaction>, rows: seq<Row>): (nat, set<Id>) -> Option<Transaction> {
    (i: nat, used: set<Id>) => if i < |rows| then Unused(around, used, ContentOf(rows[i])) else None
  }

  function FindNear(around: seq<Transaction>, rows: seq<Row>,
        payeeOf: nat -> string): (nat, set<Id>) -> Option<Transaction> {
    (i: nat, used: set<Id>) => if i < |rows| then Nearest(around, used, rows[i], payeeOf(i)) else None
  }

  /** Rows that can be read and don't repeat an earlier one. */
  function IsFresh(rows: seq<Row>): nat -> bool {
    (i: nat) => i < |rows| && rows[i].readable && !Repeats(rows, i)
  }

  function StillLooked(wanted: nat -> bool, earlier: Progress): nat -> bool {
    (i: nat) => wanted(i) && i < |earlier.taken| && earlier.taken[i].None?
  }

  /** An ID the account has on something else isn't the bank's, so the row goes without it. */
  function WithoutForeignIds(rows: seq<Row>, wanted: nat -> bool, table: seq<Transaction>): (r: seq<Row>)
    ensures |r| == |rows|
  {
    seq(|rows|, i requires 0 <= i < |rows| =>
      var found := FoundById(table, rows[i]);
      if wanted(i) && found.Some? && !IsSame(found.value, rows[i]) then rows[i].(externalId := None) else rows[i])
  }

  datatype Status = New | Duplicate | PossibleDuplicate | Invalid

  /** A row's fate, the transaction it matches, and the ID it would be imported with. */
  datatype Reviewed = Reviewed(status: Status, match_: Option<Transaction>, externalId: Option<string>)

  datatype Phases = Phases(rows: seq<Row>, byId: Progress, same: Progress, near: Progress)

  function PhasesOf(rows: seq<Row>, table: seq<Transaction>, payeeOf: nat -> string): (r: Phases)
    ensures |r.rows| == |rows| && |r.byId.taken| == |rows| && |r.same.taken| == |rows| && |r.near.taken| == |rows|
  {
    var wanted, own, around, n := IsFresh(rows), WithoutSharedIds(rows), Around(table, rows), |rows|;
    var byId := Phase(FindById(table, own), wanted, {}, n);
    var left := WithoutForeignIds(own, wanted, table);
    var same := Phase(FindSame(around, left), StillLooked(wanted, byId), byId.used, n);
    var near := Phase(FindNear(around, left, payeeOf), StillLooked(StillLooked(wanted, byId), same), same.used, n);
    Phases(left, byId, same, near)
  }

  function Fate(rows: seq<Row>, phases: Phases, i: nat): Reviewed
    requires i < |rows| && |phases.rows| == |rows|
    requires |phases.byId.taken| == |rows| && |phases.same.taken| == |rows| && |phases.near.taken| == |rows|
  {
    if !rows[i].readable then Reviewed(Invalid, None, None)
    else if Repeats(rows, i) then Reviewed(Duplicate, None, None)
    else if phases.byId.taken[i].Some? then Reviewed(Duplicate, phases.byId.taken[i], None)
    else if phases.same.taken[i].Some? then Reviewed(PossibleDuplicate, phases.same.taken[i], phases.rows[i].externalId)
    else if phases.near.taken[i].Some? then Reviewed(PossibleDuplicate, phases.near.taken[i], phases.rows[i].externalId)
    else Reviewed(New, None, phases.rows[i].externalId)
  }

  function Review(rows: seq<Row>, table: seq<Transaction>, payeeOf: nat -> string): (r: seq<Reviewed>)
    ensures |r| == |rows|
  {
    var phases := PhasesOf(rows, table, payeeOf);
    seq(|rows|, i requires 0 <= i < |rows| => Fate(rows, phases, i))
  }

  // ---- The same, as the source does it ----

  function At<K, V>(index: map<K, seq<V>>, key: K): seq<V> {
    if key in index then index[key] else []
  }

  /** The transactions by what a row may say of them: a day, an amount and either of their texts. */
  method ByContent(around: seq<Transaction>) returns (index: map<Content, seq<Transaction>>)
    ensures forall content :: At(index, content) == WithContent(around, content)
  {
    index := map[];
    for n := 0 to |around|
      invariant forall content :: At(index, content) == WithContent(around[..n], content)
    {
      var t := around[n];
      ghost var before := index;
      var one := Content(t.date, t.amount, Described(t));
      index := index[one := At(index, one) + [t]];
      var other := Content(t.date, t.amount, t.payee);
      if other != one {
        index := index[other := At(index, other) + [t]];
      }
      assert around[..n + 1][..n] == around[..n];
      forall content
        ensures At(index, content) == At(before, content) + if HasContent(t, content) then [t] else []
      {
        assert HasContent(t, content) <==> content == one || content == other;
      }
      hide HasContent, At;
    }
    assert around[..|around|] == around;
  }

  function WithAmount(around: seq<Transaction>, amount: int): seq<Transaction> {
    if around == [] then []
    else
      var last := around[|around| - 1];
      WithAmount(around[..|around| - 1], amount) + if last.amount == amount then [last] else []
  }

  method ByAmount(around: seq<Transaction>) returns (index: map<int, seq<Transaction>>)
    ensures forall amount :: At(index, amount) == WithAmount(around, amount)
  {
    index := map[];
    for n := 0 to |around|
      invariant forall amount :: At(index, amount) == WithAmount(around[..n], amount)
    {
      assert around[..n + 1][..n] == around[..n];
      index := index[around[n].amount := At(index, around[n].amount) + [around[n]]];
    }
    assert around[..|around|] == around;
  }

  /** Only those with a row's amount can be near it. */
  lemma {:induction false} NearestHasTheAmount(around: seq<Transaction>, used: set<Id>, row: Row, payee: string)
    ensures Nearest(WithAmount(around, row.amount), used, row, payee) == Nearest(around, used, row, payee)
  {
    if around != [] {
      var n := |around| - 1;
      var before := WithAmount(around[..n], row.amount);
      NearestHasTheAmount(around[..n], used, row, payee);
      if around[n].amount == row.amount {
        assert (before + [around[n]])[..|before|] == before;
      } else {
        assert before + [] == before;
      }
    }
  }

  class Existing {
    const table: seq<Transaction>
    const around: seq<Transaction>
    const byContent: map<Content, seq<Transaction>>
    const byAmount: map<int, seq<Transaction>>
    var used: set<Id>

    constructor (table: seq<Transaction>, rows: seq<Row>)
      ensures this.table == table && around == Around(table, rows) && used == {} && Indexed()
    {
      var around := Around(table, rows);
      var byContent := ByContent(around);
      var byAmount := ByAmount(around);
      this.table, this.around, this.byContent, this.byAmount, used := table, around, byContent, byAmount, {};
    }

    ghost predicate Indexed() {
      && (forall content :: At(byContent, content) == WithContent(around, content))
      && (forall amount :: At(byAmount, amount) == WithAmount(around, amount))
    }

    method TakeOne(found: Option<Transaction>) returns (took: Option<Transaction>)
      modifies this`used
      ensures took == Take(found, old(used))
      ensures used == if took.Some? then old(used) + {took.value.id} else old(used)
    {
      if found.None? || found.value.id in used {
        return None;
      }
      used := used + {found.value.id};
      took := found;
    }

    /** The one with the row's ID, and the row, which loses an ID that isn't the bank's. */
    method SameId(row: Row) returns (took: Option<Transaction>, after: Row)
      modifies this`used
      ensures var found := FoundById(table, row);
        var same := found.Some? && IsSame(found.value, row);
        && took == Take(if same then found else None, old(used))
        && after == if found.Some? && !same then row.(externalId := None) else row
      ensures used == if took.Some? then old(used) + {took.value.id} else old(used)
    {
      var found := FoundById(table, row);
      after := row;
      if found.None? {
        return None, row;
      }
      if found.value.amount == row.amount && Distance(found.value, row) <= WINDOW {
        took := TakeOne(found);
        return;
      }
      after := row.(externalId := None);
      took := None;
    }

    /** The first with the row's content that isn't used. */
    method Same(row: Row) returns (took: Option<Transaction>)
      requires Indexed()
      modifies this`used
      ensures IsFirstUnused(around, old(used), ContentOf(row), took)
      ensures took == Take(Unused(around, old(used), ContentOf(row)), old(used))
      ensures used == if took.Some? then old(used) + {took.value.id} else old(used)
    {
      var candidates := At(byContent, ContentOf(row));
      assert candidates == WithContent(around, ContentOf(row));
      hide HasContent, WithContent;
      var k := 0;
      while k < |candidates| && candidates[k].id in used
        invariant k <= |candidates|
        invariant FirstUnused(candidates[k..], used) == FirstUnused(candidates, used)
      {
        assert candidates[k..][0] == candidates[k] && candidates[k..][1..] == candidates[k + 1..];
        k := k + 1;
      }
      assert FirstUnused(candidates, used) == if k < |candidates| then Some(candidates[k]) else None;
      UnusedIsFirst(around, used, ContentOf(row));
      took := TakeOne(if k < |candidates| then Some(candidates[k]) else None);
    }

    method Near(row: Row, payee: string) returns (took: Option<Transaction>)
      requires Indexed()
      modifies this`used
      ensures took == Take(Nearest(around, old(used), row, payee), old(used))
      ensures used == if took.Some? then old(used) + {took.value.id} else old(used)
    {
      var candidates := At(byAmount, row.amount);
      NearestHasTheAmount(around, used, row, payee);
      var best: Option<Transaction> := None;
      for n := 0 to |candidates|
        invariant used == old(used)
        invariant best == Nearest(candidates[..n], used, row, payee)
      {
        assert candidates[..n + 1][..n] == candidates[..n];
        var item := candidates[n];
        if item.id !in used && IsNear(item, row, payee) && (best.None? || Nearer(item, best.value, row, payee)) {
          best := Some(item);
        }
      }
      assert candidates[..|candidates|] == candidates;
      took := TakeOne(best);
    }
  }

  lemma PhaseStarts(find: (nat, set<Id>) -> Option<Transaction>, looked: nat -> bool, start: set<Id>)
    ensures Phase(find, looked, start, 0) == Progress(start, [])
  {
  }

  lemma PhaseNext(find: (nat, set<Id>) -> Option<Transaction>, looked: nat -> bool, start: set<Id>, n: nat)
    ensures var before := Phase(find, looked, start, n);
      Phase(find, looked, start, n + 1) ==
        before.Then(if looked(n) then Take(find(n, before.used), before.used) else None)
  {
  }

  /** The rows with the ID of a transaction take it. */
  method TakeById(existing: Existing, rows: seq<Row>, own: seq<Row>, repeats: seq<bool>) returns (left: seq<Row>,
        byId: seq<Option<Transaction>>)
    requires |own| == |rows| && |repeats| == |rows| && forall i :: 0 <= i < |rows| ==> repeats[i] == Repeats(rows, i)
    requires existing.used == {}
    modifies existing
    ensures left == WithoutForeignIds(own, IsFresh(rows), existing.table)
    ensures Progress(existing.used, byId) == Phase(FindById(existing.table, own), IsFresh(rows), {}, |rows|)
  {
    hide Repeats, Phase, FoundById, IsSame;
    ghost var find, wanted := FindById(existing.table, own), IsFresh(rows);
    left, byId := own, [];
    PhaseStarts(find, wanted, {});
    for i := 0 to |rows|
      invariant |left| == |rows| && Progress(existing.used, byId) == Phase(find, wanted, {}, i)
      invariant forall k :: 0 <= k < |rows| ==>
          left[k] == if k < i then WithoutForeignIds(own, wanted, existing.table)[k] else own[k]
    {
      var took: Option<Transaction> := None;
      if rows[i].readable && !repeats[i] {
        var row;
        took, row := existing.SameId(left[i]);
        left := left[i := row];
      }
      PhaseNext(find, wanted, {}, i);
      byId := byId + [took];
    }
  }

  /** Rows with nothing yet take a transaction with the same content, and then one that is near. */
  method TakeLike(existing: Existing, rows: seq<Row>, left: seq<Row>, repeats: seq<bool>, payeeOf: nat -> string,
        earlier: seq<Option<Transaction>>, near: bool)
    returns (taken: seq<Option<Transaction>>)
    requires |left| == |rows| && |repeats| == |rows| && forall i :: 0 <= i < |rows| ==> repeats[i] == Repeats(rows, i)
    requires |earlier| == |rows| && existing.Indexed()
    modifies existing
    ensures var find := if near then FindNear(existing.around, left, payeeOf) else FindSame(existing.around, left);
      var looked := (i: nat) => i < |rows| && rows[i].readable && !repeats[i] && earlier[i].None?;
      Progress(existing.used, taken) == Phase(find, looked, old(existing.used), |rows|)
  {
    hide Repeats, Phase, Unused, Nearest, Existing.Indexed;
    ghost var find := if near then FindNear(existing.around, left, payeeOf) else FindSame(existing.around, left);
    ghost var looked := (i: nat) => i < |rows| && rows[i].readable && !repeats[i] && earlier[i].None?;
    taken := [];
    PhaseStarts(find, looked, existing.used);
    for i := 0 to |rows|
      invariant Progress(existing.used, taken) == Phase(find, looked, old(existing.used), i)
    {
      var took: Option<Transaction> := None;
      if rows[i].readable && !repeats[i] && earlier[i].None? {
        if near {
          took := existing.Near(left[i], payeeOf(i));
        } else {
          took := existing.Same(left[i]);
        }
      }
      PhaseNext(find, looked, old(existing.used), i);
      taken := taken + [took];
    }
  }

  function Either(a: seq<Option<Transaction>>, b: seq<Option<Transaction>>): (r: seq<Option<Transaction>>)
    requires |a| == |b|
  {
    seq(|a|, i requires 0 <= i < |a| => if a[i].Some? then a[i] else b[i])
  }

  lemma {:induction false} SameLooked(a: nat -> bool, b: nat -> bool, find: (nat, set<Id>) -> Option<Transaction>,
        start: set<Id>, n: nat)
    requires forall i: nat :: i < n ==> a(i) == b(i)
    ensures Phase(find, a, start, n) == Phase(find, b, start, n)
  {
    if n > 0 {
      SameLooked(a, b, find, start, n - 1);
    }
  }

  method ReviewRows(rows: seq<Row>, table: seq<Transaction>, payeeOf: nat -> string) returns (reviewed: seq<Reviewed>)
    ensures reviewed == Review(rows, table, payeeOf)
  {
    hide Repeats, LosesId, Phase, Unused, Nearest, FoundById, IsSame, WithId, Around;
    var own, repeats := SameIds(rows);
    var existing := new Existing(table, rows);
    ghost var phases := PhasesOf(rows, table, payeeOf);
    var left, byId := TakeById(existing, rows, own, repeats);
    ghost var looked := (i: nat) => i < |rows| && rows[i].readable && !repeats[i] && byId[i].None?;
    SameLooked(looked, StillLooked(IsFresh(rows), phases.byId), FindSame(existing.around, left), existing.used, |rows|);
    var same := TakeLike(existing, rows, left, repeats, payeeOf, byId, false);
    var either := Either(byId, same);
    ghost var looked' := (i: nat) => i < |rows| && rows[i].readable && !repeats[i] && either[i].None?;
    SameLooked(looked', StillLooked(StillLooked(IsFresh(rows), phases.byId), phases.same), FindNear(existing.around,
      left, payeeOf), existing.used, |rows|);
    var near := TakeLike(existing, rows, left, repeats, payeeOf, either, true);
    assert phases.rows == left && phases.byId.taken == byId && phases.same.taken == same && phases.near.taken == near;
    reviewed := [];
    for i := 0 to |rows|
      invariant |reviewed| == i && forall k :: 0 <= k < i ==> reviewed[k] == Fate(rows, phases, k)
    {
      var fate := if !rows[i].readable then Reviewed(Invalid, None, None)
        else if repeats[i] then Reviewed(Duplicate, None, None)
        else if byId[i].Some? then Reviewed(Duplicate, byId[i], None)
        else if same[i].Some? then Reviewed(PossibleDuplicate, same[i], left[i].externalId)
        else if near[i].Some? then Reviewed(PossibleDuplicate, near[i], left[i].externalId)
        else Reviewed(New, None, left[i].externalId);
      reviewed := reviewed + [fate];
    }
  }

  // ---- Every transaction matches one row at most ----

  lemma {:induction false} PhaseTakesOnce(find: (nat, set<Id>) -> Option<Transaction>, looked: nat -> bool,
        start: set<Id>, n: nat)
    ensures var p := Phase(find, looked, start, n);
      && start <= p.used
      && (forall i :: 0 <= i < n && p.taken[i].Some? ==> p.taken[i].value.id in p.used && p.taken[i].value.id !in start)
      && (forall i, j :: 0 <= i < j < n && p.taken[i].Some? && p.taken[j].Some? ==>
        p.taken[i].value.id != p.taken[j].value.id)
  {
    if n > 0 {
      PhaseTakesOnce(find, looked, start, n - 1);
    }
  }

  lemma {:induction false} MatchesAreInjective(rows: seq<Row>, table: seq<Transaction>, payeeOf: nat -> string,
        i: nat, j: nat)
    requires i < j < |rows|
    ensures var a, b := Review(rows, table, payeeOf)[i].match_, Review(rows, table, payeeOf)[j].match_;
      a.Some? && b.Some? ==> a.value.id != b.value.id
  {
    var wanted, own, around, n := IsFresh(rows), WithoutSharedIds(rows), Around(table, rows), |rows|;
    var phases := PhasesOf(rows, table, payeeOf);
    PhaseTakesOnce(FindById(table, own), wanted, {}, n);
    PhaseTakesOnce(FindSame(around, phases.rows), StillLooked(wanted, phases.byId), phases.byId.used, n);
    PhaseTakesOnce(FindNear(around, phases.rows, payeeOf), StillLooked(StillLooked(wanted, phases.byId), phases.same),
      phases.same.used, n);
    hide Phase, Around, Repeats, LosesId, WithoutForeignIds;
  }

  // ---- An account has each ID once ----

  ghost predicate UniqueIds(table: seq<Transaction>) {
    forall i, j :: 0 <= i < j < |table| && table[i].externalId.Some? ==> table[i].externalId != table[j].externalId
  }

  /** Transactions are rows of a table, each with its own identifier. */
  ghost predicate DistinctRows(table: seq<Transaction>) {
    forall i, j :: 0 <= i < j < |table| ==> table[i].id != table[j].id
  }

  lemma {:induction false} WithIdIsTheOne(table: seq<Transaction>, id: string)
    ensures WithId(table, id).Some? ==>
        WithId(table, id).value in table && WithId(table, id).value.externalId == Some(id)
    ensures WithId(table, id).None? ==> forall t :: t in table ==> t.externalId != Some(id)
  {
    if table != [] {
      WithIdIsTheOne(table[1..], id);
      assert table == [table[0]] + table[1..];
    }
  }

  predicate Importable(r: Reviewed) {
    r.status.New? || r.status.PossibleDuplicate?
  }

  /** Rows of a file never have an empty ID: the readers turn one into none. */
  ghost predicate NoEmptyIds(rows: seq<Row>) {
    forall i :: 0 <= i < |rows| ==> rows[i].externalId != Some("")
  }

  /** Of the rows that don't repeat another, only the first with an ID still has it. */
  lemma KeptIdIsFirst(rows: seq<Row>, i: nat)
    requires i < |rows| && rows[i].readable && !Repeats(rows, i) && WithoutSharedIds(rows)[i].externalId.Some?
    ensures rows[i].externalId == WithoutSharedIds(rows)[i].externalId
    ensures i == FirstWith(rows, rows[i].externalId.value)
  {
    FateOf(rows, i);
  }

  /** Two rows whose IDs are of the same transaction are the same row. */
  lemma SameRowSameId(rows: seq<Row>, table: seq<Transaction>, i: nat, j: nat)
    requires i < |rows| && j < |rows| && IsFresh(rows)(i) && IsFresh(rows)(j) && DistinctRows(table)
    requires var own := WithoutSharedIds(rows);
      var a, b := FoundById(table, own[i]), FoundById(table, own[j]);
      a.Some? && b.Some? && a.value.id == b.value.id
    ensures i == j
  {
    var own := WithoutSharedIds(rows);
    WithIdIsTheOne(table, own[i].externalId.value);
    WithIdIsTheOne(table, own[j].externalId.value);
    KeptIdIsFirst(rows, i);
    KeptIdIsFirst(rows, j);
  }

  /** Looking by ID never finds the same transaction for two rows, so nothing found is used already. */
  lemma {:induction false} ByIdTakesWhatItFinds(rows: seq<Row>, table: seq<Transaction>, n: nat)
    requires n <= |rows| && UniqueIds(table) && DistinctRows(table)
    ensures var own := WithoutSharedIds(rows);
      var p := Phase(FindById(table, own), IsFresh(rows), {}, n);
      && (forall i :: 0 <= i < n ==> p.taken[i] == if IsFresh(rows)(i) then FindById(table, own)(i, {}) else None)
      && (forall x :: x in p.used <==> exists i :: 0 <= i < n && p.taken[i].Some? && p.taken[i].value.id == x)
  {
    hide FoundById, WithoutSharedIds, Repeats, UniqueIds, DistinctRows, IsSame;
    if n > 0 {
      var own := WithoutSharedIds(rows);
      ByIdTakesWhatItFinds(rows, table, n - 1);
      var p := Phase(FindById(table, own), IsFresh(rows), {}, n - 1);
      var found := FindById(table, own)(n - 1, {});
      assert FindById(table, own)(n - 1, p.used) == found;
      if IsFresh(rows)(n - 1) && found.Some? && found.value.id in p.used {
        var i :| 0 <= i < n - 1 && p.taken[i].Some? && p.taken[i].value.id == found.value.id;
        SameRowSameId(rows, table, i, n - 1);
      }
    }
  }

  lemma {:induction false} ImportableRow(rows: seq<Row>, table: seq<Transaction>, payeeOf: nat -> string, i: nat)
    requires i < |rows| && Importable(Review(rows, table, payeeOf)[i])
    ensures IsFresh(rows)(i)
    ensures Phase(FindById(table, WithoutSharedIds(rows)), IsFresh(rows), {}, |rows|).taken[i].None?
    ensures Review(rows, table, payeeOf)[i].externalId ==
        WithoutForeignIds(WithoutSharedIds(rows), IsFresh(rows), table)[i].externalId
  {
    hide Phase, Repeats, LosesId, Around, FoundById, IsSame;
  }

  /** A row that can be imported comes with an ID only if neither the account nor another such row has it. */
  lemma {:induction false} ImportableIdsAreNew(rows: seq<Row>, table: seq<Transaction>, payeeOf: nat -> string, i: nat)
    requires i < |rows| && UniqueIds(table) && DistinctRows(table) && NoEmptyIds(rows)
    requires var r := Review(rows, table, payeeOf)[i]; Importable(r) && r.externalId.Some?
    ensures var id := Review(rows, table, payeeOf)[i].externalId;
      && rows[i].externalId == id && i == FirstWith(rows, id.value)
      && forall t :: t in table ==> t.externalId != id
  {
    var own := WithoutSharedIds(rows);
    ImportableRow(rows, table, payeeOf, i);
    ByIdTakesWhatItFinds(rows, table, |rows|);
    hide Phase, PhasesOf, Review, Repeats, LosesId, FirstWith, WithId, UniqueIds, DistinctRows, WithoutSharedIds;
    KeptIdIsFirst(rows, i);
    WithIdIsTheOne(table, own[i].externalId.value);
  }

  // ---- What an answer says of its row ----

  lemma {:induction false} AroundIsTheWindow(table: seq<Transaction>, rows: seq<Row>)
    ensures forall t :: t in Around(table, rows) <==> t in table && InWindow(rows, t)
  {
    if table != [] {
      AroundIsTheWindow(table[..|table| - 1], rows);
      assert table == table[..|table| - 1] + [table[|table| - 1]];
    }
  }

  /** What a phase has used is what it was given and what its rows took, each of which was looked for. */
  lemma {:induction false} PhaseUsesWhatItTakes(find: (nat, set<Id>) -> Option<Transaction>, looked: nat -> bool,
        start: set<Id>, n: nat)
    ensures var p := Phase(find, looked, start, n);
      && (forall x :: x in p.used && x !in start ==>
        exists i :: 0 <= i < n && p.taken[i].Some? && p.taken[i].value.id == x)
      && (forall i :: 0 <= i < n && p.taken[i].Some? ==> looked(i))
  {
    if n > 0 {
      PhaseUsesWhatItTakes(find, looked, start, n - 1);
      var before, p := Phase(find, looked, start, n - 1), Phase(find, looked, start, n);
      forall x | x in p.used && x !in start
        ensures exists i :: 0 <= i < n && p.taken[i].Some? && p.taken[i].value.id == x
      {
        if x in before.used {
          var i :| 0 <= i < n - 1 && before.taken[i].Some? && before.taken[i].value.id == x;
          assert p.taken[i] == before.taken[i];
        } else {
          assert p.taken[n - 1].Some? && p.taken[n - 1].value.id == x;
        }
      }
    }
  }

  /** What a row of a phase takes is what it finds with what was used just then. */
  lemma {:induction false} PhaseTakesWhatItFinds(find: (nat, set<Id>) -> Option<Transaction>, looked: nat -> bool,
        start: set<Id>, i: nat, n: nat) returns (used: set<Id>)
    requires i < n
    ensures var p := Phase(find, looked, start, n);
      start <= used <= p.used && p.taken[i] == if looked(i) then Take(find(i, used), used) else None
  {
    PhaseTakesOnce(find, looked, start, n - 1);
    if i < n - 1 {
      used := PhaseTakesWhatItFinds(find, looked, start, i, n - 1);
    } else {
      used := Phase(find, looked, start, i).used;
    }
  }

  /** The three phases one after another, and what each looks for and finds. */
  lemma PhasesAre(rows: seq<Row>, table: seq<Transaction>, payeeOf: nat -> string)
    ensures var phases, own, around, wanted := PhasesOf(rows, table, payeeOf), WithoutSharedIds(rows),
        Around(table, rows), IsFresh(rows);
      && phases.rows == WithoutForeignIds(own, wanted, table)
      && phases.byId == Phase(FindById(table, own), wanted, {}, |rows|)
      && phases.same == Phase(FindSame(around, phases.rows), StillLooked(wanted, phases.byId), phases.byId.used, |rows|)
      && phases.near == Phase(FindNear(around, phases.rows, payeeOf),
        StillLooked(StillLooked(wanted, phases.byId), phases.same), phases.same.used, |rows|)
  {
    hide Phase, Around, Repeats, LosesId, WithoutForeignIds;
  }

  lemma NearestIsThere(around: seq<Transaction>, used: set<Id>, row: Row, payee: string)
    ensures var best := Nearest(around, used, row, payee);
      best.Some? ==> best.value in around && CanBe(best.value, used, row, payee)
  {
    var k := NearestIsNearest(around, used, row, payee);
  }

  /** A row takes one transaction at most, of the account, and that is its match. */
  lemma TakenIsItsMatch(rows: seq<Row>, table: seq<Transaction>, payeeOf: nat -> string, i: nat)
    requires i < |rows|
    ensures var phases, match_ := PhasesOf(rows, table, payeeOf), Review(rows, table, payeeOf)[i].match_;
      && (phases.byId.taken[i].Some? ==> match_ == phases.byId.taken[i] && match_.value in table)
      && (phases.same.taken[i].Some? ==> match_ == phases.same.taken[i] && match_.value in table)
      && (phases.near.taken[i].Some? ==> match_ == phases.near.taken[i] && match_.value in table)
  {
    var wanted, own, around, n := IsFresh(rows), WithoutSharedIds(rows), Around(table, rows), |rows|;
    var phases := PhasesOf(rows, table, payeeOf);
    PhasesAre(rows, table, payeeOf);
    AroundIsTheWindow(table, rows);
    var used := PhaseTakesWhatItFinds(FindById(table, own), wanted, {}, i, n);
    if own[i].externalId.Some? {
      WithIdIsTheOne(table, own[i].externalId.value);
    }
    used := PhaseTakesWhatItFinds(FindSame(around, phases.rows), StillLooked(wanted, phases.byId), phases.byId.used, i,
      n);
    used := PhaseTakesWhatItFinds(FindNear(around, phases.rows, payeeOf),
      StillLooked(StillLooked(wanted, phases.byId), phases.same), phases.same.used, i, n);
    NearestIsThere(around, used, phases.rows[i], payeeOf(i));
    hide Phase, PhasesOf, Around, Repeats, LosesId, WithoutForeignIds, WithId, Nearest, IsNear, InWindow, FirstUnused;
  }

  /** What has been used in the end is what the rows match. */
  lemma UsedIsMatched(rows: seq<Row>, table: seq<Transaction>, payeeOf: nat -> string, x: Id) returns (i: nat)
    requires x in PhasesOf(rows, table, payeeOf).near.used
    ensures i < |rows|
    ensures var match_ := Review(rows, table, payeeOf)[i].match_;
      match_.Some? && match_.value.id == x && match_.value in table
  {
    var wanted, own, around, n := IsFresh(rows), WithoutSharedIds(rows), Around(table, rows), |rows|;
    var phases := PhasesOf(rows, table, payeeOf);
    PhasesAre(rows, table, payeeOf);
    PhaseUsesWhatItTakes(FindById(table, own), wanted, {}, n);
    PhaseUsesWhatItTakes(FindSame(around, phases.rows), StillLooked(wanted, phases.byId), phases.byId.used, n);
    PhaseUsesWhatItTakes(FindNear(around, phases.rows, payeeOf),
      StillLooked(StillLooked(wanted, phases.byId), phases.same), phases.same.used, n);
    hide Phase, PhasesOf, Review, Around, Repeats, LosesId, WithoutForeignIds, WithoutSharedIds, FindById, FindSame;
    hide FindNear, StillLooked;
    i :| 0 <= i < n && (
      || (phases.byId.taken[i].Some? && phases.byId.taken[i].value.id == x)
      || (phases.same.taken[i].Some? && phases.same.taken[i].value.id == x)
      || (phases.near.taken[i].Some? && phases.near.taken[i].value.id == x));
    TakenIsItsMatch(rows, table, payeeOf, i);
  }

  lemma SameTransaction(table: seq<Transaction>, a: Transaction, b: Transaction)
    requires DistinctRows(table) && a in table && b in table && a.id == b.id
    ensures a == b
  {
  }

  lemma OneOfThemIsMatched(rows: seq<Row>, table: seq<Transaction>, payeeOf: nat -> string, t: Transaction)
    requires DistinctRows(table) && t in table && t.id in PhasesOf(rows, table, payeeOf).near.used
    ensures exists i :: 0 <= i < |rows| && Review(rows, table, payeeOf)[i].match_ == Some(t)
  {
    hide *;
    var i := UsedIsMatched(rows, table, payeeOf, t.id);
    SameTransaction(table, Review(rows, table, payeeOf)[i].match_.value, t);
  }

  ghost predicate SaysTheSame(a: Row, b: Row) {
    a.date == b.date && a.amount == b.amount && a.description == b.description
  }

  /** No readable row before this one has its ID. */
  ghost predicate IsFirstWithId(rows: seq<Row>, id: Option<string>, i: nat)
    requires i < |rows|
  {
    rows[i].readable && rows[i].externalId == id
    && forall j :: 0 <= j < i ==> !(rows[j].readable && rows[j].externalId == id)
  }

  lemma FirstWithIs(rows: seq<Row>, id: string, i: nat)
    requires i < |rows| && HasId(rows[i], id)
    ensures FirstWith(rows, id) <= i && HasId(rows[FirstWith(rows, id)], id)
    ensures forall j :: 0 <= j < FirstWith(rows, id) ==> !HasId(rows[j], id)
  {
    FirstIsFirst(rows, id, i);
    FirstIsFirst(rows, id, FirstWith(rows, id));
    forall j | 0 <= j < FirstWith(rows, id)
      ensures !HasId(rows[j], id)
    {
      FirstIsFirst(rows, id, j);
    }
  }

  /** Where an answer comes from. */
  lemma AnswerIs(rows: seq<Row>, table: seq<Transaction>, payeeOf: nat -> string, i: nat)
    requires i < |rows|
    ensures var phases, r := PhasesOf(rows, table, payeeOf), Review(rows, table, payeeOf)[i];
      && (r.status.Invalid? <==> !rows[i].readable)
      && (r.status.Duplicate? && r.match_.None? <==> rows[i].readable && Repeats(rows, i))
      && (r.status.Duplicate? && r.match_.Some? <==> IsFresh(rows)(i) && phases.byId.taken[i].Some?)
      && (r.status.PossibleDuplicate? ==>
        IsFresh(rows)(i) && phases.byId.taken[i].None? && r.match_.Some?
        && r.match_ == if phases.same.taken[i].Some? then phases.same.taken[i] else phases.near.taken[i])
      && (r.status.Invalid? || r.status.New? ==> r.match_.None?)
  {
    hide PhasesOf, Repeats;
  }

  /** A row is in the file twice if and only if the first row with its ID comes before it and says the same. */
  lemma RepeatsTheFirst(rows: seq<Row>, table: seq<Transaction>, payeeOf: nat -> string, i: nat)
    requires i < |rows|
    ensures var r, row := Review(rows, table, payeeOf)[i], rows[i];
      r.status.Duplicate? && r.match_.None? <==>
        row.readable && row.externalId.Some? &&
        exists j :: 0 <= j < i && IsFirstWithId(rows, row.externalId, j) && SaysTheSame(rows[j], row)
  {
    AnswerIs(rows, table, payeeOf, i);
    hide PhasesOf, Review, FirstWith;
    if rows[i].readable && rows[i].externalId.Some? {
      FirstWithIs(rows, rows[i].externalId.value, i);
    }
  }

  /** A row is known by its ID if and only if it is the first readable row with it and the account
      has it, on a transaction of the row's amount within three days. */
  lemma KnownByIdExactly(rows: seq<Row>, table: seq<Transaction>, payeeOf: nat -> string, i: nat, t: Transaction)
    requires i < |rows| && UniqueIds(table) && DistinctRows(table) && t in table
    ensures var r, row := Review(rows, table, payeeOf)[i], rows[i];
      r.status.Duplicate? && r.match_ == Some(t) <==>
        row.readable && row.externalId.Some? && row.externalId.value != "" && t.externalId == row.externalId
        && IsFirstWithId(rows, row.externalId, i)
        && t.amount == row.amount && row.date - 3 <= t.date <= row.date + 3
  {
    var own := WithoutSharedIds(rows);
    AnswerIs(rows, table, payeeOf, i);
    TakenIsItsMatch(rows, table, payeeOf, i);
    PhasesAre(rows, table, payeeOf);
    ByIdTakesWhatItFinds(rows, table, |rows|);
    hide PhasesOf, Phase, Review, FirstWith, WithId;
    if rows[i].readable && rows[i].externalId.Some? {
      FirstWithIs(rows, rows[i].externalId.value, i);
      WithIdIsTheOne(table, rows[i].externalId.value);
      FateOf(rows, i);
    }
  }

  /** What a row can be imported with: its ID, if and only if no readable row before it has it and the
      account doesn't. */
  lemma KeepsItsIdExactly(rows: seq<Row>, table: seq<Transaction>, payeeOf: nat -> string, i: nat)
    requires i < |rows| && UniqueIds(table) && DistinctRows(table) && NoEmptyIds(rows)
    requires Importable(Review(rows, table, payeeOf)[i]) && rows[i].externalId.Some?
    ensures Review(rows, table, payeeOf)[i].externalId ==
      if IsFirstWithId(rows, rows[i].externalId, i) && forall t :: t in table ==> t.externalId != rows[i].externalId
      then rows[i].externalId
      else None
  {
    ImportableRow(rows, table, payeeOf, i);
    ByIdTakesWhatItFinds(rows, table, |rows|);
    hide Phase, Review, FirstWith, WithId;
    FirstWithIs(rows, rows[i].externalId.value, i);
    WithIdIsTheOne(table, rows[i].externalId.value);
    FateOf(rows, i);
  }

  /** A row is new only if each transaction that could be it is another row's: every one with its
      amount within three days, on the day itself if it came from a file under another payee. */
  lemma NewIsNowhereElse(rows: seq<Row>, table: seq<Transaction>, payeeOf: nat -> string, i: nat, t: Transaction)
    requires i < |rows| && DistinctRows(table) && Review(rows, table, payeeOf)[i].status.New? && t in table
    requires t.amount == rows[i].amount && rows[i].date - 3 <= t.date <= rows[i].date + 3
    requires t.fromFile && payeeOf(i) != t.payee && payeeOf(i) != t.description.GetOr(t.payee) ==>
        t.date == rows[i].date
    ensures exists j :: 0 <= j < |rows| && Review(rows, table, payeeOf)[j].match_ == Some(t)
  {
    var wanted, around := IsFresh(rows), Around(table, rows);
    var phases := PhasesOf(rows, table, payeeOf);
    PhasesAre(rows, table, payeeOf);
    AroundIsTheWindow(table, rows);
    assert InWindow(rows, t);
    assert IsNear(t, phases.rows[i], payeeOf(i));
    var used := PhaseTakesWhatItFinds(FindNear(around, phases.rows, payeeOf),
      StillLooked(StillLooked(wanted, phases.byId), phases.same), phases.same.used, i, |rows|);
    var k := NearestIsNearest(around, used, phases.rows[i], payeeOf(i));
    hide Phase, PhasesOf, Around, Repeats, LosesId, WithoutForeignIds, Nearest, IsNear, InWindow;
    assert !CanBe(t, used, phases.rows[i], payeeOf(i));
    OneOfThemIsMatched(rows, table, payeeOf, t);
  }

  /** A row that is possibly in the account matches a transaction it has there, of the row's amount
      and within three days, on the day itself if it came from a file under another payee. */
  lemma PossibleDuplicateIsClose(rows: seq<Row>, table: seq<Transaction>, payeeOf: nat -> string, i: nat)
    requires i < |rows| && Review(rows, table, payeeOf)[i].status.PossibleDuplicate?
    ensures rows[i].readable && Review(rows, table, payeeOf)[i].match_.Some?
    ensures var t := Review(rows, table, payeeOf)[i].match_.value;
      && t in table && t.amount == rows[i].amount && rows[i].date - 3 <= t.date <= rows[i].date + 3
      && (t.fromFile && payeeOf(i) != t.payee && payeeOf(i) != t.description.GetOr(t.payee) ==>
        t.date == rows[i].date)
  {
    var wanted, around, n := IsFresh(rows), Around(table, rows), |rows|;
    var phases := PhasesOf(rows, table, payeeOf);
    PhasesAre(rows, table, payeeOf);
    AnswerIs(rows, table, payeeOf, i);
    TakenIsItsMatch(rows, table, payeeOf, i);
    var used := PhaseTakesWhatItFinds(FindSame(around, phases.rows), StillLooked(wanted, phases.byId),
      phases.byId.used, i, n);
    UnusedIsFirst(around, used, ContentOf(phases.rows[i]));
    used := PhaseTakesWhatItFinds(FindNear(around, phases.rows, payeeOf),
      StillLooked(StillLooked(wanted, phases.byId), phases.same), phases.same.used, i, n);
    NearestIsThere(around, used, phases.rows[i], payeeOf(i));
    hide Phase, PhasesOf, Review, Around, Repeats, LosesId, Unused, Nearest;
  }

  lemma NearestBeats(around: seq<Transaction>, used: set<Id>, row: Row, payee: string, t: Transaction)
    requires t in around && CanBe(t, used, row, payee)
    ensures var best := Nearest(around, used, row, payee);
      best.Some? && best.value.id !in used && !Nearer(t, best.value, row, payee)
  {
    hide IsNear, Nearer;
    var k := NearestIsNearest(around, used, row, payee);
    var at :| 0 <= at < |around| && around[at] == t;
    var best := Nearest(around, used, row, payee);
    if at < k {
      NotBoth(best.value, t, row, payee);
    } else if at == k {
      NotNearerThanItself(t, row, payee);
    }
  }

  lemma UnusedHasContent(around: seq<Transaction>, used: set<Id>, content: Content, t: Transaction)
    requires t in around && HasContent(t, content) && t.id !in used
    ensures Unused(around, used, content).Some?
  {
    hide HasContent;
    UnusedIsFirst(around, used, content);
  }

  lemma WhatItTookBeats(rows: seq<Row>, table: seq<Transaction>, payeeOf: nat -> string, i: nat, t: Transaction)
    requires i < |rows| && t in Around(table, rows) && t.id !in PhasesOf(rows, table, payeeOf).near.used
    requires IsFresh(rows)(i) && PhasesOf(rows, table, payeeOf).byId.taken[i].None?
    ensures var phases := PhasesOf(rows, table, payeeOf);
      var same, near := phases.same.taken[i], phases.near.taken[i];
      && (HasContent(t, ContentOf(phases.rows[i])) ==> same.Some?)
      && (same.Some? ==> HasContent(same.value, ContentOf(phases.rows[i])))
      && (same.None? && IsNear(t, phases.rows[i], payeeOf(i)) ==>
        near.Some? && !Nearer(t, near.value, phases.rows[i], payeeOf(i)))
  {
    var wanted, around, n := IsFresh(rows), Around(table, rows), |rows|;
    var phases := PhasesOf(rows, table, payeeOf);
    var row := phases.rows[i];
    PhasesAre(rows, table, payeeOf);
    PhaseTakesOnce(FindNear(around, phases.rows, payeeOf),
      StillLooked(StillLooked(wanted, phases.byId), phases.same), phases.same.used, n);
    hide PhasesOf, Around, Repeats, LosesId, WithoutForeignIds, Nearer, IsNear, HasContent, ContentOf;
    var used := PhaseTakesWhatItFinds(FindSame(around, phases.rows), StillLooked(wanted, phases.byId),
      phases.byId.used, i, n);
    hide Phase;
    UnusedIsFirst(around, used, ContentOf(row));
    if HasContent(t, ContentOf(row)) {
      UnusedHasContent(around, used, ContentOf(row), t);
    }
    hide Unused;
    used := PhaseTakesWhatItFinds(FindNear(around, phases.rows, payeeOf),
      StillLooked(StillLooked(wanted, phases.byId), phases.same), phases.same.used, i, n);
    if IsNear(t, row, payeeOf(i)) {
      NearestBeats(around, used, row, payeeOf(i), t);
    }
  }

  lemma NothingLeftIsBetter(rows: seq<Row>, table: seq<Transaction>, payeeOf: nat -> string, i: nat, t: Transaction)
    requires i < |rows| && DistinctRows(table) && Review(rows, table, payeeOf)[i].status.PossibleDuplicate?
    requires t in table && forall j :: 0 <= j < |rows| ==> Review(rows, table, payeeOf)[j].match_ != Some(t)
    requires t.amount == rows[i].amount && rows[i].date - 3 <= t.date <= rows[i].date + 3
    requires t.fromFile && payeeOf(i) != t.payee && payeeOf(i) != t.description.GetOr(t.payee) ==>
        t.date == rows[i].date
    ensures Review(rows, table, payeeOf)[i].match_.Some?
    ensures var row, m := PhasesOf(rows, table, payeeOf).rows[i], Review(rows, table, payeeOf)[i].match_.value;
      && (HasContent(t, ContentOf(row)) ==> HasContent(m, ContentOf(row)))
      && (!HasContent(m, ContentOf(row)) ==> !Nearer(t, m, row, payeeOf(i)))
      && m.amount == row.amount
  {
    var phases := PhasesOf(rows, table, payeeOf);
    AnswerIs(rows, table, payeeOf, i);
    AroundIsTheWindow(table, rows);
    assert t in Around(table, rows) by { assert InWindow(rows, t); }
    assert phases.rows[i].date == rows[i].date && phases.rows[i].amount == rows[i].amount;
    assert IsNear(t, phases.rows[i], payeeOf(i));
    PossibleDuplicateIsClose(rows, table, payeeOf, i);
    hide PhasesOf, Review, Around, Repeats, Nearer, IsNear, HasContent, InWindow, DistinctRows;
    if t.id in phases.near.used {
      OneOfThemIsMatched(rows, table, payeeOf, t);
    }
    WhatItTookBeats(rows, table, payeeOf, i, t);
  }

  /** Nothing better is left: a transaction that no row matches and that could be the row's has the
      row's content only if the match has it; and if the match doesn't, it is no nearer than the match. */
  lemma NoneLeftIsBetter(rows: seq<Row>, table: seq<Transaction>, payeeOf: nat -> string, i: nat, t: Transaction)
    requires i < |rows| && DistinctRows(table) && Review(rows, table, payeeOf)[i].status.PossibleDuplicate?
    requires t in table && forall j :: 0 <= j < |rows| ==> Review(rows, table, payeeOf)[j].match_ != Some(t)
    requires t.amount == rows[i].amount && rows[i].date - 3 <= t.date <= rows[i].date + 3
    requires t.fromFile && payeeOf(i) != t.payee && payeeOf(i) != t.description.GetOr(t.payee) ==>
        t.date == rows[i].date
    ensures Review(rows, table, payeeOf)[i].match_.Some?
    ensures var row, m := rows[i], Review(rows, table, payeeOf)[i].match_.value;
      var hasContent := (t: Transaction) =>
        t.date == row.date && (row.description == t.payee || row.description == t.description.GetOr(t.payee));
      var samePayee := (t: Transaction) => payeeOf(i) == t.payee || payeeOf(i) == t.description.GetOr(t.payee);
      var daysOff := (t: Transaction) => if t.date < row.date then row.date - t.date else t.date - row.date;
      && (hasContent(t) ==> hasContent(m))
      && (!hasContent(m) ==>
        && (samePayee(t) ==> samePayee(m))
        && (samePayee(t) == samePayee(m) ==> daysOff(m) <= daysOff(t))
        && (samePayee(t) == samePayee(m) && daysOff(m) == daysOff(t) && m.fromFile ==> t.fromFile))
  {
    var phases := PhasesOf(rows, table, payeeOf);
    NothingLeftIsBetter(rows, table, payeeOf, i, t);
    assert phases.rows[i].date == rows[i].date && phases.rows[i].description == rows[i].description;
    hide PhasesOf, Review;
  }

  // ---- Importing, and reading the file again ----

  /** The transaction a row is imported as, under the payee it was named. */
  function Imported(row: Row, payee: string, externalId: Option<string>, id: Id): Transaction {
    var description := if row.description == "" then None else Some(row.description);
    Transaction(id, row.date, row.amount, payee, description, externalId, true)
  }

  /** A choice of rows to import, with the payee and the identifier each one's transaction gets. */
  datatype Choice = Choice(wants: nat -> bool, payee: nat -> string, id: nat -> Id)

  function AddedFor(rows: seq<Row>, reviewed: seq<Reviewed>, choice: Choice, i: nat): Transaction
    requires i < |rows| && |reviewed| == |rows|
  {
    Imported(rows[i], choice.payee(i), reviewed[i].externalId, choice.id(i))
  }

  /** What importing the chosen of the first `n` rows adds, in order. */
  function Added(rows: seq<Row>, reviewed: seq<Reviewed>, choice: Choice, n: nat): seq<Transaction>
    requires n <= |rows| && |reviewed| == |rows|
  {
    if n == 0 then []
    else
      Added(rows, reviewed, choice, n - 1)
      + if choice.wants(n - 1) && Importable(reviewed[n - 1]) then [AddedFor(rows, reviewed, choice, n - 1)] else []
  }

  lemma {:induction false} AddedAreChosen(rows: seq<Row>, reviewed: seq<Reviewed>, choice: Choice, n: nat)
    requires n <= |rows| && |reviewed| == |rows|
    ensures forall t :: t in Added(rows, reviewed, choice, n) ==>
      exists i: nat :: i < n && choice.wants(i) && Importable(reviewed[i]) && t == AddedFor(rows, reviewed, choice, i)
  {
    if n > 0 {
      AddedAreChosen(rows, reviewed, choice, n - 1);
    }
  }

  lemma {:induction false} ChosenAreAdded(rows: seq<Row>, reviewed: seq<Reviewed>, choice: Choice, n: nat, i: nat)
    requires i < n <= |rows| && |reviewed| == |rows| && choice.wants(i) && Importable(reviewed[i])
    ensures AddedFor(rows, reviewed, choice, i) in Added(rows, reviewed, choice, n)
  {
    if i < n - 1 {
      ChosenAreAdded(rows, reviewed, choice, n - 1, i);
    }
  }

  /** The transaction of a row that is chosen, and new or only possibly in the account: with its own
      day, amount and description and the ID it was answered with. */
  ghost predicate IsOfRow(rows: seq<Row>, reviewed: seq<Reviewed>, choice: Choice, i: nat, t: Transaction)
    requires i < |rows| == |reviewed|
  {
    && choice.wants(i) && (reviewed[i].status == New || reviewed[i].status == PossibleDuplicate)
    && t.id == choice.id(i) && t.date == rows[i].date && t.amount == rows[i].amount && t.payee == choice.payee(i)
    && t.description.GetOr("") == rows[i].description && t.description != Some("")
    && t.externalId == reviewed[i].externalId && t.fromFile
  }

  lemma OfRow(rows: seq<Row>, reviewed: seq<Reviewed>, choice: Choice, i: nat, t: Transaction)
    requires i < |rows| == |reviewed|
    ensures IsOfRow(rows, reviewed, choice, i, t) <==>
        choice.wants(i) && Importable(reviewed[i]) && t == AddedFor(rows, reviewed, choice, i)
  {
  }

  /** Importing adds the transactions of the rows chosen, and no others. */
  lemma ImportsExactly(rows: seq<Row>, reviewed: seq<Reviewed>, choice: Choice, t: Transaction)
    requires |reviewed| == |rows|
    ensures t in Added(rows, reviewed, choice, |rows|) <==>
        exists i: nat :: i < |rows| && IsOfRow(rows, reviewed, choice, i, t)
  {
    hide IsOfRow, AddedFor, Importable;
    AddedAreChosen(rows, reviewed, choice, |rows|);
    forall i: nat | i < |rows|
      ensures IsOfRow(rows, reviewed, choice, i, t) <==>
        choice.wants(i) && Importable(reviewed[i]) && t == AddedFor(rows, reviewed, choice, i)
      ensures IsOfRow(rows, reviewed, choice, i, t) ==> t in Added(rows, reviewed, choice, |rows|)
    {
      OfRow(rows, reviewed, choice, i, t);
      if choice.wants(i) && Importable(reviewed[i]) {
        ChosenAreAdded(rows, reviewed, choice, |rows|, i);
      }
    }
  }

  lemma OneMoreIsUnique(table: seq<Transaction>, last: Transaction)
    requires UniqueIds(table) && forall t :: t in table && last.externalId.Some? ==> t.externalId != last.externalId
    ensures UniqueIds(table + [last])
  {
  }

  /** Whatever importable rows are chosen, the account still has each ID once afterwards. */
  lemma {:induction false} IdsStayUnique(rows: seq<Row>, table: seq<Transaction>, payeeOf: nat -> string,
        choice: Choice, n: nat)
    requires n <= |rows| && UniqueIds(table) && DistinctRows(table) && NoEmptyIds(rows)
    ensures UniqueIds(table + Added(rows, Review(rows, table, payeeOf), choice, n))
  {
    hide Review, UniqueIds, DistinctRows, FirstWith, NoEmptyIds, Importable;
    var reviewed := Review(rows, table, payeeOf);
    if n == 0 {
      assert table + [] == table;
    } else {
      IdsStayUnique(rows, table, payeeOf, choice, n - 1);
      var before := Added(rows, reviewed, choice, n - 1);
      AddedAreChosen(rows, reviewed, choice, n - 1);
      if choice.wants(n - 1) && Importable(reviewed[n - 1]) {
        var last := AddedFor(rows, reviewed, choice, n - 1);
        forall t | t in table + before && last.externalId.Some?
          ensures t.externalId != last.externalId
        {
          ImportableIdsAreNew(rows, table, payeeOf, n - 1);
          if t in before && t.externalId.Some? {
            var i: nat :| i < n - 1 && choice.wants(i) && Importable(reviewed[i]) &&
              t == AddedFor(rows, reviewed, choice, i);
            ImportableIdsAreNew(rows, table, payeeOf, i);
          }
        }
        OneMoreIsUnique(table + before, last);
        assert table + (before + [last]) == table + before + [last];
      } else {
        assert before + [] == before;
      }
    }
  }
}
