/** Reading a file again once it has been imported: nothing in it is new any more. It takes a count.
    The account has as many transactions with each content as the file has rows with it, every
    row takes one of its own content at most, so whenever a row looks for one there is one left. */
module Reimport {
  import opened Wrappers
  import opened Matching

  // ---- Counting ----

  function Count(table: seq<Transaction>, p: Transaction -> bool): nat {
    if table == [] then 0 else Count(table[..|table| - 1], p) + if p(table[|table| - 1]) then 1 else 0
  }

  lemma {:induction false} CountAppends(a: seq<Transaction>, b: seq<Transaction>, p: Transaction -> bool)
    ensures Count(a + b, p) == Count(a, p) + Count(b, p)
  {
    if b == [] {
      assert a + b == a;
    } else {
      assert (a + b)[..|a + b| - 1] == a + b[..|b| - 1];
      CountAppends(a, b[..|b| - 1], p);
    }
  }

  lemma WithoutOne(a: seq<Transaction>, b: seq<Transaction>, k: nat)
    requires a != [] && multiset(a) == multiset(b) && k < |b| && b[k] == a[|a| - 1]
    ensures multiset(a[..|a| - 1]) == multiset(b[..k] + b[k + 1..])
  {
    var n := |a| - 1;
    assert a == a[..n] + [a[n]];
    assert b == b[..k] + [b[k]] + b[k + 1..];
    assert multiset(b[..k] + b[k + 1..]) == multiset(b) - multiset{b[k]} == multiset(a[..n]);
  }

  lemma CountWithout(b: seq<Transaction>, k: nat, p: Transaction -> bool)
    requires k < |b|
    ensures Count(b, p) == Count(b[..k] + b[k + 1..], p) + if p(b[k]) then 1 else 0
  {
    assert b == b[..k] + [b[k]] + b[k + 1..] && [b[k]][..0] == [];
    CountAppends(b[..k], b[k + 1..], p);
    CountAppends(b[..k], [b[k]], p);
    CountAppends(b[..k] + [b[k]], b[k + 1..], p);
  }

  /** The order of a table doesn't change a count. */
  lemma {:induction false} CountPermutes(a: seq<Transaction>, b: seq<Transaction>, p: Transaction -> bool)
    requires multiset(a) == multiset(b)
    ensures Count(a, p) == Count(b, p)
    decreases |a|
  {
    if a == [] {
      assert |multiset(b)| == 0;
    } else {
      var n := |a| - 1;
      assert a[n] in multiset(a) && a[n] in b;
      var k :| 0 <= k < |b| && b[k] == a[n];
      WithoutOne(a, b, k);
      CountPermutes(a[..n], b[..k] + b[k + 1..], p);
      CountWithout(b, k, p);
    }
  }

  lemma {:induction false} CountLess(table: seq<Transaction>, p: Transaction -> bool, q: Transaction -> bool)
    requires Count(table, q) < Count(table, p)
    ensures exists t :: t in table && p(t) && !q(t)
  {
    if table != [] {
      var n := |table| - 1;
      if p(table[n]) && !q(table[n]) {
        assert table[n] in table;
      } else {
        CountLess(table[..n], p, q);
      }
    }
  }

  lemma {:induction false} CountSame(table: seq<Transaction>, p: Transaction -> bool, q: Transaction -> bool)
    requires forall t :: t in table ==> p(t) == q(t)
    ensures Count(table, p) == Count(table, q)
  {
    if table != [] {
      CountSame(table[..|table| - 1], p, q);
    }
  }

  // ---- Transactions of a content, used or not ----

  function Around(rows: seq<Row>, content: Content): Transaction -> bool {
    t => InWindow(rows, t) && HasContent(t, content)
  }

  function UsedAround(rows: seq<Row>, content: Content, used: set<Id>): Transaction -> bool {
    t => InWindow(rows, t) && HasContent(t, content) && t.id in used
  }

  /** Taking one transaction uses up one at most, and only of the contents it has. */
  lemma {:induction false} OneMoreUsed(table: seq<Transaction>, rows: seq<Row>, content: Content, used: set<Id>,
        t: Transaction)
    requires DistinctRows(table) && t in table
    ensures Count(table, UsedAround(rows, content, used + {t.id}))
      <= Count(table, UsedAround(rows, content, used)) + if HasContent(t, content) then 1 else 0
  {
    var n := |table| - 1;
    if table[n] == t {
      assert forall u :: u in table[..n] ==> u.id != t.id;
      CountSame(table[..n], UsedAround(rows, content, used + {t.id}), UsedAround(rows, content, used));
    } else {
      OneMoreUsed(table[..n], rows, content, used, t);
    }
  }

  lemma OneUnusedIsFound(around: seq<Transaction>, used: set<Id>, content: Content, t: Transaction)
    requires t in around && HasContent(t, content) && t.id !in used
    ensures var found := Unused(around, used, content);
      found.Some? && found.value in around && HasContent(found.value, content) && found.value.id !in used
  {
    UnusedIsFirst(around, used, content);
  }

  // ---- The first import ----

  /** The account has nothing around the file's days, and none of its IDs. */
  ghost predicate Unseen(rows: seq<Row>, table: seq<Transaction>) {
    && (forall t :: t in table ==> !InWindow(rows, t))
    && (forall i :: 0 <= i < |rows| && rows[i].readable && rows[i].externalId.Some? ==>
      WithId(table, rows[i].externalId.value).None?)
  }

  /** Every row that can be read has a description, and is imported under it. */
  ghost predicate NotRenamed(rows: seq<Row>, choice: Choice) {
    forall i: nat :: i < |rows| && rows[i].readable ==>
      rows[i].description != "" && choice.payee(i) == rows[i].description
  }

  ghost predicate WantsAll(choice: Choice) {
    forall i: nat :: choice.wants(i)
  }

  lemma {:induction false} NothingFound(find: (nat, set<Id>) -> Option<Transaction>, looked: nat -> bool,
        start: set<Id>, n: nat)
    requires forall i: nat, used :: i < n && looked(i) ==> find(i, used).None?
    ensures var p := Phase(find, looked, start, n); p.used == start && forall i :: 0 <= i < n ==> p.taken[i].None?
  {
    if n > 0 {
      NothingFound(find, looked, start, n - 1);
    }
  }

  lemma {:induction false} AroundNothing(table: seq<Transaction>, rows: seq<Row>)
    requires forall t :: t in table ==> !InWindow(rows, t)
    ensures Matching.Around(table, rows) == []
  {
    if table != [] {
      AroundNothing(table[..|table| - 1], rows);
    }
  }

  lemma NothingNear(row: Row, payee: string, used: set<Id>)
    ensures Nearest([], used, row, payee).None?
  {
  }

  /** Into an account that has seen none of it, every row that can be read and isn't a repeat is
      new, with the ID it has once shared ones are gone. */
  lemma {:induction false} FirstTimeAllNew(rows: seq<Row>, table: seq<Transaction>, payeeOf: nat -> string, i: nat)
    requires i < |rows| && Unseen(rows, table)
    ensures IsFresh(rows)(i) ==>
        Review(rows, table, payeeOf)[i] == Reviewed(New, None, WithoutSharedIds(rows)[i].externalId)
    ensures !IsFresh(rows)(i) ==> !Importable(Review(rows, table, payeeOf)[i])
  {
    var wanted, own, n := IsFresh(rows), WithoutSharedIds(rows), |rows|;
    var phases := PhasesOf(rows, table, payeeOf);
    AroundNothing(table, rows);
    forall k: nat | k < n && wanted(k)
      ensures FoundById(table, own[k]).None?
    {
    }
    NothingFound(FindById(table, own), wanted, {}, n);
    NothingFound(FindSame([], phases.rows), StillLooked(wanted, phases.byId), {}, n);
    forall k: nat, used | k < n
      ensures FindNear([], phases.rows, payeeOf)(k, used).None?
    {
      NothingNear(phases.rows[k], payeeOf(k), used);
    }
    NothingFound(FindNear([], phases.rows, payeeOf), StillLooked(StillLooked(wanted, phases.byId), phases.same), {}, n);
    hide Phase, Repeats, LosesId, WithId;
  }

  // ---- What the account then has ----

  /** The table once everything new has been imported, its rows in any order. */
  ghost predicate HasImported(rows: seq<Row>, before: seq<Transaction>, payeeOf: nat -> string, choice: Choice,
        table: seq<Transaction>) {
    multiset(table) == multiset(before + Added(rows, Review(rows, before, payeeOf), choice, |rows|))
  }

  /** The transaction a fresh row was imported as. */
  function ImportedAs(rows: seq<Row>, choice: Choice, i: nat): Transaction
    requires i < |rows|
  {
    Imported(rows[i], choice.payee(i), WithoutSharedIds(rows)[i].externalId, choice.id(i))
  }

  predicate IsOne(rows: seq<Row>, content: Content, withId: bool, i: nat)
    requires i < |rows|
  {
    IsFresh(rows)(i) && ContentOf(rows[i]) == content && WithoutSharedIds(rows)[i].externalId.Some? == withId
  }

  /** How many of the first rows are fresh, have a content, and have an ID of their own or not. */
  function Rows(rows: seq<Row>, content: Content, withId: bool, n: nat): nat
    requires n <= |rows|
  {
    if n == 0 then 0
    else Rows(rows, content, withId, n - 1) + if IsOne(rows, content, withId, n - 1) then 1 else 0
  }

  lemma {:induction false} RowsGrow(rows: seq<Row>, content: Content, withId: bool, m: nat, n: nat)
    requires m <= n <= |rows|
    ensures Rows(rows, content, withId, m) <= Rows(rows, content, withId, n)
    ensures m < n && IsOne(rows, content, withId, m) ==> Rows(rows, content, withId, m) < Rows(rows, content, withId, n)
  {
    if m < n {
      RowsGrow(rows, content, withId, m, n - 1);
    }
  }

  lemma ContentOfImported(rows: seq<Row>, choice: Choice, i: nat, content: Content)
    requires i < |rows| && rows[i].readable && NotRenamed(rows, choice)
    ensures HasContent(ImportedAs(rows, choice, i), content) <==> ContentOf(rows[i]) == content
    ensures InWindow(rows, ImportedAs(rows, choice, i))
  {
    var t := ImportedAs(rows, choice, i);
    assert rows[i].date - WINDOW <= t.date <= rows[i].date + WINDOW;
  }

  /** Importing everything adds one transaction for a fresh row, and none for another. */
  lemma AddedOneMore(rows: seq<Row>, before: seq<Transaction>, payeeOf: nat -> string, choice: Choice, n: nat)
    requires n < |rows| && Unseen(rows, before) && WantsAll(choice)
    ensures var reviewed := Review(rows, before, payeeOf);
      Added(rows, reviewed, choice, n + 1)
      == Added(rows, reviewed, choice, n) + if IsFresh(rows)(n) then [ImportedAs(rows, choice, n)] else []
  {
    hide Review, Unseen, Imported, Repeats, WithoutSharedIds, IsFresh;
    FirstTimeAllNew(rows, before, payeeOf, n);
  }

  lemma CountOneMore(table: seq<Transaction>, t: Transaction, p: Transaction -> bool)
    ensures Count(table + [t], p) == Count(table, p) + if p(t) then 1 else 0
  {
    assert (table + [t])[..|table|] == table;
  }

  /** The import added as many transactions with a content as the file has fresh rows with it. */
  lemma {:induction false} AddedAreCounted(rows: seq<Row>, before: seq<Transaction>, payeeOf: nat -> string,
        choice: Choice, content: Content, n: nat)
    requires n <= |rows| && Unseen(rows, before) && NotRenamed(rows, choice) && WantsAll(choice)
    ensures Count(Added(rows, Review(rows, before, payeeOf), choice, n), Around(rows, content))
      == Rows(rows, content, true, n) + Rows(rows, content, false, n)
  {
    hide Review, Unseen, HasContent, InWindow, Imported, Repeats, WithoutSharedIds;
    if n > 0 {
      var added := Added(rows, Review(rows, before, payeeOf), choice, n - 1);
      AddedAreCounted(rows, before, payeeOf, choice, content, n - 1);
      AddedOneMore(rows, before, payeeOf, choice, n - 1);
      hide Added, AddedFor, Count, WantsAll;
      if IsFresh(rows)(n - 1) {
        ContentOfImported(rows, choice, n - 1, content);
        CountOneMore(added, ImportedAs(rows, choice, n - 1), Around(rows, content));
      } else {
        assert added + [] == added;
      }
      hide NotRenamed, ImportedAs;
    }
  }

  lemma {:induction false} NoneCounted(table: seq<Transaction>, p: Transaction -> bool)
    requires forall t :: t in table ==> !p(t)
    ensures Count(table, p) == 0
  {
    if table != [] {
      NoneCounted(table[..|table| - 1], p);
    }
  }

  lemma {:induction false} TableIsCounted(rows: seq<Row>, before: seq<Transaction>, payeeOf: nat -> string,
        choice: Choice, table: seq<Transaction>, content: Content)
    requires Unseen(rows, before) && NotRenamed(rows, choice) && WantsAll(choice) &&
        HasImported(rows, before, payeeOf, choice, table)
    ensures Count(table, Around(rows, content)) ==
        Rows(rows, content, true, |rows|) + Rows(rows, content, false, |rows|)
  {
    hide Review;
    var added := Added(rows, Review(rows, before, payeeOf), choice, |rows|);
    AddedAreCounted(rows, before, payeeOf, choice, content, |rows|);
    CountPermutes(table, before + added, Around(rows, content));
    CountAppends(before, added, Around(rows, content));
    NoneCounted(before, Around(rows, content));
  }

  lemma {:induction false} ChosenAreAdded(rows: seq<Row>, reviewed: seq<Reviewed>, choice: Choice, n: nat, i: nat)
    requires i < n <= |rows| && |reviewed| == |rows| && choice.wants(i) && Importable(reviewed[i])
    ensures AddedFor(rows, reviewed, choice, i) in Added(rows, reviewed, choice, n)
  {
    if i < n - 1 {
      ChosenAreAdded(rows, reviewed, choice, n - 1, i);
    }
  }

  /** Each transaction of the table was there before, or is what a fresh row was imported as. */
  lemma {:induction false} WhereFrom(rows: seq<Row>, before: seq<Transaction>, payeeOf: nat -> string, choice: Choice,
        table: seq<Transaction>)
    requires Unseen(rows, before) && WantsAll(choice) && HasImported(rows, before, payeeOf, choice, table)
    ensures forall t :: t in table ==>
        t in before || exists i: nat :: i < |rows| && IsFresh(rows)(i) && t == ImportedAs(rows, choice, i)
    ensures forall i: nat :: i < |rows| && IsFresh(rows)(i) ==> ImportedAs(rows, choice, i) in table
  {
    hide Review, Unseen, Imported, Repeats, WithoutSharedIds;
    var reviewed := Review(rows, before, payeeOf);
    var added := Added(rows, reviewed, choice, |rows|);
    AddedAreChosen(rows, reviewed, choice, |rows|);
    forall i: nat | i < |rows|
      ensures IsFresh(rows)(i) ==> AddedFor(rows, reviewed, choice, i) == ImportedAs(rows, choice, i)
      ensures Importable(reviewed[i]) <==> IsFresh(rows)(i)
    {
      FirstTimeAllNew(rows, before, payeeOf, i);
    }
    forall t
      ensures t in table <==> t in before || t in added
    {
      assert t in table <==> t in multiset(table);
      assert t in before + added <==> t in multiset(before + added);
    }
    forall i: nat | i < |rows| && IsFresh(rows)(i)
      ensures ImportedAs(rows, choice, i) in added
    {
      ChosenAreAdded(rows, reviewed, choice, |rows|, i);
    }
  }

  // ---- Reading the file again ----

  /** An account that had seen none of a file, once everything new in it is imported as it is. */
  ghost predicate Again(rows: seq<Row>, before: seq<Transaction>, payeeOf: nat -> string, choice: Choice,
        table: seq<Transaction>) {
    && Unseen(rows, before) && UniqueIds(before) && DistinctRows(before) && NoEmptyIds(rows)
    && NotRenamed(rows, choice) && WantsAll(choice)
    && HasImported(rows, before, payeeOf, choice, table) && DistinctRows(table)
  }

  lemma {:induction false} StillUnique(rows: seq<Row>, before: seq<Transaction>, payeeOf: nat -> string,
        choice: Choice, table: seq<Transaction>)
    requires Again(rows, before, payeeOf, choice, table)
    ensures UniqueIds(table)
  {
    hide Review, Unseen, NotRenamed, WantsAll, NoEmptyIds;
    var all := before + Added(rows, Review(rows, before, payeeOf), choice, |rows|);
    IdsStayUnique(rows, before, payeeOf, choice, |rows|);
    forall i, j | 0 <= i < j < |table| && table[i].externalId.Some?
      ensures table[i].externalId != table[j].externalId
    {
      assert table[i] in multiset(table) && table[j] in multiset(table);
      assert table[i] in all && table[j] in all && table[i] != table[j];
    }
  }

  /** A row that has an ID of its own finds the transaction it was imported as; others find none. */
  lemma {:induction false} FindsItself(rows: seq<Row>, before: seq<Transaction>, payeeOf: nat -> string,
        choice: Choice, table: seq<Transaction>, i: nat)
    requires i < |rows| && IsFresh(rows)(i) && Again(rows, before, payeeOf, choice, table)
    ensures var own := WithoutSharedIds(rows);
      FindById(table, own)(i, {}) == if own[i].externalId.Some? then Some(ImportedAs(rows, choice, i)) else None
  {
    hide Review, HasImported, FirstWith, Repeats, WithId, NotRenamed, DistinctRows, UniqueIds;
    var own := WithoutSharedIds(rows);
    WhereFrom(rows, before, payeeOf, choice, table);
    if own[i].externalId.Some? {
      var id := own[i].externalId.value;
      KeptIdIsFirst(rows, i);
      WithIdIsTheOne(table, id);
      WithIdIsTheOne(before, id);
      var mine := ImportedAs(rows, choice, i);
      assert mine in table && mine.externalId == Some(id);
      var t := WithId(table, id).value;
      var j: nat :| j < |rows| && IsFresh(rows)(j) && t == ImportedAs(rows, choice, j);
      KeptIdIsFirst(rows, j);
    }
  }

  lemma {:induction false} OneMoreTaken(rows: seq<Row>, before: seq<Transaction>, payeeOf: nat -> string,
        choice: Choice, table: seq<Transaction>, used: set<Id>, t: Transaction, i: nat, content: Content)
    requires Again(rows, before, payeeOf, choice, table) && i < |rows| && rows[i].readable
    requires t in table && InWindow(rows, t) && HasContent(t, ContentOf(rows[i]))
    ensures Count(table, UsedAround(rows, content, used + {t.id}))
      <= Count(table, UsedAround(rows, content, used)) + if ContentOf(rows[i]) == content then 1 else 0
  {
    hide Review, HasImported, Repeats, InWindow, HasContent, NotRenamed, WithoutSharedIds;
    WhereFrom(rows, before, payeeOf, choice, table);
    var j: nat :| j < |rows| && IsFresh(rows)(j) && t == ImportedAs(rows, choice, j);
    ContentOfImported(rows, choice, j, content);
    ContentOfImported(rows, choice, j, ContentOf(rows[i]));
    OneMoreUsed(table, rows, content, used, t);
  }

  ghost predicate TookOwn(rows: seq<Row>, table: seq<Transaction>, choice: Choice, i: nat)
    requires i < |rows|
  {
    var t := ImportedAs(rows, choice, i);
    rows[i].readable && t in table && InWindow(rows, t) && HasContent(t, ContentOf(rows[i]))
  }

  lemma {:induction false} TookById(rows: seq<Row>, before: seq<Transaction>, payeeOf: nat -> string, choice: Choice,
        table: seq<Transaction>, n: nat)
    requires n <= |rows| && Again(rows, before, payeeOf, choice, table)
    ensures var own := WithoutSharedIds(rows);
      var p := Phase(FindById(table, own), IsFresh(rows), {}, n);
      forall i: nat :: i < n ==>
        && p.taken[i]
           == (if IsFresh(rows)(i) && own[i].externalId.Some? then Some(ImportedAs(rows, choice, i)) else None)
        && (p.taken[i].Some? ==> TookOwn(rows, table, choice, i))
  {
    var own := WithoutSharedIds(rows);
    StillUnique(rows, before, payeeOf, choice, table);
    ByIdTakesWhatItFinds(rows, table, n);
    WhereFrom(rows, before, payeeOf, choice, table);
    hide Phase, WithoutSharedIds, FindById, HasContent, InWindow, Repeats, HasImported, Review;
    forall i: nat | i < n && IsFresh(rows)(i)
      ensures FindById(table, own)(i, {}) == if own[i].externalId.Some? then Some(ImportedAs(rows, choice, i)) else None
      ensures TookOwn(rows, table, choice, i)
    {
      FindsItself(rows, before, payeeOf, choice, table, i);
      ContentOfImported(rows, choice, i, ContentOf(rows[i]));
    }
  }

  /** By ID, each content's transactions are used up by its rows with IDs at most. */
  lemma {:induction false} UsedById(rows: seq<Row>, before: seq<Transaction>, payeeOf: nat -> string, choice: Choice,
        table: seq<Transaction>, content: Content, n: nat)
    requires n <= |rows| && Again(rows, before, payeeOf, choice, table)
    ensures Count(table, UsedAround(rows, content, Phase(FindById(table, WithoutSharedIds(rows)), IsFresh(rows),
        {}, n).used))
      <= Rows(rows, content, true, n)
  {
    hide Again, HasContent, InWindow, Repeats, WithoutSharedIds, FindById, Take;
    var find := FindById(table, WithoutSharedIds(rows));
    if n == 0 {
      NoneCounted(table, UsedAround(rows, content, {}));
    } else {
      UsedById(rows, before, payeeOf, choice, table, content, n - 1);
      TookById(rows, before, payeeOf, choice, table, n);
      var used := Phase(find, IsFresh(rows), {}, n - 1).used;
      if Phase(find, IsFresh(rows), {}, n).taken[n - 1].Some? {
        OneMoreTaken(rows, before, payeeOf, choice, table, used, ImportedAs(rows, choice, n - 1), n - 1, content);
      }
    }
  }

  /** A row that is still looked for finds one of its own content that is left. */
  lemma {:induction false} OneIsLeft(rows: seq<Row>, before: seq<Transaction>, payeeOf: nat -> string, choice: Choice,
        table: seq<Transaction>, used: set<Id>, i: nat)
    requires i < |rows| && Again(rows, before, payeeOf, choice, table)
    requires IsOne(rows, ContentOf(rows[i]), false, i)
    requires Count(table, UsedAround(rows, ContentOf(rows[i]), used))
      <= Rows(rows, ContentOf(rows[i]), true, |rows|) + Rows(rows, ContentOf(rows[i]), false, i)
    ensures var found := Unused(Matching.Around(table, rows), used, ContentOf(rows[i]));
      && found.Some? && found.value in table && found.value.id !in used
      && InWindow(rows, found.value) && HasContent(found.value, ContentOf(rows[i]))
  {
    var content, around := ContentOf(rows[i]), Matching.Around(table, rows);
    TableIsCounted(rows, before, payeeOf, choice, table, content);
    RowsGrow(rows, content, false, i, |rows|);
    hide Count, Rows, IsOne, HasContent, InWindow, HasImported, Review, Matching.Around, Unused;
    CountLess(table, Around(rows, content), UsedAround(rows, content, used));
    var t :| t in table && Around(rows, content)(t) && !UsedAround(rows, content, used)(t);
    AroundIsTheWindow(table, rows);
    OneUnusedIsFound(around, used, content, t);
  }

  /** Up to the n-th row, no content has more transactions used than it has rows. */
  ghost predicate InStep(rows: seq<Row>, table: seq<Transaction>, used: set<Id>, n: nat)
    requires n <= |rows|
  {
    forall content: Content ::
      Count(table, UsedAround(rows, content, used)) <= Rows(rows, content, true, |rows|) + Rows(rows, content, false, n)
  }

  /** A row that is still looked for takes one, and no content is used up faster than its rows. */
  lemma {:induction false} TakesInStep(rows: seq<Row>, before: seq<Transaction>, payeeOf: nat -> string,
        choice: Choice, table: seq<Transaction>, used: set<Id>, i: nat)
    requires i < |rows| && Again(rows, before, payeeOf, choice, table)
    requires IsOne(rows, ContentOf(rows[i]), false, i) && InStep(rows, table, used, i)
    ensures var found := Unused(Matching.Around(table, rows), used, ContentOf(rows[i]));
      found.Some? && found.value.id !in used && InStep(rows, table, used + {found.value.id}, i + 1)
  {
    hide Again, Count, HasContent, InWindow, Repeats, Matching.Around, Unused, WithoutSharedIds;
    OneIsLeft(rows, before, payeeOf, choice, table, used, i);
    var t := Unused(Matching.Around(table, rows), used, ContentOf(rows[i])).value;
    forall content: Content {
      OneMoreTaken(rows, before, payeeOf, choice, table, used, t, i, content);
    }
  }

  lemma SkipsInStep(rows: seq<Row>, table: seq<Transaction>, used: set<Id>, i: nat)
    requires i < |rows| && InStep(rows, table, used, i)
    ensures InStep(rows, table, used, i + 1)
  {
    hide Count, IsOne;
  }

  /** Once IDs have been looked at, the fresh rows without one are still looked for. */
  lemma {:induction false} LookedByContent(rows: seq<Row>, before: seq<Transaction>, payeeOf: nat -> string,
        choice: Choice, table: seq<Transaction>, byId: Progress)
    requires Again(rows, before, payeeOf, choice, table)
    requires byId == Phase(FindById(table, WithoutSharedIds(rows)), IsFresh(rows), {}, |rows|)
    ensures InStep(rows, table, byId.used, 0)
    ensures forall i: nat :: i < |rows| ==> (StillLooked(IsFresh(rows), byId)(i) <==>
        IsOne(rows, ContentOf(rows[i]), false, i))
  {
    hide Again, Count, HasContent, InWindow, Repeats, WithoutSharedIds, FindById, Phase;
    TookById(rows, before, payeeOf, choice, table, |rows|);
    forall content: Content {
      UsedById(rows, before, payeeOf, choice, table, content, |rows|);
    }
  }

  /** By content, every row that is still looked for takes one. */
  lemma {:induction false} TakenByContent(rows: seq<Row>, before: seq<Transaction>, payeeOf: nat -> string,
        choice: Choice, table: seq<Transaction>, left: seq<Row>, byId: Progress, n: nat)
    requires n <= |rows| && Again(rows, before, payeeOf, choice, table) && |left| == |rows|
    requires byId == Phase(FindById(table, WithoutSharedIds(rows)), IsFresh(rows), {}, |rows|)
    requires forall i :: 0 <= i < |rows| ==> ContentOf(left[i]) == ContentOf(rows[i])
    ensures var p := Phase(FindSame(Matching.Around(table, rows), left), StillLooked(IsFresh(rows), byId),
        byId.used, n);
      && InStep(rows, table, p.used, n)
      && forall i: nat :: i < n && StillLooked(IsFresh(rows), byId)(i) ==> p.taken[i].Some?
  {
    var looked := StillLooked(IsFresh(rows), byId);
    hide Again, InStep, IsOne, Matching.Around, Unused, StillLooked, Repeats, WithoutSharedIds, FindById, ContentOf;
    LookedByContent(rows, before, payeeOf, choice, table, byId);
    if n > 0 {
      TakenByContent(rows, before, payeeOf, choice, table, left, byId, n - 1);
      var used := Phase(FindSame(Matching.Around(table, rows), left), looked, byId.used, n - 1).used;
      if looked(n - 1) {
        TakesInStep(rows, before, payeeOf, choice, table, used, n - 1);
      } else {
        SkipsInStep(rows, table, used, n - 1);
      }
    }
  }

  lemma LeftHasItsContent(rows: seq<Row>, table: seq<Transaction>, payeeOf: nat -> string)
    ensures var left := PhasesOf(rows, table, payeeOf).rows; forall i :: 0 <= i < |rows| ==>
        ContentOf(left[i]) == ContentOf(rows[i])
  {
    hide Phase, Repeats, LosesId, FoundById, IsSame, Matching.Around, IsFresh;
  }

  lemma FateFromPhases(rows: seq<Row>, table: seq<Transaction>, payeeOf: nat -> string, i: nat)
    requires i < |rows|
    ensures var r, phases := Review(rows, table, payeeOf)[i], PhasesOf(rows, table, payeeOf);
      && (!IsFresh(rows)(i) ==> r.status.Invalid? || r.status.Duplicate?)
      && (IsFresh(rows)(i) && phases.byId.taken[i].Some? ==> r.status.Duplicate? && r.match_ == phases.byId.taken[i])
      && (IsFresh(rows)(i) && phases.byId.taken[i].None? && phases.same.taken[i].Some? ==>
            r.status.PossibleDuplicate? && r.match_ == phases.same.taken[i])
  {
    hide PhasesOf, Repeats;
  }

  /** Importing a file into an account that had seen none of it, and reading it again: no row is
      new. Rows with an ID of their own are matched to what they were imported as, and can't be
      imported again; the others are possible duplicates of a transaction. */
  lemma {:induction false} NothingIsNewAgain(rows: seq<Row>, before: seq<Transaction>, payeeOf: nat -> string,
        choice: Choice, table: seq<Transaction>, payeeOf': nat -> string, i: nat)
    requires i < |rows| && Again(rows, before, payeeOf, choice, table)
    ensures var r, own := Review(rows, table, payeeOf')[i], WithoutSharedIds(rows)[i];
      && !r.status.New?
      && (!IsFresh(rows)(i) ==> !Importable(r))
      && (IsFresh(rows)(i) && own.externalId.Some? ==> !Importable(r) && r.match_ == Some(ImportedAs(rows, choice, i)))
      && (IsFresh(rows)(i) && own.externalId.None? ==> r.status.PossibleDuplicate? && r.match_.Some?)
  {
    hide Again, Phase, IsFresh, InStep, Matching.Around, WithoutSharedIds, WithoutForeignIds, Review, FindById,
      FindSame, FindNear, ContentOf, ImportedAs, TookOwn;
    var phases := PhasesOf(rows, table, payeeOf');
    LeftHasItsContent(rows, table, payeeOf');
    TookById(rows, before, payeeOf, choice, table, |rows|);
    TakenByContent(rows, before, payeeOf, choice, table, phases.rows, phases.byId, |rows|);
    FateFromPhases(rows, table, payeeOf', i);
  }
}
