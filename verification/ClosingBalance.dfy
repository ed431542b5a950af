/** The balance a CSV file ends on, worked out from its balance column (`closing_balance` of
    `imports/csvfile.py`). Files don't say whether they list transactions oldest or newest first,
    nor whether balances are what is owed; both are guessed from how the balance moves. */
module ClosingBalance {
  import opened Wrappers

  datatype FileRow = FileRow(date: Option<int>, amount: Option<int>, balance: Option<int>)

  datatype Point = Point(date: int, amount: int, balance: int)

  function Points(rows: seq<FileRow>): seq<Point> {
    if rows == [] then []
    else
      var row := rows[|rows| - 1];
      Points(rows[..|rows| - 1])
      + if row.date.Some? && row.amount.Some? && row.balance.Some?
        then [Point(row.date.value, row.amount.value, row.balance.value)] else []
  }

  /** Complete rows are points one for one, in order, with the row's own day, amount and balance. */
  lemma {:induction false} CompleteRowsArePoints(rows: seq<FileRow>, i: nat)
    requires forall row :: row in rows ==> row.date.Some? && row.amount.Some? && row.balance.Some?
    ensures |Points(rows)| == |rows|
    ensures i < |rows| ==>
      var p := Points(rows)[i];
      rows[i] == FileRow(Some(p.date), Some(p.amount), Some(p.balance))
  {
    if rows != [] {
      CompleteRowsArePoints(rows[..|rows| - 1], i);
    }
  }

  /** A row that lacks its date, amount or balance adds none, wherever it stands. */
  lemma {:induction false} IncompleteAddsNone(a: seq<FileRow>, row: FileRow, b: seq<FileRow>)
    requires row.date.None? || row.amount.None? || row.balance.None?
    ensures Points(a + [row] + b) == Points(a + b)
  {
    if b == [] {
      assert a + [row] + b == a + [row] && a + b == a;
      assert (a + [row])[..|a|] == a;
    } else {
      var n := |b| - 1;
      IncompleteAddsNone(a, row, b[..n]);
      assert (a + [row] + b)[..|a| + 1 + n] == a + [row] + b[..n];
      assert (a + b)[..|a| + n] == a + b[..n];
    }
  }

  datatype Votes = Votes(asIs: int, owed: int, newestFirst: int)

  function One(holds: bool): int {
    if holds then 1 else 0
  }

  /** What one line and the next say about the file. */
  function Voted(before: Point, after: Point, votes: Votes): Votes {
    var change := after.balance - before.balance;
    Votes(
      votes.asIs + One(change == after.amount || change == -before.amount),
      votes.owed + One(change == -after.amount || change == before.amount),
      votes.newestFirst + One(change == before.amount || change == -before.amount)
      - One(change == after.amount || change == -after.amount))
  }

  function Tally(points: seq<Point>): Votes {
    if |points| <= 1 then Votes(0, 0, 0)
    else Voted(points[|points| - 2], points[|points| - 1], Tally(points[..|points| - 1]))
  }

  function Latest(points: seq<Point>): (latest: int)
    requires points != []
    ensures forall i :: 0 <= i < |points| ==> points[i].date <= latest
    ensures exists i :: 0 <= i < |points| && points[i].date == latest
  {
    if |points| == 1 then points[0].date
    else
      var rest := Latest(points[..|points| - 1]);
      var last := points[|points| - 1];
      assert rest == last.date || exists i :: 0 <= i < |points| - 1 && points[i].date == rest by {
        var i :| 0 <= i < |points| - 1 && points[..|points| - 1][i].date == rest;
        assert points[i].date == rest;
      }
      if last.date > rest then last.date else rest
  }

  /** The points of a day, in order. */
  function OnDay(points: seq<Point>, day: int): seq<Point> {
    if points == [] then []
    else OnDay(points[..|points| - 1], day) + if points[|points| - 1].date == day then [points[|points| - 1]] else []
  }

  lemma {:induction false} SomeOnDay(points: seq<Point>, i: nat)
    requires i < |points|
    ensures OnDay(points, points[i].date) != []
  {
    if i < |points| - 1 {
      SomeOnDay(points[..|points| - 1], i);
    }
  }

  lemma SomeOnDayOf(points: seq<Point>, i: nat, day: int)
    requires i < |points| && OnDay(points, day) == []
    ensures points[i].date != day
  {
    SomeOnDay(points, i);
  }

  /** Whether the latest transaction is taken to be the first listed of its day. */
  function TakesFirst(points: seq<Point>): bool
    requires points != []
  {
    var newestFirst := Tally(points).newestFirst;
    if newestFirst == 0 then points[0].date > points[|points| - 1].date else newestFirst > 0
  }

  lemma SomeOnLatest(points: seq<Point>)
    requires points != []
    ensures OnDay(points, Latest(points)) != []
  {
    var i :| 0 <= i < |points| && points[i].date == Latest(points);
    SomeOnDay(points, i);
  }

  function Closing(points: seq<Point>): int
    requires points != []
  {
    var latest := Latest(points);
    SomeOnLatest(points);
    var last := OnDay(points, latest);
    var point := if TakesFirst(points) then last[0] else last[|last| - 1];
    if Tally(points).owed > Tally(points).asIs then -point.balance else point.balance
  }

  lemma {:induction false} FirstAndLastOfDay(points: seq<Point>, day: int) returns (i: nat, j: nat)
    requires OnDay(points, day) != []
    ensures i <= j < |points| && points[i].date == day && points[j].date == day
    ensures OnDay(points, day)[0] == points[i] && OnDay(points, day)[|OnDay(points, day)| - 1] == points[j]
    ensures forall k :: 0 <= k < |points| && points[k].date == day ==> i <= k <= j
  {
    var n := |points| - 1;
    if OnDay(points[..n], day) != [] {
      i, j := FirstAndLastOfDay(points[..n], day);
      assert forall k :: 0 <= k < n ==> points[..n][k] == points[k];
      if points[n].date == day { j := n; }
    } else {
      i, j := n, n;
      forall k | 0 <= k < n
        ensures points[k].date != day
      {
        SomeOnDayOf(points[..n], k, day);
      }
    }
  }

  /** Whatever a file says, the balance given is that of the first or the last row of its latest day, or
      what's owed of it. */
  lemma ClosesOnTheLatestDay(points: seq<Point>) returns (i: nat)
    requires points != []
    ensures i < |points| && points[i].date == Latest(points)
    ensures Closing(points) == if Tally(points).owed > Tally(points).asIs then -points[i].balance else points[i].balance
    ensures forall k :: 0 <= k < |points| && points[k].date == Latest(points) ==>
        if TakesFirst(points) then i <= k else k <= i
  {
    hide Tally, Latest, OnDay, TakesFirst;
    SomeOnLatest(points);
    var first, last := FirstAndLastOfDay(points, Latest(points));
    i := if TakesFirst(points) then first else last;
  }

  lemma OneMoreVote(points: seq<Point>, n: nat)
    requires 1 <= n < |points|
    ensures Tally(points[..n + 1]) == Voted(points[n - 1], points[n], Tally(points[..n]))
  {
    assert points[..n + 1][..n] == points[..n];
  }

  method CountVotes(points: seq<Point>) returns (asIs: int, owed: int, newestFirst: int)
    ensures Votes(asIs, owed, newestFirst) == Tally(points)
  {
    asIs, owed, newestFirst := 0, 0, 0;
    if points == [] {
      return;
    }
    assert Tally(points[..1]) == Votes(0, 0, 0);
    for n := 1 to |points|
      invariant Votes(asIs, owed, newestFirst) == Tally(points[..n])
    {
      var before, after := points[n - 1], points[n];
      var change := after.balance - before.balance;
      OneMoreVote(points, n);
      asIs := asIs + One(change == after.amount || change == -before.amount);
      owed := owed + One(change == -after.amount || change == before.amount);
      newestFirst := newestFirst + One(change == before.amount || change == -before.amount)
        - One(change == after.amount || change == -after.amount);
      hide Tally;
    }
    assert points[..|points|] == points;
  }

  // ---- The four layouts ----

  ghost predicate Follows(points: seq<Point>, i: nat, owed: bool)
    requires i + 1 < |points|
  {
    points[i + 1].balance == points[i].balance + if owed then -points[i + 1].amount else points[i + 1].amount
  }

  /** Every balance is the one above it, moved by the line's amount, or against it when it is what's owed. */
  ghost predicate OldestFirst(points: seq<Point>, owed: bool) {
    && (forall i {:trigger points[i]} :: 0 <= i < |points| ==> points[i].amount != 0)
    && (forall i, j :: 0 <= i < j < |points| ==> points[i].date <= points[j].date)
    && forall i {:trigger Follows(points, i, owed)} :: 0 <= i < |points| - 1 ==> Follows(points, i, owed)
  }

  ghost predicate Precedes(points: seq<Point>, i: nat, owed: bool)
    requires i + 1 < |points|
  {
    points[i].balance == points[i + 1].balance + if owed then -points[i].amount else points[i].amount
  }

  /** Read from the end back, the same: a line's balance is the one below it, moved by the line's own amount. */
  ghost predicate NewestFirst(points: seq<Point>, owed: bool) {
    && (forall i {:trigger points[i]} :: 0 <= i < |points| ==> points[i].amount != 0)
    && (forall i, j :: 0 <= i < j < |points| ==> points[j].date <= points[i].date)
    && forall i {:trigger Precedes(points, i, owed)} :: 0 <= i < |points| - 1 ==> Precedes(points, i, owed)
  }

  /** How many lines have another amount than the one before. */
  function Changes(points: seq<Point>): nat {
    if |points| <= 1 then 0
    else Changes(points[..|points| - 1]) + One(points[|points| - 2].amount != points[|points| - 1].amount)
  }

  /** How many have an amount of another size, whichever way the money went. */
  function SizeChanges(points: seq<Point>): nat {
    if |points| <= 1 then 0
    else
      var a, b := points[|points| - 2].amount, points[|points| - 1].amount;
      SizeChanges(points[..|points| - 1]) + One(a != b && a != -b)
  }

  lemma {:induction false} OldestFirstVotes(points: seq<Point>, owed: bool)
    requires points != [] && OldestFirst(points, owed)
    ensures var votes, n := Tally(points), |points| - 1;
      votes == Votes(
        if owed then n - Changes(points) else n, if owed then n else n - Changes(points), 0 - SizeChanges(points))
  {
    var n := |points| - 1;
    if n > 0 {
      var rest := points[..n];
      forall i | 0 <= i < n - 1
        ensures Follows(rest, i, owed)
      {
        assert Follows(points, i, owed);
      }
      OldestFirstVotes(rest, owed);
      assert Follows(points, n - 1, owed);
      assert points[n].amount != 0 && points[n - 1].amount != 0;
    }
  }

  lemma {:induction false} NewestFirstVotes(points: seq<Point>, owed: bool)
    requires points != [] && NewestFirst(points, owed)
    ensures var votes, n := Tally(points), |points| - 1;
      votes == Votes(
        if owed then n - Changes(points) else n, if owed then n else n - Changes(points), SizeChanges(points))
  {
    var n := |points| - 1;
    if n > 0 {
      var rest := points[..n];
      forall i | 0 <= i < n - 1
        ensures Precedes(rest, i, owed)
      {
        assert Precedes(points, i, owed);
      }
      NewestFirstVotes(rest, owed);
      assert Precedes(points, n - 1, owed);
      assert points[n].amount != 0 && points[n - 1].amount != 0;
    }
  }

  lemma {:induction false} LastOfDay(points: seq<Point>, day: int)
    requires points != [] && points[|points| - 1].date == day
    ensures OnDay(points, day) != [] && OnDay(points, day)[|OnDay(points, day)| - 1] == points[|points| - 1]
  {
  }

  lemma {:induction false} FirstOfDay(points: seq<Point>, day: int)
    requires points != [] && points[0].date == day
    ensures OnDay(points, day) != [] && OnDay(points, day)[0] == points[0]
  {
    if |points| > 1 {
      FirstOfDay(points[..|points| - 1], day);
    } else {
      assert OnDay(points[..0], day) == [];
    }
  }

  lemma LatestIsLast(points: seq<Point>, owed: bool)
    requires points != [] && OldestFirst(points, owed)
    ensures Latest(points) == points[|points| - 1].date && points[0].date <= points[|points| - 1].date
  {
    hide Latest;
  }

  /** Oldest first, a file's balances are read right as they are, always; given as what's owed,
      exactly when its amounts aren't all the same, or it ends on nothing. */
  lemma OldestFirstIsRead(points: seq<Point>, owed: bool)
    requires points != [] && OldestFirst(points, owed)
    ensures var last := points[|points| - 1].balance;
      && !TakesFirst(points) && Latest(points) == points[|points| - 1].date
      && (!owed ==> Closing(points) == last)
      && (owed ==> (Closing(points) == -last <==> Changes(points) > 0 || last == 0))
  {
    hide Tally, Changes, SizeChanges, OnDay, Latest;
    OldestFirstVotes(points, owed);
    LatestIsLast(points, owed);
    LastOfDay(points, points[|points| - 1].date);
  }

  /** Newest first, the balance after the latest transaction is found exactly when dates or sizes
      of amounts aren't all the same, or the first and last balance are; and its sign, as what's
      owed, when amounts aren't all the same. */
  lemma NewestFirstIsRead(points: seq<Point>, owed: bool)
    requires points != [] && NewestFirst(points, owed)
    ensures var first, last := points[0], points[|points| - 1];
      var found := if SizeChanges(points) > 0 || first.date > last.date then first.balance else last.balance;
      && Latest(points) == first.date
      && (!owed ==> Closing(points) == found)
      && (owed ==> Closing(points) == if Changes(points) > 0 then -found else found)
  {
    NewestFirstVotes(points, owed);
    FirstOfDay(points, points[0].date);
    var last := points[|points| - 1];
    if last.date == points[0].date {
      LastOfDay(points, last.date);
    }
  }

  lemma {:induction false} BalanceGrows(points: seq<Point>)
    requires points != [] && OldestFirst(points, false)
    requires forall i :: 0 <= i < |points| ==> points[i].amount == points[0].amount
    ensures points[|points| - 1].balance == points[0].balance + (|points| - 1) * points[0].amount
  {
    var n := |points| - 1;
    if n > 0 {
      forall i | 0 <= i < n - 1
        ensures Follows(points[..n], i, false)
      {
        assert Follows(points, i, false);
      }
      BalanceGrows(points[..n]);
      assert Follows(points, n - 1, false);
    }
  }

  ghost predicate OneDayOneAmount(points: seq<Point>) {
    forall i, j :: 0 <= i < j < |points| ==>
      points[i].date == points[j].date && points[i].amount == points[j].amount
  }

  /** A file of one day and one amount always fits two layouts: it is oldest first with balances as
      they are exactly when it is newest first with what's owed, and the other way around. The two
      end on the same balance only when its first and last cancel. */
  lemma SameAmountsAreAmbiguous(points: seq<Point>, owed: bool)
    requires points != [] && OneDayOneAmount(points)
    ensures OldestFirst(points, owed) <==> NewestFirst(points, !owed)
    ensures OldestFirst(points, false) ==>
      var first, last := points[0].balance, points[|points| - 1].balance;
      (last == -first <==> 2 * first + (|points| - 1) * points[0].amount == 0)
  {
    var other := !owed;
    if OldestFirst(points, owed) {
      forall i | 0 <= i < |points| - 1
        ensures Precedes(points, i, other)
      {
        assert Follows(points, i, owed) && points[i].amount == points[i + 1].amount;
      }
    }
    if NewestFirst(points, other) {
      forall i | 0 <= i < |points| - 1
        ensures Follows(points, i, owed)
      {
        assert Precedes(points, i, other) && points[i].amount == points[i + 1].amount;
      }
    }
    if OldestFirst(points, false) {
      BalanceGrows(points);
    }
  }

  // ---- Which layouts fit a file ----

  datatype Layout = Layout(newestFirst: bool, owed: bool)

  ghost predicate Fits(points: seq<Point>, layout: Layout) {
    if layout.newestFirst then NewestFirst(points, layout.owed) else OldestFirst(points, layout.owed)
  }

  /** What a file of a layout ends on. */
  function EndsOn(points: seq<Point>, layout: Layout): int
    requires points != []
  {
    var balance := if layout.newestFirst then points[0].balance else points[|points| - 1].balance;
    if layout.owed then -balance else balance
  }

  /** A file of more than one day fits one layout only: its dates say which way it goes, and how
      any two of its balances move says which way they count. */
  lemma SeveralDaysFitOnce(points: seq<Point>, layout: Layout, other: Layout)
    requires points != [] && points[0].date != points[|points| - 1].date && Fits(points, layout)
    ensures Fits(points, other) <==> other == layout
  {
    assert points[0].amount != 0 && points[1].amount != 0;
    if other.newestFirst == layout.newestFirst && other.owed != layout.owed {
      if layout.newestFirst {
        assert Precedes(points, 0, layout.owed) && !Precedes(points, 0, other.owed);
      } else {
        assert Follows(points, 0, layout.owed) && !Follows(points, 0, other.owed);
      }
    }
  }

  /** Such a file is read right exactly when its balances aren't what's owed, or its amounts aren't
      all the same, or it ends on nothing: with the same amount on every line the votes tie, and
      what's owed is taken for what there is though nothing else fits the file. */
  lemma SeveralDaysAreRead(points: seq<Point>, layout: Layout)
    requires points != [] && points[0].date != points[|points| - 1].date && Fits(points, layout)
    ensures Closing(points) == EndsOn(points, layout)
      <==> !layout.owed || Changes(points) > 0 || EndsOn(points, layout) == 0
  {
    hide Closing, Changes, Tally, Latest;
    if layout.newestFirst {
      NewestFirstIsRead(points, layout.owed);
    } else {
      OldestFirstIsRead(points, layout.owed);
    }
  }

  /** Of every consistent file, exactly which are read right. Listed newest first, on one day and with
      amounts of one size, it is turned around and the last balance is taken for the first; and with
      one amount throughout, what's owed is taken for what there is. Then only balances that happen
      to make up for it come out right. */
  lemma IsReadExactly(points: seq<Point>, layout: Layout)
    requires points != [] && Fits(points, layout)
    ensures var first, last := points[0].balance, points[|points| - 1].balance;
      var turned := layout.newestFirst && SizeChanges(points) == 0 && points[0].date == points[|points| - 1].date;
      Closing(points) == EndsOn(points, layout) <==>
        if layout.owed && Changes(points) == 0 then
          if turned then last == -first else EndsOn(points, layout) == 0
        else
          turned ==> first == last
  {
    hide Closing, Changes, SizeChanges, Tally, Latest;
    if layout.newestFirst {
      NewestFirstIsRead(points, layout.owed);
    } else {
      OldestFirstIsRead(points, layout.owed);
    }
  }

  /** Two transactions of one size on one day, newest first and nothing owed: the balance before the
      latest is given for the one after it. */
  lemma NewestFirstIsMisread()
    ensures var points := [Point(1, 5, 10), Point(1, 5, 5)];
      NewestFirst(points, false) && Closing(points) == 5 && EndsOn(points, Layout(true, false)) == 10
  {
    var points := [Point(1, 5, 10), Point(1, 5, 5)];
    assert Precedes(points, 0, false) && NewestFirst(points, false);
    assert points[..1] == [points[0]];
    assert SizeChanges(points) == 0;
    NewestFirstIsRead(points, false);
  }

  // ---- Files by what their rows say ----

  lemma {:induction false} NoChanges(points: seq<Point>)
    ensures Changes(points) == 0 <==> forall i, j :: 0 <= i < j < |points| ==> points[i].amount == points[j].amount
  {
    if |points| > 1 {
      var n := |points| - 1;
      NoChanges(points[..n]);
      assert forall i :: 0 <= i < n ==> points[..n][i] == points[i];
    }
  }

  lemma {:induction false} NoSizeChanges(points: seq<Point>)
    ensures SizeChanges(points) == 0 <==>
      forall i, j :: 0 <= i < j < |points| ==> points[i].amount in {points[j].amount, -points[j].amount}
  {
    if |points| > 1 {
      var n := |points| - 1;
      NoSizeChanges(points[..n]);
      assert forall i :: 0 <= i < n ==> points[..n][i] == points[i];
    }
  }

  /** What a balance column shows of a balance: what's owed with the sign turned. */
  function Shown(balance: int, owed: bool): int {
    if owed then -balance else balance
  }

  /** Every row has its date, amount and balance; days go one way; and each row's balance is its amount
      on from that of the row before it in time. */
  ghost predicate RowsFit(rows: seq<FileRow>, layout: Layout) {
    && (forall row :: row in rows ==>
      row.date.Some? && row.amount.Some? && row.balance.Some? && row.amount.value != 0)
    && (forall i, j :: 0 <= i < j < |rows| ==>
      if layout.newestFirst then rows[j].date.value <= rows[i].date.value else rows[i].date.value <= rows[j].date.value)
    && (forall i, j :: 0 <= i < |rows| && j == i + 1 < |rows| ==>
      var (before, after) := if layout.newestFirst then (rows[j], rows[i]) else (rows[i], rows[j]);
      Shown(after.balance.value, layout.owed) == Shown(before.balance.value, layout.owed) + after.amount.value)
  }

  /** What the account truly had after the last transaction in time, and its day. */
  ghost function Truly(rows: seq<FileRow>, layout: Layout): int
    requires rows != [] && RowsFit(rows, layout)
  {
    Shown((if layout.newestFirst then rows[0] else rows[|rows| - 1]).balance.value, layout.owed)
  }

  ghost function LastDay(rows: seq<FileRow>, layout: Layout): int
    requires rows != [] && RowsFit(rows, layout)
  {
    (if layout.newestFirst then rows[0] else rows[|rows| - 1]).date.value
  }

  /** Neither turned around nor its sign lost, or its balances make up for that. */
  ghost predicate IsReadRight(rows: seq<FileRow>, layout: Layout)
    requires rows != [] && RowsFit(rows, layout)
  {
    var first, last := rows[0], rows[|rows| - 1];
    var oneAmount := forall i, j :: 0 <= i < j < |rows| ==> rows[i].amount == rows[j].amount;
    var oneSize := forall i, j :: 0 <= i < j < |rows| ==>
      rows[i].amount.value in {rows[j].amount.value, -rows[j].amount.value};
    var turned := layout.newestFirst && oneSize && first.date == last.date;
    if layout.owed && oneAmount
    then (if turned then last.balance.value == -first.balance.value else Truly(rows, layout) == 0)
    else (turned ==> first.balance == last.balance)
  }

  lemma RowsFitPoints(rows: seq<FileRow>, layout: Layout)
    requires rows != [] && RowsFit(rows, layout)
    ensures var points := Points(rows);
      && |points| == |rows| && Fits(points, layout) && EndsOn(points, layout) == Truly(rows, layout)
      && forall i :: 0 <= i < |rows| ==>
        rows[i] == FileRow(Some(points[i].date), Some(points[i].amount), Some(points[i].balance))
  {
    var points := Points(rows);
    forall i: nat | i < |rows| {
      CompleteRowsArePoints(rows, i);
    }
    CompleteRowsArePoints(rows, 0);
    hide Points;
    forall i | 0 <= i < |points| - 1
      ensures if layout.newestFirst then Precedes(points, i, layout.owed) else Follows(points, i, layout.owed)
    {
      var j := i + 1;
      assert rows[i] in rows && rows[j] in rows;
    }
  }

  lemma SameAmounts(rows: seq<FileRow>, points: seq<Point>)
    requires |points| == |rows|
    requires forall i :: 0 <= i < |rows| ==>
        rows[i] == FileRow(Some(points[i].date), Some(points[i].amount), Some(points[i].balance))
    ensures Changes(points) == 0 <==> forall i, j :: 0 <= i < j < |rows| ==> rows[i].amount == rows[j].amount
    ensures SizeChanges(points) == 0 <==>
      forall i, j :: 0 <= i < j < |rows| ==>
        rows[i].amount.value in {rows[j].amount.value, -rows[j].amount.value}
  {
    NoChanges(points);
    NoSizeChanges(points);
    hide Changes, SizeChanges;
  }

  lemma LatestIs(points: seq<Point>, layout: Layout)
    requires points != [] && Fits(points, layout)
    ensures Latest(points) == (if layout.newestFirst then points[0] else points[|points| - 1]).date
  {
    hide Closing, Changes, SizeChanges, Tally, Latest;
    if layout.newestFirst {
      NewestFirstIsRead(points, layout.owed);
    } else {
      OldestFirstIsRead(points, layout.owed);
    }
  }

  lemma ReadRightByPoints(rows: seq<FileRow>, layout: Layout, points: seq<Point>)
    requires rows != [] && RowsFit(rows, layout) && |points| == |rows|
    requires Fits(points, layout) && EndsOn(points, layout) == Truly(rows, layout)
    requires forall i :: 0 <= i < |rows| ==>
        rows[i] == FileRow(Some(points[i].date), Some(points[i].amount), Some(points[i].balance))
    ensures LastDay(rows, layout) == (if layout.newestFirst then points[0] else points[|points| - 1]).date
    ensures var first, last := points[0].balance, points[|points| - 1].balance;
      var turned := layout.newestFirst && SizeChanges(points) == 0 && points[0].date == points[|points| - 1].date;
      IsReadRight(rows, layout) <==>
        if layout.owed && Changes(points) == 0 then
          if turned then last == -first else EndsOn(points, layout) == 0
        else
          turned ==> first == last
  {
    hide Changes, SizeChanges, Fits, EndsOn, Truly, RowsFit;
    SameAmounts(rows, points);
  }

  /** The closing balance found in a file of any layout is the true one if and only if it is one that
      is read right. */
  lemma FileIsReadExactly(rows: seq<FileRow>, layout: Layout)
    requires rows != [] && RowsFit(rows, layout)
    ensures Points(rows) != [] && Latest(Points(rows)) == LastDay(rows, layout)
    ensures Closing(Points(rows)) == Truly(rows, layout) <==> IsReadRight(rows, layout)
  {
    hide *;
    var points := Points(rows);
    RowsFitPoints(rows, layout);
    ReadRightByPoints(rows, layout, points);
    IsReadExactly(points, layout);
    LatestIs(points, layout);
  }

  method ClosingBalanceOf(rows: seq<FileRow>) returns (closing: Option<int>, day: Option<int>)
    ensures Points(rows) == [] ==> closing == None && day == None
    ensures Points(rows) != [] ==> closing == Some(Closing(Points(rows))) && day == Some(Latest(Points(rows)))
    ensures forall layout :: rows != [] && RowsFit(rows, layout) ==>
      day == Some(LastDay(rows, layout)) && closing.Some?
      && (closing.value == Truly(rows, layout) <==> IsReadRight(rows, layout))
  {
    var points := Points(rows);
    if points == [] {
      return None, None;
    }
    var asIs, owed, newestFirst := CountVotes(points);
    if newestFirst == 0 {
      newestFirst := if points[0].date > points[|points| - 1].date then 1 else -1;
    }
    var latest := Latest(points);
    var last := OnDay(points, latest);
    SomeOnLatest(points);
    var point := if newestFirst > 0 then last[0] else last[|last| - 1];
    forall layout | RowsFit(rows, layout) {
      FileIsReadExactly(rows, layout);
    }
    return Some(if owed > asIs then -point.balance else point.balance), Some(latest);
  }
}
