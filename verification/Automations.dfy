/** Sorting transactions with automations (`finance/automations.py`). There are two implementations:
    `RuleBook` sorts one transaction as it arrives, comparing texts itself; `apply_to_existing`
    sorts all there are with SQL, one automation at a time. They are proved to agree. */
module Automations {
  import opened Wrappers

  // ---- What the two implementations share ----

  datatype Match = Exact | StartsWith | Contains

  datatype Direction = Any | In | Out

  /** `keys` are the texts it looks for, as they are compared. */
  datatype Automation = Automation(
    id: Id, createdAt: int, keys: seq<string>, how: Match, account: Option<Id>,
    minAmount: Option<int>, maxAmount: Option<int>, direction: Direction,
    category: Option<Id>, subscription: Option<Id>)

  datatype Subscription = Subscription(active: bool, category: Option<Id>, account: Id, payee: string)

  /** The payee and the bank's description are as they are compared; `ownPayee` is the payee as
      subscriptions compare it. */
  datatype Transaction = Transaction(
    account: Id, amount: int, payee: string, ownPayee: string, description: Option<string>,
    category: Option<Id>, chosen: bool, subscription: Option<Id>)

  function Or<T>(a: Option<T>, b: Option<T>): Option<T> {
    if a.Some? then a else b
  }

  function Abs(amount: int): (size: int)
    ensures size >= 0 && (size == amount || size == -amount)
  {
    if amount < 0 then -amount else amount
  }

  // ---- Text, as SQL compares it ----

  /** SQL's LIKE with a backslash to escape: `%` is any text and `_` any character. */
  predicate Like(pattern: string, text: string)
    decreases |pattern| + |text|
  {
    if pattern == "" then text == ""
    else if pattern[0] == '%' then Like(pattern[1..], text) || (text != "" && Like(pattern, text[1..]))
    else if text == "" then false
    else if pattern[0] == '_' then Like(pattern[1..], text[1..])
    else if pattern[0] == '\\' then |pattern| > 1 && text[0] == pattern[1] && Like(pattern[2..], text[1..])
    else text[0] == pattern[0] && Like(pattern[1..], text[1..])
  }

  /** `text` with each `c` replaced. */
  function Replace(text: string, c: char, with: string): string {
    if text == "" then ""
    else (if text[0] == c then with else [text[0]]) + Replace(text[1..], c, with)
  }

  function LikePattern(text: string, prefixOnly: bool): string {
    var escaped := Replace(Replace(Replace(text, '\\', "\\\\"), '%', "\\%"), '_', "\\_");
    if prefixOnly then escaped + "%" else "%" + escaped + "%"
  }

  /** What the three replacements come to: a backslash in front of every special character. */
  function Escape(text: string): string {
    if text == "" then ""
    else (if text[0] in {'\\', '%', '_'} then ['\\', text[0]] else [text[0]]) + Escape(text[1..])
  }

  lemma {:induction false} ReplaceAppends(a: string, b: string, c: char, with: string)
    ensures Replace(a + b, c, with) == Replace(a, c, with) + Replace(b, c, with)
  {
    if a == "" {
      assert a + b == b;
    } else {
      assert (a + b)[1..] == a[1..] + b && (a + b)[0] == a[0] && a + b != "";
      ReplaceAppends(a[1..], b, c, with);
      var head := if a[0] == c then with else [a[0]];
      assert Replace(a, c, with) == head + Replace(a[1..], c, with);
      assert Replace(a + b, c, with) == head + Replace(a[1..] + b, c, with);
      hide Replace;
    }
  }

  lemma ReplaceOne(x: char, c: char, with: string)
    ensures Replace([x], c, with) == if x == c then with else [x]
  {
    assert Replace([x][1..], c, with) == "";
  }

  lemma ReplaceTwo(x: char, y: char, c: char, with: string)
    requires x != c && y != c
    ensures Replace([x, y], c, with) == [x, y]
  {
    ReplaceOne(x, c, with);
    ReplaceOne(y, c, with);
    ReplaceAppends([x], [y], c, with);
    assert [x] + [y] == [x, y];
  }

  /** Replacing one character after another doesn't escape an escape. */
  lemma {:induction false} ReplacementsEscape(text: string)
    ensures Replace(Replace(Replace(text, '\\', "\\\\"), '%', "\\%"), '_', "\\_") == Escape(text)
  {
    if text != "" {
      var x, rest := text[0], text[1..];
      ReplacementsEscape(rest);
      var one := Replace(rest, '\\', "\\\\");
      var two := Replace(one, '%', "\\%");
      var head := if x == '\\' then "\\\\" else [x];
      ReplaceAppends(head, one, '%', "\\%");
      ReplaceOne(x, '%', "\\%");
      ReplaceTwo('\\', '\\', '%', "\\%");
      var head' := Replace(head, '%', "\\%");
      ReplaceAppends(head', two, '_', "\\_");
      ReplaceOne(x, '_', "\\_");
      ReplaceTwo('\\', '\\', '_', "\\_");
      ReplaceTwo('\\', '%', '_', "\\_");
    }
  }

  // ---- Text, as Python compares it ----

  predicate Found(key: string, text: string) {
    exists i :: 0 <= i <= |text| && key <= text[i..]
  }

  lemma {:induction false} AnyTextIsLike(text: string)
    ensures Like("%", text)
  {
    if text != "" {
      AnyTextIsLike(text[1..]);
    } else {
      assert Like("%"[1..], text);
    }
  }

  lemma {:induction false} LikePrefix(key: string, text: string)
    ensures Like(Escape(key) + "%", text) <==> key <= text
  {
    if key == "" {
      assert Escape(key) + "%" == "%";
      AnyTextIsLike(text);
    } else {
      LikePrefix(key[1..], if text == "" then "" else text[1..]);
      var rest := Escape(key[1..]) + "%";
      if key[0] in {'\\', '%', '_'} {
        assert Escape(key) + "%" == ['\\', key[0]] + rest;
        assert (['\\', key[0]] + rest)[2..] == rest;
      } else {
        assert Escape(key) + "%" == [key[0]] + rest;
      }
      if key <= text { assert key[1..] <= text[1..]; }
      if text != "" && key[0] == text[0] && key[1..] <= text[1..] {
        assert key == [key[0]] + key[1..] && text == [text[0]] + text[1..];
      }
    }
  }

  lemma FoundFurtherOn(key: string, text: string)
    ensures Found(key, text) <==> key <= text || (text != "" && Found(key, text[1..]))
  {
    assert text[0..] == text;
    if text != "" {
      assert forall i :: 0 <= i <= |text[1..]| ==> text[1..][i..] == text[i + 1..];
      assert forall i :: 1 <= i <= |text| ==> text[i..] == text[1..][i - 1..];
    }
  }

  lemma {:induction false} LikeAnywhere(key: string, text: string)
    ensures Like("%" + Escape(key) + "%", text) <==> Found(key, text)
  {
    var pattern := Escape(key) + "%";
    assert "%" + Escape(key) + "%" == "%" + pattern;
    assert ("%" + pattern)[1..] == pattern;
    LikePrefix(key, text);
    FoundFurtherOn(key, text);
    hide Found, Escape;
    if text != "" {
      LikeAnywhere(key, text[1..]);
    }
  }

  /** A LIKE pattern made of a text finds that text and nothing else, wildcards in it included. */
  lemma LikeFindsTheText(key: string, prefixOnly: bool, text: string)
    ensures Like(LikePattern(key, prefixOnly), text) <==> if prefixOnly then key <= text else Found(key, text)
  {
    ReplacementsEscape(key);
    if prefixOnly {
      LikePrefix(key, text);
    } else {
      LikeAnywhere(key, text);
    }
  }

  /** Without the backslashes a text with a wildcard in it finds others. */
  lemma UnescapedFindsOthers()
    ensures Like("a_b%", "axb") && !("a_b" <= "axb") && !Like(LikePattern("a_b", true), "axb")
  {
    LikeFindsTheText("a_b", true, "axb");
    assert "a_b%"[1..] == "_b%" && "_b%"[1..] == "b%" && "b%"[1..] == "%" && "%"[1..] == "";
    assert "axb"[1..] == "xb" && "xb"[1..] == "b" && "b"[1..] == "";
    assert Like("%", "") && Like("b%", "b") && Like("_b%", "xb");
    assert "a_b"[1] != "axb"[1];
  }

  // ---- What an automation covers, one transaction at a time ----

  predicate Compares(keys: seq<string>, how: Match, text: string) {
    match how
    case Exact => text in keys
    case StartsWith => exists key :: key in keys && key <= text
    case Contains => exists key :: key in keys && Found(key, text)
  }

  predicate Covers(a: Automation, t: Transaction) {
    if a.account.Some? && a.account.value != t.account then false
    else if (a.direction.In? && t.amount <= 0) || (a.direction.Out? && t.amount >= 0) then false
    else if a.minAmount.Some? && Abs(t.amount) < a.minAmount.value then false
    else if a.maxAmount.Some? && Abs(t.amount) > a.maxAmount.value then false
    else Compares(a.keys, a.how, t.payee) || (t.description.Some? && Compares(a.keys, a.how, t.description.value))
  }

  // ---- What an automation covers, as a condition on the table ----

  predicate TextMatches(keys: seq<string>, how: Match, column: string) {
    if how.Exact? then column in keys
    else exists key :: key in keys && Like(LikePattern(key, how.StartsWith?), column)
  }

  predicate Matching(a: Automation, t: Transaction) {
    && (TextMatches(a.keys, a.how, t.payee) || TextMatches(a.keys, a.how, t.description.GetOr("")))
    && (a.account.Some? ==> t.account == a.account.value)
    && (match a.direction case In => t.amount > 0 case Out => t.amount < 0 case Any => true)
    && (a.minAmount.Some? ==> Abs(t.amount) >= a.minAmount.value)
    && (a.maxAmount.Some? ==> Abs(t.amount) <= a.maxAmount.value)
  }

  /** None of the texts an automation looks for is empty. */
  predicate HasTexts(a: Automation) {
    "" !in a.keys
  }

  lemma TextMatchesIsCompares(keys: seq<string>, how: Match, text: string)
    ensures TextMatches(keys, how, text) <==> Compares(keys, how, text)
  {
    if !how.Exact? {
      forall key
        ensures Like(LikePattern(key, how.StartsWith?), text) <==>
            if how.StartsWith? then key <= text else Found(key, text)
      {
        LikeFindsTheText(key, how.StartsWith?, text);
      }
    }
  }

  lemma NothingInNoText(keys: seq<string>, how: Match)
    requires "" !in keys
    ensures !Compares(keys, how, "")
  {
    forall key | key in keys
      ensures !(key <= "") && !Found(key, "")
    {
    }
  }

  /** The two ways of saying what an automation covers are the same, a missing description included. */
  lemma MatchingIsCovers(a: Automation, t: Transaction)
    requires HasTexts(a)
    ensures Matching(a, t) <==> Covers(a, t)
  {
    hide TextMatches, Compares;
    TextMatchesIsCompares(a.keys, a.how, t.payee);
    TextMatchesIsCompares(a.keys, a.how, t.description.GetOr(""));
    NothingInNoText(a.keys, a.how);
  }

  // ---- The rules: the active automations, oldest first ----

  predicate Precedes(a: Automation, b: Automation) {
    a.createdAt < b.createdAt || (a.createdAt == b.createdAt && a.id.number < b.id.number)
  }

  ghost predicate IsRuleBook(rules: seq<Automation>) {
    && (forall i, j :: 0 <= i < j < |rules| ==> Precedes(rules[i], rules[j]))
    && (forall a :: a in rules ==> HasTexts(a))
  }

  /** The subscription, unless it's gone or not being tracked now. */
  function Tracking(subscriptions: map<Id, Subscription>, id: Option<Id>): Option<Id> {
    if id.Some? && id.value in subscriptions && subscriptions[id.value].active then id else None
  }

  function CategoryBy(rules: seq<Automation>, t: Transaction): Option<Id> {
    if rules == [] then None
    else if Covers(rules[0], t) && rules[0].category.Some? then rules[0].category
    else CategoryBy(rules[1..], t)
  }

  function SubscriptionBy(rules: seq<Automation>, subscriptions: map<Id, Subscription>, t: Transaction): Option<Id> {
    if rules == [] || t.amount >= 0 then None
    else if Covers(rules[0], t) && Tracking(subscriptions, rules[0].subscription).Some? then
      Tracking(subscriptions, rules[0].subscription)
    else SubscriptionBy(rules[1..], subscriptions, t)
  }

  datatype Sorting = Sorting(category: Option<Id>, subscription: Option<Id>)

  /** Everything that sorts: the rules, the subscriptions, and those tracked by account and payee. */
  datatype RuleBook = RuleBook(
    rules: seq<Automation>, subscriptions: map<Id, Subscription>, own: map<(Id, string), Id>)
  {
    /** What a payment with no rule's subscription falls back to. */
    function Own(t: Transaction): Option<Id> {
      if t.amount < 0 && (t.account, t.ownPayee) in own then Some(own[(t.account, t.ownPayee)]) else None
    }

    /** The source's walk over the rules. */
    method Pick(t: Transaction) returns (category: Option<Id>, subscription: Option<Id>)
      ensures category == CategoryBy(rules, t)
      ensures subscription == Or(SubscriptionBy(rules, subscriptions, t), Own(t))
    {
      var payment := t.amount < 0;
      category, subscription := None, None;
      for n := 0 to |rules|
        invariant Or(category, CategoryBy(rules[n..], t)) == CategoryBy(rules, t)
        invariant Or(subscription, SubscriptionBy(rules[n..], subscriptions, t)) ==
            SubscriptionBy(rules, subscriptions, t)
      {
        assert rules[n..][0] == rules[n] && rules[n..][1..] == rules[n + 1..];
        if Covers(rules[n], t) {
          category := Or(category, rules[n].category);
          if payment {
            subscription := Or(subscription, Tracking(subscriptions, rules[n].subscription));
          }
        }
      }
      if subscription.None? && payment {
        subscription := Own(t);
      }
    }

    function CategoryOf(subscription: Option<Id>): Option<Id> {
      if subscription.Some? && subscription.value in subscriptions
        then subscriptions[subscription.value].category else None
    }

    /** What the rules give a transaction. */
    function Gives(t: Transaction): Sorting {
      var subscription := Or(SubscriptionBy(rules, subscriptions, t), Own(t));
      Sorting(Or(CategoryBy(rules, t), CategoryOf(subscription)), subscription)
    }

    /** A transaction once sorted as it arrives. */
    function Sorted(t: Transaction, keepCategory: bool): Transaction {
      t.(subscription := Or(Gives(t).subscription, t.subscription),
         category := if keepCategory || t.chosen then t.category else Or(Gives(t).category, t.category))
    }
  }

  // ---- What applying one automation to everything gives each transaction ----

  /** An older automation that gives a category to what it covers, this included. */
  ghost predicate CategoryTaken(rules: seq<Automation>, a: Automation, t: Transaction) {
    exists other :: other in rules && Precedes(other, a) && other.category.Some? && Covers(other, t)
  }

  ghost predicate SubscriptionTaken(book: RuleBook, a: Automation, t: Transaction) {
    exists other :: other in book.rules && Precedes(other, a) &&
      Tracking(book.subscriptions, other.subscription).Some? && Covers(other, t)
  }

  /** The category an automation offers a transaction: its own, or its subscription's. */
  ghost function Offer(book: RuleBook, a: Automation, t: Transaction): Option<Id> {
    if !Covers(a, t) || CategoryTaken(book.rules, a, t) then None
    else if a.category.Some? then a.category
    else if t.amount < 0 then book.CategoryOf(Tracking(book.subscriptions, a.subscription))
    else None
  }

  ghost function Link(book: RuleBook, a: Automation, t: Transaction): Option<Id> {
    if Covers(a, t) && t.amount < 0 && !SubscriptionTaken(book, a, t)
    then Tracking(book.subscriptions, a.subscription) else None
  }

  ghost function Applied(book: RuleBook, a: Automation, t: Transaction): Transaction {
    t.(category := if t.chosen then t.category else Or(Offer(book, a, t), t.category),
       subscription := Or(Link(book, a, t), t.subscription))
  }

  // ---- The requests, on the table ----

  /** What applying one automation to everything leaves. */
  ghost function AfterRequest(book: RuleBook, a: Automation, table: map<Id, Transaction>): map<Id, Transaction> {
    map id | id in table :: Applied(book, a, table[id])
  }

  ghost function Differing(before: map<Id, Transaction>, after: map<Id, Transaction>): set<Id> {
    set id | id in before && id in after && after[id] != before[id]
  }

  /** Two updates change together what each changes, when the second takes nothing back. */
  lemma ChangedTogether(before: map<Id, Transaction>, between: map<Id, Transaction>, after: map<Id, Transaction>)
    requires between.Keys == before.Keys && after.Keys == before.Keys
    requires forall id :: id in before && between[id] != before[id] ==> after[id] != before[id]
    ensures Differing(before, between) + Differing(between, after) == Differing(before, after)
  {
  }

  lemma SameTable(table: map<Id, Transaction>)
    ensures Differing(table, table) == {}
  {
  }

  /** The rules that win over an automation: the ones made before it. */
  function Wins(rules: seq<Automation>, a: Automation): (older: seq<Automation>)
    ensures forall other :: other in older <==> other in rules && Precedes(other, a)
  {
    if rules == [] then [] else (if Precedes(rules[0], a) then [rules[0]] else []) + Wins(rules[1..], a)
  }

  ghost function WithCategory(a: Automation, older: seq<Automation>, category: Id, payments: bool,
        t: Transaction): (r: Transaction)
    ensures r == t.(category := r.category)
  {
    if Covers(a, t) && (payments ==> t.amount < 0) && !t.chosen
       && !(exists other :: other in older && other.category.Some? && Covers(other, t))
    then t.(category := Some(category))
    else t
  }

  ghost function WithLink(subscriptions: map<Id, Subscription>, a: Automation, older: seq<Automation>,
        subscription: Id, t: Transaction): (r: Transaction)
    ensures r == t.(subscription := r.subscription)
  {
    if Covers(a, t) && t.amount < 0
       && !(exists other :: other in older && Tracking(subscriptions, other.subscription).Some? && Covers(other, t))
    then t.(subscription := Some(subscription))
    else t
  }

  /** What the updates of one request leave of a transaction. */
  ghost function Updated(book: RuleBook, a: Automation, older: seq<Automation>, t: Transaction): Transaction {
    var subscription := Tracking(book.subscriptions, a.subscription);
    var first := if a.category.Some? then WithCategory(a, older, a.category.value, false, t) else t;
    if subscription.None? then first
    else
      var linked := WithLink(book.subscriptions, a, older, subscription.value, first);
      var category := book.CategoryOf(subscription);
      if a.category.None? && category.Some? then WithCategory(a, older, category.value, true, linked) else linked
  }

  lemma SameLooks(a: Automation, t: Transaction, u: Transaction)
    requires u == t.(category := u.category, subscription := u.subscription)
    ensures Covers(a, u) == Covers(a, t)
  {
  }

  lemma UpdatedIsApplied(book: RuleBook, a: Automation, t: Transaction)
    ensures Updated(book, a, Wins(book.rules, a), t) == Applied(book, a, t)
  {
    hide Covers, Precedes;
    var older := Wins(book.rules, a);
    assert forall other, u: Transaction :: u == t.(category := u.category, subscription := u.subscription) ==>
        Covers(other, u) == Covers(other, t) by {
      forall other, u: Transaction | u == t.(category := u.category, subscription := u.subscription) {
        SameLooks(other, t, u);
      }
    }
  }

  /** An UPDATE that gives a category to what an automation covers, unless an older one gives one
      there or someone chose theirs. Returns what it changed. */
  method GiveCategory(before: map<Id, Transaction>, a: Automation, older: seq<Automation>, category: Id, payments: bool)
    returns (after: map<Id, Transaction>, changed: set<Id>)
    requires HasTexts(a) && forall other :: other in older ==> HasTexts(other)
    ensures after.Keys == before.Keys
    ensures forall id :: id in before ==> after[id] == WithCategory(a, older, category, payments, before[id])
    ensures changed == Differing(before, after)
  {
    var wanted := set id | id in before && Matching(a, before[id]) && (payments ==> before[id].amount < 0)
      && !(exists other | other in older :: other.category.Some? && Matching(other, before[id]))
      && !before[id].chosen && before[id].category != Some(category);
    after := map id | id in before :: if id in wanted then before[id].(category := Some(category)) else before[id];
    changed := wanted;
    forall id, other | id in before && other in older
      ensures Matching(other, before[id]) <==> Covers(other, before[id])
    {
      MatchingIsCovers(other, before[id]);
    }
    forall id | id in before
      ensures Matching(a, before[id]) <==> Covers(a, before[id])
    {
      MatchingIsCovers(a, before[id]);
    }
  }

  /** An UPDATE that links the payments an automation covers, unless an older one links one there. */
  method LinkPayments(before: map<Id, Transaction>, subscriptions: map<Id, Subscription>, a: Automation,
        older: seq<Automation>, subscription: Id)
    returns (after: map<Id, Transaction>, changed: set<Id>)
    requires HasTexts(a) && forall other :: other in older ==> HasTexts(other)
    ensures after.Keys == before.Keys
    ensures forall id :: id in before ==> after[id] == WithLink(subscriptions, a, older, subscription, before[id])
    ensures changed == Differing(before, after)
  {
    var wanted := set id | id in before && Matching(a, before[id]) && before[id].amount < 0
      && !(exists other | other in older ::
             Tracking(subscriptions, other.subscription).Some? && Matching(other, before[id]))
      && before[id].subscription != Some(subscription);
    after := map id | id in before :: if id in wanted
      then before[id].(subscription := Some(subscription)) else before[id];
    changed := wanted;
    forall id, other | id in before && other in older
      ensures Matching(other, before[id]) <==> Covers(other, before[id])
    {
      MatchingIsCovers(other, before[id]);
    }
    forall id | id in before
      ensures Matching(a, before[id]) <==> Covers(a, before[id])
    {
      MatchingIsCovers(a, before[id]);
    }
  }

  method ApplyTo(book: RuleBook, before: map<Id, Transaction>, a: Automation) returns (after: map<Id, Transaction>,
        changed: set<Id>)
    requires IsRuleBook(book.rules) && HasTexts(a)
    ensures after == map id | id in before :: Applied(book, a, before[id])
    ensures changed == Differing(before, after)
  {
    hide Covers, WithCategory, WithLink, Wins, Differing;
    var older := Wins(book.rules, a);
    var first, given := before, {};
    SameTable(before);
    if a.category.Some? {
      first, given := GiveCategory(before, a, older, a.category.value, false);
    }
    var second, linked := first, {};
    SameTable(first);
    var subscription := Tracking(book.subscriptions, a.subscription);
    if subscription.Some? {
      second, linked := LinkPayments(first, book.subscriptions, a, older, subscription.value);
    }
    ChangedTogether(before, first, second);
    changed := given + linked;
    after := second;
    var category := book.CategoryOf(subscription);
    if subscription.Some? && a.category.None? && category.Some? {
      after, given := GiveCategory(second, a, older, category.value, true);
      ChangedTogether(before, second, after);
      changed := changed + given;
    }
    forall id | id in before
      ensures after[id] == Applied(book, a, before[id])
    {
      UpdatedIsApplied(book, a, before[id]);
    }
  }

  class Household {
    const book: RuleBook
    var transactions: map<Id, Transaction>

    constructor (book: RuleBook, transactions: map<Id, Transaction>)
      ensures this.book == book && this.transactions == transactions
    {
      this.book, this.transactions := book, transactions;
    }

    /** Sorts a transaction as it arrives. */
    method Sort(id: Id, keepCategory: bool) returns (changed: bool)
      requires id in transactions
      modifies this`transactions
      ensures transactions == old(transactions)[id := book.Sorted(old(transactions)[id], keepCategory)]
      ensures changed <==> transactions != old(transactions)
    {
      var t := transactions[id];
      var category, subscription := book.Pick(t);
      if subscription.Some? {
        category := Or(category, book.CategoryOf(subscription));
      }
      changed := false;
      if subscription.Some? && t.subscription != subscription {
        t := t.(subscription := subscription);
        changed := true;
      }
      if category.Some? && !(keepCategory || t.chosen) && t.category != category {
        t := t.(category := category);
        changed := true;
      }
      assert t == book.Sorted(old(transactions)[id], keepCategory);
      assert changed <==> t != old(transactions)[id];
      transactions := transactions[id := t];
      assert transactions[id] == t;
    }

    /** Sorts every transaction an automation covers, except where an older one gives the same thing. */
    method ApplyToExisting(a: Automation) returns (count: nat)
      requires IsRuleBook(book.rules) && HasTexts(a)
      modifies this`transactions
      ensures transactions == AfterRequest(book, a, old(transactions))
      ensures count == |Differing(old(transactions), transactions)|
    {
      var changed;
      transactions, changed := ApplyTo(book, transactions, a);
      count := |changed|;
    }
  }

  // ---- Applying automations in any order is sorting one by one ----

  /** The table after a run of requests. */
  ghost function AfterRequests(book: RuleBook, order: seq<Automation>,
        table: map<Id, Transaction>): map<Id, Transaction>
  {
    if order == [] then table
    else AfterRequest(book, order[|order| - 1], AfterRequests(book, order[..|order| - 1], table))
  }

  /** One transaction through a run of requests, each applying one automation to everything. */
  ghost function AppliedAll(book: RuleBook, order: seq<Automation>, t: Transaction): Transaction {
    if order == [] then t
    else Applied(book, order[|order| - 1], AppliedAll(book, order[..|order| - 1], t))
  }

  /** It is every transaction on its own through the same run. */
  lemma {:induction false} RequestsAreOneByOne(book: RuleBook, order: seq<Automation>, table: map<Id, Transaction>)
    ensures AfterRequests(book, order, table) == map id | id in table :: AppliedAll(book, order, table[id])
  {
    hide Applied;
    if order != [] {
      RequestsAreOneByOne(book, order[..|order| - 1], table);
    }
  }

  ghost predicate CoversAll(order: seq<Automation>, rules: seq<Automation>) {
    (forall a :: a in order ==> a in rules) && (forall a :: a in rules ==> a in order)
  }

  /** What the walk over the rules alone gives, leaving out the fallback to a payee's own subscription. */
  function ByRules(book: RuleBook, t: Transaction): Sorting {
    var subscription := SubscriptionBy(book.rules, book.subscriptions, t);
    Sorting(Or(CategoryBy(book.rules, t), book.CategoryOf(subscription)), subscription)
  }

  /** Every rule that offers a transaction a category offers the one the walk gives. */
  ghost predicate OffersAgree(book: RuleBook, t: Transaction) {
    forall a :: a in book.rules && Offer(book, a, t).Some? ==> Offer(book, a, t) == ByRules(book, t).category
  }

  /** A transaction as the walk over the rules sorts it. */
  function SortedByRules(book: RuleBook, t: Transaction): Transaction {
    t.(category := if t.chosen then t.category else Or(ByRules(book, t).category, t.category),
       subscription := Or(ByRules(book, t).subscription, t.subscription))
  }

  ghost predicate SameLook(t: Transaction, u: Transaction) {
    u == t.(category := u.category, subscription := u.subscription)
  }

  lemma SameGifts(book: RuleBook, a: Automation, t: Transaction, u: Transaction)
    requires SameLook(t, u)
    ensures Offer(book, a, u) == Offer(book, a, t) && Link(book, a, u) == Link(book, a, t)
  {
    hide Covers, Precedes;
    forall other
      ensures Covers(other, u) == Covers(other, t)
    {
      SameLooks(other, t, u);
    }
  }

  /** The last of the automations applied that offers a transaction anything. */
  ghost function LastOffer(book: RuleBook, order: seq<Automation>, t: Transaction): Option<Id> {
    if order == [] then None
    else Or(Offer(book, order[|order| - 1], t), LastOffer(book, order[..|order| - 1], t))
  }

  ghost function LastLink(book: RuleBook, order: seq<Automation>, t: Transaction): Option<Id> {
    if order == [] then None
    else Or(Link(book, order[|order| - 1], t), LastLink(book, order[..|order| - 1], t))
  }

  /** A run leaves the last category and subscription offered, and touches nothing else. */
  lemma {:induction false} RunLeavesLastOffer(book: RuleBook, order: seq<Automation>, t: Transaction)
    ensures AppliedAll(book, order, t) == t.(
      category := if t.chosen then t.category else Or(LastOffer(book, order, t), t.category),
      subscription := Or(LastLink(book, order, t), t.subscription))
  {
    hide Offer, Link;
    if order != [] {
      var n := |order| - 1;
      RunLeavesLastOffer(book, order[..n], t);
      SameGifts(book, order[n], t, AppliedAll(book, order[..n], t));
    }
  }

  /** A category from the rules' walk comes from the oldest rule that covers and gives one. */
  lemma {:induction false} CategoryIsTheOldest(rules: seq<Automation>, t: Transaction) returns (i: nat)
    requires CategoryBy(rules, t).Some?
    ensures i < |rules| && Covers(rules[i], t) && rules[i].category == CategoryBy(rules, t)
    ensures forall j :: 0 <= j < i ==> !(Covers(rules[j], t) && rules[j].category.Some?)
  {
    if Covers(rules[0], t) && rules[0].category.Some? {
      i := 0;
    } else {
      var k := CategoryIsTheOldest(rules[1..], t);
      i := k + 1;
    }
  }

  lemma {:induction false} NoCategoryMeansNone(rules: seq<Automation>, t: Transaction)
    requires CategoryBy(rules, t).None?
    ensures forall a :: a in rules && Covers(a, t) ==> a.category.None?
  {
    if rules != [] {
      NoCategoryMeansNone(rules[1..], t);
      assert rules == [rules[0]] + rules[1..];
    }
  }

  lemma {:induction false} SubscriptionIsTheOldest(book: RuleBook, rules: seq<Automation>, t: Transaction)
        returns (i: nat)
    requires SubscriptionBy(rules, book.subscriptions, t).Some?
    ensures t.amount < 0
    ensures i < |rules| && Covers(rules[i], t)
    ensures Tracking(book.subscriptions, rules[i].subscription) == SubscriptionBy(rules, book.subscriptions, t)
    ensures forall j :: 0 <= j < i ==>
        !(Covers(rules[j], t) && Tracking(book.subscriptions, rules[j].subscription).Some?)
  {
    if Covers(rules[0], t) && Tracking(book.subscriptions, rules[0].subscription).Some? {
      i := 0;
    } else {
      var k := SubscriptionIsTheOldest(book, rules[1..], t);
      i := k + 1;
    }
  }

  lemma OrderOfRules(rules: seq<Automation>, i: nat, j: nat)
    requires IsRuleBook(rules) && i < |rules| && j < |rules|
    ensures i < j <==> Precedes(rules[i], rules[j])
  {
  }

  lemma EarlierRulePrecedes(rules: seq<Automation>, i: nat, other: Automation)
    requires IsRuleBook(rules) && i < |rules| && other in rules && Precedes(other, rules[i])
    ensures exists j :: 0 <= j < i && rules[j] == other
  {
    var j :| 0 <= j < |rules| && rules[j] == other;
    OrderOfRules(rules, j, i);
  }

  /** The oldest rule that gives a category offers it, or else, to a payment, the rule whose
      subscription it is offers that subscription's. */
  lemma PickOffers(book: RuleBook, t: Transaction) returns (a: Automation)
    requires IsRuleBook(book.rules)
    requires Or(CategoryBy(book.rules, t), book.CategoryOf(SubscriptionBy(book.rules, book.subscriptions, t))).Some?
    ensures a in book.rules
    ensures var subscription := SubscriptionBy(book.rules, book.subscriptions, t);
      Offer(book, a, t) == Or(CategoryBy(book.rules, t), book.CategoryOf(subscription))
  {
    hide Covers;
    if CategoryBy(book.rules, t).Some? {
      var i := CategoryIsTheOldest(book.rules, t);
      a := book.rules[i];
      forall other | other in book.rules && Precedes(other, a)
        ensures !(other.category.Some? && Covers(other, t))
      {
        EarlierRulePrecedes(book.rules, i, other);
      }
    } else {
      var i := SubscriptionIsTheOldest(book, book.rules, t);
      a := book.rules[i];
      NoCategoryMeansNone(book.rules, t);
    }
  }

  lemma {:induction false} LastIsOneOf(book: RuleBook, order: seq<Automation>, t: Transaction)
    ensures LastOffer(book, order, t).Some? ==> exists a :: a in order && Offer(book, a, t) == LastOffer(book, order, t)
    ensures LastLink(book, order, t).Some? ==> exists a :: a in order && Link(book, a, t) == LastLink(book, order, t)
    ensures LastOffer(book, order, t).None? ==> forall a :: a in order ==> Offer(book, a, t).None?
    ensures LastLink(book, order, t).None? ==> forall a :: a in order ==> Link(book, a, t).None?
  {
    hide Offer, Link;
    if order != [] {
      var n := |order| - 1;
      LastIsOneOf(book, order[..n], t);
      assert order == order[..n] + [order[n]];
    }
  }

  lemma {:induction false} NoSubscriptionMeansNone(book: RuleBook, rules: seq<Automation>, t: Transaction)
    requires SubscriptionBy(rules, book.subscriptions, t).None? && t.amount < 0
    ensures forall a :: a in rules && Covers(a, t) ==> Tracking(book.subscriptions, a.subscription).None?
  {
    if rules != [] {
      NoSubscriptionMeansNone(book, rules[1..], t);
      assert rules == [rules[0]] + rules[1..];
    }
  }

  lemma FirstTracks(book: RuleBook, a: Automation, t: Transaction, i: nat)
    requires IsRuleBook(book.rules) && a in book.rules && i < |book.rules|
    requires Covers(a, t) && Tracking(book.subscriptions, a.subscription).Some? && !SubscriptionTaken(book, a, t)
    requires Covers(book.rules[i], t) && Tracking(book.subscriptions, book.rules[i].subscription).Some?
    requires forall j :: 0 <= j < i ==>
        !(Covers(book.rules[j], t) && Tracking(book.subscriptions, book.rules[j].subscription).Some?)
    ensures book.rules[i] == a
  {
    hide Covers;
    var k :| 0 <= k < |book.rules| && book.rules[k] == a;
    assert book.rules[i] in book.rules;
    OrderOfRules(book.rules, i, k);
  }

  /** A rule links a payment only to what the walk picks, and the rule the walk picks from does link it. */
  lemma LinkIsThePick(book: RuleBook, a: Automation, t: Transaction)
    requires IsRuleBook(book.rules) && a in book.rules
    ensures Link(book, a, t).Some? ==> Link(book, a, t) == SubscriptionBy(book.rules, book.subscriptions, t)
  {
    hide Covers, IsRuleBook;
    if Link(book, a, t).Some? {
      if SubscriptionBy(book.rules, book.subscriptions, t).None? {
        NoSubscriptionMeansNone(book, book.rules, t);
      } else {
        var i := SubscriptionIsTheOldest(book, book.rules, t);
        FirstTracks(book, a, t, i);
      }
    }
  }

  /** The oldest rule that gives a payment a subscription links it. */
  lemma PickLinks(book: RuleBook, t: Transaction) returns (a: Automation)
    requires IsRuleBook(book.rules) && SubscriptionBy(book.rules, book.subscriptions, t).Some?
    ensures a in book.rules && Link(book, a, t) == SubscriptionBy(book.rules, book.subscriptions, t)
  {
    hide Covers;
    var i := SubscriptionIsTheOldest(book, book.rules, t);
    a := book.rules[i];
    forall other | other in book.rules && Precedes(other, a)
      ensures !(Tracking(book.subscriptions, other.subscription).Some? && Covers(other, t))
    {
      EarlierRulePrecedes(book.rules, i, other);
    }
  }

  /** Whatever the order, a payment ends up linked as the walk links it. */
  lemma LastLinkIsThePick(book: RuleBook, order: seq<Automation>, t: Transaction)
    requires IsRuleBook(book.rules) && CoversAll(order, book.rules)
    ensures LastLink(book, order, t) == SubscriptionBy(book.rules, book.subscriptions, t)
  {
    hide Link, IsRuleBook, SubscriptionBy;
    LastIsOneOf(book, order, t);
    if SubscriptionBy(book.rules, book.subscriptions, t).Some? {
      var a := PickLinks(book, t);
    }
    forall a | a in book.rules {
      LinkIsThePick(book, a, t);
    }
  }

  /** Applying every automation to everything, in any order and any number of times, sorts each
      transaction exactly as the rules do one at a time, if someone chose its category, or no two
      of them offer it different categories once older ones have had their say. */
  lemma BatchIsStreaming(book: RuleBook, order: seq<Automation>, t: Transaction)
    requires IsRuleBook(book.rules) && CoversAll(order, book.rules) && (t.chosen || OffersAgree(book, t))
    ensures AppliedAll(book, order, t) == SortedByRules(book, t)
  {
    hide Offer, Link, IsRuleBook, CategoryBy, SubscriptionBy, RuleBook.CategoryOf;
    RunLeavesLastOffer(book, order, t);
    LastLinkIsThePick(book, order, t);
    LastIsOneOf(book, order, t);
    if ByRules(book, t).category.Some? {
      var a := PickOffers(book, t);
    }
  }

  /** So every automation applied, in any order and any number of times, leaves the whole table as
      the walk over the rules sorts it, where offers agree for each transaction or it was chosen for. */
  lemma RequestsAreStreaming(book: RuleBook, order: seq<Automation>, table: map<Id, Transaction>)
    requires IsRuleBook(book.rules) && CoversAll(order, book.rules)
    requires forall id :: id in table ==> table[id].chosen || OffersAgree(book, table[id])
    ensures AfterRequests(book, order, table) == map id | id in table :: SortedByRules(book, table[id])
  {
    hide AppliedAll, SortedByRules, OffersAgree, IsRuleBook, CoversAll;
    RequestsAreOneByOne(book, order, table);
    forall id | id in table {
      BatchIsStreaming(book, order, table[id]);
    }
  }

  lemma {:induction false} SameWalk(book: RuleBook, rules: seq<Automation>, t: Transaction, u: Transaction)
    requires SameLook(t, u)
    ensures CategoryBy(rules, u) == CategoryBy(rules, t)
    ensures SubscriptionBy(rules, book.subscriptions, u) == SubscriptionBy(rules, book.subscriptions, t)
  {
    if rules != [] {
      SameLooks(rules[0], t, u);
      SameWalk(book, rules[1..], t, u);
    }
  }

  lemma SameByRules(book: RuleBook, t: Transaction, u: Transaction)
    requires SameLook(t, u)
    ensures ByRules(book, u) == ByRules(book, t)
  {
    SameWalk(book, book.rules, t, u);
  }

  /** That is exactly when order doesn't matter: otherwise some order leaves another category. */
  lemma BatchIsStreamingExactly(book: RuleBook, t: Transaction)
    requires IsRuleBook(book.rules)
    ensures t.chosen || OffersAgree(book, t)
      <==> forall order, u :: CoversAll(order, book.rules) && SameLook(t, u) ==>
        AppliedAll(book, order, u) == SortedByRules(book, u)
  {
    hide Offer, Link, IsRuleBook, CategoryBy, SubscriptionBy, RuleBook.CategoryOf, Covers;
    if t.chosen || OffersAgree(book, t) {
      forall order, u | CoversAll(order, book.rules) && SameLook(t, u)
        ensures AppliedAll(book, order, u) == SortedByRules(book, u)
      {
        forall a {
          SameGifts(book, a, t, u);
        }
        SameByRules(book, t, u);
        BatchIsStreaming(book, order, u);
      }
    } else {
      var a :| a in book.rules && Offer(book, a, t).Some? && Offer(book, a, t) != ByRules(book, t).category;
      var order, u := book.rules + [a], t.(category := None);
      SameGifts(book, a, t, u);
      SameByRules(book, t, u);
      RunLeavesLastOffer(book, order, u);
      assert CoversAll(order, book.rules) && SameLook(t, u);
    }
  }

  lemma FirstGives(book: RuleBook, a: Automation, t: Transaction, i: nat)
    requires IsRuleBook(book.rules) && a in book.rules && i < |book.rules|
    requires Covers(a, t) && a.category.Some? && !CategoryTaken(book.rules, a, t)
    requires Covers(book.rules[i], t) && book.rules[i].category.Some?
    requires forall j :: 0 <= j < i ==> !(Covers(book.rules[j], t) && book.rules[j].category.Some?)
    ensures book.rules[i] == a
  {
    hide Covers;
    var k :| 0 <= k < |book.rules| && book.rules[k] == a;
    assert book.rules[i] in book.rules;
    OrderOfRules(book.rules, i, k);
  }

  /** With subscriptions that have no category of their own, offers always agree. */
  lemma NoOwnCategoriesAgree(book: RuleBook, t: Transaction)
    requires IsRuleBook(book.rules)
    requires forall id :: id in book.subscriptions ==> book.subscriptions[id].category.None?
    ensures OffersAgree(book, t)
  {
    hide Covers;
    forall a | a in book.rules && Offer(book, a, t).Some?
      ensures Offer(book, a, t) == ByRules(book, t).category
    {
      if CategoryBy(book.rules, t).None? {
        NoCategoryMeansNone(book.rules, t);
      } else {
        var i := CategoryIsTheOldest(book.rules, t);
        FirstGives(book, a, t, i);
      }
    }
  }

  /** It falls back to its payee's own subscription, because no rule has one for it. */
  predicate FallsBack(book: RuleBook, t: Transaction) {
    book.Own(t).Some? && SubscriptionBy(book.rules, book.subscriptions, t).None?
  }

  lemma SortedWithoutFallback(book: RuleBook, t: Transaction)
    requires !FallsBack(book, t)
    ensures book.Sorted(t, false) == SortedByRules(book, t)
  {
  }

  lemma SameFallback(book: RuleBook, t: Transaction, u: Transaction)
    requires SameLook(t, u)
    ensures FallsBack(book, u) == FallsBack(book, t)
  {
    SameWalk(book, book.rules, t, u);
  }

  /** Applying every automation does what sorting on arrival does, in every order and whatever a
      transaction had before, if and only if it doesn't fall back to its payee's own subscription,
      which only sorting on arrival looks at, and someone chose its category or the offers agree. */
  lemma BatchIsSortingExactly(book: RuleBook, t: Transaction)
    requires IsRuleBook(book.rules)
    ensures (t.chosen || OffersAgree(book, t)) && !FallsBack(book, t)
      <==> forall order, u :: CoversAll(order, book.rules) && SameLook(t, u) ==>
        AppliedAll(book, order, u) == book.Sorted(u, false)
  {
    hide OffersAgree, IsRuleBook, SubscriptionBy, CategoryBy;
    if FallsBack(book, t) {
      var u := t.(subscription := None);
      SameFallback(book, t, u);
      RunLeavesLastOffer(book, book.rules, u);
      LastLinkIsThePick(book, book.rules, u);
      assert CoversAll(book.rules, book.rules) && SameLook(t, u);
      assert AppliedAll(book, book.rules, u) != book.Sorted(u, false);
    } else {
      forall u | SameLook(t, u)
        ensures book.Sorted(u, false) == SortedByRules(book, u)
      {
        SameFallback(book, t, u);
        SortedWithoutFallback(book, u);
      }
      BatchIsStreamingExactly(book, t);
    }
  }

  // ---- What sorting does, from the rules' own fields ----

  /** One automation was made before another; by their identifiers when at the same time. */
  ghost predicate Older(a: Automation, b: Automation) {
    a.createdAt < b.createdAt || (a.createdAt == b.createdAt && a.id.number < b.id.number)
  }

  /** Its subscription is there and active. */
  ghost predicate TracksOne(book: RuleBook, a: Automation) {
    a.subscription.Some? && a.subscription.value in book.subscriptions &&
    book.subscriptions[a.subscription.value].active
  }

  /** It covers a payment with an active subscription, and no older rule that covers it has one. */
  ghost predicate FirstToLink(book: RuleBook, a: Automation, t: Transaction) {
    && t.amount < 0 && Covers(a, t) && TracksOne(book, a)
    && forall other :: other in book.rules && Older(other, a) && Covers(other, t) ==> !TracksOne(book, other)
  }

  /** It covers a transaction, and no older rule that covers it has a category. */
  ghost predicate FirstToGive(book: RuleBook, a: Automation, t: Transaction) {
    && Covers(a, t)
    && forall other :: other in book.rules && Older(other, a) && Covers(other, t) ==> other.category.None?
  }

  /** Applying an automation to everything links just the payments it is the first to link. It gives
      what nobody chose a category for its own, or to payments its subscription's if it has none,
      where no older one gives a category. */
  lemma AppliedIsExactly(book: RuleBook, a: Automation, t: Transaction)
    ensures Applied(book, a, t).subscription == if FirstToLink(book, a, t) then a.subscription else t.subscription
    ensures Applied(book, a, t).category ==
      if t.chosen || !FirstToGive(book, a, t) then t.category
      else if a.category.Some? then a.category
      else if t.amount < 0 && TracksOne(book, a)
      then Or(book.subscriptions[a.subscription.value].category, t.category)
      else t.category
    ensures Applied(book, a, t) ==
      t.(category := Applied(book, a, t).category, subscription := Applied(book, a, t).subscription)
  {
    hide Covers;
  }

  lemma LinkIsFirst(book: RuleBook, a: Automation, t: Transaction)
    ensures Link(book, a, t) == if FirstToLink(book, a, t) then a.subscription else None
  {
    hide Covers;
  }

  lemma FirstTracksOne(book: RuleBook, a: Automation, t: Transaction)
    requires FirstToLink(book, a, t)
    ensures TracksOne(book, a)
  {
  }

  /** The walk over the rules links a payment to the subscription of the first rule to link it, and to
      none only when there is no such rule. */
  lemma WalkLinksFirst(book: RuleBook, t: Transaction)
    requires IsRuleBook(book.rules)
    ensures var linked := SubscriptionBy(book.rules, book.subscriptions, t);
      && (forall a :: a in book.rules && FirstToLink(book, a, t) ==> linked == a.subscription)
      && ((forall a :: a in book.rules ==> !FirstToLink(book, a, t)) ==> linked.None?)
  {
    hide Covers, SubscriptionBy, IsRuleBook, FirstToLink, Link;
    forall a | a in book.rules && FirstToLink(book, a, t)
      ensures SubscriptionBy(book.rules, book.subscriptions, t) == a.subscription
    {
      LinkIsFirst(book, a, t);
      assert a.subscription.Some? by { FirstTracksOne(book, a, t); }
      LinkIsThePick(book, a, t);
    }
    if SubscriptionBy(book.rules, book.subscriptions, t).Some? {
      var a := PickLinks(book, t);
      LinkIsFirst(book, a, t);
    }
  }

  /** It gives it the category of the first rule to give one. */
  lemma WalkGivesFirst(book: RuleBook, t: Transaction)
    requires IsRuleBook(book.rules)
    ensures var given := CategoryBy(book.rules, t);
      && (forall a :: a in book.rules && FirstToGive(book, a, t) && a.category.Some? ==> given == a.category)
      && ((forall a :: a in book.rules && FirstToGive(book, a, t) ==> a.category.None?) ==> given.None?)
  {
    hide Covers, CategoryBy;
    if CategoryBy(book.rules, t).None? {
      NoCategoryMeansNone(book.rules, t);
    } else {
      var i := CategoryIsTheOldest(book.rules, t);
      forall other | other in book.rules && Older(other, book.rules[i]) && Covers(other, t)
        ensures other.category.None?
      {
        EarlierRulePrecedes(book.rules, i, other);
      }
      assert FirstToGive(book, book.rules[i], t);
      forall a | a in book.rules && FirstToGive(book, a, t) && a.category.Some?
        ensures a == book.rules[i]
      {
        FirstGives(book, a, t, i);
      }
    }
  }

  /** Sorting a payment as it arrives links it to the subscription of the first rule to link it, or else
      to its payee's own, or leaves it as it was. */
  lemma SortedLinksExactly(book: RuleBook, t: Transaction, keepCategory: bool)
    requires IsRuleBook(book.rules)
    ensures var sorted, own := book.Sorted(t, keepCategory), (t.account, t.ownPayee);
      && (forall a :: a in book.rules && FirstToLink(book, a, t) ==> sorted.subscription == a.subscription)
      && ((forall a :: a in book.rules ==> !FirstToLink(book, a, t)) ==>
        sorted.subscription == if t.amount < 0 && own in book.own then Some(book.own[own]) else t.subscription)
      && sorted == t.(category := sorted.category, subscription := sorted.subscription)
      && (keepCategory || t.chosen ==> sorted.category == t.category)
  {
    hide Covers, SubscriptionBy, CategoryBy, IsRuleBook, FirstToLink;
    WalkLinksFirst(book, t);
    forall a | a in book.rules && FirstToLink(book, a, t)
      ensures a.subscription.Some?
    {
      FirstTracksOne(book, a, t);
    }
  }

  /** Sorting gives what nobody chose a category for that of the first rule to give one, or else that of
      the subscription found for it, or leaves it as it was. */
  lemma SortedGivesExactly(book: RuleBook, t: Transaction)
    requires IsRuleBook(book.rules) && !t.chosen
    ensures var sorted := book.Sorted(t, false);
      && (forall a :: a in book.rules && FirstToGive(book, a, t) && a.category.Some? ==> sorted.category == a.category)
      && ((forall a :: a in book.rules && FirstToGive(book, a, t) ==> a.category.None?) ==>
        var own := if t.amount < 0 && (t.account, t.ownPayee) in book.own
          then Some(book.own[(t.account, t.ownPayee)]) else None;
        && (forall a :: a in book.rules && FirstToLink(book, a, t) ==>
          a.subscription.Some? && a.subscription.value in book.subscriptions
          && sorted.category == Or(book.subscriptions[a.subscription.value].category, t.category))
        && ((forall a :: a in book.rules ==> !FirstToLink(book, a, t)) ==>
          sorted.category ==
          if own.Some? && own.value in book.subscriptions
          then Or(book.subscriptions[own.value].category, t.category)
          else t.category))
  {
    hide Covers, SubscriptionBy, CategoryBy, IsRuleBook, FirstToGive, FirstToLink;
    WalkLinksFirst(book, t);
    WalkGivesFirst(book, t);
    forall a | a in book.rules && FirstToLink(book, a, t)
      ensures TracksOne(book, a)
    {
      FirstTracksOne(book, a, t);
    }
  }

  /** Subscriptions that aren't active might as well not be there. */
  function ActiveOnly(subscriptions: map<Id, Subscription>): map<Id, Subscription> {
    map id | id in subscriptions && subscriptions[id].active :: subscriptions[id]
  }

  lemma {:induction false} WalkSkipsInactive(rules: seq<Automation>, subscriptions: map<Id, Subscription>,
        t: Transaction)
    ensures SubscriptionBy(rules, ActiveOnly(subscriptions), t) == SubscriptionBy(rules, subscriptions, t)
    ensures SubscriptionBy(rules, subscriptions, t).Some? ==>
      SubscriptionBy(rules, subscriptions, t).value in ActiveOnly(subscriptions)
  {
    if rules != [] {
      WalkSkipsInactive(rules[1..], subscriptions, t);
    }
  }

  /** What is sorted, either way, is the same without the subscriptions that aren't active, as long as
      those tracked by payee are. */
  lemma InactiveOnesDontMatter(book: RuleBook, a: Automation, t: Transaction, keepCategory: bool)
    requires forall key :: key in book.own ==> book.own[key] in ActiveOnly(book.subscriptions)
    ensures var active := book.(subscriptions := ActiveOnly(book.subscriptions));
      && active.Sorted(t, keepCategory) == book.Sorted(t, keepCategory)
      && Applied(active, a, t) == Applied(book, a, t)
  {
    hide Covers, SubscriptionBy, CategoryBy;
    WalkSkipsInactive(book.rules, book.subscriptions, t);
    var active := book.(subscriptions := ActiveOnly(book.subscriptions));
    AppliedIsExactly(book, a, t);
    AppliedIsExactly(active, a, t);
    assert FirstToLink(active, a, t) <==> FirstToLink(book, a, t);
    assert FirstToGive(active, a, t) <==> FirstToGive(book, a, t);
    hide Applied;
  }
}
