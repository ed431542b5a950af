/** What counts toward a budget, and as what (`finance/budget.py`). A budget links transactions
    themselves, automations, subscriptions, categories and accounts; a transaction several links
    hit counts once, and one someone took off doesn't count at all. */
module BudgetLinks {
  import opened Wrappers

  datatype Kind = Spending | Income

  datatype Target =
    | OneTransaction(id: Id)
    | AnAutomation(id: Id)
    | ASubscription(id: Id)
    | ACategory(id: Id)
    | AnAccount(id: Id)

  datatype Link = Link(id: Id, kind: Kind, to: Target)

  datatype Transaction = Transaction(account: Id, amount: int, category: Option<Id>, subscription: Option<Id>,
    createdAt: int)

  /** `matching` is the transactions it looks for, by whichever of its conditions. */
  datatype Automation = Automation(active: bool, futureOnly: bool, createdAt: int, matching: set<Id>)

  datatype Household = Household(transactions: map<Id, Transaction>, automations: map<Id, Automation>,
    transfers: set<Id>)

  /** A budget's links, and the transactions taken off it. */
  datatype State = State(links: seq<Link>, excluded: set<Id>)

  /** The order a transaction's links are tried in. */
  function Priority(to: Target): nat {
    match to
    case OneTransaction(_) => 1
    case AnAutomation(_) => 2
    case ASubscription(_) => 3
    case ACategory(_) => 4
    case AnAccount(_) => 5
  }

  predicate Hits(link: Link, id: Id, all: Household)
    requires id in all.transactions
  {
    var t := all.transactions[id];
    match link.to
    case OneTransaction(own) => own == id
    case AnAutomation(a) =>
      a in all.automations && var it := all.automations[a];
      it.active && id in it.matching && (it.futureOnly ==> it.createdAt <= t.createdAt)
    case ASubscription(s) => t.subscription == Some(s) && t.amount < 0
    case ACategory(c) => t.category == Some(c)
    case AnAccount(a) =>
      && t.account == a
      && (if link.kind == Spending then t.amount < 0 else t.amount > 0)
      && (t.category.Some? ==> t.category.value !in all.transfers)
  }

  predicate Before(a: Link, b: Link) {
    Priority(a.to) < Priority(b.to) || (Priority(a.to) == Priority(b.to) && a.id.number < b.id.number)
  }

  /** Of the links that hit a transaction, the one it would count by. */
  function Best(links: seq<Link>, id: Id, all: Household): Option<Link>
    requires id in all.transactions
  {
    if links == [] then None
    else
      var last := links[|links| - 1];
      var best := Best(links[..|links| - 1], id, all);
      if Hits(last, id, all) && (best.None? || Before(last, best.value)) then Some(last) else best
  }

  function Counted(s: State, id: Id, all: Household): Option<Link>
    requires id in all.transactions
  {
    if id in s.excluded then None else Best(s.links, id, all)
  }

  predicate CountsAs(s: State, id: Id, kind: Kind, all: Household)
    requires id in all.transactions
  {
    Counted(s, id, all).Some? && Counted(s, id, all).value.kind == kind
  }

  /** Links have IDs of their own, and a transaction is linked by itself once at most. */
  ghost predicate Valid(links: seq<Link>) {
    && (forall i, j :: 0 <= i < j < |links| ==> links[i].id != links[j].id)
    && (forall i, j :: 0 <= i < j < |links| && links[i].to.OneTransaction? ==> links[i].to != links[j].to)
  }

  predicate HasOwn(links: seq<Link>, id: Id) {
    exists i :: 0 <= i < |links| && links[i].to == OneTransaction(id)
  }

  // ---- A transaction counts once ----

  lemma LastOf(links: seq<Link>)
    requires links != [] && Valid(links)
    ensures var n := |links| - 1;
      && Valid(links[..n])
      && (forall m :: m in links <==> m in links[..n] || m == links[n])
      && (forall m :: m in links[..n] ==> m.id != links[n].id)
  {
    assert links == links[..|links| - 1] + [links[|links| - 1]];
  }

  /** It counts by a link exactly when that one hits it and comes before every other that does. */
  lemma {:induction false} CountsByTheFirst(links: seq<Link>, id: Id, all: Household, l: Link)
    requires Valid(links) && id in all.transactions
    ensures Best(links, id, all) == Some(l) <==>
      l in links && Hits(l, id, all) && forall m :: m in links && m != l && Hits(m, id, all) ==> Before(l, m)
    ensures Best(links, id, all).None? <==> forall m :: m in links ==> !Hits(m, id, all)
  {
    hide Hits, Priority;
    if links != [] {
      var n := |links| - 1;
      var last, best := links[n], Best(links[..n], id, all);
      LastOf(links);
      hide Valid;
      CountsByTheFirst(links[..n], id, all, l);
      if best.Some? {
        CountsByTheFirst(links[..n], id, all, best.value);
      }
    }
  }

  /** What it counts by when several things link it: itself, then an automation, a subscription, a
      category, an account, and of several of a sort the first made. */
  lemma CountsInOrder(links: seq<Link>, id: Id, all: Household)
    requires Valid(links) && id in all.transactions && Best(links, id, all).Some?
    ensures var link := Best(links, id, all).value;
      && link in links && (link.to.OneTransaction? ==> link.to.id == id)
      && forall m :: m in links && m != link && Hits(m, id, all) ==>
        match link.to
        case OneTransaction(_) => !m.to.OneTransaction?
        case AnAutomation(_) => if m.to.AnAutomation? then link.id.number < m.id.number else !m.to.OneTransaction?
        case ASubscription(_) =>
          if m.to.ASubscription? then link.id.number < m.id.number else m.to.ACategory? || m.to.AnAccount?
        case ACategory(_) => if m.to.ACategory? then link.id.number < m.id.number else m.to.AnAccount?
        case AnAccount(_) => m.to.AnAccount? && link.id.number < m.id.number
  {
    var link := Best(links, id, all).value;
    CountsByTheFirst(links, id, all, link);
    if link.to.OneTransaction? {
      forall m | m in links && m != link && Hits(m, id, all)
        ensures !m.to.OneTransaction?
      {
        var i, j :| 0 <= i < |links| && links[i] == link && 0 <= j < |links| && links[j] == m;
      }
    }
    hide Valid, Best;
    forall m | m in links && m != link && Hits(m, id, all)
      ensures Before(link, m)
    {
    }
  }

  /** What each sort of link counts: by an automation, what it finds while it is active, and of what
      came before it was made nothing if it is for the future only; by a subscription, only money out; by
      an account, money out as spending and money in as income, but no transfers. A link there is counts
      a transaction of those unless another comes first, so it counts then. */
  lemma CountsWhatIsLinked(links: seq<Link>, id: Id, all: Household, link: Link)
    requires Valid(links) && id in all.transactions
    requires link in links && (Best(links, id, all).None? || Best(links, id, all) == Some(link))
    ensures var t := all.transactions[id];
      var to := link.to.id;
      Best(links, id, all) == Some(link) <==>
        || (link.to.OneTransaction? && to == id)
        || (link.to.AnAutomation? && to in all.automations && all.automations[to].active
            && id in all.automations[to].matching
            && !(all.automations[to].futureOnly && t.createdAt < all.automations[to].createdAt))
        || (link.to.ASubscription? && t.subscription == Some(to) && t.amount < 0)
        || (link.to.ACategory? && t.category == Some(to))
        || (link.to.AnAccount? && t.account == to && (t.category.None? || t.category.value !in all.transfers)
            && t.amount != 0 && (link.kind == Spending <==> t.amount < 0))
  {
    CountsByTheFirst(links, id, all, link);
    hide Valid, Best, Priority;
  }

  // ---- The order links are documented to be tried in ----

  /** The order the links' own description has. */
  function Listed(to: Target): nat {
    match to
    case OneTransaction(_) => 1
    case AnAccount(_) => 2
    case ACategory(_) => 3
    case ASubscription(_) => 4
    case AnAutomation(_) => 5
  }

  ghost predicate SameSort(a: Target, b: Target) {
    match a
    case OneTransaction(_) => b.OneTransaction?
    case AnAutomation(_) => b.AnAutomation?
    case ASubscription(_) => b.ASubscription?
    case ACategory(_) => b.ACategory?
    case AnAccount(_) => b.AnAccount?
  }

  /** A transaction counts by what is documented to come first if and only if it has a link of its
      own, or all that link it are of one sort: of any others, the query takes the reverse. */
  lemma CountsAsDocumentedExactly(links: seq<Link>, id: Id, all: Household)
    requires Valid(links) && id in all.transactions && Best(links, id, all).Some?
    ensures var link := Best(links, id, all).value;
      (forall m :: m in links && Hits(m, id, all) ==> Listed(link.to) <= Listed(m.to))
      <==>
        || (exists l :: l in links && l.to == OneTransaction(id))
        || (forall a, b :: a in links && b in links && Hits(a, id, all) && Hits(b, id, all) ==>
              SameSort(a.to, b.to))
  {
    var link := Best(links, id, all).value;
    CountsByTheFirst(links, id, all, link);
    hide Valid, Best;
    if l :| l in links && l.to == OneTransaction(id) {
      assert Hits(l, id, all) && (l == link || Before(link, l));
    }
    forall m | m in links && Hits(m, id, all)
      ensures Priority(link.to) <= Priority(m.to)
    {
      if m != link { assert Before(link, m); }
    }
    forall m | m in links && Hits(m, id, all) && m.to.OneTransaction?
      ensures m.to == OneTransaction(id)
    {
    }
  }

  /** Money out that an account's link counts as spending and its category's as income: by the
      description it is spending, and it counts as income. */
  lemma DocumentedOrderDiffers()
    ensures var id, account, category := Id(1), Id(2), Id(3);
      var all := Household(map[id := Transaction(account, -500, Some(category), None, 0)], map[], {});
      var byAccount, byCategory := Link(Id(4), Spending, AnAccount(account)), Link(Id(5), Income, ACategory(category));
      && Hits(byAccount, id, all) && Hits(byCategory, id, all) && Listed(byAccount.to) < Listed(byCategory.to)
      && CountsAs(State([byAccount, byCategory], {}), id, Income, all)
  {
    var links := [Link(Id(4), Spending, AnAccount(Id(2))), Link(Id(5), Income, ACategory(Id(3)))];
    var all := Household(map[Id(1) := Transaction(Id(2), -500, Some(Id(3)), None, 0)], map[], {});
    assert links[1] in links;
    CountsByTheFirst(links, Id(1), all, links[1]);
  }

  lemma {:induction false} OwnLinkCounts(links: seq<Link>, id: Id, all: Household, l: Link)
    requires Valid(links) && id in all.transactions && l in links && l.to == OneTransaction(id)
    ensures Best(links, id, all) == Some(l)
  {
    CountsByTheFirst(links, id, all, l);
    forall m | m in links && m != l && Hits(m, id, all)
      ensures Before(l, m)
    {
      var i, j :| 0 <= i < |links| && links[i] == l && 0 <= j < |links| && links[j] == m;
    }
  }

  // ---- Linking transactions ----

  function WithKind(links: seq<Link>, id: Id, kind: Kind): (r: seq<Link>)
    ensures |r| == |links|
  {
    seq(|links|, i requires 0 <= i < |links| =>
      if links[i].to == OneTransaction(id) then links[i].(kind := kind) else links[i])
  }

  /** The links once each of `order` is made to count, starting with those of `s`. */
  function Linked(s: State, order: seq<Id>, kind: Kind, newId: Id -> Id, all: Household): seq<Link>
    requires forall id :: id in order ==> id in all.transactions
  {
    if order == [] then s.links
    else
      var id := order[|order| - 1];
      var links := Linked(s, order[..|order| - 1], kind, newId, all);
      if HasOwn(s.links, id) then WithKind(links, id, kind)
      else if CountsAs(s, id, kind, all) then links
      else links + [Link(newId(id), kind, OneTransaction(id))]
  }

  function AfterLink(s: State, order: seq<Id>, kind: Kind, newId: Id -> Id, all: Household): State
    requires forall id :: id in order ==> id in all.transactions
  {
    var back := State(s.links, s.excluded - set id | id in order);
    State(Linked(back, order, kind, newId, all), back.excluded)
  }

  predicate Distinct(order: seq<Id>) {
    forall i, j :: 0 <= i < j < |order| ==> order[i] != order[j]
  }

  /** IDs for links that no link has yet. */
  ghost predicate NewIds(links: seq<Link>, order: seq<Id>, newId: Id -> Id) {
    && (forall id, i :: id in order && 0 <= i < |links| ==> newId(id) != links[i].id)
    && (forall a, b :: a in order && b in order && a != b ==> newId(a) != newId(b))
  }

  lemma {:induction false} OthersCountTheSame(links: seq<Link>, changed: seq<Link>, id: Id, all: Household)
    requires id in all.transactions && |links| == |changed|
    requires forall i :: 0 <= i < |links| ==>
        changed[i] == links[i] || (!Hits(links[i], id, all) && !Hits(changed[i], id, all))
    ensures Best(changed, id, all) == Best(links, id, all)
  {
    hide Hits;
    if links != [] {
      OthersCountTheSame(links[..|links| - 1], changed[..|links| - 1], id, all);
    }
  }

  lemma OneMoreLink(links: seq<Link>, link: Link, id: Id, all: Household)
    requires id in all.transactions && !Hits(link, id, all)
    ensures Best(links + [link], id, all) == Best(links, id, all)
  {
    assert (links + [link])[..|links|] == links;
  }

  /** The links kept up by linking: which there are, and that they stay valid. */
  lemma {:induction false} LinkedLinks(s: State, order: seq<Id>, kind: Kind, newId: Id -> Id, all: Household)
    requires Valid(s.links) && Distinct(order) && NewIds(s.links, order, newId)
    requires forall id :: id in order ==> id in all.transactions
    ensures var links := Linked(s, order, kind, newId, all);
      && Valid(links)
      && |s.links| <= |links|
      && (forall i :: 0 <= i < |s.links| ==> links[i].id == s.links[i].id && links[i].to == s.links[i].to)
      && (forall i :: |s.links| <= i < |links| ==>
            && links[i].to.OneTransaction? && links[i].to.id in order
            && links[i].id == newId(links[i].to.id) && !HasOwn(s.links, links[i].to.id))
  {
    hide CountsAs, Best, Hits;
    if order != [] {
      var n := |order| - 1;
      LinkedLinks(s, order[..n], kind, newId, all);
      var id, links := order[n], Linked(s, order[..n], kind, newId, all);
      assert id !in order[..n];
    }
  }

  lemma OtherCounts(s: State, links: seq<Link>, after: seq<Link>, kind: Kind, newId: Id, all: Household, id: Id,
        last: Id)
    requires id in all.transactions && last in all.transactions && id != last
    requires after == if HasOwn(s.links, last) then WithKind(links, last, kind)
      else if CountsAs(s, last, kind, all) then links else links + [Link(newId, kind, OneTransaction(last))]
    ensures Best(after, id, all) == Best(links, id, all)
  {
    hide Best, CountsAs, HasOwn;
    if HasOwn(s.links, last) {
      OthersCountTheSame(links, after, id, all);
    } else if !CountsAs(s, last, kind, all) {
      OneMoreLink(links, Link(newId, kind, OneTransaction(last)), id, all);
    }
  }

  lemma NewIdsOfFewer(links: seq<Link>, order: seq<Id>, newId: Id -> Id)
    requires order != [] && NewIds(links, order, newId)
    ensures NewIds(links, order[..|order| - 1], newId)
  {
  }

  lemma LastCounts(s: State, links: seq<Link>, after: seq<Link>, kind: Kind, newId: Id, all: Household, id: Id)
    requires id in all.transactions && id !in s.excluded && Valid(after)
    requires Best(links, id, all) == Best(s.links, id, all) && |s.links| <= |links|
    requires forall i :: 0 <= i < |s.links| ==> links[i].to == s.links[i].to
    requires after == if HasOwn(s.links, id) then WithKind(links, id, kind)
      else if CountsAs(s, id, kind, all) then links else links + [Link(newId, kind, OneTransaction(id))]
    ensures Best(after, id, all).Some? && Best(after, id, all).value.kind == kind
  {
    hide Valid, Hits;
    if HasOwn(s.links, id) {
      var i :| 0 <= i < |s.links| && s.links[i].to == OneTransaction(id);
      assert after[i].to == OneTransaction(id) && after[i].kind == kind;
      OwnLinkCounts(after, id, all, after[i]);
    } else if !CountsAs(s, id, kind, all) {
      OwnLinkCounts(after, id, all, after[|links|]);
    }
  }

  /** Every transaction linked then counts as it should, and every other as it did. */
  lemma {:induction false} LinkedCounts(s: State, order: seq<Id>, kind: Kind, newId: Id -> Id, all: Household, id: Id)
    requires Valid(s.links) && Distinct(order) && NewIds(s.links, order, newId) && id in all.transactions
    requires forall id :: id in order ==> id in all.transactions && id !in s.excluded
    ensures var best := Best(Linked(s, order, kind, newId, all), id, all);
      if id in order then best.Some? && best.value.kind == kind else best == Best(s.links, id, all)
  {
    hide Valid, NewIds, CountsAs, HasOwn, Hits, Best, WithKind;
    if order != [] {
      var n := |order| - 1;
      NewIdsOfFewer(s.links, order, newId);
      LinkedCounts(s, order[..n], kind, newId, all, id);
      LinkedLinks(s, order[..n], kind, newId, all);
      LinkedLinks(s, order, kind, newId, all);
      var last, links, after := order[n], Linked(s, order[..n], kind, newId, all), Linked(s, order, kind, newId, all);
      assert last !in order[..n];
      if id != last {
        OtherCounts(s, links, after, kind, newId(last), all, id, last);
      } else {
        LastCounts(s, links, after, kind, newId(id), all, id);
      }
    }
  }

  /** Linking makes each transaction count as asked, whatever else links it and even if it had
      been taken off, changes nothing for any other, and only adds links that are needed. */
  lemma {:induction false} LinkingCounts(s: State, order: seq<Id>, kind: Kind, newId: Id -> Id, all: Household)
    requires Valid(s.links) && Distinct(order) && NewIds(s.links, order, newId)
    requires forall id :: id in order ==> id in all.transactions
    ensures var after := AfterLink(s, order, kind, newId, all);
      && Valid(after.links)
      && (forall id :: id in order ==> CountsAs(after, id, kind, all))
      && (forall id :: id in all.transactions && id !in order ==> Counted(after, id, all) == Counted(s, id, all))
  {
    hide Valid, NewIds, HasOwn, Hits;
    var back := State(s.links, s.excluded - set id | id in order);
    LinkedLinks(back, order, kind, newId, all);
    forall id | id in all.transactions
      ensures var best := Best(Linked(back, order, kind, newId, all), id, all);
        if id in order then best.Some? && best.value.kind == kind else best == Best(s.links, id, all)
    {
      LinkedCounts(back, order, kind, newId, all, id);
    }
  }

  // ---- Taking one off ----

  function Without(links: seq<Link>, id: Id): seq<Link> {
    if links == [] then []
    else
      var last := links[|links| - 1];
      Without(links[..|links| - 1], id) + if last.to == OneTransaction(id) then [] else [last]
  }

  function AfterUnlink(s: State, id: Id, all: Household): State
    requires id in all.transactions
  {
    var gone := State(Without(s.links, id), s.excluded);
    if Counted(gone, id, all).Some? then gone.(excluded := gone.excluded + {id}) else gone
  }

  lemma {:induction false} WithoutIsTheRest(links: seq<Link>, id: Id)
    ensures forall l :: l in Without(links, id) <==> l in links && l.to != OneTransaction(id)
    ensures !HasOwn(links, id) ==> Without(links, id) == links
  {
    if links != [] {
      var n := |links| - 1;
      WithoutIsTheRest(links[..n], id);
      assert links == links[..n] + [links[n]];
    }
  }

  lemma OneMoreIsValid(links: seq<Link>, link: Link)
    requires Valid(links)
    requires forall l :: l in links ==> l.id != link.id && (l.to.OneTransaction? ==> l.to != link.to)
    ensures Valid(links + [link])
  {
  }

  lemma {:induction false} WithoutIsValid(links: seq<Link>, id: Id)
    requires Valid(links)
    ensures Valid(Without(links, id))
  {
    if links != [] {
      var n := |links| - 1;
      WithoutIsValid(links[..n], id);
      WithoutIsTheRest(links[..n], id);
      if links[n].to != OneTransaction(id) {
        OneMoreIsValid(Without(links[..n], id), links[n]);
      }
    }
  }

  lemma {:induction false} WithoutCounts(links: seq<Link>, id: Id, other: Id, all: Household)
    requires other in all.transactions && other != id
    ensures Best(Without(links, id), other, all) == Best(links, other, all)
  {
    if links != [] {
      var n := |links| - 1;
      WithoutCounts(links[..n], id, other, all);
      var rest := Without(links[..n], id);
      if links[n].to == OneTransaction(id) {
        assert rest + [] == rest;
      } else {
        assert (rest + [links[n]])[..|rest|] == rest;
      }
    }
  }

  lemma {:induction false} NoneHits(links: seq<Link>, id: Id, all: Household)
    requires id in all.transactions && Best(links, id, all).None?
    ensures forall l :: l in links ==> !Hits(l, id, all)
  {
    hide Hits;
    if links != [] {
      NoneHits(links[..|links| - 1], id, all);
      assert links == links[..|links| - 1] + [links[|links| - 1]];
    }
  }

  /** A transaction taken off doesn't count, and every other counts as it did. It is remembered
      as taken off only if it was already or something else would still count it. */
  lemma {:induction false} UnlinkingTakesOff(s: State, id: Id, all: Household)
    requires Valid(s.links) && id in all.transactions
    ensures var after := AfterUnlink(s, id, all);
      && Valid(after.links) && Counted(after, id, all).None? && !HasOwn(after.links, id)
      && (forall other :: other in all.transactions && other != id ==>
        Counted(after, other, all) == Counted(s, other, all))
      && (id in after.excluded <==>
            id in s.excluded || exists l :: l in s.links && l.to != OneTransaction(id) && Hits(l, id, all))
  {
    hide Hits;
    var gone := Without(s.links, id);
    WithoutIsTheRest(s.links, id);
    WithoutIsValid(s.links, id);
    forall other | other in all.transactions && other != id
      ensures Best(gone, other, all) == Best(s.links, other, all)
    {
      WithoutCounts(s.links, id, other, all);
    }
    hide Valid, Without;
    if Best(gone, id, all).Some? {
      CountsByTheFirst(gone, id, all, Best(gone, id, all).value);
    } else {
      NoneHits(gone, id, all);
    }
  }

  // ---- One undoing the other ----

  lemma LinkedOne(s: State, id: Id, kind: Kind, newId: Id -> Id, all: Household)
    requires id in all.transactions
    ensures Linked(s, [id], kind, newId, all) ==
      if HasOwn(s.links, id) then WithKind(s.links, id, kind)
      else if CountsAs(s, id, kind, all) then s.links
      else s.links + [Link(newId(id), kind, OneTransaction(id))]
  {
    assert [id][..0] == [];
    assert Linked(s, [], kind, newId, all) == s.links;
  }

  lemma OwnIsGone(links: seq<Link>, after: seq<Link>, id: Id)
    requires HasOwn(links, id) && forall l :: l in after ==> l.to != OneTransaction(id)
    ensures after != links
  {
    var i :| 0 <= i < |links| && links[i].to == OneTransaction(id);
    assert links[i] in links;
  }

  lemma OwnChanged(links: seq<Link>, id: Id, added: Link)
    requires HasOwn(links, id) && forall i :: 0 <= i < |links| ==> links[i].id != added.id
    ensures Without(links, id) != links && Without(links, id) + [added] != links
  {
    WithoutIsTheRest(links, id);
    OwnIsGone(links, Without(links, id), id);
    assert added in Without(links, id) + [added] && added !in links;
  }

  lemma NoOwnLeft(links: seq<Link>, id: Id)
    ensures !HasOwn(Without(links, id), id)
  {
    WithoutIsTheRest(links, id);
    forall i | 0 <= i < |Without(links, id)|
      ensures Without(links, id)[i].to != OneTransaction(id)
    {
      assert Without(links, id)[i] in Without(links, id);
    }
  }

  /** Taking a transaction off and linking it back as a kind leaves the budget as it was if and only
      if it had no link of its own and counted as that kind. */
  lemma LinkingBackUndoes(s: State, id: Id, kind: Kind, newId: Id -> Id, all: Household)
    requires id in all.transactions && NewIds(s.links, [id], newId)
    ensures AfterLink(AfterUnlink(s, id, all), [id], kind, newId, all) == s
      <==> !HasOwn(s.links, id) && CountsAs(s, id, kind, all)
  {
    hide Hits, HasOwn, Best, Without, WithKind, Linked;
    WithoutIsTheRest(s.links, id);
    var off := AfterUnlink(s, id, all);
    var back := State(off.links, off.excluded - set x | x in [id]);
    assert id in [id] && back.excluded == s.excluded - {id};
    LinkedOne(back, id, kind, newId, all);
    NoOwnLeft(s.links, id);
    if HasOwn(s.links, id) {
      OwnChanged(s.links, id, Link(newId(id), kind, OneTransaction(id)));
    } else if id in s.excluded {
      assert id !in AfterLink(off, [id], kind, newId, all).excluded;
    } else {
      assert s.excluded - {id} == s.excluded;
    }
  }

  lemma WithoutTheLast(links: seq<Link>, own: Link, id: Id)
    requires own.to == OneTransaction(id)
    ensures Without(links + [own], id) == Without(links, id)
  {
    assert (links + [own])[..|links|] == links;
  }

  /** Linking a transaction and taking it off again leaves the budget as it was exactly when the
      transaction had no link of its own, and was taken off just if something else would count it. */
  lemma TakingOffUndoes(s: State, id: Id, kind: Kind, newId: Id -> Id, all: Household)
    requires id in all.transactions
    ensures AfterUnlink(AfterLink(s, [id], kind, newId, all), id, all) == s
      <==> !HasOwn(s.links, id) && (id in s.excluded <==> Best(s.links, id, all).Some?)
  {
    hide Hits, Best, HasOwn, Without, WithKind, Linked;
    var linked := AfterLink(s, [id], kind, newId, all);
    var after := AfterUnlink(linked, id, all);
    LinkedOne(State(s.links, s.excluded - set x | x in [id]), id, kind, newId, all);
    WithoutIsTheRest(linked.links, id);
    if HasOwn(s.links, id) {
      OwnIsGone(s.links, after.links, id);
    } else {
      WithoutIsTheRest(s.links, id);
      WithoutTheLast(s.links, Link(newId(id), kind, OneTransaction(id)), id);
      assert after.links == s.links;
      assert after.excluded == if Best(s.links, id, all).Some? then s.excluded + {id} else s.excluded - {id};
    }
  }

  // ---- The same, as the source does it ----

  datatype Outcome = Done(count: nat) | UnknownTransaction

  class Budget {
    var links: seq<Link>
    var excluded: set<Id>

    ghost function Now(): State
      reads this
    {
      State(links, excluded)
    }

    /** `order` is the transactions asked for, once each, in whatever order they come out of a set. */
    method LinkTransactions(order: seq<Id>, kind: Kind, newId: Id -> Id, all: Household) returns (outcome: Outcome)
      requires Distinct(order)
      modifies this
      ensures outcome.UnknownTransaction? <==> exists id :: id in order && id !in all.transactions
      ensures outcome.UnknownTransaction? ==> Now() == old(Now())
      ensures outcome.Done? ==> outcome.count == |order| && Now() == AfterLink(old(Now()), order, kind, newId, all)
    {
      if exists id :: id in order && id !in all.transactions {
        return UnknownTransaction;
      }
      excluded := excluded - set id | id in order;
      ghost var before := Now();
      var counting := set id | id in order && CountsAs(State(links, excluded), id, kind, all);
      var linked := set id | id in order && HasOwn(links, id);
      for i := 0 to |order|
        invariant links == Linked(before, order[..i], kind, newId, all)
        invariant excluded == before.excluded
      {
        var id := order[i];
        assert order[..i + 1][..i] == order[..i];
        if id in linked {
          links := WithKind(links, id, kind);
        } else if id !in counting {
          links := links + [Link(newId(id), kind, OneTransaction(id))];
        }
      }
      assert order[..|order|] == order;
      outcome := Done(|order|);
    }

    method UnlinkTransaction(id: Id, all: Household) returns (outcome: Outcome)
      modifies this
      ensures outcome.UnknownTransaction? <==> id !in all.transactions
      ensures outcome.UnknownTransaction? ==> Now() == old(Now())
      ensures outcome.Done? ==> Now() == AfterUnlink(old(Now()), id, all)
    {
      if id !in all.transactions {
        return UnknownTransaction;
      }
      links := Without(links, id);
      if Counted(State(links, excluded), id, all).Some? {
        excluded := excluded + {id};
      }
      outcome := Done(1);
    }
  }
}
