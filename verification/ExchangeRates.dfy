/** Exchange rates kept in step with a rate server (`finance/exchange_rates.py`), and the converter
    that asks for the days it needs (`finance/dashboard.py`). Days are counted, amounts are cents
    and rates are millionths of millionths; every rate is into the household's own currency. */
module ExchangeRates {
  import opened Sums
  import opened Wrappers

  const CHUNK_DAYS := 366
  const RATE_UNIT := 1_000_000_000_000

  datatype Span = Span(first: int, last: int) {
    predicate Has(day: int) {
      first <= day <= last
    }
  }

  function Min(a: int, b: int): int {
    if a < b then a else b
  }

  function Max(a: int, b: int): int {
    if a < b then b else a
  }

  /** The rate of each day of a currency, for the days there is one. */
  type Server = (string, int) -> Option<nat>

  type Rates = map<int, nat>

  /** These are exactly the server's rates from `first` to `last`. */
  ghost predicate AreRates(rates: Rates, server: Server, base: string, span: Span) {
    forall day: int :: (day in rates <==> span.Has(day) && server(base, day).Some?)
      && (day in rates ==> server(base, day) == Some(rates[day]))
  }

  // ---- The server, and what it is asked ----

  datatype Ask = Ask(base: string, span: Span)

  datatype Outcome = Answers | Fails(unreachable: bool)

  /** Requests one after another that cover a span exactly, none longer than a chunk. */
  ghost predicate Tile(asks: seq<Ask>, base: string, first: int, last: int)
    decreases |asks|
  {
    if asks == [] then first == last + 1
    else
      var ask := asks[|asks| - 1];
      && ask.base == base && ask.span.last == last && ask.span.first <= last && last - ask.span.first < 366
      && Tile(asks[..|asks| - 1], base, first, ask.span.first - 1)
  }

  /** The requests added since were for these days of this currency. */
  ghost predicate AddedWithin(before: seq<Ask>, now: seq<Ask>, base: string, span: Span) {
    && before <= now
    && forall i :: |before| <= i < |now| ==>
         now[i].base == base && span.first <= now[i].span.first && now[i].span.first <= now[i].span.last &&
           now[i].span.last <= span.last
  }

  ghost predicate AllAnswered(outcomes: seq<Outcome>) {
    forall i :: 0 <= i < |outcomes| ==> outcomes[i].Answers?
  }

  /** The outcomes still to come after some requests, which stop for good at one that can't reach the
      server: from then on it is offline. */
  ghost predicate StopsOffline(before: seq<Outcome>, now: seq<Outcome>, requests: nat, wasOffline: bool,
        offline: bool)
  {
    && now == (if requests <= |before| then before[requests..] else [])
    && (wasOffline ==> requests == 0 && offline)
    && (!wasOffline ==>
      && (forall i :: 0 <= i < requests - 1 && i < |before| ==> before[i] != Fails(true))
      && (offline <==> 0 < requests <= |before| && before[requests - 1] == Fails(true)))
  }

  /** Before any request, it is offline only if it was. */
  lemma NoneMade(outcomes: seq<Outcome>, offline: bool)
    ensures StopsOffline(outcomes, outcomes, 0, offline, offline)
  {
    assert outcomes[0..] == outcomes;
  }

  lemma StopsAddUp(before: seq<Outcome>, between: seq<Outcome>, now: seq<Outcome>, a: nat, b: nat,
        wasOffline: bool, soOffline: bool, offline: bool)
    requires StopsOffline(before, between, a, wasOffline, soOffline)
    requires StopsOffline(between, now, b, soOffline, offline)
    ensures StopsOffline(before, now, a + b, wasOffline, offline)
  {
    forall i | !wasOffline && 0 <= i < a + b - 1 && i < |before|
      ensures before[i] != Fails(true)
    {
      if i >= a {
        assert between[i - a] == before[i];
      }
    }
    if a <= |before| && 0 < b <= |between| {
      assert between[b - 1] == before[a + b - 1];
    }
  }

  /** One more request, the first of those to come. */
  lemma OneMoreRequest(before: seq<Outcome>, so: seq<Outcome>, requests: nat, outcome: Outcome)
    requires StopsOffline(before, so, requests, false, false)
    requires outcome == if so == [] then Answers else so[0]
    ensures StopsOffline(before, if so == [] then [] else so[1..], requests + 1, false, outcome == Fails(true))
    ensures outcome.Fails? ==> requests < |before| && before[requests] == outcome
    ensures AllAnswered(before) ==> outcome.Answers?
  {
  }

  lemma NothingAsked(before: seq<Ask>, base: string, first: int, last: int)
    ensures AddedWithin(before, before, base, Span(first, last)) && Tile(before[|before|..], base, first, first - 1)
  {
  }

  lemma OneMoreAsk(before: seq<Ask>, so: seq<Ask>, base: string, first: int, last: int, start: int, end: int)
    requires first <= start <= end <= last && end - start < CHUNK_DAYS
    requires AddedWithin(before, so, base, Span(first, last)) && Tile(so[|before|..], base, first, start - 1)
    ensures var now := so + [Ask(base, Span(start, end))];
      AddedWithin(before, now, base, Span(first, last)) && Tile(now[|before|..], base, first, end)
  {
    var ask, now := Ask(base, Span(start, end)), so + [Ask(base, Span(start, end))];
    assert now[|before|..] == so[|before|..] + [ask];
    assert now[|before|..][..|so| - |before|] == so[|before|..];
  }

  lemma NoRates(server: Server, base: string, first: int)
    ensures AreRates(map[], server, base, Span(first, first - 1))
  {
  }

  lemma ChunksTogether(a: Rates, b: Rates, server: Server, base: string, first: int, start: int, end: int)
    requires first <= start <= end
    requires AreRates(a, server, base, Span(first, start - 1)) && AreRates(b, server, base, Span(start, end))
    ensures AreRates(a + b, server, base, Span(first, end))
  {
  }

  class Client {
    const server: Server
    /** How the next requests turn out; afterwards they are answered. */
    var outcomes: seq<Outcome>
    var asked: seq<Ask>

    constructor (server: Server, outcomes: seq<Outcome>)
      ensures this.server == server && this.outcomes == outcomes && asked == []
    {
      this.server, this.outcomes, asked := server, outcomes, [];
    }

    method Get(base: string, first: int, last: int) returns (outcome: Outcome, rates: Rates)
      modifies this
      ensures asked == old(asked) + [Ask(base, Span(first, last))]
      ensures outcome == (if old(outcomes) == [] then Answers else old(outcomes)[0])
      ensures outcomes == if old(outcomes) == [] then [] else old(outcomes)[1..]
      ensures outcome.Answers? ==> AreRates(rates, server, base, Span(first, last))
    {
      asked := asked + [Ask(base, Span(first, last))];
      outcome, rates := Answers, map[];
      if outcomes != [] {
        outcome, outcomes := outcomes[0], outcomes[1..];
      }
      if outcome.Answers? {
        rates := map day | first <= day <= last && server(base, day).Some? :: server(base, day).value;
      }
    }

    /** Asks for a span a chunk at a time, until all of it is there or a request fails. */
    method GetAll(base: string, first: int, last: int) returns (outcome: Outcome, fetched: Rates)
      requires first <= last
      modifies this
      ensures outcome.Answers? ==> AreRates(fetched, server, base, Span(first, last))
      ensures AddedWithin(old(asked), asked, base, Span(first, last))
      ensures outcome.Answers? ==> Tile(asked[|old(asked)|..], base, first, last)
      ensures StopsOffline(old(outcomes), outcomes, |asked| - |old(asked)|, false, outcome == Fails(true))
      ensures outcome.Fails? ==>
        var n := |asked| - |old(asked)|;
        0 < n <= |old(outcomes)| && outcome == old(outcomes)[n - 1]
      ensures AllAnswered(old(outcomes)) ==> outcome.Answers? && AllAnswered(outcomes)
    {
      NoneMade(outcomes, false);
      hide AreRates, Tile, StopsOffline, AddedWithin;
      ghost var before := asked;
      NothingAsked(before, base, first, last);
      outcome, fetched := Answers, map[];
      NoRates(server, base, first);
      var start := first;
      while start <= last
        invariant first <= start <= last + 1
        invariant AreRates(fetched, server, base, Span(first, start - 1))
        invariant before <= asked && AddedWithin(before, asked, base, Span(first, last))
        invariant Tile(asked[|before|..], base, first, start - 1)
        invariant AllAnswered(old(outcomes)) ==> AllAnswered(outcomes)
        invariant StopsOffline(old(outcomes), outcomes, |asked| - |before|, false, false)
        invariant outcome.Answers?
      {
        var end := Min(last, start + CHUNK_DAYS - 1);
        ghost var so, coming := asked, outcomes;
        var chunk;
        outcome, chunk := Get(base, start, end);
        OneMoreAsk(before, so, base, first, last, start, end);
        OneMoreRequest(old(outcomes), coming, |so| - |before|, outcome);
        if outcome.Fails? {
          return;
        }
        ChunksTogether(fetched, chunk, server, base, first, start, end);
        fetched := fetched + chunk;
        start := end + 1;
      }
    }
  }

  // ---- What is kept ----

  class Database {
    var spans: map<string, Span>
    var rates: map<string, Rates>

    constructor ()
      ensures spans == map[] && rates == map[]
    {
      spans, rates := map[], map[];
    }

    /** The days recorded are exactly those stored, with the server's rates. */
    ghost predicate Agrees(server: Server)
      reads this
    {
      && rates.Keys == spans.Keys
      && forall base :: base in spans ==>
        spans[base].first <= spans[base].last && AreRates(rates[base], server, base, spans[base])
    }

    /** Stores fetched rates, and widens the recorded days by them. */
    method Store(base: string, fetched: Rates, span: Span)
      modifies this
      ensures rates == old(rates)[base := if base in old(rates) then fetched + old(rates)[base] else fetched]
      ensures spans == old(spans)[base :=
        if base in old(spans)
        then Span(Min(old(spans)[base].first, span.first), Max(old(spans)[base].last, span.last)) else span]
    {
      rates := rates[base := if base in rates then fetched + rates[base] else fetched];
      spans := spans[base :=
        if base in spans then Span(Min(spans[base].first, span.first), Max(spans[base].last, span.last)) else span];
    }
  }

  function Hull(spans: map<string, Span>, base: string, span: Span): Span {
    if base in spans then Span(Min(spans[base].first, span.first), Max(spans[base].last, span.last)) else span
  }

  /** A span that continues what is recorded of a currency, before or after it, without a gap. */
  ghost predicate Continues(spans: map<string, Span>, base: string, span: Span) {
    span.first <= span.last
    && (base in spans ==> span.last + 1 == spans[base].first || span.first == spans[base].last + 1)
  }

  /** Rates of two spans without a gap between them are the rates of both together. */
  lemma RatesTogether(a: Rates, b: Rates, server: Server, base: string, spans: map<string, Span>, span: Span)
    requires base in spans && spans[base].first <= spans[base].last && Continues(spans, base, span)
    requires AreRates(a, server, base, span) && AreRates(b, server, base, spans[base])
    ensures AreRates(a + b, server, base, Hull(spans, base, span))
  {
  }

  // ---- What was asked for ----

  ghost predicate Apart(a: Span, b: Span) {
    a.last < b.first || b.last < a.first
  }

  /** None of the requests added since is for a day that was recorded. */
  ghost predicate AsksOnlyNew(before: seq<Ask>, now: seq<Ask>, spans: map<string, Span>) {
    && before <= now
    && (forall i :: |before| <= i < |now| && now[i].base in spans ==> Apart(now[i].span, spans[now[i].base]))
  }

  ghost predicate AllSpansGrow(before: map<string, Span>, now: map<string, Span>) {
    forall base :: base in before ==>
      base in now && now[base].first <= before[base].first && before[base].last <= now[base].last
  }

  lemma SomeAskedBefore(asked: seq<Ask>, spans: map<string, Span>)
    ensures AsksOnlyNew(asked, asked, spans)
  {
  }

  lemma AsksAddUp(before: seq<Ask>, between: seq<Ask>, now: seq<Ask>, base: string, old_: map<string, Span>,
        recorded: map<string, Span>, span: Span)
    requires AsksOnlyNew(before, between, old_) && AsksOnlyNew(between, now, recorded)
    requires AddedWithin(between, now, base, Hull(recorded, base, span))
    requires base in old_ ==> base in recorded && recorded[base] == old_[base]
    ensures AsksOnlyNew(before, now, old_)
  {
  }

  /** How many of the days come by `day`: where bisecting the list to the right of it ends. */
  function BisectRight(days: seq<int>, day: int): (index: nat)
    ensures index <= |days|
    ensures index > 0 ==> days[index - 1] <= day
    ensures forall i :: index <= i < |days| ==> days[i] > day
  {
    if days == [] then 0
    else if days[|days| - 1] <= day then |days|
    else BisectRight(days[..|days| - 1], day)
  }

  /** To the nearest whole, halves away from zero. */
  function RoundedHalfUp(value: int, unit: int): (rounded: int)
    requires unit > 0
    ensures -unit <= 2 * (value - rounded * unit) <= unit
    ensures 2 * (value - rounded * unit) == unit ==> value < 0
    ensures 2 * (value - rounded * unit) == -unit ==> value > 0
  {
    if value >= 0 then (2 * value + unit) / (2 * unit) else -((2 * -value + unit) / (2 * unit))
  }

  ghost predicate IsLatest(rates: Rates, day: int, latest: int) {
    latest in rates && latest <= day && forall d: int :: d in rates && d <= day ==> d <= latest
  }

  ghost predicate ConvertsAt(rates: Rates, day: int, amount: int, converted: Option<int>) {
    if converted.None? then forall d: int :: d in rates ==> d > day
    else
      exists latest: int ::
        IsLatest(rates, day, latest) && converted.value == RoundedHalfUp(amount * rates[latest], RATE_UNIT)
  }

  lemma AskedInTurn(before: seq<Ask>, between: seq<Ask>, now: seq<Ask>, base: string, spans: map<string, Span>,
        first: int, last: int)
    requires base in spans && spans[base].first <= spans[base].last
    requires between == before || (first < spans[base].first &&
        AddedWithin(before, between, base, Span(first, spans[base].first - 1)))
    requires now == between || (spans[base].last < last &&
        AddedWithin(between, now, base, Span(spans[base].last + 1, last)))
    ensures AddedWithin(before, now, base, Hull(spans, base, Span(first, last))) && AsksOnlyNew(before, now, spans)
  {
  }

  lemma AskedAtFirst(before: seq<Ask>, now: seq<Ask>, base: string, spans: map<string, Span>, span: Span)
    requires base !in spans && AddedWithin(before, now, base, span)
    ensures AddedWithin(before, now, base, Hull(spans, base, span)) && AsksOnlyNew(before, now, spans)
  {
  }

  /** What was recorded stays recorded, and nothing but one currency's days is added. */
  ghost predicate SpansGrow(before: map<string, Span>, now: map<string, Span>, base: string) {
    && (base in before ==> base in now && now[base].first <= before[base].first && before[base].last <= now[base].last)
    && (forall other :: other != base ==> (other in now <==> other in before))
    && (forall other :: other != base && other in now ==> now[other] == before[other])
  }

  lemma SpanGrows(before: map<string, Span>, now: map<string, Span>, base: string)
    requires now == before || (base in now && now == before[base := now[base]])
    requires base in before ==>
        base in now && now[base].first <= before[base].first && before[base].last <= now[base].last
    ensures SpansGrow(before, now, base)
  {
  }

  ghost predicate Sorted(days: seq<int>) {
    forall i, j :: 0 <= i < j < |days| ==> days[i] < days[j]
  }

  /** The stored rates of some days, and those days in order. */
  method List(ghost server: Server, ghost base: string, ghost span: Span, stored: Rates, first: int, last: int)
        returns (days: seq<int>, kept: Rates)
    requires AreRates(stored, server, base, span) && span.first <= first && last <= span.last && first <= last
    ensures AreRates(kept, server, base, Span(first, last))
    ensures Sorted(days) && forall day: int :: day in days <==> day in kept
  {
    days, kept := [], map[];
    var day := first;
    while day <= last
      invariant first <= day <= last + 1
      invariant AreRates(kept, server, base, Span(first, day - 1))
      invariant Sorted(days) && forall d: int :: d in days <==> d in kept
      invariant forall i :: 0 <= i < |days| ==> days[i] < day
    {
      if day in stored {
        days, kept := days + [day], kept[day := stored[day]];
      }
      day := day + 1;
    }
  }

  /** Every day of a span that is over is recorded. */
  ghost predicate Recorded(spans: map<string, Span>, base: string, span: Span, lastDay: int) {
    base in spans && spans[base].first <= Min(span.first, lastDay) && Min(span.last, lastDay) <= spans[base].last
  }

  /** The requests added since are all for currencies with days that weren't recorded. */
  ghost predicate AsksUnrecorded(before: seq<Ask>, now: seq<Ask>, recorded: map<string, Span>,
        spans: map<string, Span>, lastDay: int)
  {
    before <= now && forall i :: |before| <= i < |now| ==>
      now[i].base in spans && !Recorded(recorded, now[i].base, spans[now[i].base], lastDay)
  }

  /** The currencies marked unavailable since all have days that weren't recorded. */
  ghost predicate MarksUnrecorded(before: set<string>, now: set<string>, recorded: map<string, Span>,
        spans: map<string, Span>, lastDay: int)
  {
    before <= now && forall base :: base in now && base !in before ==>
      base in spans && !Recorded(recorded, base, spans[base], lastDay)
  }

  lemma NoneUnrecorded(asked: seq<Ask>, marked: set<string>, recorded: map<string, Span>, spans: map<string, Span>,
        lastDay: int)
    ensures AsksUnrecorded(asked, asked, recorded, spans, lastDay)
    ensures MarksUnrecorded(marked, marked, recorded, spans, lastDay) && AllSpansGrow(recorded, recorded)
  {
  }

  lemma MarksAddUp(before: set<string>, between: set<string>, now: set<string>, base: string,
        old_: map<string, Span>, recorded: map<string, Span>, spans: map<string, Span>, lastDay: int)
    requires base in spans && MarksUnrecorded(before, between, old_, spans, lastDay)
    requires now == between || now == between + {base}
    requires Recorded(old_, base, spans[base], lastDay) ==> Recorded(recorded, base, spans[base], lastDay)
    requires Recorded(recorded, base, spans[base], lastDay) ==> now == between
    ensures before <= now && MarksUnrecorded(before, now, old_, spans, lastDay)
  {
  }

  lemma SpansAddUp(before: map<string, Span>, between: map<string, Span>, now: map<string, Span>, base: string)
    requires AllSpansGrow(before, between) && SpansGrow(between, now, base)
    ensures AllSpansGrow(before, now)
    ensures forall other :: other != base && other in between ==> other in now && now[other] == between[other]
  {
  }

  lemma UnrecordedAddUp(before: seq<Ask>, between: seq<Ask>, now: seq<Ask>, base: string, old_: map<string, Span>,
        recorded: map<string, Span>, spans: map<string, Span>, lastDay: int, within: Span)
    requires base in spans && AsksUnrecorded(before, between, old_, spans, lastDay)
    requires AddedWithin(between, now, base, within)
    requires base in old_ ==> base in recorded && recorded[base] == old_[base]
    requires Recorded(recorded, base, spans[base], lastDay) ==> now == between
    ensures between <= now && AsksUnrecorded(before, now, old_, spans, lastDay)
    ensures Recorded(old_, base, spans[base], lastDay) ==> Recorded(recorded, base, spans[base], lastDay)
  {
  }

  lemma NothingDone(spans: map<string, Span>, asked: seq<Ask>, base: string, span: Span, outcomes: seq<Outcome>,
        offline: bool)
    ensures SpansGrow(spans, spans, base) && AddedWithin(asked, asked, base, Hull(spans, base, span))
    ensures AsksOnlyNew(asked, asked, spans) && StopsOffline(outcomes, outcomes, 0, offline, offline)
  {
    NoneMade(outcomes, offline);
  }

  class RateBook {
    ghost const server: Server
    const db: Database
    const client: Client?
    const lastDay: int
    var unavailable: set<string>
    var offline: bool
    var loaded: map<string, Span>
    var days: map<string, seq<int>>
    var rates: map<string, Rates>

    constructor (ghost server: Server, db: Database, client: Client?, lastDay: int)
      requires db.Agrees(server) && (client != null ==> client.server == server)
      ensures Valid() && this.server == server && this.db == db && this.client == client && this.lastDay == lastDay
      ensures unavailable == {} && !offline && loaded == map[]
    {
      this.server, this.db, this.client, this.lastDay := server, db, client, lastDay;
      unavailable, offline, loaded, days, rates := {}, false, map[], map[], map[];
    }

    ghost predicate Connected()
      reads this, db
    {
      db.Agrees(server) && (client != null ==> client.server == server)
    }

    ghost predicate Valid()
      reads this, db
    {
      Connected() && forall base :: base in loaded ==> Ready(base)
    }

    /** A loaded currency's rates are the server's for the days it was loaded for, and its days are in order. */
    ghost predicate Ready(base: string)
      requires base in loaded
      reads this
    {
      && base in days && base in rates
      && AreRates(rates[base], server, base, loaded[base])
      && Sorted(days[base]) && forall day: int :: day in days[base] <==> day in rates[base]
    }

    ghost predicate Answering()
      reads this, client
    {
      client != null && !offline && AllAnswered(client.outcomes)
    }

    ghost function Asked(): seq<Ask>
      reads this, client
    {
      if client == null then [] else client.asked
    }

    ghost function Outcomes(): seq<Outcome>
      reads this, client
    {
      if client == null then [] else client.outcomes
    }

    /** Fetches a span into the database: all of it, or none when a request fails. */
    method Fetch(base: string, first: int, last: int) returns (ok: bool)
      requires Connected() && Continues(db.spans, base, Span(first, last))
      modifies this`offline, db, client
      ensures Connected()
      ensures ok ==> db.spans == old(db.spans)[base := Hull(old(db.spans), base, Span(first, last))]
      ensures !ok ==> db.spans == old(db.spans) && db.rates == old(db.rates)
      ensures AddedWithin(old(Asked()), Asked(), base, Span(first, last))
      ensures ok ==> Tile(Asked()[|old(Asked())|..], base, first, last)
      ensures StopsOffline(old(Outcomes()), Outcomes(), |Asked()| - |old(Asked())|, old(offline), offline)
      ensures old(Asked()) <= Asked() && (old(client == null || offline) ==> !ok && Asked() == old(Asked()))
      ensures old(Answering()) ==> ok && Answering()
    {
      hide AreRates, Tile;
      if client == null || offline {
        return false;
      }
      var outcome, fetched := client.GetAll(base, first, last);
      if outcome.Fails? {
        offline := offline || outcome.unreachable;
        return false;
      }
      if base in db.rates {
        RatesTogether(fetched, db.rates[base], server, base, db.spans, Span(first, last));
      }
      db.Store(base, fetched, Span(first, last));
      ok := true;
    }

    /** Fetches what the database lacks of a span, on either side of the days recorded. */
    method FetchMissing(base: string, first: int, last: int) returns (ok: bool)
      requires Connected() && first <= last
      modifies this`offline, db, client
      ensures Connected()
      ensures ok ==> base in db.spans && db.spans[base].first <= first && last <= db.spans[base].last
      ensures SpansGrow(old(db.spans), db.spans, base)
      ensures AddedWithin(old(Asked()), Asked(), base, Hull(old(db.spans), base, Span(first, last)))
      ensures AsksOnlyNew(old(Asked()), Asked(), old(db.spans))
      ensures StopsOffline(old(Outcomes()), Outcomes(), |Asked()| - |old(Asked())|, old(offline), offline)
      ensures base in old(db.spans) && old(db.spans)[base].first <= first && last <= old(db.spans)[base].last ==>
        ok && Asked() == old(Asked())
      ensures old(Answering()) ==> ok && Answering()
    {
      hide AreRates, Tile, AddedWithin, AsksOnlyNew, SpansGrow, AllAnswered, StopsOffline;
      ghost var spans, asked, outcomes, was := db.spans, Asked(), Outcomes(), offline;
      if base !in db.spans {
        ok := Fetch(base, first, last);
        AskedAtFirst(asked, Asked(), base, spans, Span(first, last));
        SpanGrows(spans, db.spans, base);
        return;
      }
      var recorded := db.spans[base];
      ok := true;
      if first < recorded.first {
        ok := Fetch(base, first, recorded.first - 1);
      }
      ghost var between, so, gone := Asked(), Outcomes(), offline;
      if ok && last > recorded.last {
        ok := Fetch(base, recorded.last + 1, last);
      }
      AskedInTurn(asked, between, Asked(), base, spans, first, last);
      NoneMade(outcomes, was);
      NoneMade(so, gone);
      StopsAddUp(outcomes, so, Outcomes(), |between| - |asked|, |Asked()| - |between|, was, gone, offline);
      SpanGrows(spans, db.spans, base);
    }

    /** Has a span's rates at hand from then on, in order of days. */
    method Keep(base: string, span: Span, listed: seq<int>, kept: Rates)
      requires Valid() && AreRates(kept, server, base, span)
      requires Sorted(listed) && forall day: int :: day in listed <==> day in kept
      modifies this`days, this`rates, this`loaded
      ensures Valid() && loaded == old(loaded)[base := span]
    {
      hide AreRates, Sorted, Database.Agrees;
      days, rates, loaded := days[base := listed], rates[base := kept], loaded[base := span];
    }

    /** Gets a currency ready for a span. */
    method Load(base: string, first: int, last: int) returns (ok: bool)
      requires Valid() && first <= last
      modifies this, db, client
      ensures Valid() && unavailable == old(unavailable)
      ensures loaded == if ok then old(loaded)[base := Span(first, last)] else old(loaded)
      ensures SpansGrow(old(db.spans), db.spans, base)
      ensures AddedWithin(old(Asked()), Asked(), base, Hull(old(db.spans), base, Span(first, last)))
      ensures AsksOnlyNew(old(Asked()), Asked(), old(db.spans))
      ensures StopsOffline(old(Outcomes()), Outcomes(), |Asked()| - |old(Asked())|, old(offline), offline)
      ensures base in old(db.spans) && old(db.spans)[base].first <= first && last <= old(db.spans)[base].last ==>
        ok && Asked() == old(Asked())
      ensures old(Answering()) ==> ok && Answering()
    {
      hide AreRates, Sorted, AsksOnlyNew, AddedWithin, SpansGrow, AllAnswered, Hull, StopsOffline;
      ok := FetchMissing(base, first, last);
      if ok {
        var listed, kept := List(server, base, db.spans[base], db.rates[base], first, last);
        Keep(base, Span(first, last), listed, kept);
      }
    }

    /** Loaded for every day of a span that is over. */
    ghost predicate Covers(base: string, span: Span)
      reads this
    {
      base in loaded && loaded[base].first <= Min(span.first, lastDay) && Min(span.last, lastDay) <= loaded[base].last
    }

    /** Gets one currency ready, unless it is unavailable or ready already. */
    method PrepareOne(base: string, span: Span)
      requires Valid() && span.first <= span.last
      modifies this, db, client
      ensures Valid()
      ensures base in unavailable || Covers(base, span)
      ensures unavailable == old(unavailable) || unavailable == old(unavailable) + {base}
      ensures forall other :: other != base && other in old(loaded) ==>
          other in loaded && loaded[other] == old(loaded)[other]
      ensures SpansGrow(old(db.spans), db.spans, base)
      ensures AddedWithin(old(Asked()), Asked(), base, Hull(old(db.spans), base, Span(Min(span.first, lastDay),
          Min(span.last, lastDay))))
      ensures AsksOnlyNew(old(Asked()), Asked(), old(db.spans))
      ensures StopsOffline(old(Outcomes()), Outcomes(), |Asked()| - |old(Asked())|, old(offline), offline)
      ensures Recorded(old(db.spans), base, span, lastDay) ==>
        unavailable == old(unavailable) && Asked() == old(Asked())
      ensures old(base in unavailable || Covers(base, span)) ==>
        unavailable == old(unavailable) && loaded == old(loaded) && Asked() == old(Asked())
      ensures old(Answering()) ==> unavailable == old(unavailable) && Answering()
    {
      var first, last := Min(span.first, lastDay), Min(span.last, lastDay);
      hide AreRates, Sorted, AddedWithin, AsksOnlyNew, SpansGrow, StopsOffline, Hull, AllAnswered;
      NothingDone(db.spans, Asked(), base, Span(first, last), Outcomes(), offline);
      if base in unavailable || (base in loaded && loaded[base].first <= first && last <= loaded[base].last) {
        return;
      }
      var ok := Load(base, first, last);
      if !ok {
        unavailable := unavailable + {base};
      }
    }

    /** Gets every currency ready for its span, or marks it unavailable: none whose days are recorded,
        and nothing is asked for those. */
    method Prepare(spans: map<string, Span>)
      requires Valid() && forall base :: base in spans ==> spans[base].first <= spans[base].last
      modifies this, db, client
      ensures Valid()
      ensures forall base :: base in spans ==> base in unavailable || Covers(base, spans[base])
      ensures MarksUnrecorded(old(unavailable), unavailable, old(db.spans), spans, lastDay)
      ensures AllSpansGrow(old(db.spans), db.spans)
      ensures AsksOnlyNew(old(Asked()), Asked(), old(db.spans))
      ensures AsksUnrecorded(old(Asked()), Asked(), old(db.spans), spans, lastDay)
      ensures StopsOffline(old(Outcomes()), Outcomes(), |Asked()| - |old(Asked())|, old(offline), offline)
      ensures old(Answering()) ==> unavailable == old(unavailable) && Answering()
    {
      hide AreRates, Sorted, AsksOnlyNew, Valid, Answering, StopsOffline, AsksUnrecorded, Recorded, AddedWithin;
      hide Hull, Min, Max, AllAnswered, Outcomes, MarksUnrecorded, AllSpansGrow, SpansGrow;
      var left := spans.Keys;
      NoneUnrecorded(Asked(), unavailable, db.spans, spans, lastDay);
      NoneMade(Outcomes(), offline);
      SomeAskedBefore(Asked(), db.spans);
      while left != {}
        invariant left <= spans.Keys && Valid()
        invariant forall base :: base in spans && base !in left ==> base in unavailable || Covers(base, spans[base])
        invariant old(unavailable) <= unavailable
        invariant MarksUnrecorded(old(unavailable), unavailable, old(db.spans), spans, lastDay)
        invariant AllSpansGrow(old(db.spans), db.spans)
        invariant forall base :: base in left && base in old(db.spans) ==>
            base in db.spans && db.spans[base] == old(db.spans)[base]
        invariant AsksOnlyNew(old(Asked()), Asked(), old(db.spans))
        invariant old(Asked()) <= Asked() && AsksUnrecorded(old(Asked()), Asked(), old(db.spans), spans, lastDay)
        invariant StopsOffline(old(Outcomes()), Outcomes(), |Asked()| - |old(Asked())|, old(offline), offline)
        invariant old(Answering()) ==> unavailable == old(unavailable) && Answering()
      {
        var base := AnyOf(left);
        ghost var asked, recorded, outcomes, was := Asked(), db.spans, Outcomes(), offline;
        ghost var marked := unavailable;
        PrepareOne(base, spans[base]);
        UnrecordedAddUp(old(Asked()), asked, Asked(), base, old(db.spans), recorded, spans,
          lastDay, Hull(recorded, base, Span(Min(spans[base].first, lastDay), Min(spans[base].last, lastDay))));
        StopsAddUp(old(Outcomes()), outcomes, Outcomes(), |asked| - |old(Asked())|, |Asked()| - |asked|, old(offline),
          was, offline);
        AsksAddUp(old(Asked()), asked, Asked(), base, old(db.spans), recorded, Span(Min(spans[base].first, lastDay),
          Min(spans[base].last, lastDay)));
        MarksAddUp(old(unavailable), marked, unavailable, base, old(db.spans), recorded, spans, lastDay);
        SpansAddUp(old(db.spans), recorded, db.spans, base);
        left := left - {base};
      }
    }

    /** The amount in the household's currency at the latest loaded rate by that day, which is the
        day before today at the latest; none, and unavailable from then on, when there isn't one. */
    method Convert(base: string, day: int, amount: int) returns (converted: Option<int>)
      requires Valid()
      modifies this`unavailable
      ensures Valid() && unavailable == if converted.None? then old(unavailable) + {base} else old(unavailable)
      ensures base !in loaded ==> converted.None?
      ensures base in loaded ==> ConvertsAt(rates[base], Min(day, lastDay), amount, converted)
    {
      var listed := if base in days && base in loaded then days[base] else [];
      var index := BisectRight(listed, Min(day, lastDay));
      if index == 0 {
        unavailable := unavailable + {base};
        return None;
      }
      assert listed[index - 1] in listed;
      assert IsLatest(rates[base], Min(day, lastDay), listed[index - 1]);
      converted := Some(RoundedHalfUp(amount * rates[base][listed[index - 1]], RATE_UNIT));
    }
  }

  // ---- The converter ----

  /** The first and last day of each foreign currency asked about. */
  ghost predicate Widens(before: map<string, Span>, now: map<string, Span>) {
    forall base :: base in before ==>
      base in now && now[base].first <= before[base].first && before[base].last <= now[base].last
  }

  ghost predicate Spanned(abroad: map<string, Span>, currency: string, days: seq<(int, string)>) {
    forall i :: 0 <= i < |days| && days[i].1 != currency ==> days[i].1 in abroad && abroad[days[i].1].Has(days[i].0)
  }

  method Widened(before: map<string, Span>, currency: string, days: seq<(int, string)>)
        returns (abroad: map<string, Span>)
    requires currency !in before && forall base :: base in before ==> before[base].first <= before[base].last
    ensures currency !in abroad && forall base :: base in abroad ==> abroad[base].first <= abroad[base].last
    ensures Widens(before, abroad) && Spanned(abroad, currency, days)
  {
    abroad := before;
    for i := 0 to |days|
      invariant currency !in abroad && forall base :: base in abroad ==> abroad[base].first <= abroad[base].last
      invariant Widens(before, abroad) && Spanned(abroad, currency, days[..i])
    {
      var (day, base) := days[i];
      assert days[..i + 1] == days[..i] + [days[i]];
      if base != currency {
        var first := if base in abroad then abroad[base].first else day;
        var last := if base in abroad then abroad[base].last else day;
        abroad := abroad[base := Span(Min(first, day), Max(last, day))];
      }
    }
    assert days[..|days|] == days;
  }

  /** Converted at the server's rate for the day when it has one, and otherwise for the latest day
      before it, as far back as was loaded, that it has one for. */
  ghost predicate IsConverted(server: Server, base: string, loaded: map<string, Span>, day: int, amount: int,
        converted: Option<int>) {
    && base in loaded && loaded[base].Has(day)
    && (server(base, day).Some? ==> converted == Some(RoundedHalfUp(amount * server(base, day).value, RATE_UNIT)))
    && (converted.Some? ==>
          exists latest: int :: loaded[base].first <= latest <= day && server(base, latest).Some?
            && (forall d: int :: latest < d <= day ==> server(base, d).None?)
            && converted.value == RoundedHalfUp(amount * server(base, latest).value, RATE_UNIT))
    && (converted.None? ==> forall d: int :: loaded[base].first <= d <= day ==> server(base, d).None?)
  }

  lemma AtTheServersRate(rates: Rates, server: Server, base: string, span: Span, day: int, amount: int,
        converted: Option<int>)
    requires AreRates(rates, server, base, span) && span.Has(day) && ConvertsAt(rates, day, amount, converted)
    ensures IsConverted(server, base, map[base := span], day, amount, converted)
  {
    if converted.Some? {
      var latest: int :| IsLatest(rates, day, latest) &&
        converted.value == RoundedHalfUp(amount * rates[latest], RATE_UNIT);
      assert server(base, latest) == Some(rates[latest]);
      forall d: int | latest < d <= day
        ensures server(base, d).None?
      {
      }
    }
  }

  class Converter {
    const currency: string
    const rates: RateBook
    var abroad: map<string, Span>

    constructor (currency: string, rates: RateBook)
      requires rates.Valid()
      ensures Valid() && this.currency == currency && this.rates == rates && abroad == map[]
    {
      this.currency, this.rates, abroad := currency, rates, map[];
    }

    /** Every foreign currency asked about is ready for all its days, or unavailable. */
    ghost predicate Valid()
      reads this, rates, rates.db
    {
      && rates.Valid() && currency !in abroad
      && (forall base :: base in abroad ==> abroad[base].first <= abroad[base].last)
      && (forall base :: base in abroad ==> base in rates.unavailable || rates.Covers(base, abroad[base]))
    }

    method Prepare(days: seq<(int, string)>)
      requires Valid()
      modifies this, rates, rates.db, rates.client
      ensures Valid()
      ensures Widens(old(abroad), abroad) && Spanned(abroad, currency, days)
      ensures AllSpansGrow(old(rates.db.spans), rates.db.spans)
      ensures AsksOnlyNew(old(rates.Asked()), rates.Asked(), old(rates.db.spans))
      ensures AsksUnrecorded(old(rates.Asked()), rates.Asked(), old(rates.db.spans), abroad, rates.lastDay)
      ensures MarksUnrecorded(old(rates.unavailable), rates.unavailable, old(rates.db.spans), abroad, rates.lastDay)
      ensures old(rates.offline) ==> rates.offline && rates.Asked() == old(rates.Asked())
      ensures old(rates.Answering()) ==> rates.unavailable == old(rates.unavailable) && rates.Answering()
    {
      abroad := Widened(abroad, currency, days);
      rates.Prepare(abroad);
    }

    /** An amount of a prepared day converts at the server's rate for that day, or for yesterday if
        the day isn't over, to the nearest cent. */
    method Convert(day: int, base: string, amount: int) returns (converted: Option<int>)
      requires Valid()
      modifies rates`unavailable
      ensures Valid()
      ensures base == currency ==> converted == Some(amount)
      ensures base in abroad && abroad[base].Has(day) && base !in old(rates.unavailable)
        ==> IsConverted(rates.server, base, rates.loaded, Min(day, rates.lastDay), amount, converted)
    {
      if base == currency {
        return Some(amount);
      }
      converted := rates.Convert(base, day, amount);
      if base in rates.loaded && base in abroad && abroad[base].Has(day) &&
        rates.loaded[base].Has(Min(day, rates.lastDay)) {
        AtTheServersRate(rates.rates[base], rates.server, base, rates.loaded[base], Min(day, rates.lastDay), amount,
          converted);
      }
    }
  }
}
