/** Reading amounts of money (`imports/values.py`), against the way the household's alerts write
    them. Amounts are whole cents; letters and digits are those of ASCII. */
module Amounts {
  import opened Wrappers

  // ---- Characters and texts ----

  predicate IsDigit(c: char) { '0' <= c <= '9' }

  predicate IsCapital(c: char) { 'A' <= c <= 'Z' }

  predicate IsLetter(c: char) { IsCapital(c) || 'a' <= c <= 'z' }

  predicate IsWord(c: char) { IsLetter(c) || IsDigit(c) || c == '_' }

  predicate IsSpace(c: char) {
    || '\t' <= c <= '\r' || '\U{1C}' <= c <= ' ' || c == '\U{85}' || c == '\U{A0}' || c == '\U{1680}'
    || '\U{2000}' <= c <= '\U{200A}' || c == '\U{2028}' || c == '\U{2029}' || c == '\U{202F}'
    || c == '\U{205F}' || c == '\U{3000}'
  }

  predicate IsCurrencySymbol(c: char) {
    || c == '$' || c == '\U{20AC}' || c == '\U{A3}' || c == '\U{A5}'
    || c == '\U{20B9}' || c == '\U{20A9}' || c == '\U{20BD}' || c == '\U{A4}'
  }

  /** Between thousands: spaces of any width, and apostrophes. */
  predicate IsGrouping(c: char) {
    c == ' ' || c == '\U{A0}' || c == '\U{202F}' || c == '\U{2009}' || c == '\'' || c == '\U{2019}'
  }

  function Is(mark: char): char -> bool {
    c => c == mark
  }

  const MINUS := '\U{2212}'

  function Upper(c: char): char {
    if 'a' <= c <= 'z' then 'A' + (c - 'a') else c
  }

  function Strip(text: string): string {
    if text == "" then ""
    else if IsSpace(text[0]) then Strip(text[1..])
    else if IsSpace(text[|text| - 1]) then Strip(text[..|text| - 1])
    else text
  }

  function StripEnd(text: string, chars: set<char>): string {
    if text != "" && text[|text| - 1] in chars then StripEnd(text[..|text| - 1], chars) else text
  }

  function Remove(text: string, drop: char -> bool): string {
    if text == "" then ""
    else Remove(text[..|text| - 1], drop) + if drop(text[|text| - 1]) then "" else [text[|text| - 1]]
  }

  function Replace(text: string, c: char, with: char): (r: string)
    ensures |r| == |text|
  {
    seq(|text|, i requires 0 <= i < |text| => if text[i] == c then with else text[i])
  }

  // ---- Reading an amount ----

  datatype Mark = Point | Comma

  /** `Fails` is the error of rounding a number with more digits than the reader's precision. */
  datatype Read = Amount(cents: int) | NotAnAmount | Fails

  const MAX_AMOUNT := 99_999_999_999_999
  const PRECISION := 28

  /** Without the "CR" or "DR" after it, and whether it said debit. */
  function Direction(value: string): (string, Option<bool>) {
    var trimmed := StripEnd(value, {'.', ' '});
    var n := |trimmed|;
    if n >= 2 && Upper(trimmed[n - 2]) in {'C', 'D'} && Upper(trimmed[n - 1]) == 'R'
       && (n == 2 || !IsLetter(trimmed[n - 3]))
    then (trimmed[..n - 2], Some(Upper(trimmed[n - 2]) == 'D'))
    else (value, None)
  }

  /** Three capitals on their own. */
  predicate IsCode(text: string, i: nat) {
    && i + 3 <= |text| && IsCapital(text[i]) && IsCapital(text[i + 1]) && IsCapital(text[i + 2])
    && (i == 0 || !IsWord(text[i - 1]))
    && (i + 3 == |text| || !IsWord(text[i + 3]))
  }

  /** From the i-th character on, without currency symbols and codes. */
  function WithoutCurrency(text: string, i: nat): string
    requires i <= |text|
    decreases |text| - i
  {
    if i == |text| then ""
    else if IsCurrencySymbol(text[i]) then WithoutCurrency(text, i + 1)
    else if IsCode(text, i) then WithoutCurrency(text, i + 3)
    else [text[i]] + WithoutCurrency(text, i + 1)
  }

  function Unwrapped(value: string): (string, bool) {
    if |value| >= 2 && value[0] == '(' && value[|value| - 1] == ')' then (value[1..|value| - 1], true)
    else (value, false)
  }

  function Unsigned(value: string): (string, bool) {
    var n := |value|;
    if n > 0 && value[0] in {'-', '+'} then (value[1..], value[0] == '-')
    else if n > 0 && value[n - 1] in {'-', '+'} then (value[..n - 1], value[n - 1] == '-')
    else (value, false)
  }

  /** How many digits it starts with. */
  function Leading(s: string): (n: nat)
    ensures n <= |s|
  {
    if s == "" || !IsDigit(s[0]) then 0 else 1 + Leading(s[1..])
  }

  /** Digits, and after a point more digits. */
  predicate IsNumber(s: string) {
    var n := Leading(s);
    n > 0 && (n == |s| || (s[n] == '.' && n + 1 < |s| && Leading(s[n + 1..]) == |s| - n - 1))
  }

  function Number(digits: string): (n: nat) {
    if digits == "" then 0
    else
      var last := digits[|digits| - 1];
      10 * Number(digits[..|digits| - 1]) + if IsDigit(last) then (last - '0') as nat else 0
  }

  function Tens(n: nat): (r: nat)
    ensures r > 0
  {
    if n == 0 then 1 else 10 * Tens(n - 1)
  }

  /** In whole cents, half a cent rounding up. */
  function Cents(s: string): int
    requires IsNumber(s)
  {
    var n := Leading(s);
    var after := if n == |s| then "" else s[n + 1..];
    100 * Number(s[..n]) + (200 * Number(after) + Tens(|after|)) / (2 * Tens(|after|))
  }

  function ReadNumber(value: string, mark: Mark): Read {
    var grouping := if mark == Point then ',' else '.';
    var number := Replace(Remove(value, Is(grouping)), ',', '.');
    if !IsNumber(number) then NotAnAmount
    else
      var cents := Cents(number);
      if cents >= Tens(PRECISION) then Fails else if cents > MAX_AMOUNT then NotAnAmount else Amount(cents)
  }

  function Negated(read: Read, negative: bool): Read {
    match read
    case Amount(cents) => Amount(if negative then -cents else cents)
    case _ => read
  }

  function Directed(text: string): (string, Option<bool>) {
    Direction(Replace(Strip(text), MINUS, '-'))
  }

  function Bare(value: string): string {
    Remove(WithoutCurrency(value, 0), IsGrouping)
  }

  function ParseAmount(text: string, mark: Mark): Read {
    var (value, debit) := Directed(text);
    var (inner, wrapped) := Unwrapped(Bare(value));
    var (digits, minus) := Unsigned(inner);
    Negated(ReadNumber(digits, mark), debit == Some(true) || wrapped || minus)
  }

  // ---- Writing an amount ----

  function Digit(n: nat): char
    requires n < 10
  {
    '0' + n as char
  }

  function Digits(n: nat): string {
    if n < 10 then [Digit(n)] else Digits(n / 10) + [Digit(n % 10)]
  }

  function Three(n: nat): string {
    [Digit(n / 100 % 10), Digit(n / 10 % 10), Digit(n % 10)]
  }

  function Two(n: nat): string {
    [Digit(n / 10 % 10), Digit(n % 10)]
  }

  function Grouped(n: nat, grouping: char): string {
    if n < 1000 then Digits(n) else Grouped(n / 1000, grouping) + ([grouping] + Three(n))
  }

  /** Without a sign: thousands grouped, and two decimals. */
  function Plain(cents: nat, grouping: char, point: char): string {
    Grouped(cents / 100, grouping) + ([point] + Two(cents))
  }

  /** The way alerts write an amount. */
  function Format(cents: int, currency: string): string {
    (if cents < 0 then "-" + Plain(-cents, ',', '.') else Plain(cents, ',', '.')) + " " + currency
  }

  function Swap(c: char): char {
    if c == ',' then '.' else if c == '.' then ',' else c
  }

  /** With comma and point swapped. */
  function Swapped(text: string): (r: string)
    ensures |r| == |text|
  {
    seq(|text|, i requires 0 <= i < |text| => Swap(text[i]))
  }

  predicate ThreeCapitals(currency: string) {
    |currency| == 3 && forall k :: 0 <= k < 3 ==> 'A' <= currency[k] <= 'Z'
  }

  function Marks(mark: Mark): (char, char) {
    if mark == Point then (',', '.') else ('.', ',')
  }

  function Written(cents: nat, mark: Mark): string {
    Plain(cents, Marks(mark).0, Marks(mark).1)
  }

  // ---- Digits, grouped and read back ----

  predicate AllDigits(s: string) {
    forall c :: c in s ==> IsDigit(c)
  }

  lemma {:induction false} DigitsRead(n: nat)
    ensures AllDigits(Digits(n)) && Digits(n) != "" && Number(Digits(n)) == n
  {
    if n < 10 {
      assert Number([Digit(n)][..0]) == 0;
    } else {
      DigitsRead(n / 10);
      assert Digits(n)[..|Digits(n)| - 1] == Digits(n / 10);
    }
  }

  lemma {:induction false} RemoveAppends(a: string, b: string, drop: char -> bool)
    ensures Remove(a + b, drop) == Remove(a, drop) + Remove(b, drop)
  {
    if b == "" {
      assert a + b == a;
    } else {
      RemoveAppends(a, b[..|b| - 1], drop);
      assert (a + b)[..|a + b| - 1] == a + b[..|b| - 1];
    }
  }

  lemma {:induction false} RemoveNone(a: string, drop: char -> bool)
    requires forall i :: 0 <= i < |a| ==> !drop(a[i])
    ensures Remove(a, drop) == a
  {
    if a != "" {
      RemoveNone(a[..|a| - 1], drop);
      assert a == a[..|a| - 1] + [a[|a| - 1]];
    }
  }

  lemma RemoveOne(c: char, drop: char -> bool)
    requires drop(c)
    ensures Remove([c], drop) == ""
  {
    assert Remove([c][..0], drop) == "";
  }

  predicate DigitsAnd(s: string, mark: char) {
    forall i :: 0 <= i < |s| ==> IsDigit(s[i]) || s[i] == mark
  }

  lemma {:induction false} GroupedIsDigits(n: nat, grouping: char)
    ensures DigitsAnd(Grouped(n, grouping), grouping) && Grouped(n, grouping) != "" && IsDigit(Grouped(n, grouping)[0])
  {
    if n < 1000 {
      DigitsRead(n);
    } else {
      GroupedIsDigits(n / 1000, grouping);
    }
  }

  lemma MarkGoes(mark: char, digits: string, drop: char -> bool)
    requires AllDigits(digits) && drop(mark) && forall c :: IsDigit(c) ==> !drop(c)
    ensures Remove([mark] + digits, drop) == digits
  {
    RemoveAppends([mark], digits, drop);
    RemoveOne(mark, drop);
    RemoveNone(digits, drop);
  }

  lemma RemoveNoDigits(digits: string, drop: char -> bool)
    requires AllDigits(digits) && forall c :: IsDigit(c) ==> !drop(c)
    ensures Remove(digits, drop) == digits
  {
    RemoveNone(digits, drop);
  }

  lemma NoMark(digits: string, mark: char)
    requires AllDigits(digits) && !IsDigit(mark)
    ensures Remove(digits, Is(mark)) == digits
  {
    RemoveNone(digits, Is(mark));
  }

  lemma ThreeAreDigits(n: nat)
    ensures AllDigits(Three(n))
  {
  }

  lemma LastThree(n: nat)
    requires n >= 1000
    ensures Digits(n) == Digits(n / 1000) + Three(n)
  {
    assert n / 10 / 10 == n / 100 && n / 100 / 10 == n / 1000;
    assert Digits(n) == Digits(n / 10) + [Digit(n % 10)];
    assert Digits(n / 10) == Digits(n / 100) + [Digit(n / 10 % 10)];
    assert Digits(n / 100) == Digits(n / 1000) + [Digit(n / 100 % 10)];
  }

  /** Without its grouping, whatever else goes with that, a grouped number is the plain one. */
  lemma {:induction false} UngroupedIsPlain(n: nat, grouping: char, drop: char -> bool)
    requires drop(grouping) && forall c :: IsDigit(c) ==> !drop(c)
    ensures Remove(Grouped(n, grouping), drop) == Digits(n)
  {
    hide Digits, Remove, Three, AllDigits, IsDigit;
    if n < 1000 {
      DigitsRead(n);
      RemoveNoDigits(Digits(n), drop);
    } else {
      UngroupedIsPlain(n / 1000, grouping, drop);
      RemoveAppends(Grouped(n / 1000, grouping), [grouping] + Three(n), drop);
      ThreeAreDigits(n);
      MarkGoes(grouping, Three(n), drop);
      LastThree(n);
    }
  }

  lemma {:induction false} LeadingDigits(a: string, b: string)
    requires AllDigits(a) && (b == "" || !IsDigit(b[0]))
    ensures Leading(a + b) == |a|
  {
    if a == "" {
      assert a + b == b;
    } else {
      assert (a + b)[1..] == a[1..] + b;
      LeadingDigits(a[1..], b);
    }
  }

  lemma NothingToGroup(point: char, two: string, grouping: char)
    requires AllDigits(two) && !IsDigit(grouping) && point != grouping
    ensures Remove([point] + two, Is(grouping)) == [point] + two
  {
    RemoveNone([point] + two, Is(grouping));
  }

  lemma MarksAreMarks(mark: Mark)
    ensures var grouping := Marks(mark).0;
      Is(grouping)(grouping) && forall c :: IsDigit(c) ==> !Is(grouping)(c)
  {
  }

  lemma Ungrouped(cents: nat, mark: Mark)
    ensures var (grouping, point) := Marks(mark);
      Remove(Written(cents, mark), Is(grouping)) == Digits(cents / 100) + ([point] + Two(cents))
  {
    var (grouping, point) := Marks(mark);
    var n, two := cents / 100, Two(cents);
    assert AllDigits(two);
    hide Digits, Remove, Grouped, AllDigits, Is, Two;
    MarksAreMarks(mark);
    UngroupedIsPlain(n, grouping, Is(grouping));
    RemoveAppends(Grouped(n, grouping), [point] + two, Is(grouping));
    NothingToGroup(point, two, grouping);
  }

  lemma PointIsPoint(n: nat, point: char, two: string)
    requires (point == ',' || point == '.') && AllDigits(two)
    ensures Replace(Digits(n) + ([point] + two), ',', '.') == Digits(n) + ("." + two)
  {
    DigitsRead(n);
    hide Digits, Number;
    var s := Digits(n) + ([point] + two);
    forall i | 0 <= i < |s|
      ensures Replace(s, ',', '.')[i] == (Digits(n) + ("." + two))[i]
    {
      if i < |Digits(n)| {
        assert Digits(n)[i] in Digits(n);
      } else if i > |Digits(n)| {
        assert two[i - |Digits(n)| - 1] in two;
      }
    }
  }

  lemma TwoDigits(cents: nat)
    ensures AllDigits(Two(cents)) && 100 * (cents / 100) + Number(Two(cents)) == cents
  {
    var two := Two(cents);
    assert two[..1] == [Digit(cents / 10 % 10)] && two[..1][..0] == "";
    assert Number(two) == 10 * Number(two[..1]) + cents % 10;
    assert cents / 10 / 10 == cents / 100;
  }

  lemma {:induction false} TensGrow(m: nat, n: nat)
    requires m <= n
    ensures Tens(m) <= Tens(n)
  {
    if m < n {
      TensGrow(m, n - 1);
    }
  }

  lemma BelowPrecision()
    ensures MAX_AMOUNT < Tens(PRECISION)
  {
    assert Tens(7) == 10_000_000;
    assert Tens(14) == 10_000_000 * Tens(7);
    TensGrow(14, 28);
  }

  lemma CentsFrom(s: string, k: nat, decimals: string)
    requires Leading(s) == k && 0 < k < |s| && s[k] == '.' && s[k + 1..] == decimals
    requires decimals != "" && Leading(decimals) == |decimals|
    ensures IsNumber(s)
    ensures var unit := Tens(|decimals|);
      Cents(s) == 100 * Number(s[..k]) + (200 * Number(decimals) + unit) / (2 * unit)
  {
    hide Number, Leading, Tens;
  }

  lemma PartsOf(whole: string, decimals: string)
    requires AllDigits(whole) && AllDigits(decimals) && whole != "" && decimals != ""
    ensures var s, unit := whole + ("." + decimals), Tens(|decimals|);
      IsNumber(s) && Cents(s) == 100 * Number(whole) + (200 * Number(decimals) + unit) / (2 * unit)
  {
    var s, k := whole + ("." + decimals), |whole|;
    hide Number, Leading, Tens, AllDigits, IsNumber, Cents;
    LeadingDigits(whole, "." + decimals);
    LeadingDigits(decimals, "");
    assert decimals + "" == decimals && s[..k] == whole && s[k] == '.' && s[k + 1..] == decimals;
    CentsFrom(s, k, decimals);
  }

  lemma WholeCents(digits: string)
    requires AllDigits(digits) && digits != ""
    ensures IsNumber(digits) && Cents(digits) == 100 * Number(digits)
  {
    LeadingDigits(digits, "");
    assert digits + "" == digits && digits[..|digits|] == digits;
    assert Tens(0) == 1 && Number("") == 0;
    hide Leading, Number, Tens, AllDigits;
  }

  /** What it starts with are digits, and no digit follows. */
  lemma {:induction false} LeadingAre(s: string)
    ensures AllDigits(s[..Leading(s)]) && (Leading(s) < |s| ==> !IsDigit(s[Leading(s)]))
  {
    if s != "" && IsDigit(s[0]) {
      LeadingAre(s[1..]);
      assert s[..Leading(s)] == [s[0]] + s[1..][..Leading(s[1..])];
    }
  }

  ghost predicate IsDecimal(s: string, whole: string, decimals: string) {
    s == whole + ("." + decimals) && whole != "" && decimals != "" && AllDigits(whole) && AllDigits(decimals)
  }

  lemma NumberHasParts(s: string)
    requires IsNumber(s)
    ensures s != "" && (AllDigits(s) || exists whole, decimals :: IsDecimal(s, whole, decimals))
  {
    var n := Leading(s);
    LeadingAre(s);
    assert s[..|s|] == s;
    if n < |s| {
      var rest := s[n + 1..];
      LeadingAre(rest);
      assert rest[..|rest|] == rest;
      assert IsDecimal(s, s[..n], rest);
    }
    hide Leading, AllDigits;
  }

  /** A number is digits, or digits, a point and digits; nothing else is. */
  lemma NumbersAreDigits(s: string)
    ensures IsNumber(s) <==> (s != "" && AllDigits(s)) || exists whole, decimals :: IsDecimal(s, whole, decimals)
  {
    hide IsNumber, AllDigits, Leading;
    if IsNumber(s) {
      NumberHasParts(s);
    }
    if s != "" && AllDigits(s) {
      WholeCents(s);
    }
    forall whole, decimals | IsDecimal(s, whole, decimals)
      ensures IsNumber(s)
    {
      PartsOf(whole, decimals);
    }
  }

  lemma CentsOf(n: nat, two: string)
    requires |two| == 2 && AllDigits(two)
    ensures var s := Digits(n) + ("." + two); IsNumber(s) && Cents(s) == 100 * n + Number(two)
  {
    DigitsRead(n);
    PartsOf(Digits(n), two);
    assert Tens(2) == 100;
    hide Digits, Number, Tens, AllDigits, IsNumber, Cents;
    assert (200 * Number(two) + 100) / 200 == Number(two);
  }

  lemma TwoLong(cents: nat)
    ensures |Two(cents)| == 2
  {
  }

  lemma UngroupedIsRead(cents: nat, mark: Mark, value: string)
    requires cents <= MAX_AMOUNT
    requires Remove(value, Is(Marks(mark).0)) == Digits(cents / 100) + ([Marks(mark).1] + Two(cents))
    ensures ReadNumber(value, mark) == Amount(cents)
  {
    hide Digits, Number, Remove, Grouped, Tens, IsNumber, Cents, AllDigits, Is, Two, Replace;
    var n, two := cents / 100, Two(cents);
    TwoDigits(cents);
    TwoLong(cents);
    PointIsPoint(n, Marks(mark).1, two);
    CentsOf(n, two);
    BelowPrecision();
  }

  /** A number written out is read as itself. */
  lemma ReadsWritten(cents: nat, mark: Mark)
    requires cents <= MAX_AMOUNT
    ensures ReadNumber(Written(cents, mark), mark) == Amount(cents)
  {
    hide Remove, Digits, Two, Is, Written, ReadNumber;
    Ungrouped(cents, mark);
    UngroupedIsRead(cents, mark, Written(cents, mark));
  }

  lemma NumberGrows(a: string, b: string)
    requires b != ""
    ensures Number(a + b) - 10 * Number(a + b[..|b| - 1]) == Number(b) - 10 * Number(b[..|b| - 1])
  {
    assert (a + b)[..|a + b| - 1] == a + b[..|b| - 1];
  }

  lemma Shifted(number: int, unit: int)
    ensures number * (10 * unit) == 10 * (number * unit)
  {
  }

  lemma {:induction false} NumberAppends(a: string, b: string)
    requires AllDigits(b)
    ensures Number(a + b) == Number(a) * Tens(|b|) + Number(b)
  {
    if b == "" {
      assert a + b == a;
    } else {
      var n := |b| - 1;
      NumberAppends(a, b[..n]);
      NumberGrows(a, b);
      Shifted(Number(a), Tens(n));
      hide Number, AllDigits;
    }
  }

  /** The whole number nearest to a value of some units, halves going up. */
  predicate IsNearest(n: int, value: int, unit: int) {
    (2 * n - 1) * unit <= 2 * value < (2 * n + 1) * unit
  }

  lemma Nearest(whole: nat, part: nat, unit: nat)
    requires unit > 0
    ensures IsNearest(100 * whole + (200 * part + unit) / (2 * unit), 100 * (whole * unit + part), unit)
  {
    var q := (200 * part + unit) / (2 * unit);
    assert 2 * unit * q <= 200 * part + unit < 2 * unit * q + 2 * unit;
    assert (2 * (100 * whole + q) - 1) * unit == 200 * (whole * unit) + 2 * unit * q - unit;
    assert (2 * (100 * whole + q) + 1) * unit == 200 * (whole * unit) + 2 * unit * q + unit;
  }

  /** However many decimals it has, a number is read as the cent nearest to it, and half a cent as
      the next one up. */
  lemma ReadsNearestCent(whole: string, decimals: string)
    requires AllDigits(whole) && AllDigits(decimals) && whole != "" && decimals != ""
    ensures var s := whole + ("." + decimals);
      IsNumber(s) && IsNearest(Cents(s), 100 * Number(whole + decimals), Tens(|decimals|))
  {
    hide *;
    var unit := Tens(|decimals|);
    PartsOf(whole, decimals);
    NumberAppends(whole, decimals);
    Nearest(Number(whole), Number(decimals), unit);
  }

  // ---- The text around it ----

  /** What an amount is written with: digits, comma, point, sign and brackets. */
  predicate IsSimple(c: char) {
    IsDigit(c) || c == ',' || c == '.' || c == '-' || c == '+' || c == '(' || c == ')'
  }

  predicate Simple(s: string) {
    forall i :: 0 <= i < |s| ==> IsSimple(s[i])
  }

  lemma SimpleStays(c: char)
    requires IsSimple(c)
    ensures !IsCurrencySymbol(c) && !IsCapital(c) && !IsGrouping(c) && !IsSpace(c) && c != MINUS && c != ' '
  {
  }

  lemma KeepsOne(text: string, i: nat)
    requires i < |text| && (IsSimple(text[i]) || text[i] == ' ')
    ensures WithoutCurrency(text, i) == [text[i]] + WithoutCurrency(text, i + 1)
  {
    assert !IsCapital(text[i]) && !IsCurrencySymbol(text[i]);
    hide IsSimple, IsCurrencySymbol, IsCapital, IsWord;
  }

  lemma {:induction false} KeepsSimple(text: string, i: nat, n: nat)
    requires i <= n <= |text| && forall k :: i <= k < n ==> IsSimple(text[k])
    ensures WithoutCurrency(text, i) == text[i..n] + WithoutCurrency(text, n)
    decreases n - i
  {
    hide WithoutCurrency, IsSimple;
    if i == n {
      assert text[i..n] == "";
    } else {
      KeepsOne(text, i);
      KeepsSimple(text, i + 1, n);
      assert text[i..n] == [text[i]] + text[i + 1..n];
    }
  }

  lemma KeepsAll(text: string)
    requires Simple(text)
    ensures WithoutCurrency(text, 0) == text && WithoutCurrency(text + " ", 0) == text + " "
  {
    var n := |text|;
    hide IsSimple;
    KeepsSimple(text, 0, n);
    KeepsSimple(text + " ", 0, n);
    KeepsOne(text + " ", n);
    assert WithoutCurrency(text, n) == "" && WithoutCurrency(text + " ", n + 1) == "";
    assert text[0..n] == text && (text + " ")[0..n] == text;
  }

  lemma SpaceGoes(body: string)
    requires Simple(body)
    ensures Remove(body + " ", IsGrouping) == body
  {
    forall i | 0 <= i < |body|
      ensures !IsGrouping(body[i])
    {
      SimpleStays(body[i]);
    }
    RemoveNone(body, IsGrouping);
    RemoveAppends(body, " ", IsGrouping);
    RemoveOne(' ', IsGrouping);
  }

  /** Nothing goes from a simple text, and the space after one does. */
  lemma SimpleIsBare(text: string)
    requires Simple(text)
    ensures Bare(text) == Bare(text + " ") == text
    ensures Replace(text, MINUS, '-') == text
  {
    KeepsAll(text);
    SpaceGoes(text);
    forall i | 0 <= i < |text|
      ensures !IsGrouping(text[i]) && text[i] != MINUS
    {
      SimpleStays(text[i]);
    }
    RemoveNone(text, IsGrouping);
  }

  lemma WrittenIsSimple(cents: nat, mark: Mark)
    ensures var w := Written(cents, mark); Simple(w) && |w| >= 2 && IsDigit(w[0]) && IsDigit(w[|w| - 1])
  {
    GroupedIsDigits(cents / 100, Marks(mark).0);
    hide Grouped;
  }

  lemma CapitalStays(c: char)
    requires IsCapital(c)
    ensures !IsSpace(c) && !IsCurrencySymbol(c) && c != MINUS
  {
  }

  /** A text of simple characters before something said in letters. */
  lemma Followed(body: string, last: string)
    requires Simple(body) && body != "" && |last| >= 2 && forall c :: c in last ==> IsCapital(c)
    ensures var text := body + " " + last;
      Replace(Strip(text), MINUS, '-') == text && StripEnd(text, {'.', ' '}) == text
  {
    var text := body + " " + last;
    SimpleStays(body[0]);
    assert last[|last| - 1] in last && text[|text| - 1] == last[|last| - 1];
    hide IsSimple, IsSpace;
    assert IsSpace(text[|text| - 1]) == false by { CapitalStays(last[|last| - 1]); }
    assert Strip(text) == text;
    forall i | 0 <= i < |text|
      ensures text[i] != MINUS
    {
      if i < |body| {
        SimpleStays(body[i]);
      } else if i > |body| {
        assert text[i] == last[i - |body| - 1] && text[i] in last;
      }
    }
  }

  lemma SimpleAt(body: string, k: nat)
    requires k < |body| && Simple(body)
    ensures IsSimple(body[k])
  {
  }

  /** The code an amount ends with is all that goes, even when it ends in "CR" or "DR". */
  lemma CodeGoes(body: string, currency: string)
    requires Simple(body) && body != "" && ThreeCapitals(currency)
    ensures var (value, debit) := Directed(body + " " + currency); debit == None && Bare(value) == body
  {
    var text, n := body + " " + currency, |body| + 1;
    Followed(body, currency);
    assert text[n..] == currency && text[..|body|] == body;
    assert IsLetter(text[|text| - 3]);
    SimpleIsBare(body);
    hide IsSimple, Simple, IsSpace, Strip, StripEnd, Replace;
    assert Directed(text) == (text, None);
    forall k | 0 <= k < |body|
      ensures IsSimple(text[k])
    {
      assert text[k] == body[k];
      SimpleAt(body, k);
    }
    KeepsSimple(text, 0, |body|);
    CapitalStays(text[n]);
    assert IsCode(text, n);
    assert WithoutCurrency(text, n + 3) == "";
    assert WithoutCurrency(text, |body|) == " ";
    SpaceGoes(body);
  }

  /** The "CR" or "DR" after an amount goes, and says which way it went. */
  lemma SuffixGoes(w: string, suffix: string)
    requires Simple(w) && w != "" && (suffix == "CR" || suffix == "DR")
    ensures var (value, debit) := Directed(w + " " + suffix); debit == Some(suffix == "DR") && Bare(value) == w
  {
    var text := w + " " + suffix;
    Followed(w, suffix);
    assert text[..|text| - 2] == w + " ";
    SimpleIsBare(w);
    hide Bare, Simple, Strip, StripEnd, Replace;
  }

  lemma ReplaceNone(text: string, c: char, with: char)
    requires c !in text
    ensures Replace(text, c, with) == text
  {
  }

  lemma SymbolAlone(w: string, symbol: char)
    requires Simple(w) && w != "" && IsDigit(w[|w| - 1]) && IsCurrencySymbol(symbol)
    ensures Directed([symbol] + w) == ([symbol] + w, None)
  {
    var text := [symbol] + w;
    forall i | 0 <= i < |text|
      ensures text[i] != MINUS
    {
      if i > 0 { SimpleStays(w[i - 1]); }
    }
    ReplaceNone(text, MINUS, '-');
    assert Strip(text) == text;
  }

  lemma AfterSymbol(w: string, symbol: char)
    requires Simple(w) && IsCurrencySymbol(symbol)
    ensures WithoutCurrency([symbol] + w, 0) == w
  {
    var text := [symbol] + w;
    assert forall k :: 1 <= k < |text| ==> text[k] == w[k - 1];
    hide IsSimple, IsCurrencySymbol;
    KeepsSimple(text, 1, |text|);
    assert text[1..|text|] == w && WithoutCurrency(text, |text|) == "";
  }

  /** A currency's symbol in front goes. */
  lemma SymbolGoes(w: string, symbol: char)
    requires Simple(w) && w != "" && IsDigit(w[|w| - 1]) && IsCurrencySymbol(symbol)
    ensures Directed([symbol] + w) == ([symbol] + w, None) && Bare([symbol] + w) == w
  {
    SymbolAlone(w, symbol);
    AfterSymbol(w, symbol);
    SimpleIsBare(w);
    KeepsAll(w);
  }

  /** A simple text is the amount itself. */
  lemma AloneGoesNothing(text: string)
    requires Simple(text) && text != "" && text[|text| - 1] != '.'
    ensures Directed(text) == (text, None) && Bare(text) == text
  {
    SimpleIsBare(text);
    SimpleStays(text[0]);
    SimpleStays(text[|text| - 1]);
  }

  /** The sign and brackets around an amount. */
  lemma SignsGo(w: string, sign: char)
    requires |w| >= 2 && IsDigit(w[0]) && IsDigit(w[|w| - 1]) && (sign == '-' || sign == '+')
    ensures Unwrapped([sign] + w) == ([sign] + w, false) && Unwrapped(w + [sign]) == (w + [sign], false)
    ensures Unsigned([sign] + w) == Unsigned(w + [sign]) == (w, sign == '-')
  {
    assert ([sign] + w)[1..] == w && (w + [sign])[..|w|] == w;
  }

  lemma BracketsGo(w: string)
    requires |w| >= 2 && IsDigit(w[0]) && IsDigit(w[|w| - 1])
    ensures Unwrapped(w) == (w, false) && Unwrapped("(" + w + ")") == (w, true) && Unsigned(w) == (w, false)
  {
    assert ("(" + w + ")")[1..|w| + 1] == w;
  }

  // ---- Reading what was written ----

  /** How a text is read once its currency, spaces and signs are gone. */
  lemma ReadAs(text: string, mark: Mark, bare: string, w: string)
    requires Bare(Directed(text).0) == bare && Unsigned(Unwrapped(bare).0).0 == w
    ensures ParseAmount(text, mark) ==
      Negated(ReadNumber(w, mark), Directed(text).1 == Some(true) || Unwrapped(bare).1 || Unsigned(Unwrapped(bare).0).1)
  {
    hide Bare, Directed, Unsigned, Unwrapped, ReadNumber;
  }

  lemma NegatedAmount(cents: int)
    ensures Negated(Amount(cents), true) == Amount(-cents) && Negated(Amount(cents), false) == Amount(cents)
  {
  }

  predicate IsPlainAmount(w: string) {
    Simple(w) && |w| >= 2 && IsDigit(w[0]) && IsDigit(w[|w| - 1])
  }

  lemma BodyIsSigned(w: string, negative: bool)
    requires IsPlainAmount(w)
    ensures var body := if negative then "-" + w else w;
      Simple(body) && body != "" && Unwrapped(body) == (body, false) && Unsigned(body) == (w, negative)
  {
    assert "-" == ['-'];
    SignsGo(w, '-');
    BracketsGo(w);
  }

  lemma WrittenIsPlain(cents: nat, mark: Mark)
    ensures IsPlainAmount(Written(cents, mark))
  {
    hide Written;
    WrittenIsSimple(cents, mark);
  }

  /** Reading what is written gives it back, for every amount and every currency. */
  lemma WrittenIsRead(cents: int, currency: string, mark: Mark)
    requires -MAX_AMOUNT <= cents <= MAX_AMOUNT && ThreeCapitals(currency)
    ensures var body := if cents < 0 then "-" + Written(-cents, mark) else Written(cents, mark);
      ParseAmount(body + " " + currency, mark) == Amount(cents)
  {
    var negative := cents < 0;
    var size := if negative then -cents else cents;
    var w := Written(size, mark);
    var body := if negative then "-" + w else w;
    hide Written, ParseAmount, ReadNumber, Directed, Bare, Unwrapped, Unsigned, Simple, ThreeCapitals, IsPlainAmount;
    WrittenIsPlain(size, mark);
    BodyIsSigned(w, negative);
    CodeGoes(body, currency);
    ReadsWritten(size, mark);
    ReadAs(body + " " + currency, mark, body, w);
    NegatedAmount(size);
  }

  lemma ReadAlone(text: string, mark: Mark, w: string)
    requires Simple(text) && text != "" && text[|text| - 1] != '.' && Unsigned(Unwrapped(text).0).0 == w
    ensures ParseAmount(text, mark) == Negated(ReadNumber(w, mark), Unwrapped(text).1 || Unsigned(Unwrapped(text).0).1)
  {
    AloneGoesNothing(text);
    ReadAs(text, mark, text, w);
  }

  lemma SignedIsRead(w: string, sign: char, mark: Mark)
    requires IsPlainAmount(w) && (sign == '-' || sign == '+')
    ensures ParseAmount([sign] + w, mark) == ParseAmount(w + [sign], mark) == Negated(ReadNumber(w, mark), sign == '-')
  {
    SignsGo(w, sign);
    assert Simple([sign] + w) && Simple(w + [sign]);
    hide ParseAmount, ReadNumber, Unwrapped, Unsigned, Simple;
    ReadAlone([sign] + w, mark, w);
    ReadAlone(w + [sign], mark, w);
  }

  lemma BracketedIsRead(w: string, mark: Mark)
    requires IsPlainAmount(w)
    ensures ParseAmount("(" + w + ")", mark) == Negated(ReadNumber(w, mark), true)
  {
    BracketsGo(w);
    assert Simple("(" + w + ")");
    hide ParseAmount, ReadNumber, Unwrapped, Unsigned, Simple;
    ReadAlone("(" + w + ")", mark, w);
  }

  lemma SuffixedIsRead(w: string, suffix: string, mark: Mark)
    requires IsPlainAmount(w) && (suffix == "CR" || suffix == "DR")
    ensures ParseAmount(w + " " + suffix, mark) == Negated(ReadNumber(w, mark), suffix == "DR")
  {
    SuffixGoes(w, suffix);
    BracketsGo(w);
    ReadAs(w + " " + suffix, mark, w, w);
  }

  lemma SymbolIsRead(w: string, symbol: char, mark: Mark)
    requires IsPlainAmount(w) && IsCurrencySymbol(symbol)
    ensures ParseAmount([symbol] + w, mark) == Negated(ReadNumber(w, mark), false)
  {
    SymbolGoes(w, symbol);
    BracketsGo(w);
    hide ParseAmount, ReadNumber, Directed, Bare, Unwrapped, Unsigned, Simple, IsCurrencySymbol;
    ReadAs([symbol] + w, mark, w, w);
  }

  /** Every way of writing a sign, on every amount: a minus or plus on either side, brackets, "CR"
      and "DR"; and a currency's symbol in front. */
  lemma SignsAreRead(cents: int, mark: Mark, symbol: char)
    requires 0 <= cents <= MAX_AMOUNT
    requires symbol in {'$', '\U{20AC}', '\U{A3}', '\U{A5}', '\U{20B9}', '\U{20A9}', '\U{20BD}', '\U{A4}'}
    ensures var w := Written(cents, mark);
      && ParseAmount(['-'] + w, mark) == Amount(-cents) && ParseAmount(w + ['-'], mark) == Amount(-cents)
      && ParseAmount(['+'] + w, mark) == Amount(cents) && ParseAmount(w + ['+'], mark) == Amount(cents)
      && ParseAmount("(" + w + ")", mark) == Amount(-cents)
      && ParseAmount(w + " " + "DR", mark) == Amount(-cents) && ParseAmount(w + " " + "CR", mark) == Amount(cents)
      && ParseAmount([symbol] + w, mark) == Amount(cents)
  {
    assert IsCurrencySymbol(symbol);
    hide *;
    var w := Written(cents, mark);
    WrittenIsPlain(cents, mark);
    ReadsWritten(cents, mark);
    SignedIsRead(w, '-', mark);
    SignedIsRead(w, '+', mark);
    BracketedIsRead(w, mark);
    SuffixedIsRead(w, "DR", mark);
    SuffixedIsRead(w, "CR", mark);
    SymbolIsRead(w, symbol, mark);
    NegatedAmount(cents);
  }

  // ---- Other ways of grouping, and what isn't an amount ----

  lemma {:induction false} NoCurrency(text: string, i: nat)
    requires i <= |text| && forall k :: i <= k < |text| ==> !IsCurrencySymbol(text[k]) && !IsCode(text, k)
    ensures WithoutCurrency(text, i) == text[i..]
    decreases |text| - i
  {
    hide IsCurrencySymbol, IsCode;
    if i < |text| {
      NoCurrency(text, i + 1);
    }
  }

  /** A text that says nothing of a direction is all there is to read. */
  lemma SaysNothing(text: string)
    requires text != "" && !IsSpace(text[0]) && !IsSpace(text[|text| - 1]) && MINUS !in text
    requires text[|text| - 1] != '.' && Upper(text[|text| - 1]) != 'R'
    ensures Directed(text) == (text, None)
  {
    ReplaceNone(text, MINUS, '-');
    hide IsSpace;
  }

  lemma GroupedChars(cents: nat, g: char, point: char)
    requires !IsDigit(g)
    ensures var text := Plain(cents, g, point);
      && |text| >= 2 && IsDigit(text[0]) && IsDigit(text[|text| - 1])
      && forall k :: 0 <= k < |text| ==> IsDigit(text[k]) || text[k] == g || text[k] == point
  {
    GroupedIsDigits(cents / 100, g);
    hide Grouped;
  }

  lemma GroupedIsBare(cents: nat, g: char, mark: Mark)
    requires IsGrouping(g)
    ensures Remove(Plain(cents, g, Marks(mark).1), IsGrouping) == Digits(cents / 100) + ([Marks(mark).1] + Two(cents))
  {
    var n, two := cents / 100, Two(cents);
    assert AllDigits(two);
    hide Digits, Remove, Grouped, AllDigits, Two;
    UngroupedIsPlain(n, g, IsGrouping);
    RemoveAppends(Grouped(n, g), [Marks(mark).1] + two, IsGrouping);
    RemoveNone([Marks(mark).1] + two, IsGrouping) by { TwoLong(cents); }
  }

  lemma DigitsAndPoint(cents: nat, mark: Mark)
    ensures var w := Digits(cents / 100) + ([Marks(mark).1] + Two(cents));
      IsPlainAmount(w) && Remove(w, Is(Marks(mark).0)) == w
  {
    var w := Digits(cents / 100) + ([Marks(mark).1] + Two(cents));
    DigitsRead(cents / 100);
    forall k | 0 <= k < |w|
      ensures IsSimple(w[k]) && w[k] != Marks(mark).0
    {
      if k < |Digits(cents / 100)| {
        assert w[k] == Digits(cents / 100)[k];
        assert Digits(cents / 100)[k] in Digits(cents / 100);
      }
    }
    hide Digits;
    assert w[0] in Digits(cents / 100);
    RemoveNone(w, Is(Marks(mark).0));
  }

  /** Thousands can be apart by a space, a no-break space, a narrow or a thin one, or either apostrophe. */
  lemma SpacedIsRead(cents: nat, g: char, mark: Mark)
    requires cents <= MAX_AMOUNT && g in {' ', '\U{A0}', '\U{202F}', '\U{2009}', '\'', '\U{2019}'}
    ensures ParseAmount(Plain(cents, g, Marks(mark).1), mark) == Amount(cents)
  {
    var text, w := Plain(cents, g, Marks(mark).1), Digits(cents / 100) + ([Marks(mark).1] + Two(cents));
    GroupedChars(cents, g, Marks(mark).1);
    assert IsGrouping(g) && !IsCapital(g) && !IsCurrencySymbol(g) && g != MINUS;
    forall k | 0 <= k < |text|
      ensures !IsCurrencySymbol(text[k]) && !IsCapital(text[k])
    {
    }
    SaysNothing(text);
    NoCurrency(text, 0);
    assert text[0..] == text;
    GroupedIsBare(cents, g, mark);
    DigitsAndPoint(cents, mark);
    BracketsGo(w);
    UngroupedIsRead(cents, mark, w);
    hide Plain, Digits, Two, ReadNumber, Directed, Unwrapped, Unsigned, IsPlainAmount, Remove;
    ReadAs(text, mark, w, w);
    NegatedAmount(cents);
  }

  lemma {:induction false} RemoveKeeps(text: string, drop: char -> bool, c: char)
    requires c in text && !drop(c)
    ensures c in Remove(text, drop)
  {
    var n := |text| - 1;
    assert text == text[..n] + [text[n]];
    if text[n] != c {
      RemoveKeeps(text[..n], drop, c);
    }
  }

  lemma ReplaceKeeps(text: string, a: char, b: char, c: char)
    requires c in text && c != a
    ensures c in Replace(text, a, b)
  {
    var i :| 0 <= i < |text| && text[i] == c;
    assert Replace(text, a, b)[i] == c;
  }

  /** With anything but digits, commas and points in it, a text isn't a number. */
  lemma OtherCharacters(value: string, mark: Mark, c: char)
    requires c in value && !IsDigit(c) && c != ',' && c != '.'
    ensures ReadNumber(value, mark) == NotAnAmount
  {
    hide Remove, Replace, IsNumber, Cents, Tens;
    var grouping := if mark == Point then ',' else '.';
    RemoveKeeps(value, Is(grouping), c);
    var bare := Remove(value, Is(grouping));
    ReplaceKeeps(bare, ',', '.', c);
    NumbersAreDigits(Replace(bare, ',', '.'));
  }

  lemma NotAnAmountEither(negative: bool)
    ensures Negated(NotAnAmount, negative) == NotAnAmount
  {
  }

  /** A bracket on one side only makes it no amount. */
  lemma LoneBracketIsNotRead(cents: nat, mark: Mark)
    ensures var w := Written(cents, mark);
      ParseAmount("(" + w, mark) == NotAnAmount && ParseAmount(w + ")", mark) == NotAnAmount
  {
    var w := Written(cents, mark);
    WrittenIsPlain(cents, mark);
    hide Written, ParseAmount, ReadNumber;
    var left, right := "(" + w, w + ")";
    assert '(' in left && ')' in right;
    assert Simple(left) && Simple(right);
    assert left[|left| - 1] == w[|w| - 1] && right[0] == w[0];
    assert Unwrapped(left) == (left, false) && Unsigned(left) == (left, false);
    assert Unwrapped(right) == (right, false) && Unsigned(right) == (right, false);
    OtherCharacters(left, mark, '(');
    OtherCharacters(right, mark, ')');
    hide Unwrapped, Unsigned, Simple, IsSimple;
    ReadAlone(left, mark, left);
    ReadAlone(right, mark, right);
    NotAnAmountEither(false);
  }

  /** A text starting with a digit and with a letter in it, once what goes has gone, isn't an amount. */
  lemma LettersAreNotRead(text: string, mark: Mark, bare: string, c: char)
    requires Bare(Directed(text).0) == bare && bare != "" && c in bare && IsLetter(c)
    requires bare[0] != '(' && bare[0] != '-' && bare[0] != '+'
    requires bare[|bare| - 1] != '-' && bare[|bare| - 1] != '+'
    ensures ParseAmount(text, mark) == NotAnAmount
  {
    assert Unwrapped(bare) == (bare, false) && Unsigned(bare) == (bare, false);
    OtherCharacters(bare, mark, c);
    hide Bare, Directed, Unwrapped, Unsigned, ReadNumber;
    ReadAs(text, mark, bare, bare);
    NotAnAmountEither(Directed(text).1 == Some(true));
  }

  /** Two letters after something that doesn't end in one, and a point or nothing after them. */
  lemma SuffixDirection(value: string, a: char, b: char, tail: string)
    requires value != "" && !IsLetter(value[|value| - 1]) && IsLetter(a) && IsLetter(b) && tail in {"", "."}
    ensures var text := value + [a, b] + tail;
      Direction(text) ==
        if a in {'C', 'c', 'D', 'd'} && b in {'R', 'r'} then (value, Some(a in {'D', 'd'})) else (text, None)
  {
    var text, trimmed := value + [a, b] + tail, value + [a, b];
    assert value + [a, b] + "" == trimmed;
    assert tail == "." ==> text[..|text| - 1] == trimmed;
    assert StripEnd(trimmed, {'.', ' '}) == trimmed;
    assert StripEnd(text, {'.', ' '}) == trimmed;
    assert trimmed[..|value|] == value;
    hide StripEnd;
  }

  lemma IsAsItStands(text: string)
    requires text != "" && !IsSpace(text[0]) && !IsSpace(text[|text| - 1]) && MINUS !in text
    ensures Directed(text) == Direction(text)
  {
    ReplaceNone(text, MINUS, '-');
    hide IsSpace, Direction;
  }

  lemma NoMinusIn(w: string)
    requires Simple(w)
    ensures MINUS !in w
  {
    hide IsSimple;
    forall k | 0 <= k < |w|
      ensures w[k] != MINUS
    {
      SimpleStays(w[k]);
    }
  }

  lemma LettersStay(c: char)
    requires IsLetter(c)
    ensures !IsSpace(c) && !IsCurrencySymbol(c) && !IsGrouping(c) && !IsDigit(c) && c != MINUS
  {
  }

  lemma LettersAfter(w: string, gap: string, a: char, b: char, tail: string)
    requires IsPlainAmount(w) && gap in {"", " "} && IsLetter(a) && IsLetter(b) && tail in {"", "."}
    ensures Directed(w + gap + [a, b] + tail) == Direction(w + gap + [a, b] + tail)
  {
    var text := w + gap + [a, b] + tail;
    NoMinusIn(w);
    LettersStay(a);
    LettersStay(b);
    SimpleStays(w[0]);
    assert !IsSpace('.') && '.' != MINUS && ' ' != MINUS;
    assert text[0] == w[0] && text[|text| - 1] in {b, '.'};
    assert MINUS !in gap && MINUS !in tail && MINUS !in [a, b];
    hide IsSpace, IsSimple, Direction, Directed;
    IsAsItStands(text);
  }

  /** "CR" and "DR" in capitals or not, after a space or right after the amount, with a point or not. */
  lemma SuffixesAreRead(cents: int, mark: Mark, gap: string, a: char, b: char, tail: string)
    requires 0 <= cents <= MAX_AMOUNT && gap in {"", " "} && tail in {"", "."}
    requires a in {'C', 'c', 'D', 'd'} && b in {'R', 'r'}
    ensures ParseAmount(Written(cents, mark) + gap + [a, b] + tail, mark) ==
        Amount(if a in {'D', 'd'} then -cents else cents)
  {
    var w := Written(cents, mark);
    WrittenIsPlain(cents, mark);
    ReadsWritten(cents, mark);
    LettersAfter(w, gap, a, b, tail);
    assert IsLetter(a) && IsLetter(b) && !IsLetter((w + gap)[|w + gap| - 1]);
    SuffixDirection(w + gap, a, b, tail);
    SimpleIsBare(w);
    assert w + "" == w;
    BracketsGo(w);
    hide Written, ReadNumber, Bare, Directed, Direction, Unwrapped, Unsigned, IsPlainAmount;
    ReadAs(w + gap + [a, b] + tail, mark, w, w);
    NegatedAmount(cents);
  }

  lemma SpaceBetweenGoes(w: string, last: string)
    requires Simple(w) && forall c :: c in last ==> IsLetter(c)
    ensures Remove(w + " " + last, IsGrouping) == w + last
  {
    SpaceGoes(w);
    RemoveAppends(w + " ", last, IsGrouping);
    forall k | 0 <= k < |last|
      ensures !IsGrouping(last[k])
    {
      assert last[k] in last;
      LettersStay(last[k]);
    }
    RemoveNone(last, IsGrouping);
  }

  lemma NoCodeAtTheEnd(w: string, a: char, b: char)
    requires IsPlainAmount(w) && IsLetter(a) && IsLetter(b)
    ensures WithoutCurrency(w + " " + [a, b], 0) == w + " " + [a, b]
  {
    var text := w + " " + [a, b];
    forall k | 0 <= k < |text|
      ensures !IsCurrencySymbol(text[k]) && !IsCode(text, k)
    {
      if k < |w| {
        SimpleStays(w[k]);
      } else if k > |w| {
        LettersStay(text[k]);
      }
    }
    NoCurrency(text, 0);
    assert text[0..] == text;
  }

  /** Any other two letters after an amount make it none. */
  lemma OtherLettersAreNotRead(cents: nat, mark: Mark, a: char, b: char)
    requires IsLetter(a) && IsLetter(b) && !(a in {'C', 'c', 'D', 'd'} && b in {'R', 'r'})
    ensures ParseAmount(Written(cents, mark) + " " + [a, b], mark) == NotAnAmount
  {
    var w := Written(cents, mark);
    var text := w + " " + [a, b];
    WrittenIsPlain(cents, mark);
    LettersAfter(w, " ", a, b, "");
    assert text + "" == text;
    SuffixDirection(w + " ", a, b, "");
    NoCodeAtTheEnd(w, a, b);
    SpaceBetweenGoes(w, [a, b]);
    assert b in w + [a, b];
    hide Written, Directed, Direction, WithoutCurrency;
    LettersAreNotRead(text, mark, w + [a, b], b);
  }

  lemma CodeChars(currency: string)
    requires ThreeCapitals(currency)
    ensures forall c :: c in currency ==>
      IsCapital(c) && IsLetter(c) && !IsSpace(c) && !IsCurrencySymbol(c) && !IsGrouping(c) && c != MINUS
  {
    forall c | c in currency
      ensures IsCapital(c) && IsLetter(c) && !IsSpace(c) && !IsCurrencySymbol(c) && !IsGrouping(c) && c != MINUS
    {
      CapitalStays(c);
      LettersStay(c);
    }
  }

  lemma AttachedAfter(w: string, currency: string)
    requires IsPlainAmount(w) && ThreeCapitals(currency)
    ensures Directed(w + currency) == (w + currency, None) && Bare(w + currency) == w + currency
  {
    var text := w + currency;
    NoMinusIn(w);
    CodeChars(currency);
    SimpleStays(w[0]);
    assert text[|text| - 1] == currency[2] && currency[2] in currency && currency[0] in currency;
    assert text[|text| - 3] == currency[0];
    forall k | 0 <= k < |text|
      ensures !IsCurrencySymbol(text[k]) && !IsCode(text, k) && !IsGrouping(text[k])
    {
      if k < |w| {
        SimpleStays(w[k]);
      } else {
        assert text[k] == currency[k - |w|] && text[k] in currency;
      }
    }
    hide IsSpace, IsSimple, IsCurrencySymbol, IsGrouping;
    IsAsItStands(text);
    assert Direction(text) == (text, None);
    NoCurrency(text, 0);
    assert text[0..] == text;
    RemoveNone(text, IsGrouping);
  }

  lemma AttachedBefore(w: string, currency: string)
    requires IsPlainAmount(w) && ThreeCapitals(currency)
    ensures Directed(currency + w) == (currency + w, None) && Bare(currency + w) == currency + w
  {
    var text := currency + w;
    NoMinusIn(w);
    CodeChars(currency);
    SimpleStays(w[|w| - 1]);
    assert text[0] == currency[0] && currency[0] in currency && text[|text| - 1] == w[|w| - 1] && text[3] == w[0];
    forall k | 0 <= k < |text|
      ensures !IsCurrencySymbol(text[k]) && !IsCode(text, k) && !IsGrouping(text[k])
    {
      if k >= 3 {
        SimpleStays(w[k - 3]);
      } else {
        assert text[k] == currency[k] && text[k] in currency;
      }
    }
    hide IsSpace, IsSimple, IsCurrencySymbol, IsGrouping, IsCode;
    SaysNothing(text);
    NoCurrency(text, 0);
    assert text[0..] == text;
    RemoveNone(text, IsGrouping);
  }

  /** A code is one on its own only: right next to the digits it makes the text no amount. */
  lemma AttachedCodeIsNotRead(cents: nat, mark: Mark, currency: string)
    requires ThreeCapitals(currency)
    ensures ParseAmount(Written(cents, mark) + currency, mark) == NotAnAmount
    ensures ParseAmount(currency + Written(cents, mark), mark) == NotAnAmount
  {
    var w := Written(cents, mark);
    WrittenIsPlain(cents, mark);
    CodeChars(currency);
    AttachedAfter(w, currency);
    AttachedBefore(w, currency);
    assert currency[0] in w + currency && currency[0] in currency + w && currency[2] in currency;
    assert currency[0] in currency && (w + currency)[|w| + 2] == currency[2];
    hide Written, Directed, Bare, IsSimple, ParseAmount;
    LettersAreNotRead(w + currency, mark, w + currency, currency[0]);
    LettersAreNotRead(currency + w, mark, currency + w, currency[0]);
  }

  lemma WordAfter(w: string, code: string)
    requires IsPlainAmount(w) && |code| == 3 && forall k :: 0 <= k < 3 ==> IsLetter(code[k])
    requires exists k :: 0 <= k < 3 && 'a' <= code[k] <= 'z'
    ensures Directed(w + " " + code) == (w + " " + code, None) && Bare(w + " " + code) == w + code
  {
    var text := w + " " + code;
    NoMinusIn(w);
    SimpleStays(w[0]);
    assert text[|text| - 1] == code[2] && code[2] in code && code[0] in code && code[1] in code;
    assert text[|text| - 3] == code[0] && text[|text| - 2] == code[1];
    forall k | 0 <= k < |text|
      ensures !IsCurrencySymbol(text[k]) && !IsCode(text, k) && text[k] != MINUS
    {
      if k < |w| {
        SimpleStays(w[k]);
      } else if k > |w| {
        assert text[k] == code[k - |w| - 1] && text[k] in code;
        LettersStay(text[k]);
      }
    }
    LettersStay(code[2]);
    hide IsSpace, IsSimple, IsCurrencySymbol, IsGrouping, IsCode;
    IsAsItStands(text);
    assert Direction(text) == (text, None);
    NoCurrency(text, 0);
    assert text[0..] == text;
    SpaceBetweenGoes(w, code);
  }

  /** Nor are three letters that aren't all capitals one. */
  lemma SmallLettersAreNotRead(cents: nat, mark: Mark, code: string)
    requires |code| == 3 && forall k :: 0 <= k < 3 ==> IsLetter(code[k])
    requires exists k :: 0 <= k < 3 && 'a' <= code[k] <= 'z'
    ensures ParseAmount(Written(cents, mark) + " " + code, mark) == NotAnAmount
  {
    var w := Written(cents, mark);
    WrittenIsPlain(cents, mark);
    WordAfter(w, code);
    assert (w + code)[|w| + 2] == code[2] && IsLetter(code[2]) && code[2] in w + code;
    hide Written, Directed, Bare, IsSimple, ParseAmount;
    LettersAreNotRead(w + " " + code, mark, w + code, code[2]);
  }

  lemma LongWordAfter(w: string, word: string)
    requires IsPlainAmount(w) && |word| > 3 && forall k :: 0 <= k < |word| ==> IsCapital(word[k])
    ensures Directed(w + " " + word) == (w + " " + word, None) && Bare(w + " " + word) == w + word
  {
    var text, n := w + " " + word, |word|;
    NoMinusIn(w);
    SimpleStays(w[0]);
    assert text[|text| - 1] == word[n - 1] && text[|text| - 2] == word[n - 2] && text[|text| - 3] == word[n - 3];
    forall k | 0 <= k < |text|
      ensures !IsCurrencySymbol(text[k]) && !IsCode(text, k) && text[k] != MINUS
    {
      if k < |w| {
        SimpleStays(w[k]);
      } else if k > |w| {
        assert text[k] == word[k - |w| - 1];
        LettersStay(text[k]);
        if k + 3 < |text| {
          assert text[k + 3] == word[k - |w| + 2];
        } else {
          assert text[k - 1] == word[k - |w| - 2];
        }
      }
    }
    LettersStay(word[n - 1]);
    assert IsLetter(word[n - 3]) && IsLetter(word[n - 2]) && IsLetter(word[n - 1]);
    hide IsSpace, IsSimple, IsCurrencySymbol, IsGrouping, IsCode;
    IsAsItStands(text);
    assert Direction(text) == (text, None);
    NoCurrency(text, 0);
    assert text[0..] == text;
    SpaceBetweenGoes(w, word);
  }

  /** Nor is a longer word, not even one of two codes. */
  lemma LongWordIsNotRead(cents: nat, mark: Mark, word: string)
    requires |word| > 3 && forall k :: 0 <= k < |word| ==> IsCapital(word[k])
    ensures ParseAmount(Written(cents, mark) + " " + word, mark) == NotAnAmount
  {
    var w, n := Written(cents, mark), |word|;
    WrittenIsPlain(cents, mark);
    LongWordAfter(w, word);
    assert (w + word)[|w| + n - 1] == word[n - 1] && IsLetter(word[n - 1]) && word[n - 1] in w + word;
    hide Written, Directed, Bare, IsSimple, ParseAmount;
    LettersAreNotRead(w + " " + word, mark, w + word, word[n - 1]);
  }

  lemma CodeInFront(w: string, currency: string)
    requires IsPlainAmount(w) && ThreeCapitals(currency)
    ensures var text := currency + " " + w;
      && IsCode(text, 0) && !IsCurrencySymbol(text[0]) && MINUS !in text
      && !IsSpace(text[0]) && !IsSpace(text[|text| - 1]) && IsDigit(text[|text| - 1])
      && forall k :: 3 <= k < |text| ==> !IsCurrencySymbol(text[k]) && !IsCode(text, k)
  {
    var text := currency + " " + w;
    NoMinusIn(w);
    CodeChars(currency);
    SimpleStays(w[|w| - 1]);
    assert text[0] == currency[0] && currency[0] in currency && text[|text| - 1] == w[|w| - 1] && text[3] == ' ';
    assert MINUS !in " ";
    forall k | 3 <= k < |text|
      ensures !IsCurrencySymbol(text[k]) && !IsCode(text, k)
    {
      if k > 3 {
        SimpleStays(w[k - 4]);
      }
    }
  }

  lemma CodeInFrontGoes(w: string, currency: string)
    requires IsPlainAmount(w) && ThreeCapitals(currency)
    ensures Directed(currency + " " + w) == (currency + " " + w, None) && Bare(currency + " " + w) == w
  {
    var text := currency + " " + w;
    CodeInFront(w, currency);
    SimpleIsBare(w);
    hide IsSpace, IsSimple, IsCurrencySymbol, IsCode, IsCapital, IsGrouping, StripEnd, Strip, Replace;
    SaysNothing(text);
    NoCurrency(text, 3);
    assert text[3..] == " " + w;
    RemoveAppends(" ", w, IsGrouping);
    RemoveOne(' ', IsGrouping);
    KeepsAll(w);
  }

  /** In front of the amount, with a space between them, it goes. */
  lemma CodeInFrontIsRead(cents: nat, mark: Mark, currency: string)
    requires cents <= MAX_AMOUNT && ThreeCapitals(currency)
    ensures ParseAmount(currency + " " + Written(cents, mark), mark) == Amount(cents)
  {
    var w := Written(cents, mark);
    WrittenIsPlain(cents, mark);
    ReadsWritten(cents, mark);
    CodeInFrontGoes(w, currency);
    BracketsGo(w);
    hide Written, ReadNumber, Bare, Directed, Unwrapped, Unsigned, IsPlainAmount;
    ReadAs(currency + " " + w, mark, w, w);
    NegatedAmount(cents);
  }

  lemma SameAsHyphen(text: string, with: string)
    requires text != "" && with != "" && !IsSpace(text[0]) && !IsSpace(text[|text| - 1])
    requires !IsSpace(with[0]) && !IsSpace(with[|with| - 1]) && Replace(text, MINUS, '-') == with && MINUS !in with
    ensures forall mark :: ParseAmount(text, mark) == ParseAmount(with, mark)
  {
    ReplaceNone(with, MINUS, '-');
    hide IsSpace, Direction, Bare, Unwrapped, Unsigned, ReadNumber;
  }

  lemma HyphenFor(w: string, mark: Mark)
    requires IsPlainAmount(w)
    ensures ParseAmount("\U{2212}" + w, mark) == ParseAmount(['-'] + w, mark)
    ensures ParseAmount(w + "\U{2212}", mark) == ParseAmount(w + ['-'], mark)
  {
    NoMinusIn(w);
    SimpleStays(w[0]);
    SimpleStays(w[|w| - 1]);
    assert !IsSpace('\U{2212}') && !IsSpace('-');
    hide IsSpace, IsSimple, ParseAmount;
    assert MINUS == '\U{2212}';
    SameAsHyphen("\U{2212}" + w, ['-'] + w);
    SameAsHyphen(w + "\U{2212}", w + ['-']);
  }

  /** A true minus sign is read as a hyphen is, before the amount or after it. */
  lemma MinusSignIsRead(cents: int, mark: Mark)
    requires 0 <= cents <= MAX_AMOUNT
    ensures ParseAmount("\U{2212}" + Written(cents, mark), mark) == Amount(-cents)
    ensures ParseAmount(Written(cents, mark) + "\U{2212}", mark) == Amount(-cents)
  {
    hide Written, ParseAmount, IsPlainAmount;
    WrittenIsPlain(cents, mark);
    HyphenFor(Written(cents, mark), mark);
    SignsAreRead(cents, mark, '$');
  }

  /** All white space there is, one by one. */
  const WHITE_SPACE: set<char> := {
    '\t', '\n', '\U{B}', '\U{C}', '\r', '\U{1C}', '\U{1D}', '\U{1E}', '\U{1F}', ' ', '\U{85}', '\U{A0}', '\U{1680}',
    '\U{2000}', '\U{2001}', '\U{2002}', '\U{2003}', '\U{2004}', '\U{2005}', '\U{2006}', '\U{2007}', '\U{2008}',
    '\U{2009}', '\U{200A}', '\U{2028}', '\U{2029}', '\U{202F}', '\U{205F}', '\U{3000}'
  }

  lemma {:induction false} SpaceAfterGoes(text: string, c: char)
    requires IsSpace(c)
    ensures Strip(text + [c]) == Strip(text)
  {
    hide IsSpace;
    if text == "" {
      assert Strip([c]) == Strip([c][1..]);
    } else if IsSpace(text[0]) {
      assert (text + [c])[1..] == text[1..] + [c];
      SpaceAfterGoes(text[1..], c);
    } else {
      assert (text + [c])[..|text|] == text;
    }
  }

  lemma WhiteSpaceIsSpace(c: char)
    ensures IsSpace(c) <==> c in WHITE_SPACE
  {
  }

  /** White space around a text is none of it. */
  lemma {:induction false} SpaceAroundIsIgnored(before: string, text: string, after: string, mark: Mark)
    requires forall c :: c in before + after ==> c in WHITE_SPACE
    ensures ParseAmount(before + text + after, mark) == ParseAmount(text, mark)
    decreases |before| + |after|
  {
    hide IsSpace, Direction, Bare, Unwrapped, Unsigned, ReadNumber;
    var all := before + text + after;
    if after != "" {
      var n := |after| - 1;
      assert after[n] in before + after && all == (before + text + after[..n]) + [after[n]];
      WhiteSpaceIsSpace(after[n]);
      SpaceAfterGoes(before + text + after[..n], after[n]);
      SpaceAroundIsIgnored(before, text, after[..n], mark);
    } else if before != "" {
      assert before[0] in before + after && all[1..] == before[1..] + text + after && all[0] == before[0];
      WhiteSpaceIsSpace(before[0]);
      assert Strip(all) == Strip(all[1..]);
      SpaceAroundIsIgnored(before[1..], text, after, mark);
    } else {
      assert all == text;
    }
  }

  // ---- Numbers too long to round ----

  lemma DigitsStay(digits: string)
    requires AllDigits(digits)
    ensures Replace(digits, ',', '.') == digits
  {
    forall i | 0 <= i < |digits|
      ensures digits[i] != ','
    {
      assert digits[i] in digits;
    }
  }

  lemma TensOf(n: nat)
    requires n >= 2
    ensures Tens(n) == 100 * Tens(n - 2)
  {
  }

  /** What becomes of a whole number: its cents, none over the limit, and an error from 10^26 on. */
  function ReadWhole(n: nat): Read {
    if n >= Tens(26) then Fails else if n >= 1_000_000_000_000 then NotAnAmount else Amount(100 * n)
  }

  lemma TwentySixDigits()
    ensures Tens(26) == 100_000_000_000_000_000_000_000_000
  {
    assert Tens(7) == 10_000_000;
    assert Tens(14) == 10_000_000 * Tens(7);
    assert Tens(21) == 10_000_000 * Tens(14);
  }

  lemma WholeNumber(digits: string, mark: Mark)
    requires AllDigits(digits) && digits != ""
    ensures ReadNumber(digits, mark) == ReadWhole(Number(digits))
  {
    hide Number, Tens, AllDigits, Remove, Replace, IsNumber, Cents, Is;
    NoMark(digits, if mark == Point then ',' else '.');
    DigitsStay(digits);
    WholeCents(digits);
    TensOf(PRECISION);
  }

  lemma DigitsAreSimple(digits: string)
    requires AllDigits(digits) && digits != ""
    ensures Simple(digits) && IsDigit(digits[0]) && IsDigit(digits[|digits| - 1])
    ensures Unwrapped(digits) == (digits, false) && Unsigned(digits) == (digits, false)
  {
    forall i | 0 <= i < |digits|
      ensures IsDigit(digits[i])
    {
      assert digits[i] in digits;
    }
  }

  lemma NotNegated(read: Read)
    ensures Negated(read, false) == read
  {
  }

  /** Every text of digits is read by the number it is. One of 10^26 or more is an error rather than
      no amount: rounded to the cent, it has more digits than the reader's precision. */
  lemma WholeNumbersAreRead(digits: string, mark: Mark)
    requires AllDigits(digits) && digits != ""
    ensures ParseAmount(digits, mark) == ReadWhole(Number(digits))
  {
    DigitsAreSimple(digits);
    WholeNumber(digits, mark);
    assert digits[|digits| - 1] != '.';
    hide ParseAmount, ReadNumber, Unwrapped, Unsigned, Simple, ReadWhole, AllDigits;
    ReadAlone(digits, mark, digits);
    NotNegated(ReadWhole(Number(digits)));
  }

  /** The least number that is an error, and the greatest that is none. */
  lemma LongestNumber(mark: Mark)
    ensures Tens(26) == 100_000_000_000_000_000_000_000_000
    ensures ParseAmount(Digits(Tens(26)), mark) == Fails
    ensures ParseAmount(Digits(Tens(26) - 1), mark) == NotAnAmount
  {
    TwentySixDigits();
    hide Digits, Tens, ParseAmount, Number, AllDigits;
    DigitsRead(Tens(26));
    DigitsRead(Tens(26) - 1);
    WholeNumbersAreRead(Digits(Tens(26)), mark);
    WholeNumbersAreRead(Digits(Tens(26) - 1), mark);
  }

  lemma SwapsDigits(s: string)
    requires AllDigits(s)
    ensures Swapped(s) == s
  {
    assert forall i :: 0 <= i < |s| ==> s[i] in s;
  }

  lemma {:induction false} GroupedSwaps(n: nat)
    ensures Swapped(Grouped(n, ',')) == Grouped(n, '.')
  {
    if n < 1000 {
      DigitsRead(n);
      SwapsDigits(Digits(n));
    } else {
      GroupedSwaps(n / 1000);
    }
  }

  /** Parsing undoes formatting, and with comma and point swapped it does with a decimal comma. */
  lemma ParsingUndoesFormatting(cents: int, currency: string)
    requires -MAX_AMOUNT <= cents <= MAX_AMOUNT && ThreeCapitals(currency)
    ensures ParseAmount(Format(cents, currency), Point) == Amount(cents)
    ensures ParseAmount(Swapped(Format(cents, currency)), Comma) == Amount(cents)
  {
    hide ParseAmount;
    WrittenIsRead(cents, currency, Point);
    WrittenIsRead(cents, currency, Comma);
    var size := if cents < 0 then -cents else cents;
    GroupedSwaps(size / 100);
    assert Swapped(Written(size, Point)) == Written(size, Comma);
    assert Swapped(currency) == currency;
    var comma := if cents < 0 then "-" + Written(size, Comma) else Written(size, Comma);
    assert Swapped(Format(cents, currency)) == comma + " " + currency;
  }
}
