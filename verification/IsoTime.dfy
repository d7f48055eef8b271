/** Timestamps as the signed document renders them. */
module IsoTime {
  import opened Options

  // A wall-clock reading with the minutes its zone is ahead of UTC, `None` for a naive one.
  datatype Time = Time(year: nat, month: nat, day: nat, hour: nat, minute: nat, second: nat, micro: nat,
                       offset: Option<int>)

  predicate Leap(year: nat) { year % 4 == 0 && (year % 100 != 0 || year % 400 == 0) }

  function DaysIn(year: nat, month: nat): nat {
    if month == 2 then if Leap(year) then 29 else 28
    else if month in {4, 6, 9, 11} then 30
    else 31
  }

  predicate Valid(t: Time) {
    && 1 <= t.year <= 9999 && 1 <= t.month <= 12 && 1 <= t.day <= DaysIn(t.year, t.month)
    && t.hour < 24 && t.minute < 60 && t.second < 60 && t.micro < 1000000
    && (t.offset.Some? ==> -1440 < t.offset.value < 1440)
  }

  function OffsetOf(t: Time): int { if t.offset.Some? then t.offset.value else 0 }

  function Digits(n: nat, width: nat): (r: string)
    ensures |r| == width
  {
    if width == 0 then "" else Digits(n / 10, width - 1) + [(n % 10 + 0x30) as char]
  }

  function Limit(width: nat): nat { if width == 0 then 1 else 10 * Limit(width - 1) }

  lemma {:induction false} DigitsInjective(n: nat, m: nat, width: nat)
    requires n < Limit(width) && m < Limit(width) && Digits(n, width) == Digits(m, width)
    ensures n == m
  {
    if width > 0 {
      var p, q := Digits(n, width), Digits(m, width);
      assert p[width - 1] == (n % 10 + 0x30) as char && q[width - 1] == (m % 10 + 0x30) as char;
      assert p[..width - 1] == Digits(n / 10, width - 1) && q[..width - 1] == Digits(m / 10, width - 1);
      DigitsInjective(n / 10, m / 10, width - 1);
    }
  }

  // A number in fixed width, then a separator.
  datatype Field = Field(n: nat, width: nat, sep: string)

  predicate Fits(f: Field) { f.n < Limit(f.width) }

  function Render(fs: seq<Field>): string {
    if fs == [] then "" else Digits(fs[0].n, fs[0].width) + (fs[0].sep + Render(fs[1..]))
  }

  lemma {:induction false} RenderInjective(fs: seq<Field>, gs: seq<Field>)
    requires |fs| == |gs| && Render(fs) == Render(gs)
    requires forall i :: 0 <= i < |fs| ==>
             fs[i].width == gs[i].width && |fs[i].sep| == |gs[i].sep| && Fits(fs[i]) && Fits(gs[i])
    ensures fs == gs
  {
    if fs != [] {
      var u, w := Render(fs), fs[0].width;
      var v := u[w..];
      assert u[..w] == Digits(fs[0].n, w) && u[..w] == Digits(gs[0].n, w);
      assert v == fs[0].sep + Render(fs[1..]) && v == gs[0].sep + Render(gs[1..]);
      assert v[..|fs[0].sep|] == fs[0].sep && v[..|fs[0].sep|] == gs[0].sep;
      assert v[|fs[0].sep|..] == Render(fs[1..]) && v[|fs[0].sep|..] == Render(gs[1..]);
      DigitsInjective(fs[0].n, gs[0].n, w);
      RenderInjective(fs[1..], gs[1..]);
    }
  }

  // `isoformat(timespec="microseconds")`: the wall clock, then the zone's own offset. A naive
  // time is given the offset +00:00; an aware one keeps its zone and is not converted to UTC.
  function Fields(t: Time): seq<Field> {
    var o := OffsetOf(t);
    var a := if o < 0 then -o else o;
    [Field(t.year, 4, "-"), Field(t.month, 2, "-"), Field(t.day, 2, "T"),
     Field(t.hour, 2, ":"), Field(t.minute, 2, ":"), Field(t.second, 2, "."),
     Field(t.micro, 6, if o < 0 then "-" else "+"), Field(a / 60, 2, ":"), Field(a % 60, 2, "")]
  }

  function IsoUtc(t: Time): string { Render(Fields(t)) }

  // Same clock face and same offset, a naive time counting as offset zero.
  predicate SameReading(a: Time, b: Time) {
    a.(offset := None) == b.(offset := None) && OffsetOf(a) == OffsetOf(b)
  }

  lemma FieldsFit(t: Time)
    requires Valid(t)
    ensures forall f :: f in Fields(t) ==> Fits(f)
  {
    assert Limit(2) == 10 * Limit(1) && Limit(4) == 100 * Limit(2) && Limit(6) == 100 * Limit(4) && Limit(1) == 10;
  }

  lemma FieldsTell(a: Time, b: Time)
    requires Fields(a) == Fields(b)
    ensures SameReading(a, b)
  {
    var f, g := Fields(a), Fields(b);
    assert f[0] == g[0] && f[1] == g[1] && f[2] == g[2] && f[3] == g[3] && f[4] == g[4];
    assert f[5] == g[5] && f[6] == g[6] && f[7] == g[7] && f[8] == g[8];
    SignAndSize(OffsetOf(a), OffsetOf(b));
  }

  lemma SignAndSize(o: int, p: int)
    ensures var x, y := if o < 0 then -o else o, if p < 0 then -p else p;
            x / 60 == y / 60 && x % 60 == y % 60 && (if o < 0 then "-" else "+") == (if p < 0 then "-" else "+") ==>
                o == p
  {
    assert "-"[0] != "+"[0];
  }

  lemma IsoSeparates(a: Time, b: Time)
    requires Valid(a) && Valid(b)
    ensures IsoUtc(a) == IsoUtc(b) <==> SameReading(a, b)
  {
    if IsoUtc(a) == IsoUtc(b) {
      FieldsFit(a);
      FieldsFit(b);
      RenderInjective(Fields(a), Fields(b));
      FieldsTell(a, b);
    }
  }

  // ------------------------------------------------------------ reading it back

  predicate AllDigits(s: string) { forall i :: 0 <= i < |s| ==> '0' <= s[i] <= '9' }

  // The value of a decimal numeral.
  function Number(s: string): nat
    requires AllDigits(s)
  {
    if s == "" then 0 else 10 * Number(s[..|s| - 1]) + (s[|s| - 1] as int - 0x30)
  }

  predicate Shows(s: string, n: nat) { AllDigits(s) && Number(s) == n }

  lemma {:induction false} DigitsShow(n: nat, width: nat)
    requires n < Limit(width)
    ensures Shows(Digits(n, width), n)
  {
    if width > 0 {
      DigitsShow(n / 10, width - 1);
      var d := Digits(n, width);
      assert d[..width - 1] == Digits(n / 10, width - 1);
    }
  }

  // Where a field starts.
  function Start(fs: seq<Field>, i: nat): nat
    requires i <= |fs|
  {
    if i == 0 then 0 else Start(fs, i - 1) + fs[i - 1].width + |fs[i - 1].sep|
  }

  lemma {:induction false} StartBehind(fs: seq<Field>, i: nat)
    requires 0 < i <= |fs|
    ensures Start(fs, i) == fs[0].width + |fs[0].sep| + Start(fs[1..], i - 1)
  {
    if i > 1 { StartBehind(fs, i - 1); }
  }

  lemma Behind(x: string, r: string, lo: nat, hi: nat)
    requires lo <= hi <= |r|
    ensures (x + r)[|x| + lo..|x| + hi] == r[lo..hi]
  {
  }

  lemma FirstField(d: string, sep: string, r: string, s: string)
    requires s == d + (sep + r)
    ensures |d| + |sep| <= |s| && s[..|d|] == d && s[|d|..|d| + |sep|] == sep && s == d + sep + r
  {
  }

  lemma {:induction false} FieldAt(fs: seq<Field>, i: nat)
    requires i < |fs|
    ensures var s, a, w := Render(fs), Start(fs, i), fs[i].width;
            && a + w + |fs[i].sep| <= |s| && s[a..a + w] == Digits(fs[i].n, w)
            && s[a + w..a + w + |fs[i].sep|] == fs[i].sep
    decreases i
  {
    var d, sep, r := Digits(fs[0].n, fs[0].width), fs[0].sep, Render(fs[1..]);
    FirstField(d, sep, r, Render(fs));
    if i > 0 {
      var a, w := Start(fs[1..], i - 1), fs[i].width;
      FieldAt(fs[1..], i - 1);
      StartBehind(fs, i);
      Behind(d + sep, r, a, a + w);
      Behind(d + sep, r, a + w, a + w + |fs[i].sep|);
    }
  }

  lemma {:induction false} RenderLength(fs: seq<Field>)
    ensures |Render(fs)| == Start(fs, |fs|)
  {
    if fs != [] {
      RenderLength(fs[1..]);
      StartBehind(fs, |fs|);
    }
  }

  lemma Starts(t: Time)
    ensures var f := Fields(t);
            && Start(f, 0) == 0 && Start(f, 1) == 5 && Start(f, 2) == 8 && Start(f, 3) == 11 && Start(f, 4) == 14
            && Start(f, 5) == 17 && Start(f, 6) == 20 && Start(f, 7) == 27 && Start(f, 8) == 30 && Start(f, 9) == 32
  {
    var f := Fields(t);
    assert forall i :: 0 < i <= 9 ==> Start(f, i) == Start(f, i - 1) + f[i - 1].width + |f[i - 1].sep|;
  }

  // The i-th field stands at its place, with its separator behind it.
  lemma PartAt(fs: seq<Field>, s: string, i: nat, at: nat, n: nat, width: nat)
    requires i < |fs| && s == Render(fs) && at == Start(fs, i) && n == fs[i].n && width == fs[i].width && Fits(fs[i])
    ensures at + width + |fs[i].sep| <= |s| && Shows(s[at..at + width], n)
    ensures fs[i].sep != "" ==> s[at + width] == fs[i].sep[0]
  {
    FieldAt(fs, i);
    DigitsShow(n, width);
    if fs[i].sep != "" { assert s[at + width..at + width + |fs[i].sep|][0] == fs[i].sep[0]; }
  }

  lemma FieldReads(t: Time, s: string, i: nat, at: nat, n: nat, width: nat)
    requires Valid(t) && s == IsoUtc(t) && i < 9
    requires at == Start(Fields(t), i) && n == Fields(t)[i].n && width == Fields(t)[i].width
    ensures at + width + |Fields(t)[i].sep| <= |s| && Shows(s[at..at + width], n)
    ensures Fields(t)[i].sep != "" ==> s[at + width] == Fields(t)[i].sep[0]
  {
    FieldsFit(t);
    assert Fields(t)[i] in Fields(t);
    PartAt(Fields(t), s, i, at, n, width);
  }

  lemma DateReads(t: Time, s: string)
    requires Valid(t) && s == IsoUtc(t)
    ensures |s| == 32
    ensures Shows(s[..4], t.year) && s[4] == '-' && Shows(s[5..7], t.month) && s[7] == '-'
    ensures Shows(s[8..10], t.day) && s[10] == 'T'
  {
    Starts(t);
    RenderLength(Fields(t));
    FieldReads(t, s, 0, 0, t.year, 4);
    FieldReads(t, s, 1, 5, t.month, 2);
    FieldReads(t, s, 2, 8, t.day, 2);
  }

  lemma ClockReads(t: Time, s: string)
    requires Valid(t) && s == IsoUtc(t)
    ensures |s| == 32
    ensures Shows(s[11..13], t.hour) && s[13] == ':' && Shows(s[14..16], t.minute) && s[16] == ':'
    ensures Shows(s[17..19], t.second) && s[19] == '.' && Shows(s[20..26], t.micro)
  {
    Starts(t);
    RenderLength(Fields(t));
    FieldReads(t, s, 3, 11, t.hour, 2);
    FieldReads(t, s, 4, 14, t.minute, 2);
    FieldReads(t, s, 5, 17, t.second, 2);
    FieldReads(t, s, 6, 20, t.micro, 6);
  }

  // The offset, with a minus for a zone behind UTC.
  lemma OffsetReads(t: Time, s: string)
    requires Valid(t) && s == IsoUtc(t)
    ensures |s| == 32 && s[29] == ':' && AllDigits(s[27..29]) && AllDigits(s[30..])
    ensures s[26] == if t.offset.Some? && t.offset.value < 0 then '-' else '+'
    ensures var ahead := Number(s[27..29]) * 60 + Number(s[30..]);
            if t.offset.Some? then t.offset.value == (if s[26] == '-' then -ahead else ahead) else ahead == 0
  {
    var o := OffsetOf(t);
    var a := if o < 0 then -o else o;
    Starts(t);
    RenderLength(Fields(t));
    FieldReads(t, s, 6, 20, t.micro, 6);
    FieldReads(t, s, 7, 27, a / 60, 2);
    FieldReads(t, s, 8, 30, a % 60, 2);
    assert s[30..32] == s[30..];
  }

  // The rendering has 32 characters, and each part of the clock face stands where the standard
  // puts it.
  lemma IsoReads(t: Time, s: string)
    requires Valid(t) && s == IsoUtc(t)
    ensures |s| == 32
    ensures Shows(s[..4], t.year) && s[4] == '-' && Shows(s[5..7], t.month) && s[7] == '-'
    ensures Shows(s[8..10], t.day) && s[10] == 'T'
    ensures Shows(s[11..13], t.hour) && s[13] == ':' && Shows(s[14..16], t.minute) && s[16] == ':'
    ensures Shows(s[17..19], t.second) && s[19] == '.' && Shows(s[20..26], t.micro)
    ensures s[29] == ':' && AllDigits(s[27..29]) && AllDigits(s[30..])
    ensures s[26] == if t.offset.Some? && t.offset.value < 0 then '-' else '+'
    ensures var ahead := Number(s[27..29]) * 60 + Number(s[30..]);
            if t.offset.Some? then t.offset.value == (if s[26] == '-' then -ahead else ahead) else ahead == 0
  {
    DateReads(t, s);
    ClockReads(t, s);
    OffsetReads(t, s);
  }

  // ------------------------------------------------------------ instants

  // Days before the first of a month, and before the first of January of a year.
  function DaysBeforeMonth(year: nat, month: nat): nat {
    if month <= 1 then 0 else DaysBeforeMonth(year, month - 1) + DaysIn(year, month - 1)
  }

  function DaysBeforeYear(year: nat): nat {
    if year <= 1 then 0 else DaysBeforeYear(year - 1) + DaysBeforeMonth(year - 1, 13)
  }

  function DayNumber(t: Time): nat { DaysBeforeYear(t.year) + DaysBeforeMonth(t.year, t.month) + t.day }

  // The reading taken literally, and the point in time it names.
  function Minutes(t: Time): int { (DayNumber(t) * 24 + t.hour) * 60 + t.minute }

  function Instant(t: Time): int { ((Minutes(t) - OffsetOf(t)) * 60 + t.second) * 1000000 + t.micro }

  lemma MonthAfter(year: nat, m: nat)
    requires m > 1
    ensures DaysBeforeMonth(year, m) == DaysBeforeMonth(year, m - 1) + DaysIn(year, m - 1)
  {
  }

  lemma YearLength(year: nat)
    ensures DaysBeforeMonth(year, 13) == if Leap(year) then 366 else 365
  {
    assert DaysBeforeMonth(year, 1) == 0;
    for m := 2 to 14
      invariant DaysBeforeMonth(year, m - 1) == DaysInFirst(Leap(year), m - 2)
    {
      MonthAfter(year, m);
    }
  }

  // The days of the first months of a year.
  function DaysInFirst(leap: bool, months: nat): nat
    requires months <= 12
  {
    [0, 31, 59, 90, 120, 151, 181, 212, 243, 273, 304, 334, 365][months] + if leap && months >= 2 then 1 else 0
  }

  // The Gregorian calendar: a leap day every fourth year, but for three centuries in four.
  lemma {:induction false} DaysBeforeYearExact(year: nat)
    requires year >= 1
    ensures var n := year - 1; DaysBeforeYear(year) == 365 * n + n / 4 - n / 100 + n / 400
  {
    if year > 1 {
      var n := year - 1;
      DaysBeforeYearExact(n);
      YearLength(n);
      FourYears(n);
    }
  }

  lemma FourYears(n: nat)
    requires n > 0
    ensures n / 4 == (n - 1) / 4 + if n % 4 == 0 then 1 else 0
    ensures n / 100 == (n - 1) / 100 + if n % 100 == 0 then 1 else 0
    ensures n / 400 == (n - 1) / 400 + if n % 400 == 0 then 1 else 0
    ensures (n % 400 == 0 ==> n % 100 == 0) && (n % 100 == 0 ==> n % 4 == 0)
  {
  }

  lemma {:induction false} MonthsAdd(year: nat, m: nat, n: nat)
    requires 1 <= m < n
    ensures DaysBeforeMonth(year, m) + DaysIn(year, m) <= DaysBeforeMonth(year, n)
  {
    if m + 1 < n { MonthsAdd(year, m, n - 1); }
  }

  lemma {:induction false} YearsAdd(y: nat, z: nat)
    requires 1 <= y < z
    ensures DaysBeforeYear(y) + DaysBeforeMonth(y, 13) <= DaysBeforeYear(z)
  {
    if y + 1 < z { YearsAdd(y, z - 1); }
  }

  lemma EarlierDate(a: Time, b: Time)
    requires Valid(a) && Valid(b) && (a.year < b.year || (a.year == b.year && a.month < b.month))
    ensures DayNumber(a) < DayNumber(b)
  {
    MonthsAdd(a.year, a.month, 13);
    if a.year < b.year { YearsAdd(a.year, b.year); } else { MonthsAdd(a.year, a.month, b.month); }
  }

  // Dates are numbered without repetition.
  lemma SameDate(a: Time, b: Time)
    requires Valid(a) && Valid(b) && DayNumber(a) == DayNumber(b)
    ensures a.year == b.year && a.month == b.month && a.day == b.day
  {
    if a.year < b.year || (a.year == b.year && a.month < b.month) { EarlierDate(a, b); }
    if b.year < a.year || (a.year == b.year && b.month < a.month) { EarlierDate(b, a); }
  }

  lemma InstantAndOffset(a: Time, b: Time)
    requires Valid(a) && Valid(b) && Instant(a) == Instant(b) && OffsetOf(a) == OffsetOf(b)
    ensures SameReading(a, b)
  {
    assert (Minutes(a) - OffsetOf(a)) * 60 + a.second == (Minutes(b) - OffsetOf(b)) * 60 + b.second;
    assert Minutes(a) == Minutes(b);
    assert DayNumber(a) * 24 + a.hour == DayNumber(b) * 24 + b.hour;
    SameDate(a, b);
  }

  // One instant read in two zones: it renders the same exactly when the offsets are equal,
  // although the name says UTC.
  lemma ZoneShows(a: Time, b: Time)
    requires Valid(a) && Valid(b) && Instant(a) == Instant(b)
    ensures IsoUtc(a) == IsoUtc(b) <==> OffsetOf(a) == OffsetOf(b)
  {
    IsoSeparates(a, b);
    if OffsetOf(a) == OffsetOf(b) { InstantAndOffset(a, b); }
  }
}
