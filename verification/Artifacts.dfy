/** `src/harness/artifacts.rs`: run timestamps, the newest run directory, and the redacted copy of
    a prompt. */
module Artifacts {
  import opened Wrappers
  import opened Text

  // ---- the Gregorian calendar -------------------------------------------------------------------

  datatype Date = Date(year: int, month: int, day: int)

  /** RFC 3339, appendix C. */
  predicate Leap(year: int) {
    year % 4 == 0 && (year % 100 != 0 || year % 400 == 0)
  }

  /** RFC 3339, section 5.7. */
  function DaysIn(year: int, month: int): int {
    if month == 2 then (if Leap(year) then 29 else 28)
    else if month in [4, 6, 9, 11] then 30
    else 31
  }

  predicate ValidDate(d: Date) {
    1 <= d.month <= 12 && 1 <= d.day <= DaysIn(d.year, d.month)
  }

  function NextDay(d: Date): Date {
    if d.day < DaysIn(d.year, d.month) then Date(d.year, d.month, d.day + 1)
    else if d.month < 12 then Date(d.year, d.month + 1, 1)
    else Date(d.year + 1, 1, 1)
  }

  // ---- the date of a day number, as `iso8601` computes it ---------------------------------------

  /** The year of a 400-year era, counted from March. */
  function YearOfEra(doe: int): int {
    (doe - doe / 1460 + doe / 36524 - doe / 146096) / 365
  }

  /** The day of the era on which that year begins. */
  function YearStart(yoe: int): int {
    365 * yoe + yoe / 4 - yoe / 100
  }

  function MonthDay(year: int, doy: int): Date {
    var mp := (5 * doy + 2) / 153;
    var d := doy - (153 * mp + 2) / 5 + 1;
    var m := if mp < 10 then mp + 3 else mp - 9;
    Date(if m <= 2 then year + 1 else year, m, d)
  }

  function CivilFromDays(days: nat): Date {
    var z := days + 719468;
    var era := z / 146097;
    var doe := z % 146097;
    var yoe := YearOfEra(doe);
    MonthDay(yoe + era * 400, doe - YearStart(yoe))
  }

  lemma YearOfEraInBlock(c: int, j: int, t: int)
    requires 0 <= c < 4 && 0 <= j < 25 && 0 <= t < 1461 && 1461 * j + t < 36524
    ensures YearOfEra(36524 * c + 1461 * j + t)
         == 100 * c + 4 * j + (if t < 1460 then t / 365 else 3)
  {
    var doe := 36524 * c + 1461 * j + t;
    assert doe / 146096 == 0 && doe / 36524 == c;
    var e := if t + 24 * c + j >= 1460 then 1 else 0;
    assert doe == 1460 * (25 * c + j + e) + (24 * c + j + t - 1460 * e);
    assert doe / 1460 == 25 * c + j + e;
    var n := 36500 * c + 1460 * j + t - e;
    assert doe - doe / 1460 + doe / 36524 - doe / 146096 == n;
    var k := 4 * j + (if t < 1460 then t / 365 else 3);
    assert 0 <= n - 365 * (100 * c + k) < 365;
  }

  /** The formula picks the year whose days contain the day. */
  lemma YearOfEraIsRight(doe: int)
    requires 0 <= doe < 146097
    ensures var yoe := YearOfEra(doe);
            0 <= yoe < 400 && YearStart(yoe) <= doe && (doe < YearStart(yoe + 1) || yoe == 399)
  {
    if doe < 146096 {
      var c, r := doe / 36524, doe % 36524;
      var j, t := r / 1461, r % 1461;
      YearOfEraInBlock(c, j, t);
      hide YearOfEra;
      YearOfBlock(c, j, t, if t < 1460 then t / 365 else 3);
    }
  }

  lemma YearOfBlock(c: int, j: int, t: int, m: int)
    requires 0 <= c < 4 && 0 <= j < 25 && 0 <= t < 1461 && 1461 * j + t < 36524
    requires m == if t < 1460 then t / 365 else 3
    ensures var y, doe := 100 * c + 4 * j + m, 36524 * c + 1461 * j + t;
            0 <= y < 400 && YearStart(y) <= doe && (doe < YearStart(y + 1) || y == 399)
  {
    var y := 100 * c + 4 * j + m;
    assert y / 4 == 25 * c + j && y / 100 == c;
    assert YearStart(y) == 36524 * c + 1461 * j + 365 * m;
    if m < 3 {
      assert (y + 1) / 4 == 25 * c + j && (y + 1) / 100 == c;
    } else {
      assert (y + 1) / 4 == 25 * c + j + 1;
    }
  }

  lemma YearLength(yoe: int)
    requires 0 <= yoe < 400
    ensures YearDays(yoe) == YearStart(yoe + 1) - YearStart(yoe) + (if yoe == 399 then 1 else 0)
  {
    var century, four, m := yoe / 100, yoe % 100 / 4, yoe % 4;
    assert yoe == 100 * century + 4 * four + m && 0 <= four < 25;
    var next := yoe + 1;
    assert yoe / 4 == 25 * century + four;
    if m < 3 {
      assert next % 4 == m + 1 && next / 4 == 25 * century + four && next / 100 == century;
    } else if four < 24 {
      assert next % 4 == 0 && next % 100 == 4 * (four + 1);
      assert next / 4 == 25 * century + four + 1 && next / 100 == century;
    } else {
      assert next == 100 * (century + 1) && next / 4 == 25 * century + 25;
    }
  }

  lemma YearOfEraIsUnique(doe: int, yoe: int)
    requires 0 <= doe < 146097 && 0 <= yoe < 400
    requires YearStart(yoe) <= doe && (doe < YearStart(yoe + 1) || yoe == 399)
    ensures YearOfEra(doe) == yoe
  {
    YearOfEraIsRight(doe);
    var other := YearOfEra(doe);
    if other < yoe { YearStartsGrow(other + 1, yoe); }
    if yoe < other { YearStartsGrow(yoe + 1, other); }
  }

  lemma YearStartsGrow(a: int, b: int)
    requires 0 <= a <= b
    ensures YearStart(a) <= YearStart(b)
  {
  }

  /** Days of the March year that starts in `year`. */
  function YearDays(year: int): int {
    if Leap(year + 1) then 366 else 365
  }

  /** In a March year the day after is the Gregorian day after. */
  lemma MonthDaySuccessor(year: int, doy: int)
    requires 0 <= doy < YearDays(year)
    ensures NextDay(MonthDay(year, doy))
         == (if doy + 1 < YearDays(year) then MonthDay(year, doy + 1) else MonthDay(year + 1, 0))
  {
    if doy + 1 < YearDays(year) {
      var mp := (5 * doy + 2) / 153;
      assert 0 <= mp <= 11;
    } else {
      assert MonthDay(year, 364) == Date(year + 1, 2, 28);
      assert MonthDay(year, 365) == Date(year + 1, 2, 29);
      assert MonthDay(year + 1, 0) == Date(year + 1, 3, 1);
    }
  }

  lemma RemaindersInEra(year: int, era: int)
    ensures (year + era * 400) % 4 == year % 4
  {
    assert year + era * 400 == year + 4 * (100 * era);
  }

  lemma RemaindersOfCenturies(year: int, era: int)
    ensures (year + era * 400) % 100 == year % 100
    ensures (year + era * 400) % 400 == year % 400
  {
  }

  lemma LeapInEra(year: int, era: int)
    ensures Leap(year + era * 400) == Leap(year)
  {
    RemaindersInEra(year, era);
    RemaindersOfCenturies(year, era);
  }

  /** Day `days` is day `doy` of March year `yoe` of era `era`. */
  predicate InYear(days: nat, era: int, yoe: int, doy: int) {
    && 0 <= yoe < 400 && 0 <= doy < YearDays(yoe)
    && days + 719468 == era * 146097 + YearStart(yoe) + doy
  }

  lemma CivilOfParts(days: nat, era: int, yoe: int, doy: int)
    requires InYear(days, era, yoe, doy)
    ensures CivilFromDays(days) == MonthDay(yoe + era * 400, doy)
  {
    var doe := YearStart(yoe) + doy;
    YearLength(yoe);
    YearStartsGrow(yoe + 1, 400);
    assert (days + 719468) / 146097 == era && (days + 719468) % 146097 == doe;
    YearOfEraIsUnique(doe, yoe);
  }

  /** Every day is in some year, and the day after it in the same year or at the start of the next. */
  lemma EveryDayInAYear(days: nat) returns (era: int, yoe: int, doy: int)
    ensures InYear(days, era, yoe, doy)
    ensures if doy + 1 < YearDays(yoe) then InYear(days + 1, era, yoe, doy + 1)
            else if yoe == 399 then InYear(days + 1, era + 1, 0, 0)
            else InYear(days + 1, era, yoe + 1, 0)
  {
    var z := days + 719468;
    era := z / 146097;
    var doe := z % 146097;
    YearOfEraIsRight(doe);
    yoe := YearOfEra(doe);
    doy := doe - YearStart(yoe);
    YearLength(yoe);
  }

  /** Every day number's date is followed by its Gregorian successor. */
  lemma CivilSuccessor(days: nat)
    ensures CivilFromDays(days + 1) == NextDay(CivilFromDays(days))
  {
    forall n: nat, era, yoe, doy | InYear(n, era, yoe, doy)
      ensures CivilFromDays(n) == MonthDay(yoe + era * 400, doy)
    {
      CivilOfParts(n, era, yoe, doy);
    }
    SuccessorOfParts(CivilFromDays, days);
  }

  lemma SuccessorOfParts(dates: nat -> Date, days: nat)
    requires forall n: nat, era, yoe, doy :: InYear(n, era, yoe, doy)
               ==> dates(n) == MonthDay(yoe + era * 400, doy)
    ensures dates(days + 1) == NextDay(dates(days))
  {
    var era, yoe, doy := EveryDayInAYear(days);
    var year := yoe + era * 400;
    LeapInEra(yoe + 1, era);
    assert YearDays(year) == YearDays(yoe);
    MonthDaySuccessor(year, doy);
    assert year + 1 == yoe + 1 + era * 400 && (yoe == 399 ==> year + 1 == (era + 1) * 400);
  }

  predicate Earlier(a: Date, b: Date) {
    a.year < b.year
    || (a.year == b.year && (a.month < b.month || (a.month == b.month && a.day < b.day)))
  }

  /** Any chain of Gregorian successors stays valid and moves forward. */
  lemma {:induction false} SuccessorsMoveForward(dates: nat -> Date, a: nat, b: nat)
    requires a <= b && ValidDate(dates(a)) && forall n: nat :: dates(n + 1) == NextDay(dates(n))
    ensures ValidDate(dates(b)) && dates(a).year <= dates(b).year
    ensures a < b ==> Earlier(dates(a), dates(b))
    decreases b - a
  {
    if a < b {
      SuccessorsMoveForward(dates, a, b - 1);
      assert dates(b - 1 + 1) == NextDay(dates(b - 1));
    }
  }

  lemma CivilIsAChain()
    ensures CivilFromDays(0) == Date(1970, 1, 1)
    ensures forall n: nat :: CivilFromDays(n + 1) == NextDay(CivilFromDays(n))
  {
    CivilOfParts(0, 4, 369, 306);
    assert MonthDay(1969, 306) == Date(1970, 1, 1);
    forall n: nat ensures CivilFromDays(n + 1) == NextDay(CivilFromDays(n)) {
      CivilSuccessor(n);
    }
  }

  /** From 1970-01-01 on, every date is valid and later days have later dates; so no two days
      share one. */
  lemma CivilKeepsOrder(a: nat, b: nat)
    requires a <= b
    ensures CivilFromDays(0) == Date(1970, 1, 1)
    ensures ValidDate(CivilFromDays(a)) && CivilFromDays(a).year >= 1970
    ensures ValidDate(CivilFromDays(b))
    ensures a < b ==> Earlier(CivilFromDays(a), CivilFromDays(b))
    ensures CivilFromDays(a).year <= CivilFromDays(b).year
  {
    CivilIsAChain();
    SuccessorsMoveForward(CivilFromDays, 0, a);
    SuccessorsMoveForward(CivilFromDays, a, b);
  }

  // ---- timestamps as text -----------------------------------------------------------------------

  /** What `SystemTime` gives: whole seconds and the milliseconds within them. */
  datatype Instant = Instant(secs: nat, millis: nat)

  predicate Before(a: Instant, b: Instant) {
    a.secs < b.secs || (a.secs == b.secs && a.millis < b.millis)
  }

  const WIDTHS: seq<nat> := [4, 2, 2, 2, 2, 2, 3]

  function Fields(t: Instant): (fields: seq<nat>)
    ensures |fields| == 7
  {
    CivilKeepsOrder(0, t.secs / 86400);
    FieldsOf(CivilFromDays(t.secs / 86400), t.secs % 86400, t.millis)
  }

  function FieldsOf(date: Date, rem: nat, millis: nat): (fields: seq<nat>)
    requires ValidDate(date) && date.year >= 0
    ensures |fields| == 7
  {
    [date.year, date.month, date.day, rem / 3600, rem % 3600 / 60, rem % 60, millis]
  }

  /** Padded numbers, each followed by its separator. */
  function Stamp(fields: seq<nat>, widths: seq<nat>, separators: string): string
    requires |fields| == |widths| == |separators|
  {
    if fields == [] then ""
    else Pad(fields[0], widths[0]) + ([separators[0]] + Stamp(fields[1..], widths[1..], separators[1..]))
  }

  /** `iso8601`. */
  function Iso8601(t: Instant): string {
    Stamp(Fields(t), WIDTHS, "--T::.Z")
  }

  /** The name `Layout::create` gives a run: the timestamp with `:` and `.` as `-`, then the spec. */
  function RunName(t: Instant, specName: string): string {
    Stamp(Fields(t), WIDTHS, "--T---Z") + ("-" + specName)
  }

  predicate LexLess(a: seq<nat>, b: seq<nat>)
    requires |a| == |b|
  {
    a != [] && (a[0] < b[0] || (a[0] == b[0] && LexLess(a[1..], b[1..])))
  }

  predicate Fits(fields: seq<nat>, widths: seq<nat>)
    requires |fields| == |widths|
  {
    forall i :: 0 <= i < |fields| ==> widths[i] >= 1 && fields[i] < Pow10(widths[i])
  }

  lemma Associate(p: string, s: string, r: string, x: string)
    ensures (p + (s + r)) + x == p + (s + (r + x))
  {
  }

  lemma StampThen(fields: seq<nat>, widths: seq<nat>, separators: string, x: string)
    requires |fields| == |widths| == |separators| > 0
    ensures Stamp(fields, widths, separators) + x
         == Pad(fields[0], widths[0])
            + ([separators[0]] + (Stamp(fields[1..], widths[1..], separators[1..]) + x))
  {
    Associate(Pad(fields[0], widths[0]), [separators[0]],
              Stamp(fields[1..], widths[1..], separators[1..]), x);
  }

  lemma {:induction false} StampKeepsOrder(a: seq<nat>, b: seq<nat>, widths: seq<nat>,
                                           separators: string, x: string, y: string)
    requires |a| == |b| == |widths| == |separators|
    requires Fits(a, widths) && Fits(b, widths) && LexLess(a, b)
    ensures Less(Stamp(a, widths, separators) + x, Stamp(b, widths, separators) + y)
  {
    StampThen(a, widths, separators, x);
    StampThen(b, widths, separators, y);
    var p, q := Pad(a[0], widths[0]), Pad(b[0], widths[0]);
    var u := Stamp(a[1..], widths[1..], separators[1..]) + x;
    var v := Stamp(b[1..], widths[1..], separators[1..]) + y;
    if a[0] < b[0] {
      PadWidth(a[0], widths[0]);
      PadWidth(b[0], widths[0]);
      PadKeepsOrder(a[0], b[0], widths[0]);
      LessByFirstField(p, q, [separators[0]] + u, [separators[0]] + v);
    } else {
      StampKeepsOrder(a[1..], b[1..], widths[1..], separators[1..], x, y);
      LessAfterPrefix([separators[0]], u, v);
      LessAfterPrefix(p, [separators[0]] + u, [separators[0]] + v);
    }
  }

  /** Seconds from the epoch to 10000-01-01. */
  const YEAR_10000 := 253402300800

  /** The day before it. */
  const LAST_DAY := 2932896

  predicate Printable(t: Instant) {
    t.secs < YEAR_10000 && t.millis < 1000
  }

  lemma LastPrintableDay()
    ensures CivilFromDays(LAST_DAY) == Date(9999, 12, 31)
  {
    CivilOfParts(LAST_DAY, 24, 399, 305);
    assert MonthDay(9999, 305) == Date(9999, 12, 31);
  }

  lemma FieldsOfFit(date: Date, rem: nat, millis: nat)
    requires ValidDate(date) && 0 <= date.year < 10000 && rem < 86400 && millis < 1000
    ensures Fits(FieldsOf(date, rem, millis), WIDTHS)
  {
  }

  lemma FieldsFit(t: Instant)
    requires Printable(t)
    ensures Fits(Fields(t), WIDTHS)
  {
    var days := t.secs / 86400;
    assert days <= LAST_DAY;
    LastPrintableDay();
    CivilKeepsOrder(days, LAST_DAY);
    FieldsOfFit(CivilFromDays(days), t.secs % 86400, t.millis);
  }

  lemma FieldsOfKeepOrder(c: Date, r: nat, x: nat, d: Date, s: nat, y: nat)
    requires ValidDate(c) && ValidDate(d) && c.year >= 0 && d.year >= 0
    requires Earlier(c, d) || (c == d && (r < s || (r == s && x < y)))
    ensures LexLess(FieldsOf(c, r, x), FieldsOf(d, s, y))
  {
    var f, g := FieldsOf(c, r, x), FieldsOf(d, s, y);
    assert f[1..][1..] == f[2..] && g[1..][1..] == g[2..];
    assert f[2..][1..] == f[3..] && g[2..][1..] == g[3..];
    if c == d {
      TimeOfDayKeepsOrder(r, s, x, y);
      assert f[3..] == [r / 3600, r % 3600 / 60, r % 60, x];
      assert g[3..] == [s / 3600, s % 3600 / 60, s % 60, y];
    }
  }

  lemma FieldsKeepOrder(a: Instant, b: Instant)
    requires Before(a, b)
    ensures LexLess(Fields(a), Fields(b))
  {
    var p, q := a.secs / 86400, b.secs / 86400;
    CivilKeepsOrder(p, q);
    FieldsOfKeepOrder(CivilFromDays(p), a.secs % 86400, a.millis,
                      CivilFromDays(q), b.secs % 86400, b.millis);
  }

  lemma ClockAddsUp(r: nat)
    ensures r == 3600 * (r / 3600) + 60 * (r % 3600 / 60) + r % 60
    ensures r % 3600 / 60 < 60 && r % 60 < 60
  {
  }

  lemma LexLessOfFour(a: nat, b: nat, c: nat, d: nat, w: nat, x: nat, y: nat, z: nat)
    requires a < w || (a == w && (b < x || (b == x && (c < y || (c == y && d < z)))))
    ensures LexLess([a, b, c, d], [w, x, y, z])
  {
    var f, g := [a, b, c, d], [w, x, y, z];
    assert f[1..] == [b, c, d] && g[1..] == [x, y, z];
    assert f[2..] == f[1..][1..] == [c, d] && g[2..] == g[1..][1..] == [y, z];
    assert f[2..][1..] == [d] && g[2..][1..] == [z];
    assert LexLess(f[2..], g[2..]) <==> c < y || (c == y && LexLess([d], [z]));
    assert LexLess(f[1..], g[1..]) <==> b < x || (b == x && LexLess(f[2..], g[2..]));
  }

  lemma TimeOfDayKeepsOrder(r: nat, s: nat, x: nat, y: nat)
    requires r < s || (r == s && x < y)
    ensures LexLess([r / 3600, r % 3600 / 60, r % 60, x], [s / 3600, s % 3600 / 60, s % 60, y])
  {
    ClockAddsUp(r);
    ClockAddsUp(s);
    LexLessOfFour(r / 3600, r % 3600 / 60, r % 60, x, s / 3600, s % 3600 / 60, s % 60, y);
  }

  /** Up to the end of year 9999 the printed strings sort exactly as the instants do. */
  lemma TimestampsSort(a: Instant, b: Instant)
    requires Printable(a) && Printable(b)
    ensures Less(Iso8601(a), Iso8601(b)) <==> Before(a, b)
  {
    FieldsFit(a);
    FieldsFit(b);
    var s, t := Iso8601(a), Iso8601(b);
    assert s + "" == s && t + "" == t;
    if Before(a, b) {
      FieldsKeepOrder(a, b);
      StampKeepsOrder(Fields(a), Fields(b), WIDTHS, "--T::.Z", "", "");
    } else if Before(b, a) {
      FieldsKeepOrder(b, a);
      StampKeepsOrder(Fields(b), Fields(a), WIDTHS, "--T::.Z", "", "");
      LessAsymmetric(t, s);
    } else {
      LessIrreflexive(s);
    }
  }

  lemma StampStep(n: nat, fields: seq<nat>, width: nat, widths: seq<nat>, separator: char, separators: string)
    requires |fields| == |widths| == |separators|
    ensures Stamp([n] + fields, [width] + widths, [separator] + separators)
         == Pad(n, width) + ([separator] + Stamp(fields, widths, separators))
  {
  }

  function Clock(h: nat, m: nat, s: nat, millis: nat, colon: string, dot: string): string {
    Pad(h, 2) + (colon + (Pad(m, 2) + (colon + (Pad(s, 2) + (dot + (Pad(millis, 3) + "Z"))))))
  }

  lemma ClockStamp(h: nat, m: nat, s: nat, millis: nat, colon: char, dot: char)
    ensures Stamp([h, m, s, millis], [2, 2, 2, 3], [colon, colon, dot, 'Z'])
         == Clock(h, m, s, millis, [colon], [dot])
  {
    assert Stamp([], [], "") == "" && "Z" + "" == "Z";
    StampStep(millis, [], 3, [], 'Z', "");
    StampStep(s, [millis], 2, [3], dot, ['Z']);
    StampStep(m, [s, millis], 2, [2, 3], colon, [dot, 'Z']);
    StampStep(h, [m, s, millis], 2, [2, 2, 3], colon, [colon, dot, 'Z']);
    assert [millis] + [] == [millis] && [s] + [millis] == [s, millis] && [m] + [s, millis] == [m, s, millis];
    assert [h] + [m, s, millis] == [h, m, s, millis] && [2, 2, 2, 3] == [2] + [2, 2, 3];
    hide Stamp, Pad;
  }

  lemma ThreeStamps(y: nat, m: nat, d: nat, rest: seq<nat>, widths: seq<nat>, ends: string)
    requires |rest| == |widths| == |ends|
    ensures Stamp([y] + ([m] + ([d] + rest)), [4] + ([2] + ([2] + widths)), "-" + ("-" + ("T" + ends)))
         == Pad(y, 4) + ("-" + (Pad(m, 2) + ("-" + (Pad(d, 2) + ("T" + Stamp(rest, widths, ends))))))
  {
    StampStep(d, rest, 2, widths, 'T', ends);
    StampStep(m, [d] + rest, 2, [2] + widths, '-', "T" + ends);
    StampStep(y, [m] + ([d] + rest), 4, [2] + ([2] + widths), '-', "-" + ("T" + ends));
    hide Stamp, Pad;
  }

  function DateText(date: Date, rest: string): string
    requires ValidDate(date) && date.year >= 0
  {
    Pad(date.year, 4) + ("-" + (Pad(date.month, 2) + ("-" + (Pad(date.day, 2) + ("T" + rest)))))
  }

  lemma Columns(y: nat, m: nat, d: nat, clock: seq<nat>, ends: string)
    ensures [y, m, d] + clock == [y] + ([m] + ([d] + clock))
    ensures "--T" + ends == "-" + ("-" + ("T" + ends))
    ensures WIDTHS == [4] + ([2] + ([2] + [2, 2, 2, 3]))
  {
  }

  lemma DateStamp(date: Date, clock: seq<nat>, ends: string)
    requires ValidDate(date) && date.year >= 0 && |clock| == |ends| == 4
    ensures Stamp([date.year, date.month, date.day] + clock, WIDTHS, "--T" + ends)
         == DateText(date, Stamp(clock, [2, 2, 2, 3], ends))
  {
    hide Stamp, Pad;
    Columns(date.year, date.month, date.day, clock, ends);
    ThreeStamps(date.year, date.month, date.day, clock, [2, 2, 2, 3], ends);
  }

  /** A timestamp prints its calendar date and the clock of its day; a run's name the same with dashes, and
      then the spec. */
  lemma TimestampTells(t: Instant, specName: string) returns (h: nat, m: nat, s: nat)
    ensures h < 24 && m < 60 && s < 60 && 3600 * h + 60 * m + s == t.secs % 86400
    ensures var d := CivilFromDays(t.secs / 86400);
            && ValidDate(d) && d.year >= 0
            && Iso8601(t) == DateText(d, Clock(h, m, s, t.millis, ":", "."))
            && RunName(t, specName) == DateText(d, Clock(h, m, s, t.millis, "-", "-")) + ("-" + specName)
  {
    CivilKeepsOrder(0, t.secs / 86400);
    var d, rem := CivilFromDays(t.secs / 86400), t.secs % 86400;
    h, m, s := rem / 3600, rem % 3600 / 60, rem % 60;
    ClockAddsUp(rem);
    assert Fields(t) == [d.year, d.month, d.day] + [h, m, s, t.millis];
    hide *;
    ClockStamp(h, m, s, t.millis, ':', '.');
    ClockStamp(h, m, s, t.millis, '-', '-');
    DateStamp(d, [h, m, s, t.millis], "::.Z");
    DateStamp(d, [h, m, s, t.millis], "---Z");
    NamesAre(t, specName);
  }

  lemma NamesAre(t: Instant, specName: string)
    ensures Iso8601(t) == Stamp(Fields(t), WIDTHS, "--T" + "::.Z")
    ensures RunName(t, specName) == Stamp(Fields(t), WIDTHS, "--T" + "---Z") + ("-" + specName)
    ensures "::.Z" == [':', ':', '.', 'Z'] && "---Z" == ['-', '-', '-', 'Z']
  {
    hide Stamp, Fields;
    assert "--T" + "::.Z" == "--T::.Z" && "--T" + "---Z" == "--T---Z";
  }

  lemma StampBegins(t: Instant)
    ensures var year := CivilFromDays(t.secs / 86400).year;
            year >= 0 ==> Iso8601(t) != "" && Iso8601(t)[0] == Pad(year, 4)[0]
  {
    if CivilFromDays(t.secs / 86400).year >= 0 {
      assert Fields(t)[0] == CivilFromDays(t.secs / 86400).year;
    }
  }

  /** The first instant of year 10000 prints five digits of the year and sorts before the one it follows. */
  lemma TimestampsStopSortingInYear10000()
    ensures var a, b := Instant(YEAR_10000 - 1, 0), Instant(YEAR_10000, 0);
            Before(a, b) && Less(Iso8601(b), Iso8601(a))
  {
    var a, b := Instant(YEAR_10000 - 1, 0), Instant(YEAR_10000, 0);
    assert a.secs / 86400 == LAST_DAY && b.secs / 86400 == LAST_DAY + 1;
    LastPrintableDay();
    CivilSuccessor(LAST_DAY);
    StampBegins(a);
    StampBegins(b);
    YearDigits();
  }

  lemma YearDigits()
    ensures Pad(9999, 4)[0] == '9' && Pad(10000, 4)[0] == '1'
  {
    assert Pad(9, 1) == "9";
    assert Pad(99, 2)[0] == '9';
    assert Pad(999, 3)[0] == '9';
    assert Pad(1, 0) == "1";
    assert Pad(10, 1)[0] == '1';
    assert Pad(100, 2)[0] == '1';
    assert Pad(1000, 3)[0] == '1';
  }

  ghost predicate SortBefore(end: nat) {
    forall a: Instant, b: Instant | a.millis < 1000 && b.millis < 1000 && a.secs < end && b.secs < end ::
      Less(Iso8601(a), Iso8601(b)) <==> Before(a, b)
  }

  /** The instants before an end all sort as they print if and only if the end is by year 10000. */
  lemma TimestampsSortExactly(end: nat)
    ensures SortBefore(end) <==> end <= YEAR_10000
  {
    hide Less, Iso8601;
    if end <= YEAR_10000 {
      forall a: Instant, b: Instant | a.millis < 1000 && b.millis < 1000 && a.secs < end && b.secs < end
        ensures Less(Iso8601(a), Iso8601(b)) <==> Before(a, b)
      {
        TimestampsSort(a, b);
      }
    } else {
      TimestampsStopSortingInYear10000();
      LessAsymmetric(Iso8601(Instant(YEAR_10000, 0)), Iso8601(Instant(YEAR_10000 - 1, 0)));
    }
  }

  // ---- the newest run directory -----------------------------------------------------------------

  datatype Run = Run(at: Instant, specName: string)

  /** `latest_run_directory`, over the names that belong to this workspace: sort, then take the
      last. */
  function LatestName(names: seq<string>): Option<string> {
    if names == [] then None
    else match LatestName(names[1..])
      case None => Some(names[0])
      case Some(best) => if Less(best, names[0]) then Some(names[0]) else Some(best)
  }

  lemma {:induction false} LatestNameIsGreatest(names: seq<string>)
    ensures match LatestName(names)
            case None => names == []
            case Some(best) => best in names && forall n <- names :: AtMost(n, best)
  {
    if names != [] {
      LatestNameIsGreatest(names[1..]);
      match LatestName(names[1..])
      case None => assert names == [names[0]];
      case Some(best) =>
        LessTotal(best, names[0]);
        forall n | n in names[1..] && Less(best, names[0]) ensures AtMost(n, names[0]) {
          if n != best { LessTransitive(n, best, names[0]); }
        }
    }
  }

  /** Sorting names picks a run no other run is later than. */
  lemma LatestRunIsNewest(runs: seq<Run>) returns (newest: Run)
    requires runs != [] && forall r <- runs :: Printable(r.at)
    ensures newest in runs
    ensures LatestName(seq(|runs|, i requires 0 <= i < |runs| => RunName(runs[i].at, runs[i].specName)))
         == Some(RunName(newest.at, newest.specName))
    ensures forall r <- runs :: !Before(newest.at, r.at)
  {
    var names := seq(|runs|, i requires 0 <= i < |runs| => RunName(runs[i].at, runs[i].specName));
    LatestNameIsGreatest(names);
    var best := LatestName(names).value;
    var k :| 0 <= k < |names| && names[k] == best;
    newest := runs[k];
    forall r | r in runs ensures !Before(newest.at, r.at) {
      var j :| 0 <= j < |runs| && runs[j] == r;
      assert names[j] in names;
      if Before(newest.at, r.at) {
        FieldsFit(newest.at);
        FieldsFit(r.at);
        FieldsKeepOrder(newest.at, r.at);
        StampKeepsOrder(Fields(newest.at), Fields(r.at), WIDTHS, "--T---Z",
                        "-" + newest.specName, "-" + r.specName);
        LessAsymmetric(best, names[j]);
        LessIrreflexive(best);
      }
    }
  }

  // ---- the redacted copy of a prompt ------------------------------------------------------------

  const REDACTED := "<redacted by hanvil>"

  /** `str::replace`: what is put in is not searched again. */
  function Replace(text: string, secret: string, mark: string): string
    requires secret != ""
    decreases |text|
  {
    if MatchesAt(text, secret, 0) then mark + Replace(text[|secret|..], secret, mark)
    else if text == "" then ""
    else [text[0]] + Replace(text[1..], secret, mark)
  }

  function RedactAll(text: string, secrets: seq<string>, mark: string): string {
    if secrets == [] then text
    else
      var earlier, last := RedactAll(text, secrets[..|secrets| - 1], mark), secrets[|secrets| - 1];
      if last == "" then earlier else Replace(earlier, last, mark)
  }

  /** The copy that is stored. */
  function Stored(prompt: string, secrets: seq<string>): string {
    RedactAll(Trim(prompt), secrets, REDACTED) + "\n"
  }

  /** The loop of `write_prompt_file`, over the trimmed prompt. */
  method PersistedPrompt(prompt: string, secrets: seq<string>) returns (persisted: string)
    ensures persisted == Stored(prompt, secrets)
  {
    persisted := Trim(prompt);
    for i := 0 to |secrets|
      invariant persisted == RedactAll(Trim(prompt), secrets[..i], REDACTED)
    {
      assert secrets[..i + 1][..i] == secrets[..i];
      if secrets[i] != "" {
        persisted := Replace(persisted, secrets[i], REDACTED);
      }
    }
    assert secrets[..|secrets|] == secrets;
    persisted := persisted + "\n";
  }

  ghost predicate Absent(text: string, secret: string) {
    forall i: nat :: !MatchesAt(text, secret, i)
  }

  /** The end of `a` is the beginning of `b`. */
  ghost predicate Touches(a: string, b: string) {
    exists k: nat :: 0 < k <= |a| && k <= |b| && a[|a| - k..] == b[..k]
  }

  /** A secret that the mark neither contains, nor is contained in, nor can complete at either end. */
  ghost predicate Clean(secret: string, mark: string) {
    && secret != ""
    && Absent(mark, secret) && Absent(secret, mark)
    && !Touches(mark, secret) && !Touches(secret, mark)
  }

  lemma SharedPrefix(r: string, a: string, b: string)
    requires StartsWith(r, a) && StartsWith(r, b) && |a| <= |b|
    ensures b[..|a|] == a
  {
  }

  /** What the mark and the rest of a secret both begin makes the secret unclean. */
  lemma MarkMeetsRest(r: string, secret: string, k: nat, mark: string)
    requires k < |secret| && StartsWith(r, mark) && StartsWith(r, secret[k..])
    ensures Touches(secret, mark) || !Absent(secret, mark)
  {
    var q := secret[k..];
    if |q| <= |mark| {
      SharedPrefix(r, q, mark);
      assert secret[|secret| - |q|..] == mark[..|q|];
    } else {
      SharedPrefix(r, mark, q);
      assert secret[k..k + |mark|] == q[..|mark|];
      assert MatchesAt(secret, mark, k);
    }
  }

  /** A match that straddles the end of the mark makes the secret unclean. */
  lemma MatchAcross(rest: string, secret: string, i: nat, mark: string)
    requires i < |mark| < i + |secret| && MatchesAt(mark + rest, secret, i)
    ensures Touches(mark, secret)
  {
    var k := |mark| - i;
    assert mark[i..] == (mark + rest)[i..i + |secret|][..k] == secret[..k];
  }

  /** What a redacted text begins with, of a clean secret, its original began with already. */
  lemma {:induction false} PrefixSurvives(text: string, secret: string, other: string, k: nat, mark: string)
    requires secret != "" && Clean(other, mark) && k <= |other|
    requires StartsWith(Replace(text, secret, mark), other[k..])
    ensures StartsWith(text, other[k..])
    decreases |text|
  {
    var r := Replace(text, secret, mark);
    if k < |other| {
      if MatchesAt(text, secret, 0) {
        assert r[..|mark|] == mark;
        MarkMeetsRest(r, other, k, mark);
      } else {
        assert other[k..] != "" && r[0] == other[k..][0] && text != "";
        assert r[1..] == Replace(text[1..], secret, mark);
        assert other[k..][1..] == other[k + 1..];
        assert r[..|other| - k][1..] == r[1..][..|other| - k - 1];
        PrefixSurvives(text[1..], secret, other, k + 1, mark);
        assert text[..|other| - k] == [text[0]] + text[1..][..|other| - k - 1];
      }
    }
  }

  lemma AbsentFromMark(rest: string, secret: string, mark: string)
    requires Clean(secret, mark) && Absent(rest, secret)
    ensures Absent(mark + rest, secret)
  {
    var r := mark + rest;
    forall i: nat ensures !MatchesAt(r, secret, i) {
      if i >= |mark| {
        MatchInRest(mark, rest, secret, i);
      } else if i + |secret| <= |mark| {
        MatchInFirst(mark, rest, secret, i);
      } else if MatchesAt(r, secret, i) {
        MatchAcross(rest, secret, i, mark);
      }
    }
  }

  lemma AbsentAfter(first: string, rest: string, secret: string)
    requires Absent(first + rest, secret)
    ensures Absent(rest, secret)
  {
    forall i: nat ensures !MatchesAt(rest, secret, i) {
      MatchInRest(first, rest, secret, i + |first|);
    }
  }

  /** One replacement removes its own secret and brings no other one back. */
  lemma {:induction false} RedactRemoves(text: string, secret: string, other: string, mark: string)
    requires secret != "" && Clean(other, mark)
    requires other == secret || Absent(text, other)
    ensures Absent(Replace(text, secret, mark), other)
    decreases |text|
  {
    var step := if MatchesAt(text, secret, 0) then |secret| else 1;
    if text != "" {
      var first, rest := text[..step], text[step..];
      assert text == first + rest;
      if other != secret { AbsentAfter(first, rest, other); }
      RedactRemoves(rest, secret, other, mark);
      if MatchesAt(text, secret, 0) {
        AbsentFromMark(Replace(rest, secret, mark), other, mark);
      } else {
        AbsentStepwise(text, secret, other, mark);
      }
    }
  }

  /** Where no replacement happens the text moves on by one character and gains no match. */
  lemma AbsentStepwise(text: string, secret: string, other: string, mark: string)
    requires secret != "" && Clean(other, mark) && text != ""
    requires !MatchesAt(text, secret, 0) && !MatchesAt(text, other, 0)
    requires Absent(Replace(text[1..], secret, mark), other)
    ensures Absent(Replace(text, secret, mark), other)
  {
    var rest := Replace(text[1..], secret, mark);
    var r := [text[0]] + rest;
    forall i: nat ensures !MatchesAt(r, other, i) {
      if i == 0 {
        assert other[0..] == other;
        if MatchesAt(r, other, 0) { PrefixSurvives(text, secret, other, 0, mark); }
      } else {
        MatchInRest([text[0]], rest, other, i);
      }
    }
  }

  lemma {:induction false} CleanSecretsAreRedacted(text: string, secrets: seq<string>, secret: string, mark: string)
    requires secret in secrets && Clean(secret, mark)
    ensures Absent(RedactAll(text, secrets, mark), secret)
  {
    var earlier, last := secrets[..|secrets| - 1], secrets[|secrets| - 1];
    if last == secret {
      RedactRemoves(RedactAll(text, earlier, mark), last, secret, mark);
    } else {
      CleanSecretsAreRedacted(text, earlier, secret, mark);
      if last != "" { RedactRemoves(RedactAll(text, earlier, mark), last, secret, mark); }
    }
  }

  // ---- every other secret can be left in the copy ------------------------------------------------

  lemma {:induction false} RedactAbsent(text: string, secret: string, mark: string)
    requires secret != "" && Absent(text, secret)
    ensures Replace(text, secret, mark) == text
    decreases |text|
  {
    if text != "" {
      assert text == [text[0]] + text[1..];
      AbsentAfter([text[0]], text[1..], secret);
      RedactAbsent(text[1..], secret, mark);
    }
  }

  lemma {:induction false} RedactAfter(before: string, secret: string, after: string, mark: string)
    requires secret != ""
    requires forall i: nat :: i < |before| ==> !MatchesAt(before + secret + after, secret, i)
    ensures Replace(before + secret + after, secret, mark) == before + mark + Replace(after, secret, mark)
    decreases |before|
  {
    var text := before + secret + after;
    if before == "" {
      assert text[..|secret|] == secret && text[|secret|..] == after;
      assert before + mark + Replace(after, secret, mark) == mark + Replace(after, secret, mark);
    } else {
      var rest := before[1..] + secret + after;
      assert text == [before[0]] + rest;
      forall i: nat | i < |before| - 1 ensures !MatchesAt(rest, secret, i) {
        MatchInRest([before[0]], rest, secret, i + 1);
      }
      RedactAfter(before[1..], secret, after, mark);
      assert !MatchesAt(text, secret, 0) && text[1..] == rest;
    }
  }

  function Repeated(c: char, n: nat): string {
    seq(n, i => c)
  }

  lemma InTheRun(before: string, c: char, n: nat, after: string, at: nat)
    requires |before| <= at < |before| + n
    ensures (before + Repeated(c, n) + after)[at] == c
  {
  }

  /** A second secret, one character repeated, puts the mark between any two short texts. */
  lemma MarkBetween(before: string, c: char, n: nat, after: string, mark: string)
    requires n > |before| && n > |after| && (before == "" || before[|before| - 1] != c)
    ensures Replace(before + Repeated(c, n) + after, Repeated(c, n), mark) == before + mark + after
  {
    var run := Repeated(c, n);
    var text := before + run + after;
    forall i: nat | i < |before| ensures !MatchesAt(text, run, i) {
      MismatchAt(text, run, i, |before| - 1);
    }
    RedactAfter(before, run, after, mark);
    RedactAbsent(after, run, mark);
  }

  lemma TwoSecrets(text: string, secret: string, run: string, mark: string)
    requires secret != "" && run != "" && Absent(text, secret)
    ensures RedactAll(text, [secret, run], mark) == Replace(text, run, mark)
  {
    var earlier := [secret, run][..1];
    assert earlier == [secret] && earlier[..0] == [];
    RedactAbsent(text, secret, mark);
    assert RedactAll(text, earlier, mark) == text;
  }

  lemma OneSecret(text: string, secret: string, mark: string)
    requires secret != ""
    ensures RedactAll(text, [secret], mark) == Replace(text, secret, mark)
  {
    assert [secret][..0] == [];
  }

  lemma OtherDigit(a: char, b: char, c: char) returns (d: char)
    ensures '0' <= d <= '3' && d != a && d != b && d != c
  {
    d := if a != '0' && b != '0' && c != '0' then '0' else if a != '1' && b != '1' && c != '1' then '1'
         else if a != '2' && b != '2' && c != '2' then '2' else '3';
  }

  /** Trimming leaves it as it is. */
  predicate Firm(text: string) {
    text != "" && !IsWhite(text[0]) && !IsWhite(text[|text| - 1])
  }

  lemma FirmIsTrimmed(text: string)
    requires Firm(text)
    ensures Trim(text) == text
  {
    assert TrimStart(text) == text && TrimEnd(text) == text;
  }

  lemma SplitMatch(d: char, mark: string, q: string, secret: string, k: nat)
    requires k <= |mark| && k <= |secret| && mark[|mark| - k..] == secret[..k] && q == secret[k..]
    ensures MatchesAt([d] + mark + (q + [d]), secret, 1 + |mark| - k)
  {
    assert (mark + q)[|mark| - k..] == mark[|mark| - k..] + q == secret;
    var text := [d] + mark + (q + [d]);
    assert text == [d] + (mark + q) + [d];
    assert text[1 + |mark| - k..1 + |mark| + |q|] == (mark + q)[|mark| - k..];
  }

  lemma FirstDiffers(text: string, secret: string)
    requires text != "" && secret != "" && text[0] != secret[0]
    ensures !MatchesAt(text, secret, 0)
  {
  }

  /** The mark ends as the secret begins: what follows the secret completes it. */
  lemma LeaksAfterMark(secret: string, k: nat, mark: string, d: char)
    returns (text: string, secrets: seq<string>, at: nat)
    requires 0 < k < |secret| && k <= |mark| && mark[|mark| - k..] == secret[..k]
    requires '0' <= d <= '3' && d != secret[0] && d != secret[|secret| - 1]
    ensures Firm(text) && secret in secrets && MatchesAt(RedactAll(text, secrets, mark), secret, at)
  {
    hide Replace, RedactAll;
    var q := secret[k..];
    text, secrets, at := [d] + secret + (q + [d]), [secret], 1 + |mark| - k;
    FirstDiffers(text, secret);
    RedactAfter([d], secret, q + [d], mark);
    forall i: nat ensures !MatchesAt(q + [d], secret, i) {
      if i + |secret| <= |q| + 1 { MismatchAt(q + [d], secret, i, |q|); }
    }
    RedactAbsent(q + [d], secret, mark);
    OneSecret(text, secret, mark);
    SplitMatch(d, mark, q, secret, k);
  }

  /** The mark, put after another secret, completes this one: the secret ends as the mark begins. */
  lemma LeaksBeforeMark(secret: string, k: nat, mark: string, d: char)
    returns (text: string, secrets: seq<string>, at: nat)
    requires 0 < k < |secret| && k <= |mark| && secret[|secret| - k..] == mark[..k]
    requires '0' <= d <= '3' && d != secret[0] && d != secret[|secret| - 1]
    ensures Firm(text) && secret in secrets && MatchesAt(RedactAll(text, secrets, mark), secret, at)
  {
    hide Replace, RedactAll;
    var p := secret[..|secret| - k];
    var c := OtherDigit(secret[|secret| - 1], p[|p| - 1], d);
    var n := |secret| + 1;
    var run := Repeated(c, n);
    var before := [d] + p;
    text, secrets, at := before + run + "", [secret, run], 1;
    forall i: nat ensures !MatchesAt(text, secret, i) {
      if i + |secret| <= |text| {
        if i == 0 { FirstDiffers(text, secret); }
        else { MismatchAt(text, secret, i, i + |secret| - 1); }
      }
    }
    TwoSecrets(text, secret, run, mark);
    MarkBetween(before, c, n, "", mark);
    assert (before + mark + "")[1..1 + |secret|] == p + mark[..k] == secret;
  }

  /** The mark stands inside the secret: put there for another secret, it makes this one whole. */
  lemma LeaksAroundMark(secret: string, i: nat, mark: string, d: char)
    returns (text: string, secrets: seq<string>, at: nat)
    requires |mark| >= 3 && mark[0] != mark[1] && MatchesAt(secret, mark, i)
    requires '0' <= d <= '3' && d != secret[0]
    ensures Firm(text) && secret in secrets && MatchesAt(RedactAll(text, secrets, mark), secret, at)
  {
    hide Replace, RedactAll;
    var a, b := secret[..i], secret[i + |mark|..];
    assert secret == a + mark + b;
    var before, after := [d] + a, b + [d];
    var c := OtherDigit(before[|before| - 1], d, d);
    var n := |secret| + 1;
    var run := Repeated(c, n);
    text, secrets, at := before + run + after, [secret, run], 1;
    forall j: nat ensures !MatchesAt(text, secret, j) {
      if j == 0 {
        FirstDiffers(text, secret);
      } else if j + |secret| <= |text| {
        InTheRun(before, c, n, after, j + |a|);
        InTheRun(before, c, n, after, j + |a| + 1);
        assert secret[|a|] == mark[0] && secret[|a| + 1] == mark[1];
        MismatchAt(text, secret, j, if c == mark[0] then j + |a| + 1 else j + |a|);
      }
    }
    TwoSecrets(text, secret, run, mark);
    MarkBetween(before, c, n, after, mark);
    assert before + mark + after == [d] + (a + mark + b) + [d];
  }

  lemma LeaksInMark(secret: string, i: nat, mark: string, d: char)
    returns (text: string, secrets: seq<string>, at: nat)
    requires secret != "" && MatchesAt(mark, secret, i)
    requires '0' <= d <= '3' && d != secret[0]
    ensures Firm(text) && secret in secrets && MatchesAt(RedactAll(text, secrets, mark), secret, at)
  {
    hide Replace, RedactAll;
    text, secrets, at := [d] + secret + [d], [secret], 1 + i;
    FirstDiffers(text, secret);
    RedactAfter([d], secret, [d], mark);
    RedactAbsent([d], secret, mark);
    OneSecret(text, secret, mark);
    assert ([d] + mark + [d])[1 + i..1 + i + |secret|] == mark[i..i + |secret|];
  }

  lemma MarkEndsAsItBegins(secret: string, mark: string) returns (k: nat)
    requires Touches(mark, secret) && Absent(mark, secret)
    ensures 0 < k < |secret| && k <= |mark| && mark[|mark| - k..] == secret[..k]
  {
    k :| 0 < k <= |mark| && k <= |secret| && mark[|mark| - k..] == secret[..k];
    var i: nat := |mark| - k;
    assert !MatchesAt(mark, secret, i);
  }

  lemma SecretEndsAsMarkBegins(secret: string, mark: string) returns (k: nat)
    requires Touches(secret, mark) && Absent(mark, secret)
    ensures 0 < k < |secret| && k <= |mark| && secret[|secret| - k..] == mark[..k]
  {
    k :| 0 < k <= |secret| && k <= |mark| && secret[|secret| - k..] == mark[..k];
    assert !MatchesAt(mark, secret, 0);
  }

  /** Every secret that is not clean is left in some trimmed text. */
  lemma Leaks(secret: string, mark: string) returns (text: string, secrets: seq<string>, at: nat)
    requires |mark| >= 3 && mark[0] != mark[1] && !Clean(secret, mark) && secret != ""
    ensures Firm(text) && secret in secrets && MatchesAt(RedactAll(text, secrets, mark), secret, at)
  {
    hide Touches, RedactAll, Firm;
    var d := OtherDigit(secret[0], secret[|secret| - 1], ' ');
    if !Absent(mark, secret) {
      var i: nat :| MatchesAt(mark, secret, i);
      text, secrets, at := LeaksInMark(secret, i, mark, d);
    } else if !Absent(secret, mark) {
      var i: nat :| MatchesAt(secret, mark, i);
      text, secrets, at := LeaksAroundMark(secret, i, mark, d);
    } else if Touches(mark, secret) {
      var k := MarkEndsAsItBegins(secret, mark);
      text, secrets, at := LeaksAfterMark(secret, k, mark, d);
    } else {
      var k := SecretEndsAsMarkBegins(secret, mark);
      text, secrets, at := LeaksBeforeMark(secret, k, mark, d);
    }
  }

  // ---- the stored copy ---------------------------------------------------------------------------

  /** The last newline of the copy can complete it: it is that newline, or ends in one after a character
      that trimming leaves. */
  predicate EndsTheCopy(secret: string) {
    && secret != "" && secret[|secret| - 1] == '\n'
    && (|secret| == 1 || !IsWhite(secret[|secret| - 2]))
  }

  predicate EndsFirm(text: string) {
    text == "" || !IsWhite(text[|text| - 1])
  }

  lemma {:induction false} ReplaceEndsFirm(text: string, secret: string, mark: string)
    requires secret != "" && mark != "" && EndsFirm(mark) && EndsFirm(text)
    ensures EndsFirm(Replace(text, secret, mark)) && (text != "" ==> Replace(text, secret, mark) != "")
    decreases |text|
  {
    if MatchesAt(text, secret, 0) {
      ReplaceEndsFirm(text[|secret|..], secret, mark);
    } else if text != "" {
      ReplaceEndsFirm(text[1..], secret, mark);
    }
  }

  lemma {:induction false} RedactedEndsFirm(text: string, secrets: seq<string>)
    requires EndsFirm(text)
    ensures EndsFirm(RedactAll(text, secrets, REDACTED))
  {
    if secrets != [] {
      var earlier, last := secrets[..|secrets| - 1], secrets[|secrets| - 1];
      RedactedEndsFirm(text, earlier);
      if last != "" { ReplaceEndsFirm(RedactAll(text, earlier, REDACTED), last, REDACTED); }
    }
  }

  /** Before the newline a secret is gone because it is clean; across it, because it cannot end there. */
  lemma AbsentWithNewline(kept: string, secret: string)
    requires EndsFirm(kept) && secret != "" && Absent(kept, secret) && !EndsTheCopy(secret)
    ensures Absent(kept + "\n", secret)
  {
    var text := kept + "\n";
    forall i: nat ensures !MatchesAt(text, secret, i) {
      if i + |secret| <= |kept| {
        MatchInFirst(kept, "\n", secret, i);
      } else if i + |secret| == |text| {
        if secret[|secret| - 1] != '\n' {
          MismatchAt(text, secret, i, |kept|);
        } else {
          MismatchAt(text, secret, i, |kept| - 1);
        }
      }
    }
  }

  /** The other way round, a secret that can end the copy does, for a prompt that is all of it but the newline. */
  lemma CopyEndsInSecret(secret: string) returns (prompt: string, at: nat)
    requires EndsTheCopy(secret)
    ensures MatchesAt(Stored(prompt, [secret]), secret, at)
  {
    var x := secret[..|secret| - 1];
    assert secret == x + "\n";
    if x == "" {
      prompt, at := "", 0;
      OneSecret("", secret, REDACTED);
    } else {
      prompt, at := "0" + x, 1;
      FirmIsTrimmed(prompt);
      forall i: nat ensures !MatchesAt(prompt, secret, i) {
        if i + |secret| <= |prompt| { MismatchAt(prompt, secret, i, |prompt| - 1); }
      }
      OneSecret(prompt, secret, REDACTED);
      RedactAbsent(prompt, secret, REDACTED);
      assert (prompt + "\n")[1..] == secret;
    }
  }

  ghost predicate NeverStored(secret: string) {
    forall prompt: string, secrets: seq<string> :: secret in secrets ==> Absent(Stored(prompt, secrets), secret)
  }

  lemma CleanIsNeverStored(prompt: string, secrets: seq<string>, secret: string)
    requires secret in secrets && Clean(secret, REDACTED) && !EndsTheCopy(secret)
    ensures Absent(Stored(prompt, secrets), secret)
  {
    var from, to := TrimIsASlice(prompt);
    RedactedEndsFirm(Trim(prompt), secrets);
    CleanSecretsAreRedacted(Trim(prompt), secrets, secret, REDACTED);
    hide RedactAll, Trim;
    AbsentWithNewline(RedactAll(Trim(prompt), secrets, REDACTED), secret);
  }

  lemma UncleanIsStored(secret: string) returns (prompt: string, secrets: seq<string>, at: nat)
    requires !Clean(secret, REDACTED)
    ensures secret in secrets && MatchesAt(Stored(prompt, secrets), secret, at)
  {
    if secret == "" {
      prompt, secrets, at := "", [""], 0;
    } else {
      prompt, secrets, at := Leaks(secret, REDACTED);
      FirmIsTrimmed(prompt);
      hide RedactAll, Trim, Clean;
      MatchInFirst(RedactAll(prompt, secrets, REDACTED), "\n", secret, at);
    }
  }

  /** Whatever the prompt and the other secrets: a secret never stands in the stored copy if and only if it
      is clean and the copy's last newline cannot complete it. */
  lemma RedactionIsExact(secret: string)
    ensures NeverStored(secret) <==> Clean(secret, REDACTED) && !EndsTheCopy(secret)
  {
    hide Stored, Clean, EndsTheCopy;
    if !Clean(secret, REDACTED) {
      var prompt, secrets, at := UncleanIsStored(secret);
      assert !Absent(Stored(prompt, secrets), secret);
    } else if EndsTheCopy(secret) {
      var prompt, at := CopyEndsInSecret(secret);
      assert !Absent(Stored(prompt, [secret]), secret);
    } else {
      forall prompt: string, secrets: seq<string> | secret in secrets
        ensures Absent(Stored(prompt, secrets), secret)
      {
        CleanIsNeverStored(prompt, secrets, secret);
      }
    }
  }

  predicate HexKey(s: string) {
    forall i :: 0 <= i < |s| ==> '0' <= s[i] <= '9' || 'a' <= s[i] <= 'f' || 'A' <= s[i] <= 'F' || s[i] == 'x'
  }

  /** Every private key in hex is clean: the mark's longest hex run, `edac`, is shorter. */
  lemma PrivateKeysAreClean(key: string)
    requires HexKey(key) && |key| >= 5
    ensures Clean(key, REDACTED)
  {
    forall i: nat ensures !MatchesAt(REDACTED, key, i) {
      var stop := if i <= 1 then 1 else if i <= 6 then 6 else if i <= 9 then 9
                  else if i <= 11 then 11 else if i <= 13 then 13 else 15;
      if i + |key| <= |REDACTED| {
        MismatchAt(REDACTED, key, i, stop);
      }
    }
    forall i: nat ensures !MatchesAt(key, REDACTED, i) {
      if i + |REDACTED| <= |key| {
        MismatchAt(key, REDACTED, i, i);
      }
    }
    forall k: nat | 0 < k <= |REDACTED| && k <= |key| ensures REDACTED[|REDACTED| - k..] != key[..k] {
      assert REDACTED[|REDACTED| - k..][k - 1] == '>' && key[..k][k - 1] == key[k - 1];
    }
    forall k: nat | 0 < k <= |key| && k <= |REDACTED| ensures key[|key| - k..] != REDACTED[..k] {
      assert key[|key| - k..][0] == key[|key| - k] && REDACTED[..k][0] == '<';
    }
  }

  /** So no private key the caller names is left anywhere in the file that is written. */
  lemma KeysAreNotPersisted(prompt: string, secrets: seq<string>, key: string)
    requires key in secrets && HexKey(key) && |key| >= 5
    ensures Absent(Stored(prompt, secrets), key)
  {
    PrivateKeysAreClean(key);
    CleanIsNeverStored(prompt, secrets, key);
  }
}
