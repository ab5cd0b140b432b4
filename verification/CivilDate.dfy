// Day buckets: bridge/firmware/sync_protocol.h:75-94.
module CivilDate {
  import opened Decimal

  datatype Date = Date(y: int, m: int, d: int)

  // ---- The Gregorian calendar, as the reference ----

  predicate IsLeap(y: int) { y % 4 == 0 && (y % 100 != 0 || y % 400 == 0) }

  function MonthLength(y: int, m: int): int
  {
    if m == 2 then (if IsLeap(y) then 29 else 28)
    else if m == 4 || m == 6 || m == 9 || m == 11 then 30
    else 31
  }

  predicate Valid(t: Date) { 1 <= t.m <= 12 && 1 <= t.d <= MonthLength(t.y, t.m) }

  function Next(t: Date): Date
  {
    if t.d < MonthLength(t.y, t.m) then t.(d := t.d + 1)
    else if t.m < 12 then Date(t.y, t.m + 1, 1)
    else Date(t.y + 1, 1, 1)
  }

  // The calendar date `days` days after the epoch, counted one day at a time.
  function CalendarDate(days: nat): Date
  {
    if days == 0 then Date(1970, 1, 1) else Next(CalendarDate(days - 1))
  }

  // ---- The conversion of the source ----

  // C++ division of int64_t rounds toward zero.
  function TruncDiv(a: int, b: int): int
    requires b > 0
  {
    if a >= 0 then a / b else -((-a) / b)
  }

  // Year of the 400-year era and day of the March-based year, from the day of the era.
  function YearOfEra(doe: nat): int { (doe - doe / 1460 + doe / 36524 - doe / 146096) / 365 }

  function DayOfYear(doe: nat): int
  {
    var yoe := YearOfEra(doe);
    doe - (365 * yoe + yoe / 4 - yoe / 100)
  }

  function MonthDay(doy: int): (int, int)
  {
    var mp := (5 * doy + 2) / 153;
    var d := doy - (153 * mp + 2) / 5 + 1;
    (if mp < 10 then mp + 3 else mp - 9, d)
  }

  // Day `doy` of the year that starts on 1 March of civil year y.
  function MarchDate(y: int, doy: int): Date
  {
    var (m, d) := MonthDay(doy);
    Date(if m <= 2 then y + 1 else y, m, d)
  }

  // The date on day `doe` of a 400-year era.
  function DateInEra(era: int, doe: nat): Date
  {
    MarchDate(YearOfEra(doe) + era * 400, DayOfYear(doe))
  }

  function CivilFromDays(days: int): Date
  {
    var z := days + 719468;
    var era := TruncDiv(if z >= 0 then z else z - 146096, 146097);
    DateInEra(era, z - era * 146097)
  }

  // First day of the March-based year `yoe` inside its era.
  function YearStart(yoe: int): int
  {
    365 * yoe + yoe / 4 - yoe / 100 + (if yoe == 400 then 1 else 0)
  }

  // With c centuries, q four-year cycles, y years and t days in the last cycle, the quotients of the
  // formula count the leap days.
  lemma LeapDayCount(doe: nat, c: nat, q: nat, t: nat)
    requires c <= 3 && q <= 24 && t < 1461 && doe == 36524 * c + 1461 * q + t < 146097
    requires doe == 146096 || doe < 36524 * (c + 1)
    ensures doe / 1460 == 25 * c + q + (24 * c + q + t) / 1460
    ensures doe / 36524 == if doe == 146096 then 4 else c
    ensures doe / 146096 == if doe == 146096 then 1 else 0
  {
    assert doe == 1460 * (25 * c + q) + (24 * c + q + t);
  }

  lemma YearOfEraIs(doe: nat, c: nat, q: nat, t: nat, y: nat)
    requires c <= 3 && q <= 24 && t < 1461 && doe == 36524 * c + 1461 * q + t < 146097
    requires doe == 146096 || doe < 36524 * (c + 1)
    requires y == if t == 1460 then 3 else t / 365
    ensures YearOfEra(doe) == 100 * c + 4 * q + y < 400
  {
    LeapDayCount(doe, c, q, t);
    var extra := if 24 * c + q + t >= 1460 then 1 else 0;
    assert doe - doe / 1460 + doe / 36524 - doe / 146096 == 365 * (100 * c + 4 * q) + t - extra;
  }

  lemma YearStartIs(c: nat, q: nat, y: nat)
    requires c <= 3 && q <= 24 && y <= 4
    ensures YearStart(100 * c + 4 * q + y) ==
            36524 * c + 1461 * q + 365 * y + (if y == 4 && (q < 24 || c == 3) then 1 else 0)
  {
  }

  lemma YearOfEraBounds(doe: nat)
    requires doe < 146097
    ensures 0 <= YearOfEra(doe) < 400
    ensures YearStart(YearOfEra(doe)) <= doe < YearStart(YearOfEra(doe) + 1)
  {
    var c := if doe == 146096 then 3 else doe / 36524;
    var q := (doe - 36524 * c) / 1461;
    var t := doe - 36524 * c - 1461 * q;
    var y := if t == 1460 then 3 else t / 365;
    YearOfEraIs(doe, c, q, t, y);
    hide YearOfEra, YearStart;
    YearStartIs(c, q, y);
    YearStartIs(c, q, y + 1);
  }

  // A March-based year has 366 days exactly when the civil year it ends in is leap.
  lemma YearStep(era: int, yoe: int)
    requires 0 <= yoe < 400
    ensures YearStart(yoe + 1) - YearStart(yoe) == if IsLeap(yoe + era * 400 + 1) then 366 else 365
  {
    LeapInEra(yoe + 1, era);
    hide IsLeap;
    var c, q := (yoe + 1) / 100, (yoe + 1) / 4;
    assert yoe / 100 == if (yoe + 1) % 100 == 0 then c - 1 else c;
    assert yoe / 4 == if (yoe + 1) % 4 == 0 then q - 1 else q;
  }

  lemma LeapInEra(y: int, era: int)
    requires 0 < y <= 400
    ensures IsLeap(y + era * 400) <==> y == 400 || (y % 4 == 0 && y % 100 != 0)
  {
    Mod400(y, era);
    Mod100(y, era * 4);
    Mod4(y, era * 100);
  }

  lemma Mod400(y: int, k: int)
    ensures (y + k * 400) % 400 == y % 400
  {
    assert y + k * 400 == 400 * (y / 400 + k) + y % 400;
  }

  lemma Mod100(y: int, k: int)
    ensures (y + k * 100) % 100 == y % 100
  {
    assert y + k * 100 == 100 * (y / 100 + k) + y % 100;
  }

  lemma Mod4(y: int, k: int)
    ensures (y + k * 4) % 4 == y % 4
  {
    assert y + k * 4 == 4 * (y / 4 + k) + y % 4;
  }

  // Days of one March-based year, in order, run from 1 March to the end of February.
  lemma MarchStep(y: int, doy: int)
    requires 0 <= doy < (if IsLeap(y + 1) then 366 else 365)
    ensures Valid(MarchDate(y, doy))
    ensures Next(MarchDate(y, doy)) ==
            if doy + 1 < (if IsLeap(y + 1) then 366 else 365) then MarchDate(y, doy + 1) else MarchDate(y + 1, 0)
  {
  }

  lemma YearUnique(doe: nat, yoe: int)
    requires doe < 146097 && 0 <= yoe < 400 && YearStart(yoe) <= doe < YearStart(yoe + 1)
    ensures YearOfEra(doe) == yoe
  {
    YearOfEraBounds(doe);
  }

  lemma EraEnds()
    ensures YearStart(0) == 0 && YearStart(399) == 145731 && YearStart(400) == 146097
    ensures YearOfEra(0) == 0 && YearOfEra(146096) == 399
  {
  }

  lemma DayOfYearIs(doe: nat)
    requires doe < 146097
    ensures DayOfYear(doe) == doe - YearStart(YearOfEra(doe))
  {
    YearOfEraBounds(doe);
    hide YearOfEra;
  }

  lemma DayInEra(era: int, doe: nat)
    requires doe < 146097
    ensures Valid(DateInEra(era, doe))
    ensures Next(DateInEra(era, doe)) == if doe < 146096 then DateInEra(era, doe + 1) else DateInEra(era + 1, 0)
  {
    hide YearOfEra, MarchDate, IsLeap, Valid, Next, YearStart;
    var yoe := YearOfEra(doe);
    YearOfEraBounds(doe);
    YearStep(era, yoe);
    DayOfYearIs(doe);
    MarchStep(yoe + era * 400, DayOfYear(doe));
    EraEnds();
    if doe == 146096 {
      DayOfYearIs(0);
    } else if doe + 1 < YearStart(yoe + 1) {
      YearUnique(doe + 1, yoe);
      DayOfYearIs(doe + 1);
    } else {
      YearStep(era, yoe + 1);
      YearUnique(doe + 1, yoe + 1);
      DayOfYearIs(doe + 1);
    }
  }

  lemma EraOf(days: int)
    ensures var z := days + 719468;
            CivilFromDays(days) == DateInEra(z / 146097, z % 146097)
  {
    hide DateInEra;
    var z := days + 719468;
    assert TruncDiv(if z >= 0 then z else z - 146096, 146097) == z / 146097;
  }

  // Every day number gives a valid date, and consecutive days give consecutive dates.
  lemma CivilStep(days: int)
    ensures Valid(CivilFromDays(days))
    ensures CivilFromDays(days + 1) == Next(CivilFromDays(days))
  {
    hide DateInEra, Valid, Next;
    EraOf(days);
    EraOf(days + 1);
    var z := days + 719468;
    DayInEra(z / 146097, z % 146097);
    if z % 146097 == 146096 {
      assert (z + 1) / 146097 == z / 146097 + 1 && (z + 1) % 146097 == 0;
    } else {
      assert (z + 1) / 146097 == z / 146097 && (z + 1) % 146097 == z % 146097 + 1;
    }
  }

  // The closed formula is the calendar.
  lemma EpochDate()
    ensures CivilFromDays(0) == Date(1970, 1, 1)
  {
  }

  lemma {:induction false} CivilIsCalendar(days: nat)
    ensures CivilFromDays(days) == CalendarDate(days)
  {
    hide CivilFromDays, Next, Valid;
    if days == 0 {
      EpochDate();
    }
    if days > 0 {
      CivilIsCalendar(days - 1);
      CivilStep(days - 1);
    }
  }

  // Position of a date in the order of dates.
  function Rank(t: Date): int { (t.y * 12 + t.m) * 32 + t.d }

  lemma {:induction false} CivilIncreases(a: int, b: int)
    requires a <= b
    ensures Rank(CivilFromDays(a)) + (b - a) <= Rank(CivilFromDays(b))
    decreases b - a
  {
    hide CivilFromDays, IsLeap;
    if a < b {
      CivilIncreases(a, b - 1);
      CivilStep(b - 1);
    }
  }

  lemma CivilInjective(a: int, b: int)
    ensures CivilFromDays(a) == CivilFromDays(b) <==> a == b
  {
    if a < b { CivilIncreases(a, b); } else { CivilIncreases(b, a); }
  }

  // ---- The session id ----

  // The decimal digits of n, with zeros in front up to the width.
  function Padded(n: nat, width: nat): string
  {
    var digits := ToString(n);
    seq(if |digits| < width then width - |digits| else 0, _ => '0') + digits
  }

  // %04lld: the width counts the sign.
  function YearDigits(y: int): string { if y < 0 then Padded(-y, 3) else Padded(y, 4) }

  function DateDigits(t: Date): string
    requires Valid(t)
  {
    YearDigits(t.y) + Padded(t.m, 2) + Padded(t.d, 2)
  }

  function DailySessionId(deviceId: string, epochSec: int): string
  {
    var days := TruncDiv(epochSec, 86400);
    CivilStep(days);
    var date := CivilFromDays(days);
    deviceId + "-" + (if date.y < 0 then "-" else "") + DateDigits(date)
  }

  lemma PaddedExact(n: nat, width: nat)
    ensures AllDigits(Padded(n, width)) && Value(Padded(n, width)) == n
    ensures |Padded(n, width)| == if |ToString(n)| < width then width else |ToString(n)|
  {
    hide ToString, Value, AllDigits;
    ValueOfToString(n);
    ZerosKeepValue(seq(if |ToString(n)| < width then width - |ToString(n)| else 0, _ => '0'), ToString(n));
  }

  lemma DigitCount(n: nat)
    ensures n < 100 ==> |ToString(n)| <= 2
    ensures |ToString(n)| >= 4 <==> n >= 1000
    ensures n < 10000 ==> |ToString(n)| <= 4
  {
    assert n >= 10 ==> |ToString(n)| == |ToString(n / 10)| + 1;
    assert n >= 100 ==> |ToString(n / 10)| == |ToString(n / 100)| + 1;
    assert n >= 1000 ==> |ToString(n / 100)| == |ToString(n / 1000)| + 1;
  }

  lemma {:induction false} ZerosKeepValue(z: string, s: string)
    requires forall k :: 0 <= k < |z| ==> z[k] == '0'
    requires AllDigits(s)
    ensures AllDigits(z + s) && Value(z + s) == Value(s)
  {
    if s == "" {
      assert z + s == z;
      if z != "" {
        ZerosKeepValue(z[..|z| - 1], s);
        assert z[..|z| - 1] + s == z[..|z| - 1];
      }
    } else {
      ZerosKeepValue(z, s[..|s| - 1]);
      assert (z + s)[..|z + s| - 1] == z + s[..|s| - 1];
    }
  }

  // The text after the last dash is the date, so both parts can be read off.
  lemma SplitSession(d1: string, t1: string, d2: string, t2: string)
    requires AllDigits(t1) && AllDigits(t2) && d1 + "-" + t1 == d2 + "-" + t2
    ensures d1 == d2 && t1 == t2
  {
    var s := d1 + "-" + t1;
    LastDash(s, d1, t1);
    LastDash(s, d2, t2);
    assert d1 == s[..|d1|] == s[..|d2|] == d2;
    assert t1 == s[|d1| + 1..] == s[|d2| + 1..] == t2;
  }

  lemma LastDash(s: string, d: string, t: string)
    requires s == d + "-" + t && AllDigits(t)
    ensures s[|d|] == '-' && forall k {:trigger s[k]} :: |d| < k < |s| ==> s[k] != '-'
  {
    forall k | |d| < k < |s|
      ensures s[k] != '-'
    {
      assert s[k] == t[k - |d| - 1];
    }
  }

  // The years that are written with the same digits.
  predicate SameDigits(y1: int, y2: int) { y1 == y2 || (y1 == -y2 && (y1 >= 1000 || y2 >= 1000)) }

  lemma YearDigitsExact(y1: int, y2: int)
    ensures AllDigits(YearDigits(y1))
    ensures YearDigits(y1) == YearDigits(y2) <==> SameDigits(y1, y2)
  {
    hide ToString, Value, AllDigits, Padded;
    var n1, n2 := if y1 < 0 then -y1 else y1, if y2 < 0 then -y2 else y2;
    PaddedExact(n1, if y1 < 0 then 3 else 4);
    PaddedExact(n2, if y2 < 0 then 3 else 4);
    DigitCount(n1);
    DigitCount(n2);
    if n1 == n2 >= 1000 {
      PaddedWide(n1);
    }
  }

  lemma PaddedWide(n: nat)
    requires n >= 1000
    ensures Padded(n, 3) == Padded(n, 4)
  {
    DigitCount(n);
  }

  lemma DateDigitsExact(a: Date, b: Date)
    requires Valid(a) && Valid(b)
    ensures AllDigits(DateDigits(a))
    ensures DateDigits(a) == DateDigits(b) <==> SameDigits(a.y, b.y) && a.m == b.m && a.d == b.d
  {
    hide IsLeap, YearDigits, Padded, Value, ToString;
    YearDigitsExact(a.y, b.y);
    MonthAndDay(a);
    MonthAndDay(b);
    assert AllDigits(DateDigits(a)) by { hide MonthLength; }
    var s, t := DateDigits(a), DateDigits(b);
    if s == t {
      var n := |YearDigits(a.y)|;
      assert YearDigits(a.y) == s[..n] == t[..n] == YearDigits(b.y);
      assert Padded(a.m, 2) == s[n..n + 2] == t[n..n + 2] == Padded(b.m, 2);
      assert Padded(a.d, 2) == s[n + 2..] == t[n + 2..] == Padded(b.d, 2);
    }
  }

  lemma MonthAndDay(t: Date)
    requires Valid(t)
    ensures |Padded(t.m, 2)| == |Padded(t.d, 2)| == 2 && AllDigits(Padded(t.m, 2)) && AllDigits(Padded(t.d, 2))
    ensures Value(Padded(t.m, 2)) == t.m && Value(Padded(t.d, 2)) == t.d
  {
    hide Padded, Value, ToString;
    PaddedExact(t.m, 2);
    PaddedExact(t.d, 2);
    DigitCount(t.m);
    DigitCount(t.d);
  }

  // Day a of the device whose name has one dash more, in a year from 1000 on, and day b, the same date in the
  // year with the opposite sign.
  predicate Mirrored(device1: string, a: int, device2: string, b: int)
  {
    var s, t := CivilFromDays(a), CivilFromDays(b);
    device1 == device2 + "-" && s == t.(y := -t.y) && s.y >= 1000
  }

  // When two ids agree: device and truncated day are the same, or the dash between name and date in one of them
  // is the sign of the year in the other.
  lemma SessionIdExact(device1: string, epoch1: int, device2: string, epoch2: int)
    ensures DailySessionId(device1, epoch1) == DailySessionId(device2, epoch2)
            <==> var a, b := TruncDiv(epoch1, 86400), TruncDiv(epoch2, 86400);
                 (device1 == device2 && a == b) || Mirrored(device1, a, device2, b) || Mirrored(device2, b, device1, a)
  {
    hide CivilFromDays, Valid, DateDigits, AllDigits;
    var a, b := TruncDiv(epoch1, 86400), TruncDiv(epoch2, 86400);
    CivilStep(a);
    CivilStep(b);
    var date1, date2 := CivilFromDays(a), CivilFromDays(b);
    DateDigitsExact(date1, date2);
    DateDigitsExact(date2, date1);
    CivilInjective(a, b);
    var name1, name2 := device1 + (if date1.y < 0 then "-" else ""), device2 + (if date2.y < 0 then "-" else "");
    IdSplit(device1, epoch1);
    IdSplit(device2, epoch2);
    assert device1 + "" == device1 && device2 + "" == device2;
    hide DailySessionId;
    if DailySessionId(device1, epoch1) == DailySessionId(device2, epoch2) {
      SplitSession(name1, DateDigits(date1), name2, DateDigits(date2));
      DropSign(device1, device2);
    }
  }

  // They do meet: 1 March of the year 1000 and of the year -1000.
  lemma IdsMeet(device: string)
    ensures DailySessionId(device + "-", 86400 * -354226) == DailySessionId(device, 86400 * -1084711)
  {
    Year1000();
    hide CivilFromDays, DailySessionId;
    SessionIdExact(device + "-", 86400 * -354226, device, 86400 * -1084711);
  }

  lemma Year1000()
    ensures CivilFromDays(-354226) == Date(1000, 3, 1) && CivilFromDays(-1084711) == Date(-1000, 3, 1)
  {
    hide DateInEra, YearOfEra, DayOfYear;
    MarchFirst(2);
    MarchFirst(-3);
  }

  // Day 73048 of an era is the first of March of its year 200.
  lemma MarchFirst(era: int)
    ensures DateInEra(era, 73048) == Date(200 + era * 400, 3, 1)
  {
    YearOfEraIs(73048, 2, 0, 0, 0);
    hide YearOfEra;
  }

  lemma DropSign(a: string, b: string)
    ensures a + "-" == b + "-" ==> a == b
  {
    assert (a + "-")[..|a + "-"| - 1] == a && (b + "-")[..|b + "-"| - 1] == b;
  }

  lemma IdSplit(device: string, epoch: int)
    ensures var date := CivilFromDays(TruncDiv(epoch, 86400));
            && Valid(date)
            && DailySessionId(device, epoch) == (device + (if date.y < 0 then "-" else "")) + "-" + DateDigits(date)
  {
    hide CivilFromDays, Valid, DateDigits;
    CivilStep(TruncDiv(epoch, 86400));
  }

  // The ids of one device agree exactly on one truncated day; from the epoch on they change exactly at UTC midnight.
  lemma SessionIdPerUtcDay(device: string, epoch1: int, epoch2: int)
    ensures DailySessionId(device, epoch1) == DailySessionId(device, epoch2)
            <==> TruncDiv(epoch1, 86400) == TruncDiv(epoch2, 86400)
    ensures epoch1 >= 0 && epoch2 >= 0 ==>
              (DailySessionId(device, epoch1) == DailySessionId(device, epoch2) <==> epoch1 / 86400 == epoch2 / 86400)
  {
    hide DailySessionId;
    SessionIdExact(device, epoch1, device, epoch2);
  }

  // ---- Reading an id back ----

  // The text is a year, then two digits of month, then two digits of day.
  ghost predicate Reads(text: string, t: Date)
  {
    var n := |text|;
    && n >= 7 && AllDigits(text[..n - 4]) && AllDigits(text[n - 4..n - 2]) && AllDigits(text[n - 2..])
    && Value(text[..n - 4]) == (if t.y < 0 then -t.y else t.y)
    && Value(text[n - 4..n - 2]) == t.m && Value(text[n - 2..]) == t.d
  }

  lemma DigitsRead(t: Date)
    requires Valid(t)
    ensures Reads(DateDigits(t), t)
    ensures 0 <= t.y < 10000 ==> |DateDigits(t)| == 8
  {
    hide Padded, Value, ToString, IsLeap, AllDigits;
    var year, month, day := YearDigits(t.y), Padded(t.m, 2), Padded(t.d, 2);
    PaddedExact(if t.y < 0 then -t.y else t.y, if t.y < 0 then 3 else 4);
    DigitCount(if t.y < 0 then -t.y else t.y);
    MonthAndDay(t);
    var text := DateDigits(t);
    var n := |text|;
    assert text[..n - 4] == year && text[n - 4..n - 2] == month && text[n - 2..] == day;
  }

  // For every device and instant: behind the device and a dash stand the sign of a negative year and then year,
  // month and day of the date.
  lemma IdReads(device: string, epoch: int)
    ensures var id, date := DailySessionId(device, epoch), CivilFromDays(TruncDiv(epoch, 86400));
            var at := |device| + if date.y < 0 then 2 else 1;
            && |id| >= at + 7 && id[..at] == device + (if date.y < 0 then "--" else "-")
            && Valid(date) && Reads(id[at..], date)
  {
    hide CivilFromDays, Reads, Valid, DateDigits;
    IdSplit(device, epoch);
    var date := CivilFromDays(TruncDiv(epoch, 86400));
    DigitsRead(date);
    ReadsLong(DateDigits(date), date);
    var lead := (device + (if date.y < 0 then "-" else "")) + "-";
    assert lead == device + (if date.y < 0 then "--" else "-");
    assert (lead + DateDigits(date))[|lead|..] == DateDigits(date);
  }

  lemma ReadsLong(text: string, t: Date)
    requires Reads(text, t)
    ensures |text| >= 7
  {
  }

  // From the epoch to the year 9999: the last nine characters are a dash and eight digits, which are the year, the
  // month and the day of the calendar counted from the epoch, and the rest is the device.
  lemma IdReadBack(device: string, epoch: nat)
    requires CalendarDate(epoch / 86400).y < 10000
    ensures var id, date := DailySessionId(device, epoch), CalendarDate(epoch / 86400);
            var n := |id|;
            && n == |device| + 9 && id[..n - 9] == device && id[n - 9] == '-' && AllDigits(id[n - 8..])
            && AllDigits(id[n - 8..n - 4]) && AllDigits(id[n - 4..n - 2]) && AllDigits(id[n - 2..])
            && Value(id[n - 8..n - 4]) == date.y && Value(id[n - 4..n - 2]) == date.m && Value(id[n - 2..]) == date.d
  {
    var id, date := DailySessionId(device, epoch), CalendarDate(epoch / 86400);
    CivilIsCalendar(epoch / 86400);
    CalendarYear(epoch / 86400);
    IdSplit(device, epoch);
    DigitsRead(date);
    hide DailySessionId, CivilFromDays, CalendarDate, Valid, DateDigits, Value;
    DateDigitsAll(date);
    NoSign(device, DateDigits(date));
    LastNine(device, DateDigits(date), id);
  }

  lemma NoSign(device: string, text: string)
    ensures (device + "") + "-" + text == device + "-" + text
  {
    assert device + "" == device;
  }

  lemma LastNine(device: string, text: string, id: string)
    requires |text| == 8 && id == device + "-" + text
    ensures var n := |id|;
            && n == |device| + 9 && id[..n - 9] == device && id[n - 9] == '-' && id[n - 8..] == text
            && id[n - 8..n - 4] == text[..4] && id[n - 4..n - 2] == text[4..6] && id[n - 2..] == text[6..]
  {
  }

  lemma DateDigitsAll(t: Date)
    requires Valid(t)
    ensures AllDigits(DateDigits(t))
  {
    DateDigitsExact(t, t);
  }

  lemma {:induction false} CalendarYear(days: nat)
    ensures CalendarDate(days).y >= 1970
  {
    if days > 0 {
      CalendarYear(days - 1);
    }
  }

  // 2 January 2024, at midnight.
  lemma KnownId(device: string)
    ensures DailySessionId(device, 1704153600) == device + "-20240102"
  {
    Known2024();
    KnownDigits();
    hide CivilFromDays, DateDigits, Valid;
    IdSplit(device, 1704153600);
    assert device + "" == device;
    assert "-" + "20240102" == "-20240102";
    assert device + "-" + "20240102" == device + ("-" + "20240102");
  }

  lemma Known2024()
    ensures CivilFromDays(19724) == Date(2024, 1, 2)
  {
    YearOfEraIs(8707, 0, 5, 1402, 3);
    hide YearOfEra;
    assert DayOfYear(8707) == 307;
  }

  lemma KnownDigits()
    ensures DateDigits(Date(2024, 1, 2)) == "20240102"
  {
    assert ToString(2) == "2" && ToString(1) == "1";
    assert ToString(20) == ToString(2) + "0" && ToString(202) == ToString(20) + "2";
    assert ToString(2024) == ToString(202) + "4" == "2024";
    assert Padded(1, 2) == "0" + "1" && Padded(2, 2) == "0" + "2" && Padded(2024, 4) == "" + "2024";
  }

  // Before the epoch the rounding toward zero gives the day after, except at midnight: the id is that of the
  // midnight with which the UTC day of the instant begins exactly in these cases.
  lemma NamesUtcDay(device: string, epoch: int)
    ensures CivilFromDays(TruncDiv(epoch, 86400)) == CivilFromDays(epoch / 86400)
            <==> epoch >= 0 || epoch % 86400 == 0
    ensures DailySessionId(device, epoch) == DailySessionId(device, epoch - epoch % 86400)
            <==> epoch >= 0 || epoch % 86400 == 0
  {
    hide CivilFromDays, DailySessionId;
    CivilInjective(TruncDiv(epoch, 86400), epoch / 86400);
    SessionIdPerUtcDay(device, epoch, epoch - epoch % 86400);
  }
}
