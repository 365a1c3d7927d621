/** Day salts and daily visitor keys. */
module VisitorKey {
  import opened Calendar
  import opened Decimal
  import opened Options

  // ------------------------------------------------------------------------------------------
  // UTC days
  // ------------------------------------------------------------------------------------------

  function DayOf(t: int): int { t / MS_PER_DAY }

  function YearText(year: int): string { if year < 0 then "-" + Print(-year) else Print(year) }

  function DateText(c: Civil): string
    requires c.Valid()
  {
    YearText(c.year) + "-" + Pad2(c.month) + "-" + Pad2(c.day)
  }

  /** `yyyy-mm-dd` in UTC. */
  function DaySalt(t: int): string {
    FromDayIs(DayOf(t));
    DateText(FromDay(DayOf(t)))
  }

  /** Midnight of the date the salt names. */
  function UtcDay(t: int): int { ToDay(FromDay(DayOf(t))) * MS_PER_DAY }

  /** `date.setUTCDate(date.getUTCDate() + days)` */
  function ShiftUtcDate(t: int, days: int): int {
    var c := FromDay(DayOf(t));
    MakeDay(c.year, c.month - 1, c.day + days) * MS_PER_DAY + t % MS_PER_DAY
  }

  function NextDay(day: int): int { ShiftUtcDate(day, 1) }

  function PreviousUtcDay(t: int): int { ShiftUtcDate(UtcDay(t), -1) }

  /** Shifting the date, through month and year ends, is shifting by whole days. */
  lemma ShiftIsWholeDays(t: int, days: int)
    ensures ShiftUtcDate(t, days) == t + days * MS_PER_DAY
  {
    hide FromDay, MakeDay, MonthStart;
    var c := FromDay(DayOf(t));
    DayRoundTrip(DayOf(t));
    MakeDayIs(c.year, c.month - 1, c.day);
    MakeDayIs(c.year, c.month - 1, c.day + days);
  }

  lemma UtcDayIs(t: int)
    ensures UtcDay(t) == DayOf(t) * MS_PER_DAY && NextDay(UtcDay(t)) == UtcDay(t) + MS_PER_DAY
    ensures PreviousUtcDay(t) == UtcDay(t) - MS_PER_DAY
  {
    hide FromDay, MakeDay, ShiftUtcDate;
    DayRoundTrip(DayOf(t));
    ShiftIsWholeDays(UtcDay(t), 1);
    ShiftIsWholeDays(UtcDay(t), -1);
  }

  lemma YearTextInjective(y: int, y': int)
    requires YearText(y) == YearText(y')
    ensures y == y'
  {
    if y < 0 { assert YearText(y)[1..] == Print(-y); PrintParse(-y); } else { PrintParse(y); }
    if y' < 0 { assert YearText(y')[1..] == Print(-y'); PrintParse(-y'); } else { PrintParse(y'); }
    assert (y < 0) == (YearText(y)[0] == '-') && (y' < 0) == (YearText(y')[0] == '-');
  }

  lemma DateTextInjective(c: Civil, c': Civil)
    requires c.Valid() && c'.Valid() && DateText(c) == DateText(c')
    ensures c == c'
  {
    ShortFields(c);
    ShortFields(c');
    hide YearText, Pad2;
    Pad2Parse(c.month);
    Pad2Parse(c'.month);
    Pad2Parse(c.day);
    Pad2Parse(c'.day);
    SameFields(YearText(c.year), Pad2(c.month), Pad2(c.day), YearText(c'.year), Pad2(c'.month), Pad2(c'.day));
    YearTextInjective(c.year, c'.year);
  }

  lemma SameFields(y: string, m: string, d: string, y': string, m': string, d': string)
    requires |m| == |m'| == |d| == |d'| == 2 && y + "-" + m + "-" + d == y' + "-" + m' + "-" + d'
    ensures y == y' && m == m' && d == d'
  {
    var s, s', n := y + "-" + m + "-" + d, y' + "-" + m' + "-" + d', |y|;
    assert |s| == n + 6 && |s'| == |y'| + 6;
    assert s[..n] == y && s'[..n] == y';
    assert s[n + 1..n + 3] == m && s'[n + 1..n + 3] == m';
    assert s[n + 4..] == d && s'[n + 4..] == d';
  }

  lemma ShortFields(c: Civil)
    requires c.Valid()
    ensures c.month < 100 && c.day < 100
  {
    var leap := Leap(c.year);
    MonthsAscend(0, c.month - 1, leap);
    assert DaysInMonth(c.year, c.month) <= 31;
  }

  /** Two instants share a salt exactly when they fall in the same half-open range the rollup scans. */
  lemma SaltExactly(t: int, u: int)
    ensures DaySalt(t) == DaySalt(u) <==> UtcDay(t) <= u < NextDay(UtcDay(t))
  {
    hide FromDay, MakeDay, DateText;
    UtcDayIs(t);
    FromDayIs(DayOf(t));
    FromDayIs(DayOf(u));
    if DaySalt(t) == DaySalt(u) {
      DateTextInjective(FromDay(DayOf(t)), FromDay(DayOf(u)));
      DayRoundTrip(DayOf(t));
      DayRoundTrip(DayOf(u));
    }
    assert DayOf(t) == DayOf(u) <==> DayOf(t) * MS_PER_DAY <= u < DayOf(t) * MS_PER_DAY + MS_PER_DAY;
  }

  // ------------------------------------------------------------------------------------------
  // Keys
  // ------------------------------------------------------------------------------------------

  function KeyInput(ip: Option<string>, userAgent: Option<string>, t: int): string {
    "analytics:" + (if ip.Some? then ip.value else "unknown") + "|" +
    (if userAgent.Some? then userAgent.value else "") + "|" + DaySalt(t)
  }

  /** `hash` stands for the keyed hash, its re-encoding and its truncation. */
  function KeyOf(hash: string -> string, ip: Option<string>, userAgent: Option<string>, t: int): string {
    hash(KeyInput(ip, userAgent, t))
  }

  /** What is hashed on one day is never hashed on another, so a key seen on two days is a collision of the hash. */
  lemma KeysDoNotCrossDays(hash: string -> string, ip: Option<string>, ua: Option<string>, t: int,
                           ip': Option<string>, ua': Option<string>, t': int)
    requires DayOf(t) != DayOf(t')
    ensures KeyInput(ip, ua, t) != KeyInput(ip', ua', t')
    ensures KeyOf(hash, ip, ua, t) == KeyOf(hash, ip', ua', t') ==>
      exists a, b :: a != b && hash(a) == hash(b)
  {
    InputsOfOneDay(ip, ua, t, ip', ua', t');
    hide KeyInput;
  }

  lemma InputsOfOneDay(ip: Option<string>, ua: Option<string>, t: int, ip': Option<string>, ua': Option<string>, t': int)
    ensures KeyInput(ip, ua, t) == KeyInput(ip', ua', t') ==> DayOf(t) == DayOf(t')
  {
    hide DaySalt;
    var a, b := KeyInput(ip, ua, t), KeyInput(ip', ua', t');
    if a == b {
      var p := a[..|a| - |DaySalt(t)| - 1];
      var p' := b[..|b| - |DaySalt(t')| - 1];
      assert a == p + "|" + DaySalt(t) && b == p' + "|" + DaySalt(t');
      SaltHasNoBar(t);
      SaltHasNoBar(t');
      LastBar(p, DaySalt(t), p', DaySalt(t'));
      SaltExactly(t, t');
      UtcDayIs(t);
    }
  }

  function ShownIp(ip: Option<string>): string { if ip.Some? then ip.value else "unknown" }

  function ShownAgent(agent: Option<string>): string { if agent.Some? then agent.value else "" }

  /** Two clients are hashed from the same text exactly when they come on the same day with the same address and the same
      browser, an unknown address and a missing browser counting as such. Addresses hold no bar. */
  lemma SameInputExactly(ip: Option<string>, ua: Option<string>, t: int, ip': Option<string>, ua': Option<string>, t': int)
    requires '|' !in ShownIp(ip) && '|' !in ShownIp(ip')
    ensures KeyInput(ip, ua, t) == KeyInput(ip', ua', t') <==>
      DayOf(t) == DayOf(t') && ShownIp(ip) == ShownIp(ip') && ShownAgent(ua) == ShownAgent(ua')
  {
    InputsOfOneDay(ip, ua, t, ip', ua', t');
    if DayOf(t) == DayOf(t') {
      SaltExactly(t, t');
      UtcDayIs(t);
    }
    InputIs(ip, ua, t);
    InputIs(ip', ua', t');
    hide DaySalt, UtcDay, NextDay, KeyInput, ShownIp, ShownAgent;
    if KeyInput(ip, ua, t) == KeyInput(ip', ua', t') {
      SameParts(ShownIp(ip), ShownAgent(ua), ShownIp(ip'), ShownAgent(ua'), DaySalt(t));
    }
  }

  lemma InputIs(ip: Option<string>, ua: Option<string>, t: int)
    ensures KeyInput(ip, ua, t) == "analytics:" + (ShownIp(ip) + "|" + (ShownAgent(ua) + "|" + DaySalt(t)))
  {
    hide DaySalt;
    assert KeyInput(ip, ua, t) == "analytics:" + (ShownIp(ip) + "|" + (ShownAgent(ua) + "|" + DaySalt(t)));
  }

  lemma SameParts(ip: string, ua: string, ip': string, ua': string, salt: string)
    requires '|' !in ip && '|' !in ip'
    requires "analytics:" + (ip + "|" + (ua + "|" + salt)) == "analytics:" + (ip' + "|" + (ua' + "|" + salt))
    ensures ip == ip' && ua == ua'
  {
    var rest, rest' := ua + "|" + salt, ua' + "|" + salt;
    var a, b := ip + "|" + rest, ip' + "|" + rest';
    assert ("analytics:" + a)[10..] == a && ("analytics:" + b)[10..] == b;
    FirstBar(ip, rest, ip', rest');
    assert rest[..|rest| - |salt| - 1] == ua && rest'[..|rest'| - |salt| - 1] == ua';
  }

  lemma BarWithin(p: string, s: string, p': string, s': string)
    requires p + "|" + s == p' + "|" + s' && |p| < |p'|
    ensures '|' in p'
  {
    var t := p + "|" + s;
    assert t[|p|] == '|' && t[|p|] == p'[|p|];
  }

  lemma FirstBar(p: string, s: string, p': string, s': string)
    requires p + "|" + s == p' + "|" + s' && '|' !in p && '|' !in p'
    ensures p == p' && s == s'
  {
    if |p| < |p'| { BarWithin(p, s, p', s'); }
    if |p'| < |p| { BarWithin(p', s', p, s); }
    var t := p + "|" + s;
    assert t[..|p|] == p && t[|p| + 1..] == s && (p' + "|" + s')[..|p'|] == p' && (p' + "|" + s')[|p'| + 1..] == s';
  }

  lemma SaltHasNoBar(t: int)
    ensures '|' !in DaySalt(t)
  {
    FromDayIs(DayOf(t));
    hide FromDay, Print, Pad2;
  }

  lemma LastBar(p: string, s: string, p': string, s': string)
    requires p + "|" + s == p' + "|" + s' && '|' !in s && '|' !in s'
    ensures s == s'
  {
    if |p| < |p'| { BarInside(p, s, p', s'); }
    if |p'| < |p| { BarInside(p', s', p, s); }
    assert (p + "|" + s)[|p| + 1..] == s && (p' + "|" + s')[|p'| + 1..] == s';
  }

  lemma BarInside(p: string, s: string, p': string, s': string)
    requires p + "|" + s == p' + "|" + s' && |p| < |p'|
    ensures '|' in s
  {
    var t := p + "|" + s;
    assert t[|p'|] == '|' && t[|p'|] == s[|p'| - |p| - 1];
  }
}
