/** Coordinates read out of a pasted map link, and the link printed for coordinates on file. */
module MapUrl {
  import opened Decimal
  import opened Options
  import opened Text

  // ------------------------------------------------------------------------------------------
  // Numbers
  // ------------------------------------------------------------------------------------------

  /** The characters of a number, as a pattern captures them. */
  datatype Reading = Reading(neg: bool, whole: string, frac: string) {
    ghost predicate Valid() { Digits(whole) && Digits(frac) }

    function Value(): real
      requires Valid()
    {
      var size := ParseNat(whole) as real + Fraction(frac);
      if neg then -size else size
    }
  }

  /** `0.f` */
  function Fraction(f: string): (r: real)
    requires Digits(f)
    ensures 0.0 <= r < 1.0
  {
    if f == "" then 0.0 else ((f[0] - '0') as int as real + Fraction(f[1..])) / 10.0
  }

  /** How many digits `s` starts with, at most `max`. */
  function RunLength(s: string, max: nat): (n: nat)
    ensures n <= |s| && n <= max && Digits(s[..n])
  {
    if max == 0 || s == "" || !IsDigit(s[0]) then 0 else 1 + RunLength(s[1..], max - 1)
  }

  /** `-?\d{1,3}(?:\.\d+)?`, and what follows it. Nothing that follows a number in any of the patterns can begin with a digit
      or a point, so giving characters back never helps a match. */
  function ScanNumber(s: string): (r: Option<(Reading, string)>)
    ensures r.Some? ==> r.value.0.Valid() && |r.value.1| < |s|
  {
    if s != "" && s[0] == '-' then ScanUnsigned(true, s[1..]) else ScanUnsigned(false, s)
  }

  function ScanUnsigned(neg: bool, s: string): (r: Option<(Reading, string)>)
    ensures r.Some? ==> r.value.0.Valid() && |r.value.1| < |s|
  {
    var n := RunLength(s, 3);
    if n == 0 then None
    else
      var u := s[n..];
      if |u| >= 2 && u[0] == '.' && IsDigit(u[1]) then
        var f := RunLength(u[1..], |u|);
        Some((Reading(neg, s[..n], u[1..][..f]), u[1..][f..]))
      else Some((Reading(neg, s[..n], ""), u))
  }

  // ------------------------------------------------------------------------------------------
  // Patterns
  // ------------------------------------------------------------------------------------------

  function After(prefix: string, s: string): (r: Option<string>)
    ensures r.Some? ==> |r.value| + |prefix| == |s|
  {
    if prefix <= s then Some(s[|prefix|..]) else None
  }

  function AfterIgnoringCase(prefix: string, s: string): (r: Option<string>)
    ensures r.Some? ==> |r.value| + |prefix| == |s|
  {
    if StartsWithIgnoringCase(s, prefix) then Some(s[|prefix|..]) else None
  }

  function SkipSpaces(s: string): (r: string)
    ensures |r| <= |s|
  {
    if s != "" && IsSpace(s[0]) then SkipSpaces(s[1..]) else s
  }

  function ZoomLength(s: string): (n: nat)
    ensures n <= |s|
  {
    if s != "" && (IsDigit(s[0]) || s[0] == '.') then 1 + ZoomLength(s[1..]) else 0
  }

  /** `,[\d.]+z` */
  function AfterZoom(s: string): (r: Option<string>)
    ensures r.Some? ==> |r.value| < |s|
  {
    if s == "" || s[0] != ',' then None
    else
      var n := ZoomLength(s[1..]);
      if n > 0 && 1 + n < |s| && s[1 + n] == 'z' then Some(s[2 + n..]) else None
  }

  /** The two captures, and the text after the match. */
  datatype Match = Match(lat: Reading, lng: Reading, rest: string)

  /** A number, a separator and a number. */
  function TwoNumbers(s: string, separator: string -> Option<string>): (r: Option<Match>)
    requires forall t :: separator(t).Some? ==> |separator(t).value| < |t|
    ensures r.Some? ==> r.value.lat.Valid() && r.value.lng.Valid() && |r.value.rest| < |s|
  {
    match ScanNumber(s)
    case None => None
    case Some((lat, t)) =>
      match separator(t)
      case None => None
      case Some(u) =>
        match ScanNumber(u)
        case None => None
        case Some((lng, rest)) => Some(Match(lat, lng, rest))
  }

  function Comma(s: string): (r: Option<string>)
    ensures r.Some? ==> |r.value| < |s|
  {
    After(",", s)
  }

  function CommaOrEscape(s: string): (r: Option<string>)
    ensures r.Some? ==> |r.value| < |s|
  {
    if Comma(s).Some? then Comma(s) else AfterIgnoringCase("%2c", s)
  }

  function Slash(s: string): (r: Option<string>)
    ensures r.Some? ==> |r.value| < |s|
  {
    After("/", s)
  }

  function PlacePayload(s: string): (r: Option<string>)
    ensures r.Some? ==> |r.value| < |s|
  {
    After("!4d", s)
  }

  function SpacedComma(s: string): (r: Option<string>)
    ensures r.Some? ==> |r.value| < |s|
  {
    match After(",", SkipSpaces(s))
    case None => None
    case Some(t) => Some(SkipSpaces(t))
  }

  const KEYS: seq<string> := ["q=", "query=", "ll=", "center=", "destination=", "daddr=", "sll="]

  /** After a parameter name and its equals sign; at most one of the names can be followed by one. */
  function AfterKey(s: string, keys: seq<string>): (r: Option<string>)
    ensures r.Some? ==> |r.value| <= |s|
  {
    if keys == [] then None
    else if AfterIgnoringCase(keys[0], s).Some? then AfterIgnoringCase(keys[0], s)
    else AfterKey(s, keys[1..])
  }

  predicate ParameterStart(s: string) { s != "" && (s[0] == '?' || s[0] == '&') }

  /** The nearest `mlon` parameter with a number. */
  function FindMlon(s: string): (r: Option<(Reading, string)>)
    ensures r.Some? ==> r.value.0.Valid() && |r.value.1| < |s|
  {
    if s == "" then None
    else
      var here := if ParameterStart(s) then AfterIgnoringCase("mlon=", s[1..]) else None;
      var number := if here.Some? then ScanNumber(here.value) else None;
      if number.Some? then number else FindMlon(s[1..])
  }

  predicate PathEnd(s: string) { s == "" || s[0] in "/?#" }

  const PATTERN_COUNT := 7

  /** Pattern number `p` matched at the very start of `s`; `first` says whether that is the start of the input. */
  function At(p: nat, s: string, first: bool): (r: Option<Match>)
    ensures r.Some? ==> r.value.lat.Valid() && r.value.lng.Valid() && |r.value.rest| < |s|
  {
    if s == "" then None
    else if p == 0 then
      match After("!3d", s)
      case None => None
      case Some(t) => TwoNumbers(t, PlacePayload)
    else if p == 1 then
      match if ParameterStart(s) then AfterKey(s[1..], KEYS) else None
      case None => None
      case Some(t) => TwoNumbers(t, CommaOrEscape)
    else if p == 2 then AtMlat(s)
    else if p == 3 then (if s[0] == '@' then AtSign(TwoNumbers(s[1..], Comma)) else None)
    else if p == 4 then (if s[0] == '/' then WithZoom(TwoNumbers(s[1..], Comma)) else None)
    else if p == 5 then
      match After("#map=", s)
      case None => None
      case Some(t) =>
        var n := ZoomLength(t);
        if n > 0 && n < |t| && t[n] == '/' then TwoNumbers(t[n + 1..], Slash) else None
    else if p == 6 && first then ToTheEnd(TwoNumbers(SkipSpaces(s), SpacedComma))
    else None
  }

  function AtMlat(s: string): (r: Option<Match>)
    ensures r.Some? ==> r.value.lat.Valid() && r.value.lng.Valid() && |r.value.rest| < |s|
  {
    match if ParameterStart(s) then AfterIgnoringCase("mlat=", s[1..]) else None
    case None => None
    case Some(t) =>
      match ScanNumber(t)
      case None => None
      case Some((lat, u)) =>
        match FindMlon(u)
        case None => None
        case Some((lng, rest)) => Some(Match(lat, lng, rest))
  }

  /** An optional zoom, then the end of the path segment. */
  function AtSign(m: Option<Match>): (r: Option<Match>)
    ensures r.Some? ==> m.Some? && r.value.lat == m.value.lat && r.value.lng == m.value.lng && |r.value.rest| <= |m.value.rest|
  {
    if m.None? then None
    else
      var zoom := AfterZoom(m.value.rest);
      if zoom.Some? && PathEnd(zoom.value) then Some(m.value.(rest := zoom.value))
      else if PathEnd(m.value.rest) then m
      else None
  }

  function WithZoom(m: Option<Match>): (r: Option<Match>)
    ensures r.Some? ==> m.Some? && r.value.lat == m.value.lat && r.value.lng == m.value.lng && |r.value.rest| <= |m.value.rest|
  {
    if m.None? then None
    else
      match AfterZoom(m.value.rest)
      case None => None
      case Some(rest) => Some(m.value.(rest := rest))
  }

  function ToTheEnd(m: Option<Match>): (r: Option<Match>)
    ensures r.Some? ==> r == m
  {
    if m.Some? && SkipSpaces(m.value.rest) == "" then m else None
  }

  // ------------------------------------------------------------------------------------------
  // Parsing and printing
  // ------------------------------------------------------------------------------------------

  datatype Result = Ok(lat: real, lng: real) | Shortened | NoCoordinates | Unrecognised

  predicate IsLat(x: real) { -90.0 <= x <= 90.0 }

  predicate IsLng(x: real) { -180.0 <= x <= 180.0 }

  function Pair(lat: real, lng: real): Option<Result> {
    if !IsLat(lat) || !IsLng(lng) then None else if lat == 0.0 && lng == 0.0 then None else Some(Ok(lat, lng))
  }

  /** Every match of one pattern from left to right, up to the first whose numbers are acceptable. */
  function FirstPair(p: nat, s: string, first: bool): Option<Result>
    decreases |s|
  {
    if s == "" then None
    else
      match At(p, s, first)
      case None => FirstPair(p, s[1..], false)
      case Some(m) =>
        var pair := Pair(m.lat.Value(), m.lng.Value());
        if pair.Some? then pair else FirstPair(p, m.rest, false)
  }

  function FromPattern(p: nat, value: string): Option<Result>
    decreases PATTERN_COUNT - p
  {
    if p >= PATTERN_COUNT then None
    else
      var pair := FirstPair(p, value, true);
      if pair.Some? then pair else FromPattern(p + 1, value)
  }

  function Lower(s: string): (r: string)
    ensures |r| == |s|
  {
    seq(|s|, i requires 0 <= i < |s| => LowerChar(s[i]))
  }

  predicate Includes(s: string, part: string) { part <= s || (s != "" && Includes(s[1..], part)) }

  const MAP_HOSTS: seq<string> := ["google.com/maps", "maps.google.", "waze.com", "openstreetmap.org", "apple.com/maps"]
  const SHORTENERS: seq<string> := ["maps.app.goo.gl", "goo.gl", "g.co", "waze.com/ul/h", "bit.ly"]

  function Reason(value: string): Result {
    if exists i :: 0 <= i < |SHORTENERS| && Includes(Lower(value), SHORTENERS[i]) then Shortened
    else if exists i :: 0 <= i < |MAP_HOSTS| && Includes(Lower(value), MAP_HOSTS[i]) then NoCoordinates
    else Unrecognised
  }

  function ParseMapLink(input: string): Result {
    var value := Trim(input);
    if value == "" then Unrecognised
    else
      var pair := FromPattern(0, value);
      if pair.Some? then pair.value else Reason(value)
  }

  /** A stretch of the text is this host, ASCII letters compared without case. */
  ghost predicate Names(value: string, host: string) { exists k: nat :: SpellsAt(value, host, k) }

  ghost predicate SpellsAt(value: string, host: string, k: nat) {
    k + |host| <= |value| && forall j :: 0 <= j < |host| ==> LowerChar(value[k + j]) == host[j]
  }

  ghost predicate OccursAt(s: string, part: string, k: nat) { k <= |s| && part <= s[k..] }

  lemma {:induction false} IncludesIs(s: string, part: string)
    ensures Includes(s, part) <==> exists k: nat :: OccursAt(s, part, k)
    decreases |s|
  {
    assert s[0..] == s;
    if part <= s {
      assert OccursAt(s, part, 0);
    } else if s != "" {
      var t := s[1..];
      IncludesIs(t, part);
      if k: nat :| OccursAt(t, part, k) {
        assert s[k + 1..] == t[k..];
        assert OccursAt(s, part, k + 1);
      }
      if k: nat :| OccursAt(s, part, k) {
        assert k > 0 && s[k..] == t[k - 1..];
        assert OccursAt(t, part, k - 1);
      }
    }
  }

  lemma SpeltOccurs(value: string, host: string, k: nat)
    ensures OccursAt(Lower(value), host, k) <==> SpellsAt(value, host, k)
  {
    hide LowerChar;
    var low := Lower(value);
    if SpellsAt(value, host, k) {
      assert low[k..][..|host|] == host;
    }
    if OccursAt(low, host, k) {
      assert forall j :: 0 <= j < |host| ==> low[k + j] == low[k..][j];
    }
  }

  lemma IncludesNames(value: string, host: string)
    ensures Includes(Lower(value), host) <==> Names(value, host)
  {
    hide Lower, Includes, OccursAt, SpellsAt;
    IncludesIs(Lower(value), host);
    forall k: nat ensures OccursAt(Lower(value), host, k) <==> SpellsAt(value, host, k) { SpeltOccurs(value, host, k); }
  }

  ghost predicate NamesShortener(value: string) {
    Names(value, "maps.app.goo.gl") || Names(value, "goo.gl") || Names(value, "g.co") || Names(value, "waze.com/ul/h") || Names(value, "bit.ly")
  }

  ghost predicate NamesMapHost(value: string) {
    || Names(value, "google.com/maps") || Names(value, "maps.google.") || Names(value, "waze.com")
    || Names(value, "openstreetmap.org") || Names(value, "apple.com/maps")
  }

  lemma ReasonIs(value: string)
    ensures Reason(value) == if NamesShortener(value) then Shortened else if NamesMapHost(value) then NoCoordinates else Unrecognised
  {
    hide Includes, Names;
    IncludesNames(value, "maps.app.goo.gl");
    IncludesNames(value, "goo.gl");
    IncludesNames(value, "g.co");
    IncludesNames(value, "waze.com/ul/h");
    IncludesNames(value, "bit.ly");
    IncludesNames(value, "google.com/maps");
    IncludesNames(value, "maps.google.");
    IncludesNames(value, "waze.com");
    IncludesNames(value, "openstreetmap.org");
    IncludesNames(value, "apple.com/maps");
    assert SHORTENERS[0] == "maps.app.goo.gl" && SHORTENERS[1] == "goo.gl" && SHORTENERS[2] == "g.co";
    assert SHORTENERS[3] == "waze.com/ul/h" && SHORTENERS[4] == "bit.ly";
    assert MAP_HOSTS[0] == "google.com/maps" && MAP_HOSTS[1] == "maps.google." && MAP_HOSTS[2] == "waze.com";
    assert MAP_HOSTS[3] == "openstreetmap.org" && MAP_HOSTS[4] == "apple.com/maps";
  }

  /** Why a text is refused can be read off it: a shortener's name in it comes first, a map's second, and no name at all
      means it is not recognised. */
  lemma RefusedExactly(input: string)
    ensures var r, value := ParseMapLink(input), Trim(input);
      r.Ok? || r == (if NamesShortener(value) then Shortened else if NamesMapHost(value) then NoCoordinates else Unrecognised)
  {
    hide FromPattern, Trim, Reason, Includes;
    var value := Trim(input);
    FromPatternInRange(0, value);
    ReasonIs(value);
  }

  lemma {:induction false} FirstPairInRange(p: nat, s: string, first: bool)
    ensures var r := FirstPair(p, s, first);
      r.Some? ==> r.value.Ok? && Pair(r.value.lat, r.value.lng) == r
    decreases |s|
  {
    hide At, Reading.Value;
    if s != "" {
      match At(p, s, first)
      case None => FirstPairInRange(p, s[1..], false);
      case Some(m) => FirstPairInRange(p, m.rest, false);
    }
  }

  lemma {:induction false} FromPatternInRange(p: nat, value: string)
    ensures var r := FromPattern(p, value);
      r.Some? ==> r.value.Ok? && Pair(r.value.lat, r.value.lng) == r
    decreases PATTERN_COUNT - p
  {
    hide FirstPair;
    if p < PATTERN_COUNT {
      FirstPairInRange(p, value, true);
      FromPatternInRange(p + 1, value);
    }
  }

  /** Whatever was pasted, accepted coordinates lie on the globe and are not Null Island. */
  lemma AcceptedIsOnTheGlobe(input: string)
    ensures var r := ParseMapLink(input);
      r.Ok? ==> -90.0 <= r.lat <= 90.0 && -180.0 <= r.lng <= 180.0 && !(r.lat == 0.0 && r.lng == 0.0)
  {
    hide FromPattern, Trim;
    FromPatternInRange(0, Trim(input));
  }

  /** A coordinate as the host language prints it: plain decimals, and powers of ten below a millionth. */
  datatype Num = Plain(neg: bool, whole: nat, frac: string) | Tiny(neg: bool, lead: nat, frac: string, exponent: nat) {
    ghost predicate Valid() {
      Digits(frac) &&
      (frac != "" ==> frac[|frac| - 1] != '0') &&
      (Plain? && whole == 0 && frac != "" ==> exists k :: 0 <= k < 6 && k < |frac| && frac[k] != '0') &&
      (Plain? && whole == 0 && frac == "" ==> !neg) &&
      (Tiny? ==> 1 <= lead <= 9 && exponent >= 7)
    }

    /** The characters before any exponent. */
    function Mantissa(): Reading { Reading(neg, Print(if Plain? then whole else lead), frac) }

    function Text(): string {
      ReadingText(Mantissa()) + if Plain? then "" else "e-" + Print(exponent)
    }

    function Value(): real
      requires Valid()
    {
      if Plain? then Mantissa().Value() else Mantissa().Value() / Power10(exponent)
    }

    predicate Zero() { Plain? && whole == 0 && frac == "" }
  }

  function Power10(n: nat): (r: real)
    ensures r >= 1.0
  {
    if n == 0 then 1.0 else 10.0 * Power10(n - 1)
  }

  const SITE := "https://www.google.com"
  const SEARCH := "/maps/search/"
  const PREFIX := SITE + SEARCH + "?api=1" + "&query="

  function Link(lat: Num, lng: Num): string { PREFIX + lat.Text() + "," + lng.Text() }

  function MapLinkFor(lat: Option<Num>, lng: Option<Num>): Option<string>
    requires (lat.Some? ==> lat.value.Valid()) && (lng.Some? ==> lng.value.Valid())
  {
    if lat.None? || lng.None? || !IsLat(lat.value.Value()) || !IsLng(lng.value.Value()) then None
    else Some(Link(lat.value, lng.value))
  }

  // ------------------------------------------------------------------------------------------
  // Reading a printed number
  // ------------------------------------------------------------------------------------------

  predicate Stops(t: string) { t == "" || (!IsDigit(t[0]) && t[0] != '.') }

  lemma {:induction false} RunExact(d: string, t: string, max: nat)
    requires Digits(d) && |d| <= max && (t == "" || !IsDigit(t[0]))
    ensures RunLength(d + t, max) == |d| && (d + t)[..|d|] == d && (d + t)[|d|..] == t
  {
    if d != "" {
      assert (d + t)[1..] == d[1..] + t;
      RunExact(d[1..], t, max - 1);
    } else {
      assert d + t == t;
    }
  }

  function Unsigned(r: Reading): string { r.whole + FracText(r) }

  function FracText(r: Reading): string { if r.frac == "" then "" else "." + r.frac }

  function ReadingText(r: Reading): string { if r.neg then "-" + Unsigned(r) else Unsigned(r) }

  lemma ScanPrinted(r: Reading, t: string)
    requires r.Valid() && 1 <= |r.whole| <= 3 && Stops(t)
    ensures ScanNumber(ReadingText(r) + t) == Some((r, t))
  {
    ScanPlain(r, t);
    hide ScanUnsigned, Unsigned, Reading.Valid, Stops;
    var u := Unsigned(r);
    SignAndRest(u, t);
  }

  lemma SignAndRest(u: string, t: string)
    requires u != "" && u[0] != '-'
    ensures ("-" + u + t)[0] == '-' && ("-" + u + t)[1..] == u + t && (u + t)[0] != '-'
  {
  }

  lemma ScanPlain(r: Reading, t: string)
    requires r.Valid() && 1 <= |r.whole| <= 3 && Stops(t)
    ensures ScanUnsigned(r.neg, Unsigned(r) + t) == Some((r, t)) && Unsigned(r) != "" && Unsigned(r)[0] != '-'
  {
    var tail := FracText(r) + t;
    assert Unsigned(r) + t == r.whole + tail;
    assert IsDigit(r.whole[0]);
    ScanTail(r, t, tail);
    hide RunLength, FracText, Unsigned;
    RunExact(r.whole, tail, 3);
    hide Digits, IsDigit;
    ScanParts(r, r.whole + tail, tail, t);
  }

  lemma ScanParts(r: Reading, s: string, tail: string, t: string)
    requires r.Valid() && 1 <= |r.whole| == RunLength(s, 3) && s[..|r.whole|] == r.whole && s[|r.whole|..] == tail
    requires r.frac == "" ==> Stops(tail) && tail == t
    requires r.frac != "" ==> |tail| >= 2 && tail[0] == '.' && IsDigit(tail[1])
    requires r.frac != "" ==> RunLength(tail[1..], |tail|) == |r.frac| && tail[1..][..|r.frac|] == r.frac && tail[1..][|r.frac|..] == t
    ensures ScanUnsigned(r.neg, s) == Some((r, t))
  {
    hide RunLength, Digits, Reading.Valid;
  }

  lemma ScanTail(r: Reading, t: string, tail: string)
    requires r.Valid() && Stops(t) && tail == FracText(r) + t
    ensures r.frac == "" ==> Stops(tail) && tail == t
    ensures r.frac != "" ==> |tail| >= 2 && tail[0] == '.' && IsDigit(tail[1])
    ensures r.frac != "" ==> RunLength(tail[1..], |tail|) == |r.frac| && tail[1..][..|r.frac|] == r.frac && tail[1..][|r.frac|..] == t
  {
    if r.frac == "" {
      assert tail == t;
    } else {
      assert tail[1..] == r.frac + t;
      assert tail[1] == r.frac[0];
      assert Digits(r.frac) && (t == "" || !IsDigit(t[0]));
      hide RunLength;
      RunExact(r.frac, t, |tail|);
    }
  }

  lemma PrintShort(n: nat)
    ensures n < 1000 ==> |Print(n)| <= 3
  {
    if n < 1000 { assert |Print(n / 100)| == 1 && (n >= 10 ==> |Print(n / 10)| <= 2); }
  }

  lemma WholeBound(a: Num)
    requires a.Valid() && IsLng(a.Value())
    ensures 1 <= |a.Mantissa().whole| <= 3 && a.Mantissa().Valid()
  {
    var n := if a.Plain? then a.whole else a.lead;
    PrintParse(n);
    PrintShort(n);
    if a.Plain? {
      hide Print, ParseNat, Fraction;
      assert n as real + Fraction(a.frac) <= 180.0;
    }
  }

  // ------------------------------------------------------------------------------------------
  // The printed link has one marker
  // ------------------------------------------------------------------------------------------

  predicate Quiet(c: char) { IsDigit(c) || c in "-.,e" }

  ghost predicate AllQuiet(s: string) { forall k :: 0 <= k < |s| ==> Quiet(s[k]) }

  lemma PrintedIsQuiet(lat: Num, lng: Num)
    requires lat.Valid() && lng.Valid()
    ensures AllQuiet(lat.Text() + "," + lng.Text()) && lng.Text() != "" && IsDigit(lng.Text()[|lng.Text()| - 1])
  {
    TextIsQuiet(lat);
    TextIsQuiet(lng);
    hide Quiet, Num.Text;
    assert Quiet(',');
    var s := lat.Text() + "," + lng.Text();
    forall k | 0 <= k < |s| ensures Quiet(s[k]) {
      if k > |lat.Text()| { assert s[k] == lng.Text()[k - |lat.Text()| - 1]; }
    }
  }

  lemma TextIsQuiet(a: Num)
    requires a.Valid()
    ensures AllQuiet(a.Text()) && a.Text() != "" && IsDigit(a.Text()[|a.Text()| - 1])
  {
    hide Print;
  }

  /** Which characters of the fixed part could begin a match, and what follows them. */
  lemma PrefixAt(i: nat)
    requires i < |PREFIX|
    ensures PREFIX[i] !in "!@#" && !IsSpace(PREFIX[0]) && !IsDigit(PREFIX[0]) && PREFIX[0] != '-'
    ensures PREFIX[i] == '/' ==> i + 1 < |PREFIX| && !IsDigit(PREFIX[i + 1]) && PREFIX[i + 1] != '-'
    ensures PREFIX[i] == '?' ==> i + 1 < |PREFIX| && PREFIX[i + 1] == 'a'
    ensures PREFIX[i] == '&' ==> i == 41
    ensures PREFIX[41..] == "&query="
  {
    PrefixParts();
    PrefixChar(0);
    PrefixChar(i);
    if i < 47 { PrefixChar(i + 1); }
    SiteAt(0);
    SiteAt(i);
    SearchAt(i - 22);
    NotSpaceH();
    hide PREFIX, SITE, SEARCH, IsSpace;
  }

  const API := "?api=1"
  const QUERY := "&query="

  /** A character of the fixed part, found in the piece it belongs to. */
  lemma PrefixChar(i: nat)
    requires i < 48
    ensures |PREFIX| == 48 && |SITE| == 22 && |SEARCH| == 13
    ensures PREFIX[i] == if i < 22 then SITE[i] else if i < 35 then SEARCH[i - 22] else if i < 41 then API[i - 35] else QUERY[i - 41]
  {
    PrefixParts();
    SiteAt(0);
    SearchAt(0);
    hide PREFIX, SITE, SEARCH;
    if i < 22 {
      assert PREFIX[i] == PREFIX[..22][i];
    } else if i < 35 {
      assert PREFIX[i] == PREFIX[22..35][i - 22];
    } else if i < 41 {
      assert PREFIX[i] == PREFIX[35..41][i - 35];
    } else {
      assert PREFIX[i] == PREFIX[41..][i - 41];
    }
  }

  lemma NotSpaceH()
    ensures !IsSpace('h')
  {
  }

  lemma PrefixParts()
    ensures |PREFIX| == 48 && PREFIX[..22] == SITE && PREFIX[22..35] == SEARCH
    ensures PREFIX[35..41] == "?api=1" && PREFIX[41..] == "&query="
  {
    SiteAt(0);
    SearchAt(0);
    hide SITE, SEARCH;
  }

  lemma SiteAt(i: nat)
    ensures |SITE| == 22 && SITE[0] == 'h'
    ensures i < 22 ==> SITE[i] !in "!@#?&" && (SITE[i] == '/' ==> i + 1 < 22 && SITE[i + 1] in "/w")
  {
    assert SITE == "https:/" + "/www.google.com";
    assert "https:/"[0] == 'h' && "/www.google.com"[1] == 'w';
  }

  lemma SearchAt(i: int)
    ensures |SEARCH| == 13
    ensures 0 <= i < 13 ==> SEARCH[i] !in "!@#?&" && (SEARCH[i] == '/' ==> i == 12 || SEARCH[i + 1] in "ms")
  {
    assert SEARCH == "/maps" + "/search/";
    assert "/maps"[1] == 'm' && "/search/"[1] == 's';
  }

  /** No other pattern, and no other place, matches in the printed link. */
  lemma OnlyTheQuery(p: nat, body: string, i: nat)
    requires AllQuiet(body) && i < |PREFIX + body| && (p == 1 ==> i != 41)
    ensures At(p, (PREFIX + body)[i..], i == 0) == None
  {
    var s := (PREFIX + body)[i..];
    if i < |PREFIX| {
      PrefixAt(i);
      assert s[0] == PREFIX[i];
      if i + 1 < |PREFIX| { assert s[1] == PREFIX[i + 1] && s[1..][0] == s[1]; }
      if i == 41 { assert s[1] == 'q' by { assert PREFIX[41..][1] == 'q'; } }
      if i == 0 { assert s[0] == PREFIX[0]; }
    } else {
      assert s[0] == body[i - |PREFIX|];
    }
    hide PREFIX;
    NoMatchAt(p, s, i == 0, i < |PREFIX|);
  }

  /** What rules a match out, character by character. */
  lemma NoMatchAt(p: nat, s: string, first: bool, inPrefix: bool)
    requires s != "" && s[0] !in "!@#"
    requires s[0] == '/' ==> |s| > 1 && !IsDigit(s[1]) && s[1] != '-'
    requires ParameterStart(s) ==> |s| > 1 && (s[1] == 'a' || (p != 1 && s[1] == 'q'))
    requires first ==> !IsSpace(s[0]) && !IsDigit(s[0]) && s[0] != '-'
    ensures At(p, s, first) == None
  {
    hide ScanNumber, FindMlon;
    if p == 1 && ParameterStart(s) { NoKey(s[1..]); }
    if p == 4 && s[0] == '/' { NotANumber(s[1..]); }
    if p == 6 && first { NotANumber(s); }
    hide AfterKey, IsSpace, AfterZoom;
  }

  lemma NotANumber(s: string)
    requires s != "" && !IsDigit(s[0]) && s[0] != '-'
    ensures ScanNumber(s) == None
  {
  }

  lemma NoKey(s: string)
    requires s != "" && s[0] == 'a'
    ensures AfterKey(s, KEYS) == None
  {
    NoKeyIn(s, KEYS);
  }

  lemma {:induction false} NoKeyIn(s: string, keys: seq<string>)
    requires s != "" && s[0] == 'a'
    requires forall k :: 0 <= k < |keys| ==> keys[k] != "" && keys[k][0] != 'a'
    ensures AfterKey(s, keys) == None
  {
    if keys != [] {
      assert LowerChar(s[0]) == 'a' != keys[0][0];
      NoKeyIn(s, keys[1..]);
    }
  }

  /** Positions without a match are passed over. */
  lemma {:induction false} PassOver(p: nat, s: string, first: bool, k: nat)
    requires k <= |s| && forall i :: 0 <= i < k ==> At(p, s[i..], first && i == 0) == None
    ensures FirstPair(p, s, first) == FirstPair(p, s[k..], first && k == 0)
  {
    hide At;
    if k > 0 {
      assert s[0..] == s;
      assert At(p, s[0..], first && 0 == 0) == None;
      forall i | 0 <= i < k - 1 ensures At(p, s[1..][i..], false && i == 0) == None {
        assert s[1..][i..] == s[i + 1..];
        assert At(p, s[i + 1..], first && i + 1 == 0) == None;
      }
      PassOver(p, s[1..], false, k - 1);
      assert s[1..][k - 1..] == s[k..];
    } else {
      assert s[k..] == s;
    }
  }

  // ------------------------------------------------------------------------------------------
  // What comes back
  // ------------------------------------------------------------------------------------------

  function Body(lat: Num, lng: Num): string { lat.Text() + "," + lng.Text() }

  function Tail(a: Num): (t: string)
    ensures Stops(t) && (t != "" ==> t[0] == 'e') && (t == "" <==> a.Plain?)
  {
    if a.Plain? then "" else "e-" + Print(a.exponent)
  }

  lemma TextIs(a: Num)
    ensures a.Text() == ReadingText(a.Mantissa()) + Tail(a)
  {
  }

  /** The two numbers of the query: a latitude with an exponent stops the match, a longitude's exponent is dropped. */
  lemma NumbersRead(lat: Num, lng: Num)
    requires lat.Valid() && lng.Valid() && IsLat(lat.Value()) && IsLng(lng.Value())
    ensures TwoNumbers(Body(lat, lng), CommaOrEscape) ==
      if lat.Plain? then Some(Match(lat.Mantissa(), lng.Mantissa(), Tail(lng))) else None
  {
    WholeBound(lat);
    WholeBound(lng);
    TextIs(lat);
    TextIs(lng);
    hide Num.Text, Num.Mantissa, Print, ReadingText, Reading.Valid, Num.Valid, TwoNumbers;
    TwoRead(lat.Mantissa(), Tail(lat), lng.Mantissa(), Tail(lng));
  }

  lemma TwoRead(a: Reading, ta: string, b: Reading, tb: string)
    requires a.Valid() && b.Valid() && 1 <= |a.whole| <= 3 && 1 <= |b.whole| <= 3
    requires Stops(tb) && (ta != "" ==> ta[0] == 'e')
    ensures TwoNumbers((ReadingText(a) + ta) + "," + (ReadingText(b) + tb), CommaOrEscape) ==
      if ta == "" then Some(Match(a, b, tb)) else None
  {
    hide ScanNumber, ReadingText, Reading.Valid;
    var second := ReadingText(b) + tb;
    var rest := ta + "," + second;
    assert (ReadingText(a) + ta) + "," + second == ReadingText(a) + rest;
    ScanPrinted(a, rest);
    ScanPrinted(b, tb);
    Separator(ta, second);
  }

  lemma Separator(ta: string, second: string)
    requires ta != "" ==> ta[0] == 'e'
    ensures CommaOrEscape(ta + "," + second) == if ta == "" then Some(second) else None
  {
    var rest := ta + "," + second;
    if ta == "" {
      assert rest == "," + second;
      assert rest[1..] == second;
    } else {
      assert rest[0] == 'e';
    }
  }

  lemma QueryKey(body: string)
    ensures var s := (PREFIX + body)[41..];
      s != "" && ParameterStart(s) && AfterKey(s[1..], KEYS) == Some(body)
  {
    PrefixAt(41);
    var s := (PREFIX + body)[41..];
    assert s == "&query=" + body;
    assert s[1..] == "query=" + body;
    hide PREFIX;
    QueryName(body);
  }

  lemma QueryName(body: string)
    ensures AfterKey("query=" + body, KEYS) == Some(body)
  {
    var t := "query=" + body;
    assert t[..6] == "query=" && t[6..] == body;
    assert t[1] == 'u' && "q="[1] == '=' && LowerChar('u') == 'u';
    assert AfterIgnoringCase("q=", t) == None;
    assert forall k :: 0 <= k < 6 ==> LowerChar(t[k]) == t[..6][k];
    assert AfterIgnoringCase("query=", t) == Some(body);
    assert KEYS[1..][0] == "query=";
  }

  predicate Silent(p: nat, link: string, i: nat)
    requires i <= |link|
  {
    At(p, link[i..], i == 0).None?
  }

  /** All that the parser's course depends on in a printed link. */
  ghost predicate OneQuery(link: string, body: string) {
    && |link| >= 48 && link[48..] == body && Trim(link) == link
    && (forall i: nat, p: nat :: i < |link| && (p == 1 ==> i != 41) ==> Silent(p, link, i))
    && At(1, link[41..], false) == TwoNumbers(body, CommaOrEscape)
  }

  lemma NotTrimmed(body: string)
    requires AllQuiet(body) && body != "" && IsDigit(body[|body| - 1])
    ensures Trim(PREFIX + body) == PREFIX + body
  {
    PrefixAt(0);
    var s := PREFIX + body;
    assert s[0] == PREFIX[0] && s[|s| - 1] == body[|body| - 1];
    hide PREFIX;
  }

  lemma PrintedIsOneQuery(body: string)
    requires AllQuiet(body) && body != "" && IsDigit(body[|body| - 1])
    ensures OneQuery(PREFIX + body, body)
  {
    NotTrimmed(body);
    assert |PREFIX| == 48 by { PrefixAt(0); }
    hide At, AllQuiet, TwoNumbers, Trim;
    forall i: nat, p: nat | i < |PREFIX + body| && (p == 1 ==> i != 41) ensures Silent(p, PREFIX + body, i) {
      OnlyTheQuery(p, body, i);
    }
    QueryMatch(body);
    assert (PREFIX + body)[48..] == body;
    hide Silent, PREFIX;
  }

  lemma QueryMatch(body: string)
    ensures At(1, (PREFIX + body)[41..], false) == TwoNumbers(body, CommaOrEscape)
  {
    QueryKey(body);
    hide AfterKey, ParameterStart, TwoNumbers, PREFIX;
  }

  lemma Quietly(p: nat, link: string, body: string)
    requires OneQuery(link, body) && p != 1
    ensures FirstPair(p, link, true) == None
  {
    hide At, TwoNumbers, Trim;
    forall i | 0 <= i < |link| ensures At(p, link[i..], true && i == 0) == None {
      assert Silent(p, link, i);
    }
    PassOver(p, link, true, |link|);
  }

  lemma {:induction false} NothingAfter(link: string, body: string, i: nat)
    requires OneQuery(link, body) && 41 < i <= |link|
    ensures FirstPair(1, link[i..], false) == None
    decreases |link| - i
  {
    hide At, TwoNumbers, Trim;
    if i < |link| {
      assert Silent(1, link, i);
      NothingAfter(link, body, i + 1);
      assert link[i..][1..] == link[i + 1..];
    }
  }

  /** The query pattern's verdict on a link with one query. */
  lemma QueryVerdict(link: string, body: string, m: Option<Match>)
    requires OneQuery(link, body) && m == TwoNumbers(body, CommaOrEscape)
    requires m.Some? ==> |m.value.rest| <= |body| && body[|body| - |m.value.rest|..] == m.value.rest
    ensures FirstPair(1, link, true) == if m.Some? then Pair(m.value.lat.Value(), m.value.lng.Value()) else None
  {
    hide At, TwoNumbers, Trim, Reading.Value;
    forall i | 0 <= i < 41 ensures At(1, link[i..], true && i == 0) == None {
      assert Silent(1, link, i);
    }
    PassOver(1, link, true, 41);
    var s := link[41..];
    if m.Some? {
      var k := |link| - |m.value.rest|;
      NothingAfter(link, body, k);
      assert link[k..] == body[|body| - |m.value.rest|..];
    } else {
      NothingAfter(link, body, 42);
      assert s[1..] == link[42..];
    }
  }

  lemma TailLength(lat: Num, lng: Num)
    ensures |Tail(lng)| <= |Body(lat, lng)| && Body(lat, lng)[|Body(lat, lng)| - |Tail(lng)|..] == Tail(lng)
  {
    TextIs(lng);
    hide Num.Text, Num.Mantissa, ReadingText, Tail;
    var before := lat.Text() + "," + ReadingText(lng.Mantissa());
    Suffix(before, Tail(lng));
    assert Body(lat, lng) == before + Tail(lng);
  }

  lemma Suffix(a: string, b: string)
    ensures (a + b)[|a + b| - |b|..] == b
  {
  }

  lemma QueryPair(lat: Num, lng: Num, link: string)
    requires lat.Valid() && lng.Valid() && IsLat(lat.Value()) && IsLng(lng.Value()) && OneQuery(link, Body(lat, lng))
    ensures lat.Mantissa().Valid() && lng.Mantissa().Valid()
    ensures FirstPair(1, link, true) == if lat.Plain? then Pair(lat.Mantissa().Value(), lng.Mantissa().Value()) else None
  {
    hide Num.Text, Num.Mantissa, Num.Valid, Body, Num.Value, Reading.Value, TwoNumbers, FirstPair, Reading.Valid, Tail, Pair, OneQuery;
    WholeBound(lat);
    WholeBound(lng);
    NumbersRead(lat, lng);
    TailLength(lat, lng);
    QueryVerdict(link, Body(lat, lng), TwoNumbers(Body(lat, lng), CommaOrEscape));
  }

  /** What parsing a printed link returns, in every case. */
  lemma PrintedThenParsed(lat: Num, lng: Num)
    requires lat.Valid() && lng.Valid() && IsLat(lat.Value()) && IsLng(lng.Value())
    ensures lat.Mantissa().Valid() && lng.Mantissa().Valid()
    ensures var pair := if lat.Plain? then Pair(lat.Mantissa().Value(), lng.Mantissa().Value()) else None;
      ParseMapLink(Link(lat, lng)) == if pair.Some? then pair.value else Reason(Link(lat, lng))
  {
    PrintedIsQuiet(lat, lng);
    PrintedIsOneQuery(Body(lat, lng));
    LinkIs(lat, lng);
    hide Link, PREFIX, Num.Text, Num.Mantissa, Reading.Valid, Num.Valid, Body, Num.Value, Reading.Value, OneQuery, ParseMapLink, Reason, Pair, AllQuiet;
    QueryPair(lat, lng, Link(lat, lng));
    OneVerdict(Link(lat, lng), Body(lat, lng));
  }

  lemma LinkIs(lat: Num, lng: Num)
    ensures Link(lat, lng) == PREFIX + Body(lat, lng)
  {
    hide PREFIX, Num.Text;
  }

  lemma OneVerdict(link: string, body: string)
    requires OneQuery(link, body)
    ensures ParseMapLink(link) == if FirstPair(1, link, true).Some? then FirstPair(1, link, true).value else Reason(link)
  {
    assert link != "" && Trim(link) == link;
    hide FirstPair, OneQuery, Reason, Trim;
    forall p: nat | p != 1 ensures FirstPair(p, link, true) == None {
      Quietly(p, link, body);
    }
    assert FromPattern(7, link) == None;
    assert FromPattern(6, link) == None;
    assert FromPattern(5, link) == None;
    assert FromPattern(4, link) == None;
    assert FromPattern(3, link) == None;
    assert FromPattern(2, link) == None;
  }

  lemma {:induction false} FractionPositive(f: string)
    requires Digits(f) && f != "" && f[|f| - 1] != '0'
    ensures Fraction(f) > 0.0
  {
    if |f| > 1 {
      assert f[1..][|f| - 2] == f[|f| - 1];
      FractionPositive(f[1..]);
    }
  }

  lemma ZeroExactly(a: Num)
    requires a.Valid()
    ensures a.Value() == 0.0 <==> a.Zero()
    ensures a.Mantissa().Valid() && (a.Mantissa().Value() == 0.0 <==> a.Zero())
  {
    PrintParse(if a.Plain? then a.whole else a.lead);
    if a.frac != "" { FractionPositive(a.frac); }
    hide Print, ParseNat, Fraction;
  }

  /** A fraction with a digit other than zero in its first six places is at least a millionth, and no other is. */
  lemma {:induction false} FractionSize(f: string, places: nat)
    requires Digits(f)
    ensures (exists k :: 0 <= k < places && k < |f| && f[k] != '0') <==> Fraction(f) * Power10(places) >= 1.0
    decreases places
  {
    if places == 0 {
      assert Power10(0) == 1.0;
    } else if f == "" {
      assert Fraction(f) == 0.0;
    } else {
      var rest := f[1..];
      FractionSize(rest, places - 1);
      var d, p := (f[0] - '0') as int, Power10(places - 1);
      Shifted(d, Fraction(rest), p);
      assert Fraction(f) == (d as real + Fraction(rest)) / 10.0 && Power10(places) == 10.0 * p;
      forall k | 0 <= k < places && k < |f| && f[k] != '0' && k > 0 ensures 0 <= k - 1 < places - 1 && rest[k - 1] != '0' {
        assert rest[k - 1] == f[k];
      }
      if k :| 0 <= k < places - 1 && k < |rest| && rest[k] != '0' { assert f[k + 1] != '0'; }
    }
  }

  lemma Shifted(d: int, r: real, p: real)
    requires 0 <= d <= 9 && 0.0 <= r < 1.0 && p >= 1.0
    ensures ((d as real + r) / 10.0) * (10.0 * p) == d as real * p + r * p
    ensures d >= 1 ==> d as real * p + r * p >= 1.0
    ensures d == 0 ==> d as real * p + r * p == r * p
  {
    assert (d as real + r) / 10.0 * 10.0 == d as real + r;
    assert ((d as real + r) / 10.0) * (10.0 * p) == (((d as real + r) / 10.0) * 10.0) * p;
    assert r * p >= 0.0;
    if d >= 1 { assert (d as real - 1.0) * p >= 0.0; }
  }

  const MILLIONTH := 0.000001

  function Abs(x: real): (r: real)
    ensures r >= 0.0
  {
    if x < 0.0 then -x else x
  }

  /** A coordinate is printed without an exponent exactly when it is zero or at least a millionth in size. */
  lemma PlainExactly(a: Num)
    requires a.Valid()
    ensures a.Plain? <==> a.Value() == 0.0 || Abs(a.Value()) >= MILLIONTH
  {
    ZeroExactly(a);
    PrintParse(if a.Plain? then a.whole else a.lead);
    assert Power10(6) == 1000000.0 by { Millions(); }
    if a.Plain? {
      FractionSize(a.frac, 6);
      hide Print, ParseNat, Fraction, Power10;
    } else {
      TinySize(a);
    }
  }

  lemma Millions()
    ensures Power10(6) == 1000000.0 && Power10(7) == 10000000.0
  {
    assert Power10(1) == 10.0 && Power10(2) == 100.0 && Power10(3) == 1000.0;
    assert Power10(4) == 10000.0 && Power10(5) == 100000.0;
  }

  lemma {:induction false} PowersAscend(m: nat, n: nat)
    requires m <= n
    ensures Power10(m) <= Power10(n)
    decreases n
  {
    if m < n { PowersAscend(m, n - 1); }
  }

  lemma TinySize(a: Num)
    requires a.Valid() && a.Tiny?
    ensures 0.0 < Abs(a.Value()) < MILLIONTH
  {
    ZeroExactly(a);
    PrintParse(a.lead);
    Millions();
    PowersAscend(7, a.exponent);
    var m, t := a.Mantissa().Value(), Power10(a.exponent);
    assert Abs(m) < 10.0 by { hide Print, ParseNat, Fraction; }
    hide Reading.Value, Power10, Print, Num.Mantissa, Fraction;
    SmallQuotient(m, t);
  }

  lemma SmallQuotient(m: real, t: real)
    requires 0.0 < Abs(m) < 10.0 && t >= 10000000.0
    ensures 0.0 < Abs(m / t) < MILLIONTH
  {
    var q := m / t;
    var x, y := Abs(q), Abs(m);
    hide Abs;
    assert q * t == m;
    Sized(q, t, m);
    Below(x, t, y);
  }

  lemma Sized(q: real, t: real, m: real)
    requires t > 0.0 && q * t == m
    ensures Abs(q) * t == Abs(m)
  {
    if q >= 0.0 { NonNegative(q, t); } else { NonNegative(-q, t); }
  }

  lemma Below(x: real, t: real, y: real)
    requires x >= 0.0 && t >= 10000000.0 && x * t == y && 0.0 < y < 10.0
    ensures 0.0 < x < MILLIONTH
  {
    if x >= MILLIONTH { NonNegative(x - MILLIONTH, t); }
  }

  lemma {:induction false} Power10Grows(n: nat)
    requires n >= 1
    ensures Power10(n) >= 10.0
  {
    if n > 1 { Power10Grows(n - 1); }
  }

  lemma Shrinks(m: real, t: real)
    requires m != 0.0 && t >= 10.0
    ensures m / t != m && (m > 0.0 ==> 0.0 < m / t < m) && (m < 0.0 ==> m < m / t < 0.0)
  {
    var q := m / t;
    assert q * t == m;
    if m > 0.0 {
      assert q > 0.0 by { Sign(q, t); }
      assert q * (t - 1.0) > 0.0;
    } else {
      assert q < 0.0 by { Sign(-q, t); assert (-q) * t == -m; }
      assert (-q) * (t - 1.0) > 0.0;
    }
  }

  lemma Sign(q: real, t: real)
    requires q * t > 0.0 && t > 0.0
    ensures q > 0.0
  {
    if q <= 0.0 { NonNegative(-q, t); }
  }

  lemma NonNegative(q: real, t: real)
    requires q >= 0.0 && t > 0.0
    ensures q * t >= 0.0 && (-q) * t <= 0.0
  {
  }

  lemma TinyIsNotItsMantissa(a: Num)
    requires a.Valid() && a.Tiny?
    ensures a.Mantissa().Valid() && a.Mantissa().Value() != a.Value()
  {
    ZeroExactly(a);
    Power10Grows(a.exponent);
    hide Reading.Value, Power10, Print;
    Shrinks(a.Mantissa().Value(), Power10(a.exponent));
  }

  /** Coordinates on the globe come back from their own link if and only if neither is printed with an exponent and they
      are not Null Island. */
  lemma RoundTripExactly(lat: Num, lng: Num)
    requires lat.Valid() && lng.Valid() && IsLat(lat.Value()) && IsLng(lng.Value())
    ensures MapLinkFor(Some(lat), Some(lng)) == Some(Link(lat, lng))
    ensures ParseMapLink(Link(lat, lng)) == Ok(lat.Value(), lng.Value()) <==>
      lat.Plain? && lng.Plain? && !(lat.Zero() && lng.Zero())
  {
    PrintedThenParsed(lat, lng);
    ZeroExactly(lat);
    ZeroExactly(lng);
    if lng.Tiny? { TinyIsNotItsMantissa(lng); }
    hide ParseMapLink, Link, Num.Mantissa, Reading.Value, Num.Zero, Num.Valid, Reading.Valid;
    assert !Reason(Link(lat, lng)).Ok?;
  }

  /** The same, on the coordinates themselves: a link is made exactly for those on the globe, and leads back to them
      exactly when each is zero or at least a millionth in size, and not both are zero. */
  lemma RoundTripBySize(lat: Num, lng: Num)
    requires lat.Valid() && lng.Valid()
    ensures var link := MapLinkFor(Some(lat), Some(lng));
      && (link.Some? <==> Abs(lat.Value()) <= 90.0 && Abs(lng.Value()) <= 180.0)
      && (link.Some? ==>
           (ParseMapLink(link.value) == Ok(lat.Value(), lng.Value()) <==>
             (lat.Value() == 0.0 || Abs(lat.Value()) >= MILLIONTH) && (lng.Value() == 0.0 || Abs(lng.Value()) >= MILLIONTH) &&
             !(lat.Value() == 0.0 && lng.Value() == 0.0)))
  {
    if IsLat(lat.Value()) && IsLng(lng.Value()) { LinkBySize(lat, lng); }
    hide ParseMapLink, Link, Num.Valid, Num.Value;
  }

  lemma LinkBySize(lat: Num, lng: Num)
    requires lat.Valid() && lng.Valid() && IsLat(lat.Value()) && IsLng(lng.Value())
    ensures ParseMapLink(Link(lat, lng)) == Ok(lat.Value(), lng.Value()) <==>
      (lat.Value() == 0.0 || Abs(lat.Value()) >= MILLIONTH) && (lng.Value() == 0.0 || Abs(lng.Value()) >= MILLIONTH) &&
      !(lat.Value() == 0.0 && lng.Value() == 0.0)
  {
    hide ParseMapLink, Link, Num.Valid, Num.Value, Num.Zero;
    RoundTripExactly(lat, lng);
    PlainExactly(lat);
    PlainExactly(lng);
    ZeroExactly(lat);
    ZeroExactly(lng);
  }

  // ------------------------------------------------------------------------------------------
  // The forms a link can take
  // ------------------------------------------------------------------------------------------

  /** A reading as a map link spells it, of one to three digits before the point. */
  ghost predicate Spelt(r: Reading) { r.Valid() && 1 <= |r.whole| <= 3 }

  lemma TwoSpelt(a: Reading, b: Reading, between: string, rest: string, separator: string -> Option<string>)
    requires Spelt(a) && Spelt(b) && Stops(between) && Stops(rest)
    requires forall t :: separator(t).Some? ==> |separator(t).value| < |t|
    requires separator(between + (ReadingText(b) + rest)) == Some(ReadingText(b) + rest) && between != ""
    ensures TwoNumbers(ReadingText(a) + (between + (ReadingText(b) + rest)), separator) == Some(Match(a, b, rest))
  {
    hide ScanNumber, ReadingText, Reading.Valid;
    var tail := between + (ReadingText(b) + rest);
    assert tail[0] == between[0];
    ScanPrinted(a, tail);
    ScanPrinted(b, rest);
  }

  lemma Dropped(prefix: string, rest: string)
    ensures After(prefix, prefix + rest) == Some(rest)
    ensures (forall k :: 0 <= k < |prefix| ==> LowerChar(prefix[k]) == prefix[k]) ==>
      AfterIgnoringCase(prefix, prefix + rest) == Some(rest)
  {
    assert (prefix + rest)[..|prefix|] == prefix && (prefix + rest)[|prefix|..] == rest;
    assert forall k :: 0 <= k < |prefix| ==> (prefix + rest)[k] == prefix[k];
  }

  /** A place payload, `!3d` then `!4d`. */
  lemma PayloadReads(a: Reading, b: Reading, rest: string)
    requires Spelt(a) && Spelt(b) && Stops(rest)
    ensures At(0, "!3d" + (ReadingText(a) + ("!4d" + (ReadingText(b) + rest))), false) == Some(Match(a, b, rest))
  {
    hide ReadingText, TwoNumbers;
    Dropped("!3d", ReadingText(a) + ("!4d" + (ReadingText(b) + rest)));
    Dropped("!4d", ReadingText(b) + rest);
    TwoSpelt(a, b, "!4d", rest, PlacePayload);
  }

  /** `@lat,lng`, with or without a zoom, up to the end of the path segment. */
  lemma AtSignReads(a: Reading, b: Reading, zoom: string, rest: string)
    requires Spelt(a) && Spelt(b) && PathEnd(rest) && (zoom == "" || IsZoom(zoom))
    ensures At(3, "@" + (ReadingText(a) + ("," + (ReadingText(b) + (zoom + rest)))), false) == Some(Match(a, b, rest))
  {
    hide ReadingText, TwoNumbers;
    var tail := ReadingText(a) + ("," + (ReadingText(b) + (zoom + rest)));
    assert ("@" + tail)[1..] == tail && ("@" + tail)[0] == '@';
    Dropped(",", ReadingText(b) + (zoom + rest));
    ZoomRead(zoom, rest);
    TwoSpelt(a, b, ",", zoom + rest, Comma);
    hide AfterZoom, Comma;
    assert zoom == "" ==> zoom + rest == rest;
  }

  /** `,17z` */
  predicate IsZoom(zoom: string) {
    |zoom| >= 3 && zoom[0] == ',' && zoom[|zoom| - 1] == 'z' &&
    forall k :: 0 < k < |zoom| - 1 ==> IsDigit(zoom[k]) || zoom[k] == '.'
  }

  lemma {:induction false} ZoomRun(digits: string, rest: string)
    requires forall k :: 0 <= k < |digits| ==> IsDigit(digits[k]) || digits[k] == '.'
    requires rest == "" || (!IsDigit(rest[0]) && rest[0] != '.')
    ensures ZoomLength(digits + rest) == |digits|
  {
    if digits == "" {
      assert digits + rest == rest;
    } else {
      assert (digits + rest)[1..] == digits[1..] + rest;
      ZoomRun(digits[1..], rest);
    }
  }

  lemma ZoomRead(zoom: string, rest: string)
    requires zoom == "" || IsZoom(zoom)
    ensures zoom != "" ==> AfterZoom(zoom + rest) == Some(rest) && Stops(zoom + rest)
    ensures zoom == "" && PathEnd(rest) ==> AfterZoom(zoom + rest) == None && Stops(zoom + rest)
  {
    if zoom != "" {
      var digits := zoom[1..|zoom| - 1];
      assert zoom + rest == "," + (digits + ("z" + rest));
      assert (zoom + rest)[1..] == digits + ("z" + rest);
      ZoomRun(digits, "z" + rest);
      assert (zoom + rest)[|digits| + 2..] == rest;
      hide ZoomLength;
    } else {
      assert zoom + rest == rest;
    }
  }

  /** A path pair with a zoom. */
  lemma PathPairReads(a: Reading, b: Reading, zoom: string, rest: string)
    requires Spelt(a) && Spelt(b) && IsZoom(zoom)
    ensures At(4, "/" + (ReadingText(a) + ("," + (ReadingText(b) + (zoom + rest)))), false) == Some(Match(a, b, rest))
  {
    hide ReadingText, TwoNumbers;
    var tail := ReadingText(a) + ("," + (ReadingText(b) + (zoom + rest)));
    assert ("/" + tail)[1..] == tail && ("/" + tail)[0] == '/';
    Dropped(",", ReadingText(b) + (zoom + rest));
    ZoomRead(zoom, rest);
    TwoSpelt(a, b, ",", zoom + rest, Comma);
    hide AfterZoom, Comma, IsZoom;
  }

  /** `#map=17/lat/lng` */
  lemma HashReads(a: Reading, b: Reading, zoom: string, rest: string)
    requires Spelt(a) && Spelt(b) && Stops(rest)
    requires zoom != "" && forall k :: 0 <= k < |zoom| ==> IsDigit(zoom[k]) || zoom[k] == '.'
    ensures At(5, "#map=" + (zoom + ("/" + (ReadingText(a) + ("/" + (ReadingText(b) + rest))))), false) == Some(Match(a, b, rest))
  {
    hide ReadingText, TwoNumbers;
    var pair := ReadingText(a) + ("/" + (ReadingText(b) + rest));
    var t := zoom + ("/" + pair);
    Dropped("#map=", t);
    ZoomRun(zoom, "/" + pair);
    assert t[|zoom|] == '/' && t[|zoom| + 1..] == pair;
    Dropped("/", ReadingText(b) + rest);
    TwoSpelt(a, b, "/", rest, Slash);
    hide ZoomLength, Slash;
  }

  /** A bare pair, with or without spaces around the comma. */
  lemma BarePairReads(a: Reading, b: Reading, before: string, after: string)
    requires Spelt(a) && Spelt(b) && AllSpaces(before) && AllSpaces(after)
    ensures At(6, ReadingText(a) + ((before + ("," + after)) + (ReadingText(b) + "")), true) == Some(Match(a, b, ""))
  {
    hide ReadingText, TwoNumbers, IsSpace;
    var between := before + ("," + after);
    TextStarts(a);
    TextStarts(b);
    assert ReadingText(b) + "" == ReadingText(b);
    SpacedCommaRead(before, after, ReadingText(b) + "");
    BetweenStops(before, after);
    TwoSpelt(a, b, between, "", SpacedComma);
    hide SpacedComma;
    var s := ReadingText(a) + (between + (ReadingText(b) + ""));
    assert s[0] == ReadingText(a)[0];
    assert SkipSpaces(s) == s && SkipSpaces("") == "";
  }

  ghost predicate AllSpaces(s: string) { forall k :: 0 <= k < |s| ==> IsSpace(s[k]) }

  lemma TextStarts(r: Reading)
    requires Spelt(r)
    ensures ReadingText(r) != "" && !IsSpace(ReadingText(r)[0])
  {
    assert IsDigit(r.whole[0]);
    assert ReadingText(r)[0] == '-' || ReadingText(r)[0] == r.whole[0];
    NotSpace(ReadingText(r)[0]);
  }

  lemma NotSpace(c: char)
    requires IsDigit(c) || c == '-' || c == '.' || c == ','
    ensures !IsSpace(c)
  {
  }

  lemma BetweenStops(before: string, after: string)
    requires AllSpaces(before)
    ensures Stops(before + ("," + after)) && before + ("," + after) != ""
  {
    hide IsSpace;
    var s := before + ("," + after);
    if before == "" {
      assert s[0] == ',';
    } else {
      assert s[0] == before[0] && IsSpace(before[0]);
      if IsDigit(s[0]) || s[0] == '.' { NotSpace(s[0]); }
    }
  }

  lemma {:induction false} SpacesSkipped(spaces: string, rest: string)
    requires AllSpaces(spaces) && (rest == "" || !IsSpace(rest[0]))
    ensures SkipSpaces(spaces + rest) == rest
  {
    hide IsSpace;
    if spaces == "" {
      assert spaces + rest == rest;
    } else {
      assert (spaces + rest)[1..] == spaces[1..] + rest;
      SpacesSkipped(spaces[1..], rest);
    }
  }

  lemma SpacedCommaRead(before: string, after: string, rest: string)
    requires AllSpaces(before) && AllSpaces(after) && rest != "" && !IsSpace(rest[0])
    ensures SpacedComma((before + ("," + after)) + rest) == Some(rest)
  {
    hide IsSpace, SkipSpaces;
    var t := after + rest;
    assert (before + ("," + after)) + rest == before + ("," + t);
    NotSpace(',');
    SpacesSkipped(before, "," + t);
    Dropped(",", t);
    SpacesSkipped(after, rest);
  }

  predicate Starter(c: char) { c == '?' || c == '&' }

  /** Any of the seven parameters, its comma escaped or not. */
  lemma ParameterReads(start: char, key: nat, a: Reading, b: Reading, escaped: bool, rest: string)
    requires Starter(start) && key < |KEYS| && Spelt(a) && Spelt(b) && Stops(rest)
    ensures var comma := if escaped then "%2C" else ",";
      At(1, [start] + (KEYS[key] + (ReadingText(a) + (comma + (ReadingText(b) + rest)))), false) == Some(Match(a, b, rest))
  {
    hide ReadingText, TwoNumbers;
    var comma := if escaped then "%2C" else ",";
    var pair := ReadingText(a) + (comma + (ReadingText(b) + rest));
    var s := [start] + (KEYS[key] + pair);
    assert s[0] == start && s[1..] == KEYS[key] + pair;
    forall j | 0 <= j < key ensures AfterIgnoringCase(KEYS[j], KEYS[key] + pair) == None {
      KeysApart(key, j, pair);
    }
    KeyIsLower(key);
    hide KEYS;
    KeyFound(KEYS, key, pair);
    CommaRead(escaped, ReadingText(b) + rest);
    TwoSpelt(a, b, comma, rest, CommaOrEscape);
    hide CommaOrEscape, AfterKey;
  }

  lemma CommaRead(escaped: bool, t: string)
    ensures CommaOrEscape((if escaped then "%2C" else ",") + t) == Some(t)
  {
    if escaped {
      var s := "%2C" + t;
      assert s[0] == '%' && s[1] == '2' && s[2] == 'C' && LowerChar('C') == 'c' && s[3..] == t;
      assert "%2c"[0] == '%' && "%2c"[1] == '2' && "%2c"[2] == 'c';
    } else {
      Dropped(",", t);
    }
  }

  lemma KeyIsLower(key: nat)
    requires key < |KEYS|
    ensures forall k :: 0 <= k < |KEYS[key]| ==> LowerChar(KEYS[key][k]) == KEYS[key][k]
  {
  }

  /** The first letters tell the names apart, or the second ones do. */
  lemma KeysApart(i: nat, j: nat, t: string)
    requires j < i < |KEYS|
    ensures AfterIgnoringCase(KEYS[j], KEYS[i] + t) == None
  {
    KeyIsLower(i);
    var d := if KEYS[i][0] == KEYS[j][0] then 1 else 0;
    assert |KEYS[i]| >= 2 && |KEYS[j]| >= 2 && KEYS[i][d] != KEYS[j][d];
    assert (KEYS[i] + t)[d] == KEYS[i][d];
  }

  lemma {:induction false} KeyFound(keys: seq<string>, i: nat, t: string)
    requires i < |keys| && forall k :: 0 <= k < |keys[i]| ==> LowerChar(keys[i][k]) == keys[i][k]
    requires forall j :: 0 <= j < i ==> AfterIgnoringCase(keys[j], keys[i] + t) == None
    ensures AfterKey(keys[i] + t, keys) == Some(t)
  {
    if i == 0 {
      Dropped(keys[0], t);
    } else {
      assert AfterIgnoringCase(keys[0], keys[i] + t) == None;
      KeyFound(keys[1..], i - 1, t);
    }
  }

  /** Text without a parameter called `mlon`: wherever one begins, its name differs within the text. */
  ghost predicate OtherParameters(s: string) {
    forall k :: 0 <= k < |s| && ParameterStart(s[k..]) ==> OtherName(s[k + 1..])
  }

  ghost predicate OtherName(s: string) { exists j :: 0 <= j < 5 && j < |s| && LowerChar(s[j]) != "mlon="[j] }

  /** `mlat` and the next `mlon`, whatever other parameters lie between them. */
  lemma MlatReads(start: char, start': char, a: Reading, b: Reading, between: string, rest: string)
    requires Starter(start) && Starter(start')
    requires Spelt(a) && Spelt(b) && Stops(between) && Stops(rest) && OtherParameters(between)
    ensures At(2, [start] + ("mlat=" + (ReadingText(a) + (between + ([start'] + ("mlon=" + (ReadingText(b) + rest)))))), false) ==
      Some(Match(a, b, rest))
  {
    hide ReadingText, ScanNumber, OtherParameters;
    var u := between + ([start'] + ("mlon=" + (ReadingText(b) + rest)));
    var s := [start] + ("mlat=" + (ReadingText(a) + u));
    assert s[0] == start && s[1..] == "mlat=" + (ReadingText(a) + u);
    Dropped("mlat=", ReadingText(a) + u);
    assert u[0] == if between == "" then start' else between[0];
    ScanPrinted(a, u);
    MlonFound(start', b, between, rest);
    hide FindMlon;
  }

  lemma {:induction false} MlonFound(start: char, b: Reading, between: string, rest: string)
    requires Starter(start) && Spelt(b) && Stops(rest) && OtherParameters(between)
    ensures FindMlon(between + ([start] + ("mlon=" + (ReadingText(b) + rest)))) == Some((b, rest))
  {
    hide ReadingText, ScanNumber, OtherParameters, Spelt, Stops;
    var t := [start] + ("mlon=" + (ReadingText(b) + rest));
    if between == "" {
      assert between + t == t;
      MlonHere(start, b, rest);
    } else {
      assert (between + t)[1..] == between[1..] + t;
      NotMlon(between, t);
      MlonFound(start, b, between[1..], rest);
    }
  }

  lemma MlonHere(start: char, b: Reading, rest: string)
    requires Starter(start) && Spelt(b) && Stops(rest)
    ensures FindMlon([start] + ("mlon=" + (ReadingText(b) + rest))) == Some((b, rest))
  {
    hide ReadingText, ScanNumber;
    var t := [start] + ("mlon=" + (ReadingText(b) + rest));
    assert t[0] == start && t[1..] == "mlon=" + (ReadingText(b) + rest);
    Dropped("mlon=", ReadingText(b) + rest);
    ScanPrinted(b, rest);
  }

  lemma NotMlon(between: string, t: string)
    requires between != "" && OtherParameters(between)
    ensures FindMlon(between + t) == FindMlon((between + t)[1..]) && OtherParameters(between[1..])
  {
    var s := between + t;
    assert between[0..] == between;
    if ParameterStart(s) {
      assert ParameterStart(between[0..]);
      var j :| 0 <= j < 5 && j < |between[1..]| && LowerChar(between[1..][j]) != "mlon="[j];
      assert s[1..][j] == between[1..][j];
      assert AfterIgnoringCase("mlon=", s[1..]) == None;
    }
    forall k | 0 <= k < |between| - 1 && ParameterStart(between[1..][k..]) ensures OtherName(between[1..][k + 1..]) {
      assert between[1..][k..] == between[k + 1..] && between[1..][k + 1..] == between[k + 2..];
      assert ParameterStart(between[k + 1..]);
    }
  }

  // ------------------------------------------------------------------------------------------
  // What a link of each form is parsed to
  // ------------------------------------------------------------------------------------------

  datatype Form =
    | Payload
    | Parameter(start: char, key: nat, escaped: bool)
    | Mlat(start: char, between: string, start': char)
    | AtPair(zoom: string)
    | PathPair(zoom: string)
    | HashMap(zoom: string)
    | BarePair(before: string, after: string)
  {
    function Pattern(): (p: nat)
      ensures p < PATTERN_COUNT && (p == 6 <==> BarePair?)
    {
      match this
      case Payload => 0
      case Parameter(_, _, _) => 1
      case Mlat(_, _, _) => 2
      case AtPair(_) => 3
      case PathPair(_) => 4
      case HashMap(_) => 5
      case BarePair(_, _) => 6
    }

    /** The form's own parts are well made, and `rest` does not run into its last number. */
    ghost predicate Fits(rest: string) {
      match this
      case Payload => Stops(rest)
      case Parameter(start, key, _) => Starter(start) && key < |KEYS| && Stops(rest)
      case Mlat(start, between, start') =>
        Starter(start) && Starter(start') && Stops(between) && OtherParameters(between) && Stops(rest)
      case AtPair(zoom) => (zoom == "" || IsZoom(zoom)) && PathEnd(rest)
      case PathPair(zoom) => IsZoom(zoom)
      case HashMap(zoom) => zoom != "" && (forall k :: 0 <= k < |zoom| ==> IsDigit(zoom[k]) || zoom[k] == '.') && Stops(rest)
      case BarePair(before, after) => AllSpaces(before) && AllSpaces(after) && rest == ""
    }

    /** The form with its two numbers, and what follows it. */
    function Text(a: Reading, b: Reading, rest: string): string
      requires Parameter? ==> key < |KEYS|
    {
      var second := ReadingText(b) + rest;
      match this
      case Payload => "!3d" + (ReadingText(a) + ("!4d" + second))
      case Parameter(start, key, escaped) => [start] + (KEYS[key] + (ReadingText(a) + ((if escaped then "%2C" else ",") + second)))
      case Mlat(start, between, start') => [start] + ("mlat=" + (ReadingText(a) + (between + ([start'] + ("mlon=" + second)))))
      case AtPair(zoom) => "@" + (ReadingText(a) + ("," + (ReadingText(b) + (zoom + rest))))
      case PathPair(zoom) => "/" + (ReadingText(a) + ("," + (ReadingText(b) + (zoom + rest))))
      case HashMap(zoom) => "#map=" + (zoom + ("/" + (ReadingText(a) + ("/" + second))))
      case BarePair(before, after) => ReadingText(a) + ((before + ("," + after)) + second)
    }
  }

  lemma FormReads(form: Form, a: Reading, b: Reading, rest: string)
    requires Spelt(a) && Spelt(b) && form.Fits(rest)
    ensures At(form.Pattern(), form.Text(a, b, rest), form.BarePair?) == Some(Match(a, b, rest))
  {
    hide At, ReadingText, Spelt, Stops, KEYS, IsZoom, AllSpaces, OtherParameters;
    match form
    case Payload => PayloadReads(a, b, rest);
    case Parameter(start, key, escaped) => ParameterReads(start, key, a, b, escaped, rest);
    case Mlat(start, between, start') => MlatReads(start, start', a, b, between, rest);
    case AtPair(zoom) => AtSignReads(a, b, zoom, rest);
    case PathPair(zoom) => PathPairReads(a, b, zoom, rest);
    case HashMap(zoom) => HashReads(a, b, zoom, rest);
    case BarePair(before, after) => BarePairReads(a, b, before, after);
  }

  /** The search of a pattern, started on `s`, gets as far as `target`: every match on the way has unacceptable numbers. */
  predicate Reaches(p: nat, s: string, target: string)
    decreases |s|
  {
    s == target ||
    (s != "" &&
     match At(p, s, false)
     case None => Reaches(p, s[1..], target)
     case Some(m) => Pair(m.lat.Value(), m.lng.Value()).None? && Reaches(p, m.rest, target))
  }

  lemma FirstAside(p: nat, s: string)
    requires p < 6
    ensures At(p, s, true) == At(p, s, false) && FirstPair(p, s, true) == FirstPair(p, s, false)
  {
    hide TwoNumbers, AtMlat, AfterKey, AtSign, WithZoom, ZoomLength, ToTheEnd, After;
  }

  lemma {:induction false} ReachedThere(p: nat, s: string, target: string)
    requires Reaches(p, s, target)
    ensures FirstPair(p, s, false) == FirstPair(p, target, false)
    decreases |s|
  {
    hide At, Reading.Value, Pair;
    if s != target {
      match At(p, s, false)
      case None => ReachedThere(p, s[1..], target);
      case Some(m) => ReachedThere(p, m.rest, target);
    }
  }

  lemma {:induction false} FirstVerdict(q: nat, p: nat, value: string)
    requires q <= p < PATTERN_COUNT && FirstPair(p, value, true).Some?
    requires forall r: nat :: q <= r < p ==> FirstPair(r, value, true) == None
    ensures FromPattern(q, value) == FirstPair(p, value, true)
    decreases p - q
  {
    hide FirstPair;
    if q < p { FirstVerdict(q + 1, p, value); }
  }

  /** Where a link holds a well-made form with acceptable numbers, and no earlier pattern and no earlier place yields an
      acceptable pair, parsing returns those numbers. */
  lemma FormParsed(input: string, form: Form, a: Reading, b: Reading, rest: string)
    requires Spelt(a) && Spelt(b) && form.Fits(rest)
    requires -90.0 <= a.Value() <= 90.0 && -180.0 <= b.Value() <= 180.0 && !(a.Value() == 0.0 && b.Value() == 0.0)
    requires forall q: nat :: q < form.Pattern() ==> FirstPair(q, Trim(input), true) == None
    requires if form.BarePair? then Trim(input) == form.Text(a, b, rest)
             else Reaches(form.Pattern(), Trim(input), form.Text(a, b, rest))
    ensures ParseMapLink(input) == Ok(a.Value(), b.Value())
  {
    FormReads(form, a, b, rest);
    hide At, Form.Text, Form.Fits, Spelt, Reading.Value, Trim, FromPattern, Reaches;
    var value, text, p := Trim(input), form.Text(a, b, rest), form.Pattern();
    if p < 6 {
      ReachedThere(p, value, text);
      FirstAside(p, value);
    }
    assert FirstPair(p, text, form.BarePair?) == Pair(a.Value(), b.Value());
    hide FirstPair, Pair;
    FirstVerdict(0, p, value);
    assert value != "" by { NothingInNothing(p, value); }
  }

  lemma NothingInNothing(p: nat, value: string)
    ensures value == "" ==> FirstPair(p, value, true) == None
  {
  }

  /** A match of one of the first six patterns begins with one of its markers. */
  predicate Marker(p: nat, c: char) {
    if p == 0 then c == '!' else if p <= 2 then c == '?' || c == '&' else if p == 3 then c == '@' else if p == 4 then c == '/' else c == '#'
  }

  ghost predicate Unmarked(p: nat, s: string) { forall k :: 0 <= k < |s| ==> !Marker(p, s[k]) }

  lemma NotHere(p: nat, s: string, first: bool)
    requires p < 6 && s != "" && !Marker(p, s[0])
    ensures At(p, s, first) == None
  {
    hide TwoNumbers, FindMlon, AfterKey, ZoomLength, ScanNumber;
  }

  lemma {:induction false} PassedOver(p: nat, s: string, t: string)
    requires p < 6 && Unmarked(p, s)
    ensures Reaches(p, s + t, t)
    decreases |s|
  {
    hide At, Marker, Reading.Value;
    if s == "" {
      assert s + t == t;
    } else {
      NotHere(p, s + t, false);
      assert (s + t)[1..] == s[1..] + t;
      PassedOver(p, s[1..], t);
    }
  }

  lemma UnmarkedIsSilent(p: nat, s: string)
    requires p < 6 && Unmarked(p, s)
    ensures FirstPair(p, s, true) == None
  {
    hide At, Marker;
    assert s + "" == s;
    PassedOver(p, s, "");
    ReachedThere(p, s, "");
    FirstAside(p, s);
    NothingInNothing(p, "");
    FirstAside(p, "");
  }

  /** Marks that only the three patterns before the `@` pair look for. */
  ghost predicate Plainly(s: string) { forall k :: 0 <= k < |s| ==> s[k] !in "!?&" }

  lemma PlainlyJoined(a: string, b: string)
    ensures Plainly(a + b) <==> Plainly(a) && Plainly(b)
  {
    if Plainly(a + b) {
      forall k | 0 <= k < |a| ensures a[k] !in "!?&" { assert (a + b)[k] == a[k]; }
      forall k | 0 <= k < |b| ensures b[k] !in "!?&" { assert (a + b)[|a| + k] == b[k]; }
    }
  }

  lemma NumberIsPlain(r: Reading)
    requires Spelt(r)
    ensures Plainly(ReadingText(r))
  {
  }

  lemma ZoomIsPlain(zoom: string)
    requires zoom == "" || IsZoom(zoom)
    ensures Plainly(zoom)
  {
    forall k | 0 <= k < |zoom| ensures zoom[k] !in "!?&" {
      assert k == 0 || k == |zoom| - 1 || IsDigit(zoom[k]) || zoom[k] == '.';
    }
  }

  lemma AtPairIsPlain(a: Reading, b: Reading, zoom: string, rest: string)
    requires Spelt(a) && Spelt(b) && (zoom == "" || IsZoom(zoom)) && Plainly(rest)
    ensures Plainly(AtPair(zoom).Text(a, b, rest))
  {
    NumberIsPlain(a);
    NumberIsPlain(b);
    ZoomIsPlain(zoom);
    assert Plainly("@") && Plainly(",");
    hide Plainly, ReadingText, IsZoom, Spelt;
    PlainlyJoined(zoom, rest);
    PlainlyJoined(ReadingText(b), zoom + rest);
    PlainlyJoined(",", ReadingText(b) + (zoom + rest));
    PlainlyJoined(ReadingText(a), "," + (ReadingText(b) + (zoom + rest)));
    PlainlyJoined("@", ReadingText(a) + ("," + (ReadingText(b) + (zoom + rest))));
  }

  lemma PlainIsSilent(value: string)
    requires Plainly(value)
    ensures forall q: nat :: q < 3 ==> FirstPair(q, value, true) == None
  {
    hide FirstPair;
    forall q: nat | q < 3 ensures FirstPair(q, value, true) == None {
      UnmarkedIsSilent(q, value);
    }
  }

  /** An `@` pair wins over whatever comes before it in the path, a pair in the name of the place included. */
  lemma AtPairWins(pre: string, a: Reading, b: Reading, zoom: string, rest: string)
    requires Spelt(a) && Spelt(b) && AtPair(zoom).Fits(rest) && Pair(a.Value(), b.Value()).Some?
    requires Plainly(pre) && Plainly(rest) && '@' !in pre
    requires var text := pre + AtPair(zoom).Text(a, b, rest); Trim(text) == text
    ensures ParseMapLink(pre + AtPair(zoom).Text(a, b, rest)) == Ok(a.Value(), b.Value())
  {
    AtPairIsPlain(a, b, zoom, rest);
    hide Plainly, Trim, Form.Text, Spelt, Reading.Value, Pair, FirstPair, Reaches, ParseMapLink;
    var pair := AtPair(zoom).Text(a, b, rest);
    PlainlyJoined(pre, pair);
    PlainIsSilent(pre + pair);
    PassedOver(3, pre, pair);
    FormParsed(pre + pair, AtPair(zoom), a, b, rest);
  }

  /** An `@` pair off the globe, or at Null Island, is skipped, and the next one is taken. */
  lemma UnacceptableIsSkipped(pre: string, c: Reading, d: Reading, zoom': string, between: string,
                              a: Reading, b: Reading, zoom: string, rest: string)
    requires Spelt(a) && Spelt(b) && AtPair(zoom).Fits(rest) && Pair(a.Value(), b.Value()).Some?
    requires Spelt(c) && Spelt(d) && (zoom' == "" || IsZoom(zoom')) && Pair(c.Value(), d.Value()).None?
    requires Plainly(pre) && Plainly(between) && Plainly(rest) && '@' !in pre && '@' !in between
    requires var text := pre + AtPair(zoom').Text(c, d, "/" + between + AtPair(zoom).Text(a, b, rest)); Trim(text) == text
    ensures ParseMapLink(pre + AtPair(zoom').Text(c, d, "/" + between + AtPair(zoom).Text(a, b, rest))) == Ok(a.Value(), b.Value())
  {
    AtPairIsPlain(a, b, zoom, rest);
    var pair := AtPair(zoom).Text(a, b, rest);
    var bad := AtPair(zoom').Text(c, d, "/" + between + pair);
    SecondReached(pre, c, d, zoom', between, pair);
    hide Plainly, Trim, Form.Text, Spelt, Reading.Value, Pair, FirstPair, ParseMapLink, IsZoom, Reaches, At;
    PlainIsSilent(pre + bad);
    FormParsed(pre + bad, AtPair(zoom), a, b, rest);
  }

  lemma SecondReached(pre: string, c: Reading, d: Reading, zoom: string, between: string, pair: string)
    requires Spelt(c) && Spelt(d) && (zoom == "" || IsZoom(zoom)) && Pair(c.Value(), d.Value()).None?
    requires Plainly(pre) && Plainly(between) && Plainly(pair) && '@' !in pre && '@' !in between
    ensures var text := pre + AtPair(zoom).Text(c, d, "/" + between + pair); Plainly(text) && Reaches(3, text, pair)
  {
    var tail := "/" + between + pair;
    assert Plainly("/") && Unmarked(3, "/" + between) && PathEnd(tail);
    hide Plainly, Form.Text, Spelt, Reading.Value, Pair, IsZoom, Reaches, At;
    PlainlyJoined("/", between);
    PlainlyJoined("/" + between, pair);
    AtPairIsPlain(c, d, zoom, tail);
    var bad := AtPair(zoom).Text(c, d, tail);
    PlainlyJoined(pre, bad);
    FormReads(AtPair(zoom), c, d, tail);
    PassedOver(3, "/" + between, pair);
    TailIsShorter(c, d, zoom, tail);
    SkippedTo(bad, Match(c, d, tail), pair);
    PassedOver(3, pre, bad);
    ReachedOn(3, pre + bad, bad, pair);
  }

  lemma TailIsShorter(c: Reading, d: Reading, zoom: string, tail: string)
    requires Spelt(c) && Spelt(d)
    ensures |tail| < |AtPair(zoom).Text(c, d, tail)| && c.Valid() && d.Valid()
  {
    hide ReadingText;
  }

  lemma SkippedTo(bad: string, m: Match, target: string)
    requires bad != "" && m.lat.Valid() && m.lng.Valid() && |m.rest| < |bad|
    requires At(3, bad, false) == Some(m) && Pair(m.lat.Value(), m.lng.Value()).None? && Reaches(3, m.rest, target)
    ensures Reaches(3, bad, target)
  {
    hide At, Pair, Reading.Value;
  }

  lemma {:induction false} ReachedOn(p: nat, s: string, middle: string, target: string)
    requires Reaches(p, s, middle) && Reaches(p, middle, target)
    ensures Reaches(p, s, target)
    decreases |s|
  {
    hide At, Pair, Reading.Value;
    if s != middle {
      match At(p, s, false)
      case None => ReachedOn(p, s[1..], middle, target);
      case Some(m) => ReachedOn(p, m.rest, middle, target);
    }
  }

  const STREET := SITE + "/maps/place/" + "12,34-street/"

  /** The street number in a place's name is not taken for its coordinates. */
  lemma StreetNumberIgnored(a: Reading, b: Reading)
    requires Spelt(a) && Spelt(b) && Pair(a.Value(), b.Value()).Some?
    ensures ParseMapLink(STREET + AtPair(",17z").Text(a, b, "")) == Ok(a.Value(), b.Value())
  {
    StreetIsPlain();
    assert IsZoom(",17z") && Plainly("");
    var pair := AtPair(",17z").Text(a, b, "");
    EndsInZoom(a, b);
    TrimLink(STREET, pair);
    hide STREET, ParseMapLink, Trim, Form.Text, Spelt, Reading.Value, Pair;
    AtPairWins(STREET, a, b, ",17z", "");
  }

  lemma StreetIsPlain()
    ensures Plainly(STREET) && '@' !in STREET && STREET != "" && STREET[0] == 'h'
  {
    assert Plainly(SITE) && '@' !in SITE && SITE[0] == 'h' by {
      SiteAt(0);
      forall k | 0 <= k < |SITE| ensures SITE[k] !in "!?&@" { SiteAt(k); }
    }
    assert Plainly("/maps/place/") && '@' !in "/maps/place/";
    assert Plainly("12,34-street/") && '@' !in "12,34-street/";
    hide SITE, Plainly;
    PlainlyJoined(SITE, "/maps/place/");
    PlainlyJoined(SITE + "/maps/place/", "12,34-street/");
  }

  lemma EndsInZoom(a: Reading, b: Reading)
    ensures var pair := AtPair(",17z").Text(a, b, ""); pair != "" && pair[|pair| - 1] == 'z'
  {
    hide ReadingText;
    assert ",17z" + "" == ",17z";
    var second := ReadingText(b) + ",17z";
    assert second[|second| - 1] == 'z';
    var whole := "," + second;
    assert whole[|whole| - 1] == 'z';
  }

  lemma TrimLink(s: string, t: string)
    requires s != "" && s[0] == 'h' && t != "" && t[|t| - 1] == 'z'
    ensures Trim(s + t) == s + t
  {
    NotSpaceH();
    NotSpaceZ();
    hide IsSpace;
    assert (s + t)[0] == 'h' && (s + t)[|s + t| - 1] == 'z';
  }

  lemma NotSpaceZ()
    ensures !IsSpace('z')
  {
  }
}
