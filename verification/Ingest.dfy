/** What a reported event becomes before it is stored. */
module Ingest {
  import opened Options
  import opened Text

  // ------------------------------------------------------------------------------------------
  // Paths
  // ------------------------------------------------------------------------------------------

  const UNKNOWN_PATH := "/other"
  const MAX_PATH_LENGTH := 200

  /** Everything a stored path can be. */
  const SHAPES: set<string> :=
    {"/", "/products", "/products/:slug", "/p/:slug", "/cart", "/checkout", "/search", "/order/:code", "/offline", UNKNOWN_PATH}

  function StripSlashes(s: string): string {
    if s != "" && s[|s| - 1] == '/' then StripSlashes(s[..|s| - 1]) else s
  }

  /** `^prefix[^/]+$` */
  predicate OneSegmentUnder(prefix: string, path: string) {
    prefix < path && '/' !in path[|prefix|..]
  }

  function MatchRules(path: string): string {
    if path == "/" then "/"
    else if path == "/products" then "/products"
    else if OneSegmentUnder("/products/", path) then "/products/:slug"
    else if OneSegmentUnder("/p/", path) then "/p/:slug"
    else if path == "/cart" then "/cart"
    else if path == "/checkout" then "/checkout"
    else if path == "/search" then "/search"
    else if OneSegmentUnder("/order/", path) then "/order/:code"
    else if path == "/offline" then "/offline"
    else UNKNOWN_PATH
  }

  /** `p.replace(/\/+$/, '') || '/'`, for more than one character. */
  function WithoutTrailing(p: string): string {
    if |p| <= 1 then p else if StripSlashes(p) == "" then "/" else StripSlashes(p)
  }

  /** `p.replace(/^\/site(?=\/|$)/, '') || '/'` */
  function WithoutSite(p: string): string {
    if "/site" <= p && (|p| == 5 || p[5] == '/') then (if |p| == 5 then "/" else p[5..])
    else if p == "" then "/" else p
  }

  /** `urlPathname` stands for `new URL(text).pathname`, `None` where the constructor throws. */
  function NormalisePath(urlPathname: string -> Option<string>, raw: Option<string>): string {
    if raw.None? || raw.value == "" || Trim(raw.value) == "" then UNKNOWN_PATH
    else
      var text := Trim(raw.value);
      var isUrl := StartsWithIgnoringCase(text, "http://") || StartsWithIgnoringCase(text, "https://");
      var pathname := if isUrl then urlPathname(text) else Some(text);
      if pathname.None? then UNKNOWN_PATH else FromPathname(pathname.value)
  }

  function FromPathname(pathname: string): string {
    var p := Before(Before(pathname, '?'), '#');
    if !("/" <= p) then UNKNOWN_PATH
    else
      var q := WithoutSite(WithoutTrailing(p));
      if |q| > MAX_PATH_LENGTH then UNKNOWN_PATH else MatchRules(q)
  }

  /** A stored path is one of ten shapes, whatever was reported: never the reserved site-total row, and never a
      tracking code or a query string. */
  lemma PathIsAShape(urlPathname: string -> Option<string>, raw: Option<string>)
    ensures NormalisePath(urlPathname, raw) in SHAPES && NormalisePath(urlPathname, raw) != "*"
  {
    hide Trim, Before, StripSlashes, OneSegmentUnder;
    var p := NormalisePath(urlPathname, raw);
    assert p[0] == '/' && "*"[0] == '*';
  }

  predicate PathChar(c: char) { 'a' <= c <= 'z' || c == '/' || c == ':' }

  predicate Plain(p: string) {
    p != "" && p[0] == '/' && |p| <= MAX_PATH_LENGTH && !("/site" <= p) &&
    (forall k :: 0 <= k < |p| ==> PathChar(p[k])) && (|p| > 1 ==> p[|p| - 1] != '/')
  }

  lemma PlainStays(urlPathname: string -> Option<string>, p: string)
    requires Plain(p)
    ensures NormalisePath(urlPathname, Some(p)) == MatchRules(p)
  {
    hide MatchRules, Trim, Before, IsSpace;
    TrimPlain(p);
    BeforeAll(p, '?');
    BeforeAll(p, '#');
    assert "http://"[0] == 'h' && "https://"[0] == 'h' && LowerChar(p[0]) == '/';
  }

  lemma TrimPlain(p: string)
    requires p != "" && PathChar(p[0]) && PathChar(p[|p| - 1])
    ensures Trim(p) == p
  {
    assert !IsSpace(p[0]) && !IsSpace(p[|p| - 1]);
  }

  lemma NotUnder(prefix: string, path: string, k: nat)
    requires k < |prefix| && k < |path| && prefix[k] != path[k]
    ensures !OneSegmentUnder(prefix, path)
  {
  }

  lemma ShapeIsPlain(p: string)
    requires p in SHAPES
    ensures Plain(p)
  {
    assert "/site"[1] == 's' && "/site"[2] == 'i';
  }

  lemma ShapeMatches(p: string)
    requires p in SHAPES
    ensures MatchRules(p) == p
  {
    assert "/products/:slug"[10..] == ":slug" && "/products/" <= "/products/:slug";
    assert "/order/:code"[7..] == ":code" && "/order/" <= "/order/:code";
    assert "/p/:slug"[3..] == ":slug" && "/p/" <= "/p/:slug";
    NotUnder("/products/", "/p/:slug", 2);
    NotUnder("/products/", "/order/:code", 1);
    NotUnder("/p/", "/order/:code", 1);
    if p in {"/cart", "/checkout", "/search", "/offline", UNKNOWN_PATH} {
      NotUnder("/products/", p, 1);
      NotUnder("/p/", p, 1);
      NotUnder("/order/", p, if p[1] == 'o' then 2 else 1);
    }
  }

  /** Normalising is settled after one pass: a shape reported back is itself. */
  lemma ShapesSettled(urlPathname: string -> Option<string>, p: string)
    requires p in SHAPES
    ensures NormalisePath(urlPathname, Some(p)) == p
  {
    hide NormalisePath, Plain, MatchRules;
    ShapeIsPlain(p);
    PlainStays(urlPathname, p);
    ShapeMatches(p);
  }

  /** A query string, a fragment, a trailing slash and the internal rewrite prefix do not change the page. */
  lemma SamePage(urlPathname: string -> Option<string>, p: string, more: string)
    requires Plain(p)
    ensures NormalisePath(urlPathname, Some(p + "?" + more)) == NormalisePath(urlPathname, Some(p))
    ensures NormalisePath(urlPathname, Some(p + "#" + more)) == NormalisePath(urlPathname, Some(p))
    ensures NormalisePath(urlPathname, Some("/site" + p)) == NormalisePath(urlPathname, Some(p))
    ensures p != "/" ==> NormalisePath(urlPathname, Some(p + "/")) == NormalisePath(urlPathname, Some(p))
  {
    hide MatchRules, Trim, IsSpace, NormalisePath;
    PlainStays(urlPathname, p);
    Suffixed(urlPathname, p, '?', more);
    Suffixed(urlPathname, p, '#', more);
    Rewritten(urlPathname, p);
    if p != "/" { Slashed(urlPathname, p); }
    assert p + ['?'] + more == p + "?" + more && p + ['#'] + more == p + "#" + more;
  }

  lemma PathText(urlPathname: string -> Option<string>, text: string)
    requires text != "" && text[0] == '/' && Trim(text) != "" && Trim(text)[0] == '/'
    ensures NormalisePath(urlPathname, Some(text)) == FromPathname(Trim(text))
  {
    hide Trim, FromPathname;
    assert "http://"[0] == 'h' && "https://"[0] == 'h' && LowerChar('/') == '/';
  }

  lemma Suffixed(urlPathname: string -> Option<string>, p: string, c: char, more: string)
    requires Plain(p) && (c == '?' || c == '#')
    ensures NormalisePath(urlPathname, Some(p + [c] + more)) == MatchRules(p)
  {
    PlainHasNone(p);
    hide MatchRules, Trim, TrimEnd, Before, Plain, NormalisePath, FromPathname;
    TrimSuffixed(p, c, more);
    var rest := TrimEnd(more);
    PathText(urlPathname, p + [c] + more);
    CutAt(p, c, rest);
    PlainPathname(p, p + ([c] + rest));
  }

  lemma TrimSuffixed(p: string, c: char, more: string)
    requires p != "" && p[0] == '/' && (c == '?' || c == '#')
    ensures Trim(p + [c] + more) == p + ([c] + TrimEnd(more))
  {
    hide Trim, IsSpace, TrimEnd;
    var a := p + [c];
    NotSpace(c);
    NotSpace('/');
    TrimKeeps(a, more);
    assert a + TrimEnd(more) == p + ([c] + TrimEnd(more));
  }

  lemma NotSpace(c: char)
    requires c == '?' || c == '#' || c == '/'
    ensures !IsSpace(c)
  {
  }

  lemma TrimKeeps(a: string, more: string)
    requires a != "" && !IsSpace(a[0]) && !IsSpace(a[|a| - 1])
    ensures Trim(a + more) == a + TrimEnd(more)
  {
    assert TrimStart(a + more) == a + more;
    TrimEndKeeps(a, more);
  }

  lemma {:induction false} TrimEndKeeps(a: string, more: string)
    requires a != "" && !IsSpace(a[|a| - 1])
    ensures TrimEnd(a + more) == a + TrimEnd(more)
  {
    if more == "" {
      assert a + more == a;
    } else {
      var n := |more| - 1;
      assert (a + more)[..|a + more| - 1] == a + more[..n] && (a + more)[|a + more| - 1] == more[n];
      if IsSpace(more[n]) { TrimEndKeeps(a, more[..n]); }
    }
  }

  lemma {:induction false} BeforeCut(p: string, c: char, rest: string)
    requires c !in p
    ensures Before(p + ([c] + rest), c) == p
  {
    var s := p + ([c] + rest);
    if p == "" {
      assert s[0] == c;
    } else {
      assert s[1..] == p[1..] + ([c] + rest) && s[0] == p[0];
      BeforeCut(p[1..], c, rest);
    }
  }

  lemma {:induction false} BeforeOther(p: string, c: char, rest: string)
    requires c !in p
    ensures p <= Before(p + rest, c)
  {
    if p == "" {
    } else {
      assert (p + rest)[1..] == p[1..] + rest && (p + rest)[0] == p[0];
      BeforeOther(p[1..], c, rest);
    }
  }

  lemma CutAt(p: string, c: char, rest: string)
    requires (c == '?' || c == '#') && '?' !in p && '#' !in p
    ensures Before(Before(p + ([c] + rest), '?'), '#') == p
  {
    hide Before;
    if c == '?' {
      BeforeCut(p, '?', rest);
      BeforeAll(p, '#');
    } else {
      CutAtHash(p, rest);
    }
  }

  lemma CutAtHash(p: string, rest: string)
    requires '?' !in p && '#' !in p
    ensures Before(Before(p + (['#'] + rest), '?'), '#') == p
  {
    hide Before;
    var first := Before(p + (['#'] + rest), '?');
    assert p + (['#'] + rest) == (p + ['#']) + rest;
    BeforeOther(p + ['#'], '?', rest);
    var tail := first[|p| + 1..];
    assert first == p + (['#'] + tail);
    BeforeCut(p, '#', tail);
  }

  lemma PlainPathname(p: string, text: string)
    requires Plain(p) && Before(Before(text, '?'), '#') == p
    ensures FromPathname(text) == MatchRules(p)
  {
    hide MatchRules, Before;
  }

  lemma PlainHasNone(p: string)
    requires Plain(p)
    ensures '?' !in p && '#' !in p && p != "" && p[0] == '/' && PathChar(p[|p| - 1])
    ensures !("/site" <= p) && |p| <= MAX_PATH_LENGTH && (|p| > 1 ==> p[|p| - 1] != '/')
  {
  }

  lemma Uncut(p: string)
    requires '?' !in p && '#' !in p
    ensures Before(Before(p, '?'), '#') == p
  {
    BeforeAll(p, '?');
    BeforeAll(p, '#');
  }

  lemma Rewritten(urlPathname: string -> Option<string>, p: string)
    requires Plain(p)
    ensures NormalisePath(urlPathname, Some("/site" + p)) == MatchRules(p)
  {
    PlainHasNone(p);
    var text := "/site" + p;
    hide MatchRules, Trim, Before, Plain, NormalisePath, FromPathname;
    SiteText(p);
    PathText(urlPathname, text);
    SitePathname(p);
  }

  lemma SiteText(p: string)
    requires p != "" && PathChar(p[|p| - 1]) && '?' !in p && '#' !in p
    ensures Trim("/site" + p) == "/site" + p && Before(Before("/site" + p, '?'), '#') == "/site" + p
  {
    var text := "/site" + p;
    assert text[|text| - 1] == p[|p| - 1];
    hide Trim, Before;
    TrimPlain(text);
    Uncut(text);
  }

  lemma SitePathname(p: string)
    requires p != "" && p[0] == '/' && |p| <= MAX_PATH_LENGTH && (|p| > 1 ==> p[|p| - 1] != '/')
    requires Before(Before("/site" + p, '?'), '#') == "/site" + p
    ensures FromPathname("/site" + p) == MatchRules(p)
  {
    hide MatchRules, Before, WithoutTrailing, WithoutSite;
    var text := "/site" + p;
    assert "/" <= text by { assert text[0] == '/'; }
    TrailingKept(p);
    SiteDropped(p);
  }

  lemma TrailingKept(p: string)
    requires p != "" && (|p| > 1 ==> p[|p| - 1] != '/')
    ensures p != "/" ==> WithoutTrailing("/site" + p) == "/site" + p
    ensures WithoutTrailing("/site/") == "/site"
  {
    var text := "/site" + p;
    assert text[|text| - 1] == p[|p| - 1];
    if p != "/" { assert StripSlashes(text) == text; }
    assert "/site/"[..5] == "/site";
    assert StripSlashes("/site/") == StripSlashes("/site") == "/site";
  }

  lemma SiteDropped(p: string)
    requires p != "" && p[0] == '/'
    ensures WithoutSite("/site" + p) == p && WithoutSite("/site") == "/" && "/site" + "/" == "/site/"
  {
    var text := "/site" + p;
    assert text[..5] == "/site" && text[5] == '/' && text[5..] == p;
  }

  lemma Slashed(urlPathname: string -> Option<string>, p: string)
    requires Plain(p) && p != "/"
    ensures NormalisePath(urlPathname, Some(p + "/")) == MatchRules(p)
  {
    var text := p + "/";
    PlainHasNone(p);
    assert PathChar('/');
    TrimPlain(text);
    Uncut(text);
    hide MatchRules, Trim, Before;
    PathText(urlPathname, text);
    assert text[..|text| - 1] == p;
    assert StripSlashes(text) == StripSlashes(p) == p;
  }

  /** An address with a scheme, in any case of letters, counts as the path in it, and as `/other` when it is no address. */
  lemma AddressIsItsPath(urlPathname: string -> Option<string>, address: string)
    requires StartsWithIgnoringCase(address, "http://") || StartsWithIgnoringCase(address, "https://")
    requires !IsSpace(address[|address| - 1])
    ensures var path := urlPathname(address);
      path == None ==> NormalisePath(urlPathname, Some(address)) == "/other"
    ensures var path := urlPathname(address);
      path.Some? && Plain(path.value) ==> NormalisePath(urlPathname, Some(address)) == NormalisePath(urlPathname, path)
  {
    assert LowerChar(address[0]) == 'h' by { assert "http://"[0] == 'h' && "https://"[0] == 'h'; }
    assert !IsSpace(address[0]);
    Untrimmed(address);
    var path := urlPathname(address);
    if path.Some? && Plain(path.value) {
      PlainHasNone(path.value);
      Uncut(path.value);
      PlainPathname(path.value, path.value);
      PlainStays(urlPathname, path.value);
    }
    hide Trim, IsSpace, FromPathname, Plain, MatchRules, StartsWithIgnoringCase;
  }

  /** Any number of slashes at the end. */
  ghost predicate Slashes(s: string) { forall k :: 0 <= k < |s| ==> s[k] == '/' }

  lemma {:induction false} StripAll(p: string, slashes: string)
    requires Slashes(slashes)
    ensures StripSlashes(p + slashes) == StripSlashes(p)
  {
    if slashes == "" {
      assert p + slashes == p;
    } else {
      var n := |slashes| - 1;
      assert (p + slashes)[..|p + slashes| - 1] == p + slashes[..n];
      StripAll(p, slashes[..n]);
    }
  }

  /** Trailing slashes, however many, do not change the page: not even the front page, which is one itself. */
  lemma TrailingSlashes(urlPathname: string -> Option<string>, p: string, slashes: string)
    requires Plain(p) && Slashes(slashes)
    ensures NormalisePath(urlPathname, Some(p + slashes)) == NormalisePath(urlPathname, Some(p))
  {
    var text := p + slashes;
    PlainHasNone(p);
    PlainStays(urlPathname, p);
    assert text[|text| - 1] == if slashes == "" then p[|p| - 1] else '/';
    TrimPlain(text);
    Uncut(text);
    StripAll(p, slashes);
    hide MatchRules, Trim, Before, NormalisePath, Plain;
    PathText(urlPathname, text);
    SlashedPathname(p, text);
  }

  lemma SlashedPathname(p: string, text: string)
    requires p <= text && p != "" && p[0] == '/' && |p| <= MAX_PATH_LENGTH && !("/site" <= p) && (|p| > 1 ==> p[|p| - 1] != '/')
    requires Before(Before(text, '?'), '#') == text && StripSlashes(text) == StripSlashes(p) && (|p| > 1 || text == p || |text| > 1)
    ensures FromPathname(text) == MatchRules(p)
  {
    hide MatchRules, Before;
    if |p| == 1 {
      assert p == "/" && p[..0] == "";
      assert StripSlashes(p) == "";
    }
  }

  /** The pages named by one more segment, and what is stored for all of them. */
  const NAMED: set<(string, string)> :=
    {("/products/", "/products/:slug"), ("/p/", "/p/:slug"), ("/order/", "/order/:code")}

  /** Products and order codes collapse onto their shape, or onto `/other` when too long: the segment itself is never stored. */
  lemma SegmentHidden(urlPathname: string -> Option<string>, page: (string, string), segment: string)
    requires page in NAMED && segment != "" && '/' !in segment && '?' !in segment && '#' !in segment
    requires !IsSpace(segment[|segment| - 1])
    ensures NormalisePath(urlPathname, Some(page.0 + segment)) == if |page.0 + segment| <= 200 then page.1 else "/other"
  {
    hide MatchRules, NormalisePath, FromPathname, IsSpace, Trim, Before;
    var text := page.0 + segment;
    NamedStart(page);
    assert text[0] == '/' && text[|text| - 1] == segment[|segment| - 1];
    NotSpace('/');
    Untrimmed(text);
    Uncut(text);
    PathText(urlPathname, text);
    WholePathname(text, page);
    NamedMatches(page, segment);
  }

  lemma NamedStart(page: (string, string))
    requires page in NAMED
    ensures page.0 != "" && page.0[0] == '/' && '?' !in page.0 && '#' !in page.0 && |page.0| >= 3 && page.0[1] in "po"
  {
  }

  lemma Untrimmed(s: string)
    requires s != "" && !IsSpace(s[0]) && !IsSpace(s[|s| - 1])
    ensures Trim(s) == s
  {
    hide IsSpace;
  }

  lemma WholePathname(text: string, page: (string, string))
    requires |text| > 1 && text[0] == '/' && text[1] in "po" && text[|text| - 1] != '/'
    requires Before(Before(text, '?'), '#') == text
    ensures FromPathname(text) == if |text| <= 200 then MatchRules(text) else "/other"
  {
    hide MatchRules, Before;
    assert "/site"[1] == 's';
  }

  lemma NamedMatches(page: (string, string), segment: string)
    requires page in NAMED && segment != "" && '/' !in segment
    ensures MatchRules(page.0 + segment) == page.1
  {
    var text := page.0 + segment;
    assert page.0 < text && text[|page.0|..] == segment;
    assert OneSegmentUnder(page.0, text);
    if page.0 == "/p/" {
      NotUnder("/products/", text, 2);
    } else if page.0 == "/order/" {
      NotUnder("/products/", text, 1);
      NotUnder("/p/", text, 1);
    }
    hide OneSegmentUnder;
    assert text[1] == page.0[1] && text[2] == page.0[2];
    assert "/cart"[1] == 'c' && "/checkout"[1] == 'c' && "/search"[1] == 's';
    assert page.0 == "/products/" ==> |text| > 10;
  }

  // ------------------------------------------------------------------------------------------
  // Events
  // ------------------------------------------------------------------------------------------

  datatype Kind = PageView | SectionView | ProductView | Search | WhatsappClick | AddToCart | CheckoutStart | OrderPlaced

  /** A reported event; a dwell time that is missing or not finite is `None`. */
  datatype Reported = Reported(kind: Kind, path: Option<string>, target: Option<string>, dwellMs: Option<real>,
                               searchTerm: Option<string>, resultCount: Option<nat>)

  datatype Normalised = Normalised(kind: Kind, path: string, target: Option<string>, dwellMs: Option<nat>,
                                   searchTerm: Option<string>, resultCount: Option<nat>)

  /** Functions of other modules: URL parsing, the anchors and slugs a target may be, and search-term folding. */
  datatype Host = Host(urlPathname: string -> Option<string>, isAnchor: string -> bool, isSlug: string -> bool,
                       foldTerm: string -> string)

  const MAX_TARGET_LENGTH := 120
  const MAX_SEARCH_TERM_LENGTH := 64
  const DEFAULT_MAX_DWELL_MS := 120_000.0

  /** `Math.round` */
  function Round(x: real): int { (x + 0.5).Floor }

  function Ceiling(maxDwellMs: Option<real>): real {
    if maxDwellMs.Some? && maxDwellMs.value > 0.0 then maxDwellMs.value else DEFAULT_MAX_DWELL_MS
  }

  function ClampDwell(raw: Option<real>, maxDwellMs: Option<real>): Option<nat> {
    if raw.None? then None
    else
      var floored, top := (if Round(raw.value) < 0 then 0 else Round(raw.value)), Round(Ceiling(maxDwellMs));
      Some(if floored < top then floored else top)
  }

  function NormaliseTarget(host: Host, kind: Kind, raw: Option<string>): Option<string> {
    if raw.None? then None
    else
      var value := Trim(raw.value);
      if value == "" || |value| > MAX_TARGET_LENGTH then None
      else if kind.SectionView? then (if host.isAnchor(value) then Some(value) else None)
      else if kind.ProductView? then (if host.isSlug(value) then Some(value) else None)
      else None
  }

  function NormaliseTerm(host: Host, raw: Option<string>): Option<string> {
    var folded := host.foldTerm(if raw.Some? then raw.value else "");
    var cut := if |folded| > MAX_SEARCH_TERM_LENGTH then folded[..MAX_SEARCH_TERM_LENGTH] else folded;
    if cut == "" then None else Some(cut)
  }

  function NormaliseEvent(host: Host, e: Reported, maxDwellMs: Option<real>): Normalised {
    Normalised(e.kind, NormalisePath(host.urlPathname, e.path), NormaliseTarget(host, e.kind, e.target),
      if e.kind.SectionView? then ClampDwell(e.dwellMs, maxDwellMs) else None,
      if e.kind.Search? then NormaliseTerm(host, e.searchTerm) else None,
      if e.kind.Search? then e.resultCount else None)
  }

  predicate WorthStoring(e: Normalised) {
    if e.kind.SectionView? then e.target.Some? else if e.kind.Search? then e.searchTerm.Some? else true
  }

  /** Dwell is an integer between zero and the ceiling, and the rounded report when that already lies there. */
  lemma DwellBounded(raw: Option<real>, maxDwellMs: Option<real>)
    ensures var r := ClampDwell(raw, maxDwellMs);
      (r.Some? <==> raw.Some?) &&
      (r.Some? ==> 0 <= r.value <= Round(Ceiling(maxDwellMs))) &&
      (r.Some? && 0.0 <= raw.value <= Ceiling(maxDwellMs) ==> r.value == Round(raw.value)) &&
      (r.Some? && raw.value <= 0.0 ==> r.value == 0) &&
      (r.Some? && raw.value >= Ceiling(maxDwellMs) ==> r.value == Round(Ceiling(maxDwellMs)))
    ensures Ceiling(maxDwellMs) == if maxDwellMs.Some? && maxDwellMs.value > 0.0 then maxDwellMs.value else 120_000.0
  {
  }

  /** Every column of a row worth storing is bounded, and only the columns its kind uses are filled. */
  lemma StoredIsBounded(host: Host, e: Reported, maxDwellMs: Option<real>)
    requires WorthStoring(NormaliseEvent(host, e, maxDwellMs))
    ensures var n := NormaliseEvent(host, e, maxDwellMs);
      n.kind == e.kind && n.path in SHAPES &&
      (n.kind.SectionView? ==> n.target.Some? && host.isAnchor(n.target.value)) &&
      (n.target.Some? ==> 0 < |n.target.value| <= MAX_TARGET_LENGTH && (n.kind.SectionView? || n.kind.ProductView?)) &&
      (n.dwellMs.Some? ==> n.kind.SectionView? && n.dwellMs.value <= Round(Ceiling(maxDwellMs))) &&
      (n.searchTerm.Some? <==> n.kind.Search?) &&
      (n.searchTerm.Some? ==> 0 < |n.searchTerm.value| <= MAX_SEARCH_TERM_LENGTH)
  {
    hide NormalisePath, Trim;
    PathIsAShape(host.urlPathname, e.path);
    DwellBounded(e.dwellMs, maxDwellMs);
  }

  /** What a section view must name and a search must leave after folding; everything else is always worth a row. */
  ghost predicate Counts(host: Host, e: Reported) {
    && (e.kind.SectionView? ==> e.target.Some? && 1 <= |Trim(e.target.value)| <= 120 && host.isAnchor(Trim(e.target.value)))
    && (e.kind.Search? ==> host.foldTerm(e.searchTerm.UnwrapOr("")) != "")
  }

  /** A report is stored exactly when it counts. */
  lemma StoredExactly(host: Host, e: Reported, maxDwellMs: Option<real>)
    ensures WorthStoring(NormaliseEvent(host, e, maxDwellMs)) <==> Counts(host, e)
  {
    hide NormalisePath, Trim;
  }

  /** What of a report that counts is kept: a section's anchor and its dwell, a product's slug, the start of a folded term
      and the number of its results. */
  lemma KeptExactly(host: Host, e: Reported, maxDwellMs: Option<real>)
    requires Counts(host, e)
    ensures var n := NormaliseEvent(host, e, maxDwellMs);
      && n.kind == e.kind
      && (n.kind.SectionView? ==> n.target == Some(Trim(e.target.value)) && (n.dwellMs.Some? <==> e.dwellMs.Some?))
      && (n.kind.ProductView? && e.target.Some? && 1 <= |Trim(e.target.value)| <= 120 ==>
           n.target == (if host.isSlug(Trim(e.target.value)) then Some(Trim(e.target.value)) else None))
      && (n.kind.Search? ==>
           && n.resultCount == e.resultCount && n.searchTerm.Some?
           && n.searchTerm.value <= host.foldTerm(e.searchTerm.UnwrapOr(""))
           && (n.searchTerm.value == host.foldTerm(e.searchTerm.UnwrapOr("")) || |n.searchTerm.value| == 64))
      && (!n.kind.Search? ==> n.resultCount == None && n.searchTerm == None)
  {
    hide NormalisePath, Trim, ClampDwell;
    DwellBounded(e.dwellMs, maxDwellMs);
  }

  /** A page is filed under `/other` exactly when it is none of the six fixed pages and no segment under a named one. */
  lemma OtherExactly(p: string)
    ensures MatchRules(p) == "/other" <==>
      && p !in {"/", "/products", "/cart", "/checkout", "/search", "/offline"}
      && forall page, segment :: page in NAMED && segment != "" && '/' !in segment ==> p != page.0 + segment
  {
    if MatchRules(p) == "/other" {
      forall page, segment | page in NAMED && segment != "" && '/' !in segment ensures p != page.0 + segment {
        NamedMatches(page, segment);
      }
    } else if p !in {"/", "/products", "/cart", "/checkout", "/search", "/offline"} {
      Named(p);
    }
  }

  lemma Named(p: string)
    requires MatchRules(p) != "/other" && p !in {"/", "/products", "/cart", "/checkout", "/search", "/offline"}
    ensures exists page, segment :: page in NAMED && segment != "" && '/' !in segment && p == page.0 + segment
  {
    var page := if OneSegmentUnder("/products/", p) then ("/products/", "/products/:slug")
                else if OneSegmentUnder("/p/", p) then ("/p/", "/p/:slug")
                else ("/order/", "/order/:code");
    assert OneSegmentUnder(page.0, p) && page in NAMED;
    assert p == page.0 + p[|page.0|..];
  }
}
