/** The glob compiler of the ownership check, and what a glob means. */
module Glob {
  import opened Options
  import opened Regex

  // ------------------------------------------------------------------------------------------
  // What a glob means, without regular expressions
  // ------------------------------------------------------------------------------------------

  predicate DeepDir(p: string) { |p| >= 3 && p[0] == '*' && p[1] == '*' && p[2] == '/' }

  predicate Deep(p: string) { |p| >= 2 && p[0] == '*' && p[1] == '*' && !DeepDir(p) }

  predicate Single(p: string) { |p| >= 1 && p[0] == '*' && !DeepDir(p) && !Deep(p) }

  /** `s[i..k]` is zero or more segments, each non-empty and closed by its slash. */
  predicate WholeSegments(s: string, i: nat, k: nat)
    requires i <= k <= |s|
  {
    i == k ||
    (s[k - 1] == '/' && s[i] != '/' && forall m :: i < m < k && s[m] == '/' ==> s[m - 1] != '/')
  }

  predicate SlashFree(s: string, i: nat, k: nat)
    requires i <= k <= |s|
  {
    forall m :: i <= m < k ==> s[m] != '/'
  }

  predicate OneLine(s: string, i: nat, k: nat)
    requires i <= k <= |s|
  {
    forall m :: i <= m < k ==> !LineTerminator(s[m])
  }

  /** The glob `p` covers all of `path` from `i` on. With `dotted`, a bare `**` stays on one line. */
  predicate CoversFrom(p: string, path: string, i: nat, dotted: bool)
    requires i <= |path|
    decreases |p|
  {
    if p == "" then i == |path|
    else if DeepDir(p) then
      exists k: nat | i <= k <= |path| :: WholeSegments(path, i, k) && CoversFrom(p[3..], path, k, dotted)
    else if Deep(p) then
      exists k: nat | i <= k <= |path| :: (dotted ==> OneLine(path, i, k)) && CoversFrom(p[2..], path, k, dotted)
    else if Single(p) then
      exists k: nat | i <= k <= |path| :: SlashFree(path, i, k) && CoversFrom(p[1..], path, k, dotted)
    else
      i < |path| && path[i] == p[0] && CoversFrom(p[1..], path, i + 1, dotted)
  }

  predicate Covers(p: string, path: string) { CoversFrom(p, path, 0, false) }

  // ------------------------------------------------------------------------------------------
  // The compiler
  // ------------------------------------------------------------------------------------------

  predicate NeedsEscape(c: char) { c in ".+^${}()|[]\\" }

  function Escaped(c: char): string { if NeedsEscape(c) then ['\\', c] else [c] }

  /** The text emitted for the pattern, between the anchors. */
  function Emitted(p: string): string
    decreases |p|
  {
    if p == "" then ""
    else if DeepDir(p) then "(?:[^/]+/)*" + Emitted(p[3..])
    else if Deep(p) then ".*" + Emitted(p[2..])
    else if Single(p) then "[^/]*" + Emitted(p[1..])
    else Escaped(p[0]) + Emitted(p[1..])
  }

  function Compiled(p: string): string { "^" + Emitted(p) + "$" }

  /** What the scanner appends for the token at the head of `p`, and how many characters it consumes. */
  function Head(p: string): (string, nat)
    requires p != ""
    ensures Head(p).1 <= |p|
  {
    if DeepDir(p) then ("(?:[^/]+/)*", 3)
    else if Deep(p) then (".*", 2)
    else if Single(p) then ("[^/]*", 1)
    else (Escaped(p[0]), 1)
  }

  lemma EmittedAfter(out: string, p: string)
    requires p != ""
    ensures (out + Head(p).0) + Emitted(p[Head(p).1..]) == out + Emitted(p)
  {
  }

  method ToRegExp(pattern: string) returns (text: string)
    ensures text == Compiled(pattern)
  {
    var out := "";
    var i := 0;
    while i < |pattern|
      invariant 0 <= i <= |pattern|
      invariant out + Emitted(pattern[i..]) == Emitted(pattern)
    {
      var c := pattern[i];
      ghost var j, rest := i, pattern[i..];
      EmittedAfter(out, rest);
      if c == '*' && i + 1 < |pattern| && pattern[i + 1] == '*' {
        if i + 2 < |pattern| && pattern[i + 2] == '/' {
          out := out + "(?:[^/]+/)*";
          i := i + 2;
        } else {
          out := out + ".*";
          i := i + 1;
        }
      } else if c == '*' {
        out := out + "[^/]*";
      } else {
        out := out + if NeedsEscape(c) then ['\\', c] else [c];
      }
      i := i + 1;
      assert pattern[i..] == rest[i - j..];
    }
    assert pattern[i..] == "";
    text := "^" + out + "$";
  }

  // ------------------------------------------------------------------------------------------
  // The emitted text parses
  // ------------------------------------------------------------------------------------------

  const NOT_SLASH := Class(true, "/")
  const SEGMENTS := Star(Cat(Cat(NOT_SLASH, Star(NOT_SLASH)), Cat(Lit('/'), Empty)))

  /** The tree of the emitted text followed by the closing anchor. */
  function Tree(p: string): Re
    decreases |p|
  {
    if p == "" then Cat(End, Empty)
    else if DeepDir(p) then Cat(SEGMENTS, Tree(p[3..]))
    else if Deep(p) then Cat(Star(Dot), Tree(p[2..]))
    else if Single(p) then Cat(Star(NOT_SLASH), Tree(p[1..]))
    else Cat(Lit(p[0]), Tree(p[1..]))
  }

  /** Nothing emitted after an atom reads as a quantifier, except an unescaped `?`. */
  lemma EmittedStart(p: string)
    ensures var t := Emitted(p) + "$"; t[0] != '*' && t[0] != '+' && (t[0] == '?' <==> p != "" && p[0] == '?')
  {
    if p == "" {
    } else if DeepDir(p) || Deep(p) || Single(p) {
    } else {
      assert (Escaped(p[0]) + Emitted(p[1..]))[0] == Escaped(p[0])[0];
    }
  }

  /** The four heads the compiler writes, each read back as one atom. */
  lemma ReadHead(p: string, t: string)
    requires p != "" && t != ""
    ensures DeepDir(p) ==> ParseTerm("(?:[^/]+/)*" + t) == Some((SEGMENTS, SkipLazy(t)))
    ensures Deep(p) ==> ParseTerm(".*" + t) == Some((Star(Dot), SkipLazy(t)))
    ensures Single(p) ==> ParseTerm("[^/]*" + t) == Some((Star(NOT_SLASH), SkipLazy(t)))
    ensures p[0] != '*' && p[0] != '?' ==> ParseTerm(Escaped(p[0]) + t) == Some(ParseQuantifier(Lit(p[0]), t))
  {
    if DeepDir(p) {
      ReadSegments(t);
    } else if Deep(p) || Single(p) {
      ReadStars(t);
    } else if p[0] != '?' {
      ReadEscaped(p[0], t);
    }
    hide ParseTerm, Escaped;
  }

  lemma ReadStars(t: string)
    ensures ParseTerm(".*" + t) == Some((Star(Dot), SkipLazy(t)))
    ensures ParseTerm("[^/]*" + t) == Some((Star(NOT_SLASH), SkipLazy(t)))
  {
    ReadClass("*" + t);
    assert "[^/]*" + t == "[^/]" + ("*" + t);
    assert ("*" + t)[1..] == t;
    assert (".*" + t)[1..] == "*" + t;
    hide ParseClass, ParseDisjunction;
  }

  lemma ReadEscaped(c: char, t: string)
    requires t != "" && c != '*' && c != '?'
    ensures ParseTerm(Escaped(c) + t) == Some(ParseQuantifier(Lit(c), t))
  {
    hide ParseQuantifier, ParseClass, ParseDisjunction;
    var e := Escaped(c) + t;
    if NeedsEscape(c) {
      assert e[2..] == t;
    } else {
      assert e[1..] == t;
    }
  }

  lemma ReadClass(t: string)
    ensures ParseAtom("[^/]" + t) == Some((NOT_SLASH, t))
  {
    var s := "[^/]" + t;
    assert s[2..] == "/]" + t;
    assert ("/]" + t)[1..] == "]" + t;
    assert ("]" + t)[1..] == t;
    assert ParseClass("]" + t, true, [] + ['/']) == Some((Class(true, [] + ['/']), t));
    assert [] + ['/'] == "/";
  }

  lemma ReadSlash(t: string)
    ensures ParseAlternative("/)*" + t) == Some((Cat(Lit('/'), Empty), ")*" + t))
  {
    assert ("/)*" + t)[1..] == ")*" + t;
    assert ParseTerm("/)*" + t) == Some((Lit('/'), ")*" + t));
    assert ParseAlternative(")*" + t) == Some((Empty, ")*" + t));
  }

  lemma ReadSegment(t: string)
    ensures ParseDisjunction("[^/]" + ("+/)*" + t)) == Some((SEGMENTS.body, ")*" + t))
  {
    var body := "[^/]" + ("+/)*" + t);
    ReadClass("+/)*" + t);
    assert ("+/)*" + t)[1..] == "/)*" + t;
    assert ParseTerm(body) == Some((Cat(NOT_SLASH, Star(NOT_SLASH)), "/)*" + t)) by { hide ParseAtom; }
    ReadSlash(t);
    hide ParseTerm;
    assert ParseAlternative(body) == Some((SEGMENTS.body, ")*" + t));
  }

  lemma ReadSegments(t: string)
    ensures ParseTerm("(?:[^/]+/)*" + t) == Some((SEGMENTS, SkipLazy(t)))
  {
    var s := "(?:[^/]+/)*" + t;
    ReadSegment(t);
    hide ParseDisjunction;
    assert s[3..] == "[^/]" + ("+/)*" + t);
    assert (")*" + t)[1..] == "*" + t;
    assert ParseAtom(s) == Some((SEGMENTS.body, "*" + t));
    assert ("*" + t)[1..] == t;
  }

  lemma {:induction false} ReadEmitted(p: string)
    requires '?' !in p
    ensures ParseAlternative(Emitted(p) + "$") == Some((Tree(p), ""))
    decreases |p|
  {
    if p == "" {
      assert "$"[1..] == "";
    } else {
      var (head, n) := Head(p);
      var t := Emitted(p[n..]) + "$";
      ReadEmitted(p[n..]);
      EmittedStart(p[n..]);
      ReadHead(p, t);
      EmittedSplit(p);
      hide Emitted, Escaped, ParseTerm, ParseAtom;
      SameStart(head + t);
    }
  }

  lemma EmittedSplit(p: string)
    requires p != ""
    ensures var t := Emitted(p[Head(p).1..]) + "$";
      Emitted(p) + "$" == Head(p).0 + t && (Head(p).0 + t)[0] == Head(p).0[0] && Head(p).0[0] !in "|)"
  {
    hide Emitted, Head;
    EmittedAfter("", p);
    HeadStart(p);
    var head, rest := Head(p).0, Emitted(p[Head(p).1..]);
    assert Emitted(p) == head + rest by { assert "" + head == head && "" + Emitted(p) == Emitted(p); }
    assert (head + rest) + "$" == head + (rest + "$");
  }

  lemma HeadStart(p: string)
    requires p != ""
    ensures Head(p).0 != "" && Head(p).0[0] !in "|)"
  {
    hide Emitted;
  }

  /** A term, then the rest of the alternative. */
  lemma SameStart(text: string)
    requires text != "" && text[0] != '|' && text[0] != ')' && ParseTerm(text).Some?
    ensures var (term, rest) := ParseTerm(text).value;
      var more := ParseAlternative(rest);
      ParseAlternative(text) == if more.None? then None else Some((Cat(term, more.value.0), more.value.1))
  {
  }

  // ------------------------------------------------------------------------------------------
  // The tree means the glob
  // ------------------------------------------------------------------------------------------

  lemma {:induction false} StarNotSlash(s: string, i: nat, j: nat)
    requires i <= j <= |s|
    ensures Matches(Star(NOT_SLASH), s, i, j) <==> SlashFree(s, i, j)
    decreases j - i
  {
    if i < j {
      StarNotSlash(s, i + 1, j);
      assert Matches(NOT_SLASH, s, i, i + 1) <==> s[i] != '/';
    }
  }

  lemma {:induction false} StarDot(s: string, i: nat, j: nat)
    requires i <= j <= |s|
    ensures Matches(Star(Dot), s, i, j) <==> OneLine(s, i, j)
    decreases j - i
  {
    if i < j {
      StarDot(s, i + 1, j);
      assert Matches(Dot, s, i, i + 1) <==> !LineTerminator(s[i]);
    }
  }

  lemma OneSegment(s: string, i: nat, j: nat)
    requires i <= j <= |s|
    ensures Matches(SEGMENTS.body, s, i, j) <==> i + 1 < j && SlashFree(s, i, j - 1) && s[j - 1] == '/'
  {
    var name, slash := SEGMENTS.body.first, SEGMENTS.body.rest;
    forall k: nat | i <= k <= j
      ensures Matches(name, s, i, k) <==> i < k && SlashFree(s, i, k)
      ensures Matches(slash, s, k, j) <==> k + 1 == j && s[k] == '/'
    {
      if i < k {
        StarNotSlash(s, i + 1, k);
        assert Matches(NOT_SLASH, s, i, i + 1) <==> s[i] != '/';
      }
      assert Matches(Empty, s, j, j);
    }
    if i + 1 < j && SlashFree(s, i, j - 1) && s[j - 1] == '/' {
      assert Matches(name, s, i, j - 1) && Matches(slash, s, j - 1, j);
    }
  }

  lemma {:induction false} StarSegments(s: string, i: nat, j: nat)
    requires i <= j <= |s|
    ensures Matches(SEGMENTS, s, i, j) <==> WholeSegments(s, i, j)
    decreases j - i
  {
    forall k: nat | i < k <= j
      ensures Matches(SEGMENTS.body, s, i, k) <==> i + 1 < k && SlashFree(s, i, k - 1) && s[k - 1] == '/'
      ensures Matches(SEGMENTS, s, k, j) <==> WholeSegments(s, k, j)
    {
      OneSegment(s, i, k);
      StarSegments(s, k, j);
    }
    if i < j && WholeSegments(s, i, j) {
      var k := i + 1;
      while s[k] != '/'
        invariant i < k < j && SlashFree(s, i, k)
        decreases j - k
      {
        k := k + 1;
      }
      assert Matches(SEGMENTS.body, s, i, k + 1) && Matches(SEGMENTS, s, k + 1, j);
    }
  }

  lemma {:induction false} TreeMeansGlob(p: string, s: string, i: nat, j: nat)
    requires i <= j <= |s|
    ensures Matches(Tree(p), s, i, j) <==> j == |s| && CoversFrom(p, s, i, true)
    decreases |p|
  {
    if p == "" {
      assert Matches(End, s, i, i) && Matches(Empty, s, j, j) <==> i == j == |s|;
    } else {
      var n := Head(p).1;
      var atom := Tree(p).first;
      forall k: nat | i <= k <= j
        ensures Matches(Tree(p[n..]), s, k, j) <==> j == |s| && CoversFrom(p[n..], s, k, true)
        ensures DeepDir(p) ==> (Matches(atom, s, i, k) <==> WholeSegments(s, i, k))
        ensures Deep(p) ==> (Matches(atom, s, i, k) <==> OneLine(s, i, k))
        ensures Single(p) ==> (Matches(atom, s, i, k) <==> SlashFree(s, i, k))
      {
        TreeMeansGlob(p[n..], s, k, j);
        StarSegments(s, i, k);
        StarDot(s, i, k);
        StarNotSlash(s, i, k);
      }
    }
  }

  lemma {:induction false} DottedMeansAnything(p: string, s: string, i: nat)
    requires i <= |s| && OneLine(s, 0, |s|)
    ensures CoversFrom(p, s, i, true) <==> CoversFrom(p, s, i, false)
    decreases |p|
  {
    if p != "" {
      var n := Head(p).1;
      forall k: nat | i <= k <= |s|
        ensures CoversFrom(p[n..], s, k, true) <==> CoversFrom(p[n..], s, k, false)
      {
        DottedMeansAnything(p[n..], s, k);
      }
    }
  }

  // ------------------------------------------------------------------------------------------
  // Exactly when the emitted text means the glob
  // ------------------------------------------------------------------------------------------

  /** With `^` in front, the search can only start at the beginning. */
  lemma Anchored(re: Re, s: string, goal: bool)
    requires forall j: nat | j <= |s| :: Matches(re, s, 0, j) <==> j == |s| && goal
    ensures Test(Cat(Begin, re), s) <==> goal
  {
    var whole := Cat(Begin, re);
    forall i: nat, j: nat | i <= j <= |s|
      ensures Matches(whole, s, i, j) <==> i == 0 && j == |s| && goal
    {
      forall k: nat | i <= k <= j
        ensures Matches(Begin, s, i, k) <==> i == k == 0
        ensures k == 0 ==> (Matches(re, s, k, j) <==> j == |s| && goal)
      {
      }
      if i == 0 {
        assert Matches(Begin, s, 0, 0) && (Matches(re, s, 0, j) <==> j == |s| && goal);
      }
    }
    assert Matches(whole, s, 0, |s|) <==> goal;
  }

  lemma FromStart(re: Re, s: string)
    requires Matches(re, s, 0, |s|)
    ensures Test(Cat(Begin, re), s)
  {
    assert Matches(Begin, s, 0, 0);
    assert Matches(Cat(Begin, re), s, 0, |s|);
  }

  lemma ReadAnchor(p: string)
    ensures var r := ParseAlternative(Emitted(p) + "$");
      (r.None? ==> Parse(Compiled(p)) == None) &&
      (r.Some? && r.value.1 == "" ==> Parse(Compiled(p)) == Some(Cat(Begin, r.value.0)))
  {
    assert Compiled(p)[1..] == Emitted(p) + "$";
    var text := Compiled(p);
    assert text[0] == '^';
    assert ParseTerm(text) == Some((Begin, Emitted(p) + "$"));
    var r := ParseAlternative(Emitted(p) + "$");
    assert ParseAlternative(text) == if r.None? then None else Some((Cat(Begin, r.value.0), r.value.1));
  }

  /** A `?`-free pattern compiles, and tests true on exactly the paths the glob covers;
      a bare `**` does not run past a line terminator. */
  lemma CompiledMatches(p: string)
    requires '?' !in p
    ensures var re := Parse(Compiled(p));
      re.Some? &&
      (forall path :: Test(re.value, path) <==> CoversFrom(p, path, 0, true)) &&
      (forall path :: OneLine(path, 0, |path|) ==> (Test(re.value, path) <==> Covers(p, path)))
  {
    ReadEmitted(p);
    ReadAnchor(p);
    var re := Cat(Begin, Tree(p));
    assert Parse(Compiled(p)) == Some(re);
    forall path
      ensures Test(re, path) <==> CoversFrom(p, path, 0, true)
      ensures OneLine(path, 0, |path|) ==> (CoversFrom(p, path, 0, true) <==> Covers(p, path))
    {
      forall j: nat | j <= |path|
        ensures Matches(Tree(p), path, 0, j) <==> j == |path| && CoversFrom(p, path, 0, true)
      {
        TreeMeansGlob(p, path, 0, j);
      }
      Anchored(Tree(p), path, CoversFrom(p, path, 0, true));
      if OneLine(path, 0, |path|) {
        DottedMeansAnything(p, path, 0);
      }
    }
  }

  /** The text compiles and agrees with the glob on every one-line path. */
  ghost predicate Faithful(p: string) {
    Parse(Compiled(p)).Some? &&
    forall path :: OneLine(path, 0, |path|) ==> (Test(Parse(Compiled(p)).value, path) <==> Covers(p, path))
  }

  /** A path with no `?` in it: every wildcard empty, every literal itself, every `?` dropped. */
  function Sparse(p: string): (path: string)
    ensures '?' !in path
    ensures forall m :: 0 <= m < |path| ==> path[m] in p
    decreases |p|
  {
    if p == "" then ""
    else if Head(p).1 > 1 || p[0] == '*' || p[0] == '?' then Sparse(p[Head(p).1..])
    else [p[0]] + Sparse(p[1..])
  }

  /** Up to `most` leading `?` dropped. */
  function SkipQuestions(p: string, most: nat): string {
    if most > 0 && p != "" && p[0] == '?' then SkipQuestions(p[1..], most - 1) else p
  }

  /** A `?` after an atom is read as its quantifier, and a second one as a lazy mark. */
  lemma ReadQuestions(p: string)
    requires p != "" && p[0] != '?'
    ensures var (head, n) := Head(p);
      var q := SkipQuestions(p[n..], if p[0] == '*' then 1 else 2);
      var r := ParseTerm(head + (Emitted(p[n..]) + "$"));
      r.Some? && r.value.1 == Emitted(q) + "$" && Sparse(q) == Sparse(p[n..]) && |q| < |p| &&
      if p[0] == '*' then r.value.0.Star? else r.value.0 in {Lit(p[0]), Opt(Lit(p[0]))}
  {
    hide Emitted, ParseTerm, ParseAtom, Escaped;
    var (head, n) := Head(p);
    var q := p[n..];
    ReadHead(p, Emitted(q) + "$");
    EmittedStart(q);
    if q != "" && q[0] == '?' {
      EmittedQuestion(q);
      var q' := q[1..];
      EmittedStart(q');
      if q' != "" && q'[0] == '?' {
        EmittedQuestion(q');
        assert SkipQuestions(q', 1) == SkipQuestions(q'[1..], 0) == q'[1..];
      } else {
        assert SkipQuestions(q', 1) == SkipQuestions(q', 0) == q';
      }
    }
  }

  lemma EmittedQuestion(q: string)
    requires q != "" && q[0] == '?'
    ensures (Emitted(q) + "$")[1..] == Emitted(q[1..]) + "$"
  {
    assert Emitted(q) == "?" + Emitted(q[1..]);
  }

  /** If the text compiles at all, it tests true on the sparse path. */
  lemma {:induction false} ReadSparse(p: string)
    ensures var r := ParseAlternative(Emitted(p) + "$");
      r.Some? ==> r.value.1 == "" && forall s, i: nat :: i <= |s| && s[i..] == Sparse(p) ==> Matches(r.value.0, s, i, |s|)
    decreases |p|
  {
    var text := Emitted(p) + "$";
    if p == "" {
      ReadEmitted(p);
      forall s: string, i: nat | i <= |s| && s[i..] == "" ensures Matches(Tree(p), s, i, |s|) {
        TreeMeansGlob(p, s, i, |s|);
      }
    } else if p[0] == '?' {
      EmittedStart(p);
      assert ParseAtom(text) == None;
    } else {
      ReadQuestions(p);
      var (head, n) := Head(p);
      EmittedSplit(p);
      hide Emitted, Escaped, ParseTerm, ParseAtom, Matches;
      var q := SkipQuestions(p[n..], if p[0] == '*' then 1 else 2);
      ReadSparse(q);
      var term := ParseTerm(text).value.0;
      var more := ParseAlternative(Emitted(q) + "$");
      SameStart(text);
      if more.Some? {
        forall s: string, i: nat | i <= |s| && s[i..] == Sparse(p) ensures Matches(Cat(term, more.value.0), s, i, |s|) {
          SparseHead(p, q, term, s, i);
        }
      }
    }
  }

  /** The head of the sparse path is matched by the head of the expression. */
  lemma SparseHead(p: string, q: string, term: Re, s: string, i: nat)
    requires p != "" && p[0] != '?' && i <= |s| && s[i..] == Sparse(p) && Sparse(q) == Sparse(p[Head(p).1..])
    requires if p[0] == '*' then term.Star? else term in {Lit(p[0]), Opt(Lit(p[0]))}
    ensures exists k: nat | i <= k <= |s| :: Matches(term, s, i, k) && s[k..] == Sparse(q)
  {
    if p[0] == '*' {
      assert Matches(term, s, i, i);
    } else {
      assert s[i] == s[i..][0] && s[i + 1..] == s[i..][1..];
      assert Matches(Lit(p[0]), s, i, i + 1);
      assert Matches(term, s, i, i + 1);
    }
  }

  lemma {:induction false} QuestionMeansItself(p: string, s: string, i: nat)
    requires '?' in p && i <= |s| && CoversFrom(p, s, i, false)
    ensures '?' in s
    decreases |p|
  {
    var n := Head(p).1;
    if '?' in p[n..] {
      var k: nat :| i <= k <= |s| && CoversFrom(p[n..], s, k, false);
      QuestionMeansItself(p[n..], s, k);
    }
  }

  /** The emitted expression means the glob on every one-line path exactly when the pattern holds no `?`. */
  lemma FaithfulExactly(p: string)
    requires OneLine(p, 0, |p|)
    ensures Faithful(p) <==> '?' !in p
  {
    if '?' !in p {
      CompiledMatches(p);
    } else if Parse(Compiled(p)).Some? {
      var path := Sparse(p);
      ReadSparse(p);
      ReadAnchor(p);
      var re := Parse(Compiled(p)).value;
      assert path[0..] == path;
      FromStart(re.rest, path);
      if Covers(p, path) {
        QuestionMeansItself(p, path, 0);
      }
      assert OneLine(path, 0, |path|);
      assert Test(re, path) && !Covers(p, path);
    }
  }
}
