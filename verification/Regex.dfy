/** The regular expressions the glob compiler emits: their syntax tree, what they match, and a
    parser from the text handed to `new RegExp`. */
module Regex {
  import opened Options

  datatype Re =
    | Empty
    | Begin                                       // ^ without the m flag
    | End                                         // $ without the m flag
    | Lit(c: char)
    | Dot
    | Class(negated: bool, members: seq<char>)
    | Cat(first: Re, rest: Re)
    | Alt(left: Re, right: Re)
    | Star(body: Re)
    | Opt(body: Re)

  /** The four characters `.` does not match when the s flag is absent. */
  predicate LineTerminator(c: char) {
    c == '\n' || c == '\r' || c == '\U{2028}' || c == '\U{2029}'
  }

  /** `re` matches the stretch of `s` from `i` up to `j`. */
  predicate Matches(re: Re, s: string, i: nat, j: nat)
    requires i <= j <= |s|
    decreases re, j - i
  {
    match re
    case Empty => i == j
    case Begin => i == j == 0
    case End => i == j == |s|
    case Lit(c) => j == i + 1 && s[i] == c
    case Dot => j == i + 1 && !LineTerminator(s[i])
    case Class(negated, members) => j == i + 1 && (s[i] in members) != negated
    case Cat(first, rest) => exists k: nat | i <= k <= j :: Matches(first, s, i, k) && Matches(rest, s, k, j)
    case Alt(left, right) => Matches(left, s, i, j) || Matches(right, s, i, j)
    case Star(body) => i == j || exists k: nat | i < k <= j :: Matches(body, s, i, k) && Matches(re, s, k, j)
    case Opt(body) => i == j || Matches(body, s, i, j)
  }

  /** `RegExp.prototype.test`: some stretch of `s` matches. */
  predicate Test(re: Re, s: string) {
    exists i: nat, j: nat | i <= j <= |s| :: Matches(re, s, i, j)
  }

  predicate IsSyntaxCharacter(c: char) { c in "^$\\.*+?()[]{}|" }

  /** Text to tree, or `None` where the engine throws a SyntaxError (or the text leaves this subset). */
  function Parse(text: string): (r: Option<Re>) {
    match ParseDisjunction(text)
    case Some((re, rest)) => if rest == "" then Some(re) else None
    case None => None
  }

  function ParseDisjunction(s: string): (r: Option<(Re, string)>)
    ensures r.Some? ==> |r.value.1| <= |s|
    decreases |s|, 3
  {
    match ParseAlternative(s)
    case None => None
    case Some((left, rest)) =>
      if rest != "" && rest[0] == '|' then
        match ParseDisjunction(rest[1..])
        case None => None
        case Some((right, rest')) => Some((Alt(left, right), rest'))
      else Some((left, rest))
  }

  function ParseAlternative(s: string): (r: Option<(Re, string)>)
    ensures r.Some? ==> |r.value.1| <= |s|
    decreases |s|, 2
  {
    if s == "" || s[0] == '|' || s[0] == ')' then Some((Empty, s))
    else match ParseTerm(s)
      case None => None
      case Some((term, rest)) =>
        match ParseAlternative(rest)
        case None => None
        case Some((more, rest')) => Some((Cat(term, more), rest'))
  }

  /** One assertion, or one atom with its quantifier; an assertion takes no quantifier. */
  function ParseTerm(s: string): (r: Option<(Re, string)>)
    requires s != ""
    ensures r.Some? ==> |r.value.1| < |s|
    decreases |s|, 1
  {
    if s[0] == '^' then Some((Begin, s[1..]))
    else if s[0] == '$' then Some((End, s[1..]))
    else match ParseAtom(s)
      case None => None
      case Some((atom, rest)) => Some(ParseQuantifier(atom, rest))
  }

  function ParseAtom(s: string): (r: Option<(Re, string)>)
    requires s != ""
    ensures r.Some? ==> |r.value.1| < |s|
    decreases |s|, 0
  {
    if s[0] == '(' then
      if |s| >= 3 && s[1] == '?' && s[2] == ':' then
        match ParseDisjunction(s[3..])
        case None => None
        case Some((body, rest)) =>
          if rest != "" && rest[0] == ')' then Some((body, rest[1..])) else None
      else None
    else if s[0] == '[' then
      if |s| >= 2 && s[1] == '^' then ParseClass(s[2..], true, []) else ParseClass(s[1..], false, [])
    else if s[0] == '.' then Some((Dot, s[1..]))
    else if s[0] == '\\' then
      if |s| >= 2 && IsSyntaxCharacter(s[1]) then Some((Lit(s[1]), s[2..])) else None
    else if IsSyntaxCharacter(s[0]) then None
    else Some((Lit(s[0]), s[1..]))
  }

  /** The inside of a class, without ranges or escapes. */
  function ParseClass(s: string, negated: bool, members: seq<char>): (r: Option<(Re, string)>)
    ensures r.Some? ==> |r.value.1| < |s|
    decreases |s|
  {
    if s == "" || s[0] == '\\' || s[0] == '-' then None
    else if s[0] == ']' then Some((Class(negated, members), s[1..]))
    else ParseClass(s[1..], negated, members + [s[0]])
  }

  /** `*`, `+` or `?`, each possibly lazy; laziness does not change the language, and `x+` is `xx*`. */
  function ParseQuantifier(atom: Re, s: string): (r: (Re, string))
    ensures |r.1| <= |s|
  {
    if s == "" then (atom, s)
    else if s[0] == '*' then (Star(atom), SkipLazy(s[1..]))
    else if s[0] == '+' then (Cat(atom, Star(atom)), SkipLazy(s[1..]))
    else if s[0] == '?' then (Opt(atom), SkipLazy(s[1..]))
    else (atom, s)
  }

  function SkipLazy(s: string): (r: string)
    ensures |r| <= |s|
  {
    if s != "" && s[0] == '?' then s[1..] else s
  }
}
