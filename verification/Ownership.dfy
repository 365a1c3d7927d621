/** The verdict loop of the ownership check. */
module Ownership {
  import opened Glob
  import opened Options
  import opened Regex

  datatype Reason = Reserved | Forbidden | Outside

  datatype Rules = Rules(reserved: seq<string>, owned: seq<string>, forbidden: seq<string>) {
    function All(): seq<string> { reserved + owned + forbidden }
  }

  ghost predicate Compiles(patterns: seq<string>) { forall p :: p in patterns ==> Parse(Compiled(p)).Some? }

  /** Some pattern's expression tests true. */
  ghost predicate Hit(patterns: seq<string>, file: string) {
    exists p :: p in patterns && Parse(Compiled(p)).Some? && Test(Parse(Compiled(p)).value, file)
  }

  /** Each pattern's expression, in order. */
  ghost predicate Each(patterns: seq<string>, regexps: seq<Re>) {
    |regexps| == |patterns| && forall i :: 0 <= i < |patterns| ==> Parse(Compiled(patterns[i])) == Some(regexps[i])
  }

  /** `patterns.map(toRegExp)`; `None` where the constructor of an expression throws. */
  method Compile(patterns: seq<string>) returns (regexps: Option<seq<Re>>)
    ensures regexps.Some? <==> Compiles(patterns)
    ensures regexps.Some? ==> Each(patterns, regexps.value)
  {
    var done: seq<Re> := [];
    for n := 0 to |patterns|
      invariant |done| == n && forall i :: 0 <= i < n ==> Parse(Compiled(patterns[i])) == Some(done[i])
    {
      var text := ToRegExp(patterns[n]);
      var re := Parse(text);
      if re.None? {
        assert patterns[n] in patterns;
        return None;
      }
      done := done + [re.value];
    }
    regexps := Some(done);
  }

  /** `regexps.some((re) => re.test(file))` */
  predicate AnyTests(regexps: seq<Re>, file: string) {
    exists i :: 0 <= i < |regexps| && Test(regexps[i], file)
  }

  lemma TestsHit(patterns: seq<string>, regexps: seq<Re>, file: string)
    requires Each(patterns, regexps)
    ensures AnyTests(regexps, file) <==> Hit(patterns, file)
  {
    hide Test, Parse, Compiled;
    if Hit(patterns, file) {
      var p :| p in patterns && Parse(Compiled(p)).Some? && Test(Parse(Compiled(p)).value, file);
      var i :| 0 <= i < |patterns| && patterns[i] == p;
      assert Test(regexps[i], file);
    }
    if AnyTests(regexps, file) {
      var i :| 0 <= i < |regexps| && Test(regexps[i], file);
      assert patterns[i] in patterns;
    }
  }

  /** Reserved beats owned, owned beats forbidden; what nobody mentions is outside. */
  ghost function Verdict(rules: Rules, file: string): Option<Reason> {
    if Hit(rules.reserved, file) then Some(Reserved)
    else if Hit(rules.owned, file) then None
    else if Hit(rules.forbidden, file) then Some(Forbidden)
    else Some(Outside)
  }

  /** The files with a verdict, in the order given. */
  ghost function Report(rules: Rules, files: seq<string>): seq<(string, Reason)> {
    if files == [] then []
    else
      var file := files[|files| - 1];
      Report(rules, files[..|files| - 1]) +
      match Verdict(rules, file)
      case Some(reason) => [(file, reason)]
      case None => []
  }

  /** The verdict on every changed file; `None` where a pattern does not compile, before any file is looked at. */
  method Check(rules: Rules, files: seq<string>) returns (violations: Option<seq<(string, Reason)>>)
    ensures violations.Some? <==> Compiles(rules.All())
    ensures violations.Some? ==> violations.value == Report(rules, files)
  {
    hide Hit, Test, AnyTests, Compiles, Each;
    SplitCompiles(rules);
    var forbidden := Compile(rules.forbidden);
    if forbidden.None? { return None; }
    var owned := Compile(rules.owned);
    if owned.None? { return None; }
    var reserved := Compile(rules.reserved);
    if reserved.None? { return None; }
    var found: seq<(string, Reason)> := [];
    for n := 0 to |files|
      invariant found == Report(rules, files[..n])
    {
      var file := files[n];
      TestsHit(rules.reserved, reserved.value, file);
      TestsHit(rules.owned, owned.value, file);
      TestsHit(rules.forbidden, forbidden.value, file);
      assert files[..n + 1][..n] == files[..n];
      if AnyTests(reserved.value, file) {
        found := found + [(file, Reserved)];
      } else if AnyTests(owned.value, file) {
        continue;
      } else if AnyTests(forbidden.value, file) {
        found := found + [(file, Forbidden)];
      } else {
        found := found + [(file, Outside)];
      }
    }
    assert files[..|files|] == files;
    violations := Some(found);
  }

  lemma SplitCompiles(rules: Rules)
    ensures Compiles(rules.All()) <==> Compiles(rules.reserved) && Compiles(rules.owned) && Compiles(rules.forbidden)
  {
    hide Parse, Compiled;
    if Compiles(rules.All()) {
      forall p | p in rules.reserved || p in rules.owned || p in rules.forbidden ensures Parse(Compiled(p)).Some? {
        assert p in rules.All();
      }
    }
  }

  ghost predicate CoveredBy(patterns: seq<string>, file: string) {
    exists p :: p in patterns && Covers(p, file)
  }

  /** Patterns without `?`, as all those in the tables are, compile, and hit the one-line paths their globs cover. */
  lemma HitsAreGlobs(patterns: seq<string>, file: string)
    requires forall p :: p in patterns ==> '?' !in p
    requires OneLine(file, 0, |file|)
    ensures Compiles(patterns) && (Hit(patterns, file) <==> CoveredBy(patterns, file))
  {
    forall p | p in patterns
      ensures Parse(Compiled(p)).Some? && (Test(Parse(Compiled(p)).value, file) <==> Covers(p, file))
    {
      CompiledMatches(p);
    }
  }

  /** A file's verdict in terms of the globs: reserved before owned before forbidden. */
  lemma VerdictByGlobs(rules: Rules, file: string)
    requires (forall p :: p in rules.All() ==> '?' !in p) && OneLine(file, 0, |file|)
    ensures Verdict(rules, file) ==
      if CoveredBy(rules.reserved, file) then Some(Reserved)
      else if CoveredBy(rules.owned, file) then None
      else if CoveredBy(rules.forbidden, file) then Some(Forbidden)
      else Some(Outside)
  {
    hide Hit, Covers, Parse, Compiled, OneLine;
    HitsAreGlobs(rules.reserved, file);
    HitsAreGlobs(rules.owned, file);
    HitsAreGlobs(rules.forbidden, file);
  }

  /** What is listed: every file with a verdict, with that verdict, in the order given. */
  lemma {:induction false} ListsExactly(rules: Rules, files: seq<string>, file: string, reason: Reason)
    ensures (file, reason) in Report(rules, files) <==> file in files && Verdict(rules, file) == Some(reason)
    ensures |Report(rules, files)| <= |files|
    ensures (forall f :: f in files ==> Verdict(rules, f).Some?) ==>
      |Report(rules, files)| == |files| && forall i :: 0 <= i < |files| ==> Report(rules, files)[i] == (files[i], Verdict(rules, files[i]).value)
  {
    hide Verdict;
    if files != [] {
      var n := |files| - 1;
      ListsExactly(rules, files[..n], file, reason);
      assert files == files[..n] + [files[n]];
    }
  }

  /** Files are looked at one by one: a longer list only adds the rest's violations after the first ones. */
  lemma {:induction false} ListedInOrder(rules: Rules, files: seq<string>, more: seq<string>)
    ensures Report(rules, files + more) == Report(rules, files) + Report(rules, more)
  {
    hide Verdict;
    if more == [] {
      assert files + more == files;
    } else {
      var n := |more| - 1;
      ListedInOrder(rules, files, more[..n]);
      assert (files + more)[..|files + more| - 1] == files + more[..n];
    }
  }

  /** A file is listed as reserved exactly when a reserved glob covers it, as forbidden when a forbidden glob does and no
      reserved or owned one, and as outside when no glob of any list covers it. */
  lemma ListedByGlobs(rules: Rules, files: seq<string>, file: string)
    requires (forall p :: p in rules.All() ==> '?' !in p) && OneLine(file, 0, |file|) && file in files
    ensures (file, Reserved) in Report(rules, files) <==> CoveredBy(rules.reserved, file)
    ensures (file, Forbidden) in Report(rules, files) <==>
      CoveredBy(rules.forbidden, file) && !CoveredBy(rules.reserved, file) && !CoveredBy(rules.owned, file)
    ensures (file, Outside) in Report(rules, files) <==> !CoveredBy(rules.All(), file)
  {
    hide Hit, Covers, Report;
    VerdictByGlobs(rules, file);
    ListsExactly(rules, files, file, Reserved);
    ListsExactly(rules, files, file, Forbidden);
    ListsExactly(rules, files, file, Outside);
    AllCover(rules, file);
    hide CoveredBy, Verdict;
  }

  lemma AllCover(rules: Rules, file: string)
    ensures CoveredBy(rules.All(), file) <==>
      CoveredBy(rules.reserved, file) || CoveredBy(rules.owned, file) || CoveredBy(rules.forbidden, file)
  {
    hide Covers;
    var all := rules.All();
    forall p | p in rules.reserved || p in rules.owned || p in rules.forbidden ensures p in all {
    }
  }

  /** The check is clean exactly when every changed file is covered by an owned glob and by no reserved one. */
  lemma {:induction false} CleanExactly(rules: Rules, files: seq<string>)
    requires forall p :: p in rules.All() ==> '?' !in p
    requires forall f :: f in files ==> OneLine(f, 0, |f|)
    ensures Compiles(rules.All())
    ensures Report(rules, files) == [] <==>
      forall f :: f in files ==> CoveredBy(rules.owned, f) && !CoveredBy(rules.reserved, f)
  {
    hide Hit, Covers, Parse, Compiled, OneLine;
    HitsAreGlobs(rules.All(), "") by { NoLines(); }
    if files != [] {
      var n := |files| - 1;
      CleanExactly(rules, files[..n]);
      assert files == files[..n] + [files[n]];
      HitsAreGlobs(rules.reserved, files[n]);
      HitsAreGlobs(rules.owned, files[n]);
    }
  }

  lemma NoLines()
    ensures OneLine("", 0, 0)
  {
  }
}
