/**
 * The config.log enforcer: it scans each `config.log` under the build
 * directory for "found" records naming a tool under some `bin/`, drops the
 * paths the exceptions name, suppresses greylisted paths unless a sibling
 * file corroborates them, and finally reports the installed troves owning
 * the surviving paths that are neither declared build requirements nor in
 * their run-time closure.
 */
module ConfigLog {
  import opened Wrappers
  import opened Text
  import opened Conary

  // ---------------------------------------------------------------------
  // The found-line expression `^[^ ]+: found (/([^ ]+)?bin/[^ ]+)\n$`

  /** Index of the first space of `s`, or `|s|` when there is none. */
  function FirstSpace(s: string): (k: nat)
    ensures k <= |s| && ' ' !in s[..k] && (k == |s| || s[k] == ' ')
  {
    if s == [] || s[0] == ' ' then 0
    else
      var k := 1 + FirstSpace(s[1..]);
      assert s[..k] == [s[0]] + s[1..][..k - 1];
      k
  }

  lemma FirstSpaceAt(s: string, j: nat)
    requires j < |s| && ' ' !in s[..j] && s[j] == ' '
    ensures FirstSpace(s) == j
  {
  }

  /** `bin/` starts at index `k >= 1` of `g` and at least one character follows it. */
  predicate BinAt(g: string, k: int) {
    1 <= k && k + 4 < |g| && g[k..k + 4] == "bin/"
  }

  /** Group 1 of the expression: `/`, an optional run of non-spaces, `bin/`, a non-empty run of non-spaces. */
  predicate PathShape(g: string) {
    |g| > 0 && g[0] == '/' && ' ' !in g && exists k :: 1 <= k < |g| && BinAt(g, k)
  }

  /** `line` is a non-empty run of non-spaces `p`, then ": found ", then the group `g`, then a newline. */
  ghost predicate FoundSplit(line: string, p: string, g: string) {
    |p| > 0 && ' ' !in p && PathShape(g) && line == p + ": found " + g + "\n"
  }

  /**
   * foundPath(), lines 468-472: the group of the found-line expression, or
   * nothing. Since `[^ ]+` cannot cross a space, the first space of the line
   * is the one after the colon; the group then runs to the final newline.
   */
  function FoundPath(line: string): Option<string> {
    var k := FirstSpace(line);
    if 2 <= k && line[k - 1] == ':' && k + 8 <= |line| && line[k..k + 7] == " found "
       && line[|line| - 1] == '\n' && PathShape(line[k + 7..|line| - 1])
    then Some(line[k + 7..|line| - 1])
    else None
  }

  /** Whatever the matcher returns splits the line as the expression demands. */
  lemma FoundPathSound(line: string)
    requires FoundPath(line).Some?
    ensures exists p :: FoundSplit(line, p, FoundPath(line).value)
  {
    var k := FirstSpace(line);
    var g := line[k + 7..|line| - 1];
    var p := line[..k - 1];
    assert p == line[..k][..k - 1];
    assert line[k - 1..k + 7] == [line[k - 1]] + line[k..k + 7];
    assert line[k - 1..k + 7] == ": found ";
    assert line == line[..k - 1] + line[k - 1..k + 7] + line[k + 7..|line| - 1] + [line[|line| - 1]];
    assert FoundSplit(line, p, g);
  }

  /** Every line that splits as the expression demands yields its group. */
  lemma FoundPathComplete(line: string, p: string, g: string)
    requires FoundSplit(line, p, g)
    ensures FoundPath(line) == Some(g)
  {
    var j := |p| + 1;
    assert line[..j] == p + [':'];
    assert line[j] == ' ';
    FirstSpaceAt(line, j);
    assert line[j..j + 7] == " found ";
    assert line[j + 7..|line| - 1] == g;
  }

  /** The matcher returns `g` exactly when the line splits as the expression demands with `g` as group 1. */
  lemma FoundPathSpec(line: string, g: string)
    ensures FoundPath(line) == Some(g) <==> exists p :: FoundSplit(line, p, g)
  {
    if FoundPath(line) == Some(g) {
      FoundPathSound(line);
    }
    if exists p :: FoundSplit(line, p, g) {
      var p :| FoundSplit(line, p, g);
      FoundPathComplete(line, p, g);
    }
  }

  /** A typical configure record, `configure:2301: found /usr/bin/bison`, yields the tool path. */
  lemma FoundPathExample(location: string)
    requires |location| > 0 && ' ' !in location
    ensures FoundPath(location + ": found /usr/bin/bison\n") == Some("/usr/bin/bison")
  {
    var g := "/usr/bin/bison";
    assert location + ": found /usr/bin/bison\n" == location + ": found " + g + "\n";
    assert BinAt(g, 5);
    FoundPathComplete(location + ": found " + g + "\n", location, g);
  }

  /** doFile(), lines 478-480: the found paths of a log's lines, less the path exceptions. */
  function LogPaths(lines: seq<string>, pathExceptions: set<string>): set<string> {
    set i | 0 <= i < |lines| && FoundPath(lines[i]).Some? && FoundPath(lines[i]).value !in pathExceptions
          :: FoundPath(lines[i]).value
  }

  /** A path is collected exactly when some line is a found record for it and it is not excepted. */
  lemma LogPathsSpec(lines: seq<string>, pathExceptions: set<string>, g: string)
    ensures g in LogPaths(lines, pathExceptions) <==>
      g !in pathExceptions && exists i, p :: 0 <= i < |lines| && FoundSplit(lines[i], p, g)
  {
    if g in LogPaths(lines, pathExceptions) {
      var i :| 0 <= i < |lines| && FoundPath(lines[i]) == Some(g);
      FoundPathSpec(lines[i], g);
    }
    if g !in pathExceptions && exists i, p :: 0 <= i < |lines| && FoundSplit(lines[i], p, g) {
      var i, p :| 0 <= i < |lines| && FoundSplit(lines[i], p, g);
      FoundPathSpec(lines[i], g);
    }
  }

  // ---------------------------------------------------------------------
  // Exceptions

  /**
   * preProcess(), lines 455-463: an exception containing '/' names a found
   * path, any other names a component.
   */
  method SplitExceptions(exceptions: seq<string>) returns (paths: set<string>, comps: set<string>)
    ensures forall e :: e in paths <==> e in exceptions && '/' in e
    ensures forall e :: e in comps <==> e in exceptions && '/' !in e
  {
    paths, comps := {}, {};
    for i := 0 to |exceptions|
      invariant forall e :: e in paths <==> e in exceptions[..i] && '/' in e
      invariant forall e :: e in comps <==> e in exceptions[..i] && '/' !in e
    {
      assert exceptions[..i + 1] == exceptions[..i] + [exceptions[i]];
      var exception := exceptions[i];
      if '/' in exception {
        paths := paths + {exception};
      } else {
        comps := comps + {exception};
      }
    }
    assert exceptions[..|exceptions|] == exceptions;
  }

  // ---------------------------------------------------------------------
  // The greylist

  /** A sibling file name and a pattern one of its lines must match. */
  datatype Corroborator = Corroborator(file: string, pattern: string)

  /** A suspect found path and the evidence that lifts its suppression; none means always suppressed. */
  datatype GreyEntry = GreyEntry(suspect: string, corroborators: seq<Corroborator>)

  /** The greylist the policy ships, lines 431-440, with the prefix and bindir macros supplied. */
  function DefaultGreylist(prefix: string, bindir: string): seq<GreyEntry> {
    [ GreyEntry(prefix + "/X11R6/bin/makedepend", []),
      GreyEntry(bindir + "/g77",
        [Corroborator("configure.ac", "\\s*AC_PROG_F77"),
         Corroborator("configure.in", "\\s*AC_PROG_F77")]),
      GreyEntry(bindir + "/bison",
        [Corroborator("configure.ac", "\\s*AC_PROC_YACC"),
         Corroborator("configure.in", "\\s*(AC_PROG_YACC|YACC=)")]) ]
  }

  /**
   * The greylist dictionary: each suspect maps to the corroborators its
   * generator has yet to yield. A later entry for the same suspect replaces
   * an earlier one.
   */
  function GreyDictOf(greylist: seq<GreyEntry>): map<string, seq<Corroborator>> {
    if greylist == [] then map[]
    else
      var last := greylist[|greylist| - 1];
      GreyDictOf(greylist[..|greylist| - 1])[last.suspect := last.corroborators]
  }

  /** The dictionary holds the suspects of the list, each with the corroborators of its last entry. */
  lemma {:induction false} GreyDictOfSpec(greylist: seq<GreyEntry>, key: string)
    ensures key in GreyDictOf(greylist) <==> exists i :: 0 <= i < |greylist| && greylist[i].suspect == key
    ensures key in GreyDictOf(greylist) ==>
      exists i :: 0 <= i < |greylist| && greylist[i].suspect == key &&
        GreyDictOf(greylist)[key] == greylist[i].corroborators &&
        forall j :: i < j < |greylist| ==> greylist[j].suspect != key
  {
    if greylist != [] {
      var n := |greylist| - 1;
      var init := greylist[..n];
      GreyDictOfSpec(init, key);
      assert forall i :: 0 <= i < n ==> init[i] == greylist[i];
      if greylist[n].suspect != key && key in GreyDictOf(greylist) {
        var i :| 0 <= i < n && init[i].suspect == key &&
          GreyDictOf(init)[key] == init[i].corroborators &&
          forall j :: i < j < n ==> init[j].suspect != key;
        assert forall j :: i < j < |greylist| ==> greylist[j].suspect != key;
      }
    }
  }

  /** preProcess(), lines 448-452: turn the greylist into its dictionary. */
  method BuildGreyDict(greylist: seq<GreyEntry>) returns (greydict: map<string, seq<Corroborator>>)
    ensures greydict == GreyDictOf(greylist)
  {
    greydict := map[];
    for i := 0 to |greylist|
      invariant greydict == GreyDictOf(greylist[..i])
    {
      assert greylist[..i + 1][..i] == greylist[..i];
      greydict := greydict[greylist[i].suspect := greylist[i].corroborators];
    }
    assert greylist[..|greylist|] == greylist;
  }

  /** The shipped greylist has three distinct suspects, each with its own evidence. */
  lemma DefaultGreyDict(prefix: string, bindir: string)
    ensures var gd := GreyDictOf(DefaultGreylist(prefix, bindir));
      gd.Keys == {prefix + "/X11R6/bin/makedepend", bindir + "/g77", bindir + "/bison"} &&
      gd[prefix + "/X11R6/bin/makedepend"] == [] &&
      gd[bindir + "/g77"] == DefaultGreylist(prefix, bindir)[1].corroborators &&
      gd[bindir + "/bison"] == DefaultGreylist(prefix, bindir)[2].corroborators
  {
    var gl := DefaultGreylist(prefix, bindir);
    var m, g, b := prefix + "/X11R6/bin/makedepend", bindir + "/g77", bindir + "/bison";
    assert m[|m| - 1] == 'd' && g[|g| - 1] == '7' && b[|b| - 1] == 'n';
    assert m != g && m != b && g != b;
    assert gl[..2][..1][..0] == [];
    assert GreyDictOf(gl[..2][..1]) == map[m := []];
    assert GreyDictOf(gl[..2]) == map[m := [], g := gl[1].corroborators];
  }

  // ---------------------------------------------------------------------
  // Corroboration

  /** doFile(), line 488: the sibling named by replacing every "config.log" in the log's path. */
  function SiblingPath(fullpath: string, file: string): string {
    Replace(fullpath, "config.log", file)
  }

  /** Some line of `lines` matches `pattern` at its start. */
  predicate AnyLineMatches(pattern: string, lines: seq<string>, reMatch: (string, string) -> bool) {
    exists k :: 0 <= k < |lines| && reMatch(pattern, lines[k])
  }

  /** The sibling file exists and one of its lines matches the corroborator's pattern. */
  predicate Corroborates(c: Corroborator, fullpath: string, fs: map<string, seq<string>>,
                         reMatch: (string, string) -> bool)
  {
    var other := SiblingPath(fullpath, c.file);
    other in fs && AnyLineMatches(c.pattern, fs[other], reMatch)
  }

  predicate Corroborated(cs: seq<Corroborator>, fullpath: string, fs: map<string, seq<string>>,
                         reMatch: (string, string) -> bool)
  {
    exists i :: 0 <= i < |cs| && Corroborates(cs[i], fullpath, fs, reMatch)
  }

  /**
   * doFile(), lines 486-492: walk the corroborators; once one matched, later
   * siblings are not opened.
   */
  method Corroborate(cs: seq<Corroborator>, fullpath: string, fs: map<string, seq<string>>,
                     reMatch: (string, string) -> bool) returns (foundMatch: bool)
    ensures foundMatch <==> Corroborated(cs, fullpath, fs, reMatch)
  {
    foundMatch := false;
    for i := 0 to |cs|
      invariant foundMatch <==> exists j :: 0 <= j < i && Corroborates(cs[j], fullpath, fs, reMatch)
    {
      var other := SiblingPath(fullpath, cs[i].file);
      if !foundMatch && other in fs {
        if AnyLineMatches(cs[i].pattern, fs[other], reMatch) {
          foundMatch := true;
        }
      }
    }
  }

  /** The found paths that survive: not greylisted, or greylisted and corroborated by what remains of the entry. */
  function KeptPaths(found: set<string>, greydict: map<string, seq<Corroborator>>, fullpath: string,
                     fs: map<string, seq<string>>, reMatch: (string, string) -> bool): set<string>
  {
    set g | g in found && (g !in greydict || Corroborated(greydict[g], fullpath, fs, reMatch))
  }

  /** The dictionary once the entries of `found` were iterated: their generators are exhausted. */
  function Exhaust(greydict: map<string, seq<Corroborator>>, found: set<string>): map<string, seq<Corroborator>> {
    map k | k in greydict :: if k in found then [] else greydict[k]
  }

  /** doFile(), lines 484-496: remove each greylisted found path that lacks corroboration. */
  method FilterGreylist(found: set<string>, greydict: map<string, seq<Corroborator>>, fullpath: string,
                        fs: map<string, seq<string>>, reMatch: (string, string) -> bool)
    returns (kept: set<string>, greydict': map<string, seq<Corroborator>>)
    ensures kept == KeptPaths(found, greydict, fullpath, fs, reMatch)
    ensures greydict' == Exhaust(greydict, found)
  {
    kept, greydict' := found, greydict;
    var todo := found;
    while todo != {}
      invariant todo <= found
      invariant forall g :: g in kept <==>
        (g in found && (g in todo || g !in greydict || Corroborated(greydict[g], fullpath, fs, reMatch)))
      invariant greydict'.Keys == greydict.Keys
      invariant forall k :: k in greydict ==>
        greydict'[k] == if k in found && k !in todo then [] else greydict[k]
      decreases todo
    {
      var g :| g in todo;
      if g in greydict' {
        var foundMatch := Corroborate(greydict'[g], fullpath, fs, reMatch);
        greydict' := greydict'[g := []];
        if !foundMatch {
          kept := kept - {g};
        }
      }
      todo := todo - {g};
    }
  }

  /**
   * The greylist contract: a path outside the greylist is kept; an entry
   * with no corroborators (left) always suppresses; otherwise the path is
   * kept exactly when some corroborator's sibling exists and has a matching line.
   */
  lemma GreylistContract(found: set<string>, greydict: map<string, seq<Corroborator>>, fullpath: string,
                         fs: map<string, seq<string>>, reMatch: (string, string) -> bool, g: string)
    requires g in found
    ensures g !in greydict ==> g in KeptPaths(found, greydict, fullpath, fs, reMatch)
    ensures g in greydict && greydict[g] == [] ==> g !in KeptPaths(found, greydict, fullpath, fs, reMatch)
    ensures g in greydict ==> (g in KeptPaths(found, greydict, fullpath, fs, reMatch) <==>
      exists i :: 0 <= i < |greydict[g]| && SiblingPath(fullpath, greydict[g][i].file) in fs &&
        exists k :: 0 <= k < |fs[SiblingPath(fullpath, greydict[g][i].file)]| &&
          reMatch(greydict[g][i].pattern, fs[SiblingPath(fullpath, greydict[g][i].file)][k]))
  {
  }

  /**
   * The greylist generators are one-shot: once a log has consulted an entry,
   * the same path found in any later log is suppressed, whatever its siblings hold.
   */
  lemma ConsultedEntrySuppressesLater(greydict: map<string, seq<Corroborator>>, found1: set<string>,
                                      found2: set<string>, fullpath: string, fs: map<string, seq<string>>,
                                      reMatch: (string, string) -> bool, g: string)
    requires g in greydict && g in found1
    ensures g !in KeptPaths(found2, Exhaust(greydict, found1), fullpath, fs, reMatch)
  {
  }

  /** Filtering only ever removes paths, and never touches paths outside the greylist. */
  lemma KeptPathsBounds(found: set<string>, greydict: map<string, seq<Corroborator>>, fullpath: string,
                        fs: map<string, seq<string>>, reMatch: (string, string) -> bool)
    ensures found - greydict.Keys <= KeptPaths(found, greydict, fullpath, fs, reMatch) <= found
  {
  }

  // Scenarios: a log at `dir`config.log, with the shipped greylist.

  /**
   * When "config.log" occurs in the log's path only as its final component, the
   * sibling of `config.log` is the file beside it.
   */
  lemma SiblingBeside(dir: string, file: string)
    requires OnlyAtEnd(dir, "config.log")
    ensures SiblingPath(dir + "config.log", file) == dir + file
  {
    ReplaceSuffix(dir, "config.log", file);
  }

  /** bison found, and neither configure.ac nor configure.in beside the log: suppressed. */
  lemma ScenarioBisonUncorroborated(prefix: string, bindir: string, dir: string, log: seq<string>,
                                    reMatch: (string, string) -> bool)
    requires OnlyAtEnd(dir, "config.log")
    ensures KeptPaths({bindir + "/bison"}, GreyDictOf(DefaultGreylist(prefix, bindir)),
                      dir + "config.log", map[dir + "config.log" := log], reMatch) == {}
  {
    var gd := GreyDictOf(DefaultGreylist(prefix, bindir));
    var bison := bindir + "/bison";
    var fs := map[dir + "config.log" := log];
    DefaultGreyDict(prefix, bindir);
    SiblingBeside(dir, "configure.ac");
    SiblingBeside(dir, "configure.in");
    assert (dir + "configure.ac")[|dir| + 6] != (dir + "config.log")[|dir| + 6];
    assert (dir + "configure.in")[|dir| + 6] != (dir + "config.log")[|dir| + 6];
    assert !Corroborates(gd[bison][0], dir + "config.log", fs, reMatch);
    assert !Corroborates(gd[bison][1], dir + "config.log", fs, reMatch);
    assert !Corroborated(gd[bison], dir + "config.log", fs, reMatch);
  }

  /** bison found, and configure.ac beside the log has a line the AC_PROC_YACC pattern matches: kept. */
  lemma ScenarioBisonCorroborated(prefix: string, bindir: string, dir: string, log: seq<string>,
                                  line: string, reMatch: (string, string) -> bool)
    requires OnlyAtEnd(dir, "config.log") && reMatch("\\s*AC_PROC_YACC", line)
    ensures KeptPaths({bindir + "/bison"}, GreyDictOf(DefaultGreylist(prefix, bindir)), dir + "config.log",
                      map[dir + "config.log" := log, dir + "configure.ac" := [line]], reMatch)
            == {bindir + "/bison"}
  {
    var gd := GreyDictOf(DefaultGreylist(prefix, bindir));
    var bison := bindir + "/bison";
    var fs := map[dir + "config.log" := log, dir + "configure.ac" := [line]];
    DefaultGreyDict(prefix, bindir);
    SiblingBeside(dir, "configure.ac");
    assert gd[bison][0] == Corroborator("configure.ac", "\\s*AC_PROC_YACC");
    assert fs[dir + "configure.ac"][0] == line;
    assert Corroborates(gd[bison][0], dir + "config.log", fs, reMatch);
  }

  // ---------------------------------------------------------------------
  // postProcess: resolve survivors to owning troves and compare with the closure

  /** postProcess(), lines 505-507: a declared spec the recipe could not resolve raises KeyError. */
  datatype PostError = UnresolvedSpec(spec: string)

  /** The per-path suggestions (only non-empty ones are warned about) and the coalesced suggestion. */
  datatype ConfigLogReport = ConfigLogReport(perPath: map<string, set<string>>, missing: set<string>)

  /** The first declared spec missing from the resolution map, if any. */
  function FirstUnresolved(specs: seq<string>, buildReqMap: map<string, Trove>): (r: Option<string>)
    ensures r.None? <==> forall i :: 0 <= i < |specs| ==> specs[i] in buildReqMap
    ensures r.Some? ==> exists i :: 0 <= i < |specs| && specs[i] == r.value && r.value !in buildReqMap &&
                                    forall j :: 0 <= j < i ==> specs[j] in buildReqMap
  {
    if specs == [] then None
    else if specs[0] !in buildReqMap then Some(specs[0])
    else
      var r := FirstUnresolved(specs[1..], buildReqMap);
      assert forall k :: 0 < k < |specs| ==> specs[k] == specs[1..][k - 1];
      r
  }

  /** Line 508: the run-time requirements of each declared build requirement, in declaration order. */
  function RequirementList(specs: seq<string>, buildReqMap: map<string, Trove>): seq<DepSet>
    requires forall i :: 0 <= i < |specs| ==> specs[i] in buildReqMap
  {
    seq(|specs|, i requires 0 <= i < |specs| => buildReqMap[specs[i]].requirements)
  }

  /** The trove names in the provides closure the database returns. */
  ghost function ClosureNames(closure: map<DepSet, set<string>>): set<string> {
    set ds, n | ds in closure && n in closure[ds] :: n
  }

  /**
   * Lines 505-512: the declared build requirements' names together with every
   * trove name in the transitive provides closure of their requirements.
   */
  ghost function TransitiveNames(recipe: Recipe, db: Db): set<string>
    requires forall i :: 0 <= i < |recipe.buildRequires| ==> recipe.buildRequires[i] in recipe.buildReqMap
  {
    (set spec | spec in recipe.buildRequires :: recipe.buildReqMap[spec].name) +
    ClosureNames(db.closure(RequirementList(recipe.buildRequires, recipe.buildReqMap)))
  }

  /** postProcess(), lines 505-512. */
  method TransitiveBuildRequires(recipe: Recipe, db: Db) returns (r: Result<set<string>, PostError>)
    ensures FirstUnresolved(recipe.buildRequires, recipe.buildReqMap).Some? ==>
      r == Failure(UnresolvedSpec(FirstUnresolved(recipe.buildRequires, recipe.buildReqMap).value))
    ensures FirstUnresolved(recipe.buildRequires, recipe.buildReqMap).None? ==>
      r == Success(TransitiveNames(recipe, db))
  {
    var unresolved := FirstUnresolved(recipe.buildRequires, recipe.buildReqMap);
    if unresolved.Some? {
      return Failure(UnresolvedSpec(unresolved.value));
    }
    var transitive := set spec | spec in recipe.buildRequires :: recipe.buildReqMap[spec].name;
    var d := db.closure(RequirementList(recipe.buildRequires, recipe.buildReqMap));
    var todo := d.Keys;
    ghost var base := transitive;
    while todo != {}
      invariant todo <= d.Keys
      invariant transitive == base + set ds, n | ds in d && ds !in todo && n in d[ds] :: n
      decreases todo
    {
      var ds :| ds in todo;
      transitive := transitive + d[ds];
      todo := todo - {ds};
    }
    assert transitive == TransitiveNames(recipe, db);
    return Success(transitive);
  }

  /** Lines 518-521: the owners of `path`, less the component exceptions and the closure. */
  function PathMissing(db: Db, path: string, compExceptions: set<string>, transitive: set<string>): set<string> {
    Owners(db, path) - compExceptions - transitive
  }

  /** Lines 517-529: per-path warnings and the coalesced suggestion over the surviving paths. */
  method Suggest(found: set<string>, db: Db, compExceptions: set<string>, transitive: set<string>)
    returns (report: ConfigLogReport)
    ensures forall p :: p in report.perPath <==> p in found && PathMissing(db, p, compExceptions, transitive) != {}
    ensures forall p :: p in report.perPath ==> report.perPath[p] == PathMissing(db, p, compExceptions, transitive)
    ensures forall t :: t in report.missing <==>
      t !in transitive && exists p :: p in found && t in Owners(db, p) && t !in compExceptions
  {
    var fileReqs: set<string> := {};
    var perPath: map<string, set<string>> := map[];
    var todo := found;
    while todo != {}
      invariant todo <= found
      invariant forall t :: t in fileReqs <==>
        exists p :: p in found && p !in todo && t in Owners(db, p) && t !in compExceptions
      invariant forall p :: p in perPath <==>
        p in found && p !in todo && PathMissing(db, p, compExceptions, transitive) != {}
      invariant forall p :: p in perPath ==> perPath[p] == PathMissing(db, p, compExceptions, transitive)
      decreases todo
    {
      var path :| path in todo;
      var thisFileReqs := Owners(db, path) - compExceptions;
      var missingReqs := thisFileReqs - transitive;
      if missingReqs != {} {
        perPath := perPath[path := missingReqs];
      }
      fileReqs := fileReqs + thisFileReqs;
      todo := todo - {path};
    }
    report := ConfigLogReport(perPath, fileReqs - transitive);
  }

  /**
   * The coalesced suggestion is the union of the per-path suggestions, and
   * never names a component exception or a trove in the closure.
   */
  lemma CoalescedIsUnionOfPerPath(report: ConfigLogReport, found: set<string>, db: Db,
                                  compExceptions: set<string>, transitive: set<string>)
    requires forall p :: p in report.perPath <==> p in found && PathMissing(db, p, compExceptions, transitive) != {}
    requires forall p :: p in report.perPath ==> report.perPath[p] == PathMissing(db, p, compExceptions, transitive)
    requires forall t :: t in report.missing <==>
      t !in transitive && exists p :: p in found && t in Owners(db, p) && t !in compExceptions
    ensures forall t :: t in report.missing <==> exists p :: p in report.perPath && t in report.perPath[p]
    ensures report.missing !! compExceptions && report.missing !! transitive
  {
    forall t | t in report.missing
      ensures exists p :: p in report.perPath && t in report.perPath[p]
    {
      var p :| p in found && t in Owners(db, p) && t !in compExceptions;
      assert t in PathMissing(db, p, compExceptions, transitive);
    }
  }

  /** postProcess(), lines 499-532. */
  method ReportMissing(found: set<string>, recipe: Recipe, db: Db, compExceptions: set<string>)
    returns (r: Result<ConfigLogReport, PostError>)
    ensures found == {} ==> r == Success(ConfigLogReport(map[], {}))
    ensures found != {} && FirstUnresolved(recipe.buildRequires, recipe.buildReqMap).Some? ==>
      r == Failure(UnresolvedSpec(FirstUnresolved(recipe.buildRequires, recipe.buildReqMap).value))
    ensures found != {} && FirstUnresolved(recipe.buildRequires, recipe.buildReqMap).None? ==>
      (r.Success? &&
       var transitive := TransitiveNames(recipe, db);
       (forall p :: p in r.value.perPath <==> p in found && PathMissing(db, p, compExceptions, transitive) != {}) &&
       (forall p :: p in r.value.perPath ==> r.value.perPath[p] == PathMissing(db, p, compExceptions, transitive)) &&
       (forall t :: t in r.value.missing <==>
         t !in transitive && exists p :: p in found && t in Owners(db, p) && t !in compExceptions))
  {
    if found == {} {
      return Success(ConfigLogReport(map[], {}));
    }
    var transitive := TransitiveBuildRequires(recipe, db);
    if transitive.Failure? {
      return Failure(transitive.error);
    }
    var report := Suggest(found, db, compExceptions, transitive.value);
    return Success(report);
  }

  /** A declared build requirement, or anything in its closure, is never suggested. */
  lemma DeclaredNeverSuggested(recipe: Recipe, db: Db, spec: string)
    requires forall i :: 0 <= i < |recipe.buildRequires| ==> recipe.buildRequires[i] in recipe.buildReqMap
    requires spec in recipe.buildRequires
    ensures recipe.buildReqMap[spec].name in TransitiveNames(recipe, db)
  {
  }

  /**
   * A kept path owned by one trove, in a recipe declaring no build
   * requirements, suggests that trove.
   */
  lemma ScenarioOwnerSuggested(db: Db, path: string, owner: string, builddir: string)
    requires Owners(db, path) == {owner}
    requires ClosureNames(db.closure([])) == {}
    ensures var recipe := Recipe([], map[], map[], map[], builddir, false);
      TransitiveNames(recipe, db) == {} &&
      PathMissing(db, path, {}, TransitiveNames(recipe, db)) == {owner}
  {
    var recipe := Recipe([], map[], map[], map[], builddir, false);
    assert RequirementList(recipe.buildRequires, recipe.buildReqMap) == [];
  }

  // ---------------------------------------------------------------------
  // The policy object

  /** The config.log enforcer's state across preProcess, doFile per log, and postProcess. */
  class ConfigLogEnforcer {
    const recipe: Recipe
    const db: Db
    const greylist: seq<GreyEntry>
    const reMatch: (string, string) -> bool
    var exceptions: seq<string>
    var foundPaths: set<string>
    var greydict: map<string, seq<Corroborator>>
    var pathExceptions: set<string>
    var compExceptions: set<string>

    constructor (recipe: Recipe, db: Db, prefix: string, bindir: string,
                 reMatch: (string, string) -> bool, exceptions: seq<string>)
      ensures this.recipe == recipe && this.db == db && this.reMatch == reMatch
      ensures greylist == DefaultGreylist(prefix, bindir) && this.exceptions == exceptions
      ensures foundPaths == {} && greydict == map[] && pathExceptions == {} && compExceptions == {}
    {
      this.recipe, this.db, this.reMatch := recipe, db, reMatch;
      greylist := DefaultGreylist(prefix, bindir);
      this.exceptions := exceptions;
      foundPaths, greydict, pathExceptions, compExceptions := {}, map[], {}, {};
    }

    /** test(), lines 442-443: the policy runs unless dependency checking is off. */
    method Test() returns (applicable: bool)
      ensures applicable <==> !recipe.ignoreDeps
    {
      return !recipe.ignoreDeps;
    }

    /** preProcess(), lines 445-466. */
    method PreProcess()
      modifies this
      ensures foundPaths == {} && greydict == GreyDictOf(greylist) && exceptions == []
      ensures forall e :: e in pathExceptions <==> e in old(exceptions) && '/' in e
      ensures forall e :: e in compExceptions <==>
        (e in old(exceptions) && '/' !in e) || e in recipe.components
    {
      foundPaths := {};
      greydict := BuildGreyDict(greylist);
      var comps;
      pathExceptions, comps := SplitExceptions(exceptions);
      compExceptions := comps + recipe.components.Keys;
      exceptions := [];
    }

    /** doFile(), lines 474-497, for the log at `path` under the build directory; `fs` maps files to their lines. */
    method DoFile(path: string, fs: map<string, seq<string>>)
      requires recipe.builddir + path in fs
      modifies this`foundPaths, this`greydict
      ensures var fullpath := recipe.builddir + path;
        var found := LogPaths(fs[fullpath], pathExceptions);
        foundPaths == old(foundPaths) + KeptPaths(found, old(greydict), fullpath, fs, reMatch) &&
        greydict == Exhaust(old(greydict), found)
    {
      var fullpath := recipe.builddir + path;
      var found := LogPaths(fs[fullpath], pathExceptions);
      var kept;
      kept, greydict := FilterGreylist(found, greydict, fullpath, fs, reMatch);
      foundPaths := foundPaths + kept;
    }

    /** postProcess(), lines 499-538. */
    method PostProcess() returns (r: Result<ConfigLogReport, PostError>)
      ensures foundPaths == {} ==> r == Success(ConfigLogReport(map[], {}))
      ensures foundPaths != {} && FirstUnresolved(recipe.buildRequires, recipe.buildReqMap).Some? ==>
        r == Failure(UnresolvedSpec(FirstUnresolved(recipe.buildRequires, recipe.buildReqMap).value))
      ensures foundPaths != {} && FirstUnresolved(recipe.buildRequires, recipe.buildReqMap).None? ==>
        (r.Success? &&
         var transitive := TransitiveNames(recipe, db);
         (forall p :: p in r.value.perPath <==> p in foundPaths && PathMissing(db, p, compExceptions, transitive) != {}) &&
         (forall p :: p in r.value.perPath ==> r.value.perPath[p] == PathMissing(db, p, compExceptions, transitive)) &&
         (forall t :: t in r.value.missing <==>
           t !in transitive && exists p :: p in foundPaths && t in Owners(db, p) && t !in compExceptions))
    {
      r := ReportMissing(foundPaths, recipe, db, compExceptions);
    }
  }
}
