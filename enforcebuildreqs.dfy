/**
 * The generic build-requirement enforcer shared by the soname, Python,
 * Java, CIL and Perl policies: it splits the exceptions into literal
 * component names and patterns, computes the package's dependency gap,
 * resolves each gap dependency of its class to candidate troves (the
 * soname policy prefers :devel, then :devellib, then :lib), and classifies
 * each as a definite missing build requirement or a choice among several,
 * correlating reported dependencies with the files that need them and
 * folding in the owners of script interpreters.
 */
module EnforceBuildReqs {
  import opened Wrappers
  import opened Text
  import opened Conary

  /** The enforcers that share this algorithm. */
  datatype Enforcer = EnforceSoname | EnforcePython | EnforceJava | EnforceCIL | EnforcePerl

  function DepClassOf(e: Enforcer): DepClass {
    match e
    case EnforceSoname => SonameClass
    case EnforcePython => PythonClass
    case EnforceJava => JavaClass
    case EnforceCIL => CILClass
    case EnforcePerl => PerlClass
  }

  // ---------------------------------------------------------------------
  // Exceptions: literal `pkg:comp` names versus patterns

  predicate IsAlnum(c: char) {
    ('a' <= c <= 'z') || ('A' <= c <= 'Z') || ('0' <= c <= '9')
  }

  predicate AllAlnum(s: string) {
    forall k :: 0 <= k < |s| ==> IsAlnum(s[k])
  }

  /**
   * The regular expression `[a-zA-Z0-9]+:[a-zA-Z0-9]+` matches a prefix of
   * `s` (`re.match` anchors only at the start).
   */
  ghost predicate ComponentPatternMatches(s: string) {
    exists i, j :: MatchesPrefix(s, i, j)
  }

  /** `s[..j]` is a run of alphanumerics, a ':' at index `i`, and another run of alphanumerics. */
  ghost predicate MatchesPrefix(s: string, i: int, j: int) {
    0 < i && i + 1 < j <= |s| && AllAlnum(s[..i]) && s[i] == ':' && AllAlnum(s[i + 1..j])
  }

  /** Length of the longest alphanumeric prefix of `s`. */
  function AlnumRun(s: string): (k: nat)
    ensures k <= |s| && AllAlnum(s[..k]) && (k == |s| || !IsAlnum(s[k]))
  {
    if s != [] && IsAlnum(s[0]) then
      var k := 1 + AlnumRun(s[1..]);
      assert s[..k] == [s[0]] + s[1..][..k - 1];
      k
    else 0
  }

  /** The recogniser the enforcer uses for a literal component exception. */
  predicate LooksLikeComponent(s: string) {
    var k := AlnumRun(s);
    0 < k && k + 1 < |s| && s[k] == ':' && IsAlnum(s[k + 1])
  }

  /** The recogniser accepts exactly the strings the regular expression matches at their start. */
  lemma LooksLikeComponentIsMatch(s: string)
    ensures LooksLikeComponent(s) <==> ComponentPatternMatches(s)
  {
    var k := AlnumRun(s);
    if LooksLikeComponent(s) {
      assert AllAlnum(s[k + 1..k + 2]);
      assert MatchesPrefix(s, k, k + 2);
    }
    if ComponentPatternMatches(s) {
      var i, j :| MatchesPrefix(s, i, j);
      assert i == k;
      assert s[i + 1..j][0] == s[k + 1];
    }
  }

  /**
   * preProcess, lines 31-42: each exception goes to the literal set when it
   * looks like `pkg:comp` and to the pattern set otherwise.
   */
  method PartitionExceptions(exceptions: seq<string>) returns (literals: set<string>, patterns: set<string>)
    ensures forall e :: e in literals <==> e in exceptions && LooksLikeComponent(e)
    ensures forall e :: e in patterns <==> e in exceptions && !LooksLikeComponent(e)
  {
    literals, patterns := {}, {};
    for i := 0 to |exceptions|
      invariant forall e :: e in literals <==> e in exceptions[..i] && LooksLikeComponent(e)
      invariant forall e :: e in patterns <==> e in exceptions[..i] && !LooksLikeComponent(e)
    {
      assert exceptions[..i + 1] == exceptions[..i] + [exceptions[i]];
      var exception := exceptions[i];
      if LooksLikeComponent(exception) {
        literals := literals + {exception};
      } else {
        patterns := patterns + {exception};
      }
    }
    assert exceptions[..|exceptions|] == exceptions;
  }

  /** A candidate is excepted when it is a literal exception or some pattern matches at its start. */
  predicate Excepted(c: string, literals: set<string>, patterns: set<string>, reMatch: (string, string) -> bool) {
    c in literals || exists p :: p in patterns && reMatch(p, c)
  }

  /** The candidates that survive the exceptions. */
  function Filtered(found: set<string>, literals: set<string>, patterns: set<string>,
                    reMatch: (string, string) -> bool): set<string>
  {
    set c | c in found && !Excepted(c, literals, patterns, reMatch)
  }

  /**
   * do(), lines 111-114: subtract the literal exceptions, then for each
   * pattern every candidate it matches.
   */
  method ApplyExceptions(found: set<string>, literals: set<string>, patterns: set<string>,
                         reMatch: (string, string) -> bool) returns (kept: set<string>)
    ensures forall c :: c in kept <==> c in found && !Excepted(c, literals, patterns, reMatch)
    ensures kept == Filtered(found, literals, patterns, reMatch)
  {
    kept := found - literals;
    var todo := patterns;
    while todo != {}
      invariant todo <= patterns
      invariant forall c :: c in kept <==>
        c in found && c !in literals && !(exists p :: p in patterns - todo && reMatch(p, c))
      decreases todo
    {
      var p :| p in todo;
      kept := kept - set c | c in kept && reMatch(p, c);
      todo := todo - {p};
    }
  }

  // ---------------------------------------------------------------------
  // Declared build requirements and the dependency gap

  /** preProcess, lines 47-50: the names of the declared specs the recipe could resolve. */
  function DeclaredNames(buildRequires: seq<string>, buildReqMap: map<string, Trove>): set<string> {
    set spec | spec in buildRequires && spec in buildReqMap :: buildReqMap[spec].name
  }

  ghost predicate RequiredBy(comps: map<string, Component>, d: Capability) {
    exists n :: n in comps && d in comps[n].requirements
  }

  ghost predicate ProvidedBy(comps: map<string, Component>, d: Capability) {
    exists n :: n in comps && d in comps[n].provisions
  }

  /**
   * preProcess, lines 52-59: the union of every component's requirements
   * minus the union of every component's provisions.
   */
  method ComputeGap(comps: map<string, Component>) returns (gap: DepSet)
    ensures forall d :: d in gap <==> RequiredBy(comps, d) && !ProvidedBy(comps, d)
  {
    var reqDepSet: DepSet := {};
    var provDepSet: DepSet := {};
    var todo := comps.Keys;
    while todo != {}
      invariant todo <= comps.Keys
      invariant forall d :: d in reqDepSet <==> exists n :: n in comps && n !in todo && d in comps[n].requirements
      invariant forall d :: d in provDepSet <==> exists n :: n in comps && n !in todo && d in comps[n].provisions
      decreases todo
    {
      var n :| n in todo;
      reqDepSet := reqDepSet + comps[n].requirements;
      provDepSet := provDepSet + comps[n].provisions;
      todo := todo - {n};
    }
    gap := reqDepSet - provDepSet;
  }

  /** test(), line 64: the gap dependencies of the enforcer's class. */
  function ClassDeps(gap: DepSet, e: Enforcer): DepSet {
    set d | d in gap && d.cls == DepClassOf(e)
  }

  /** test(), line 76: the provider names of each class dependency some installed trove provides. */
  function LocalProvides(db: Db, deps: DepSet): map<Capability, seq<string>> {
    map d | d in deps && d in db.providers :: db.providers[d]
  }

  /** test(), line 77: the class dependencies nothing installed provides. */
  function Unprovided(db: Db, deps: DepSet): DepSet {
    set d | d in deps && d !in db.providers
  }

  // ---------------------------------------------------------------------
  // Candidate names

  /**
   * providesNames: the soname enforcer tries the :devel, then the :devellib,
   * then the original name (lines 240-242); the others only the name (line 194).
   */
  function ProvidesNames(e: Enforcer, name: string): seq<string> {
    if e == EnforceSoname then [Replace(name, ":lib", ":devel"), Replace(name, ":lib", ":devellib"), name]
    else [name]
  }

  /** For a `pkg:lib` name the soname cascade is `pkg:devel`, `pkg:devellib`, `pkg:lib`. */
  lemma SonameCascade(pkg: string)
    requires ':' !in pkg
    ensures ProvidesNames(EnforceSoname, pkg + ":lib") == [pkg + ":devel", pkg + ":devellib", pkg + ":lib"]
  {
    FirstCharAbsent(pkg, ":lib");
    ReplaceSuffix(pkg, ":lib", ":devel");
    ReplaceSuffix(pkg, ":lib", ":devellib");
  }

  /** A name without ":lib" yields itself three times, so the cascade degenerates to the default. */
  lemma SonameCascadeWithoutLib(name: string)
    requires forall i: nat :: !OccursAt(name, ":lib", i)
    ensures ProvidesNames(EnforceSoname, name) == [name, name, name]
  {
    ReplaceAbsent(name, ":lib", ":devel");
    ReplaceAbsent(name, ":lib", ":devellib");
  }

  /** The first name of `cands` the database has (the `break` at line 110), if any. */
  function FirstInstalled(cands: seq<string>, installed: set<string>): (r: Option<string>)
    ensures r.None? <==> forall k :: 0 <= k < |cands| ==> cands[k] !in installed
    ensures r.Some? ==> exists k :: 0 <= k < |cands| && cands[k] == r.value && r.value in installed &&
                                    forall j :: 0 <= j < k ==> cands[j] !in installed
  {
    if cands == [] then None
    else if cands[0] in installed then Some(cands[0])
    else
      var r := FirstInstalled(cands[1..], installed);
      assert forall k :: 0 < k < |cands| ==> cands[k] == cands[1..][k - 1];
      r
  }

  /** The chosen candidates of a provider-name list: at most one per provider name. */
  function Candidates(e: Enforcer, names: seq<string>, installed: set<string>): set<string> {
    set n | n in names && FirstInstalled(ProvidesNames(e, n), installed).Some?
          :: FirstInstalled(ProvidesNames(e, n), installed).value
  }

  /**
   * do(), lines 105-110: for each provider name, add the first cascade name
   * the database has and stop looking.
   */
  method FindCandidates(e: Enforcer, names: seq<string>, installed: set<string>) returns (found: set<string>)
    ensures found == Candidates(e, names, installed)
  {
    found := {};
    for i := 0 to |names|
      invariant found == Candidates(e, names[..i], installed)
    {
      var cands := ProvidesNames(e, names[i]);
      var j := 0;
      while j < |cands| && cands[j] !in installed
        invariant 0 <= j <= |cands|
        invariant forall k :: 0 <= k < j ==> cands[k] !in installed
      {
        j := j + 1;
      }
      var first := FirstInstalled(cands, installed);
      assert first == if j < |cands| then Some(cands[j]) else None;
      if j < |cands| {
        found := found + {cands[j]};
      }
      assert names[..i + 1] == names[..i] + [names[i]];
      CandidatesStep(e, names[..i], names[i], installed);
    }
    assert names[..|names|] == names;
  }

  lemma CandidatesStep(e: Enforcer, names: seq<string>, n: string, installed: set<string>)
    ensures Candidates(e, names + [n], installed) ==
            Candidates(e, names, installed) +
            (var f := FirstInstalled(ProvidesNames(e, n), installed); if f.Some? then {f.value} else {})
  {
  }

  // ---------------------------------------------------------------------
  // Classification of the gap (do())

  /** Everything do() reads: the fields preProcess and test set, and the recipe's files. */
  datatype Context = Context(
    enforcer: Enforcer,
    db: Db,
    literals: set<string>,
    patterns: set<string>,
    reMatch: (string, string) -> bool,
    declared: set<string>,
    pathMap: map<string, FileRecord>,
    localProvides: map<Capability, seq<string>>)

  /** The candidates found for `d` after the exceptions (foundCandidates after line 114). */
  function Found(ctx: Context, d: Capability): set<string>
    requires d in ctx.localProvides
  {
    Filtered(Candidates(ctx.enforcer, ctx.localProvides[d], ctx.db.installed), ctx.literals, ctx.patterns, ctx.reMatch)
  }

  /** Line 117: `d` is reported when some candidate was found and none of them is declared. */
  predicate Reported(ctx: Context, d: Capability)
    requires d in ctx.localProvides
  {
    Found(ctx, d) != {} && Found(ctx, d) !! ctx.declared
  }

  /** Lines 136 and 150: the file has contents and requires `d`. */
  predicate Correlates(f: FileRecord, d: Capability) {
    f.hasContents && d in f.requirements
  }

  /** Lines 152-154: the file is a script naming a (non-empty) interpreter. */
  predicate NamesInterpreter(f: FileRecord) {
    f.magic.Script? && f.magic.interpreter != ""
  }

  /** The names added to missingBuildRequires at line 129 for the dependencies in `done`. */
  ghost function SingleMissing(ctx: Context, done: set<Capability>): set<string> {
    set d, c | d in done && d in ctx.localProvides && Reported(ctx, d) && |Found(ctx, d)| == 1 && c in Found(ctx, d) :: c
  }

  /** The sets appended to missingBuildRequiresChoices at line 127 for the dependencies in `done`. */
  ghost function ChoiceSets(ctx: Context, done: set<Capability>): set<set<string>> {
    set d | d in done && d in ctx.localProvides && Reported(ctx, d) && |Found(ctx, d)| > 1 :: Found(ctx, d)
  }

  /** Lines 134-139: `path` is recorded against the reported dependency `d` in pathReqMap. */
  ghost predicate RecordedAgainst(ctx: Context, done: set<Capability>, path: string, d: Capability) {
    d in done && d in ctx.localProvides && Reported(ctx, d) && path in ctx.pathMap && Correlates(ctx.pathMap[path], d)
  }

  /** Lines 148-155: the interpreters of the scripts requiring some dependency in `done`. */
  ghost function Interpreters(ctx: Context, done: set<Capability>): set<string> {
    set path | path in ctx.pathMap && NamesInterpreter(ctx.pathMap[path]) &&
               (exists d :: d in done && Correlates(ctx.pathMap[path], d))
             :: ctx.pathMap[path].magic.interpreter
  }

  /** Lines 159-165: the owners of the interpreters that are not declared. */
  function InterpreterOwners(db: Db, declared: set<string>, interpreters: set<string>): set<string> {
    set i, t | i in interpreters && t in Owners(db, i) && t !in declared :: t
  }

  /** The result of do(): definite additions, choice groups, and the file correlation. */
  datatype Report = Report(
    missing: set<string>,
    choices: seq<set<string>>,
    pathReqMap: map<string, seq<Capability>>)

  predicate NoDuplicateSets(choices: seq<set<string>>) {
    forall i, j :: 0 <= i < j < |choices| ==> choices[i] != choices[j]
  }

  /** The accumulators of do()'s main loop. */
  datatype Progress = Progress(
    missing: set<string>,
    choices: seq<set<string>>,
    pathReqMap: map<string, seq<Capability>>,
    interpreters: set<string>)

  /** The accumulators hold exactly what the dependencies in `done` contribute. */
  ghost predicate Accounts(ctx: Context, done: set<Capability>, acc: Progress) {
    && acc.missing == SingleMissing(ctx, done)
    && ChoicesAccount(ctx, done, acc.choices)
    && PathsAccount(ctx, done, acc.pathReqMap)
    && acc.interpreters == Interpreters(ctx, done)
  }

  /** The choice list holds each choice group of `done` exactly once. */
  ghost predicate ChoicesAccount(ctx: Context, done: set<Capability>, choices: seq<set<string>>) {
    && NoDuplicateSets(choices)
    && (forall s :: s in choices <==> s in ChoiceSets(ctx, done))
  }

  /** pathReqMap lists, for each packaged path, exactly the reported dependencies of `done` it correlates with. */
  ghost predicate PathsAccount(ctx: Context, done: set<Capability>, prm: map<string, seq<Capability>>) {
    && (forall path :: path in prm <==> exists d :: RecordedAgainst(ctx, done, path, d))
    && (forall path, d :: path in prm ==> (d in prm[path] <==> RecordedAgainst(ctx, done, path, d)))
  }

  /**
   * Lines 121-127: append `s` to the choice list unless an equal set is
   * already there.
   */
  method AppendIfAbsent(choices: seq<set<string>>, s: set<string>) returns (r: seq<set<string>>)
    ensures forall t :: t in r <==> t in choices || t == s
    ensures NoDuplicateSets(choices) ==> NoDuplicateSets(r)
    ensures r == if s in choices then choices else choices + [s]
  {
    var found := false;
    for i := 0 to |choices|
      invariant found <==> s in choices[..i]
    {
      assert choices[..i + 1] == choices[..i] + [choices[i]];
      if choices[i] == s {
        found := true;
      }
    }
    assert choices[..|choices|] == choices;
    if found == false {
      r := choices + [s];
    } else {
      r := choices;
    }
  }

  /** The entries of `prm` at `path`, or none (dict.setdefault at line 138). */
  function Entries(prm: map<string, seq<Capability>>, path: string): seq<Capability> {
    if path in prm then prm[path] else []
  }

  /** Lines 134-139: append `d` to the entry of every file that has contents and requires `d`. */
  method CorrelateFiles(pathMap: map<string, FileRecord>, d: Capability, prm: map<string, seq<Capability>>)
    returns (r: map<string, seq<Capability>>)
    ensures forall path :: path in r <==> path in prm || (path in pathMap && Correlates(pathMap[path], d))
    ensures forall path :: path in r ==>
      r[path] == if path in pathMap && Correlates(pathMap[path], d) then Entries(prm, path) + [d] else prm[path]
  {
    r := prm;
    var todo := pathMap.Keys;
    while todo != {}
      invariant todo <= pathMap.Keys
      invariant forall path :: path in r <==>
        path in prm || (path in pathMap && path !in todo && Correlates(pathMap[path], d))
      invariant forall path :: path in r ==>
        r[path] == if path in pathMap && path !in todo && Correlates(pathMap[path], d)
                   then Entries(prm, path) + [d] else prm[path]
      decreases todo
    {
      var path :| path in todo;
      var pkgfile := pathMap[path];
      if pkgfile.hasContents && d in pkgfile.requirements {
        var l := if path in r then r[path] else [];
        r := r[path := l + [d]];
      }
      todo := todo - {path};
    }
  }

  /** Lines 148-155: add the interpreter of every script that has contents and requires `d`. */
  method CollectInterpreters(pathMap: map<string, FileRecord>, d: Capability, interpreters: set<string>)
    returns (r: set<string>)
    ensures r == interpreters + set path | path in pathMap && Correlates(pathMap[path], d) &&
                                           NamesInterpreter(pathMap[path]) :: pathMap[path].magic.interpreter
  {
    r := interpreters;
    var todo := pathMap.Keys;
    while todo != {}
      invariant todo <= pathMap.Keys
      invariant r == interpreters + set path | path in pathMap && path !in todo && Correlates(pathMap[path], d) &&
                                               NamesInterpreter(pathMap[path]) :: pathMap[path].magic.interpreter
      decreases todo
    {
      var path :| path in todo;
      var pkgfile := pathMap[path];
      if pkgfile.hasContents && d in pkgfile.requirements {
        var m := pkgfile.magic;
        if m.Script? {
          var interpreter := m.interpreter;
          if interpreter != "" {
            r := r + {interpreter};
          }
        }
      }
      todo := todo - {path};
    }
  }

  /** Lines 157-165: every undeclared owner of an interpreter joins the missing set. */
  method AddInterpreterOwners(db: Db, declared: set<string>, interpreters: set<string>, missing: set<string>)
    returns (r: set<string>)
    ensures r == missing + InterpreterOwners(db, declared, interpreters)
  {
    r := missing;
    var todo := interpreters;
    while todo != {}
      invariant todo <= interpreters
      invariant r == missing + InterpreterOwners(db, declared, interpreters - todo)
      decreases todo
    {
      var interpreter :| interpreter in todo;
      var troves := Owners(db, interpreter);
      var added := {};
      while troves != {}
        invariant troves <= Owners(db, interpreter)
        invariant added == set t | t in Owners(db, interpreter) - troves && t !in declared
        decreases troves
      {
        var trove :| trove in troves;
        if trove !in declared {
          added := added + {trove};
        }
        troves := troves - {trove};
      }
      r := r + added;
      todo := todo - {interpreter};
      assert InterpreterOwners(db, declared, interpreters - todo) ==
             InterpreterOwners(db, declared, interpreters - todo - {interpreter}) + added;
    }
  }

  /**
   * One iteration of do()'s loop over localProvides (lines 101-155) for the
   * dependency `d`: resolve, filter, classify, correlate, scan interpreters.
   */
  method ClassifyDep(ctx: Context, ghost done: set<Capability>, d: Capability, acc: Progress)
    returns (next: Progress)
    requires d in ctx.localProvides && d !in done
    requires Accounts(ctx, done, acc)
    ensures Accounts(ctx, done + {d}, next)
  {
    var foundCandidates := FindCandidates(ctx.enforcer, ctx.localProvides[d], ctx.db.installed);
    foundCandidates := ApplyExceptions(foundCandidates, ctx.literals, ctx.patterns, ctx.reMatch);
    var missing, choices, pathReqMap := acc.missing, acc.choices, acc.pathReqMap;
    var missingCandidates := foundCandidates - ctx.declared;
    var reported := foundCandidates != {} && missingCandidates == foundCandidates;
    ReportedWhenNoneDeclared(ctx, d, foundCandidates, missingCandidates);
    if reported {
      if |foundCandidates| > 1 {
        choices := AppendIfAbsent(choices, foundCandidates);
      } else {
        missing := missing + foundCandidates;
      }
      pathReqMap := CorrelateFiles(ctx.pathMap, d, pathReqMap);
    }
    var interpreters := CollectInterpreters(ctx.pathMap, d, acc.interpreters);
    next := Progress(missing, choices, pathReqMap, interpreters);
    StepAccounts(ctx, done, d, foundCandidates, reported, acc, next);
  }

  /** Line 117's test, `missingCandidates == foundCandidates` for a non-empty set, is Reported. */
  lemma ReportedWhenNoneDeclared(ctx: Context, d: Capability, found: set<string>, missing: set<string>)
    requires d in ctx.localProvides && found == Found(ctx, d) && missing == found - ctx.declared
    ensures (found != {} && missing == found) == Reported(ctx, d)
  {
    if found !! ctx.declared {
      assert missing == found;
    } else {
      var c :| c in found && c in ctx.declared;
      assert c !in missing;
    }
  }

  /** What one dependency adds to each accumulator, as ClassifyDep computes it. */
  lemma StepAccounts(ctx: Context, done: set<Capability>, d: Capability, found: set<string>, reported: bool,
                     acc: Progress, next: Progress)
    requires d in ctx.localProvides && d !in done
    requires found == Found(ctx, d) && reported == Reported(ctx, d)
    requires Accounts(ctx, done, acc)
    requires next.missing == if reported && |found| <= 1 then acc.missing + found else acc.missing
    requires forall s :: s in next.choices <==> s in acc.choices || (reported && |found| > 1 && s == found)
    requires NoDuplicateSets(next.choices)
    requires !reported ==> next.pathReqMap == acc.pathReqMap
    requires reported ==>
      (forall path :: path in next.pathReqMap <==>
         path in acc.pathReqMap || (path in ctx.pathMap && Correlates(ctx.pathMap[path], d))) &&
      (forall path :: path in next.pathReqMap ==>
         next.pathReqMap[path] == if path in ctx.pathMap && Correlates(ctx.pathMap[path], d)
                                  then Entries(acc.pathReqMap, path) + [d] else acc.pathReqMap[path])
    requires next.interpreters == acc.interpreters +
      set path | path in ctx.pathMap && Correlates(ctx.pathMap[path], d) &&
                 NamesInterpreter(ctx.pathMap[path]) :: ctx.pathMap[path].magic.interpreter
    ensures Accounts(ctx, done + {d}, next)
  {
    StepMissing(ctx, done, d);
    StepChoicesAccount(ctx, done, d, found, reported, acc.choices, next.choices);
    StepPaths(ctx, done, d, reported, acc.pathReqMap, next.pathReqMap);
    StepInterpreters(ctx, done, d);
  }

  /** The choice-list half of StepAccounts. */
  lemma StepChoicesAccount(ctx: Context, done: set<Capability>, d: Capability, found: set<string>, reported: bool,
                           choices: seq<set<string>>, choices': seq<set<string>>)
    requires d in ctx.localProvides && found == Found(ctx, d) && reported == Reported(ctx, d)
    requires ChoicesAccount(ctx, done, choices)
    requires forall s :: s in choices' <==> s in choices || (reported && |found| > 1 && s == found)
    requires NoDuplicateSets(choices')
    ensures ChoicesAccount(ctx, done + {d}, choices')
  {
    StepChoices(ctx, done, d);
  }

  /** The pathReqMap half of StepAccounts, with the unreported case separated. */
  lemma StepPaths(ctx: Context, done: set<Capability>, d: Capability, reported: bool,
                  prm: map<string, seq<Capability>>, prm': map<string, seq<Capability>>)
    requires d in ctx.localProvides && d !in done && reported == Reported(ctx, d)
    requires PathsAccount(ctx, done, prm)
    requires !reported ==> prm' == prm
    requires reported ==>
      (forall path :: path in prm' <==>
         path in prm || (path in ctx.pathMap && Correlates(ctx.pathMap[path], d))) &&
      (forall path :: path in prm' ==>
         prm'[path] == if path in ctx.pathMap && Correlates(ctx.pathMap[path], d)
                       then Entries(prm, path) + [d] else prm[path])
    ensures PathsAccount(ctx, done + {d}, prm')
  {
    StepPathReqMap(ctx, done, d, prm, prm');
  }

  lemma StepMissing(ctx: Context, done: set<Capability>, d: Capability)
    requires d in ctx.localProvides
    ensures SingleMissing(ctx, done + {d}) ==
            SingleMissing(ctx, done) + (if Reported(ctx, d) && |Found(ctx, d)| <= 1 then Found(ctx, d) else {})
  {
    StepMissingOld(ctx, done, d);
    StepMissingNew(ctx, done, d);
  }

  lemma StepMissingOld(ctx: Context, done: set<Capability>, d: Capability)
    requires d in ctx.localProvides
    ensures SingleMissing(ctx, done + {d}) <=
            SingleMissing(ctx, done) + (if Reported(ctx, d) && |Found(ctx, d)| <= 1 then Found(ctx, d) else {})
  {
    forall c | c in SingleMissing(ctx, done + {d})
      ensures c in SingleMissing(ctx, done) || (Reported(ctx, d) && |Found(ctx, d)| <= 1 && c in Found(ctx, d))
    {
      MissingFrom(ctx, done, d, c);
    }
  }

  /** A name definitely missing after `d` was missing before, or is `d`'s one candidate. */
  lemma MissingFrom(ctx: Context, done: set<Capability>, d: Capability, c: string)
    requires d in ctx.localProvides && c in SingleMissing(ctx, done + {d})
    ensures c in SingleMissing(ctx, done) || (Reported(ctx, d) && |Found(ctx, d)| <= 1 && c in Found(ctx, d))
  {
    var e :| e in done + {d} && e in ctx.localProvides && Reported(ctx, e) && |Found(ctx, e)| == 1 && c in Found(ctx, e);
    if e != d {
      assert c in SingleMissing(ctx, done);
    }
  }

  lemma StepMissingNew(ctx: Context, done: set<Capability>, d: Capability)
    requires d in ctx.localProvides
    ensures SingleMissing(ctx, done) + (if Reported(ctx, d) && |Found(ctx, d)| <= 1 then Found(ctx, d) else {}) <=
            SingleMissing(ctx, done + {d})
  {
    forall c | c in SingleMissing(ctx, done)
      ensures c in SingleMissing(ctx, done + {d})
    {
      var e :| e in done && e in ctx.localProvides && Reported(ctx, e) && |Found(ctx, e)| == 1 && c in Found(ctx, e);
      assert e in done + {d};
    }
    if Reported(ctx, d) && |Found(ctx, d)| <= 1 {
      assert |Found(ctx, d)| == 1;
      forall c | c in Found(ctx, d)
        ensures c in SingleMissing(ctx, done + {d})
      {
        assert d in done + {d};
      }
    }
  }

  lemma StepChoices(ctx: Context, done: set<Capability>, d: Capability)
    requires d in ctx.localProvides
    ensures forall s :: s in ChoiceSets(ctx, done + {d}) <==>
      s in ChoiceSets(ctx, done) || (Reported(ctx, d) && |Found(ctx, d)| > 1 && s == Found(ctx, d))
  {
  }

  lemma StepInterpreters(ctx: Context, done: set<Capability>, d: Capability)
    ensures Interpreters(ctx, done + {d}) == Interpreters(ctx, done) +
      set path | path in ctx.pathMap && Correlates(ctx.pathMap[path], d) &&
                 NamesInterpreter(ctx.pathMap[path]) :: ctx.pathMap[path].magic.interpreter
  {
  }

  lemma StepPathReqMap(ctx: Context, done: set<Capability>, d: Capability,
                       prm: map<string, seq<Capability>>, prm': map<string, seq<Capability>>)
    requires d in ctx.localProvides && d !in done
    requires forall path :: path in prm <==> exists e :: RecordedAgainst(ctx, done, path, e)
    requires forall path, e :: path in prm ==> (e in prm[path] <==> RecordedAgainst(ctx, done, path, e))
    requires forall path :: path in prm' <==>
      path in prm || (Reported(ctx, d) && path in ctx.pathMap && Correlates(ctx.pathMap[path], d))
    requires forall path :: path in prm' ==>
      prm'[path] == if Reported(ctx, d) && path in ctx.pathMap && Correlates(ctx.pathMap[path], d)
                    then Entries(prm, path) + [d] else prm[path]
    ensures forall path :: path in prm' <==> exists e :: RecordedAgainst(ctx, done + {d}, path, e)
    ensures forall path, e :: path in prm' ==> (e in prm'[path] <==> RecordedAgainst(ctx, done + {d}, path, e))
  {
    forall path ensures path in prm' <==> exists e :: RecordedAgainst(ctx, done + {d}, path, e) {
      StepPathKey(ctx, done, d, prm, prm', path);
    }
    forall path, e | path in prm' ensures e in prm'[path] <==> RecordedAgainst(ctx, done + {d}, path, e) {
      StepPathEntry(ctx, done, d, prm, prm', path, e);
    }
  }

  lemma StepPathKey(ctx: Context, done: set<Capability>, d: Capability,
                    prm: map<string, seq<Capability>>, prm': map<string, seq<Capability>>, path: string)
    requires d in ctx.localProvides && d !in done
    requires path in prm <==> exists e :: RecordedAgainst(ctx, done, path, e)
    requires path in prm' <==>
      path in prm || (Reported(ctx, d) && path in ctx.pathMap && Correlates(ctx.pathMap[path], d))
    ensures path in prm' <==> exists e :: RecordedAgainst(ctx, done + {d}, path, e)
  {
    var done' := done + {d};
    if path in prm' && path !in prm {
      assert RecordedAgainst(ctx, done', path, d);
    }
    if path in prm {
      var e :| RecordedAgainst(ctx, done, path, e);
      assert RecordedAgainst(ctx, done', path, e);
    }
    if exists e :: RecordedAgainst(ctx, done', path, e) {
      var e :| RecordedAgainst(ctx, done', path, e);
      if e != d {
        assert RecordedAgainst(ctx, done, path, e);
      }
    }
  }

  lemma StepPathEntry(ctx: Context, done: set<Capability>, d: Capability,
                      prm: map<string, seq<Capability>>, prm': map<string, seq<Capability>>, path: string, e: Capability)
    requires d in ctx.localProvides && d !in done
    requires path in prm <==> exists e :: RecordedAgainst(ctx, done, path, e)
    requires path in prm ==> (e in prm[path] <==> RecordedAgainst(ctx, done, path, e))
    requires path in prm' <==>
      path in prm || (Reported(ctx, d) && path in ctx.pathMap && Correlates(ctx.pathMap[path], d))
    requires path in prm' ==>
      prm'[path] == if Reported(ctx, d) && path in ctx.pathMap && Correlates(ctx.pathMap[path], d)
                    then Entries(prm, path) + [d] else prm[path]
    requires path in prm'
    ensures e in prm'[path] <==> RecordedAgainst(ctx, done + {d}, path, e)
  {
    if path !in prm {
      assert !RecordedAgainst(ctx, done, path, e);
      assert prm'[path] == [d];
    }
  }

  /** The whole of the report do() computes, before the interpreter owners are added. */
  ghost predicate Classified(ctx: Context, acc: Progress) {
    Accounts(ctx, ctx.localProvides.Keys, acc)
  }

  /**
   * do(), lines 92-165: classify every dependency of localProvides, then
   * fold the undeclared owners of the interpreters found into the missing set.
   */
  method Classify(ctx: Context) returns (r: Report)
    ensures r.missing == SingleMissing(ctx, ctx.localProvides.Keys) +
                         InterpreterOwners(ctx.db, ctx.declared, Interpreters(ctx, ctx.localProvides.Keys))
    ensures NoDuplicateSets(r.choices)
    ensures forall s :: s in r.choices <==> s in ChoiceSets(ctx, ctx.localProvides.Keys)
    ensures forall path :: path in r.pathReqMap <==> exists d :: RecordedAgainst(ctx, ctx.localProvides.Keys, path, d)
    ensures forall path, d :: path in r.pathReqMap ==>
      (d in r.pathReqMap[path] <==> RecordedAgainst(ctx, ctx.localProvides.Keys, path, d))
  {
    var acc := Progress({}, [], map[], {});
    var todo := ctx.localProvides.Keys;
    ghost var done: set<Capability> := {};
    assert Interpreters(ctx, done) == {};
    while todo != {}
      invariant done !! todo && done + todo == ctx.localProvides.Keys
      invariant Accounts(ctx, done, acc)
      decreases todo
    {
      var dep :| dep in todo;
      acc := ClassifyDep(ctx, done, dep, acc);
      todo := todo - {dep};
      done := done + {dep};
    }
    var missing := AddInterpreterOwners(ctx.db, ctx.declared, acc.interpreters, acc.missing);
    r := Report(missing, acc.choices, acc.pathReqMap);
  }

  // ---------------------------------------------------------------------
  // Properties of the classification

  /** Each provider name contributes at most one candidate, so there are never more candidates than names. */
  lemma {:induction false} CandidatesPerName(e: Enforcer, names: seq<string>, installed: set<string>)
    ensures |Candidates(e, names, installed)| <= |names|
  {
    if names != [] {
      var init, last := names[..|names| - 1], names[|names| - 1];
      assert init + [last] == names;
      CandidatesPerName(e, init, installed);
      CandidatesStep(e, init, last, installed);
      var f := FirstInstalled(ProvidesNames(e, last), installed);
      UnionAtMostOne(Candidates(e, init, installed), if f.Some? then {f.value} else {});
    }
  }

  lemma UnionAtMostOne(a: set<string>, b: set<string>)
    requires |b| <= 1
    ensures |a + b| <= |a| + 1
  {
    assert |a + b| + |a * b| == |a| + |b|;
  }

  /**
   * The soname cascade picks `pkg:devel` when installed, else
   * `pkg:devellib`, else `pkg:lib`, else nothing.
   */
  lemma SonameFirstInstalled(pkg: string, installed: set<string>)
    requires ':' !in pkg
    ensures FirstInstalled(ProvidesNames(EnforceSoname, pkg + ":lib"), installed) ==
      if pkg + ":devel" in installed then Some(pkg + ":devel")
      else if pkg + ":devellib" in installed then Some(pkg + ":devellib")
      else if pkg + ":lib" in installed then Some(pkg + ":lib")
      else None
  {
    SonameCascade(pkg);
    var cands := [pkg + ":devel", pkg + ":devellib", pkg + ":lib"];
    assert cands[1..] == [pkg + ":devellib", pkg + ":lib"];
    assert cands[1..][1..] == [pkg + ":lib"];
    assert cands[1..][1..][1..] == [];
    assert FirstInstalled(cands[1..][1..], installed) ==
      if pkg + ":lib" in installed then Some(pkg + ":lib") else None;
    assert FirstInstalled(cands[1..], installed) ==
      if pkg + ":devellib" in installed then Some(pkg + ":devellib") else FirstInstalled(cands[1..][1..], installed);
    assert FirstInstalled(cands, installed) ==
      if pkg + ":devel" in installed then Some(pkg + ":devel") else FirstInstalled(cands[1..], installed);
  }

  /**
   * Every name suggested, alone or in a choice group, survived the
   * exceptions, is installed, and is undeclared; every choice group has at
   * least two members.
   */
  lemma SuggestionsAreUndeclared(ctx: Context, done: set<Capability>)
    ensures forall c :: c in SingleMissing(ctx, done) ==>
      c !in ctx.declared && c in ctx.db.installed && !Excepted(c, ctx.literals, ctx.patterns, ctx.reMatch)
    ensures forall s :: s in ChoiceSets(ctx, done) ==> |s| >= 2
    ensures forall s, c :: s in ChoiceSets(ctx, done) && c in s ==>
      c !in ctx.declared && c in ctx.db.installed && !Excepted(c, ctx.literals, ctx.patterns, ctx.reMatch)
  {
    forall d, c | d in ctx.localProvides && c in Found(ctx, d)
      ensures c in ctx.db.installed
    {
      var names := ctx.localProvides[d];
      var n :| n in names && FirstInstalled(ProvidesNames(ctx.enforcer, n), ctx.db.installed) == Some(c);
    }
  }

  /** A dependency one of whose found candidates is declared contributes nothing to the report. */
  lemma DeclaredCandidateSilences(ctx: Context, done: set<Capability>, d: Capability, c: string)
    requires d in ctx.localProvides && c in Found(ctx, d) && c in ctx.declared
    ensures !Reported(ctx, d)
    ensures Found(ctx, d) !in ChoiceSets(ctx, done) || exists d' :: d' in done && d' != d && d' in ctx.localProvides && Reported(ctx, d') && Found(ctx, d') == Found(ctx, d)
    ensures forall path :: !RecordedAgainst(ctx, done, path, d)
  {
  }

  // ---------------------------------------------------------------------
  // End-to-end scenarios

  /** No exceptions, no declared build requirements, no packaged files. */
  function PlainContext(e: Enforcer, db: Db, declared: set<string>, lp: map<Capability, seq<string>>): Context {
    Context(e, db, {}, {}, (p, s) => false, declared, map[], lp)
  }

  const LibFoo: Capability := Capability(SonameClass, "libfoo.so.1", {})

  /** A database where `pkg:lib` provides libfoo.so.1 and both `pkg:lib` and `pkg:devel` are installed. */
  function FooDb(pkg: string): Db {
    Db(map[LibFoo := [pkg + ":lib"]], {pkg + ":lib", pkg + ":devel"}, map[], (l: seq<DepSet>) => map[])
  }

  /** Found for a single provider name with no exceptions is the cascade's choice. */
  lemma FoundSingleProvider(ctx: Context, d: Capability, n: string, c: string)
    requires d in ctx.localProvides && ctx.localProvides[d] == [n]
    requires ctx.literals == {} && ctx.patterns == {}
    requires FirstInstalled(ProvidesNames(ctx.enforcer, n), ctx.db.installed) == Some(c)
    ensures Found(ctx, d) == {c}
  {
    assert Candidates(ctx.enforcer, [n], ctx.db.installed) == {c};
  }

  /** With a single dependency, its found set is either the definite addition, one choice group, or silent. */
  lemma SoleDependency(ctx: Context, d: Capability)
    requires d in ctx.localProvides
    ensures SingleMissing(ctx, {d}) == if Reported(ctx, d) && |Found(ctx, d)| == 1 then Found(ctx, d) else {}
    ensures ChoiceSets(ctx, {d}) == if Reported(ctx, d) && |Found(ctx, d)| > 1 then {Found(ctx, d)} else {}
  {
    SoleSingleMissing(ctx, d);
    SoleChoiceSets(ctx, d);
  }

  lemma SoleSingleMissing(ctx: Context, d: Capability)
    requires d in ctx.localProvides
    ensures SingleMissing(ctx, {d}) == if Reported(ctx, d) && |Found(ctx, d)| == 1 then Found(ctx, d) else {}
  {
    var f := Found(ctx, d);
    if Reported(ctx, d) && |f| == 1 {
      assert forall c :: c in SingleMissing(ctx, {d}) <==> c in f;
    } else {
      assert forall c :: c !in SingleMissing(ctx, {d});
    }
  }

  lemma SoleChoiceSets(ctx: Context, d: Capability)
    requires d in ctx.localProvides
    ensures ChoiceSets(ctx, {d}) == if Reported(ctx, d) && |Found(ctx, d)| > 1 then {Found(ctx, d)} else {}
  {
    if Reported(ctx, d) && |Found(ctx, d)| > 1 {
      assert forall s :: s in ChoiceSets(ctx, {d}) <==> s == Found(ctx, d);
    } else {
      assert forall s :: s !in ChoiceSets(ctx, {d});
    }
  }

  /** A lone dependency with one undeclared candidate and no packaged files yields exactly that addition. */
  lemma SoleDefiniteAddition(ctx: Context, d: Capability, c: string)
    requires d in ctx.localProvides && ctx.localProvides.Keys == {d}
    requires Found(ctx, d) == {c} && c !in ctx.declared && ctx.pathMap == map[]
    ensures SingleMissing(ctx, ctx.localProvides.Keys) == {c}
    ensures ChoiceSets(ctx, ctx.localProvides.Keys) == {}
    ensures Interpreters(ctx, ctx.localProvides.Keys) == {}
  {
    SoleDependency(ctx, d);
  }

  /** A package whose only gap dependency is libfoo.so.1, provided by `pkg:lib`. */
  function FooContext(pkg: string, declared: set<string>): Context {
    PlainContext(EnforceSoname, FooDb(pkg), declared, map[LibFoo := [pkg + ":lib"]])
  }

  /** libfoo.so.1 resolves to `pkg:devel` when `pkg:lib` and `pkg:devel` are installed. */
  lemma FooFound(pkg: string, declared: set<string>)
    requires ':' !in pkg
    ensures Found(FooContext(pkg, declared), LibFoo) == {pkg + ":devel"}
    ensures FooContext(pkg, declared).localProvides.Keys == {LibFoo}
  {
    var ctx := FooContext(pkg, declared);
    SonameFirstInstalled(pkg, ctx.db.installed);
    FoundSingleProvider(ctx, LibFoo, pkg + ":lib", pkg + ":devel");
  }

  /**
   * With foo:lib and foo:devel installed and nothing declared, the package
   * is told to add foo:devel (for any package name in place of foo).
   */
  lemma ScenarioDevelPreferred(pkg: string)
    requires ':' !in pkg
    ensures SingleMissing(FooContext(pkg, {}), {LibFoo}) == {pkg + ":devel"}
    ensures ChoiceSets(FooContext(pkg, {}), {LibFoo}) == {}
    ensures Interpreters(FooContext(pkg, {}), {LibFoo}) == {}
  {
    FooFound(pkg, {});
    SoleDefiniteAddition(FooContext(pkg, {}), LibFoo, pkg + ":devel");
  }

  /**
   * The same package with foo:lib declared is still told to add foo:devel:
   * only the first installed cascade name is a candidate, and it is not declared.
   */
  lemma ScenarioDeclaredLibStillReported(pkg: string)
    requires ':' !in pkg
    ensures SingleMissing(FooContext(pkg, {pkg + ":lib"}), {LibFoo}) == {pkg + ":devel"}
  {
    assert |pkg + ":devel"| != |pkg + ":lib"|;
    FooFound(pkg, {pkg + ":lib"});
    SoleDefiniteAddition(FooContext(pkg, {pkg + ":lib"}), LibFoo, pkg + ":devel");
  }

  /**
   * Two undeclared installed components providing the same dependency give
   * one choice group and no definite addition.
   */
  lemma ScenarioChoiceGroup()
    ensures var d := Capability(PerlClass, "Bar::Util", {});
      var db := Db(map[d := ["bar:runtime", "bar:extras"]], {"bar:runtime", "bar:extras"}, map[], (l: seq<DepSet>) => map[]);
      var ctx := PlainContext(EnforcePerl, db, {}, map[d := ["bar:runtime", "bar:extras"]]);
      ChoiceSets(ctx, ctx.localProvides.Keys) == {{"bar:runtime", "bar:extras"}} &&
      SingleMissing(ctx, ctx.localProvides.Keys) == {}
  {
    var d := Capability(PerlClass, "Bar::Util", {});
    var db := Db(map[d := ["bar:runtime", "bar:extras"]], {"bar:runtime", "bar:extras"}, map[], (l: seq<DepSet>) => map[]);
    var ctx := PlainContext(EnforcePerl, db, {}, map[d := ["bar:runtime", "bar:extras"]]);
    var names := ["bar:runtime", "bar:extras"];
    assert Candidates(EnforcePerl, names, db.installed) == {"bar:runtime", "bar:extras"} by {
      assert FirstInstalled(ProvidesNames(EnforcePerl, "bar:runtime"), db.installed) == Some("bar:runtime");
      assert FirstInstalled(ProvidesNames(EnforcePerl, "bar:extras"), db.installed) == Some("bar:extras");
    }
    assert Found(ctx, d) == {"bar:runtime", "bar:extras"};
    assert |Found(ctx, d)| == 2;
    assert ctx.localProvides.Keys == {d};
    SoleDependency(ctx, d);
  }

  // ---------------------------------------------------------------------
  // The policy object

  /**
   * One build-requirement enforcer: the fields preProcess and test set,
   * and do(), which reads them.
   */
  class BuildReqEnforcer {
    const enforcer: Enforcer
    const recipe: Recipe
    const db: Db
    const reMatch: (string, string) -> bool
    var exceptions: seq<string>
    var compExceptions: set<string>
    var compReExceptions: set<string>
    var truncatedBuildRequires: set<string>
    var depSet: DepSet
    var localProvides: map<Capability, seq<string>>
    var unprovided: DepSet

    constructor (enforcer: Enforcer, recipe: Recipe, db: Db, reMatch: (string, string) -> bool, exceptions: seq<string>)
      ensures this.enforcer == enforcer && this.recipe == recipe && this.db == db && this.reMatch == reMatch
      ensures this.exceptions == exceptions
      ensures compExceptions == {} && compReExceptions == {} && truncatedBuildRequires == {}
      ensures depSet == {} && localProvides == map[] && unprovided == {}
    {
      this.enforcer, this.recipe, this.db, this.reMatch := enforcer, recipe, db, reMatch;
      this.exceptions := exceptions;
      compExceptions, compReExceptions, truncatedBuildRequires := {}, {}, {};
      depSet, localProvides, unprovided := {}, map[], {};
    }

    /** preProcess(), lines 31-61. */
    method PreProcess()
      modifies this
      ensures exceptions == []
      ensures forall e :: e in compExceptions <==> e in old(exceptions) && LooksLikeComponent(e)
      ensures forall e :: e in compReExceptions <==> e in old(exceptions) && !LooksLikeComponent(e)
      ensures truncatedBuildRequires == DeclaredNames(recipe.buildRequires, recipe.buildReqMap)
      ensures forall d :: d in depSet <==> RequiredBy(recipe.components, d) && !ProvidedBy(recipe.components, d)
      ensures localProvides == old(localProvides) && unprovided == old(unprovided)
    {
      compExceptions, compReExceptions := PartitionExceptions(exceptions);
      exceptions := [];
      truncatedBuildRequires := DeclaredNames(recipe.buildRequires, recipe.buildReqMap);
      depSet := ComputeGap(recipe.components);
    }

    /** test(), lines 63-79: applicable when the gap has dependencies of the enforcer's class. */
    method Test() returns (applicable: bool)
      modifies this`localProvides, this`unprovided
      ensures applicable <==> ClassDeps(depSet, enforcer) != {}
      ensures applicable ==> localProvides == LocalProvides(db, ClassDeps(depSet, enforcer))
      ensures applicable ==> unprovided == Unprovided(db, ClassDeps(depSet, enforcer))
      ensures !applicable ==> localProvides == old(localProvides) && unprovided == old(unprovided)
    {
      var localDeps := ClassDeps(depSet, enforcer);
      if localDeps == {} {
        return false;
      }
      localProvides := LocalProvides(db, localDeps);
      unprovided := Unprovided(db, localDeps);
      return true;
    }

    function CurrentContext(): Context
      reads this
    {
      Context(enforcer, db, compExceptions, compReExceptions, reMatch,
              truncatedBuildRequires, recipe.pathMap, localProvides)
    }

    /** do(), lines 92-191: the report and the dependencies nothing installed provides. */
    method Do() returns (report: Report, unresolved: DepSet)
      ensures report.missing == SingleMissing(CurrentContext(), localProvides.Keys) +
        InterpreterOwners(db, truncatedBuildRequires, Interpreters(CurrentContext(), localProvides.Keys))
      ensures NoDuplicateSets(report.choices)
      ensures forall s :: s in report.choices <==> s in ChoiceSets(CurrentContext(), localProvides.Keys)
      ensures forall path :: path in report.pathReqMap <==>
        exists d :: RecordedAgainst(CurrentContext(), localProvides.Keys, path, d)
      ensures forall path, d :: path in report.pathReqMap ==>
        (d in report.pathReqMap[path] <==> RecordedAgainst(CurrentContext(), localProvides.Keys, path, d))
      ensures unresolved == unprovided
    {
      report := Classify(CurrentContext());
      unresolved := unprovided;
    }
  }
}
