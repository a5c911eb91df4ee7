# conary-policy build-requirement enforcement and manifest parsing, in Dafny

This project models two parts of conary-policy. The first is the
build-requirement enforcers of `policy/enforcebuildreqs.py`. The second is
the RPM manifest parser of `policy/manifest.py`.

**The generic enforcer** is shared by the soname, Python, Java, CIL and
Perl policies (`EnforceBuildReqs`). It works in three steps:
- preProcess splits the exceptions into literal `pkg:comp` names and
  patterns. It collects the declared build requirements, and computes the
  package's dependency gap: everything its components require minus
  everything they provide.
- test keeps the gap dependencies of the enforcer's class, and resolves
  them to provider names through the installed-system database.
- do resolves each dependency to candidate troves through the
  providesNames cascade. The soname policy prefers `:devel`, then
  `:devellib`, then `:lib`. It removes the excepted candidates and
  classifies the dependency:
  - a definite missing build requirement, when there is one candidate;
  - a choice group, when there are several;
  - silent, when nothing was found or a candidate is declared.

  It then correlates reported dependencies with the packaged files that
  need them. Finally it adds the undeclared owners of the interpreters of
  scripts.

The policy objects are classes whose fields the methods update. Each loop
of the source is a method proved against a specification function. The
central invariant is `Accounts`. It says the accumulators hold exactly what
the dependencies processed so far contribute, and every iteration of the
classification loop preserves it.

**The config.log enforcer** (`ConfigLog`) has four parts:
- a concrete matcher for the found-line expression
  `^[^ ]+: found (/([^ ]+)?bin/[^ ]+)\n$`, proved equal to a declarative
  description of the expression;
- the split of exceptions into paths and components;
- the greylist, whose entries are suppressed unless a sibling file
  corroborates them;
- the final report, which is the owners of the surviving paths minus the
  component exceptions, the declared build requirements and their run-time
  closure.

**ParseManifest** (`Manifest`, `ManifestLines`) parses each line as a pure
function into a list of recipe actions (MakeDevices, setModes, Ownership)
or an error. `processPath` and `do` are loops over lines and paths, proved
against the functions `RunPath` and `RunPaths`. Round-trip lemmas render
well-formed device, directory and file lines and show that the parser reads
them back. Rejection lemmas show which malformed lines raise, and which
error they raise.

`Text` and `Numbers` model the few Python string and integer functions the
parser uses: `strip`, `lstrip(chars)`, `split`, `join`, `replace`, `int(s)`
and `int(s, 0)`. `Conary` holds the collaborators as plain data: the
capability, the recipe, the packaged files and the database.

Some behaviour follows from the code and may surprise a reader of the
policies' descriptions:
- A dependency whose filtered candidate set is empty is dropped silently.
  Only dependencies with no provider at all are listed as unresolved.
- Only the first installed name of the soname cascade is a candidate. So
  with `foo:lib` and `foo:devel` installed and `foo:lib` declared, the
  package is still told to add `foo:devel`.
  `ScenarioDeclaredLibStillReported` proves this.
- Files are correlated with a dependency only when it is reported.
  Interpreters are collected for every dependency in `localProvides`,
  that is, every one some installed trove provides, and their owners
  bypass the exceptions.
- The greylist values are one-shot generators. Once one `config.log` has
  consulted an entry, that path found in any later log is suppressed.
  `ConsultedEntrySuppressesLater` proves this.
- The bison entry's `configure.ac` pattern is `AC_PROC_YACC` as written.
- The ParseManifest docstring says `%defattr` lines are ignored
  (`policy/manifest.py:47-49`). In the code, `lstrip('%attr(')` removes
  only the `%`, so `int(perms, 0)` raises ValueError on them.
  `DefattrRejected` proves this.
- A `-` permission on a plain file line raises ValueError, and a blank
  line raises IndexError.

## Model

| member | source | states |
|---|---|---|
| EnforceBuildReqs.LooksLikeComponentIsMatch | policy/enforcebuildreqs.py:34-38 | the literal-exception recogniser holds exactly when `[a-zA-Z0-9]+:[a-zA-Z0-9]+` matches at the start of the string |
| EnforceBuildReqs.PartitionExceptions | policy/enforcebuildreqs.py:35-41 | an exception is a literal iff it looks like `pkg:comp` and a pattern iff it does not, so each lands in exactly one set |
| EnforceBuildReqs.ComputeGap | policy/enforcebuildreqs.py:52-59 | a dependency is in the gap iff some component requires it and no component provides it |
| EnforceBuildReqs.BuildReqEnforcer.constructor | policy/enforcebuildreqs.py:31-42 | the policy starts with the given exceptions and empty derived fields |
| EnforceBuildReqs.BuildReqEnforcer.PreProcess | policy/enforcebuildreqs.py:31-61 | the exceptions are consumed into the literal and pattern sets; the declared names are those of the specs the recipe resolved; the gap is required-minus-provided |
| EnforceBuildReqs.BuildReqEnforcer.Test | policy/enforcebuildreqs.py:63-79 | the policy applies iff the gap has dependencies of its class; then localProvides maps each to its provider names and unprovided holds those with no provider |
| EnforceBuildReqs.SonameCascade | policy/enforcebuildreqs.py:240-242 | the soname cascade of `pkg:lib` is `pkg:devel`, `pkg:devellib`, `pkg:lib`, in that order |
| EnforceBuildReqs.SonameCascadeWithoutLib | policy/enforcebuildreqs.py:240-242 | a name without `:lib` yields itself three times |
| EnforceBuildReqs.SonameFirstInstalled | policy/enforcebuildreqs.py:106-110 | the soname candidate is `:devel` if installed, else `:devellib`, else `:lib`, else none |
| EnforceBuildReqs.FirstInstalled | policy/enforcebuildreqs.py:107-110 | the chosen candidate is the first installed cascade name, and there is none exactly when no cascade name is installed |
| EnforceBuildReqs.FindCandidates | policy/enforcebuildreqs.py:105-110 | the candidates are the first installed cascade name of each provider name |
| EnforceBuildReqs.CandidatesStep | policy/enforcebuildreqs.py:106-110 | one more provider name adds at most its own first installed cascade name |
| EnforceBuildReqs.CandidatesPerName | policy/enforcebuildreqs.py:106-110 | there are never more candidates than provider names |
| EnforceBuildReqs.ApplyExceptions | policy/enforcebuildreqs.py:111-114 | a candidate survives iff it is found, is no literal exception, and no pattern matches at its start |
| EnforceBuildReqs.AppendIfAbsent | policy/enforcebuildreqs.py:121-127 | the choice group is appended iff no equal set is already listed, so a duplicate-free list stays duplicate-free |
| EnforceBuildReqs.CorrelateFiles | policy/enforcebuildreqs.py:133-139 | `d` is appended to the entry of exactly the files with contents that require it; other entries are unchanged |
| EnforceBuildReqs.CollectInterpreters | policy/enforcebuildreqs.py:147-155 | adds the non-empty interpreter of every script with contents that requires `d` |
| EnforceBuildReqs.AddInterpreterOwners | policy/enforcebuildreqs.py:157-165 | adds every undeclared owner of every interpreter |
| EnforceBuildReqs.ReportedWhenNoneDeclared | policy/enforcebuildreqs.py:116-117 | "found and every found candidate missing" is the same as "found and none declared" |
| EnforceBuildReqs.ClassifyDep | policy/enforcebuildreqs.py:101-155 | one iteration of the main loop preserves the accounting invariant with `d` added to the processed set |
| EnforceBuildReqs.StepAccounts | policy/enforcebuildreqs.py:116-155 | what one dependency adds to the missing set, the choices, pathReqMap and the interpreters keeps the accounting invariant |
| EnforceBuildReqs.StepMissing | policy/enforcebuildreqs.py:128-129 | a dependency adds its found set to missingBuildRequires iff it is reported with at most one candidate |
| EnforceBuildReqs.StepChoices | policy/enforcebuildreqs.py:121-127 | a dependency adds its found set as a choice group iff it is reported with several candidates |
| EnforceBuildReqs.StepPathReqMap | policy/enforcebuildreqs.py:133-139 | after a dependency, a path is in pathReqMap iff it is recorded against some reported dependency, and lists exactly those |
| EnforceBuildReqs.StepInterpreters | policy/enforcebuildreqs.py:147-155 | a dependency adds the interpreters of exactly the scripts that require it |
| EnforceBuildReqs.Classify | policy/enforcebuildreqs.py:92-165 | the report's missing set is the singly-found reported names plus the undeclared interpreter owners; the choices are the multi-candidate reported sets, each once; pathReqMap lists for each path exactly the reported dependencies it requires |
| EnforceBuildReqs.BuildReqEnforcer.Do | policy/enforcebuildreqs.py:92-191 | the same report over the policy's fields, and the unresolved list is exactly the dependencies with no provider |
| EnforceBuildReqs.SuggestionsAreUndeclared | policy/enforcebuildreqs.py:111-129 | every suggested name is installed, undeclared and not excepted, and every choice group has at least two names |
| EnforceBuildReqs.DeclaredCandidateSilences | policy/enforcebuildreqs.py:116-117 | a dependency with a declared candidate is not reported, adds no choice group of its own and records no file |
| EnforceBuildReqs.SoleDependency | policy/enforcebuildreqs.py:117-129 | a single dependency is a definite addition, one choice group, or silent, by its candidate count |
| EnforceBuildReqs.SoleDefiniteAddition | policy/enforcebuildreqs.py:117-129 | a lone dependency with one undeclared candidate and no files yields exactly that addition |
| EnforceBuildReqs.FoundSingleProvider | policy/enforcebuildreqs.py:105-114 | with one provider name and no exceptions, the found set is the cascade's choice |
| EnforceBuildReqs.FooFound | policy/enforcebuildreqs.py:106-110 | libfoo.so.1 provided by `pkg:lib` resolves to `pkg:devel` when both are installed |
| EnforceBuildReqs.ScenarioDevelPreferred | policy/enforcebuildreqs.py:233-242 | with nothing declared the package is told to add `pkg:devel`, with no choice group and no interpreter |
| EnforceBuildReqs.ScenarioDeclaredLibStillReported | policy/enforcebuildreqs.py:116-129 | declaring `pkg:lib` does not silence the report: `pkg:devel` is still suggested |
| EnforceBuildReqs.ScenarioChoiceGroup | policy/enforcebuildreqs.py:121-127 | two installed undeclared providers give one choice group and no definite addition |
| ConfigLog.FoundPathSound | policy/enforcebuildreqs.py:446 | whatever the matcher returns is group 1 of a line of the form `<non-spaces>: found <group>\n` |
| ConfigLog.FoundPathComplete | policy/enforcebuildreqs.py:446 | every line of that form yields its group |
| ConfigLog.FoundPathSpec | policy/enforcebuildreqs.py:468-472 | foundPath returns `g` iff the line matches the expression with `g` as group 1 |
| ConfigLog.FoundPathExample | policy/enforcebuildreqs.py:468-472 | `<location>: found /usr/bin/bison` yields `/usr/bin/bison` |
| ConfigLog.LogPathsSpec | policy/enforcebuildreqs.py:478-480 | a path is collected from a log iff some line is a found record for it and it is not a path exception |
| ConfigLog.SplitExceptions | policy/enforcebuildreqs.py:457-463 | an exception is a path exception iff it contains '/', and a component exception otherwise |
| ConfigLog.GreyDictOfSpec | policy/enforcebuildreqs.py:450-452 | the dictionary's keys are the greylist's suspects, each mapped to the corroborators of its last entry |
| ConfigLog.BuildGreyDict | policy/enforcebuildreqs.py:448-452 | the loop builds that dictionary |
| ConfigLog.DefaultGreyDict | policy/enforcebuildreqs.py:431-440 | the shipped greylist gives three distinct suspects; makedepend has no corroborators |
| ConfigLog.Corroborate | policy/enforcebuildreqs.py:486-492 | the match flag is set iff some corroborator's sibling file exists and has a line its pattern matches |
| ConfigLog.FilterGreylist | policy/enforcebuildreqs.py:484-496 | keeps exactly the unlisted paths and the corroborated greylisted ones, and exhausts the generators of the listed paths it saw |
| ConfigLog.GreylistContract | policy/enforcebuildreqs.py:484-496 | an unlisted path is kept; an entry with no corroborators always suppresses; otherwise a path is kept iff a sibling exists with a matching line |
| ConfigLog.ConsultedEntrySuppressesLater | policy/enforcebuildreqs.py:452 | once a log consulted an entry, the same path in any later log is suppressed |
| ConfigLog.KeptPathsBounds | policy/enforcebuildreqs.py:484-496 | filtering only removes paths, and only greylisted ones |
| ConfigLog.SiblingBeside | policy/enforcebuildreqs.py:488 | when "config.log" occurs in the path only at its end, the sibling of `dir/config.log` is the named file beside it |
| ConfigLog.ScenarioBisonUncorroborated | policy/enforcebuildreqs.py:437-439 | bison with neither configure.ac nor configure.in beside the log is suppressed |
| ConfigLog.ScenarioBisonCorroborated | policy/enforcebuildreqs.py:437-439 | bison with a configure.ac line the pattern matches is kept |
| ConfigLog.FirstUnresolved | policy/enforcebuildreqs.py:505-507 | finds the first declared spec the recipe did not resolve, and none iff every spec resolves |
| ConfigLog.TransitiveBuildRequires | policy/enforcebuildreqs.py:504-512 | an unresolved spec raises KeyError; otherwise the result is the declared names plus every name in the closure |
| ConfigLog.Suggest | policy/enforcebuildreqs.py:516-529 | per-path suggestions are the non-empty owner sets minus the exceptions and the closure; the coalesced set is every excepted-free owner outside the closure |
| ConfigLog.CoalescedIsUnionOfPerPath | policy/enforcebuildreqs.py:516-529 | the coalesced suggestion is the union of the per-path ones and names no exception and nothing in the closure |
| ConfigLog.ReportMissing | policy/enforcebuildreqs.py:499-532 | no found paths gives an empty report; an unresolved spec raises; otherwise the report is as Suggest states over the transitive names |
| ConfigLog.DeclaredNeverSuggested | policy/enforcebuildreqs.py:505-507 | every declared build requirement is in the transitive set, so it is never suggested |
| ConfigLog.ScenarioOwnerSuggested | policy/enforcebuildreqs.py:517-524 | a kept path owned by one trove, with nothing declared, suggests that trove |
| ConfigLog.ConfigLogEnforcer.constructor | policy/enforcebuildreqs.py:431-440 | the policy starts with the shipped greylist, the given exceptions and empty fields |
| ConfigLog.ConfigLogEnforcer.Test | policy/enforcebuildreqs.py:442-443 | the policy applies iff dependency checking is not switched off |
| ConfigLog.ConfigLogEnforcer.PreProcess | policy/enforcebuildreqs.py:445-466 | no found paths yet; the dictionary built from the greylist; exceptions split by '/', with the package's own component names added to the component exceptions |
| ConfigLog.ConfigLogEnforcer.DoFile | policy/enforcebuildreqs.py:474-497 | the found paths grow by the log's kept paths, and the consulted greylist entries are exhausted |
| ConfigLog.ConfigLogEnforcer.PostProcess | policy/enforcebuildreqs.py:499-538 | the report over the accumulated found paths, as ReportMissing states |
| Manifest.ParseManifest.constructor | policy/manifest.py:69-71 | a new policy has no paths |
| Manifest.ParseManifest.UpdateArgs | policy/manifest.py:73-79 | the arguments are appended to the paths in order |
| Manifest.ParseManifest.Do | policy/manifest.py:81-83 | processes the paths in order, stopping at the first that raises, as RunPaths states |
| Manifest.RunPathsAppend | policy/manifest.py:77-83 | paths added by successive updateArgs calls run one block after the other; a raising block stops the rest |
| Manifest.ProcessPath | policy/manifest.py:85-119 | the actions issued for one file and the error that stopped it, as RunPath states: a missing file raises, otherwise the lines run in order |
| Manifest.RunResultsFailure | policy/manifest.py:89-119 | a file fails iff some line raises, with the first raising line's error; a file that does not fail parsed every line |
| Manifest.RunResultsAppend | policy/manifest.py:89-119 | running two blocks of lines is running the first, then the second unless the first raised |
| Manifest.ResolvePathSpec | policy/manifest.py:86-87 | an absolute path is unchanged; a relative one is put under the build directory and still ends with the given path |
| ManifestLines.ParseAttrText | policy/manifest.py:93-96 | `%attr(perms,owner,group` reads back as its three fields |
| ManifestLines.AttrSplit | policy/manifest.py:93 | stripping `%attr(` characters and splitting on ',' gives the three fields |
| ManifestLines.DevLineRoundTrip | policy/manifest.py:99-106 | a rendered device line parses to exactly its MakeDevices action, with the octal mode read back |
| ManifestLines.DeviceTarget | policy/manifest.py:99-106 | a `%dev(` field with numeric pieces gives MakeDevices with the stripped third field as target |
| ManifestLines.DirLineIgnored | policy/manifest.py:107-110 | a `%dir` line issues nothing, whatever its permissions say |
| ManifestLines.FileLineActions | policy/manifest.py:111-119 | a plain file line issues setModes iff a set-uid or set-gid bit is set, and Ownership iff owner or group is not root, in that order |
| ManifestLines.TwoFieldLine | policy/manifest.py:90-98 | a line `attributes) rest` parses by its rest alone |
| ManifestLines.NoParenRejected | policy/manifest.py:91-98 | a line without ')' raises IndexError |
| ManifestLines.ShortAttrRejected | policy/manifest.py:93-96 | fewer than three comma-separated attribute fields raise IndexError |
| ManifestLines.BlankLineRejected | policy/manifest.py:90-96 | a blank line raises IndexError |
| ManifestLines.DashPermsFileLineRejected | policy/manifest.py:113-114 | a plain file line with perms "-" raises ValueError |
| ManifestLines.DefattrRejected | policy/manifest.py:93-114 | a `%defattr(perms,owner,group)` line raises ValueError |
| ManifestLines.SetIdExamples | policy/manifest.py:114 | 04755, 02755 and -1 request set-id bits; 0755 and 01777 do not |
| Numbers.DigitsRoundTrip | policy/manifest.py:105-106 | reading back the digits of `n` gives `n`, and only zero starts with '0' |
| Numbers.ParseIntDigits | policy/manifest.py:105 | `int` reads back every rendered natural number |
| Numbers.ParseIntAutoOctal | policy/manifest.py:106 | `int(s, 0)` reads '0' followed by octal digits as octal |
| Numbers.ParseIntAutoDecimal | policy/manifest.py:114 | `int(s, 0)` reads a number without a leading zero as decimal |
| Numbers.LeadingZeroNotOctal | policy/manifest.py:114 | a leading zero followed by a non-octal digit is rejected |
| Numbers.ParseIntSpacedSign | policy/manifest.py:105 | `int` skips blanks between a minus sign and decimal digits and reads the negated number |
| Numbers.ParseIntAutoSpacedSign | policy/manifest.py:106 | `int(s, 0)` skips blanks between a minus sign and a leading-zero octal body and reads the negated octal number |
| Numbers.LetterNotNumber | policy/manifest.py:114 | a stripped string starting with a letter is no number |
| Text.StripUnchanged | policy/manifest.py:90 | stripping changes nothing iff neither end is whitespace |
| Text.JoinSplit | policy/manifest.py:91 | joining the pieces of a split gives back the string |
| Text.SplitJoin | policy/manifest.py:91 | splitting joined separator-free pieces gives back the pieces |
| Text.SplitCount | policy/manifest.py:91 | a split yields one more piece than there are separators |
| Text.ReplaceSuffix | policy/enforcebuildreqs.py:240-241 | replacing a pattern that occurs only as the suffix rewrites the suffix and keeps the head |
| Text.ReplaceAbsent | policy/enforcebuildreqs.py:240-241 | replacement changes nothing when the pattern does not occur |

## Left out

- The installed-system database is not modelled as behaviour. This covers `getTrovesWithProvides`, `hasTroveByName`, `iterTrovesByPath` and `getTransitiveProvidesClosure`. They are given data: the providers map, the installed set, the owners map and the closure function.
- File contents and existence are a map from path to lines. Reading a file, `os.path.exists` and `open` are lookups in it. A directory at a sibling path is not distinguished from a file.
- Exception and greylist patterns are matched by a given `reMatch(pattern, s)`. It stands for `re.match` with a general regular-expression engine. A pattern that fails to compile is not modelled.
- Macro interpolation with `% macros` is not modelled. Exceptions, greylist paths and patterns are taken as already expanded.
- setTalk, warn, error and the text and order of the messages are not modelled. The model keeps what the messages are about: the missing set, the choice groups, pathReqMap and the per-path suggestions.
- `magic.script` detection is not modelled. Each file record carries its magic.
- The `reportMissingBuildRequires` hook and its AttributeError fallback are not modelled. So are `postProcess` deleting the database, and the setModes, MakeDevices and Ownership recipe calls. The model returns the actions instead of performing them.
- `util.literalRegex` escaping of the target is not modelled. Manifest.ParseFile's SetModes and Ownership carry the literal target path.
- The Python, Java, CIL and Perl enforcers differ from the generic one only in their dependency class and in setTalk. They are the `Enforcer` values other than `EnforceSoname`.
- policy/stubs.py is not part of this model. Its stub policies only warn, forward or return False.
- Numbers.ParseIntAuto models Python 2's `int(s, 0)` for signed decimal and leading-zero octal only. The `0x`, `0o` and `0b` prefixes are rejected, although Python 2.6 and later accept them.
- ConfigLog.ConfigLogEnforcer.DoFile requires the log to exist. The policy only visits files found under the build directory.
- EnforceBuildReqs.BuildReqEnforcer.Do returns the report instead of sorting and printing it.
- Both classes iterate sets and maps in an unspecified order. The order in which Python visits them affects only the order of the warnings and of the choice list, and the contracts state both order-free.
