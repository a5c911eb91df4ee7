/**
 * ParseManifest: reads RPM manifest files (such as MAKEDEV output) and turns
 * each `%attr(perms,owner,group) ...` line into recipe actions: a device
 * node for `%dev(type,major,minor) target`, nothing for `%dir`, and for any
 * other target a mode change when set-uid or set-gid bits are requested and
 * an ownership change when the owner or group is not root.
 */
module Manifest {
  import opened Wrappers
  import opened Text
  import opened Numbers

  /** The recipe actions a manifest line can issue; targets are literal paths. */
  datatype Action =
    | MakeDevices(target: string, devtype: string, major: int, minor: int, owner: string, group: string, perms: int)
    | SetModes(perms: int, target: string)
    | Ownership(owner: string, group: string, target: string)

  /** IndexError on a missing field, ValueError on a bad number, and a manifest file that cannot be opened. */
  datatype ManifestError = MissingField | BadNumber | NoSuchFile(path: string)

  /** The character set `lstrip('%attr(')` removes. */
  const AttrChars: set<char> := {'%', 'a', 't', 'r', '('}

  /** perms, owner and group as written, each stripped. */
  datatype Attr = Attr(perms: string, owner: string, group: string)

  /** Lines 93-96: the text before the first ')' with leading `%attr(` characters dropped, split on ','. */
  function ParseAttr(field: string): Result<Attr, ManifestError> {
    var attr := Split(LStripChars(field, AttrChars), ',');
    if |attr| < 3 then Failure(MissingField)
    else Success(Attr(Strip(attr[0]), Strip(attr[1]), Strip(attr[2])))
  }

  /** `mode & 06000`: bit 10 (set-gid) or bit 11 (set-uid) of the two's-complement mode. */
  predicate SetIdBits(mode: int) {
    (mode / 1024) % 4 != 0
  }

  /** Lines 90-91: strip the line and split it on ')'; the rest of the work is ParseFields. */
  function ParseLine(raw: string): Result<seq<Action>, ManifestError> {
    ParseFields(Split(Strip(raw), ')'))
  }

  /** Lines 93-98: the attributes from the first field; a missing attribute or second field raises IndexError. */
  function ParseFields(fields: seq<string>): Result<seq<Action>, ManifestError>
    requires |fields| >= 1
  {
    var attr := ParseAttr(fields[0]);
    if attr.Failure? || |fields| < 2 then Failure(MissingField)
    else ParseTarget(attr.value, Strip(fields[1]), fields[2..])
  }

  /** Lines 99-119: the stripped second field selects a device, a directory, or a plain file. */
  function ParseTarget(a: Attr, f1: string, more: seq<string>): Result<seq<Action>, ManifestError> {
    if "%dev(" <= f1 then ParseDevice(a, Split(f1[5..], ','), more)
    else if "%dir " <= f1 then Success([])
    else ParseFile(a, f1)
  }

  /**
   * Lines 100-106: type, major and minor from the `%dev(` text, the target
   * from the third field; missing pieces raise IndexError before any number
   * is converted, then a bad major, minor or mode raises ValueError.
   */
  function ParseDevice(a: Attr, dev: seq<string>, more: seq<string>): Result<seq<Action>, ManifestError> {
    if |dev| < 3 || |more| < 1 then Failure(MissingField)
    else
      var major, minor, mode := ParseInt(dev[1]), ParseInt(dev[2]), ParseIntAuto(a.perms);
      if major.None? || minor.None? || mode.None? then Failure(BadNumber)
      else Success([MakeDevices(Strip(more[0]), dev[0], major.value, minor.value, a.owner, a.group, mode.value)])
  }

  /** Lines 113-119: setModes when a set-id bit is asked for, then Ownership when not root:root. */
  function ParseFile(a: Attr, target: string): Result<seq<Action>, ManifestError> {
    var mode := ParseIntAuto(a.perms);
    if mode.None? then Failure(BadNumber)
    else
      Success((if SetIdBits(mode.value) then [SetModes(mode.value, target)] else []) +
              (if a.owner != "root" || a.group != "root" then [Ownership(a.owner, a.group, target)] else []))
  }

  // ---------------------------------------------------------------------
  // Files and the paths accumulated by updateArgs

  /** What running the parser issued before it finished or raised. */
  datatype Outcome = Outcome(issued: seq<Action>, failure: Option<ManifestError>)

  /** `acts` issued first, then whatever `o` issued and raised. */
  function Then(acts: seq<Action>, o: Outcome): Outcome {
    Outcome(acts + o.issued, o.failure)
  }

  lemma ThenNothing(o: Outcome)
    ensures Then([], o) == o
  {
  }

  lemma ThenThen(a: seq<Action>, b: seq<Action>, o: Outcome)
    ensures Then(a, Then(b, o)) == Then(a + b, o)
  {
  }

  /** Each line's parse, in file order. */
  function Parsed(lines: seq<string>): seq<Result<seq<Action>, ManifestError>> {
    seq(|lines|, i requires 0 <= i < |lines| => ParseLine(lines[i]))
  }

  /** Lines 89-119: issue each line's actions in turn, stopping at the first line that raises. */
  function RunResults(results: seq<Result<seq<Action>, ManifestError>>): Outcome {
    if results == [] then Outcome([], None)
    else
      match results[0]
      case Failure(e) => Outcome([], Some(e))
      case Success(acts) => Then(acts, RunResults(results[1..]))
  }

  /**
   * The run fails exactly when some line raises, and then with the error of
   * the first such line; a run that does not fail parsed every line.
   */
  lemma {:induction false} RunResultsFailure(results: seq<Result<seq<Action>, ManifestError>>)
    ensures RunResults(results).failure.None? <==> forall i :: 0 <= i < |results| ==> results[i].Success?
    ensures RunResults(results).failure.Some? ==>
      exists i :: 0 <= i < |results| && results[i] == Failure(RunResults(results).failure.value) &&
        forall j :: 0 <= j < i ==> results[j].Success?
  {
    if results != [] {
      var rest := results[1..];
      RunResultsFailure(rest);
      assert forall i :: 0 < i < |results| ==> results[i] == rest[i - 1];
      if results[0].Success? && RunResults(results).failure.Some? {
        var i :| 0 <= i < |rest| && rest[i] == Failure(RunResults(results).failure.value) &&
          forall j :: 0 <= j < i ==> rest[j].Success?;
        assert results[i + 1] == rest[i];
      }
    }
  }

  /** Running two blocks of lines is running the first, then the second unless the first raised. */
  lemma {:induction false} RunResultsAppend(r1: seq<Result<seq<Action>, ManifestError>>,
                                            r2: seq<Result<seq<Action>, ManifestError>>)
    ensures RunResults(r1 + r2) ==
      if RunResults(r1).failure.Some? then RunResults(r1) else Then(RunResults(r1).issued, RunResults(r2))
  {
    if r1 == [] {
      assert r1 + r2 == r2;
    } else {
      assert (r1 + r2)[0] == r1[0];
      assert (r1 + r2)[1..] == r1[1..] + r2;
      RunResultsAppend(r1[1..], r2);
    }
  }

  /** Line 86-87: a relative manifest path is taken under the build directory. */
  function ResolvePath(builddir: string, path: string): string {
    if "/" <= path then path else builddir + "/" + path
  }

  /** The resolved path ends with the given one, and is absolute whenever the build directory is. */
  lemma ResolvePathSpec(builddir: string, path: string)
    ensures var r := ResolvePath(builddir, path);
      |r| >= |path| && r[|r| - |path|..] == path &&
      (("/" <= builddir || "/" <= path) ==> "/" <= r) &&
      ("/" <= path <==> r == path)
  {
    var r := ResolvePath(builddir, path);
    if !("/" <= path) {
      assert r[|r| - |path|..] == path;
      assert |r| > |path|;
    }
  }

  /** processPath(): open the resolved file, then run its lines. */
  function RunPath(builddir: string, path: string, fs: map<string, seq<string>>): Outcome {
    var full := ResolvePath(builddir, path);
    if full !in fs then Outcome([], Some(NoSuchFile(full))) else RunResults(Parsed(fs[full]))
  }

  /** do(): process each path in order, stopping at the first that raises. */
  function RunPaths(builddir: string, paths: seq<string>, fs: map<string, seq<string>>): Outcome {
    if paths == [] then Outcome([], None)
    else
      var o := RunPath(builddir, paths[0], fs);
      if o.failure.Some? then o else Then(o.issued, RunPaths(builddir, paths[1..], fs))
  }

  /**
   * Paths accumulated over several updateArgs calls are processed in the
   * order supplied: running `p1 + p2` is running `p1`, then `p2` unless `p1` raised.
   */
  lemma {:induction false} RunPathsAppend(builddir: string, p1: seq<string>, p2: seq<string>,
                                          fs: map<string, seq<string>>)
    ensures RunPaths(builddir, p1 + p2, fs) ==
      var o := RunPaths(builddir, p1, fs);
      if o.failure.Some? then o else Then(o.issued, RunPaths(builddir, p2, fs))
  {
    if p1 == [] {
      assert p1 + p2 == p2;
      ThenNothing(RunPaths(builddir, p2, fs));
    } else {
      var p := p1 + p2;
      assert p[0] == p1[0];
      assert p[1..] == p1[1..] + p2;
      var o := RunPath(builddir, p1[0], fs);
      if o.failure.None? {
        var rest := RunPaths(builddir, p1[1..], fs);
        RunPathsAppend(builddir, p1[1..], p2, fs);
        if rest.failure.None? {
          ThenThen(o.issued, rest.issued, RunPaths(builddir, p2, fs));
        }
      }
    }
  }

  /** One step of RunResults, from position `i` on. */
  lemma RunResultsStep(results: seq<Result<seq<Action>, ManifestError>>, i: nat)
    requires i < |results|
    ensures RunResults(results[i..]) ==
      match results[i]
      case Failure(e) => Outcome([], Some(e))
      case Success(acts) => Then(acts, RunResults(results[i + 1..]))
  {
    assert results[i..][1..] == results[i + 1..];
  }

  /** processPath(), lines 85-119: the actions issued for one manifest file, and the error that stopped it. */
  method ProcessPath(builddir: string, path: string, fs: map<string, seq<string>>)
    returns (issued: seq<Action>, failure: Option<ManifestError>)
    ensures Outcome(issued, failure) == RunPath(builddir, path, fs)
  {
    var full := path;
    if !("/" <= path) {
      full := builddir + "/" + path;
    }
    if full !in fs {
      return [], Some(NoSuchFile(full));
    }
    var lines := fs[full];
    ghost var results := Parsed(lines);
    issued, failure := [], None;
    assert results[0..] == results;
    ThenNothing(RunResults(results));
    for i := 0 to |lines|
      invariant RunResults(results) == Then(issued, RunResults(results[i..]))
    {
      var r := ParseLine(lines[i]);
      assert results[i] == r;
      RunResultsStep(results, i);
      if r.Failure? {
        return issued, Some(r.error);
      }
      ThenThen(issued, r.value, RunResults(results[i + 1..]));
      issued := issued + r.value;
    }
    assert results[|lines|..] == [];
  }

  /** One step of RunPaths, from position `i` on. */
  lemma RunPathsStep(builddir: string, paths: seq<string>, i: nat, fs: map<string, seq<string>>)
    requires i < |paths|
    ensures RunPaths(builddir, paths[i..], fs) ==
      var o := RunPath(builddir, paths[i], fs);
      if o.failure.Some? then o else Then(o.issued, RunPaths(builddir, paths[i + 1..], fs))
  {
    assert paths[i..][1..] == paths[i + 1..];
  }

  /** The policy object: the manifest paths collected so far. */
  class ParseManifest {
    const builddir: string
    var paths: seq<string>

    /** __init__(), line 70. */
    constructor (builddir: string)
      ensures this.builddir == builddir && paths == []
    {
      this.builddir := builddir;
      paths := [];
    }

    /** updateArgs(), lines 73-79: positional arguments are appended. */
    method UpdateArgs(args: seq<string>)
      modifies this
      ensures paths == old(paths) + args
    {
      paths := paths + args;
    }

    /** do(), lines 81-83. */
    method Do(fs: map<string, seq<string>>) returns (issued: seq<Action>, failure: Option<ManifestError>)
      ensures Outcome(issued, failure) == RunPaths(builddir, paths, fs)
    {
      issued, failure := [], None;
      assert paths[0..] == paths;
      ThenNothing(RunPaths(builddir, paths, fs));
      for i := 0 to |paths|
        invariant RunPaths(builddir, paths, fs) == Then(issued, RunPaths(builddir, paths[i..], fs))
      {
        var more, err := ProcessPath(builddir, paths[i], fs);
        RunPathsStep(builddir, paths, i, fs);
        if err.Some? {
          return issued + more, err;
        }
        ThenThen(issued, more, RunPaths(builddir, paths[i + 1..], fs));
        issued := issued + more;
      }
      assert paths[|paths|..] == [];
    }
  }
}
