/**
 * Well-formed manifest lines, rendered from their parts, and what the
 * ParseManifest line parser makes of them: each kind of line reads back as
 * the action it describes, and the malformed lines a manifest can hold are
 * rejected with the error Python raises.
 */
module ManifestLines {
  import opened Wrappers
  import opened Text
  import opened Numbers
  import opened Manifest

  /** A field with no whitespace, comma or parenthesis. */
  predicate Token(s: string) {
    forall k :: 0 <= k < |s| ==> !IsSpace(s[k]) && s[k] != ',' && s[k] != ')'
  }

  /** A target: non-empty, no ')', no whitespace at either end. */
  predicate Target(s: string) {
    s != [] && ')' !in s && !IsSpace(s[0]) && !IsSpace(s[|s| - 1])
  }

  /** A mode written in octal with a leading zero, as manifests do. */
  function OctalText(mode: nat): string {
    "0" + Digits(mode, 8)
  }

  /** `%attr(perms,owner,group`, the first ')'-separated field of a line. */
  function AttrText(perms: string, owner: string, group: string): string {
    "%attr(" + Join([perms, owner, group], ',')
  }

  /** `%dev(type,major,minor`, the second field of a device line. */
  function DevText(devtype: string, major: nat, minor: nat): string {
    "%dev(" + Join([devtype, Digits(major, 10), Digits(minor, 10)], ',')
  }

  /** A device line: `%attr(0mode,owner,group) %dev(type,major,minor) target`. */
  function DevLine(mode: nat, owner: string, group: string, devtype: string, major: nat, minor: nat,
                   target: string): string
  {
    Join([AttrText(OctalText(mode), owner, group), " " + DevText(devtype, major, minor), " " + target], ')')
  }

  /** A directory line: `%attr(perms,owner,group) %dir target`. */
  function DirLine(perms: string, owner: string, group: string, target: string): string {
    Join([AttrText(perms, owner, group), " %dir " + target], ')')
  }

  /** A plain file line: `%attr(perms,owner,group) target`. */
  function FileLine(perms: string, owner: string, group: string, target: string): string {
    Join([AttrText(perms, owner, group), " " + target], ')')
  }

  lemma DigitsToken(n: nat, base: nat)
    requires 2 <= base <= 10
    ensures Token(Digits(n, base))
  {
    var d := Digits(n, base);
    forall k | 0 <= k < |d|
      ensures !IsSpace(d[k]) && d[k] != ',' && d[k] != ')'
    {
      assert IsDigit(d[k], base);
    }
  }

  lemma OctalToken(mode: nat)
    ensures Token(OctalText(mode)) && OctalText(mode)[0] !in AttrChars
  {
    var d := Digits(mode, 8);
    var s := OctalText(mode);
    DigitsToken(mode, 8);
    forall k | 1 <= k < |s|
      ensures !IsSpace(s[k]) && s[k] != ',' && s[k] != ')'
    {
      assert s[k] == d[k - 1];
    }
  }

  lemma TokenNoSeparators(s: string)
    requires Token(s)
    ensures ')' !in s && ',' !in s && Strip(s) == s
  {
    StripUnchanged(s);
  }

  /** Joining three pieces free of a character gives a string free of it, starting as the first piece does. */
  lemma JoinThreeFacts(a: string, b: string, c: string, sep: char, x: char)
    requires x != sep && x !in a && x !in b && x !in c
    ensures var j := Join([a, b, c], sep);
      x !in j && j[0] == (if a == [] then sep else a[0])
  {
    JoinThree(a, b, c, sep);
  }

  /** The attribute text, stripped of `%attr(` characters and split on ',', is its three fields. */
  lemma AttrSplit(perms: string, owner: string, group: string)
    requires ',' !in perms && ',' !in owner && ',' !in group
    requires perms == [] || perms[0] !in AttrChars
    ensures Split(LStripChars(AttrText(perms, owner, group), AttrChars), ',') == [perms, owner, group]
  {
    var rest := Join([perms, owner, group], ',');
    JoinThree(perms, owner, group, ',');
    assert rest[0] == (if perms == [] then ',' else perms[0]);
    LStripPrefix("%attr(", rest, AttrChars);
    SplitJoin([perms, owner, group], ',');
  }

  /** The same behind a lone '%', as `%defattr(` leaves it. */
  lemma PercentSplit(perms: string, owner: string, group: string)
    requires ',' !in perms && ',' !in owner && ',' !in group
    requires perms == [] || perms[0] !in AttrChars
    ensures Split(LStripChars("%" + Join([perms, owner, group], ','), AttrChars), ',') == [perms, owner, group]
  {
    var rest := Join([perms, owner, group], ',');
    JoinThree(perms, owner, group, ',');
    assert rest[0] == (if perms == [] then ',' else perms[0]);
    LStripPrefix("%", rest, AttrChars);
    SplitJoin([perms, owner, group], ',');
  }

  /** An attribute field whose split gives three already-stripped pieces parses to them. */
  lemma ParseAttrOf(field: string, perms: string, owner: string, group: string)
    requires Split(LStripChars(field, AttrChars), ',') == [perms, owner, group]
    requires Strip(perms) == perms && Strip(owner) == owner && Strip(group) == group
    ensures ParseAttr(field) == Success(Attr(perms, owner, group))
  {
  }

  /** The attribute text reads back as its three fields. */
  lemma ParseAttrText(perms: string, owner: string, group: string)
    requires Token(perms) && Token(owner) && Token(group)
    requires perms == [] || perms[0] !in AttrChars
    ensures ParseAttr(AttrText(perms, owner, group)) == Success(Attr(perms, owner, group))
  {
    TokenNoSeparators(perms);
    TokenNoSeparators(owner);
    TokenNoSeparators(group);
    AttrSplit(perms, owner, group);
    ParseAttrOf(AttrText(perms, owner, group), perms, owner, group);
  }

  /** The attribute text starts with '%' and, built from tokens, holds no ')'. */
  lemma AttrTextShape(perms: string, owner: string, group: string)
    requires Token(perms) && Token(owner) && Token(group)
    ensures ')' !in AttrText(perms, owner, group) && AttrText(perms, owner, group)[0] == '%'
  {
    TokenNoSeparators(perms);
    TokenNoSeparators(owner);
    TokenNoSeparators(group);
    JoinThreeFacts(perms, owner, group, ',', ')');
  }

  /** A stripped, split line with attributes `a` goes on to the target selection. */
  lemma ParseLineOf(raw: string, fields: seq<string>, a: Attr)
    requires Split(Strip(raw), ')') == fields && |fields| >= 2
    requires ParseAttr(fields[0]) == Success(a)
    ensures ParseLine(raw) == ParseTarget(a, Strip(fields[1]), fields[2..])
  {
  }

  /** Two ')'-free fields, with no whitespace at the ends of the line they make, split back apart. */
  lemma LineFieldsTwo(a: string, b: string)
    requires ')' !in a && ')' !in b
    requires a != [] && !IsSpace(a[0]) && (b == [] || !IsSpace(b[|b| - 1]))
    ensures Split(Strip(Join([a, b], ')')), ')') == [a, b]
  {
    var line := Join([a, b], ')');
    JoinTwo(a, b, ')');
    assert line[0] == a[0];
    assert line[|line| - 1] == if b == [] then ')' else b[|b| - 1];
    StripUnchanged(line);
    SplitJoin([a, b], ')');
  }

  /** The same for three fields, the last non-empty. */
  lemma LineFieldsThree(a: string, b: string, c: string)
    requires ')' !in a && ')' !in b && ')' !in c
    requires a != [] && !IsSpace(a[0]) && c != [] && !IsSpace(c[|c| - 1])
    ensures Split(Strip(Join([a, b, c], ')')), ')') == [a, b, c]
  {
    var line := Join([a, b, c], ')');
    JoinThree(a, b, c, ')');
    assert line[0] == a[0] && line[|line| - 1] == c[|c| - 1];
    StripUnchanged(line);
    SplitJoin([a, b, c], ')');
  }

  /** A target behind one blank: the blank is stripped off and the line still ends in the target. */
  lemma BlankField(s: string)
    requires Target(s)
    ensures Strip(" " + s) == s && ')' !in " " + s
    ensures var b := " " + s; b != [] && b[|b| - 1] == s[|s| - 1]
  {
    assert " " + s == [' '] + s;
    StripLeadingBlank(s);
  }

  /** `%dev(type,major,minor` built from tokens: a target, and its text after `%dev(` splits into the three. */
  lemma DevField(devtype: string, major: string, minor: string)
    requires Token(devtype) && Token(major) && Token(minor) && minor != []
    ensures var f := "%dev(" + Join([devtype, major, minor], ',');
      Target(f) && "%dev(" <= f && Split(f[5..], ',') == [devtype, major, minor]
  {
    var body := Join([devtype, major, minor], ',');
    var f := "%dev(" + body;
    TokenNoSeparators(devtype);
    TokenNoSeparators(major);
    TokenNoSeparators(minor);
    JoinThreeFacts(devtype, major, minor, ',', ')');
    JoinThree(devtype, major, minor, ',');
    assert f[|f| - 1] == minor[|minor| - 1];
    assert f[5..] == body;
    SplitJoin([devtype, major, minor], ',');
  }

  /** A `%dev(` field whose pieces read as numbers selects the device action, with the target from the third field. */
  lemma DeviceTarget(a: Attr, f1: string, devtype: string, major: string, minor: string, c: string,
                     ma: int, mi: int, mode: int)
    requires "%dev(" <= f1 && Split(f1[5..], ',') == [devtype, major, minor]
    requires ParseInt(major) == Some(ma) && ParseInt(minor) == Some(mi) && ParseIntAuto(a.perms) == Some(mode)
    ensures ParseTarget(a, f1, [c]) == Success([MakeDevices(Strip(c), devtype, ma, mi, a.owner, a.group, mode)])
  {
  }

  /** A rendered device line splits into its three fields, the first reading as its attributes. */
  lemma DevLineSplit(mode: nat, owner: string, group: string, devtype: string,
                     major: nat, minor: nat, target: string)
    requires Token(owner) && Token(group) && Token(devtype) && Target(target)
    ensures Split(Strip(DevLine(mode, owner, group, devtype, major, minor, target)), ')') ==
      [AttrText(OctalText(mode), owner, group), " " + DevText(devtype, major, minor), " " + target]
    ensures ParseAttr(AttrText(OctalText(mode), owner, group)) == Success(Attr(OctalText(mode), owner, group))
  {
    var perms := OctalText(mode);
    var f := DevText(devtype, major, minor);
    OctalToken(mode);
    DigitsToken(major, 10);
    DigitsToken(minor, 10);
    AttrTextShape(perms, owner, group);
    DevField(devtype, Digits(major, 10), Digits(minor, 10));
    BlankField(f);
    BlankField(target);
    LineFieldsThree(AttrText(perms, owner, group), " " + f, " " + target);
    ParseAttrText(perms, owner, group);
  }

  /** A rendered device line parses to exactly its device action. */
  lemma DevLineRoundTrip(mode: nat, owner: string, group: string, devtype: string,
                         major: nat, minor: nat, target: string)
    requires Token(owner) && Token(group) && Token(devtype) && Target(target)
    ensures ParseLine(DevLine(mode, owner, group, devtype, major, minor, target)) ==
      Success([MakeDevices(target, devtype, major, minor, owner, group, mode)])
  {
    var perms := OctalText(mode);
    var M, N := Digits(major, 10), Digits(minor, 10);
    var a := AttrText(perms, owner, group);
    var f := DevText(devtype, major, minor);
    var c := " " + target;
    DevLineSplit(mode, owner, group, devtype, major, minor, target);
    ParseLineOf(DevLine(mode, owner, group, devtype, major, minor, target), [a, " " + f, c], Attr(perms, owner, group));
    assert [a, " " + f, c][2..] == [c];
    DigitsToken(major, 10);
    DigitsToken(minor, 10);
    DevField(devtype, M, N);
    BlankField(f);
    BlankField(target);
    ParseIntAutoOctal(mode);
    ParseIntDigits(major);
    ParseIntDigits(minor);
    DeviceTarget(Attr(perms, owner, group), f, devtype, M, N, c, major, minor, mode);
  }

  /** A two-field line `attributes) rest` parses by its rest alone. */
  lemma TwoFieldLine(perms: string, owner: string, group: string, rest: string)
    requires Token(perms) && Token(owner) && Token(group) && Target(rest)
    requires perms == [] || perms[0] !in AttrChars
    ensures ParseLine(Join([AttrText(perms, owner, group), " " + rest], ')')) ==
      ParseTarget(Attr(perms, owner, group), rest, [])
  {
    var a := AttrText(perms, owner, group);
    var b := " " + rest;
    AttrTextShape(perms, owner, group);
    BlankField(rest);
    LineFieldsTwo(a, b);
    ParseAttrText(perms, owner, group);
    ParseLineOf(Join([a, b], ')'), [a, b], Attr(perms, owner, group));
    assert [a, b][2..] == [];
  }

  /** A directory line issues nothing, whatever its permissions say (even "-"). */
  lemma DirLineIgnored(perms: string, owner: string, group: string, target: string)
    requires Token(perms) && Token(owner) && Token(group) && Target(target)
    requires perms == [] || perms[0] !in AttrChars
    ensures ParseLine(DirLine(perms, owner, group, target)) == Success([])
  {
    var rest := "%dir " + target;
    assert " %dir " + target == " " + rest;
    assert rest[|rest| - 1] == target[|target| - 1];
    TwoFieldLine(perms, owner, group, rest);
    assert rest[..5] == "%dir " && rest[2] != "%dev("[2];
  }

  /**
   * A plain file line issues setModes exactly when a set-uid or set-gid bit
   * is requested and Ownership exactly when owner or group is not root, in
   * that order; the two are independent.
   */
  lemma FileLineActions(mode: nat, owner: string, group: string, target: string)
    requires Token(owner) && Token(group) && Target(target)
    requires !("%dev(" <= target) && !("%dir " <= target)
    ensures ParseLine(FileLine(OctalText(mode), owner, group, target)) ==
      Success((if SetIdBits(mode) then [SetModes(mode, target)] else []) +
              (if owner != "root" || group != "root" then [Ownership(owner, group, target)] else []))
  {
    OctalToken(mode);
    TwoFieldLine(OctalText(mode), owner, group, target);
    ParseIntAutoOctal(mode);
  }

  // ---------------------------------------------------------------------
  // Lines the parser rejects

  /** A line without ')' raises IndexError at `fields[1]` or `attr[2]`. */
  lemma NoParenRejected(raw: string)
    requires ')' !in Strip(raw)
    ensures ParseLine(raw) == Failure(MissingField)
  {
    SplitNoSep(Strip(raw), ')');
  }

  /** Fewer than three comma-separated attribute fields raise IndexError. */
  lemma ShortAttrRejected(raw: string)
    requires |Split(LStripChars(Split(Strip(raw), ')')[0], AttrChars), ',')| < 3
    ensures ParseLine(raw) == Failure(MissingField)
  {
  }

  /** A blank (or all-whitespace) line raises IndexError. */
  lemma BlankLineRejected(raw: string)
    requires forall k :: 0 <= k < |raw| ==> IsSpace(raw[k])
    ensures ParseLine(raw) == Failure(MissingField)
  {
    assert LStripChars(raw, Whitespace) == [];
    assert Strip(raw) == [];
    assert Split([], ')') == [[]];
    assert Split(LStripChars([], AttrChars), ',') == [[]];
  }

  /** `int("-", 0)` fails: an empty body after the sign. */
  lemma DashNotNumber()
    ensures ParseIntAuto("-") == None
  {
    StripUnchanged("-");
  }

  /**
   * A plain file line keeping RPM's default permissions, `%attr(-,owner,group) target`,
   * raises ValueError: only directory lines tolerate "-".
   */
  lemma DashPermsFileLineRejected(owner: string, group: string, target: string)
    requires Token(owner) && Token(group) && Target(target)
    requires !("%dev(" <= target) && !("%dir " <= target)
    ensures ParseLine(FileLine("-", owner, group, target)) == Failure(BadNumber)
  {
    TwoFieldLine("-", owner, group, target);
    DashNotNumber();
  }

  /** RPM's default-attributes line: `%defattr(perms,owner,group)`. */
  function DefattrLine(perms: string, owner: string, group: string): string {
    Join(["%" + Join(["defattr(" + perms, owner, group], ','), ""], ')')
  }

  /**
   * A `%defattr(perms,owner,group)` line is not skipped: `lstrip('%attr(')`
   * removes only the '%', so the perms field starts "defattr(", and
   * `int(perms, 0)` raises ValueError, whatever perms says ("-" included).
   */
  lemma DefattrRejected(perms: string, owner: string, group: string)
    requires Token(perms) && perms != [] && Token(owner) && Token(group)
    ensures ParseLine(DefattrLine(perms, owner, group)) == Failure(BadNumber)
  {
    var p := "defattr(" + perms;
    var first := "%" + Join([p, owner, group], ',');
    DefattrFields(perms, owner, group);
    DefattrAttr(perms, owner, group);
    ParseLineOf(DefattrLine(perms, owner, group), [first, ""], Attr(p, owner, group));
    assert [first, ""][2..] == [];
    DefattrNotNumber(perms);
    EmptyTargetBadPerms(Attr(p, owner, group));
  }

  /** With an empty second field, perms that are no number raise ValueError. */
  lemma EmptyTargetBadPerms(a: Attr)
    requires ParseIntAuto(a.perms) == None
    ensures ParseTarget(a, Strip(""), []) == Failure(BadNumber)
  {
    assert Strip("") == "";
  }

  /** The perms field a `%defattr(` line leaves has no ','... */
  lemma DefattrNoComma(perms: string)
    requires Token(perms)
    ensures ',' !in "defattr(" + perms
  {
    var p := "defattr(" + perms;
    forall k | 0 <= k < |p|
      ensures p[k] != ','
    {
      if k >= 8 {
        assert p[k] == perms[k - 8];
      }
    }
  }

  /** ...no outer whitespace... */
  lemma DefattrStripped(perms: string)
    requires Token(perms) && perms != []
    ensures Strip("defattr(" + perms) == "defattr(" + perms
  {
    WordStripped("defattr(", perms);
  }

  /** ...and is no number. */
  lemma DefattrNotNumber(perms: string)
    requires Token(perms) && perms != []
    ensures ParseIntAuto("defattr(" + perms) == None
  {
    WordNotNumber("defattr(", perms);
  }

  /** A word starting with a non-blank, followed by a token, has no outer whitespace. */
  lemma WordStripped(w: string, perms: string)
    requires w != [] && !IsSpace(w[0]) && Token(perms) && perms != []
    ensures Strip(w + perms) == w + perms
  {
    var p := w + perms;
    assert p[0] == w[0] && p[|p| - 1] == perms[|perms| - 1];
    StripUnchanged(p);
  }

  /** A word starting with a letter, followed by a token, is no number. */
  lemma WordNotNumber(w: string, perms: string)
    requires w != [] && 'a' <= w[0] <= 'z' && Token(perms) && perms != []
    ensures ParseIntAuto(w + perms) == None
  {
    var p := w + perms;
    assert p[0] == w[0];
    WordStripped(w, perms);
    LetterNotNumber(p);
  }

  /** The `%defattr` line is its attribute field and an empty one. */
  lemma DefattrFields(perms: string, owner: string, group: string)
    requires Token(perms) && perms != [] && Token(owner) && Token(group)
    ensures var first := "%" + Join(["defattr(" + perms, owner, group], ',');
      Split(Strip(DefattrLine(perms, owner, group)), ')') == [first, ""]
  {
    var p := "defattr(" + perms;
    var first := "%" + Join([p, owner, group], ',');
    TokenNoSeparators(perms);
    TokenNoSeparators(owner);
    TokenNoSeparators(group);
    JoinThreeFacts(p, owner, group, ',', ')');
    LineFieldsTwo(first, "");
  }

  lemma DefattrAttr(perms: string, owner: string, group: string)
    requires Token(perms) && perms != [] && Token(owner) && Token(group)
    ensures ParseAttr("%" + Join(["defattr(" + perms, owner, group], ',')) ==
      Success(Attr("defattr(" + perms, owner, group))
  {
    var p := "defattr(" + perms;
    assert p[0] == 'd';
    DefattrNoComma(perms);
    TokenNoSeparators(owner);
    TokenNoSeparators(group);
    PercentSplit(p, owner, group);
    DefattrStripped(perms);
    ParseAttrOf("%" + Join([p, owner, group], ','), p, owner, group);
  }

  /** Which modes request set-uid or set-gid (04755, 02755, 0755, 01777, and -1). */
  lemma SetIdExamples()
    ensures SetIdBits(0x9ED) && SetIdBits(0x5ED) && !SetIdBits(0x1ED) && !SetIdBits(0x3FF) && SetIdBits(-1)
  {
  }
}
