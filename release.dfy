/**
 * The version arithmetic of the release script: which bump the first
 * argument asks for, the new `major.minor.patch` computed from the one in
 * `package.json`, the version written back, and the tag name.
 */
module Release {
  import opened Wrappers
  import opened JsString

  datatype BumpKind = Patch | Minor | Major

  const VersionTypeError: string := "Error: Version type must be one of 'patch', 'minor', or 'major'"

  /**
   * `process.argv[2] || 'patch'` and its validation: a missing or empty
   * argument means `patch`, the three names select their bump, and anything
   * else is rejected (the script then exits with status 1).
   */
  function ParseVersionType(arg: Option<string>): (r: Result<BumpKind>)
    ensures arg == None || arg == Some("") || arg == Some("patch") <==> r == Ok(Patch)
    ensures arg == Some("minor") <==> r == Ok(Minor)
    ensures arg == Some("major") <==> r == Ok(Major)
    ensures r.Err? ==> r.error == VersionTypeError
  {
    var versionType := if arg.None? || arg.value == "" then "patch" else arg.value;
    if versionType == "patch" then Ok(Patch)
    else if versionType == "minor" then Ok(Minor)
    else if versionType == "major" then Ok(Major)
    else Err(VersionTypeError)
  }

  datatype Version = Version(major: nat, minor: nat, patch: nat)

  /** `a` comes after `b` in (major, minor, patch) order. */
  predicate Newer(a: Version, b: Version) {
    || a.major > b.major
    || (a.major == b.major && a.minor > b.minor)
    || (a.major == b.major && a.minor == b.minor && a.patch > b.patch)
  }

  /** Every field is an integer a JavaScript number holds exactly. */
  predicate Exact(v: Version) {
    v.major <= MaxSafeInteger && v.minor <= MaxSafeInteger && v.patch <= MaxSafeInteger
  }

  /** Every field can be incremented without leaving the exact range. */
  predicate Bumpable(v: Version) {
    v.major < MaxSafeInteger && v.minor < MaxSafeInteger && v.patch < MaxSafeInteger
  }

  /** The bump the `switch` performs, as a value. */
  function Bumped(v: Version, kind: BumpKind): (r: Version)
    requires Bumpable(v)
    ensures Newer(r, v) && Exact(r)
  {
    match kind
    case Major => Version(v.major + 1, 0, 0)
    case Minor => Version(v.major, v.minor + 1, 0)
    case Patch => Version(v.major, v.minor, v.patch + 1)
  }

  /**
   * The `switch (versionType)` over `let [major, minor, patch]`: a major
   * bump resets minor and patch, a minor bump resets patch, and a patch bump
   * (the default) only increments the patch number.
   */
  method BumpVersion(current: Version, kind: BumpKind) returns (next: Version)
    requires Bumpable(current)
    ensures kind == Major ==> next == Version(current.major + 1, 0, 0)
    ensures kind == Minor ==> next == Version(current.major, current.minor + 1, 0)
    ensures kind == Patch ==> next == Version(current.major, current.minor, current.patch + 1)
    ensures next == Bumped(current, kind) && Newer(next, current)
  {
    var major, minor, patch := current.major, current.minor, current.patch;
    match kind {
      case Major =>
        major := major + 1;
        minor := 0;
        patch := 0;
      case Minor =>
        minor := minor + 1;
        patch := 0;
      case Patch =>
        patch := patch + 1;
    }
    next := Version(major, minor, patch);
  }

  /** `${major}.${minor}.${patch}`: exactly three dot-separated fields, the decimal texts of the numbers. */
  function FormatVersion(v: Version): (r: string)
    requires Exact(v)
    ensures Split(r, '.') == [NatToString(v.major), NatToString(v.minor), NatToString(v.patch)]
  {
    NatTextHasNoDot(v.major);
    NatTextHasNoDot(v.minor);
    NatTextHasNoDot(v.patch);
    SplitThree(NatToString(v.major), NatToString(v.minor), NatToString(v.patch));
    NatToString(v.major) + "." + NatToString(v.minor) + "." + NatToString(v.patch)
  }

  /** `v${newVersion}`. */
  function TagName(v: Version): (r: string)
    requires Exact(v)
    ensures |r| >= 6 && r[0] == 'v'
  {
    "v" + FormatVersion(v)
  }

  predicate AllDigits(s: string) {
    forall i :: 0 <= i < |s| ==> IsDigit(s[i])
  }

  /**
   * A version text `split('.').map(Number)` reads as three naturals: at
   * least three pieces, the first three of decimal digits (an empty piece
   * is `Number('')`, that is 0), each denoting an integer JavaScript holds
   * exactly; further pieces are ignored.
   */
  predicate VersionText(s: string) {
    var parts := Split(s, '.');
    && |parts| >= 3 && AllDigits(parts[0]) && AllDigits(parts[1]) && AllDigits(parts[2])
    && ParseNat(parts[0]) <= MaxSafeInteger
    && ParseNat(parts[1]) <= MaxSafeInteger
    && ParseNat(parts[2]) <= MaxSafeInteger
  }

  /** `currentVersion.split('.').map(Number)`, destructured into the first three numbers. */
  function ParseVersion(s: string): (v: Version)
    requires VersionText(s)
    ensures Exact(v)
  {
    var parts := Split(s, '.');
    Version(ParseNat(parts[0]), ParseNat(parts[1]), ParseNat(parts[2]))
  }

  lemma NatTextHasNoDot(n: nat)
    ensures '.' !in NatToString(n) && AllDigits(NatToString(n))
  {
  }

  /** Three pieces without a dot, joined by dots, split back into themselves. */
  lemma SplitThree(a: string, b: string, c: string)
    requires '.' !in a && '.' !in b && '.' !in c
    ensures Split(a + "." + b + "." + c, '.') == [a, b, c]
  {
    assert a + "." + b + "." + c == a + ['.'] + (b + ['.'] + c);
    SplitCons(a, '.', b + ['.'] + c);
    SplitCons(b, '.', c);
    assert Split(c, '.') == [c];
  }

  /** The version written to `package.json` reads back as the version computed. */
  lemma ParseFormat(v: Version)
    requires Exact(v)
    ensures VersionText(FormatVersion(v))
    ensures ParseVersion(FormatVersion(v)) == v
  {
    NatTextHasNoDot(v.major);
    NatTextHasNoDot(v.minor);
    NatTextHasNoDot(v.patch);
    ParseNatToString(v.major);
    ParseNatToString(v.minor);
    ParseNatToString(v.patch);
  }

  /** A version text of three canonical decimal fields, as `FormatVersion` writes them. */
  predicate CanonicalVersion(s: string) {
    var parts := Split(s, '.');
    && |parts| == 3 && CanonicalDigits(parts[0]) && CanonicalDigits(parts[1]) && CanonicalDigits(parts[2])
    && ParseNat(parts[0]) <= MaxSafeInteger
    && ParseNat(parts[1]) <= MaxSafeInteger
    && ParseNat(parts[2]) <= MaxSafeInteger
  }

  /** A canonical version read from `package.json` and written back unchanged is the same text. */
  lemma FormatParse(s: string)
    requires CanonicalVersion(s)
    ensures VersionText(s) && FormatVersion(ParseVersion(s)) == s
  {
    var parts := Split(s, '.');
    ToStringParseNat(parts[0]);
    ToStringParseNat(parts[1]);
    ToStringParseNat(parts[2]);
    assert parts[1..][1..] == [parts[2]];
    assert Join(parts[1..], '.') == parts[1] + ['.'] + parts[2];
    assert s == parts[0] + ['.'] + (parts[1] + ['.'] + parts[2]);
  }

  /** Different versions have different texts, so every release gets a tag of its own. */
  lemma NewTagDiffers(v: Version, kind: BumpKind)
    requires Bumpable(v)
    ensures TagName(Bumped(v, kind)) != TagName(v)
  {
    var w := Bumped(v, kind);
    ParseFormat(v);
    ParseFormat(w);
    assert TagName(w)[1..] == FormatVersion(w);
    assert TagName(v)[1..] == FormatVersion(v);
  }

  /** The parsed `package.json`, whose `version` the script overwrites. */
  class PackageJson {
    var version: string

    constructor(version: string)
      ensures this.version == version
    {
      this.version := version;
    }
  }

  /** How the script ends: exiting with a status, or with the release tagged. */
  datatype Run = Exited(code: int, message: string) | Tagged(tagName: string)

  /**
   * The version steps of the script: validate the argument, read the
   * current version, bump it, write it back into `package.json`, and name
   * the tag.
   */
  method CreateRelease(packageJson: PackageJson, arg: Option<string>) returns (run: Run)
    requires VersionText(packageJson.version) && Bumpable(ParseVersion(packageJson.version))
    modifies packageJson
    ensures ParseVersionType(arg).Err? ==>
              run == Exited(1, VersionTypeError) && packageJson.version == old(packageJson.version)
    ensures ParseVersionType(arg).Ok? ==>
              var next := Bumped(ParseVersion(old(packageJson.version)), ParseVersionType(arg).value);
              && packageJson.version == FormatVersion(next)
              && run == Tagged(TagName(next))
              && VersionText(packageJson.version) && ParseVersion(packageJson.version) == next
  {
    var versionType := ParseVersionType(arg);
    if versionType.Err? {
      return Exited(1, versionType.error);
    }
    var current := ParseVersion(packageJson.version);
    var next := BumpVersion(current, versionType.value);
    var newVersion := FormatVersion(next);
    packageJson.version := newVersion;
    ParseFormat(next);
    run := Tagged("v" + newVersion);
  }
}
