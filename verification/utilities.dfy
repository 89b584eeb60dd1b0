/** The platform checks and the source-map override resolution of
    `src/utilities.ts`. Everything the source reads from Node or the OS
    (`utils.getPlatform()`, `os.release()`, `process.version`, `process.env`,
    `fs.existsSync`, the install and working directories) is a field of `Host`;
    `path.resolve` is the uninterpreted `canon` parameter. */
module Utilities {
  import opened Wrappers
  import opened JsStrings

  datatype Platform = Windows | OSX | Linux

  /** The process environment the adapter reads. */
  datatype Host = Host(
    platform: Platform,
    /** `os.release()`, e.g. "10.0.19041" on Windows */
    release: string,
    /** `process.version`, e.g. "v12.18.0" */
    nodeVersion: string,
    /** whether `process.env` has a `ProgramFiles(x86)` entry */
    hasProgramFilesX86: bool,
    /** the bundled proxy executable, resolved against the install directory */
    bundledAdapterPath: string,
    /** the proxy executable under the working directory's node_modules */
    workspaceAdapterPath: string,
    /** the paths `fs.existsSync` reports as present */
    existingFiles: set<string>)

  // ---------------------------------------------------------------------------
  // getAdapterPath
  // ---------------------------------------------------------------------------

  datatype Arch = X64 | X86

  /** The architecture guess: 64-bit Windows is recognised by the presence of
      the `ProgramFiles(x86)` environment entry. */
  function HostArch(host: Host): Arch {
    if host.hasProgramFilesX86 then X64 else X86
  }

  /** The bundled proxy executable for this host, or `None` (the source's
      `null`) when the host is not 64-bit Windows. */
  function AdapterPath(host: Host, isTest: bool): (r: Option<string>)
    ensures r.Some? <==> host.platform == Windows && host.hasProgramFilesX86
    ensures r.Some? && isTest ==> r.value == host.workspaceAdapterPath
    ensures r.Some? && !isTest ==> r.value == host.bundledAdapterPath
  {
    if host.platform == Windows then
      match HostArch(host)
      case X64 => Some(if isTest then host.workspaceAdapterPath else host.bundledAdapterPath)
      case X86 => None
    else None
  }

  // ---------------------------------------------------------------------------
  // getOsVersionArray / isSupportedWindowsVersion
  // ---------------------------------------------------------------------------

  const MinMajor := 10
  const MinMinor := 0
  const MinBuild := 18362

  /** The dot-separated components of an OS release, each read by `parseInt`
      (`None` standing for `NaN`). */
  function OsVersionArray(release: string): (v: seq<Option<int>>)
    ensures |v| == |Split(release, '.')| >= 1
    ensures forall i :: 0 <= i < |v| ==> v[i] == ParseInt(Split(release, '.')[i])
  {
    var parts := Split(release, '.');
    seq(|parts|, i requires 0 <= i < |parts| => ParseInt(parts[i]))
  }

  /** `v[k]`, where reading past the end gives `undefined`. */
  function Component(v: seq<Option<int>>, k: nat): Option<int> {
    if k < |v| then v[k] else None
  }

  /** JavaScript's `>`, `==` and `>=` against a number: `NaN` and `undefined`
      compare false. */
  predicate Above(x: Option<int>, k: int) { x.Some? && x.value > k }
  predicate Equals(x: Option<int>, k: int) { x.Some? && x.value == k }
  predicate AtLeast(x: Option<int>, k: int) { x.Some? && x.value >= k }

  /** Windows 10 version 1903 (build 10.0.18362) or later. */
  predicate IsSupportedWindowsVersion(host: Host): (ok: bool)
    ensures ok ==> host.platform == Windows && AtLeast(Component(OsVersionArray(host.release), 0), MinMajor)
    ensures host.platform == Windows && Above(Component(OsVersionArray(host.release), 0), MinMajor) ==> ok
    ensures (&& host.platform == Windows
             && AtLeast(Component(OsVersionArray(host.release), 0), MinMajor)
             && AtLeast(Component(OsVersionArray(host.release), 1), MinMinor)
             && AtLeast(Component(OsVersionArray(host.release), 2), MinBuild)) ==> ok
  {
    host.platform == Windows && VersionAccepted(OsVersionArray(host.release))
  }

  /** The nested comparisons of the version array against 10.0.18362. */
  predicate VersionAccepted(v: seq<Option<int>>) {
    if Above(Component(v, 0), MinMajor) then true
    else if Equals(Component(v, 0), MinMajor) then
      if Above(Component(v, 1), MinMinor) then true
      else if Equals(Component(v, 1), MinMinor) then AtLeast(Component(v, 2), MinBuild)
      else false
    else false
  }

  /** Lexicographic order on equally long integer tuples: `xs` is at or
      above `ys`. */
  predicate LexAtLeast(xs: seq<int>, ys: seq<int>)
    requires |xs| == |ys|
  {
    |xs| == 0 || xs[0] > ys[0] || (xs[0] == ys[0] && LexAtLeast(xs[1..], ys[1..]))
  }

  /** The release string `a.b.c` followed by `suffix`. */
  function FormatRelease(a: int, b: int, c: int, suffix: string): string {
    IntToString(a) + "." + IntToString(b) + "." + IntToString(c) + suffix
  }

  // ---------------------------------------------------------------------------
  // Source-map path overrides
  // ---------------------------------------------------------------------------

  /** One entry of a source-map override table: a source-URL pattern and the
      local path pattern it maps to. */
  datatype Override = Override(key: string, value: string)

  /** A table in its iteration order (the order `Object.entries` yields). */
  type OverrideTable = seq<Override>

  function Keys(t: OverrideTable): (ks: seq<string>)
    ensures |ks| == |t| && forall i :: 0 <= i < |t| ==> ks[i] == t[i].key
  {
    seq(|t|, i requires 0 <= i < |t| => t[i].key)
  }

  predicate UniqueKeys(t: OverrideTable) {
    forall i, j :: 0 <= i < j < |t| ==> t[i].key != t[j].key
  }

  const Placeholder := "${workspaceFolder}"

  /** No value of the table starts with the placeholder. */
  predicate NoLeadingPlaceholder(t: OverrideTable) {
    forall i :: 0 <= i < |t| ==> !StartsWith(t[i].value, Placeholder)
  }

  /** The table used when the launch configuration supplies none. */
  const DefaultOverrides: OverrideTable := [
    Override("webpack:///./~/*", Placeholder + "/node_modules/*"),
    Override("webpack:///./*", Placeholder + "/*"),
    Override("webpack:///*", Placeholder + "/*"),
    Override("webpack:///src/*", Placeholder + "/*")
  ]

  /** JavaScript truthiness of an optional string. */
  predicate Truthy(s: Option<string>) {
    s.Some? && s.value != ""
  }

  /** Substitutes `webRoot` for a leading `${workspaceFolder}`; an entry whose
      placeholder is missing or not leading, or a missing `webRoot`, leaves the
      entry as it is. The substitution is `String.prototype.replace`, so `$`
      patterns in `webRoot` are expanded. */
  function ReplaceWebRootInEntry(webRoot: Option<string>, entry: string): (r: string)
    ensures !StartsWith(entry, Placeholder) ==> r == entry
    ensures !Truthy(webRoot) ==> r == entry
    ensures StartsWith(entry, Placeholder) && Truthy(webRoot) && '$' !in webRoot.value ==>
              r == webRoot.value + entry[|Placeholder|..]
  {
    IndexOfZeroIffStartsWith(entry, Placeholder);
    var webRootIndex := IndexOf(entry, Placeholder);
    if webRootIndex == 0 then
      if Truthy(webRoot) then ReplaceFirst(entry, Placeholder, webRoot.value) else entry
    else entry
  }

  /** The stored value of one entry: canonicalised when the substitution
      changed it, verbatim otherwise. */
  function ResolveValue(webRoot: Option<string>, value: string, canon: string -> string): string {
    var replaced := ReplaceWebRootInEntry(webRoot, value);
    if replaced != value then canon(replaced) else replaced
  }

  /** Resolves every value of the table against `webRoot`, keeping the keys
      and their order. */
  function ResolveWebRootPattern(webRoot: Option<string>, table: OverrideTable, canon: string -> string): (r: OverrideTable)
    ensures |r| == |table|
    ensures forall i :: 0 <= i < |table| ==> r[i].key == table[i].key
    ensures forall i :: 0 <= i < |table| ==>
              (ReplaceWebRootInEntry(webRoot, table[i].value) != table[i].value ==>
                 r[i].value == canon(ReplaceWebRootInEntry(webRoot, table[i].value)))
    ensures forall i :: 0 <= i < |table| ==>
              (ReplaceWebRootInEntry(webRoot, table[i].value) == table[i].value ==> r[i].value == table[i].value)
  {
    if |table| == 0 then []
    else
      var tail := ResolveWebRootPattern(webRoot, table[1..], canon);
      var r := [Override(table[0].key, ResolveValue(webRoot, table[0].value, canon))] + tail;
      assert forall i :: 1 <= i < |table| ==> r[i] == tail[i - 1] && table[i] == table[1..][i - 1];
      r
  }

  /** The supplied table resolved, or the default table resolved when none is
      supplied. */
  function SourceMapPathOverrides(webRoot: Option<string>, overrides: Option<OverrideTable>, canon: string -> string): (r: OverrideTable)
    ensures overrides.Some? ==> Keys(r) == Keys(overrides.value)
    ensures overrides.None? ==> Keys(r) == Keys(DefaultOverrides) && |r| == 4
    ensures var t := if overrides.Some? then overrides.value else DefaultOverrides;
            && |r| == |t|
            && forall i :: 0 <= i < |t| ==> r[i] == Override(t[i].key, ResolveValue(webRoot, t[i].value, canon))
  {
    match overrides
    case Some(t) => ResolveWebRootPattern(webRoot, t, canon)
    case None => ResolveWebRootPattern(webRoot, DefaultOverrides, canon)
  }

  // ---------------------------------------------------------------------------
  // Properties
  // ---------------------------------------------------------------------------

  /** A rendered integer contains no dot. */
  lemma NoDotInIntToString(n: int)
    ensures '.' !in IntToString(n)
  {
    var d := NatToString(if n < 0 then -n else n);
    assert forall i :: 0 <= i < |d| ==> IsDigit(d[i]);
    if n < 0 {
      assert IntToString(n) == ['-'] + d;
    }
  }

  /** A release `a.b.c<suffix>` reads as the components `a`, `b`, `c` when the
      suffix holds no dot and does not continue the build number. */
  lemma {:induction false} OsVersionArrayOfRelease(a: int, b: int, c: int, suffix: string)
    requires '.' !in suffix
    requires |suffix| == 0 || !IsDigit(suffix[0])
    ensures OsVersionArray(FormatRelease(a, b, c, suffix)) == [Some(a), Some(b), Some(c)]
  {
    var parts := [IntToString(a), IntToString(b), IntToString(c) + suffix];
    NoDotInIntToString(a);
    NoDotInIntToString(b);
    NoDotInIntToString(c);
    assert '.' !in parts[2];
    assert Join(parts[2..], '.') == parts[2];
    assert Join(parts[1..], '.') == parts[1] + "." + parts[2];
    assert Join(parts, '.') == parts[0] + "." + (parts[1] + "." + parts[2]);
    var release := FormatRelease(a, b, c, suffix);
    assert release == Join(parts, '.');
    SplitJoin(parts, '.');
    var v := OsVersionArray(release);
    assert |v| == 3;
    ParseIntOfIntToString(a, "");
    assert IntToString(a) + "" == parts[0];
    assert v[0] == Some(a);
    ParseIntOfIntToString(b, "");
    assert IntToString(b) + "" == parts[1];
    assert v[1] == Some(b);
    ParseIntOfIntToString(c, suffix);
    assert v[2] == Some(c);
    ThreeComponents(v, Some(a), Some(b), Some(c));
  }

  lemma ThreeComponents(v: seq<Option<int>>, x: Option<int>, y: Option<int>, z: Option<int>)
    requires |v| == 3 && v[0] == x && v[1] == y && v[2] == z
    ensures v == [x, y, z]
  {
  }

  /** Lexicographic order on triples, spelled out. */
  lemma LexAtLeastTriple(xs: seq<int>, ys: seq<int>)
    requires |xs| == |ys| == 3
    ensures LexAtLeast(xs, ys) <==>
              xs[0] > ys[0] || (xs[0] == ys[0] && (xs[1] > ys[1] || (xs[1] == ys[1] && xs[2] >= ys[2])))
  {
    assert LexAtLeast(xs[2..], ys[2..]) <==> xs[2] >= ys[2] by {
      assert xs[2..][1..] == [];
    }
    assert LexAtLeast(xs[1..], ys[1..]) <==>
             xs[1] > ys[1] || (xs[1] == ys[1] && LexAtLeast(xs[2..], ys[2..])) by {
      assert xs[1..][1..] == xs[2..] && ys[1..][1..] == ys[2..];
    }
  }

  /** On Windows, when the first three components are numbers, the nested
      version checks are exactly the lexicographic comparison with 10.0.18362. */
  lemma SupportedIffLexAtLeast(host: Host)
    requires host.platform == Windows
    requires var v := OsVersionArray(host.release); |v| >= 3 && v[0].Some? && v[1].Some? && v[2].Some?
    ensures var v := OsVersionArray(host.release);
            IsSupportedWindowsVersion(host) <==>
              LexAtLeast([v[0].value, v[1].value, v[2].value], [MinMajor, MinMinor, MinBuild])
  {
    AcceptedIffLexAtLeast(OsVersionArray(host.release));
  }

  lemma AcceptedIffLexAtLeast(v: seq<Option<int>>)
    requires |v| >= 3 && v[0].Some? && v[1].Some? && v[2].Some?
    ensures VersionAccepted(v) <==> LexAtLeast([v[0].value, v[1].value, v[2].value], [MinMajor, MinMinor, MinBuild])
  {
    LexAtLeastTriple([v[0].value, v[1].value, v[2].value], [MinMajor, MinMinor, MinBuild]);
  }

  /** The version gate on a release `a.b.c<suffix>`: supported exactly on
      Windows with `(a, b, c)` at or above `(10, 0, 18362)`. */
  lemma SupportedRelease(host: Host, a: int, b: int, c: int, suffix: string)
    requires host.release == FormatRelease(a, b, c, suffix)
    requires '.' !in suffix
    requires |suffix| == 0 || !IsDigit(suffix[0])
    ensures IsSupportedWindowsVersion(host) <==>
              host.platform == Windows && LexAtLeast([a, b, c], [MinMajor, MinMinor, MinBuild])
  {
    OsVersionArrayOfRelease(a, b, c, suffix);
    if host.platform == Windows {
      SupportedIffLexAtLeast(host);
    }
  }

  /** Worked examples of the version gate on Windows: 10.0.18362, 10.1.0 and
      11.0.0 pass; 10.0.18361 and 9.9.9 fail. */
  lemma SupportedExamples(host: Host)
    requires host.platform == Windows
    ensures IsSupportedWindowsVersion(host.(release := FormatRelease(10, 0, 18362, "")))
    ensures IsSupportedWindowsVersion(host.(release := FormatRelease(10, 1, 0, "")))
    ensures IsSupportedWindowsVersion(host.(release := FormatRelease(11, 0, 0, "")))
    ensures !IsSupportedWindowsVersion(host.(release := FormatRelease(10, 0, 18361, "")))
    ensures !IsSupportedWindowsVersion(host.(release := FormatRelease(9, 9, 9, "")))
  {
    var ys := [MinMajor, MinMinor, MinBuild];
    SupportedRelease(host.(release := FormatRelease(10, 0, 18362, "")), 10, 0, 18362, "");
    LexAtLeastTriple([10, 0, 18362], ys);
    SupportedRelease(host.(release := FormatRelease(10, 1, 0, "")), 10, 1, 0, "");
    LexAtLeastTriple([10, 1, 0], ys);
    SupportedRelease(host.(release := FormatRelease(11, 0, 0, "")), 11, 0, 0, "");
    LexAtLeastTriple([11, 0, 0], ys);
    SupportedRelease(host.(release := FormatRelease(10, 0, 18361, "")), 10, 0, 18361, "");
    LexAtLeastTriple([10, 0, 18361], ys);
    SupportedRelease(host.(release := FormatRelease(9, 9, 9, "")), 9, 9, 9, "");
    LexAtLeastTriple([9, 9, 9], ys);
  }

  /** The placeholder, used as a replacement template, expands to itself:
      its `$` is followed by `{`, which is not a pattern character. */
  lemma PlaceholderExpandsToItself(before: string, after: string)
    ensures ExpandReplacement(Placeholder, Placeholder, before, after) == Placeholder
  {
    var rest := "{workspaceFolder}";
    assert forall i :: 0 <= i < |rest| ==> rest[i] != '$';
    assert Placeholder[1..] == rest;
    ExpandLeadingLiteralDollar(Placeholder, Placeholder, before, after);
  }

  /** With a leading placeholder and a usable `webRoot`, the entry becomes the
      expansion of `webRoot` followed by the rest of the entry. */
  lemma ReplaceLeadingPlaceholder(webRoot: string, entry: string)
    requires webRoot != "" && StartsWith(entry, Placeholder)
    ensures var after := entry[|Placeholder|..];
            ReplaceWebRootInEntry(Some(webRoot), entry)
              == ExpandReplacement(webRoot, Placeholder, "", after) + after
  {
    IndexOfZeroIffStartsWith(entry, Placeholder);
    var after := entry[|Placeholder|..];
    var e := ExpandReplacement(webRoot, Placeholder, entry[..0], after);
    assert entry[..0] == "";
    assert ReplaceFirst(entry, Placeholder, webRoot) == entry[..0] + e + after;
    assert entry[..0] + e + after == e + after;
  }

  /** A `webRoot` that is the placeholder itself leaves every entry verbatim:
      the substitution reproduces the entry. */
  lemma ReplaceWithPlaceholderIsIdentity(entry: string)
    ensures ReplaceWebRootInEntry(Some(Placeholder), entry) == entry
  {
    if StartsWith(entry, Placeholder) {
      var after := entry[|Placeholder|..];
      ReplaceLeadingPlaceholder(Placeholder, entry);
      PlaceholderExpandsToItself("", after);
      assert entry == Placeholder + after;
    }
  }

  /** A `webRoot` of `$&` re-inserts the matched placeholder, so every entry
      is left as it is: the replacement's `$` patterns are live. */
  lemma ReplaceWithMatchPatternIsIdentity(entry: string)
    ensures ReplaceWebRootInEntry(Some("$&"), entry) == entry
  {
    if StartsWith(entry, Placeholder) {
      var after := entry[|Placeholder|..];
      var template := "$&";
      ReplaceLeadingPlaceholder(template, entry);
      assert template[2..] == [];
      assert ExpandReplacement(template, Placeholder, "", after) == Placeholder;
      assert entry == Placeholder + after;
    }
  }

  /** Resolution leaves a table alone when no value starts with the
      placeholder. */
  lemma ResolveWithoutPlaceholderIsIdentity(webRoot: Option<string>, table: OverrideTable, canon: string -> string)
    requires NoLeadingPlaceholder(table)
    ensures ResolveWebRootPattern(webRoot, table, canon) == table
  {
    var r := ResolveWebRootPattern(webRoot, table, canon);
    forall i | 0 <= i < |table|
      ensures r[i] == table[i]
    {
      assert ReplaceWebRootInEntry(webRoot, table[i].value) == table[i].value;
    }
  }

  /** Resolution leaves a table alone when `webRoot` is missing or empty. */
  lemma ResolveWithoutWebRootIsIdentity(webRoot: Option<string>, table: OverrideTable, canon: string -> string)
    requires !Truthy(webRoot)
    ensures ResolveWebRootPattern(webRoot, table, canon) == table
  {
    var r := ResolveWebRootPattern(webRoot, table, canon);
    forall i | 0 <= i < |table|
      ensures r[i] == table[i]
    {
      assert ReplaceWebRootInEntry(webRoot, table[i].value) == table[i].value;
    }
  }

  /** With the placeholder itself as `webRoot`, every value is stored
      verbatim and none is canonicalised. */
  lemma ResolveWithPlaceholderWebRootIsIdentity(table: OverrideTable, canon: string -> string)
    ensures ResolveWebRootPattern(Some(Placeholder), table, canon) == table
  {
    var r := ResolveWebRootPattern(Some(Placeholder), table, canon);
    forall i | 0 <= i < |table|
      ensures r[i] == table[i]
    {
      ReplaceWithPlaceholderIsIdentity(table[i].value);
    }
  }

  /** Resolving twice is resolving once, provided the first pass left no value
      starting with the placeholder. */
  lemma ResolveIdempotent(webRoot: Option<string>, table: OverrideTable, canon: string -> string)
    requires NoLeadingPlaceholder(ResolveWebRootPattern(webRoot, table, canon))
    ensures var r := ResolveWebRootPattern(webRoot, table, canon);
            ResolveWebRootPattern(webRoot, r, canon) == r
  {
    ResolveWithoutPlaceholderIsIdentity(webRoot, ResolveWebRootPattern(webRoot, table, canon), canon);
  }

  /** Resolution neither adds nor drops keys, so distinct keys stay distinct. */
  lemma ResolveKeepsKeys(webRoot: Option<string>, table: OverrideTable, canon: string -> string)
    ensures Keys(ResolveWebRootPattern(webRoot, table, canon)) == Keys(table)
    ensures UniqueKeys(table) ==> UniqueKeys(ResolveWebRootPattern(webRoot, table, canon))
  {
  }

  /** Against a usable `webRoot`, a value that starts with the placeholder is
      replaced by `webRoot` followed by the rest of the value, and
      canonicalised. */
  lemma ResolveValueSubstitutes(webRoot: Option<string>, value: string, canon: string -> string)
    requires Truthy(webRoot) && '$' !in webRoot.value
    requires StartsWith(value, Placeholder)
    ensures ResolveValue(webRoot, value, canon) == canon(webRoot.value + value[|Placeholder|..])
  {
  }

  /** The default table against a usable `webRoot`: each placeholder is
      replaced by `webRoot` and the result canonicalised, in the fixed order. */
  lemma DefaultOverridesResolved(webRoot: Option<string>, canon: string -> string)
    requires Truthy(webRoot) && '$' !in webRoot.value
    ensures var w := webRoot.value;
            SourceMapPathOverrides(webRoot, None, canon) == [
              Override("webpack:///./~/*", canon(w + "/node_modules/*")),
              Override("webpack:///./*", canon(w + "/*")),
              Override("webpack:///*", canon(w + "/*")),
              Override("webpack:///src/*", canon(w + "/*"))
            ]
  {
    var w := webRoot.value;
    var d := DefaultOverrides;
    var r := ResolveWebRootPattern(webRoot, d, canon);
    var v0 := Placeholder + "/node_modules/*";
    var v1 := Placeholder + "/*";
    assert d[0].value == v0 && d[1].value == v1 && d[2].value == v1 && d[3].value == v1;
    LeadingPlaceholderValue(webRoot, "/node_modules/*", canon);
    LeadingPlaceholderValue(webRoot, "/*", canon);
    ResolveAt(webRoot, d, canon, 0);
    ResolveAt(webRoot, d, canon, 1);
    ResolveAt(webRoot, d, canon, 2);
    ResolveAt(webRoot, d, canon, 3);
    FourEntries(r, Override("webpack:///./~/*", canon(w + "/node_modules/*")),
                Override("webpack:///./*", canon(w + "/*")),
                Override("webpack:///*", canon(w + "/*")),
                Override("webpack:///src/*", canon(w + "/*")));
  }

  /** A value made of the placeholder and `rest` resolves to `webRoot`
      followed by `rest`, canonicalised. */
  lemma LeadingPlaceholderValue(webRoot: Option<string>, rest: string, canon: string -> string)
    requires Truthy(webRoot) && '$' !in webRoot.value
    ensures ResolveValue(webRoot, Placeholder + rest, canon) == canon(webRoot.value + rest)
  {
    var v := Placeholder + rest;
    assert v[..|Placeholder|] == Placeholder;
    assert v[|Placeholder|..] == rest;
    ResolveValueSubstitutes(webRoot, v, canon);
  }

  /** Entry `i` of a resolved table is the resolved entry `i`. */
  lemma ResolveAt(webRoot: Option<string>, table: OverrideTable, canon: string -> string, i: nat)
    requires i < |table|
    ensures var r := ResolveWebRootPattern(webRoot, table, canon);
            r[i] == Override(table[i].key, ResolveValue(webRoot, table[i].value, canon))
  {
  }

  lemma FourEntries(t: OverrideTable, a: Override, b: Override, c: Override, d: Override)
    requires |t| == 4 && t[0] == a && t[1] == b && t[2] == c && t[3] == d
    ensures t == [a, b, c, d]
  {
  }
}
