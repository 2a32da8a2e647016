/** The migration registry and loader: the ordered list of registered migration sources,
    the filename parser, the version-sequence check, and the loader that turns a directory
    listing into one `Migration` per version. */
module MigrationRegistry {
  import opened Common
  import opened Text

  /** A registered component. `hasEmbed` says whether an embedded bundle is set (its
      contents are never read); `prefix` is carried but never read by the loader or runner. */
  datatype MigrationSource = MigrationSource(name: string, directory: string, hasEmbed: bool, prefix: string)

  datatype Migration = Migration(version: nat, name: string, source: string, upContent: string, downContent: string)

  // ---------------------------------------------------------------------------
  // The registry

  /** The process-wide list of sources (one object here; the lock around it is not modelled). */
  class Registry {
    var sources: seq<MigrationSource>

    constructor ()
      ensures sources == []
    {
      sources := [];
    }

    /** RegisterMigrations: appends at the end, without any check and without removing
        duplicates; every earlier entry stays where it was. */
    method Register(source: MigrationSource)
      modifies this
      ensures sources == old(sources) + [source]
      ensures |sources| == |old(sources)| + 1
      ensures forall i :: 0 <= i < |old(sources)| ==> sources[i] == old(sources)[i]
    {
      sources := sources + [source];
    }

    /** GetRegisteredSources: a new array holding the sources in registration order. */
    method Snapshot() returns (copy: array<MigrationSource>)
      ensures fresh(copy)
      ensures copy[..] == sources
    {
      var s := sources;
      copy := new MigrationSource[|s|](i requires 0 <= i < |s| => s[i]);
    }

    /** ClearRegistry: back to the empty list. */
    method Clear()
      modifies this
      ensures sources == []
    {
      sources := [];
    }
  }

  /** Writing into the array a snapshot returned leaves the registry as it was. */
  method SnapshotIsACopy(reg: Registry, other: MigrationSource)
    ensures reg.sources == old(reg.sources)
  {
    var copy := reg.Snapshot();
    if copy.Length > 0 {
      copy[0] := other;
    }
  }

  // ---------------------------------------------------------------------------
  // parseMigrationFilename

  datatype ParseError =
    | NotSql(filename: string)
    | NoDirection(filename: string)
    | NoSeparator(filename: string)
    | BadVersion(filename: string)

  datatype ParsedName = ParsedName(version: nat, name: string, isUp: bool)

  function DirectionSuffix(isUp: bool): string {
    if isUp then ".up.sql" else ".down.sql"
  }

  /** `VERSION_name.up.sql` / `VERSION_name.down.sql`, the form the parser reads. */
  function FormatFilename(version: nat, name: string, isUp: bool): string {
    DecimalString(version) + "_" + name + DirectionSuffix(isUp)
  }

  /** parseMigrationFilename: the checks below, made on the base name of the path. Errors
      name the path as given. */
  function ParseMigrationFilename(filename: string): Result<ParsedName, ParseError> {
    ParseBaseName(filename, Base(filename))
  }

  /** Strip ".sql", then ".up" or ".down", split at the first '_', scan the version. */
  function ParseBaseName(filename: string, base: string): Result<ParsedName, ParseError> {
    if !HasSuffix(base, ".sql") then Err(NotSql(filename))
    else
      var t := TrimSuffix(base, ".sql");
      if HasSuffix(t, ".up") then ParseStem(filename, TrimSuffix(t, ".up"), true)
      else if HasSuffix(t, ".down") then ParseStem(filename, TrimSuffix(t, ".down"), false)
      else Err(NoDirection(filename))
  }

  /** The last two checks of the parser, on the name with its suffixes removed. */
  function ParseStem(filename: string, stem: string, isUp: bool): Result<ParsedName, ParseError> {
    match Cut(stem, '_')
    case None => Err(NoSeparator(filename))
    case Some((versionText, name)) =>
      match ScanUint(versionText)
      case None => Err(BadVersion(filename))
      case Some(v) => Ok(ParsedName(v, name, isUp))
  }

  /** The same checks read off the whole base name rather than by trimming: it ends in ".sql";
      it ends in ".up.sql" or ".down.sql"; it contains a '_'; the text before the first '_'
      scans as an unsigned number. The name is what lies between the first '_' and the
      direction suffix. */
  function WholeName(filename: string, base: string): Result<ParsedName, ParseError> {
    if !HasSuffix(base, ".sql") then Err(NotSql(filename))
    else if !HasSuffix(base, ".up.sql") && !HasSuffix(base, ".down.sql") then Err(NoDirection(filename))
    else
      var isUp := HasSuffix(base, ".up.sql");
      match Cut(base, '_')
      case None => Err(NoSeparator(filename))
      case Some((versionText, rest)) =>
        match ScanUint(versionText)
        case None => Err(BadVersion(filename))
        case Some(v) => Ok(ParsedName(v, TrimSuffix(rest, DirectionSuffix(isUp)), isUp))
  }

  /** Trimming ".sql" and then ".up"/".down" makes exactly the checks of `WholeName`. */
  lemma ParseReadsWholeName(filename: string, b: string)
    ensures ParseBaseName(filename, b) == WholeName(filename, b)
  {
    UpAndDownExclusive(b);
    if HasSuffix(b, ".up.sql") {
      TrimDirection(filename, b, true);
      StemAgainstWholeName(filename, b, TrimSuffix(TrimSuffix(b, ".sql"), ".up"), true);
    } else if HasSuffix(b, ".down.sql") {
      TrimDirection(filename, b, false);
      StemAgainstWholeName(filename, b, TrimSuffix(TrimSuffix(b, ".sql"), ".down"), false);
    } else if HasSuffix(b, ".sql") {
      SuffixSplit(b, ".up", ".sql");
      SuffixSplit(b, ".down", ".sql");
      assert ".up" + ".sql" == ".up.sql";
      assert ".down" + ".sql" == ".down.sql";
    }
  }

  /** With a direction suffix present, the parser goes on with the stem in front of it. */
  lemma TrimDirection(filename: string, b: string, isUp: bool)
    requires HasSuffix(b, DirectionSuffix(isUp))
    requires !isUp ==> !HasSuffix(b, ".up.sql")
    ensures var stem := TrimSuffix(TrimSuffix(b, ".sql"), if isUp then ".up" else ".down");
      && b == stem + DirectionSuffix(isUp)
      && ParseBaseName(filename, b) == ParseStem(filename, stem, isUp)
  {
    var dir := if isUp then ".up" else ".down";
    assert dir + ".sql" == DirectionSuffix(isUp);
    DirectionEndsInSql(b);
    SuffixSplit(b, dir, ".sql");
    if !isUp {
      SuffixSplit(b, ".up", ".sql");
      assert ".up" + ".sql" == ".up.sql";
    }
  }

  /** Splitting the stem at its first '_' is splitting the whole base name there. */
  lemma StemAgainstWholeName(filename: string, b: string, stem: string, isUp: bool)
    requires b == stem + DirectionSuffix(isUp)
    ensures ParseStem(filename, stem, isUp) == WholeName(filename, b)
  {
    var suffix := DirectionSuffix(isUp);
    DirectionOfSuffixed(stem, isUp);
    CutAppend(stem, suffix, '_');
    if Cut(stem, '_').Some? {
      var rest := Cut(stem, '_').value.1;
      SuffixOfAppend(rest, suffix);
    }
  }

  lemma DirectionOfSuffixed(s: string, isUp: bool)
    ensures HasSuffix(s + DirectionSuffix(isUp), DirectionSuffix(isUp))
    ensures HasSuffix(s + DirectionSuffix(isUp), ".up.sql") <==> isUp
    ensures HasSuffix(s + DirectionSuffix(isUp), ".down.sql") <==> !isUp
    ensures HasSuffix(s + DirectionSuffix(isUp), ".sql")
  {
    SuffixOfAppend(s, DirectionSuffix(isUp));
    UpAndDownExclusive(s + DirectionSuffix(isUp));
    DirectionEndsInSql(s + DirectionSuffix(isUp));
  }

  /** Either direction suffix ends in ".sql". */
  lemma DirectionEndsInSql(b: string)
    ensures HasSuffix(b, ".up.sql") || HasSuffix(b, ".down.sql") ==> HasSuffix(b, ".sql")
  {
    if HasSuffix(b, ".up.sql") {
      assert b[|b| - 4..] == b[|b| - 7..][3..];
    } else if HasSuffix(b, ".down.sql") {
      assert b[|b| - 4..] == b[|b| - 9..][5..];
    }
  }

  /** The first check: a base name not ending in ".sql" is rejected, and only such a name. */
  lemma ParseNotSqlIff(filename: string)
    ensures ParseMigrationFilename(filename) == Err(NotSql(filename)) <==> !HasSuffix(Base(filename), ".sql")
  {
    ParseReadsWholeName(filename, Base(filename));
  }

  /** The second check: a ".sql" name with neither ".up.sql" nor ".down.sql" at its end. */
  lemma ParseNoDirectionIff(filename: string)
    ensures var b := Base(filename);
      ParseMigrationFilename(filename) == Err(NoDirection(filename)) <==>
        HasSuffix(b, ".sql") && !HasSuffix(b, ".up.sql") && !HasSuffix(b, ".down.sql")
  {
    ParseReadsWholeName(filename, Base(filename));
  }

  /** The third check: a name with a direction suffix but no '_' anywhere. */
  lemma ParseNoSeparatorIff(filename: string)
    ensures var b := Base(filename);
      ParseMigrationFilename(filename) == Err(NoSeparator(filename)) <==>
        (HasSuffix(b, ".up.sql") || HasSuffix(b, ".down.sql")) && '_' !in b
  {
    ParseReadsWholeName(filename, Base(filename));
    DirectionEndsInSql(Base(filename));
  }

  /** The last check: the text before the first '_' does not scan as an unsigned number. */
  lemma ParseBadVersionIff(filename: string)
    ensures var b := Base(filename);
      ParseMigrationFilename(filename) == Err(BadVersion(filename)) <==>
        (HasSuffix(b, ".up.sql") || HasSuffix(b, ".down.sql")) && '_' in b
        && ScanUint(Cut(b, '_').value.0) == None
  {
    ParseReadsWholeName(filename, Base(filename));
    DirectionEndsInSql(Base(filename));
  }

  /** What a successful parse returns: the direction whose suffix the name carries, the
      number before the first '_', and the text between that '_' and the suffix. */
  lemma ParseSuccess(filename: string)
    requires ParseMigrationFilename(filename).Ok?
    ensures var r := ParseMigrationFilename(filename).value; var b := Base(filename);
      && HasSuffix(b, DirectionSuffix(r.isUp))
      && Cut(b, '_').Some?
      && ScanUint(Cut(b, '_').value.0) == Some(r.version)
      && Cut(b, '_').value.1 == r.name + DirectionSuffix(r.isUp)
  {
    ParseReadsWholeName(filename, Base(filename));
    WholeNameSuccess(filename, Base(filename));
  }

  lemma WholeNameSuccess(filename: string, b: string)
    requires WholeName(filename, b).Ok?
    ensures var r := WholeName(filename, b).value;
      && HasSuffix(b, DirectionSuffix(r.isUp))
      && Cut(b, '_').Some?
      && ScanUint(Cut(b, '_').value.0) == Some(r.version)
      && Cut(b, '_').value.1 == r.name + DirectionSuffix(r.isUp)
  {
    UpAndDownExclusive(b);
    var isUp := HasSuffix(b, ".up.sql");
    var suffix := DirectionSuffix(isUp);
    assert HasSuffix(b, suffix);
    var c := Cut(b, '_').value.0;
    var rest := Cut(b, '_').value.1;
    assert WholeName(filename, b) == Ok(ParsedName(ScanUint(c).value, TrimSuffix(rest, suffix), isUp));
    SuffixesHaveNoSeparator();
    CutKeepsSuffix(b, suffix);
  }

  /** Neither direction suffix contains the separator '_'. */
  lemma SuffixesHaveNoSeparator()
    ensures '_' !in ".up.sql" && '_' !in ".down.sql"
  {
    var up, down := ".up.sql", ".down.sql";
    assert forall i :: 0 <= i < |up| ==> up[i] != '_';
    assert forall i :: 0 <= i < |down| ==> down[i] != '_';
  }

  /** A suffix without '_' of a name that contains '_' lies after the first '_'. */
  lemma CutKeepsSuffix(b: string, suffix: string)
    requires HasSuffix(b, suffix) && '_' !in suffix && '_' in b
    ensures var rest := Cut(b, '_').value.1;
      HasSuffix(rest, suffix) && TrimSuffix(rest, suffix) + suffix == rest
  {
    var c := Cut(b, '_').value.0;
    var rest := Cut(b, '_').value.1;
    assert b == (c + "_") + rest;
    SuffixOfTail(c + "_", rest, suffix);
  }

  /** A suffix without '_' of `a + rest`, where `a` ends in '_', is a suffix of `rest`. */
  lemma SuffixOfTail(a: string, rest: string, suffix: string)
    requires a != [] && a[|a| - 1] == '_' && '_' !in suffix
    requires HasSuffix(a + rest, suffix)
    ensures HasSuffix(rest, suffix) && TrimSuffix(rest, suffix) + suffix == rest
  {
    var s := a + rest;
    SuffixChars(s, suffix);
    assert s[|a| - 1] == '_';
    assert |suffix| <= |rest|;
    assert s[|s| - |suffix|..] == rest[|rest| - |suffix|..];
  }

  /** Every character in the tail of `s` that `suffix` covers occurs in `suffix`. */
  lemma SuffixChars(s: string, suffix: string)
    requires HasSuffix(s, suffix)
    ensures forall j :: |s| - |suffix| <= j < |s| ==> s[j] in suffix
  {
    forall j | |s| - |suffix| <= j < |s|
      ensures s[j] in suffix
    {
      assert suffix[j - (|s| - |suffix|)] == s[j];
    }
  }

  lemma UpAndDownExclusive(b: string)
    ensures HasSuffix(b, ".up.sql") ==> !HasSuffix(b, ".down.sql")
  {
    if HasSuffix(b, ".up.sql") && |b| >= 9 {
      assert b[|b| - 7] == '.';
      assert b[|b| - 9..][2] == b[|b| - 7];
    }
  }

  lemma SuffixSplit(b: string, dir: string, ext: string)
    requires HasSuffix(b, ext)
    ensures HasSuffix(TrimSuffix(b, ext), dir) <==> HasSuffix(b, dir + ext)
    ensures HasSuffix(b, dir + ext) ==> TrimSuffix(TrimSuffix(b, ext), dir) + dir + ext == b
  {
    var t := TrimSuffix(b, ext);
    assert b == t + ext;
    if HasSuffix(b, dir + ext) {
      assert b[|b| - |dir + ext|..] == dir + ext;
      assert t[|t| - |dir|..] == b[|b| - |dir + ext|..][..|dir|];
    }
    if HasSuffix(t, dir) {
      assert b[|b| - |dir + ext|..] == t[|t| - |dir|..] + ext;
    }
  }

  lemma {:induction false} IndexOfAppend(s: string, t: string, c: char)
    requires c !in t
    ensures IndexOf(s + t, c) == IndexOf(s, c)
    decreases |s|
  {
    if |s| > 0 && s[0] != c {
      assert (s + t)[1..] == s[1..] + t;
      IndexOfAppend(s[1..], t, c);
    } else if |s| == 0 {
      assert s + t == t;
    }
  }

  /** Appending text without a `c` does not move the first `c`. */
  lemma CutAppend(s: string, t: string, c: char)
    requires c !in t
    ensures c in s + t <==> c in s
    ensures Cut(s, c).Some? ==> Cut(s + t, c) == Some((Cut(s, c).value.0, Cut(s, c).value.1 + t))
  {
    IndexOfAppend(s, t, c);
    if c in s {
      var i := IndexOf(s, c).value;
      assert (s + t)[..i] == s[..i];
      assert (s + t)[i + 1..] == s[i + 1..] + t;
    }
  }

  lemma {:induction false} IndexOfAfterPlain(a: string, c: char, rest: string)
    requires c !in a
    ensures IndexOf(a + [c] + rest, c) == Some(|a|)
    decreases |a|
  {
    if |a| > 0 {
      assert (a + [c] + rest)[1..] == a[1..] + [c] + rest;
      assert c !in a[1..];
      IndexOfAfterPlain(a[1..], c, rest);
    }
  }

  lemma CutAfterPlain(a: string, c: char, rest: string)
    requires c !in a
    ensures Cut(a + [c] + rest, c) == Some((a, rest))
  {
    IndexOfAfterPlain(a, c, rest);
    var s := a + [c] + rest;
    assert s[..|a|] == a;
    assert s[|a| + 1..] == rest;
  }

  /** A suffix of `rest` stays a suffix after text is put in front. */
  lemma SuffixOfLonger(a: string, rest: string, suffix: string)
    requires HasSuffix(rest, suffix)
    ensures HasSuffix(a + rest, suffix)
  {
    assert (a + rest)[|a + rest| - |suffix|..] == rest[|rest| - |suffix|..];
  }

  /** How the parser reads a name of the shape `versionText_body.up.sql` (or `.down.sql`)
      whose version text has no '_'. */
  lemma WholeNameOfParts(filename: string, versionText: string, body: string, isUp: bool)
    requires Base(filename) == versionText + "_" + (body + DirectionSuffix(isUp))
    requires '_' !in versionText
    ensures ParseMigrationFilename(filename) ==
      match ScanUint(versionText)
      case None => Err(BadVersion(filename))
      case Some(v) => Ok(ParsedName(v, body, isUp))
  {
    var b := Base(filename);
    var suffix := DirectionSuffix(isUp);
    ParseReadsWholeName(filename, b);
    assert b == (versionText + "_") + body + suffix;
    DirectionOfSuffixed(versionText + "_" + body, isUp);
    CutAfterPlain(versionText, '_', body + suffix);
    SuffixOfAppend(body, suffix);
  }

  lemma DigitsAreNotSeparators(digits: string)
    requires AllDigits(digits)
    ensures '_' !in digits && '/' !in digits
  {
    forall i | 0 <= i < |digits| ensures digits[i] != '_' && digits[i] != '/' {
      assert IsDigit(digits[i]);
    }
  }

  /** Round trip: the parser reads back the version, name and direction of a file name
      written in the `VERSION_name.up.sql` form, for any name free of '/'. */
  lemma ParseFormatRoundTrip(version: nat, name: string, isUp: bool)
    requires version <= MaxUint && '/' !in name
    ensures ParseMigrationFilename(FormatFilename(version, name, isUp)) == Ok(ParsedName(version, name, isUp))
  {
    var digits := DecimalString(version);
    var suffix := DirectionSuffix(isUp);
    var f := FormatFilename(version, name, isUp);
    DecimalStringDigits(version);
    DigitsAreNotSeparators(digits);
    assert f == digits + "_" + (name + suffix);
    assert '/' !in f by {
      assert '/' !in suffix;
      assert forall c :: c in f ==> c in digits || c == '_' || c in name || c in suffix;
    }
    BaseOfPlainName(f);
    ScanDecimalString(version);
    WholeNameOfParts(f, digits, name, isUp);
  }

  /** The example of the source's doc comment, "000001_create_users_table.up.sql": leading
      zeros are read as part of the number, and the name keeps its own underscores. */
  lemma ParseExample()
    ensures ParseMigrationFilename("000001" + "_" + ("create_users_table" + ".up.sql"))
         == Ok(ParsedName(1, "create_users_table", true))
  {
    var f := "000001" + "_" + ("create_users_table" + ".up.sql");
    ExampleIsPlain(f);
    BaseOfPlainName(f);
    ScanLeadingZeros();
    assert DirectionSuffix(true) == ".up.sql";
    WholeNameOfParts(f, "000001", "create_users_table", true);
  }

  lemma ExampleIsPlain(f: string)
    requires f == "000001" + "_" + ("create_users_table" + ".up.sql")
    ensures f != [] && '/' !in f
  {
    assert forall c :: c in f ==> c in "000001" || c == '_' || c in "create_users_table" || c in ".up.sql";
  }

  lemma ScanLeadingZeros()
    ensures '_' !in "000001" && ScanUint("000001") == Some(1)
  {
    LeadingDigitsOfDigits("000001", []);
    assert "000001" + [] == "000001";
    assert "000001"[..5] == "00000";
    assert "00000"[..4] == "0000";
    assert "0000"[..3] == "000";
    assert "000"[..2] == "00";
    assert "00"[..1] == "0";
    assert DecimalValue("000001") == 1;
    assert !IsScanSpace('0');
  }

  // ---------------------------------------------------------------------------
  // loadMigrationsFromDirectory: classifying one file name

  datatype Direction = Up | Down

  datatype FileMatch = FileMatch(version: nat, name: string, direction: Direction)

  /** How the directory loader reads a base name: split at the first '_', scan the part in
      front as the version, then look for ".up.sql" or ".down.sql" at the end of the rest.
      `None` is a file the loader skips without an error. Unlike the parser, it does not
      look at the whole name's suffix and does not go through `ParseMigrationFilename`. */
  function MatchLoaderName(filename: string): Option<FileMatch> {
    match Cut(filename, '_')
    case None => None
    case Some((versionText, nameAndType)) =>
      match ScanUint(versionText)
      case None => None
      case Some(v) =>
        if HasSuffix(nameAndType, ".up.sql") then Some(FileMatch(v, TrimSuffix(nameAndType, ".up.sql"), Up))
        else if HasSuffix(nameAndType, ".down.sql") then Some(FileMatch(v, TrimSuffix(nameAndType, ".down.sql"), Down))
        else None
  }

  /** For a direction suffix free of '_', the tail after the first '_' carries it exactly
      when the whole name does. */
  lemma TailSuffixIff(a: string, rest: string, suffix: string)
    requires a != [] && a[|a| - 1] == '_' && '_' !in suffix
    ensures HasSuffix(a + rest, suffix) <==> HasSuffix(rest, suffix)
  {
    if HasSuffix(a + rest, suffix) {
      SuffixOfTail(a, rest, suffix);
    }
    if HasSuffix(rest, suffix) {
      SuffixOfLonger(a, rest, suffix);
    }
  }

  /** On bare file names the loader and the parser accept the same names and read the same
      version, name and direction from them; the loader skips exactly what the parser rejects. */
  lemma LoaderAgreesWithParser(filename: string)
    requires filename != [] && '/' !in filename
    ensures MatchLoaderName(filename).Some? <==> ParseMigrationFilename(filename).Ok?
    ensures MatchLoaderName(filename).Some? ==>
      var m := MatchLoaderName(filename).value; var p := ParseMigrationFilename(filename).value;
      m.version == p.version && m.name == p.name && (m.direction == Up <==> p.isUp)
  {
    BaseOfPlainName(filename);
    ParseReadsWholeName(filename, filename);
    LoaderAgreesWithWholeName(filename);
  }

  lemma LoaderAgreesWithWholeName(filename: string)
    ensures MatchLoaderName(filename).Some? <==> WholeName(filename, filename).Ok?
    ensures MatchLoaderName(filename).Some? ==>
      var m := MatchLoaderName(filename).value; var p := WholeName(filename, filename).value;
      m.version == p.version && m.name == p.name && (m.direction == Up <==> p.isUp)
  {
    UpAndDownExclusive(filename);
    DirectionEndsInSql(filename);
    if Cut(filename, '_').Some? {
      var c := Cut(filename, '_').value.0;
      var rest := Cut(filename, '_').value.1;
      assert filename == (c + "_") + rest;
      SuffixesHaveNoSeparator();
      TailSuffixIff(c + "_", rest, ".up.sql");
      TailSuffixIff(c + "_", rest, ".down.sql");
      if ScanUint(c).Some? {
        var v := ScanUint(c).value;
        if HasSuffix(rest, ".up.sql") {
          assert MatchLoaderName(filename) == Some(FileMatch(v, TrimSuffix(rest, ".up.sql"), Up));
          assert WholeName(filename, filename) == Ok(ParsedName(v, TrimSuffix(rest, ".up.sql"), true));
        } else if HasSuffix(rest, ".down.sql") {
          assert MatchLoaderName(filename) == Some(FileMatch(v, TrimSuffix(rest, ".down.sql"), Down));
          assert WholeName(filename, filename) == Ok(ParsedName(v, TrimSuffix(rest, ".down.sql"), false));
        } else {
          assert MatchLoaderName(filename) == None;
        }
      }
    }
  }

  // ---------------------------------------------------------------------------
  // loadMigrationsFromDirectory: grouping the files by version

  /** One path the "*.sql" glob returned, with what reading it gives (`None`: the read fails). */
  datatype FileEntry = FileEntry(path: string, content: Option<string>)

  /** What globbing a directory gives: the matching paths in order, or a failure (a malformed
      pattern). */
  datatype Listing = Listed(entries: seq<FileEntry>) | GlobFailed

  /** The directories the loader can see. A directory that is not there lists as empty, as the
      glob ignores I/O errors. */
  datatype FileSystem = FileSystem(dirs: map<string, Listing>)

  function ListingOf(fs: FileSystem, directory: string): Listing {
    if directory in fs.dirs then fs.dirs[directory] else Listed([])
  }

  datatype LoadError =
    | ListFailed(directory: string)
    | ReadFailed(path: string)
    | NoLocation(source: string)
    | SourceFailed(source: string, cause: LoadError)

  /** What the loop body of the loader makes of one listed entry: a name it skips, a
      migration file it cannot read, or a migration file with its content. */
  datatype Item = Skipped | Unreadable(path: string) | Readable(file: FileMatch, content: string)

  function Classify(e: FileEntry): Item {
    match MatchLoaderName(Base(e.path))
    case None => Skipped
    case Some(f) =>
      match e.content
      case None => Unreadable(e.path)
      case Some(c) => Readable(f, c)
  }

  function ClassifyAll(entries: seq<FileEntry>): (items: seq<Item>)
    ensures |items| == |entries|
    ensures forall i :: 0 <= i < |entries| ==> items[i] == Classify(entries[i])
  {
    if entries == [] then [] else [Classify(entries[0])] + ClassifyAll(entries[1..])
  }

  /** The item is a migration file of version `v`. */
  predicate HasVersion(item: Item, v: nat) {
    item.Readable? && item.file.version == v
  }

  /** The item is a migration file of version `v` and direction `d`. */
  predicate IsFile(item: Item, v: nat, d: Direction) {
    HasVersion(item, v) && item.file.direction == d
  }

  function Content(m: Migration, d: Direction): string {
    if d == Up then m.upContent else m.downContent
  }

  function WithContent(m: Migration, d: Direction, content: string): (r: Migration)
    ensures Content(r, d) == content
    ensures forall d' :: d' != d ==> Content(r, d') == Content(m, d')
    ensures r.version == m.version && r.name == m.name && r.source == m.source
  {
    if d == Up then m.(upContent := content) else m.(downContent := content)
  }

  /** Every entry sits under its own version. */
  predicate KeyedByVersion(m: map<nat, Migration>) {
    forall v :: v in m ==> m[v].version == v
  }

  /** One readable migration file goes into the map: a version seen for the first time gets
      a new record with this file's name; then the content of the file's direction is set,
      replacing what an earlier file of the same version and direction put there. */
  function AddFile(m: map<nat, Migration>, sourceName: string, f: FileMatch, content: string): map<nat, Migration> {
    var existing := if f.version in m then m[f.version] else Migration(f.version, f.name, sourceName, "", "");
    m[f.version := WithContent(existing, f.direction, content)]
  }

  /** Creating the record when the version is new and then setting one content is `AddFile`. */
  lemma AddFileInTwoSteps(m: map<nat, Migration>, created: map<nat, Migration>, sourceName: string, f: FileMatch, content: string)
    requires created == if f.version in m then m else m[f.version := Migration(f.version, f.name, sourceName, "", "")]
    ensures f.version in created
    ensures created[f.version := WithContent(created[f.version], f.direction, content)] == AddFile(m, sourceName, f, content)
  {
  }

  /** The loop of the loader over the classified entries, as a fold over ever longer
      prefixes: skipped names leave the map alone, an unreadable file ends the loop. */
  function GroupItems(sourceName: string, items: seq<Item>): Result<map<nat, Migration>, LoadError>
    decreases |items|
  {
    if items == [] then Ok(map[])
    else
      match GroupItems(sourceName, items[..|items| - 1])
      case Err(e) => Err(e)
      case Ok(m) => GroupStep(sourceName, m, items[|items| - 1])
  }

  function GroupStep(sourceName: string, m: map<nat, Migration>, item: Item): Result<map<nat, Migration>, LoadError> {
    match item
    case Skipped => Ok(m)
    case Unreadable(path) => Err(ReadFailed(path))
    case Readable(f, c) => Ok(AddFile(m, sourceName, f, c))
  }

  function Group(sourceName: string, entries: seq<FileEntry>): Result<map<nat, Migration>, LoadError> {
    GroupItems(sourceName, ClassifyAll(entries))
  }

  /** Grouping fails exactly when some migration file cannot be read, and then names the
      path of the first such file. */
  lemma {:induction false} GroupError(sourceName: string, items: seq<Item>)
    ensures GroupItems(sourceName, items).Err? <==> exists i :: 0 <= i < |items| && items[i].Unreadable?
    ensures GroupItems(sourceName, items).Err? ==>
      exists i :: 0 <= i < |items| && items[i].Unreadable?
        && (forall j :: 0 <= j < i ==> !items[j].Unreadable?)
        && GroupItems(sourceName, items).error == ReadFailed(items[i].path)
    decreases |items|
  {
    if items != [] {
      var n := |items| - 1;
      var pre := items[..n];
      GroupError(sourceName, pre);
      assert forall j :: 0 <= j < n ==> pre[j] == items[j];
      if GroupItems(sourceName, pre).Err? {
        var i :| 0 <= i < n && pre[i].Unreadable?
          && (forall j :: 0 <= j < i ==> !pre[j].Unreadable?)
          && GroupItems(sourceName, pre).error == ReadFailed(pre[i].path);
        assert items[i].Unreadable?;
      } else if items[n].Unreadable? {
        assert forall j :: 0 <= j < n ==> !items[j].Unreadable?;
      } else {
        forall i | 0 <= i < |items| ensures !items[i].Unreadable? {
          if i < n {
            assert !pre[i].Unreadable?;
          }
        }
      }
    }
  }

  /** After a successful grouping, the map has one entry for each version some migration file
      carries and no other; each entry is keyed by its version and names this source. */
  lemma {:induction false} GroupKeys(sourceName: string, items: seq<Item>)
    requires GroupItems(sourceName, items).Ok?
    ensures var m := GroupItems(sourceName, items).value;
      && KeyedByVersion(m)
      && (forall v :: v in m <==> exists i :: 0 <= i < |items| && HasVersion(items[i], v))
      && (forall v :: v in m ==> m[v].source == sourceName)
    decreases |items|
  {
    if items != [] {
      var n := |items| - 1;
      var pre := items[..n];
      GroupKeys(sourceName, pre);
      var m0 := GroupItems(sourceName, pre).value;
      var m := GroupItems(sourceName, items).value;
      forall v ensures v in m <==> exists i :: 0 <= i < |items| && HasVersion(items[i], v) {
        assert v in m <==> v in m0 || HasVersion(items[n], v);
        if v in m0 {
          var i :| 0 <= i < n && HasVersion(pre[i], v);
          assert items[i] == pre[i];
        }
        if exists i :: 0 <= i < |items| && HasVersion(items[i], v) {
          var i :| 0 <= i < |items| && HasVersion(items[i], v);
          if i < n {
            assert HasVersion(pre[i], v);
          }
        }
      }
    }
  }

  /** `items[i]` is the first migration file of version `v`. */
  predicate FirstWithVersion(items: seq<Item>, i: int, v: nat) {
    0 <= i < |items| && HasVersion(items[i], v) && forall j :: 0 <= j < i ==> !HasVersion(items[j], v)
  }

  /** The name of an entry is the name of the first migration file of its version: a later
      file of the same version, in either direction, does not rename it. */
  lemma {:induction false} GroupNames(sourceName: string, items: seq<Item>)
    requires GroupItems(sourceName, items).Ok?
    ensures var m := GroupItems(sourceName, items).value;
      forall v :: v in m ==> exists i :: FirstWithVersion(items, i, v) && m[v].name == items[i].file.name
    decreases |items|
  {
    if items != [] {
      var n := |items| - 1;
      var pre := items[..n];
      GroupNames(sourceName, pre);
      GroupKeys(sourceName, pre);
      var m0 := GroupItems(sourceName, pre).value;
      var m := GroupItems(sourceName, items).value;
      forall v | v in m ensures exists i :: FirstWithVersion(items, i, v) && m[v].name == items[i].file.name {
        if v in m0 {
          var i :| FirstWithVersion(pre, i, v) && m0[v].name == pre[i].file.name;
          assert items[i] == pre[i];
          assert forall j :: 0 <= j < i ==> items[j] == pre[j];
          assert FirstWithVersion(items, i, v);
        } else {
          assert HasVersion(items[n], v);
          forall j | 0 <= j < n ensures !HasVersion(items[j], v) {
            assert items[j] == pre[j];
          }
          assert FirstWithVersion(items, n, v);
        }
      }
    }
  }

  /** The content of `c` for version `v` and direction `d` is what the last such file holds,
      or empty when there is no such file. */
  predicate LastContent(items: seq<Item>, v: nat, d: Direction, c: string) {
    || (c == "" && forall i :: 0 <= i < |items| ==> !IsFile(items[i], v, d))
    || (exists i :: 0 <= i < |items| && IsFile(items[i], v, d) && items[i].content == c
          && forall j :: i < j < |items| ==> !IsFile(items[j], v, d))
  }

  /** An up file and a down file of one version merge into one entry, and a later file of the
      same version and direction overwrites the content an earlier one put there. */
  lemma {:induction false} GroupContents(sourceName: string, items: seq<Item>)
    requires GroupItems(sourceName, items).Ok?
    ensures var m := GroupItems(sourceName, items).value;
      forall v, d :: v in m ==> LastContent(items, v, d, Content(m[v], d))
    decreases |items|
  {
    if items != [] {
      var n := |items| - 1;
      var pre := items[..n];
      GroupContents(sourceName, pre);
      GroupKeys(sourceName, pre);
      var m0 := GroupItems(sourceName, pre).value;
      var m := GroupItems(sourceName, items).value;
      forall v, d | v in m ensures LastContent(items, v, d, Content(m[v], d)) {
        if IsFile(items[n], v, d) {
          assert Content(m[v], d) == items[n].content;
        } else {
          assert v in m0 ==> Content(m[v], d) == Content(m0[v], d);
          assert v !in m0 ==> Content(m[v], d) == "";
          if v in m0 {
            LastContentExtend(pre, items[n], v, d, Content(m0[v], d));
          } else {
            assert forall i :: 0 <= i < |pre| ==> !HasVersion(pre[i], v);
            LastContentExtend(pre, items[n], v, d, "");
          }
          assert pre + [items[n]] == items;
        }
      }
    }
  }

  lemma LastContentExtend(pre: seq<Item>, last: Item, v: nat, d: Direction, c: string)
    requires !IsFile(last, v, d)
    requires LastContent(pre, v, d, c)
    ensures LastContent(pre + [last], v, d, c)
  {
    var s := pre + [last];
    if exists i :: 0 <= i < |pre| && IsFile(pre[i], v, d) && pre[i].content == c
         && forall j :: i < j < |pre| ==> !IsFile(pre[j], v, d)
    {
      var i :| 0 <= i < |pre| && IsFile(pre[i], v, d) && pre[i].content == c
         && forall j :: i < j < |pre| ==> !IsFile(pre[j], v, d);
      assert s[i] == pre[i];
      forall j | i < j < |s| ensures !IsFile(s[j], v, d) {
        if j < |pre| {
          assert s[j] == pre[j];
        }
      }
    } else {
      assert c == "" && forall i :: 0 <= i < |pre| ==> !IsFile(pre[i], v, d);
      forall i | 0 <= i < |s| ensures !IsFile(s[i], v, d) {
        if i < |pre| {
          assert s[i] == pre[i];
        }
      }
    }
  }

  // ---------------------------------------------------------------------------
  // Ordering by version

  predicate SortedByVersion(s: seq<Migration>) {
    forall i, j :: 0 <= i < j < |s| ==> s[i].version <= s[j].version
  }

  predicate StrictlyAscending(s: seq<Migration>) {
    forall i, j :: 0 <= i < j < |s| ==> s[i].version < s[j].version
  }

  function Insert(x: Migration, s: seq<Migration>): (r: seq<Migration>)
    requires SortedByVersion(s)
    ensures SortedByVersion(r)
    ensures multiset(r) == multiset(s) + multiset{x}
    ensures |r| == |s| + 1
    ensures r[0] == x || (s != [] && r[0] == s[0])
  {
    if s == [] || x.version <= s[0].version then [x] + s
    else
      assert s == [s[0]] + s[1..];
      [s[0]] + Insert(x, s[1..])
  }

  /** `sort.Slice` by version. The library's sort is not stable, so all that is promised is
      that the result is ordered by version and holds the same migrations. */
  function SortByVersion(s: seq<Migration>): (r: seq<Migration>)
    ensures SortedByVersion(r)
    ensures multiset(r) == multiset(s)
  {
    if s == [] then []
    else
      assert s == [s[0]] + s[1..];
      Insert(s[0], SortByVersion(s[1..]))
  }

  /** Every element of `r` is the entry `m` holds under the element's version. */
  predicate EntriesOf(r: seq<Migration>, m: map<nat, Migration>) {
    forall i :: 0 <= i < |r| ==> r[i].version in m && m[r[i].version] == r[i]
  }

  /** Every version `m` holds has an element in `r`. */
  predicate CoversKeys(r: seq<Migration>, m: map<nat, Migration>) {
    forall v :: v in m ==> exists i :: 0 <= i < |r| && r[i].version == v
  }

  /** `r` lists the entries of `m`, each once, in strictly ascending order of version. */
  predicate ListsExactly(r: seq<Migration>, m: map<nat, Migration>) {
    StrictlyAscending(r) && EntriesOf(r, m) && CoversKeys(r, m)
  }

  ghost function MinKey(s: set<nat>): (k: nat)
    requires s != {}
    ensures k in s && forall j :: j in s ==> k <= j
    decreases |s|
  {
    var x :| x in s;
    if s == {x} then
      assert forall j :: j in s ==> j == x;
      x
    else
      var y := MinKey(s - {x});
      assert forall j :: j in s ==> j == x || j in s - {x};
      if x <= y then x else y
  }

  /** The entries of a version-keyed map in ascending order of version. */
  ghost function SortedValues(m: map<nat, Migration>): (r: seq<Migration>)
    requires KeyedByVersion(m)
    ensures ListsExactly(r, m)
    ensures |r| == |m|
    decreases |m|
  {
    if |m| == 0 then []
    else
      var k := MinKey(m.Keys);
      var rest := m - {k};
      assert |rest| == |m| - 1 by {
        assert rest.Keys == m.Keys - {k};
      }
      var tail := SortedValues(rest);
      ConsListsExactly(m, k, tail);
      [m[k]] + tail
  }

  lemma ConsListsExactly(m: map<nat, Migration>, k: nat, tail: seq<Migration>)
    requires KeyedByVersion(m) && k in m && forall j :: j in m ==> k <= j
    requires ListsExactly(tail, m - {k})
    ensures ListsExactly([m[k]] + tail, m)
  {
    ConsEntries(m, k, tail);
    ConsAscending(m, k, tail);
    ConsCovers(m, k, tail);
  }

  lemma ConsEntries(m: map<nat, Migration>, k: nat, tail: seq<Migration>)
    requires KeyedByVersion(m) && k in m
    requires EntriesOf(tail, m - {k})
    ensures EntriesOf([m[k]] + tail, m)
  {
    var r := [m[k]] + tail;
    forall i | 0 <= i < |r| ensures r[i].version in m && m[r[i].version] == r[i] {
      if i > 0 {
        assert r[i] == tail[i - 1];
      }
    }
  }

  lemma ConsAscending(m: map<nat, Migration>, k: nat, tail: seq<Migration>)
    requires KeyedByVersion(m) && k in m && forall j :: j in m ==> k <= j
    requires StrictlyAscending(tail) && EntriesOf(tail, m - {k})
    ensures StrictlyAscending([m[k]] + tail)
  {
    var r := [m[k]] + tail;
    forall i, j | 0 <= i < j < |r| ensures r[i].version < r[j].version {
      assert r[j] == tail[j - 1];
      if i > 0 {
        assert r[i] == tail[i - 1];
      } else {
        assert tail[j - 1].version in m - {k};
      }
    }
  }

  lemma ConsCovers(m: map<nat, Migration>, k: nat, tail: seq<Migration>)
    requires KeyedByVersion(m) && k in m
    requires CoversKeys(tail, m - {k})
    ensures CoversKeys([m[k]] + tail, m)
  {
    var r := [m[k]] + tail;
    forall v | v in m ensures exists i :: 0 <= i < |r| && r[i].version == v {
      if v == k {
        assert r[0].version == v;
      } else {
        assert v in m - {k};
        var i :| 0 <= i < |tail| && tail[i].version == v;
        assert r[i + 1] == tail[i];
      }
    }
  }

  /** There is only one way to list a map's entries in strictly ascending order. */
  lemma {:induction false} ListsExactlyUnique(a: seq<Migration>, b: seq<Migration>, m: map<nat, Migration>)
    requires ListsExactly(a, m) && ListsExactly(b, m)
    ensures a == b
    decreases |a|
  {
    EmptyListing(a, m);
    EmptyListing(b, m);
    if a != [] && b != [] {
      HeadIsLeast(a, m);
      HeadIsLeast(b, m);
      var k := a[0].version;
      assert b[0].version == k;
      assert a[0] == b[0];
      TailListsExactly(a, m);
      TailListsExactly(b, m);
      ListsExactlyUnique(a[1..], b[1..], m - {k});
      assert |a| == |b|;
      forall i | 0 <= i < |a| ensures a[i] == b[i] {
        if i > 0 {
          assert a[i] == a[1..][i - 1] && b[i] == b[1..][i - 1];
        }
      }
    }
  }

  lemma EmptyListing(r: seq<Migration>, m: map<nat, Migration>)
    requires ListsExactly(r, m)
    ensures r == [] <==> m == map[]
  {
    if r == [] {
      assert forall v :: v !in m;
      assert m.Keys == {};
    }
    HeadInMap(r, m);
  }

  lemma HeadInMap(r: seq<Migration>, m: map<nat, Migration>)
    requires ListsExactly(r, m)
    ensures r != [] ==> r[0].version in m
  {
  }

  lemma HeadIsLeast(a: seq<Migration>, m: map<nat, Migration>)
    requires a != [] && ListsExactly(a, m)
    ensures a[0].version in m && a[0] == m[a[0].version]
    ensures forall v :: v in m ==> a[0].version <= v
  {
    forall v | v in m ensures a[0].version <= v {
      var i :| 0 <= i < |a| && a[i].version == v;
      if i > 0 {
        assert a[0].version < a[i].version;
      }
    }
  }

  lemma TailListsExactly(a: seq<Migration>, m: map<nat, Migration>)
    requires a != [] && ListsExactly(a, m)
    ensures ListsExactly(a[1..], m - {a[0].version})
  {
    TailEntries(a, m);
    TailCovers(a, m);
  }

  lemma TailEntries(a: seq<Migration>, m: map<nat, Migration>)
    requires a != [] && StrictlyAscending(a) && EntriesOf(a, m)
    ensures EntriesOf(a[1..], m - {a[0].version})
  {
    var k := a[0].version;
    var t := a[1..];
    forall i | 0 <= i < |t| ensures t[i].version in m - {k} && (m - {k})[t[i].version] == t[i] {
      assert t[i] == a[i + 1];
    }
  }

  lemma TailCovers(a: seq<Migration>, m: map<nat, Migration>)
    requires a != [] && CoversKeys(a, m)
    ensures CoversKeys(a[1..], m - {a[0].version})
  {
    var k := a[0].version;
    var t := a[1..];
    forall v | v in m - {k} ensures exists i :: 0 <= i < |t| && t[i].version == v {
      var i :| 0 <= i < |a| && a[i].version == v;
      assert i != 0;
      assert t[i - 1] == a[i];
    }
  }

  /** No two entries carry the same version. */
  predicate DistinctVersions(s: seq<Migration>) {
    forall i, j :: 0 <= i < j < |s| ==> s[i].version != s[j].version
  }

  /** `s` holds entries of `m` under their own versions, and every version of `m`. */
  predicate CoversMap(s: seq<Migration>, m: map<nat, Migration>) {
    && (forall i :: 0 <= i < |s| ==> s[i].version in m && m[s[i].version] == s[i])
    && (forall v :: v in m ==> exists i :: 0 <= i < |s| && s[i].version == v)
  }

  lemma {:induction false} AtMostOneCopy(s: seq<Migration>)
    requires DistinctVersions(s)
    ensures forall x :: multiset(s)[x] <= 1
    decreases |s|
  {
    if s != [] {
      var n := |s| - 1;
      AtMostOneCopy(s[..n]);
      assert s == s[..n] + [s[n]];
      forall x ensures multiset(s)[x] <= 1 {
        if x == s[n] {
          forall i | 0 <= i < n ensures s[..n][i] != x {
            assert s[..n][i] == s[i];
          }
          assert x !in s[..n];
        }
      }
    }
  }

  lemma TwoCopies(s: seq<Migration>, i: nat, j: nat)
    requires i < j < |s|
    ensures s[i] == s[j] ==> multiset(s)[s[i]] >= 2
  {
    assert s == s[..j] + [s[j]] + s[j + 1..];
    assert s[..j][i] == s[i];
    assert s[i] in multiset(s[..j]);
  }

  /** Sorting a list that covers a version-keyed map without repeating a version gives the
      map's entries in strictly ascending order. */
  lemma SortedCover(s: seq<Migration>, r: seq<Migration>, m: map<nat, Migration>)
    requires KeyedByVersion(m) && DistinctVersions(s) && CoversMap(s, m)
    requires SortedByVersion(r) && multiset(r) == multiset(s)
    ensures ListsExactly(r, m)
  {
    forall i | 0 <= i < |r| ensures r[i].version in m && m[r[i].version] == r[i] {
      assert r[i] in multiset(s);
      var j :| 0 <= j < |s| && s[j] == r[i];
    }
    forall v | v in m ensures exists i :: 0 <= i < |r| && r[i].version == v {
      var j :| 0 <= j < |s| && s[j].version == v;
      assert s[j] in multiset(r);
      var i :| 0 <= i < |r| && r[i] == s[j];
    }
    AtMostOneCopy(s);
    forall i, j | 0 <= i < j < |r| ensures r[i].version < r[j].version {
      assert r[i].version == r[j].version ==> r[i] == r[j];
      TwoCopies(r, i, j);
      assert multiset(r)[r[i]] <= 1;
    }
  }

  /** The loader's walk over the map: every entry once, in an order the model leaves open
      (Go's map iteration order is unspecified). */
  method CollectValues(m: map<nat, Migration>) returns (out: seq<Migration>)
    requires KeyedByVersion(m)
    ensures DistinctVersions(out) && CoversMap(out, m)
  {
    out := [];
    var keys := m.Keys;
    while keys != {}
      invariant keys <= m.Keys
      invariant DistinctVersions(out)
      invariant forall i :: 0 <= i < |out| ==> out[i].version in m && m[out[i].version] == out[i]
      invariant forall i :: 0 <= i < |out| ==> out[i].version !in keys
      invariant forall v :: v in m ==> v in keys || exists i :: 0 <= i < |out| && out[i].version == v
      decreases |keys|
    {
      var k :| k in keys;
      ghost var before := out;
      out := out + [m[k]];
      keys := keys - {k};
      assert forall i :: 0 <= i < |before| ==> out[i] == before[i];
      assert out[|before|].version == k;
    }
  }

  /** What loadMigrationsFromDirectory returns: a failed glob, the first unreadable migration
      file, or one migration per version in ascending order. */
  ghost function DirectoryMigrations(fs: FileSystem, source: MigrationSource): Result<seq<Migration>, LoadError> {
    match ListingOf(fs, source.directory)
    case GlobFailed => Err(ListFailed(source.directory))
    case Listed(entries) =>
      match Group(source.name, entries)
      case Err(e) => Err(e)
      case Ok(m) =>
        GroupKeys(source.name, ClassifyAll(entries));
        Ok(SortedValues(m))
  }

  lemma {:induction false} GroupErrorPersists(sourceName: string, items: seq<Item>, k: nat)
    requires k <= |items| && GroupItems(sourceName, items[..k]).Err?
    ensures GroupItems(sourceName, items) == GroupItems(sourceName, items[..k])
    decreases |items| - k
  {
    if k < |items| {
      assert items[..k + 1][..k] == items[..k];
      GroupErrorPersists(sourceName, items, k + 1);
    } else {
      assert items[..k] == items;
    }
  }

  lemma GroupOneMore(sourceName: string, items: seq<Item>, i: nat)
    requires i < |items|
    ensures GroupItems(sourceName, items[..i]).Ok? ==>
      GroupItems(sourceName, items[..i + 1]) == GroupStep(sourceName, GroupItems(sourceName, items[..i]).value, items[i])
  {
    assert items[..i + 1][..i] == items[..i];
  }

  /** The loop of loadMigrationsFromDirectory over the listed entries, building the map
      from version to migration in place. */
  method GroupEntries(sourceName: string, entries: seq<FileEntry>) returns (r: Result<map<nat, Migration>, LoadError>)
    ensures r == Group(sourceName, entries)
  {
    ghost var items := ClassifyAll(entries);
    var migrationMap: map<nat, Migration> := map[];
    var i := 0;
    while i < |entries|
      invariant 0 <= i <= |entries|
      invariant GroupItems(sourceName, items[..i]) == Ok(migrationMap)
    {
      // The name checks and the file read of one entry (see `Classify`).
      var item := Classify(entries[i]);
      GroupOneMore(sourceName, items, i);
      match item {
      case Skipped =>
      case Unreadable(path) =>
        GroupErrorPersists(sourceName, items, i + 1);
        return Err(ReadFailed(path));
      case Readable(f, content) =>
        ghost var before := migrationMap;
        if f.version !in migrationMap {
          migrationMap := migrationMap[f.version := Migration(f.version, f.name, sourceName, "", "")];
        }
        AddFileInTwoSteps(before, migrationMap, sourceName, f, content);
        migrationMap := migrationMap[f.version := WithContent(migrationMap[f.version], f.direction, content)];
      }
      i := i + 1;
    }
    assert items[..|entries|] == items;
    return Ok(migrationMap);
  }

  /** loadMigrationsFromDirectory: list, group, then copy the map out and sort it by version. */
  method LoadFromDirectory(fs: FileSystem, source: MigrationSource) returns (r: Result<seq<Migration>, LoadError>)
    ensures r == DirectoryMigrations(fs, source)
  {
    var listing := ListingOf(fs, source.directory);
    if listing.GlobFailed? {
      return Err(ListFailed(source.directory));
    }
    var grouped := GroupEntries(source.name, listing.entries);
    if grouped.Err? {
      return Err(grouped.error);
    }
    var migrationMap := grouped.value;
    GroupKeys(source.name, ClassifyAll(listing.entries));
    var migrations := CollectValues(migrationMap);
    var sorted := SortByVersion(migrations);
    SortedCover(migrations, sorted, migrationMap);
    ListsExactlyUnique(sorted, SortedValues(migrationMap), migrationMap);
    return Ok(sorted);
  }

  /** Some migration in `r` has version `v`. */
  predicate ListsVersion(r: seq<Migration>, v: nat) {
    exists i :: 0 <= i < |r| && r[i].version == v
  }

  /** Some migration file among `items` has version `v`. */
  predicate HasFileOfVersion(items: seq<Item>, v: nat) {
    exists j :: 0 <= j < |items| && HasVersion(items[j], v)
  }

  /** `r` is what loading the classified `items` of one source must give: the versions
      appear in strictly ascending order, one migration for each version some migration file
      carries, under this source's name, with the first such file's name and, per direction,
      the last such file's content. */
  ghost predicate LoadedFrom(r: seq<Migration>, sourceName: string, items: seq<Item>) {
    && StrictlyAscending(r)
    && (forall i :: 0 <= i < |r| ==> r[i].source == sourceName)
    && (forall v :: ListsVersion(r, v) <==> HasFileOfVersion(items, v))
    && (forall i :: 0 <= i < |r| ==>
          exists j :: FirstWithVersion(items, j, r[i].version) && r[i].name == items[j].file.name)
    && (forall i, d :: 0 <= i < |r| ==> LastContent(items, r[i].version, d, Content(r[i], d)))
  }

  /** What the directory loader returns, read back in terms of the listed files. */
  lemma DirectoryResult(fs: FileSystem, source: MigrationSource)
    requires DirectoryMigrations(fs, source).Ok?
    ensures ListingOf(fs, source.directory).Listed?
    ensures LoadedFrom(DirectoryMigrations(fs, source).value, source.name,
                       ClassifyAll(ListingOf(fs, source.directory).entries))
  {
    var listing := ListingOf(fs, source.directory);
    assert listing.Listed?;
    var items := ClassifyAll(listing.entries);
    assert Group(source.name, listing.entries) == GroupItems(source.name, items);
    var m := GroupItems(source.name, items).value;
    GroupKeys(source.name, items);
    var r := SortedValues(m);
    assert DirectoryMigrations(fs, source) == Ok(r);
    ListedMapResult(source.name, items, r);
  }

  lemma ListedMapResult(sourceName: string, items: seq<Item>, r: seq<Migration>)
    requires GroupItems(sourceName, items).Ok?
    requires ListsExactly(r, GroupItems(sourceName, items).value)
    ensures LoadedFrom(r, sourceName, items)
  {
    var m := GroupItems(sourceName, items).value;
    GroupKeys(sourceName, items);
    GroupNames(sourceName, items);
    GroupContents(sourceName, items);
    forall v ensures ListsVersion(r, v) <==> v in m {
      if v in m {
        var i :| 0 <= i < |r| && r[i].version == v;
      }
    }
    forall v ensures v in m <==> HasFileOfVersion(items, v) {
    }
    forall i | 0 <= i < |r|
      ensures exists j :: FirstWithVersion(items, j, r[i].version) && r[i].name == items[j].file.name
    {
      var v := r[i].version;
      assert v in m && m[v] == r[i];
    }
  }

  // ---------------------------------------------------------------------------
  // loadMigrationsFromSource, GetAllMigrations, GetMigrationStats

  /** What loadMigrationsFromSource returns: an embedded bundle, when set, wins and gives no
      migrations (its walk is a placeholder); otherwise a non-empty directory is loaded;
      a source with neither is an error naming it. */
  ghost function SourceMigrations(fs: FileSystem, source: MigrationSource): Result<seq<Migration>, LoadError> {
    if source.hasEmbed then Ok([])
    else if source.directory != "" then DirectoryMigrations(fs, source)
    else Err(NoLocation(source.name))
  }

  method LoadFromSource(fs: FileSystem, source: MigrationSource) returns (r: Result<seq<Migration>, LoadError>)
    ensures r == SourceMigrations(fs, source)
  {
    if source.hasEmbed {
      r := Ok([]);
    } else if source.directory != "" {
      r := LoadFromDirectory(fs, source);
    } else {
      r := Err(NoLocation(source.name));
    }
  }

  /** One source's name with what loading it gives. */
  datatype Loaded = Loaded(name: string, result: Result<seq<Migration>, LoadError>)

  ghost function LoadAll(fs: FileSystem, sources: seq<MigrationSource>): (loads: seq<Loaded>)
    ensures |loads| == |sources|
    ensures forall i :: 0 <= i < |sources| ==> loads[i] == Loaded(sources[i].name, SourceMigrations(fs, sources[i]))
  {
    if sources == [] then [] else [Loaded(sources[0].name, SourceMigrations(fs, sources[0]))] + LoadAll(fs, sources[1..])
  }

  /** The loop of GetAllMigrations before its sort, as a fold over ever longer prefixes of the
      loaded sources: each source's migrations are appended in order; the first source that
      fails stops the loop with an error naming it. */
  function CollectLoads(loads: seq<Loaded>): Result<seq<Migration>, LoadError>
    decreases |loads|
  {
    if loads == [] then Ok([])
    else
      var last := loads[|loads| - 1];
      match CollectLoads(loads[..|loads| - 1])
      case Err(e) => Err(e)
      case Ok(acc) =>
        match last.result
        case Err(e) => Err(SourceFailed(last.name, e))
        case Ok(ms) => Ok(acc + ms)
  }

  ghost function Collected(fs: FileSystem, sources: seq<MigrationSource>): Result<seq<Migration>, LoadError> {
    CollectLoads(LoadAll(fs, sources))
  }

  /** GetAllMigrations: nothing registered gives an empty list; otherwise the first failing
      source's error, wrapped with that source's name, or all sources' migrations sorted by
      version. */
  method GetAllMigrations(reg: Registry, fs: FileSystem) returns (r: Result<seq<Migration>, LoadError>)
    ensures reg.sources == [] ==> r == Ok([])
    ensures r.Err? <==> Collected(fs, reg.sources).Err?
    ensures r.Err? ==> r == Collected(fs, reg.sources)
    ensures r.Ok? ==> SortedByVersion(r.value) && multiset(r.value) == multiset(Collected(fs, reg.sources).value)
  {
    var sources := reg.Snapshot();
    if sources.Length == 0 {
      return Ok([]);
    }
    ghost var loads := LoadAll(fs, reg.sources);
    var all: seq<Migration> := [];
    var i := 0;
    while i < sources.Length
      invariant 0 <= i <= sources.Length
      invariant sources[..] == reg.sources
      invariant CollectLoads(loads[..i]) == Ok(all)
    {
      var source := sources[i];
      assert loads[..i + 1][..i] == loads[..i];
      var loaded := LoadFromSource(fs, source);
      assert loads[i] == Loaded(source.name, loaded);
      if loaded.Err? {
        CollectErrorPersists(loads, i + 1);
        return Err(SourceFailed(source.name, loaded.error));
      }
      all := all + loaded.value;
      i := i + 1;
    }
    assert loads[..sources.Length] == loads;
    return Ok(SortByVersion(all));
  }

  lemma {:induction false} CollectErrorPersists(loads: seq<Loaded>, k: nat)
    requires k <= |loads| && CollectLoads(loads[..k]).Err?
    ensures CollectLoads(loads) == CollectLoads(loads[..k])
    decreases |loads| - k
  {
    if k < |loads| {
      assert loads[..k + 1][..k] == loads[..k];
      CollectErrorPersists(loads, k + 1);
    } else {
      assert loads[..k] == loads;
    }
  }

  /** `loads[i]` is the first source whose loading fails. */
  predicate FirstFailing(loads: seq<Loaded>, i: int) {
    && 0 <= i < |loads|
    && loads[i].result.Err?
    && forall j :: 0 <= j < i ==> loads[j].result.Ok?
  }

  /** Collecting fails exactly when some source fails to load, and then carries the first
      failing source's error wrapped with that source's name. */
  lemma {:induction false} CollectError(loads: seq<Loaded>)
    ensures CollectLoads(loads).Err? <==> exists i :: 0 <= i < |loads| && loads[i].result.Err?
    ensures CollectLoads(loads).Err? ==>
      exists i :: FirstFailing(loads, i) && CollectLoads(loads).error == SourceFailed(loads[i].name, loads[i].result.error)
    decreases |loads|
  {
    if loads != [] {
      var n := |loads| - 1;
      var pre := loads[..n];
      CollectError(pre);
      assert forall j :: 0 <= j < n ==> pre[j] == loads[j];
      if CollectLoads(pre).Err? {
        var i :| FirstFailing(pre, i) && CollectLoads(pre).error == SourceFailed(pre[i].name, pre[i].result.error);
        assert FirstFailing(loads, i);
      } else if loads[n].result.Err? {
        assert FirstFailing(loads, n);
      }
    }
  }

  /** After a successful collection, a migration is in the list exactly when it is among the
      migrations of one of the sources. */
  lemma {:induction false} CollectContents(loads: seq<Loaded>)
    requires CollectLoads(loads).Ok?
    ensures forall i :: 0 <= i < |loads| ==> loads[i].result.Ok?
    ensures forall x :: x in CollectLoads(loads).value <==>
      exists i :: 0 <= i < |loads| && x in loads[i].result.value
    decreases |loads|
  {
    if loads != [] {
      var n := |loads| - 1;
      var pre := loads[..n];
      CollectContents(pre);
      assert forall j :: 0 <= j < n ==> pre[j] == loads[j];
      var acc := CollectLoads(pre).value;
      var ms := loads[n].result.value;
      forall x ensures x in acc + ms <==> exists i :: 0 <= i < |loads| && x in loads[i].result.value {
        if exists i :: 0 <= i < |loads| && x in loads[i].result.value {
          var i :| 0 <= i < |loads| && x in loads[i].result.value;
          if i < n {
            assert x in pre[i].result.value;
          }
        }
      }
    }
  }

  /** The loop of GetMigrationStats as a fold: each source's name is mapped to its number of
      migrations, a later source of the same name replacing the count of an earlier one; the
      first failing source's error is returned as it is, without the source's name. */
  function StatsOf(loads: seq<Loaded>): Result<map<string, nat>, LoadError>
    decreases |loads|
  {
    if loads == [] then Ok(map[])
    else
      var last := loads[|loads| - 1];
      match StatsOf(loads[..|loads| - 1])
      case Err(e) => Err(e)
      case Ok(acc) =>
        match last.result
        case Err(e) => Err(e)
        case Ok(ms) => Ok(acc[last.name := |ms|])
  }

  ghost function Stats(fs: FileSystem, sources: seq<MigrationSource>): Result<map<string, nat>, LoadError> {
    StatsOf(LoadAll(fs, sources))
  }

  /** GetMigrationStats. */
  method GetMigrationStats(reg: Registry, fs: FileSystem) returns (r: Result<map<string, nat>, LoadError>)
    ensures r == Stats(fs, reg.sources)
  {
    var sources := reg.Snapshot();
    ghost var loads := LoadAll(fs, reg.sources);
    var stats: map<string, nat> := map[];
    var i := 0;
    while i < sources.Length
      invariant 0 <= i <= sources.Length
      invariant sources[..] == reg.sources
      invariant StatsOf(loads[..i]) == Ok(stats)
    {
      var source := sources[i];
      assert loads[..i + 1][..i] == loads[..i];
      var loaded := LoadFromSource(fs, source);
      assert loads[i] == Loaded(source.name, loaded);
      if loaded.Err? {
        StatsErrorPersists(loads, i + 1);
        return Err(loaded.error);
      }
      stats := stats[source.name := |loaded.value|];
      i := i + 1;
    }
    assert loads[..sources.Length] == loads;
    return Ok(stats);
  }

  lemma {:induction false} StatsErrorPersists(loads: seq<Loaded>, k: nat)
    requires k <= |loads| && StatsOf(loads[..k]).Err?
    ensures StatsOf(loads) == StatsOf(loads[..k])
    decreases |loads| - k
  {
    if k < |loads| {
      assert loads[..k + 1][..k] == loads[..k];
      StatsErrorPersists(loads, k + 1);
    } else {
      assert loads[..k] == loads;
    }
  }

  /** The statistics fail exactly when some source fails to load, with that first failing
      source's own error. */
  lemma {:induction false} StatsError(loads: seq<Loaded>)
    ensures StatsOf(loads).Err? <==> exists i :: 0 <= i < |loads| && loads[i].result.Err?
    ensures StatsOf(loads).Err? ==> exists i :: FirstFailing(loads, i) && StatsOf(loads).error == loads[i].result.error
    decreases |loads|
  {
    if loads != [] {
      var n := |loads| - 1;
      var pre := loads[..n];
      StatsError(pre);
      assert forall j :: 0 <= j < n ==> pre[j] == loads[j];
      if StatsOf(pre).Err? {
        var i :| FirstFailing(pre, i) && StatsOf(pre).error == pre[i].result.error;
        assert FirstFailing(loads, i);
      } else if loads[n].result.Err? {
        assert FirstFailing(loads, n);
      }
    }
  }

  /** `loads[i]` is the last source named `name`, and it loaded. */
  predicate LastNamed(loads: seq<Loaded>, i: int, name: string) {
    && 0 <= i < |loads| && loads[i].name == name && loads[i].result.Ok?
    && forall j :: i < j < |loads| ==> loads[j].name != name
  }

  /** Successful statistics have one key per registered name, counting the migrations of the
      last source registered under that name. */
  lemma {:induction false} StatsCounts(loads: seq<Loaded>)
    requires StatsOf(loads).Ok?
    ensures var stats := StatsOf(loads).value;
      && (forall name :: name in stats <==> exists i :: 0 <= i < |loads| && loads[i].name == name)
      && (forall name :: name in stats ==>
            exists i :: LastNamed(loads, i, name) && stats[name] == |loads[i].result.value|)
    decreases |loads|
  {
    if loads != [] {
      var n := |loads| - 1;
      var pre := loads[..n];
      StatsCounts(pre);
      assert forall j :: 0 <= j < n ==> pre[j] == loads[j];
      var stats := StatsOf(loads).value;
      var acc := StatsOf(pre).value;
      forall name ensures name in stats <==> exists i :: 0 <= i < |loads| && loads[i].name == name {
        if exists i :: 0 <= i < |loads| && loads[i].name == name {
          var i :| 0 <= i < |loads| && loads[i].name == name;
          if i < n {
            assert pre[i].name == name;
          }
        }
      }
      forall name | name in stats
        ensures exists i :: LastNamed(loads, i, name) && stats[name] == |loads[i].result.value|
      {
        if name == loads[n].name {
          assert LastNamed(loads, n, name);
        } else {
          var i :| LastNamed(pre, i, name) && acc[name] == |pre[i].result.value|;
          assert LastNamed(loads, i, name);
        }
      }
    }
  }

  // ---------------------------------------------------------------------------
  // validateMigrationSequence

  /** The first place where the versions stop counting 1, 2, 3, ... */
  datatype SequenceGap = SequenceGap(expected: nat, found: nat)

  /** Index `i` is the first whose version is not `i + 1`. */
  predicate FirstGap(migrations: seq<Migration>, i: int) {
    && 0 <= i < |migrations| && migrations[i].version != i + 1
    && forall j :: 0 <= j < i ==> migrations[j].version == j + 1
  }

  /** validateMigrationSequence: succeeds exactly when the i-th migration (from 0) has version
      i + 1 throughout, the empty list included; otherwise reports the first index where that
      fails, with the version expected there and the one found. */
  method ValidateMigrationSequence(migrations: seq<Migration>) returns (r: Option<SequenceGap>)
    ensures r.None? <==> forall i :: 0 <= i < |migrations| ==> migrations[i].version == i + 1
    ensures r.Some? ==> exists i :: FirstGap(migrations, i) && r.value == SequenceGap(i + 1, migrations[i].version)
  {
    if |migrations| == 0 {
      return None;
    }
    var expectedVersion := 1;
    var k := 0;
    while k < |migrations|
      invariant 0 <= k <= |migrations|
      invariant expectedVersion == k + 1
      invariant forall j :: 0 <= j < k ==> migrations[j].version == j + 1
    {
      if migrations[k].version != expectedVersion {
        return Some(SequenceGap(expectedVersion, migrations[k].version));
      }
      expectedVersion := expectedVersion + 1;
      k := k + 1;
    }
    return None;
  }
}
