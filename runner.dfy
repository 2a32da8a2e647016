/** The migration runner: how a migrator chooses its database and its migrations, how the
    engine's answers become the runner's errors, the run over every registered source,
    closing a migrator, the column check and the status report. The migration engine and
    the database driver are not part of this model: every answer they give is an input. */
module Runner {
  import opened Common
  import opened Text
  import Reg = MigrationRegistry

  // ---------------------------------------------------------------------------
  // Engine answers

  /** An error from the migration engine: its two sentinel values, or any other failure. */
  datatype EngineError = ErrNoChange | ErrNilVersion | EngineFailure(message: string)

  /** The engine's own wording of its sentinels. */
  function EngineErrorText(e: EngineError): string {
    match e
    case ErrNoChange => "no change"
    case ErrNilVersion => "no migration"
    case EngineFailure(message) => message
  }

  // ---------------------------------------------------------------------------
  // NewMigrator and its configuration

  datatype Config = Config(databasePath: string, migrationsPath: string, databaseURL: string, migrationsSource: string)

  /** The database location: an explicit URL wins; otherwise the path under the sqlite scheme;
      with neither there is none. The chosen location is never empty. */
  function DatabaseURLOf(config: Config): (r: Option<string>)
    ensures r.None? <==> config.databaseURL == "" && config.databasePath == ""
    ensures config.databaseURL != "" ==> r == Some(config.databaseURL)
    ensures config.databaseURL == "" && config.databasePath != "" ==> r == Some("sqlite://" + config.databasePath)
    ensures r.Some? ==> r.value != ""
  {
    if config.databaseURL != "" then Some(config.databaseURL)
    else if config.databasePath != "" then Some("sqlite://" + config.databasePath)
    else None
  }

  /** The migrations location: an explicit source wins; otherwise the path under the file
      scheme; with neither there is none. The chosen location is never empty. */
  function MigrationsSourceOf(config: Config): (r: Option<string>)
    ensures r.None? <==> config.migrationsSource == "" && config.migrationsPath == ""
    ensures config.migrationsSource != "" ==> r == Some(config.migrationsSource)
    ensures config.migrationsSource == "" && config.migrationsPath != "" ==> r == Some("file://" + config.migrationsPath)
    ensures r.Some? ==> r.value != ""
  {
    if config.migrationsSource != "" then Some(config.migrationsSource)
    else if config.migrationsPath != "" then Some("file://" + config.migrationsPath)
    else None
  }

  /** Why a migrator could not be made. */
  datatype NewError =
    | MissingDatabase
    | MissingMigrations
    | InitFailed(cause: EngineError)
    | OpenFailed(cause: EngineError)
    | MissingDatabaseFile

  function NewErrorText(e: NewError): string {
    match e
    case MissingDatabase => "either DatabaseURL or DatabasePath must be provided"
    case MissingMigrations => "either MigrationsSource or MigrationsPath must be provided"
    case InitFailed(cause) => "failed to initialize migrate: " + EngineErrorText(cause)
    case OpenFailed(cause) => "failed to open database: " + EngineErrorText(cause)
    case MissingDatabaseFile => "DATABASE_FILE environment variable or default database file required"
  }

  /** An engine instance, known by the two locations it was opened on. */
  datatype Engine = Engine(sourceURL: string, databaseURL: string)

  /** A migrator: its engine (absent only in a zero value), the configured path, and whether
      it holds a direct database connection. */
  datatype Migrator = Migrator(engine: Option<Engine>, databasePath: string, hasDb: bool)

  /** What the engine answers to being opened, and what the driver answers to opening the
      database file. */
  datatype Opening = Opening(initError: Option<EngineError>, openError: Option<EngineError>)

  /** NewMigrator: the database is resolved first, then the migrations; then the engine is
      opened on the two locations; a direct connection is opened only when a database path
      is configured, even when an explicit URL is used for the engine. */
  function NewMigrator(config: Config, opening: Opening): (r: Result<Migrator, NewError>)
    ensures r == Err(MissingDatabase) <==> DatabaseURLOf(config).None?
    ensures r == Err(MissingMigrations) <==> DatabaseURLOf(config).Some? && MigrationsSourceOf(config).None?
    ensures r.Ok? <==>
      && DatabaseURLOf(config).Some? && MigrationsSourceOf(config).Some?
      && opening.initError.None? && (config.databasePath == "" || opening.openError.None?)
    ensures r.Ok? ==>
      && r.value.engine == Some(Engine(MigrationsSourceOf(config).value, DatabaseURLOf(config).value))
      && r.value.databasePath == config.databasePath
      && (r.value.hasDb <==> config.databasePath != "")
    ensures r.Err? && r.error.InitFailed? ==> opening.initError == Some(r.error.cause)
    ensures r.Err? && r.error.OpenFailed? ==>
      config.databasePath != "" && opening.initError.None? && opening.openError == Some(r.error.cause)
    ensures r != Err(MissingDatabaseFile)
  {
    match DatabaseURLOf(config)
    case None => Err(MissingDatabase)
    case Some(databaseURL) =>
      match MigrationsSourceOf(config)
      case None => Err(MissingMigrations)
      case Some(migrationsSource) =>
        if opening.initError.Some? then Err(InitFailed(opening.initError.value))
        else if config.databasePath != "" && opening.openError.Some? then Err(OpenFailed(opening.openError.value))
        else Ok(Migrator(Some(Engine(migrationsSource, databaseURL)), config.databasePath, config.databasePath != ""))
  }

  /** GetDatabaseFile: the DATABASE_FILE setting when it is set, otherwise "app.db"; never
      empty. */
  function GetDatabaseFile(envDatabaseFile: string): (r: string)
    ensures r != ""
    ensures envDatabaseFile != "" ==> r == envDatabaseFile
    ensures envDatabaseFile == "" ==> r == "app.db"
  {
    if envDatabaseFile != "" then envDatabaseFile else "app.db"
  }

  /** The migrations directory NewRegistryMigrator configures, in place of the registry. */
  const PlaceholderMigrationsPath := "migrations"

  /** NewRegistryMigrator: a migrator on the database file and the placeholder "migrations"
      directory. As the file name is never empty, neither the missing-file error nor the
      configuration errors of NewMigrator can come out: only the engine or the driver can
      make it fail. */
  function NewRegistryMigrator(envDatabaseFile: string, opening: Opening): (r: Result<Migrator, NewError>)
    ensures r.Ok? <==> opening.initError.None? && opening.openError.None?
    ensures r.Ok? ==>
      && r.value.engine == Some(Engine("file://" + PlaceholderMigrationsPath, "sqlite://" + GetDatabaseFile(envDatabaseFile)))
      && r.value.hasDb
    ensures r.Err? ==> r.error.InitFailed? || r.error.OpenFailed?
  {
    var dbFile := GetDatabaseFile(envDatabaseFile);
    if dbFile != "" then
      NewMigrator(Config(dbFile, PlaceholderMigrationsPath, "", ""), opening)
    else
      Err(MissingDatabaseFile)
  }

  // ---------------------------------------------------------------------------
  // Up, Down, Goto, Version, Force, Drop

  /** A failure of one of the migrator's operations, wrapping the engine's error. */
  datatype RunError =
    | UpFailed(cause: EngineError)
    | DownFailed(cause: EngineError)
    | GotoFailed(version: nat, cause: EngineError)
    | VersionFailed(cause: EngineError)
    | ForceFailed(forced: int, cause: EngineError)
    | DropFailed(cause: EngineError)

  /** `fmt`'s `%d` for a signed value. */
  function SignedDecimal(v: int): string {
    if v < 0 then "-" + DecimalString(-v) else DecimalString(v)
  }

  function RunErrorText(e: RunError): string {
    match e
    case UpFailed(cause) => "failed to run up migrations: " + EngineErrorText(cause)
    case DownFailed(cause) => "failed to rollback migrations: " + EngineErrorText(cause)
    case GotoFailed(version, cause) => "failed to migrate to version " + DecimalString(version) + ": " + EngineErrorText(cause)
    case VersionFailed(cause) => "failed to get version: " + EngineErrorText(cause)
    case ForceFailed(forced, cause) => "failed to force version " + SignedDecimal(forced) + ": " + EngineErrorText(cause)
    case DropFailed(cause) => "failed to drop database: " + EngineErrorText(cause)
  }

  /** The wrapped text ends with the engine's own text, as `%w` keeps it. */
  lemma RunErrorTextEndsWithCause(e: RunError)
    ensures HasSuffix(RunErrorText(e), EngineErrorText(e.cause))
  {
    var t := RunErrorText(e);
    var c := EngineErrorText(e.cause);
    var front := t[..|t| - |c|];
    assert t == front + c;
    SuffixOfAppend(front, c);
  }

  /** Up, Down and Goto take an engine answer as done when there is no error or the engine
      reports that nothing needed changing. */
  predicate Settled(answer: Option<EngineError>) {
    answer.None? || answer == Some(ErrNoChange)
  }

  /** Migrator.Up: runs the pending migrations; "no change" is success. */
  function Up(engineUp: Option<EngineError>): (r: Option<RunError>)
    ensures r.None? <==> Settled(engineUp)
    ensures r.Some? ==> r == Some(UpFailed(engineUp.value)) && engineUp.value != ErrNoChange
  {
    if engineUp.Some? && engineUp.value != ErrNoChange then Some(UpFailed(engineUp.value)) else None
  }

  /** Migrator.Down: asks the engine for `steps` steps backwards; "no change" is success. */
  function Down(steps: int, engineSteps: int -> Option<EngineError>): (r: Option<RunError>)
    ensures r.None? <==> Settled(engineSteps(-steps))
    ensures r.Some? ==> r == Some(DownFailed(engineSteps(-steps).value)) && engineSteps(-steps).value != ErrNoChange
  {
    var answer := engineSteps(-steps);
    if answer.Some? && answer.value != ErrNoChange then Some(DownFailed(answer.value)) else None
  }

  /** Migrator.Goto: asks the engine to migrate to `version`; "no change" is success, and a
      failure names the version asked for. */
  function Goto(version: nat, engineMigrate: nat -> Option<EngineError>): (r: Option<RunError>)
    ensures r.None? <==> Settled(engineMigrate(version))
    ensures r.Some? ==> r == Some(GotoFailed(version, engineMigrate(version).value)) && engineMigrate(version).value != ErrNoChange
  {
    var answer := engineMigrate(version);
    if answer.Some? && answer.value != ErrNoChange then Some(GotoFailed(version, answer.value)) else None
  }

  /** The three operations agree on which engine answers are failures, and each failure
      carries the engine's answer unchanged. */
  lemma StepOperationsAgree(answer: Option<EngineError>, steps: int, version: nat)
    ensures Up(answer).None? == Down(steps, _ => answer).None? == Goto(version, _ => answer).None?
    ensures Up(answer).Some? ==>
      && Up(answer).value.cause == answer.value
      && Down(steps, _ => answer).value.cause == answer.value
      && Goto(version, _ => answer).value.cause == answer.value
  {
  }

  /** Migrator.Version: a missing version is version 0, clean, and no error; any other engine
      error is wrapped; otherwise the engine's version and dirty flag. */
  function Version(engineVersion: nat, engineDirty: bool, engineError: Option<EngineError>): (r: Result<(nat, bool), RunError>)
    ensures engineError == Some(ErrNilVersion) ==> r == Ok((0, false))
    ensures engineError.None? ==> r == Ok((engineVersion, engineDirty))
    ensures r.Err? <==> engineError.Some? && engineError.value != ErrNilVersion
    ensures r.Err? ==> r.error == VersionFailed(engineError.value)
  {
    if engineError.Some? && engineError.value != ErrNilVersion then Err(VersionFailed(engineError.value))
    else if engineError == Some(ErrNilVersion) then Ok((0, false))
    else Ok((engineVersion, engineDirty))
  }

  /** Migrator.Force: every engine error fails it, "no change" included. */
  function Force(version: int, engineForce: int -> Option<EngineError>): (r: Option<RunError>)
    ensures r.None? <==> engineForce(version).None?
    ensures r.Some? ==> r == Some(ForceFailed(version, engineForce(version).value))
  {
    if engineForce(version).Some? then Some(ForceFailed(version, engineForce(version).value)) else None
  }

  /** Migrator.Drop: every engine error fails it, "no change" included. */
  function Drop(engineDrop: Option<EngineError>): (r: Option<RunError>)
    ensures r.None? <==> engineDrop.None?
    ensures r.Some? ==> r == Some(DropFailed(engineDrop.value))
  {
    if engineDrop.Some? then Some(DropFailed(engineDrop.value)) else None
  }

  /** Force and Drop, unlike Up, fail on "no change". */
  lemma NoChangeFailsForceAndDrop(version: int)
    ensures Up(Some(ErrNoChange)).None?
    ensures Force(version, _ => Some(ErrNoChange)) == Some(ForceFailed(version, ErrNoChange))
    ensures Drop(Some(ErrNoChange)) == Some(DropFailed(ErrNoChange))
  {
  }

  // ---------------------------------------------------------------------------
  // UpAll

  /** Why the run over all sources stopped: the migrator for a source could not be made, or
      its migrations failed. Either way the source is named. */
  datatype UpAllError =
    | CreateFailed(source: string, createError: NewError)
    | RunFailed(source: string, runError: RunError)

  function UpAllErrorText(e: UpAllError): string {
    var lead := if e.CreateFailed? then "failed to create migrator for source " else "failed to run migrations for source ";
    var cause := if e.CreateFailed? then NewErrorText(e.createError) else RunErrorText(e.runError);
    lead + e.source + ": " + cause
  }

  /** The error text of a stopped run names the source. */
  lemma UpAllErrorTextNamesSource(e: UpAllError)
    ensures Contains(UpAllErrorText(e), e.source)
  {
    var lead := if e.CreateFailed? then "failed to create migrator for source " else "failed to run migrations for source ";
    var cause := if e.CreateFailed? then NewErrorText(e.createError) else RunErrorText(e.runError);
    NamedBetween(UpAllErrorText(e), lead, e.source, ": " + cause);
  }

  lemma NamedBetween(t: string, front: string, name: string, back: string)
    requires t == front + name + back
    ensures Contains(t, name)
  {
    ContainsInside(front, name, back);
  }

  /** What the run does to the outside world, for the source at `index` of the registered
      list: make a migrator on `config`, run its migrations, close it. */
  datatype Step = CreateCall(index: nat, config: Config) | UpCall(index: nat) | CloseCall(index: nat)

  /** The answers the engine gives for one source: to opening, and to running its
      migrations. */
  datatype SourceRun = SourceRun(opening: Opening, up: Option<EngineError>)

  datatype UpAllRun = UpAllRun(error: Option<UpAllError>, steps: seq<Step>)

  /** The configuration UpAll builds for a source with a directory. */
  function SourceConfig(envDatabaseFile: string, source: Reg.MigrationSource): Config {
    Config(GetDatabaseFile(envDatabaseFile), source.directory, "", "")
  }

  /** One turn of UpAll's loop: a source without a directory (an embed-only source
      included) is passed over; otherwise a migrator is made, its migrations run, and it is
      closed whether they succeed or not. */
  function Visit(index: nat, source: Reg.MigrationSource, envDatabaseFile: string, run: SourceRun): (r: UpAllRun)
    ensures source.directory == "" ==> r == UpAllRun(None, [])
    ensures forall a :: 0 <= a < |r.steps| ==> r.steps[a].index == index
    ensures r.error.Some? ==> r.error.value.source == source.name
    ensures r.error.Some? && r.error.value.CreateFailed? ==>
      r.error.value.createError.InitFailed? || r.error.value.createError.OpenFailed?
    ensures r.error.Some? && r.error.value.RunFailed? ==>
      r.error.value.runError.UpFailed? && r.error.value.runError.cause != ErrNoChange
  {
    if source.directory == "" then UpAllRun(None, [])
    else
      var config := SourceConfig(envDatabaseFile, source);
      match NewMigrator(config, run.opening)
      case Err(e) => UpAllRun(Some(CreateFailed(source.name, e)), [CreateCall(index, config)])
      case Ok(_) =>
        var steps := [CreateCall(index, config), UpCall(index), CloseCall(index)];
        match Up(run.up)
        case None => UpAllRun(None, steps)
        case Some(e) => UpAllRun(Some(RunFailed(source.name, e)), steps)
  }

  /** The loop of UpAll from the source at `i` on: the first source that fails ends it. */
  function UpAllFrom(sources: seq<Reg.MigrationSource>, envDatabaseFile: string, runs: nat -> SourceRun, i: nat): UpAllRun
    requires i <= |sources|
    decreases |sources| - i
  {
    if i == |sources| then UpAllRun(None, [])
    else
      var visit := Visit(i, sources[i], envDatabaseFile, runs(i));
      if visit.error.Some? then visit
      else
        var rest := UpAllFrom(sources, envDatabaseFile, runs, i + 1);
        UpAllRun(rest.error, visit.steps + rest.steps)
  }

  /** UpAll as a whole: with nothing registered it does nothing and succeeds. */
  function RunAll(sources: seq<Reg.MigrationSource>, envDatabaseFile: string, runs: nat -> SourceRun): UpAllRun {
    if |sources| == 0 then UpAllRun(None, []) else UpAllFrom(sources, envDatabaseFile, runs, 0)
  }

  /** The calls concern sources with a directory, from the `i`-th on, each migrator being
      made on the configuration UpAll builds for its source. */
  predicate CallsWithin(sources: seq<Reg.MigrationSource>, envDatabaseFile: string, steps: seq<Step>, i: nat) {
    forall a :: 0 <= a < |steps| ==>
      && i <= steps[a].index < |sources|
      && sources[steps[a].index].directory != ""
      && (steps[a].CreateCall? ==> steps[a].config == SourceConfig(envDatabaseFile, sources[steps[a].index]))
  }

  /** The calls go through the sources in registration order. */
  predicate InRegistrationOrder(steps: seq<Step>) {
    forall a, b :: 0 <= a < b < |steps| ==> steps[a].index <= steps[b].index
  }

  /** Every call is about source `i`. */
  predicate AllAbout(steps: seq<Step>, i: nat) {
    forall a :: 0 <= a < |steps| ==> steps[a].index == i
  }

  /** Every call is about a source after `i`. */
  predicate AllAfter(steps: seq<Step>, i: nat) {
    forall a :: 0 <= a < |steps| ==> steps[a].index > i
  }

  /** Running the migrations is followed at once by closing the migrator. */
  predicate ClosedRightAfterUp(steps: seq<Step>) {
    forall a :: 0 <= a < |steps| && steps[a].UpCall? ==> a + 1 < |steps| && steps[a + 1] == CloseCall(steps[a].index)
  }

  /** The migrator for source `j` was made. */
  predicate Created(sources: seq<Reg.MigrationSource>, envDatabaseFile: string, runs: nat -> SourceRun, j: nat)
    requires j < |sources|
  {
    sources[j].directory != "" && NewMigrator(SourceConfig(envDatabaseFile, sources[j]), runs(j).opening).Ok?
  }

  /** The calls of one visit: all about the source visited, on its configuration; a made
      migrator is closed right after its migrations ran; nothing is made for a source
      without a directory. */
  lemma VisitCalls(sources: seq<Reg.MigrationSource>, envDatabaseFile: string, runs: nat -> SourceRun, i: nat)
    requires i < |sources|
    ensures AllAbout(Visit(i, sources[i], envDatabaseFile, runs(i)).steps, i)
    ensures CallsWithin(sources, envDatabaseFile, Visit(i, sources[i], envDatabaseFile, runs(i)).steps, i)
    ensures ClosedRightAfterUp(Visit(i, sources[i], envDatabaseFile, runs(i)).steps)
    ensures Visit(i, sources[i], envDatabaseFile, runs(i)).steps == [] ||
      !Visit(i, sources[i], envDatabaseFile, runs(i)).steps[|Visit(i, sources[i], envDatabaseFile, runs(i)).steps| - 1].UpCall?
    ensures CloseCall(i) in Visit(i, sources[i], envDatabaseFile, runs(i)).steps <==> UpCall(i) in Visit(i, sources[i], envDatabaseFile, runs(i)).steps
    ensures UpCall(i) in Visit(i, sources[i], envDatabaseFile, runs(i)).steps <==> Created(sources, envDatabaseFile, runs, i)
    ensures CreateCall(i, SourceConfig(envDatabaseFile, sources[i])) in Visit(i, sources[i], envDatabaseFile, runs(i)).steps <==> sources[i].directory != ""
  {
    var visit := Visit(i, sources[i], envDatabaseFile, runs(i));
    if sources[i].directory != "" {
      assert visit.steps[0] == CreateCall(i, SourceConfig(envDatabaseFile, sources[i]));
      if |visit.steps| == 3 {
        assert visit.steps[1] == UpCall(i) && visit.steps[2] == CloseCall(i);
      }
    }
  }

  lemma OrderOfConcat(v: seq<Step>, r: seq<Step>, i: nat)
    requires AllAbout(v, i) && AllAfter(r, i) && InRegistrationOrder(r)
    ensures InRegistrationOrder(v + r)
  {
  }

  lemma WithinOfConcat(sources: seq<Reg.MigrationSource>, envDatabaseFile: string, v: seq<Step>, r: seq<Step>, i: nat)
    requires CallsWithin(sources, envDatabaseFile, v, i) && CallsWithin(sources, envDatabaseFile, r, i + 1)
    ensures CallsWithin(sources, envDatabaseFile, v + r, i) && AllAfter(r, i)
  {
    assert forall a :: 0 <= a < |v + r| ==> (v + r)[a] == if a < |v| then v[a] else r[a - |v|];
  }

  lemma ClosedOfConcat(v: seq<Step>, r: seq<Step>)
    requires ClosedRightAfterUp(v) && ClosedRightAfterUp(r)
    requires v == [] || !v[|v| - 1].UpCall?
    ensures ClosedRightAfterUp(v + r)
  {
    var s := v + r;
    forall a | 0 <= a < |s| && s[a].UpCall?
      ensures a + 1 < |s| && s[a + 1] == CloseCall(s[a].index)
    {
      if a < |v| {
        assert v[a] == s[a];
        assert s[a + 1] == v[a + 1];
      } else {
        assert r[a - |v|] == s[a];
        assert s[a + 1] == r[a + 1 - |v|];
      }
    }
  }

  /** Every call made by the run from source `i` on stays within the sources that have a
      directory, and follows registration order. */
  lemma {:induction false} UpAllInOrder(sources: seq<Reg.MigrationSource>, envDatabaseFile: string, runs: nat -> SourceRun, i: nat)
    requires i <= |sources|
    ensures CallsWithin(sources, envDatabaseFile, UpAllFrom(sources, envDatabaseFile, runs, i).steps, i)
    ensures InRegistrationOrder(UpAllFrom(sources, envDatabaseFile, runs, i).steps)
    decreases |sources| - i
  {
    if i < |sources| {
      var visit := Visit(i, sources[i], envDatabaseFile, runs(i));
      VisitCalls(sources, envDatabaseFile, runs, i);
      if visit.error.None? {
        UpAllInOrder(sources, envDatabaseFile, runs, i + 1);
        var rest := UpAllFrom(sources, envDatabaseFile, runs, i + 1);
        WithinOfConcat(sources, envDatabaseFile, visit.steps, rest.steps, i);
        OrderOfConcat(visit.steps, rest.steps, i);
      }
    }
  }

  /** In the run from source `i` on, closing a migrator comes right after running its
      migrations. */
  lemma {:induction false} UpAllClosesRightAfterUp(sources: seq<Reg.MigrationSource>, envDatabaseFile: string, runs: nat -> SourceRun, i: nat)
    requires i <= |sources|
    ensures ClosedRightAfterUp(UpAllFrom(sources, envDatabaseFile, runs, i).steps)
    decreases |sources| - i
  {
    if i < |sources| {
      var visit := Visit(i, sources[i], envDatabaseFile, runs(i));
      VisitCalls(sources, envDatabaseFile, runs, i);
      if visit.error.None? {
        UpAllClosesRightAfterUp(sources, envDatabaseFile, runs, i + 1);
        ClosedOfConcat(visit.steps, UpAllFrom(sources, envDatabaseFile, runs, i + 1).steps);
      }
    }
  }

  /** Every migrator the run makes is closed, whether its migrations succeeded or not;
      nothing else is closed. */
  lemma {:induction false} UpAllClosesWhatItCreates(sources: seq<Reg.MigrationSource>, envDatabaseFile: string, runs: nat -> SourceRun, i: nat)
    requires i <= |sources|
    ensures forall j :: i <= j < |sources| ==>
      (CloseCall(j) in UpAllFrom(sources, envDatabaseFile, runs, i).steps <==> UpCall(j) in UpAllFrom(sources, envDatabaseFile, runs, i).steps)
    ensures forall j :: i <= j < |sources| ==>
      (UpCall(j) in UpAllFrom(sources, envDatabaseFile, runs, i).steps <==>
         CreateCall(j, SourceConfig(envDatabaseFile, sources[j])) in UpAllFrom(sources, envDatabaseFile, runs, i).steps
         && Created(sources, envDatabaseFile, runs, j))
    decreases |sources| - i
  {
    if i < |sources| {
      var visit := Visit(i, sources[i], envDatabaseFile, runs(i));
      VisitCalls(sources, envDatabaseFile, runs, i);
      var steps := UpAllFrom(sources, envDatabaseFile, runs, i).steps;
      if visit.error.None? {
        UpAllClosesWhatItCreates(sources, envDatabaseFile, runs, i + 1);
        UpAllInOrder(sources, envDatabaseFile, runs, i + 1);
        var rest := UpAllFrom(sources, envDatabaseFile, runs, i + 1);
        WithinOfConcat(sources, envDatabaseFile, [], rest.steps, i);
        assert steps == visit.steps + rest.steps;
        forall j | i <= j < |sources|
          ensures CloseCall(j) in steps <==> UpCall(j) in steps
          ensures UpCall(j) in steps <==>
            CreateCall(j, SourceConfig(envDatabaseFile, sources[j])) in steps && Created(sources, envDatabaseFile, runs, j)
        {
          var create := CreateCall(j, SourceConfig(envDatabaseFile, sources[j]));
          if j == i {
            assert CloseCall(i) !in rest.steps && UpCall(i) !in rest.steps && create !in rest.steps;
          } else {
            assert CloseCall(j) !in visit.steps && UpCall(j) !in visit.steps && create !in visit.steps;
          }
        }
      } else {
        assert steps == visit.steps;
        assert CreateCall(i, SourceConfig(envDatabaseFile, sources[i])) in visit.steps;
      }
    }
  }

  /** Visiting source `j` ends the run with an error. */
  predicate Fails(sources: seq<Reg.MigrationSource>, envDatabaseFile: string, runs: nat -> SourceRun, j: nat)
    requires j < |sources|
  {
    Visit(j, sources[j], envDatabaseFile, runs(j)).error.Some?
  }

  /** Source `k` is the first, from `i` on, whose visit fails. */
  predicate FirstFailure(sources: seq<Reg.MigrationSource>, envDatabaseFile: string, runs: nat -> SourceRun, i: nat, k: nat) {
    && i <= k < |sources| && Fails(sources, envDatabaseFile, runs, k)
    && forall j :: i <= j < k ==> !Fails(sources, envDatabaseFile, runs, j)
  }

  /** Every call is about a source up to `k`. */
  predicate NoneAfter(steps: seq<Step>, k: nat) {
    forall a :: 0 <= a < |steps| ==> steps[a].index <= k
  }

  /** The run succeeds exactly when no source fails; otherwise it returns the error of the
      first failing source, which names that source, and makes no call for any later
      source. */
  lemma {:induction false} UpAllStopsAtFirstFailure(sources: seq<Reg.MigrationSource>, envDatabaseFile: string, runs: nat -> SourceRun, i: nat)
    requires i <= |sources|
    ensures UpAllFrom(sources, envDatabaseFile, runs, i).error.None? <==>
      forall j :: i <= j < |sources| ==> !Fails(sources, envDatabaseFile, runs, j)
    ensures UpAllFrom(sources, envDatabaseFile, runs, i).error.Some? ==>
      exists k: nat :: FirstFailure(sources, envDatabaseFile, runs, i, k)
        && UpAllFrom(sources, envDatabaseFile, runs, i).error == Visit(k, sources[k], envDatabaseFile, runs(k)).error
        && UpAllFrom(sources, envDatabaseFile, runs, i).error.value.source == sources[k].name
        && NoneAfter(UpAllFrom(sources, envDatabaseFile, runs, i).steps, k)
    decreases |sources| - i
  {
    if i < |sources| {
      var visit := Visit(i, sources[i], envDatabaseFile, runs(i));
      VisitCalls(sources, envDatabaseFile, runs, i);
      if visit.error.Some? {
        assert FirstFailure(sources, envDatabaseFile, runs, i, i);
      } else {
        UpAllStopsAtFirstFailure(sources, envDatabaseFile, runs, i + 1);
        var rest := UpAllFrom(sources, envDatabaseFile, runs, i + 1);
        if rest.error.Some? {
          var k: nat :| FirstFailure(sources, envDatabaseFile, runs, i + 1, k) && rest.error == Visit(k, sources[k], envDatabaseFile, runs(k)).error
            && rest.error.value.source == sources[k].name && NoneAfter(rest.steps, k);
          assert FirstFailure(sources, envDatabaseFile, runs, i, k);
          NoneAfterConcat(visit.steps, rest.steps, i, k);
        }
      }
    }
  }

  lemma NoneAfterConcat(v: seq<Step>, r: seq<Step>, i: nat, k: nat)
    requires AllAbout(v, i) && i <= k && NoneAfter(r, k)
    ensures NoneAfter(v + r, k)
  {
    assert forall a :: 0 <= a < |v + r| ==> (v + r)[a] == if a < |v| then v[a] else r[a - |v|];
  }

  /** No source from `i` up to `j` (exclusive) fails. */
  predicate Reached(sources: seq<Reg.MigrationSource>, envDatabaseFile: string, runs: nat -> SourceRun, i: nat, j: nat)
    requires j <= |sources|
  {
    forall l :: i <= l < j ==> !Fails(sources, envDatabaseFile, runs, l)
  }

  lemma ReachedPast(sources: seq<Reg.MigrationSource>, envDatabaseFile: string, runs: nat -> SourceRun, i: nat, j: nat)
    requires i < j <= |sources|
    ensures Reached(sources, envDatabaseFile, runs, i, j) <==>
      !Fails(sources, envDatabaseFile, runs, i) && Reached(sources, envDatabaseFile, runs, i + 1, j)
  {
  }

  /** The run makes a migrator for source `j` exactly when `j` has a directory and no source
      before it failed. */
  lemma {:induction false} UpAllReaches(sources: seq<Reg.MigrationSource>, envDatabaseFile: string, runs: nat -> SourceRun, i: nat)
    requires i <= |sources|
    ensures forall j :: i <= j < |sources| ==>
      (CreateCall(j, SourceConfig(envDatabaseFile, sources[j])) in UpAllFrom(sources, envDatabaseFile, runs, i).steps <==>
         sources[j].directory != "" && Reached(sources, envDatabaseFile, runs, i, j))
    decreases |sources| - i
  {
    if i < |sources| {
      var visit := Visit(i, sources[i], envDatabaseFile, runs(i));
      var steps := UpAllFrom(sources, envDatabaseFile, runs, i).steps;
      VisitCalls(sources, envDatabaseFile, runs, i);
      if visit.error.None? {
        UpAllReaches(sources, envDatabaseFile, runs, i + 1);
        UpAllInOrder(sources, envDatabaseFile, runs, i + 1);
        var rest := UpAllFrom(sources, envDatabaseFile, runs, i + 1);
        WithinOfConcat(sources, envDatabaseFile, [], rest.steps, i);
        assert steps == visit.steps + rest.steps;
        forall j | i <= j < |sources|
          ensures CreateCall(j, SourceConfig(envDatabaseFile, sources[j])) in steps <==>
            sources[j].directory != "" && Reached(sources, envDatabaseFile, runs, i, j)
        {
          var call := CreateCall(j, SourceConfig(envDatabaseFile, sources[j]));
          if j == i {
            assert call !in rest.steps;
          } else {
            assert call !in visit.steps;
            ReachedPast(sources, envDatabaseFile, runs, i, j);
          }
        }
      } else {
        assert steps == visit.steps;
        forall j | i < j < |sources|
          ensures CreateCall(j, SourceConfig(envDatabaseFile, sources[j])) !in steps
          ensures !Reached(sources, envDatabaseFile, runs, i, j)
        {
          assert Fails(sources, envDatabaseFile, runs, i);
        }
      }
    }
  }

  /** One turn of UpAll's loop, seen from the run still to come: a source that fails ends
      the run with its visit; otherwise the run goes on with the next source. */
  lemma UpAllAdvance(sources: seq<Reg.MigrationSource>, envDatabaseFile: string, runs: nat -> SourceRun,
                     i: nat, steps: seq<Step>, goal: UpAllRun)
    requires i < |sources|
    requires goal.error == UpAllFrom(sources, envDatabaseFile, runs, i).error
    requires goal.steps == steps + UpAllFrom(sources, envDatabaseFile, runs, i).steps
    ensures Visit(i, sources[i], envDatabaseFile, runs(i)).error.Some? ==>
      goal == UpAllRun(Visit(i, sources[i], envDatabaseFile, runs(i)).error, steps + Visit(i, sources[i], envDatabaseFile, runs(i)).steps)
    ensures Visit(i, sources[i], envDatabaseFile, runs(i)).error.None? ==>
      && goal.error == UpAllFrom(sources, envDatabaseFile, runs, i + 1).error
      && goal.steps == (steps + Visit(i, sources[i], envDatabaseFile, runs(i)).steps) + UpAllFrom(sources, envDatabaseFile, runs, i + 1).steps
  {
    var visit := Visit(i, sources[i], envDatabaseFile, runs(i));
    if visit.error.None? {
      var rest := UpAllFrom(sources, envDatabaseFile, runs, i + 1);
      assert steps + (visit.steps + rest.steps) == (steps + visit.steps) + rest.steps;
    }
  }

  /** UpAll: the registered sources in order, each passed over, or migrated and closed, until
      the first failure. The error and the calls made are those of `RunAll`. */
  method UpAll(reg: Reg.Registry, envDatabaseFile: string, runs: nat -> SourceRun) returns (err: Option<UpAllError>, steps: seq<Step>)
    ensures reg.sources == [] ==> err.None? && steps == []
    ensures UpAllRun(err, steps) == RunAll(reg.sources, envDatabaseFile, runs)
  {
    var sources := reg.Snapshot();
    if sources.Length == 0 {
      return None, [];
    }
    ghost var goal := RunAll(reg.sources, envDatabaseFile, runs);
    steps := [];
    var i := 0;
    while i < sources.Length
      invariant 0 <= i <= sources.Length
      invariant sources[..] == reg.sources
      invariant goal.error == UpAllFrom(reg.sources, envDatabaseFile, runs, i).error
      invariant goal.steps == steps + UpAllFrom(reg.sources, envDatabaseFile, runs, i).steps
    {
      var source := sources[i];
      UpAllAdvance(reg.sources, envDatabaseFile, runs, i, steps, goal);
      var config: Config;
      if source.directory != "" {
        config := Config(GetDatabaseFile(envDatabaseFile), source.directory, "", "");
      } else {
        assert steps + [] == steps;
        i := i + 1;
        continue;
      }
      var migrator := NewMigrator(config, runs(i).opening);
      if migrator.Err? {
        return Some(CreateFailed(source.name, migrator.error)), steps + [CreateCall(i, config)];
      }
      var upErr := Up(runs(i).up);
      steps := steps + [CreateCall(i, config), UpCall(i), CloseCall(i)];
      if upErr.Some? {
        return Some(RunFailed(source.name, upErr.value)), steps;
      }
      i := i + 1;
    }
    assert steps + [] == steps;
    return None, steps;
  }

  // ---------------------------------------------------------------------------
  // Close

  /** What closing answers: the direct connection, then the engine's source and database
      drivers. */
  datatype CloseOutcome = CloseOutcome(dbError: Option<string>, sourceError: Option<string>, databaseError: Option<string>)

  /** One failed close, with the driver's message. */
  datatype CloseFailure = DatabaseClose(cause: string) | MigrateSourceClose(cause: string) | MigrateDatabaseClose(cause: string)

  /** The single error Close returns, listing every failure. */
  datatype CloseError = CloseError(failures: seq<CloseFailure>)

  /** The position of each kind of failure in Close's report. */
  function Rank(f: CloseFailure): nat {
    match f
    case DatabaseClose(_) => 0
    case MigrateSourceClose(_) => 1
    case MigrateDatabaseClose(_) => 2
  }

  /** The failures of closing `m`: exactly the closes that were attempted and failed, each
      once, the connection before the engine's source before the engine's database. */
  function CloseFailures(m: Migrator, o: CloseOutcome): (r: seq<CloseFailure>)
    ensures forall a, b :: 0 <= a < b < |r| ==> Rank(r[a]) < Rank(r[b])
    ensures forall e :: DatabaseClose(e) in r <==> m.hasDb && o.dbError == Some(e)
    ensures forall e :: MigrateSourceClose(e) in r <==> m.engine.Some? && o.sourceError == Some(e)
    ensures forall e :: MigrateDatabaseClose(e) in r <==> m.engine.Some? && o.databaseError == Some(e)
  {
    (if m.hasDb && o.dbError.Some? then [DatabaseClose(o.dbError.value)] else [])
    + (if m.engine.Some? && o.sourceError.Some? then [MigrateSourceClose(o.sourceError.value)] else [])
    + (if m.engine.Some? && o.databaseError.Some? then [MigrateDatabaseClose(o.databaseError.value)] else [])
  }

  /** Migrator.Close: closes what the migrator holds, collecting the failures in order; no
      error exactly when nothing attempted failed. */
  method Close(m: Migrator, o: CloseOutcome) returns (err: Option<CloseError>)
    ensures err.None? <==> !(m.hasDb && o.dbError.Some?) && !(m.engine.Some? && (o.sourceError.Some? || o.databaseError.Some?))
    ensures err.Some? ==> err.value.failures == CloseFailures(m, o) && err.value.failures != []
  {
    var errs: seq<CloseFailure> := [];
    if m.hasDb {
      if o.dbError.Some? {
        errs := errs + [DatabaseClose(o.dbError.value)];
      }
    }
    if m.engine.Some? {
      if o.sourceError.Some? {
        errs := errs + [MigrateSourceClose(o.sourceError.value)];
      }
      if o.databaseError.Some? {
        errs := errs + [MigrateDatabaseClose(o.databaseError.value)];
      }
    }
    assert errs == CloseFailures(m, o);
    if |errs| > 0 {
      return Some(CloseError(errs));
    }
    return None;
  }

  function CloseFailureText(f: CloseFailure): string {
    match f
    case DatabaseClose(cause) => "database: " + cause
    case MigrateSourceClose(cause) => "migrate source: " + cause
    case MigrateDatabaseClose(cause) => "migrate database: " + cause
  }

  /** Close's message: a fixed lead, then the failures' texts joined with ", ". */
  function CloseErrorText(e: CloseError): (t: string)
    ensures "errors closing migrator: " <= t
  {
    "errors closing migrator: " + Join(seq(|e.failures|, k requires 0 <= k < |e.failures| => CloseFailureText(e.failures[k])), ", ")
  }

  /** The text of Close's error mentions every failure. */
  lemma CloseErrorTextListsEach(e: CloseError, k: nat)
    requires k < |e.failures|
    ensures Contains(CloseErrorText(e), CloseFailureText(e.failures[k]))
  {
    var texts := seq(|e.failures|, k requires 0 <= k < |e.failures| => CloseFailureText(e.failures[k]));
    JoinContainsParts(texts, ", ", k);
    ContainsAfterPrefix("errors closing migrator: ", Join(texts, ", "), texts[k]);
  }

  // ---------------------------------------------------------------------------
  // validateTableColumns

  /** What the table-info query gives: a failure, or one row per column, each either scanned
      to its column name or failing to scan. */
  datatype TableInfo = InfoFailed(cause: string) | InfoRows(rows: seq<Result<string, string>>)

  datatype ColumnError =
    | TableInfoFailed(table: string, cause: string)
    | ScanFailed(cause: string)
    | MissingColumn(table: string, column: string)

  /** Row `k` is the first that fails to scan. */
  predicate FirstScanError(rows: seq<Result<string, string>>, k: int) {
    0 <= k < |rows| && rows[k].Err? && forall j :: 0 <= j < k ==> rows[j].Ok?
  }

  /** The column names read from the rows: the whole list when every row scans, otherwise the
      first scan error. */
  function ExistingColumns(rows: seq<Result<string, string>>): (r: Result<seq<string>, string>)
    ensures r.Ok? ==> |r.value| == |rows| && forall k :: 0 <= k < |rows| ==> rows[k] == Ok(r.value[k])
    ensures r.Err? ==> exists k :: FirstScanError(rows, k) && rows[k] == Err(r.error)
    decreases |rows|
  {
    if rows == [] then Ok([])
    else
      var n := |rows| - 1;
      match ExistingColumns(rows[..n])
      case Err(e) =>
        var k :| FirstScanError(rows[..n], k) && rows[..n][k] == Err(e);
        assert FirstScanError(rows, k);
        Err(e)
      case Ok(names) =>
        match rows[n]
        case Err(e) =>
          assert FirstScanError(rows, n);
          Err(e)
        case Ok(name) => Ok(names + [name])
  }

  lemma {:induction false} ScanErrorPersists(rows: seq<Result<string, string>>, k: nat)
    requires k <= |rows| && ExistingColumns(rows[..k]).Err?
    ensures ExistingColumns(rows) == ExistingColumns(rows[..k])
    decreases |rows| - k
  {
    if k < |rows| {
      assert rows[..k + 1][..k] == rows[..k];
      ScanErrorPersists(rows, k + 1);
    } else {
      assert rows[..k] == rows;
    }
  }

  /** Column `k` is the first expected column that does not exist. */
  predicate FirstMissing(expected: seq<string>, existing: seq<string>, k: int) {
    0 <= k < |expected| && expected[k] !in existing && forall j :: 0 <= j < k ==> expected[j] in existing
  }

  /** validateTableColumns: a failed query or the first row that fails to scan is reported;
      then every expected column must be among the existing ones, and the first that is not
      is reported with the table's name. */
  method ValidateTableColumns(tableName: string, info: TableInfo, expectedColumns: seq<string>) returns (err: Option<ColumnError>)
    ensures info.InfoFailed? ==> err == Some(TableInfoFailed(tableName, info.cause))
    ensures info.InfoRows? && ExistingColumns(info.rows).Err? ==> err == Some(ScanFailed(ExistingColumns(info.rows).error))
    ensures info.InfoRows? && ExistingColumns(info.rows).Ok? ==>
      (err.None? <==> forall k :: 0 <= k < |expectedColumns| ==> expectedColumns[k] in ExistingColumns(info.rows).value)
    ensures info.InfoRows? && ExistingColumns(info.rows).Ok? && err.Some? ==>
      exists k :: FirstMissing(expectedColumns, ExistingColumns(info.rows).value, k)
        && err == Some(MissingColumn(tableName, expectedColumns[k]))
  {
    if info.InfoFailed? {
      return Some(TableInfoFailed(tableName, info.cause));
    }
    var rows := info.rows;
    var existingColumns: seq<string> := [];
    var r := 0;
    while r < |rows|
      invariant 0 <= r <= |rows|
      invariant ExistingColumns(rows[..r]) == Ok(existingColumns)
    {
      assert rows[..r + 1][..r] == rows[..r];
      if rows[r].Err? {
        ScanErrorPersists(rows, r + 1);
        return Some(ScanFailed(rows[r].error));
      }
      existingColumns := existingColumns + [rows[r].value];
      r := r + 1;
    }
    assert rows[..|rows|] == rows;
    var k := 0;
    while k < |expectedColumns|
      invariant 0 <= k <= |expectedColumns|
      invariant forall j :: 0 <= j < k ==> expectedColumns[j] in existingColumns
    {
      var expected := expectedColumns[k];
      var found := false;
      var e := 0;
      while e < |existingColumns|
        invariant 0 <= e <= |existingColumns|
        invariant !found ==> forall x :: 0 <= x < e ==> existingColumns[x] != expected
        invariant found ==> expected in existingColumns
      {
        if existingColumns[e] == expected {
          found := true;
          break;
        }
        e := e + 1;
      }
      if !found {
        assert FirstMissing(expectedColumns, existingColumns, k);
        return Some(MissingColumn(tableName, expected));
      }
      k := k + 1;
    }
    return None;
  }

  // ---------------------------------------------------------------------------
  // GetMigrationStatus

  /** The status of one source: its name, whether it has a directory and an embedded
      bundle, and either its load error (with a count of 0) or its number of migrations. */
  datatype SourceStatus = SourceStatus(name: string, hasDirectory: bool, hasEmbed: bool, error: Option<Reg.LoadError>, migrationCount: nat)

  datatype MigrationStatus = MigrationStatus(registeredSources: nat, sources: map<string, SourceStatus>)

  /** The status of a source, given what loading it gave. */
  function StatusFromLoad(source: Reg.MigrationSource, loaded: Result<seq<Reg.Migration>, Reg.LoadError>): (s: SourceStatus)
    ensures s.name == source.name && s.hasEmbed == source.hasEmbed
    ensures s.hasDirectory <==> source.directory != ""
    ensures s.error.None? <==> loaded.Ok?
    ensures loaded.Ok? ==> s.migrationCount == |loaded.value|
    ensures loaded.Err? ==> s.error == Some(loaded.error) && s.migrationCount == 0
  {
    match loaded
    case Err(e) => SourceStatus(source.name, source.directory != "", source.hasEmbed, Some(e), 0)
    case Ok(ms) => SourceStatus(source.name, source.directory != "", source.hasEmbed, None, |ms|)
  }

  ghost function StatusOfSource(fs: Reg.FileSystem, source: Reg.MigrationSource): SourceStatus {
    StatusFromLoad(source, Reg.SourceMigrations(fs, source))
  }

  /** The statuses keyed by name, a later one overwriting an earlier one of the same name. */
  function StatusIndex(statuses: seq<SourceStatus>): map<string, SourceStatus>
    decreases |statuses|
  {
    if statuses == [] then map[]
    else
      var last := statuses[|statuses| - 1];
      StatusIndex(statuses[..|statuses| - 1])[last.name := last]
  }

  ghost function StatusesOf(fs: Reg.FileSystem, sources: seq<Reg.MigrationSource>): (r: seq<SourceStatus>)
    ensures |r| == |sources|
    ensures forall i :: 0 <= i < |sources| ==> r[i] == StatusOfSource(fs, sources[i])
  {
    seq(|sources|, i requires 0 <= i < |sources| => StatusOfSource(fs, sources[i]))
  }

  /** GetMigrationStatus: the number of registered sources and one status per name; it never
      fails, a source that cannot be loaded only having its error recorded. */
  method GetMigrationStatus(reg: Reg.Registry, fs: Reg.FileSystem) returns (status: MigrationStatus)
    ensures status == MigrationStatus(|reg.sources|, StatusIndex(StatusesOf(fs, reg.sources)))
  {
    var sources := reg.Snapshot();
    ghost var all := StatusesOf(fs, reg.sources);
    var statuses: map<string, SourceStatus> := map[];
    var i := 0;
    while i < sources.Length
      invariant 0 <= i <= sources.Length
      invariant sources[..] == reg.sources
      invariant statuses == StatusIndex(all[..i])
    {
      var source := sources[i];
      StatusIndexStep(all, i);
      var migrations := Reg.LoadFromSource(fs, source);
      var sourceStatus: SourceStatus;
      if migrations.Err? {
        sourceStatus := SourceStatus(source.name, source.directory != "", source.hasEmbed, Some(migrations.error), 0);
      } else {
        sourceStatus := SourceStatus(source.name, source.directory != "", source.hasEmbed, None, |migrations.value|);
      }
      assert sourceStatus == StatusFromLoad(source, migrations);
      statuses := statuses[source.name := sourceStatus];
      i := i + 1;
    }
    assert all[..sources.Length] == all;
    return MigrationStatus(sources.Length, statuses);
  }

  lemma StatusIndexStep(statuses: seq<SourceStatus>, i: nat)
    requires i < |statuses|
    ensures StatusIndex(statuses[..i + 1]) == StatusIndex(statuses[..i])[statuses[i].name := statuses[i]]
  {
    assert statuses[..i + 1][..i] == statuses[..i];
  }

  /** `statuses[i]` is the last status named `name`. */
  predicate LastNamed(statuses: seq<SourceStatus>, i: int, name: string) {
    && 0 <= i < |statuses| && statuses[i].name == name
    && forall j :: i < j < |statuses| ==> statuses[j].name != name
  }

  /** The index has one key per name that occurs. */
  lemma {:induction false} StatusKeys(statuses: seq<SourceStatus>)
    ensures forall name :: name in StatusIndex(statuses) <==> exists i :: 0 <= i < |statuses| && statuses[i].name == name
    decreases |statuses|
  {
    if statuses != [] {
      var n := |statuses| - 1;
      var pre := statuses[..n];
      StatusKeys(pre);
      forall name ensures name in StatusIndex(statuses) <==> exists i :: 0 <= i < |statuses| && statuses[i].name == name {
        if exists i :: 0 <= i < |statuses| && statuses[i].name == name {
          var i :| 0 <= i < |statuses| && statuses[i].name == name;
          if i < n {
            assert pre[i].name == name;
          }
        }
        if name in StatusIndex(pre) {
          var i :| 0 <= i < |pre| && pre[i].name == name;
          assert statuses[i].name == name;
        }
      }
    }
  }

  /** The entry under each name is the last status with that name. */
  lemma {:induction false} StatusEntries(statuses: seq<SourceStatus>)
    ensures forall name :: name in StatusIndex(statuses) ==>
      exists i :: LastNamed(statuses, i, name) && StatusIndex(statuses)[name] == statuses[i]
    decreases |statuses|
  {
    if statuses != [] {
      var n := |statuses| - 1;
      var pre := statuses[..n];
      StatusEntries(pre);
      assert forall j :: 0 <= j < n ==> pre[j] == statuses[j];
      var m := StatusIndex(statuses);
      var acc := StatusIndex(pre);
      forall name | name in m
        ensures exists i :: LastNamed(statuses, i, name) && m[name] == statuses[i]
      {
        if name == statuses[n].name {
          assert LastNamed(statuses, n, name);
        } else {
          var i :| LastNamed(pre, i, name) && acc[name] == pre[i];
          assert LastNamed(statuses, i, name);
        }
      }
    }
  }

  /** Each status reports its source's load: no error and the number of migrations loaded,
      or the load error and a count of 0. */
  lemma StatusReportsLoad(fs: Reg.FileSystem, source: Reg.MigrationSource)
    ensures StatusOfSource(fs, source).name == source.name
    ensures StatusOfSource(fs, source).error.None? <==> Reg.SourceMigrations(fs, source).Ok?
    ensures Reg.SourceMigrations(fs, source).Ok? ==>
      StatusOfSource(fs, source).migrationCount == |Reg.SourceMigrations(fs, source).value|
    ensures Reg.SourceMigrations(fs, source).Err? ==>
      StatusOfSource(fs, source).error == Some(Reg.SourceMigrations(fs, source).error)
      && StatusOfSource(fs, source).migrationCount == 0
  {
  }

  /** Every registered source has an entry under its name, whether or not it loads. */
  lemma StatusCoversEverySource(fs: Reg.FileSystem, sources: seq<Reg.MigrationSource>, i: nat)
    requires i < |sources|
    ensures sources[i].name in StatusIndex(StatusesOf(fs, sources))
  {
    var all := StatusesOf(fs, sources);
    StatusKeys(all);
    assert all[i].name == sources[i].name;
  }
}
