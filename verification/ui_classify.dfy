/** The UI configuration read from the bundle, the classification of each UI file by type,
    the publish location of static files and assets, and the loader's pure pipeline. */
module UiClassify {
  import opened Wrappers
  import opened Text
  import opened Bytes
  import opened UiBundle
  import PosixPath

  /** A parsed YAML value. */
  datatype YamlValue =
    | Null
    | Bool(b: bool)
    | Number(n: int)
    | Str(s: string)
    | List(items: seq<YamlValue>)
    | Mapping(entries: map<string, YamlValue>)

  /** JavaScript truthiness of a parsed YAML value; arrays and objects are truthy even when empty. */
  predicate IsTruthy(v: YamlValue) {
    match v
    case Null => false
    case Bool(b) => b
    case Number(n) => n != 0
    case Str(s) => s != ""
    case List(_) => true
    case Mapping(_) => true
  }

  /** The UI configuration: the output directory from the playbook, and the other settings of the
      UI's own configuration file. */
  datatype UiConfig = UiConfig(outputDir: Option<string>, settings: map<string, YamlValue>)

  /** The UI configuration file at the root of the bundle. */
  const ConfigFileName := "ui.yml"
  const StaticFilesKey := "staticFiles"
  const OutputDirKey := "outputDir"

  /** `yaml.safeLoad(contents.toString())`; an error is a YAML syntax error. Not part of this model. */
  type YamlParser = seq<byte> -> Result<YamlValue>

  /** The static file patterns as `loadConfig` leaves them: when set and truthy, a non-empty list. */
  predicate Normalized(config: UiConfig) {
    StaticFilesKey in config.settings && IsTruthy(config.settings[StaticFilesKey]) ==>
      config.settings[StaticFilesKey].List? && |config.settings[StaticFilesKey].items| > 0
  }

  /** The `staticFiles` normalisation: a truthy value that is not a list becomes a one-element
      list, an empty list is deleted, and everything else is left alone. */
  function NormalizeStaticFiles(settings: map<string, YamlValue>): (r: map<string, YamlValue>)
    ensures Normalized(UiConfig(None, r))
    ensures forall k :: k != StaticFilesKey ==> (k in r <==> k in settings) && (k in r ==> r[k] == settings[k])
    ensures StaticFilesKey in settings && IsTruthy(settings[StaticFilesKey]) && !settings[StaticFilesKey].List? ==>
      StaticFilesKey in r && r[StaticFilesKey] == List([settings[StaticFilesKey]])
    ensures StaticFilesKey in settings && settings[StaticFilesKey] == List([]) ==> StaticFilesKey !in r
    ensures StaticFilesKey in settings && settings[StaticFilesKey].List? && |settings[StaticFilesKey].items| > 0 ==>
      StaticFilesKey in r && r[StaticFilesKey] == settings[StaticFilesKey]
    ensures StaticFilesKey in settings && !IsTruthy(settings[StaticFilesKey]) ==>
      StaticFilesKey in r && r[StaticFilesKey] == settings[StaticFilesKey]
    ensures StaticFilesKey !in settings ==> StaticFilesKey !in r
  {
    if StaticFilesKey in settings && IsTruthy(settings[StaticFilesKey]) then
      var v := settings[StaticFilesKey];
      if !v.List? then settings[StaticFilesKey := List([v])]
      else if |v.items| == 0 then settings - {StaticFilesKey}
      else settings
    else settings
  }

  /** Settings already in the normalised form are left as they are, so normalising twice is
      normalising once. */
  lemma NormalizeStaticFilesIdempotent(settings: map<string, YamlValue>)
    ensures Normalized(UiConfig(None, settings)) ==> NormalizeStaticFiles(settings) == settings
    ensures NormalizeStaticFiles(NormalizeStaticFiles(settings)) == NormalizeStaticFiles(settings)
  {
  }

  /** `loadConfig(files, outputDir)`: takes the configuration file out of the UI files and returns
      the remaining files with the configuration, whose output directory is always the one given.
      Without a configuration file, the configuration holds the output directory only. */
  function LoadConfig(files: map<string, UiFile>, outputDir: Option<string>, parse: YamlParser)
    : (r: Result<(map<string, UiFile>, UiConfig)>)
    ensures r.Ok? ==> r.value.0 == files - {ConfigFileName}
    ensures r.Ok? ==> r.value.1.outputDir == outputDir && Normalized(r.value.1) && OutputDirKey !in r.value.1.settings
    ensures ConfigFileName !in files ==> r == Ok((files, UiConfig(outputDir, map[])))
    ensures r.Err? <==> (ConfigFileName in files &&
                         (parse(files[ConfigFileName].contents).Err? ||
                          !(parse(files[ConfigFileName].contents).value.Mapping? ||
                            parse(files[ConfigFileName].contents).value.List?)))
    ensures ConfigFileName in files && parse(files[ConfigFileName].contents).Err? ==>
      r == Err(parse(files[ConfigFileName].contents).message)
    ensures ConfigFileName in files && parse(files[ConfigFileName].contents).Ok? &&
            parse(files[ConfigFileName].contents).value.Mapping? ==>
      r.Ok? && var entries := parse(files[ConfigFileName].contents).value.entries;
      r.value.1.settings == NormalizeStaticFiles(entries - {OutputDirKey}) &&
      forall k :: k != StaticFilesKey && k != OutputDirKey ==>
        (k in r.value.1.settings <==> k in entries) && (k in entries ==> r.value.1.settings[k] == entries[k])
    ensures ConfigFileName in files && parse(files[ConfigFileName].contents).Ok? &&
            parse(files[ConfigFileName].contents).value.List? ==>
      r == Ok((files - {ConfigFileName}, UiConfig(outputDir, map[])))
  {
    if ConfigFileName !in files then
      assert files - {ConfigFileName} == files;
      Ok((files, UiConfig(outputDir, map[])))
    else
      var remaining := files - {ConfigFileName};
      match parse(files[ConfigFileName].contents)
      case Err(m) => Err(m)
      case Ok(doc) =>
        match doc
        case Mapping(entries) =>
          Ok((remaining, UiConfig(outputDir, NormalizeStaticFiles(entries - {OutputDirKey}))))
        // a top-level YAML sequence is an array: it takes the property but has no staticFiles
        case List(_) => Ok((remaining, UiConfig(outputDir, map[])))
        // an empty document or a scalar cannot take the outputDir property: a TypeError
        case _ => Err("TypeError: cannot set property outputDir on the parsed " + ConfigFileName)
  }

  /** A type of UI file. */
  datatype FileType = Static | Layout | Helper | Partial | Asset

  /** Where a file is published, relative to the site root. */
  datatype OutPath = OutPath(dirname: string, basename: string, path: string)

  /** A UI file with its type and, for static files and assets, its publish location. */
  datatype Classified = Classified(file: UiFile, kind: FileType, out: Option<OutPath>)

  /** `minimatchAll(path, patterns)`: whether a path matches the static file patterns. Not part
      of this model. */
  type StaticMatcher = (string, seq<YamlValue>) -> bool

  /** The part of a path before its first slash (`path.split('/', 1)[0]`). */
  function FirstSegment(path: string): string {
    PosixPath.Split(path)[0]
  }

  /** `resolveType(file)`: the type named by the first path segment. */
  function ResolveType(path: string): (t: FileType)
    ensures t == Layout <==> FirstSegment(path) == "layouts"
    ensures t == Helper <==> FirstSegment(path) == "helpers"
    ensures t == Partial <==> FirstSegment(path) == "partials"
    ensures t == Asset <==> FirstSegment(path) !in {"layouts", "helpers", "partials"}
    ensures t != Static
  {
    var first := FirstSegment(path);
    if first == "layouts" then Layout
    else if first == "helpers" then Helper
    else if first == "partials" then Partial
    else Asset
  }

  /** Every file under a top-level directory has the type of that directory's name. */
  lemma ResolveTypeOfChild(dir: string, rest: string)
    requires '/' !in dir
    ensures ResolveType(dir + "/" + rest) == ResolveType(dir)
  {
    IndexOfAfter(dir, '/', rest);
    assert (dir + "/" + rest)[..|dir|] == dir;
  }

  /** The output directory when the playbook leaves it undefined. */
  const DefaultOutputDir := "_"

  /** `resolveOut(file, outputDir)`: the file's directory placed under the output directory, with a
      leading slash dropped, its name, and the two joined. */
  function ResolveOut(path: string, outputDir: Option<string>): (o: OutPath)
    ensures o.dirname == "" || o.dirname[0] != '/'
    ensures o.path != "" && o.path[0] != '/'
    ensures o.basename == PosixPath.Basename(path) && '/' !in o.basename
  {
    var dir := if outputDir.Some? then outputDir.value else DefaultOutputDir;
    var joined := PosixPath.Join(dir, PosixPath.Dirname(path));
    var dirname := if joined[0] == '/' then joined[1..] else joined;
    var basename := PosixPath.Basename(path);
    OutPath(dirname, basename, PosixPath.Join(dirname, basename))
  }

  /** An undefined output directory is the default `_`; an empty one is kept as the site root. */
  lemma ResolveOutDefault(path: string)
    ensures ResolveOut(path, None) == ResolveOut(path, Some(DefaultOutputDir))
  {
  }

  /** The publish path of a clean file path, from the directory its dirname is joined to. */
  lemma ResolveOutFromDirname(path: string, outputDir: string, dirname: string)
    requires PosixPath.Clean(path) && PosixPath.Clean(dirname)
    requires PosixPath.Join(outputDir, PosixPath.Dirname(path)) == dirname
    ensures ResolveOut(path, Some(outputDir)).dirname == dirname
    ensures ResolveOut(path, Some(outputDir)).path == dirname + "/" + PosixPath.Basename(path)
  {
    PosixPath.CleanShape(dirname);
    PosixPath.BasenameClean(path);
    PosixPath.JoinClean(dirname, PosixPath.Basename(path));
  }

  /** A clean file name at the top of the bundle is published directly under the output directory. */
  lemma ResolveOutCleanTop(path: string, outputDir: string)
    requires PosixPath.Clean(path) && PosixPath.Clean(outputDir) && |PosixPath.Split(path)| == 1
    ensures ResolveOut(path, Some(outputDir)).path == outputDir + "/" + path
  {
    PosixPath.DirnameClean(path);
    PosixPath.BasenameClean(path);
    PosixPath.JoinCurrentDir(outputDir);
    ResolveOutFromDirname(path, outputDir, outputDir);
    PosixPath.JoinSplit(path);
  }

  /** A clean file path in a subdirectory is published under the same subdirectory of the output
      directory. */
  lemma ResolveOutCleanNested(path: string, outputDir: string)
    requires PosixPath.Clean(path) && PosixPath.Clean(outputDir) && |PosixPath.Split(path)| > 1
    ensures ResolveOut(path, Some(outputDir)).path == outputDir + "/" + path
  {
    var parent := PosixPath.Dirname(path);
    var base := PosixPath.Basename(path);
    assert PosixPath.Clean(parent) by {
      PosixPath.DirnameClean(path);
    }
    assert PosixPath.Join(outputDir, parent) == outputDir + "/" + parent && PosixPath.Clean(outputDir + "/" + parent) by {
      PosixPath.JoinClean(outputDir, parent);
    }
    ResolveOutFromDirname(path, outputDir, outputDir + "/" + parent);
    assert parent + "/" + base == path by {
      PosixPath.DirnameBasename(path);
    }
    SlashJoinAssociative(outputDir, parent, base);
  }

  /** For a clean output directory and a clean file path, the file is published at the same
      relative path under the output directory, under its own name. */
  lemma ResolveOutClean(path: string, outputDir: string)
    requires PosixPath.Clean(path) && PosixPath.Clean(outputDir)
    ensures ResolveOut(path, Some(outputDir)).path == outputDir + "/" + path
    ensures ResolveOut(path, Some(outputDir)).basename == PosixPath.Split(path)[|PosixPath.Split(path)| - 1]
  {
    PosixPath.BasenameClean(path);
    if |PosixPath.Split(path)| == 1 {
      ResolveOutCleanTop(path, outputDir);
    } else {
      ResolveOutCleanNested(path, outputDir);
    }
  }

  /** Against the empty output directory of static files, a clean file path is published as is. */
  lemma ResolveOutStatic(path: string)
    requires PosixPath.Clean(path)
    ensures ResolveOut(path, Some("")).path == path
  {
    PosixPath.CleanShape(path);
    PosixPath.DirnameClean(path);
    PosixPath.BasenameClean(path);
    var base := PosixPath.Basename(path);
    if |PosixPath.Split(path)| == 1 {
      assert PosixPath.Join("", ".") == ".";
      PosixPath.JoinFromCurrentDir(base);
      PosixPath.JoinSplit(path);
    } else {
      var parent := PosixPath.Dirname(path);
      PosixPath.JoinFromCurrentDir(parent);
      PosixPath.CleanShape(parent);
      PosixPath.JoinClean(parent, base);
      PosixPath.DirnameBasename(path);
    }
  }

  /** The configuration lists static file patterns. */
  predicate HasStaticFiles(config: UiConfig) {
    StaticFilesKey in config.settings && IsTruthy(config.settings[StaticFilesKey])
  }

  /** `classifyFile(file, config)`: a file matching the static patterns is static and published
      against the site root; any other file takes the type of its first path segment, and only
      assets are published, under the output directory. */
  function ClassifyFile(file: UiFile, config: UiConfig, matches: StaticMatcher): (c: Classified)
    requires Normalized(config)
    ensures c.file == file
    ensures c.kind == Static <==> HasStaticFiles(config) && matches(file.path, config.settings[StaticFilesKey].items)
    ensures c.kind == Static ==> c.out == Some(ResolveOut(file.path, Some("")))
    ensures c.kind != Static ==> c.kind == ResolveType(file.path)
    ensures c.out.Some? <==> c.kind == Static || c.kind == Asset
    ensures c.kind == Asset ==> c.out == Some(ResolveOut(file.path, config.outputDir))
  {
    if HasStaticFiles(config) && matches(file.path, config.settings[StaticFilesKey].items) then
      Classified(file, Static, Some(ResolveOut(file.path, Some(""))))
    else
      var kind := ResolveType(file.path);
      Classified(file, kind, if kind == Asset then Some(ResolveOut(file.path, config.outputDir)) else None)
  }

  /** The pure part of `loadUi` once both reads have succeeded: `bundle` is what the archive gives
      (its entries selected from the start path and collected by path) and `extra` what
      `srcSupplementalFiles` gives. The supplemental files are merged over the bundle files, the
      configuration is taken out, and every remaining file is classified, by path. */
  function LoadUiFiles(bundle: map<string, UiFile>, extra: map<string, UiFile>,
                       outputDir: Option<string>, parse: YamlParser, matches: StaticMatcher)
    : (r: Result<map<string, Classified>>)
    requires KeyedByPath(extra)
    ensures var loaded := LoadConfig(MergeFiles(bundle, extra), outputDir, parse);
            (r.Err? <==> loaded.Err?) && (loaded.Err? ==> r == Err(loaded.message))
    ensures r.Ok? ==>
      var files := MergeFiles(bundle, extra);
      var config := LoadConfig(files, outputDir, parse).value.1;
      r.value.Keys == (bundle.Keys + extra.Keys) - {ConfigFileName} &&
      forall p :: p in r.value ==> r.value[p] == ClassifyFile(files[p], config, matches)
  {
    var files := MergeFiles(bundle, extra);
    match LoadConfig(files, outputDir, parse)
    case Err(m) => Err(m)
    case Ok((remaining, config)) =>
      Ok(map p | p in remaining :: ClassifyFile(remaining[p], config, matches))
  }

  /** `Promise.all([bundle, supplemental]).then(mergeFiles)` followed by the configuration and the
      classification: a failed supplemental read rejects the whole load with its error. */
  function LoadUi(bundle: map<string, UiFile>, supplemental: Result<map<string, UiFile>>,
                  outputDir: Option<string>, parse: YamlParser, matches: StaticMatcher)
    : (r: Result<map<string, Classified>>)
    requires supplemental.Ok? ==> KeyedByPath(supplemental.value)
    ensures supplemental.Err? ==> r == Err(supplemental.message)
    ensures supplemental.Ok? ==> r == LoadUiFiles(bundle, supplemental.value, outputDir, parse, matches)
  {
    match supplemental
    case Err(m) => Err(m)
    case Ok(extra) => LoadUiFiles(bundle, extra, outputDir, parse, matches)
  }

  /** With the bundle read from the archive and the supplemental files from their setting, every
      classified file sits under its own path, and a supplemental file wins over a bundle file. */
  lemma LoadUiByPath(entries: seq<ZipEntry>, startPath: Option<string>, spec: SupplementalSpec,
                     readDisk: DiskReader, walk: DirectoryWalker, outputDir: Option<string>,
                     parse: YamlParser, matches: StaticMatcher)
    ensures var bundle := CollectFiles(SelectFilesStartingFrom(startPath, entries));
            var extra := SrcSupplementalFiles(spec, readDisk, walk);
            var r := LoadUi(bundle, extra, outputDir, parse, matches);
            r.Ok? ==> forall p :: p in r.value ==>
              r.value[p].file.path == p && (p in extra.value ==> r.value[p].file == extra.value[p])
  {
  }
}
