/** The files of a UI: bundle entries selected from a start path, collected by path,
    supplemental files listed inline or read from a directory, and the merge of the two. */
module UiBundle {
  import opened Wrappers
  import opened Text
  import opened Bytes
  import opened Utf
  import PosixPath

  /** The part of a file's stat the model keeps. */
  datatype Stat = Stat(size: nat, mode: nat)

  /** A UI file: its path relative to the UI root, its bytes and its stat. */
  datatype UiFile = UiFile(path: string, contents: seq<byte>, stat: Stat)

  /** An entry read from the bundle archive; a directory has no contents (`file.isNull()`). */
  datatype ZipEntry = ZipEntry(path: string, contents: Option<seq<byte>>, stat: Stat)

  /** `isUrl(s)`: the string holds `://` and starts with `http://` or `https://`. */
  predicate IsUrl(s: string) {
    Contains(s, "://") && (StartsWith(s, "http://") || StartsWith(s, "https://"))
  }

  /** The `://` test is implied by the scheme test: a bundle is fetched exactly when its
      location starts with `http://` or `https://`. */
  lemma IsUrlIsScheme(s: string)
    ensures IsUrl(s) <==> StartsWith(s, "http://") || StartsWith(s, "https://")
  {
    if StartsWith(s, "http://") {
      assert s[4..7] == s[..7][4..7] == "://";
      assert OccursAt(s, "://", 4);
    } else if StartsWith(s, "https://") {
      assert s[5..8] == s[..8][5..8] == "://";
      assert OccursAt(s, "://", 5);
    }
  }

  /** The prefix a bundle path must carry to be kept: the start path normalised as
      `path.join('/', startPath + '/')` without its leading slash. None when the start path is
      unset, empty or names the bundle root, in which case every file is kept. */
  function StartPrefix(startPath: Option<string>): (prefix: Option<string>)
    ensures prefix.Some? ==> |prefix.value| > 0 && prefix.value[0] != '/' && prefix.value[|prefix.value| - 1] == '/'
  {
    if !Truthy(startPath) then None
    else
      var joined := PosixPath.Join("/", startPath.value + "/");
      if joined == "/" then None else Some(joined[1..])
  }

  /** The slashes-wrapped form of a clean path splits into its segments between empty ones. */
  lemma SplitWrapped(startPath: string)
    requires PosixPath.Clean(startPath)
    ensures PosixPath.Split("/" + "/" + (startPath + "/")) == ["", ""] + PosixPath.Split(startPath) + [""]
  {
    var segs := PosixPath.Split(startPath);
    var all := ["", ""] + segs + [""];
    PosixPath.JoinSplit(startPath);
    assert all == ["", ""] + (segs + [""]);
    PosixPath.JoinSegmentsAppend(segs, [""]);
    PosixPath.JoinSegmentsAppend(["", ""], segs + [""]);
    assert PosixPath.JoinSegments(["", ""]) == "/";
    assert PosixPath.JoinSegments(all) == "/" + "/" + (startPath + "/");
    assert forall k :: 0 <= k < |all| ==> '/' !in all[k];
    PosixPath.SplitJoin(all);
  }

  /** Normalising the slashes-wrapped form of a clean path gives the path between single slashes. */
  lemma NormalizeWrapped(startPath: string)
    requires PosixPath.Clean(startPath)
    ensures PosixPath.Normalize("/" + "/" + (startPath + "/")) == "/" + (startPath + "/")
  {
    var segs := PosixPath.Split(startPath);
    var p := "/" + "/" + (startPath + "/");
    SplitWrapped(startPath);
    PosixPath.ResolveFromAppend([], ["", ""], segs + [""], false);
    assert ["", ""] + segs + [""] == ["", ""] + (segs + [""]);
    assert PosixPath.ResolveFrom([], ["", ""], false) == [] by {
      assert ["", ""][1..] == [""];
    }
    PosixPath.ResolveFromAppend([], segs, [""], false);
    PosixPath.ResolveFromPlain([], segs, false);
    assert [] + segs == segs;
    assert PosixPath.ResolveFrom(segs, [""], false) == segs by {
      assert [""][1..] == [];
    }
    PosixPath.JoinSplit(startPath);
    PosixPath.CleanShape(startPath);
    assert p[0] == '/' && p[|p| - 1] == '/';
  }

  /** A clean start path selects the files under the directory it names. */
  lemma StartPrefixClean(startPath: string)
    requires PosixPath.Clean(startPath)
    ensures StartPrefix(Some(startPath)) == Some(startPath + "/")
  {
    PosixPath.CleanShape(startPath);
    NormalizeWrapped(startPath);
    assert PosixPath.Join("/", startPath + "/") == "/" + (startPath + "/");
  }

  /** Normalising a path of slashes and `.` segments gives the root. */
  lemma JoinRoot(segs: seq<string>)
    requires |segs| >= 2 && segs[0] == ""
    requires forall k :: 0 <= k < |segs| ==> segs[k] == "" || segs[k] == "."
    ensures PosixPath.Normalize(PosixPath.JoinSegments(segs)) == "/"
  {
    var p := PosixPath.JoinSegments(segs);
    assert p == "" + "/" + PosixPath.JoinSegments(segs[1..]);
    PosixPath.SplitJoin(segs);
    RootSegmentsVanish([], segs);
  }

  /** Empty and `.` segments leave the fold where it was. */
  lemma {:induction false} RootSegmentsVanish(acc: seq<string>, segs: seq<string>)
    requires forall k :: 0 <= k < |segs| ==> segs[k] == "" || segs[k] == "."
    ensures PosixPath.ResolveFrom(acc, segs, false) == acc
    decreases |segs|
  {
    if |segs| > 0 {
      RootSegmentsVanish(acc, segs[1..]);
    }
  }

  /** A start path whose wrapped form normalises to the root keeps every file. */
  lemma StartPrefixOfRoot(startPath: string, segs: seq<string>)
    requires startPath != ""
    requires |segs| >= 2 && segs[0] == ""
    requires forall k :: 0 <= k < |segs| ==> segs[k] == "" || segs[k] == "."
    requires PosixPath.JoinSegments(segs) == "/" + "/" + (startPath + "/")
    ensures StartPrefix(Some(startPath)) == None
  {
    JoinRoot(segs);
  }

  /** The start paths that name the bundle root keep every file. */
  lemma StartPrefixRoot()
    ensures StartPrefix(None) == StartPrefix(Some("")) == None
    ensures StartPrefix(Some("/")) == StartPrefix(Some(".")) == None
  {
    assert PosixPath.JoinSegments(["", "", "", "", ""]) == "/" + "/" + ("/" + "/");
    StartPrefixOfRoot("/", ["", "", "", "", ""]);
    assert PosixPath.JoinSegments(["", "", ".", ""]) == "/" + "/" + ("." + "/");
    StartPrefixOfRoot(".", ["", "", ".", ""]);
  }

  /** What becomes of one bundle entry: directories are dropped; without a prefix a file passes
      with its path unchanged; with one, a file is kept only when its path starts with the prefix
      and is strictly longer, and the prefix is stripped. */
  function SelectEntry(prefix: Option<string>, e: ZipEntry): (r: Option<UiFile>)
    ensures e.contents.None? ==> r.None?
    ensures prefix.None? && e.contents.Some? ==> r == Some(UiFile(e.path, e.contents.value, e.stat))
    ensures prefix.Some? ==>
      (r.Some? <==> e.contents.Some? && |e.path| > |prefix.value| && StartsWith(e.path, prefix.value))
    ensures prefix.Some? && r.Some? ==>
      prefix.value + r.value.path == e.path && r.value.path != "" &&
      r.value.contents == e.contents.value && r.value.stat == e.stat
  {
    if e.contents.None? then None
    else if prefix.None? then Some(UiFile(e.path, e.contents.value, e.stat))
    else if |e.path| > |prefix.value| && StartsWith(e.path, prefix.value) then
      Some(UiFile(e.path[|prefix.value|..], e.contents.value, e.stat))
    else None
  }

  /** `selectFilesStartingFrom(startPath)` applied to the entries of the archive, in order. */
  function SelectFilesStartingFrom(startPath: Option<string>, entries: seq<ZipEntry>): (files: seq<UiFile>)
    ensures |files| <= |entries|
    ensures forall f :: f in files <==>
      exists i :: 0 <= i < |entries| && SelectEntry(StartPrefix(startPath), entries[i]) == Some(f)
  {
    if |entries| == 0 then []
    else
      var init := entries[..|entries| - 1];
      var rest := SelectFilesStartingFrom(startPath, init);
      assert forall i :: 0 <= i < |init| ==> init[i] == entries[i];
      match SelectEntry(StartPrefix(startPath), entries[|entries| - 1])
      case None => rest
      case Some(f) => rest + [f]
  }

  /** Every file of the map is stored under its own path. */
  predicate KeyedByPath(files: map<string, UiFile>) {
    forall p :: p in files ==> files[p].path == p
  }

  /** No file after position `i` has the path of the file at `i`. */
  predicate LastWithPath(files: seq<UiFile>, i: nat)
    requires i < |files|
  {
    forall j :: i < j < |files| ==> files[j].path != files[i].path
  }

  /** The paths of a list of files. */
  function PathSet(files: seq<UiFile>): (paths: set<string>)
    ensures forall i :: 0 <= i < |files| ==> files[i].path in paths
  {
    if |files| == 0 then {} else PathSet(files[..|files| - 1]) + {files[|files| - 1].path}
  }

  /** `collectFiles`: the files by path, a later file replacing an earlier one with the same path. */
  function CollectFiles(files: seq<UiFile>): (m: map<string, UiFile>)
    ensures m.Keys == PathSet(files)
    ensures KeyedByPath(m)
  {
    if |files| == 0 then map[]
    else
      var last := files[|files| - 1];
      CollectFiles(files[..|files| - 1])[last.path := last]
  }

  /** In the collected map, each path holds the last file listed with it. */
  lemma {:induction false} CollectFilesLastWins(files: seq<UiFile>, i: nat)
    requires i < |files| && LastWithPath(files, i)
    ensures CollectFiles(files)[files[i].path] == files[i]
    decreases |files|
  {
    if i < |files| - 1 {
      var init := files[..|files| - 1];
      assert init[i] == files[i];
      assert LastWithPath(init, i) by {
        forall j | i < j < |init|
          ensures init[j].path != init[i].path
        {
          assert init[j] == files[j];
        }
      }
      CollectFilesLastWins(init, i);
    }
  }

  /** `mergeFiles`: supplemental files replace bundle files with the same path; every other
      bundle file is kept as it is. The source stores each supplemental file under its own path;
      the supplemental map is keyed by path (it comes from `CollectFiles`), so its key is that path. */
  function MergeFiles(files: map<string, UiFile>, supplemental: map<string, UiFile>): (merged: map<string, UiFile>)
    requires KeyedByPath(supplemental)
    ensures merged.Keys == files.Keys + supplemental.Keys
    ensures forall p :: p in supplemental ==> merged[p] == supplemental[p]
    ensures forall p :: p in files && p !in supplemental ==> merged[p] == files[p]
    ensures KeyedByPath(files) ==> KeyedByPath(merged)
  {
    if |supplemental| > 0 then files + supplemental else files
  }

  /** Each supplemental file ends up stored under its own path, as `accum.set(file.path, file)`
      puts it. */
  lemma MergeFilesStoresByPath(files: map<string, UiFile>, supplemental: map<string, UiFile>, f: UiFile)
    requires KeyedByPath(supplemental) && f in supplemental.Values
    ensures var merged := MergeFiles(files, supplemental);
            f.path in merged && merged[f.path] == f
  {
    var p :| p in supplemental && supplemental[p] == f;
  }

  /** The mode of an in-memory file, 0o100644. */
  const MemoryFileMode: nat := 33188

  /** `createMemoryFile(path, contents)` as written: the stat size is the JavaScript length of
      the string, counted in UTF-16 code units, while the contents are its UTF-8 bytes. */
  function CreateMemoryFileAsWritten(path: string, contents: string): (f: UiFile)
    ensures f.path == path && f.contents == Utf8Encode(contents)
    ensures f.stat == Stat(Utf16Length(contents), MemoryFileMode)
  {
    UiFile(path, Utf8Encode(contents), Stat(Utf16Length(contents), MemoryFileMode))
  }

  /** As written, the stat size matches the contents exactly when the contents are ASCII. */
  lemma AsWrittenSizeExactOnlyForAscii(path: string, contents: string)
    ensures var f := CreateMemoryFileAsWritten(path, contents);
            f.stat.size <= |f.contents| && (f.stat.size == |f.contents| <==> IsAscii(contents))
  {
    Utf8CoversUtf16(contents);
  }

  /** A one-character counterexample: "é" is one UTF-16 unit but two UTF-8 bytes. */
  lemma AsWrittenSizeMismatch()
    ensures var f := CreateMemoryFileAsWritten("head-meta.hbs", "é");
            f.stat.size == 1 && |f.contents| == 2
  {
    assert "é"[..0] == "";
  }

  /** `createMemoryFile(path, contents)` with the stat size taken from the bytes it holds; for
      ASCII contents it is the function as written. */
  function CreateMemoryFile(path: string, contents: string): (f: UiFile)
    ensures f.path == path && f.contents == Utf8Encode(contents)
    ensures f.stat.size == |f.contents| && f.stat.mode == MemoryFileMode
    ensures IsAscii(contents) ==> f == CreateMemoryFileAsWritten(path, contents)
  {
    Utf8CoversUtf16(contents);
    var bytes := Utf8Encode(contents);
    UiFile(path, bytes, Stat(|bytes|, MemoryFileMode))
  }

  predicate IsLowerLetter(c: char) {
    'a' <= c <= 'z'
  }

  /** `/\.[a-z]{2,3}$/.test(s)`: the string ends with a dot and two or three lower-case letters. */
  predicate HasExtension(s: string) {
    var n := |s|;
    (n >= 3 && s[n - 3] == '.' && IsLowerLetter(s[n - 2]) && IsLowerLetter(s[n - 1])) ||
    (n >= 4 && s[n - 4] == '.' && IsLowerLetter(s[n - 3]) && IsLowerLetter(s[n - 2]) && IsLowerLetter(s[n - 1]))
  }

  /** One `{ path, contents }` entry of an inline supplemental file list. */
  datatype SupplementalEntry = SupplementalEntry(path: Option<string>, contents: Option<string>)

  /** The `ui.supplemental_files` setting: unset, a list of entries, or a directory. */
  datatype SupplementalSpec = NoSupplemental | Inline(entries: seq<SupplementalEntry>) | Directory(dir: string)

  /** Where the file of one inline entry comes from. */
  datatype Source = Skip | Memory(file: UiFile) | Disk(path: string, location: string)

  /** The inline-or-path decision: entries without a path are skipped; contents holding a newline
      or lacking a two- or three-letter extension are the file's text; other contents name a file
      on disk; an entry without contents is an empty file. */
  function SourceOf(entry: SupplementalEntry): (s: Source)
    ensures s.Skip? <==> !Truthy(entry.path)
    ensures s.Disk? <==> Truthy(entry.path) && Truthy(entry.contents) &&
                         '\n' !in entry.contents.value && HasExtension(entry.contents.value)
    ensures s.Disk? ==> s.path == entry.path.value && s.location == entry.contents.value
    ensures s.Memory? ==> s.file.path == entry.path.value && s.file.stat.size == |s.file.contents| &&
                          s.file.contents == Utf8Encode(OrElse(entry.contents, ""))
    ensures s.Memory? ==>
      var asWritten := CreateMemoryFileAsWritten(entry.path.value, OrElse(entry.contents, ""));
      s.file == asWritten.(stat := asWritten.stat.(size := |asWritten.contents|)) &&
      (IsAscii(OrElse(entry.contents, "")) ==> s.file == asWritten)
  {
    if !Truthy(entry.path) then Skip
    else if Truthy(entry.contents) then
      var text := entry.contents.value;
      if '\n' in text || !HasExtension(text) then Memory(CreateMemoryFile(entry.path.value, text))
      else Disk(entry.path.value, text)
    else Memory(CreateMemoryFile(entry.path.value, ""))
  }

  /** Reading a file named by a supplemental entry (`fs.stat` and `fs.readFile`, relative to the
      playbook directory); not part of this model. */
  type DiskReader = string -> Result<(seq<byte>, Stat)>

  /** Walking a supplemental directory for its files, relative to it; not part of this model. */
  type DirectoryWalker = string -> Result<seq<UiFile>>

  /** The read of an entry's file on disk fails. */
  predicate ReadFails(entry: SupplementalEntry, readDisk: DiskReader) {
    SourceOf(entry).Disk? && readDisk(SourceOf(entry).location).Err?
  }

  /** The file an inline entry contributes when its read succeeds: none for an entry without a
      path, the in-memory file, or the file read from disk under the entry's path. */
  function FileOf(entry: SupplementalEntry, readDisk: DiskReader): Option<UiFile> {
    match SourceOf(entry)
    case Skip => None
    case Memory(f) => Some(f)
    case Disk(path, location) =>
      match readDisk(location)
      case Err(_) => None
      case Ok(read) => Some(UiFile(path, read.0, read.1))
  }

  /** The files of the inline entries, in order, or the first read that fails. */
  function ReadSources(entries: seq<SupplementalEntry>, readDisk: DiskReader): (r: Result<seq<UiFile>>)
    ensures r.Err? <==> exists i :: 0 <= i < |entries| && ReadFails(entries[i], readDisk)
    ensures r.Err? ==> exists i :: 0 <= i < |entries| && ReadFails(entries[i], readDisk) &&
                                   r.message == readDisk(SourceOf(entries[i]).location).message
    ensures r.Ok? ==> |r.value| <= |entries|
    ensures r.Ok? ==> PathSet(r.value) == EntryPaths(entries)
    ensures r.Ok? ==> forall f :: f in r.value ==>
                        exists i :: 0 <= i < |entries| && FileOf(entries[i], readDisk) == Some(f)
    ensures r.Ok? ==> forall i :: 0 <= i < |entries| && FileOf(entries[i], readDisk).Some? ==>
                        FileOf(entries[i], readDisk).value in r.value
  {
    if |entries| == 0 then Ok([])
    else
      var init := entries[..|entries| - 1];
      var last := entries[|entries| - 1];
      assert forall i :: 0 <= i < |init| ==> init[i] == entries[i];
      match ReadSources(init, readDisk)
      case Err(m) => Err(m)
      case Ok(files) =>
        match SourceOf(last)
        case Skip => Ok(files)
        case Memory(f) => Ok(files + [f])
        case Disk(path, location) =>
          match readDisk(location)
          case Err(m) => Err(m)
          case Ok(read) => Ok(files + [UiFile(path, read.0, read.1)])
  }

  /** The file an entry contributes is stored under the entry's path. */
  lemma FileOfPath(entry: SupplementalEntry, readDisk: DiskReader)
    requires FileOf(entry, readDisk).Some?
    ensures Truthy(entry.path) && FileOf(entry, readDisk).value.path == entry.path.value
  {
  }

  /** When the reads succeed, the file of an entry that no later entry shares a path with is
      the last file with that path in the list read. */
  /** The files the inline entries give, in entry order, when every read succeeds. */
  function FilesOf(entries: seq<SupplementalEntry>, readDisk: DiskReader): seq<UiFile> {
    if |entries| == 0 then []
    else
      var last := FileOf(entries[|entries| - 1], readDisk);
      FilesOf(entries[..|entries| - 1], readDisk) + (if last.Some? then [last.value] else [])
  }

  /** A successful read lists the entries' files in entry order. */
  lemma {:induction false} ReadSourcesInOrder(entries: seq<SupplementalEntry>, readDisk: DiskReader)
    ensures ReadSources(entries, readDisk).Ok? ==> ReadSources(entries, readDisk).value == FilesOf(entries, readDisk)
    decreases |entries|
  {
    if |entries| > 0 {
      ReadSourcesInOrder(entries[..|entries| - 1], readDisk);
    }
  }

  /** The file of an entry that no later entry shares a path with is the last file with that
      path in the entries' files. */
  lemma {:induction false} FilesOfKeepsLast(entries: seq<SupplementalEntry>, readDisk: DiskReader, i: nat)
    requires i < |entries| && FileOf(entries[i], readDisk).Some?
    requires forall j :: i < j < |entries| ==> entries[j].path != entries[i].path
    ensures var files := FilesOf(entries, readDisk);
            exists k :: 0 <= k < |files| && files[k] == FileOf(entries[i], readDisk).value && LastWithPath(files, k)
    decreases |entries|
  {
    var init := entries[..|entries| - 1];
    var last := FileOf(entries[|entries| - 1], readDisk);
    var before := FilesOf(init, readDisk);
    var tail := if last.Some? then [last.value] else [];
    var f := FileOf(entries[i], readDisk).value;
    assert FilesOf(entries, readDisk) == before + tail;
    if i == |entries| - 1 {
      LastWithPathAppend(before + [f], |before|, []);
      assert (before + [f]) + [] == FilesOf(entries, readDisk);
    } else {
      assert init[i] == entries[i];
      assert forall j :: i < j < |init| ==> init[j] == entries[j];
      FilesOfKeepsLast(init, readDisk, i);
      var k :| 0 <= k < |before| && before[k] == f && LastWithPath(before, k);
      if last.Some? {
        FileOfPath(entries[i], readDisk);
        FileOfPath(entries[|entries| - 1], readDisk);
      }
      LastWithPathAppend(before, k, tail);
      assert FilesOf(entries, readDisk)[k] == f && LastWithPath(FilesOf(entries, readDisk), k);
    }
  }

  /** Appending files with other paths keeps a file the last with its path. */
  lemma LastWithPathAppend(files: seq<UiFile>, k: nat, tail: seq<UiFile>)
    requires k < |files| && LastWithPath(files, k)
    requires forall g :: g in tail ==> g.path != files[k].path
    ensures (files + tail)[k] == files[k] && LastWithPath(files + tail, k)
  {
    forall j | k < j < |files + tail|
      ensures (files + tail)[j].path != files[k].path
    {
      if j >= |files| {
        assert (files + tail)[j] == tail[j - |files|];
      }
    }
  }

  /** Of two inline entries with the same path, the later one supplies the file. */
  lemma InlineLastWins(entries: seq<SupplementalEntry>, readDisk: DiskReader, walk: DirectoryWalker, i: nat)
    requires forall k :: 0 <= k < |entries| ==> !ReadFails(entries[k], readDisk)
    requires i < |entries| && FileOf(entries[i], readDisk).Some?
    requires forall j :: i < j < |entries| ==> entries[j].path != entries[i].path
    ensures var r := SrcSupplementalFiles(Inline(entries), readDisk, walk);
            r.Ok? && entries[i].path.value in r.value &&
            r.value[entries[i].path.value] == FileOf(entries[i], readDisk).value
  {
    var files := ReadSources(entries, readDisk).value;
    ReadSourcesInOrder(entries, readDisk);
    FilesOfKeepsLast(entries, readDisk, i);
    var k :| 0 <= k < |files| && files[k] == FileOf(entries[i], readDisk).value && LastWithPath(files, k);
    FileOfPath(entries[i], readDisk);
    CollectFilesLastWins(files, k);
  }

  /** The paths the inline entries give, skipping entries without one. */
  function EntryPaths(entries: seq<SupplementalEntry>): (paths: set<string>)
    ensures forall i :: 0 <= i < |entries| && Truthy(entries[i].path) ==> entries[i].path.value in paths
  {
    if |entries| == 0 then {}
    else
      var last := entries[|entries| - 1];
      EntryPaths(entries[..|entries| - 1]) + (if Truthy(last.path) then {last.path.value} else {})
  }

  const SupplementalErrorPrefix := "problem encountered while reading ui.supplemental_files: "

  /** `srcSupplementalFiles(filesSpec, startDir)`: the supplemental files by path. */
  function SrcSupplementalFiles(spec: SupplementalSpec, readDisk: DiskReader, walk: DirectoryWalker): (r: Result<map<string, UiFile>>)
    ensures spec.NoSupplemental? || spec == Directory("") ==> r == Ok(map[])
    ensures r.Ok? ==> KeyedByPath(r.value)
    ensures r.Ok? && spec.Inline? ==> r.value.Keys == EntryPaths(spec.entries)
    ensures r.Err? && spec.Directory? ==> StartsWith(r.message, SupplementalErrorPrefix)
    ensures spec.Inline? ==>
      var read := ReadSources(spec.entries, readDisk);
      (read.Ok? ==> r == Ok(CollectFiles(read.value))) && (read.Err? ==> r == Err(read.message))
    ensures spec.Directory? && spec.dir != "" ==>
      var found := walk(spec.dir);
      (found.Ok? ==> r == Ok(CollectFiles(found.value))) &&
      (found.Err? ==> r == Err(SupplementalErrorPrefix + found.message))
  {
    match spec
    case NoSupplemental => Ok(map[])
    case Inline(entries) =>
      (match ReadSources(entries, readDisk)
       case Err(m) => Err(m)
       case Ok(files) => Ok(CollectFiles(files)))
    case Directory(dir) =>
      if dir == "" then Ok(map[])
      else
        match walk(dir)
        case Err(m) =>
          var message := SupplementalErrorPrefix + m;
          assert message[..|SupplementalErrorPrefix|] == SupplementalErrorPrefix;
          Err(message)
        case Ok(files) => Ok(CollectFiles(files))
  }
}
