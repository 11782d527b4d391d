# Antora content resolution, UI file loading and git HTTP plugin — a Dafny model

This project models three groups of pure logic from the Antora documentation site generator.

1. **Resource ID resolution** (`resolveResource`). A contextual resource ID such as
   `2.0@server:ROOT:page$intro.adoc` is parsed, then looked up in the content catalog. A spec the
   parser rejects throws `Invalid <defaultFamily or 'resource'> ID syntax`. An ID without a family resolves to nothing.
   A missing version becomes the component's latest version; an unknown component resolves to
   nothing. A missing module becomes `ROOT`. The file is looked up by exact key. For pages only,
   a miss falls back to an `alias` entry with the same coordinates, and the alias's target page is
   returned.
2. **UI bundle files** (`load-ui.js`). Bundle entries are filtered by the start path and the
   prefix is stripped. Files are collected by path, last writer wins, and supplemental files are
   merged over them. Inline supplemental entries are turned into in-memory or on-disk files. The
   UI configuration file is taken out and its `staticFiles` setting normalised. Each file is
   classified as static, layout, helper, partial or asset, and static files and assets get a
   publish location. Node's `path.posix` functions `join`, `normalize`, `dirname` and `basename`
   are modelled after Node's own algorithms, so that publish paths can be stated exactly.
3. **Git HTTP plugin** (`git-plugin-http.js`). An array request body is merged into one buffer,
   with two short cuts. The proxy agent is chosen by URL scheme, proxy configuration and the
   no-proxy check. A response is distilled into the shape the git client expects.

Modules: `Wrappers` (Option, Result, JavaScript truthiness of strings), `Text` (string helpers),
`Bytes` (bytes, chunk concatenation, `Uint8Array.set`), `Utf` (UTF-16 length and UTF-8
encoding), `PosixPath`, `ResolveResource`, `UiBundle`, `UiClassify` and `GitPluginHttp`.

These foreign collaborators are function parameters, so every property holds whatever they do:
- the resource ID parser (`ResolveResource.Parser`);
- the YAML parser (`UiClassify.YamlParser`);
- the glob matcher for static files (`UiClassify.StaticMatcher`);
- the no-proxy check (`GitPluginHttp.NoProxyCheck`);
- file-system reads and directory walks (`UiBundle.DiskReader`, `UiBundle.DirectoryWalker`).

"Clean" paths (`PosixPath.Clean`) are relative paths of one or more segments with no empty
segment, no `.` and no `..`. Several lemmas state exact publish paths for them.

The doc comment of `resolveResource` (packages/content-classifier/lib/util/resolve-resource.js:5-25) promises a file or undefined, and an error for bad syntax. Three details come from the function body, not that comment:
- An ID whose family is missing or empty resolves to nothing.
- The syntax error message is `Invalid <defaultFamily or 'resource'> ID syntax`.
- An alias whose relation is missing resolves to nothing.

## Model

| member | source | states |
|---|---|---|
| ResolveResource.Resolve | packages/content-classifier/lib/util/resolve-resource.js:26-42 | Throws exactly when the parser yields no ID, with the message `Invalid <defaultFamily or resource> ID syntax`; an ID without a family is undefined; any other ID is undefined when no version can be found and otherwise resolves exactly as the lookup of its key with version and module defaulted; a file found is a catalog file or the target of a catalog alias |
| ResolveResource.SyntaxErrorIgnoresCatalog | packages/content-classifier/lib/util/resolve-resource.js:27-29 | A spec the parser rejects throws the same error for any two catalogs, so the catalog is never consulted |
| ResolveResource.NoFamilyUnresolved | packages/content-classifier/lib/util/resolve-resource.js:30 | A parsed ID without a family resolves to undefined whatever the catalog holds |
| ResolveResource.EffectiveVersion | packages/content-classifier/lib/util/resolve-resource.js:31-35 | A given version is kept; an omitted one becomes the component's latest version; with an unknown or missing component there is no version, so the result is undefined rather than an error |
| ResolveResource.OmittedVersionIsLatest | packages/content-classifier/lib/util/resolve-resource.js:31-35 | Omitting the version looks up exactly the key obtained by naming the component's latest version |
| ResolveResource.EffectiveModule | packages/content-classifier/lib/util/resolve-resource.js:36 | A missing or empty module becomes `ROOT`; a present module is left unchanged |
| ResolveResource.Lookup | packages/content-classifier/lib/util/resolve-resource.js:38-41 | A direct hit is returned as is, with no alias lookup; a miss is undefined for a non-page family; for a page it is found exactly when an `alias` with the same coordinates exists and has a target, and the result is that target, never the alias file itself |
| ResolveResource.ResolveOwnKey | packages/content-classifier/lib/util/resolve-resource.js:31-39 | Every catalog file is found by an ID that spells out all of its key |
| UiBundle.IsUrlIsScheme | packages/ui-loader/lib/load-ui.js:92-94 | `isUrl` holds exactly when the string starts with `http://` or `https://`; the `://` test adds nothing |
| UiBundle.StartPrefix | packages/ui-loader/lib/load-ui.js:106-120 | The prefix a kept file needs is non-empty, has no leading slash and ends with a slash; there is none when the start path is unset or empty |
| UiBundle.StartPrefixClean | packages/ui-loader/lib/load-ui.js:107-120 | A clean start path `p` selects by the prefix `p/` |
| UiBundle.StartPrefixRoot | packages/ui-loader/lib/load-ui.js:107-117 | An unset or empty start path, `/` and `.` all keep every file |
| UiBundle.SelectEntry | packages/ui-loader/lib/load-ui.js:106-133 | Directories are dropped; without a prefix files pass with their path unchanged; with one, a file is kept exactly when its path starts with the prefix and is strictly longer, and prefix plus new path gives the old path back |
| UiBundle.SelectFilesStartingFrom | packages/ui-loader/lib/load-ui.js:106-134 | A file comes out exactly when some archive entry yields it under the start path's prefix |
| UiBundle.CollectFiles | packages/ui-loader/lib/load-ui.js:153-156 | The collected map holds exactly the files' paths, each file stored under its own path |
| UiBundle.CollectFilesLastWins | packages/ui-loader/lib/load-ui.js:153-156 | Each path holds the last file listed with that path |
| UiBundle.MergeFiles | packages/ui-loader/lib/load-ui.js:224-227 | For a supplemental map keyed by path, as every producer builds it: supplemental files override bundle files with the same path, every other bundle file is kept unchanged, and the keys are the union of both |
| UiBundle.MergeFilesStoresByPath | packages/ui-loader/lib/load-ui.js:225 | Each supplemental file is stored in the merged map under its own path, whatever map key it came with |
| UiBundle.CreateMemoryFileAsWritten | packages/ui-loader/lib/load-ui.js:204-209 | The in-memory file holds the UTF-8 bytes of the text, with mode 0o100644 and a stat size equal to the text's JavaScript length |
| UiBundle.AsWrittenSizeExactOnlyForAscii | packages/ui-loader/lib/load-ui.js:204-209 | As written, the stat size never exceeds the byte count and equals it exactly for ASCII text |
| UiBundle.AsWrittenSizeMismatch | packages/ui-loader/lib/load-ui.js:206-208 | For the text "é" the stat size is 1 while the file holds 2 bytes |
| UiBundle.CreateMemoryFile | packages/ui-loader/lib/load-ui.js:204-209 | The corrected in-memory file: its stat size is its byte count; for ASCII text it is the file as written |
| UiBundle.SourceOf | packages/ui-loader/lib/load-ui.js:163-179 | Entries without a path are skipped; contents are read from disk exactly when they have no newline and end in a 2-3 letter lower-case extension; otherwise an in-memory file of the contents' UTF-8 bytes, empty when there are no contents. This is the file `createMemoryFile` builds, except that its stat size is its byte count, and for ASCII contents it is exactly that file |
| UiBundle.ReadSources | packages/ui-loader/lib/load-ui.js:162-181 | Fails exactly when the disk read of some entry fails, with that read's message; otherwise every file comes from an entry (its in-memory file, or the bytes and stat read for it), every entry that yields a file contributes it, and the paths are exactly the entries' paths |
| UiBundle.ReadSourcesInOrder | packages/ui-loader/lib/load-ui.js:162-181 | A successful read lists the entries' files in entry order: each entry's in-memory file or disk file, with path-less entries skipped |
| UiBundle.FilesOfKeepsLast | packages/ui-loader/lib/load-ui.js:162-181 | An entry that no later entry shares a path with supplies the last file with that path in the ordered list |
| UiBundle.InlineLastWins | packages/ui-loader/lib/load-ui.js:162-182 | When every read succeeds, the inline supplemental file stored under a path is the file of the last entry listing that path |
| UiBundle.SrcSupplementalFiles | packages/ui-loader/lib/load-ui.js:158-202 | No setting or an empty directory gives no files; an inline list gives the files read from its entries collected by path, or the read's error unchanged; a directory gives the walked files collected by path, or the walk's error behind the `problem encountered while reading ui.supplemental_files: ` prefix |
| UiClassify.NormalizeStaticFiles | packages/ui-loader/lib/load-ui.js:235-242 | A truthy non-list `staticFiles` becomes a one-element list, an empty list is deleted, a non-empty list, a falsy value or an absent key is left as it is, other keys are untouched, and the result is normalised |
| UiClassify.NormalizeStaticFilesIdempotent | packages/ui-loader/lib/load-ui.js:235-242 | Settings already normalised are left unchanged, so normalising twice is normalising once |
| UiClassify.LoadConfig | packages/ui-loader/lib/load-ui.js:229-247 | The configuration file is removed from the files and `outputDir` is always the argument. For a mapping document, the settings are the document's keys, without `outputDir`, with `staticFiles` normalised. A sequence document gives no settings. The result is an error exactly when the document fails to parse (its error is passed on) or is null or a scalar. Without the file, the configuration is `{ outputDir }` only |
| UiClassify.ResolveType | packages/ui-loader/lib/load-ui.js:266-277 | First segment `layouts`, `helpers` or `partials` gives layout, helper or partial, and anything else gives asset (both directions) |
| UiClassify.ResolveTypeOfChild | packages/ui-loader/lib/load-ui.js:266-277 | Every file under a top-level directory has the type named by that directory |
| UiClassify.ResolveOut | packages/ui-loader/lib/load-ui.js:279-284 | Neither the publish dirname nor the publish path starts with `/`; the basename is the file's basename |
| UiClassify.ResolveOutDefault | packages/ui-loader/lib/load-ui.js:279 | An undefined output directory acts as `_` |
| UiClassify.ResolveOutClean | packages/ui-loader/lib/load-ui.js:279-284 | With a clean output directory `d`, a clean file path `p` is published at `d/p`, under its last segment |
| UiClassify.ResolveOutStatic | packages/ui-loader/lib/load-ui.js:279-284 | Against the empty output directory of static files, a clean path is published unchanged |
| UiClassify.ClassifyFile | packages/ui-loader/lib/load-ui.js:249-260 | A file matching `staticFiles` is static with its location computed against the empty directory, taking precedence; otherwise its type is its first segment's, and only assets get a location, under `outputDir` |
| UiClassify.LoadUiFiles | packages/ui-loader/lib/load-ui.js:83-89 | Fails exactly when loading the configuration from the merged bundle and supplemental files fails, with that error; otherwise the result holds exactly the bundle and supplemental paths minus the configuration file, and each is the classification, under the loaded configuration, of the merged file at that path, where supplemental files win |
| UiClassify.LoadUi | packages/ui-loader/lib/load-ui.js:69-89 | A failure to gather the supplemental files is the result's error unchanged; otherwise the result is that of loading the bundle together with the gathered supplemental files |
| UiClassify.LoadUiByPath | packages/ui-loader/lib/load-ui.js:69-89 | When loading a bundle selected from a start path succeeds, every result entry carries a file whose path is its key, and a path supplied by the supplemental files is served by that supplemental file |
| PosixPath.Join | packages/ui-loader/lib/load-ui.js:280-283 | `path.join` never yields an empty string or a leading double slash; its result is absolute exactly when its first non-empty argument is, and it keeps a trailing slash |
| PosixPath.JoinClean | packages/ui-loader/lib/load-ui.js:280-283 | Joining two clean paths puts exactly one slash between them and the result is clean |
| PosixPath.DirnameBasename | packages/ui-loader/lib/load-ui.js:280-282 | A clean path of several segments is its dirname, a slash and its basename |
| Utf.Utf8CoversUtf16 | packages/ui-loader/lib/load-ui.js:206-208 | A string's UTF-8 byte count is at least its JavaScript length, with equality exactly for ASCII |
| GitPluginHttp.MergeBuffers | packages/content-aggregator/lib/git-plugin-http.js:10-26 | A body that is not an array is returned unchanged; a lone Buffer is returned as is; otherwise one buffer holding the chunks in order, whose length is the sum of their byte lengths |
| GitPluginHttp.LoneBufferShortcut | packages/content-aggregator/lib/git-plugin-http.js:12 | The lone-Buffer short cut gives the same bytes as the general merge |
| Bytes.ChunkInPlace | packages/content-aggregator/lib/git-plugin-http.js:20-24 | Each chunk's bytes sit unaltered in the merged buffer at the running offset |
| Bytes.SetAt | packages/content-aggregator/lib/git-plugin-http.js:22 | `data.set(buffer, offset)` overwrites exactly the bytes from the offset and keeps the rest and the length |
| GitPluginHttp.PrepareRequest | packages/content-aggregator/lib/git-plugin-http.js:28-60 | URL, method and headers pass through and the body is merged; an agent is made exactly when the proxy for the URL's scheme (`httpsProxy` for `https:`, `httpProxy` otherwise) is set and the no-proxy check admits the URL, and it uses that proxy |
| GitPluginHttp.NoProxyConfiguredGoesDirect | packages/content-aggregator/lib/git-plugin-http.js:29-58 | With neither proxy configured the scheme-based agent selection already yields no agent, so the plugin without proxies and the proxy-aware plugin agree on every URL |
| GitPluginHttp.SchemeMismatchGoesDirect | packages/content-aggregator/lib/git-plugin-http.js:35-44 | An https URL with only `httpProxy` set goes direct, and so does an http URL with only `httpsProxy` set |
| GitPluginHttp.DistillResponse | packages/content-aggregator/lib/git-plugin-http.js:5-8 | url, method, status code, status message and headers are copied and the body is the response itself |

## Left out

- The grammar of `parseResourceId` is not modelled. Its source (`parse-resource-id.js`) is not part of this model, so the parser is a parameter.
- `catalog.getComponent(undefined)` is taken to find no component, so an ID with neither component nor version resolves to nothing.
- The content catalog's `getComponent` and `getById` are modelled as two maps: component name to latest version, and key to file. Catalog construction is not part of this model.
- The UI bundle download and cache (`got`, `sha1`, `getCachePath`, `fs.pathExists`, `expandPath`) are left out because they are I/O.
- Zip reading, `bufferizeContents` and the `vinyl-fs` glob with `relativizeFiles` are left out because they are I/O. The archive is a list of entries, and a supplemental directory walk is a parameter.
- YAML parsing and the decoding of the configuration file's bytes are a parameter.
- The `minimatch-all` matching of `staticFiles` is a parameter.
- `UiCatalog.addFile` is not part of this model. The pipeline returns the classified files by path.
- The `./file` class (vinyl) is not part of this model. Paths are taken as given, and `dirname`/`basename` follow Node's `path.posix`.
- `posixify` and Windows paths are left out. Paths are POSIX.
- `UI_CONFIG_FILENAME` comes from the ui-loader constants file, which is not part of this model. It is taken as `ui.yml`.
- The `simple-get` call, the construction of `hpagent` agents and the `new URL` parsing of the proxy URL are left out because they are network code and foreign libraries. An agent records its class and the proxy URL string.
- `should-proxy` is a parameter.
- Promises and `for await` are left out. Chunks are taken as already resolved.
- GitPluginHttp.MergeBuffers: returns the bytes, not object identity. A lone Buffer and its copy are not distinguished.
- UiBundle.SourceOf: builds in-memory files with the corrected `CreateMemoryFile`, whose stat size is the UTF-8 byte count. The source sets the UTF-16 length (see Findings), so the two differ for non-ASCII inline contents. The contract states that SourceOf's file agrees with the as-written file in every other field, and is identical to it for ASCII contents. `ReadSources`, `SrcSupplementalFiles`, `LoadUi` and `LoadUiFiles` inherit this.
- UiBundle.ReadSources: reports the first failing read in list order. `Promise.all` rejects with whichever read fails first in time.
- UiBundle.SelectFilesStartingFrom: its contract states which files come out, not that they keep the archive's order. The definition does keep the order.
- UiClassify.LoadConfig: the TypeError for a configuration document that is empty or a scalar carries an abbreviated message. A top-level YAML sequence is treated as a configuration with no settings, as the array that JavaScript would give has no `staticFiles`.
- UiClassify.ClassifyFile: requires the configuration in the normalised form `LoadConfig` returns, which is the only form the loader passes. How `minimatch-all` treats a non-list pattern is not part of this model.
- `packages/playbook-builder` (schema and tests), `packages/asciidoc-loader`, `packages/content-aggregator/lib/constants.js`, `gulpfile.js` and `test/test-utils.js` are left out. They are declarative data, a thin wrapper over Asciidoctor, or build and test tooling.

## Findings

| source | as written | input that shows it | evidently intended | confidence | as-written member | corrected member |
|---|---|---|---|---|---|---|
| packages/ui-loader/lib/load-ui.js:204-209 | `stat.size` is set to the string's `.length`, which counts UTF-16 code units, while `contents` is `Buffer.from(string)`, the UTF-8 bytes | supplemental entry `{ path: 'head-meta.hbs', contents: 'é' }`: stat size 1, contents 2 bytes | stat size equals the number of bytes held | medium (not executed) | UiBundle.CreateMemoryFileAsWritten, UiBundle.AsWrittenSizeMismatch | UiBundle.CreateMemoryFile |
