/** Resolution of a contextual resource ID (`version@component:module:family$relative`) to a
    file of the content catalog, with version and module defaulting and the page-to-alias
    fallback. */
module ResolveResource {
  import opened Wrappers
  import opened Bytes

  /** A resource ID as the parser returns it; any coordinate but the relative path may be
      missing (undefined or empty). */
  datatype Id = Id(
    component: Option<string>,
    version: Option<string>,
    moduleName: Option<string>,
    family: Option<string>,
    relative: string)

  /** The context a spec is read in (the file that holds the reference). */
  datatype Ctx = Ctx(component: Option<string>, version: Option<string>, moduleName: Option<string>)

  /** The exact address `getById` looks files up by. */
  datatype Key = Key(component: Option<string>, version: string, moduleName: string, family: string, relative: string)

  /** A catalog file; an alias file holds a relation `rel` to the page it stands for. */
  datatype VirtualFile = VirtualFile(src: Key, contents: seq<byte>, rel: Option<VirtualFile>)

  /** The parts of the content catalog resolution consults: the latest version of each component
      (`getComponent(name).latest.version`) and the files by exact key (`getById`). */
  datatype Catalog = Catalog(latest: map<string, string>, files: map<Key, VirtualFile>)

  /** `parseResourceId(spec, ctx, defaultFamily, permittedFamilies)`: yields no ID when the spec
      does not match the resource ID syntax. Its grammar is not part of this model. */
  type Parser = (string, Ctx, Option<string>, Option<seq<string>>) -> Option<Id>

  /** What `resolveResource` does: throw, return undefined, or return a file. */
  datatype Resolution = Throws(message: string) | Unresolved | Found(file: VirtualFile)

  const RootModule := "ROOT"
  const PageFamily := "page"
  const AliasFamily := "alias"

  /** The message of the error thrown for a spec the parser rejects. */
  function SyntaxError(defaultFamily: Option<string>): string {
    "Invalid " + OrElse(defaultFamily, "resource") + " ID syntax"
  }

  /** `catalog.getById(key)`. */
  function GetById(catalog: Catalog, key: Key): Option<VirtualFile> {
    if key in catalog.files then Some(catalog.files[key]) else None
  }

  /** The version to look up: the ID's own when given, otherwise the latest version of its
      component, and none when that component is not in the catalog. */
  function EffectiveVersion(catalog: Catalog, id: Id): (v: Option<string>)
    ensures Truthy(id.version) ==> v == id.version
    ensures !Truthy(id.version) && id.component.Some? && id.component.value in catalog.latest
            ==> v == Some(catalog.latest[id.component.value])
    ensures !Truthy(id.version) && (id.component.None? || id.component.value !in catalog.latest)
            ==> v.None?
  {
    if Truthy(id.version) then id.version
    else if id.component.Some? && id.component.value in catalog.latest then Some(catalog.latest[id.component.value])
    else None
  }

  /** The module to look up: the ID's own when given, otherwise `ROOT`. */
  function EffectiveModule(id: Id): (m: string)
    ensures Truthy(id.moduleName) ==> m == id.moduleName.value
    ensures !Truthy(id.moduleName) ==> m == RootModule
  {
    OrElse(id.moduleName, RootModule)
  }

  /** A direct hit, or for a page only, the target of the alias at the same coordinates. */
  function Lookup(catalog: Catalog, key: Key): (r: Resolution)
    ensures !r.Throws?
    ensures key in catalog.files ==> r == Found(catalog.files[key])
    ensures key !in catalog.files && key.family != PageFamily ==> r == Unresolved
    ensures key !in catalog.files && key.family == PageFamily ==>
      var aliasKey := key.(family := AliasFamily);
      (r.Found? <==> aliasKey in catalog.files && catalog.files[aliasKey].rel.Some?) &&
      (r.Found? ==> r.file == catalog.files[aliasKey].rel.value && r.file != catalog.files[aliasKey])
  {
    match GetById(catalog, key)
    case Some(file) => Found(file)
    case None =>
      if key.family == PageFamily then
        match GetById(catalog, key.(family := AliasFamily))
        case Some(alias) =>
          (match alias.rel
           case Some(target) => Found(target)
           case None => Unresolved)
        case None => Unresolved
      else Unresolved
  }

  /** `resolveResource(spec, catalog, ctx, defaultFamily, permittedFamilies)`. */
  function Resolve(spec: string, catalog: Catalog, ctx: Ctx, defaultFamily: Option<string>,
                   permittedFamilies: Option<seq<string>>, parse: Parser): (r: Resolution)
    ensures parse(spec, ctx, defaultFamily, permittedFamilies).None? <==> r.Throws?
    ensures r.Throws? ==> r.message == SyntaxError(defaultFamily)
    ensures r.Found? ==> (r.file in catalog.files.Values ||
                          exists alias :: alias in catalog.files.Values && alias.rel == Some(r.file))
    ensures var parsed := parse(spec, ctx, defaultFamily, permittedFamilies);
            parsed.Some? && !Truthy(parsed.value.family) ==> r == Unresolved
    ensures var parsed := parse(spec, ctx, defaultFamily, permittedFamilies);
            parsed.Some? && Truthy(parsed.value.family) ==>
              (KeyOf(catalog, parsed.value).None? ==> r == Unresolved) &&
              (KeyOf(catalog, parsed.value).Some? ==> r == Lookup(catalog, KeyOf(catalog, parsed.value).value))
  {
    match parse(spec, ctx, defaultFamily, permittedFamilies)
    case None => Throws(SyntaxError(defaultFamily))
    case Some(id) =>
      if !Truthy(id.family) then Unresolved
      else
        match EffectiveVersion(catalog, id)
        case None => Unresolved
        case Some(version) =>
          var key := Key(id.component, version, EffectiveModule(id), id.family.value, id.relative);
          var r := Lookup(catalog, key);
          assert r.Found? && key !in catalog.files ==> catalog.files[key.(family := AliasFamily)].rel == Some(r.file);
          r
  }

  /** The key a parsed ID resolves to once its version and module are defaulted. */
  function KeyOf(catalog: Catalog, id: Id): Option<Key>
    requires Truthy(id.family)
  {
    match EffectiveVersion(catalog, id)
    case None => None
    case Some(version) => Some(Key(id.component, version, EffectiveModule(id), id.family.value, id.relative))
  }

  /** A spec the parser rejects throws whatever the catalog holds: the catalog is not consulted. */
  lemma SyntaxErrorIgnoresCatalog(spec: string, c1: Catalog, c2: Catalog, ctx: Ctx,
                                  defaultFamily: Option<string>, permittedFamilies: Option<seq<string>>, parse: Parser)
    requires parse(spec, ctx, defaultFamily, permittedFamilies).None?
    ensures Resolve(spec, c1, ctx, defaultFamily, permittedFamilies, parse)
         == Resolve(spec, c2, ctx, defaultFamily, permittedFamilies, parse)
         == Throws(SyntaxError(defaultFamily))
  {
  }

  /** An ID without a family resolves to nothing, whatever the catalog holds. */
  lemma NoFamilyUnresolved(spec: string, catalog: Catalog, ctx: Ctx, defaultFamily: Option<string>,
                           permittedFamilies: Option<seq<string>>, parse: Parser)
    requires parse(spec, ctx, defaultFamily, permittedFamilies).Some?
    requires !Truthy(parse(spec, ctx, defaultFamily, permittedFamilies).value.family)
    ensures Resolve(spec, catalog, ctx, defaultFamily, permittedFamilies, parse) == Unresolved
  {
  }

  /** Omitting the version is the same as naming the component's latest version. */
  lemma OmittedVersionIsLatest(catalog: Catalog, id: Id)
    requires Truthy(id.family) && !Truthy(id.version)
    requires id.component.Some? && id.component.value in catalog.latest
    ensures KeyOf(catalog, id) == KeyOf(catalog, id.(version := Some(catalog.latest[id.component.value])))
    ensures KeyOf(catalog, id).Some? && KeyOf(catalog, id).value.version == catalog.latest[id.component.value]
  {
  }

  /** Every file of the catalog is found by an ID that spells out its key. */
  lemma ResolveOwnKey(catalog: Catalog, key: Key)
    requires key in catalog.files
    requires key.version != "" && key.moduleName != "" && key.family != ""
    ensures var id := Id(key.component, Some(key.version), Some(key.moduleName), Some(key.family), key.relative);
            KeyOf(catalog, id) == Some(key) && Lookup(catalog, key) == Found(catalog.files[key])
  {
  }
}
