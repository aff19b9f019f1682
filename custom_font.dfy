/**
 * The `CustomFont` descriptor of FontKit: an immutable record built from a
 * required name and optional overrides, the default family derived from the
 * name, the lookup of its file in a bundle, and the check-then-insert
 * registration of that file with the process font catalog (the non-macOS
 * branch, which asks the catalog for the family's font names).
 */
module CustomFonts {
  import opened Wrappers
  import opened SwiftStrings

  /** The bundle a font file is looked up in. */
  datatype BundleId = Main | Module | Bundle(identifier: string)

  /** A font file a bundle holds, by bundle, file name and extension. */
  datatype ResourceFile = ResourceFile(bundle: BundleId, fileName: string, fileExtension: string)

  /** One font known to the process font catalog: its family and its name. */
  datatype CatalogEntry = CatalogEntry(family: string, name: string)

  datatype CustomFont = CustomFont(
    name: string,
    displayName: string,
    family: string,
    fileName: string,
    fileExtension: string,
    bundle: BundleId,
    systemFontScaleFactor: real)
  {
    /** The `Identifiable` identifier. */
    function Id(): string
    {
      name
    }
  }

  /** Two descriptors have the same identifier exactly when they have the same name. */
  lemma IdIsName(a: CustomFont, b: CustomFont)
    ensures a.Id() == a.name
    ensures a.Id() == b.Id() <==> a.name == b.name
  {
  }

  /** The default family: the first non-empty `-`-separated piece of `name`, or "" when there is none. */
  function DefaultFamily(name: string): string
  {
    var pieces := Split(name, '-');
    if pieces == [] then [] else pieces[0]
  }

  /** The default family never holds a hyphen, is the whole name when the name has none, and is empty exactly for all-hyphen names. */
  lemma DefaultFamilyProperties(name: string)
    ensures '-' !in DefaultFamily(name)
    ensures '-' !in name ==> DefaultFamily(name) == name
    ensures DefaultFamily(name) == [] <==> forall i :: 0 <= i < |name| ==> name[i] == '-'
  {
    SplitFirstIsFirstSegment(name, '-');
    if '-' !in name {
      SplitOfFree(name, '-');
    }
  }

  /** The default family is the reference first segment: skip leading hyphens, stop at the next one. */
  lemma DefaultFamilyIsFirstSegment(name: string)
    ensures DefaultFamily(name) == FirstSegment(name, '-')
  {
    SplitFirstIsFirstSegment(name, '-');
    if Split(name, '-') == [] {
      assert name[LeadingCount(name, '-')..] == [];
    }
  }

  /** `CustomFont.init` without its registration side effect: every field resolved from its argument or its default. */
  function Resolve(
    name: string,
    displayName: Option<string> := None,
    family: Option<string> := None,
    fileName: Option<string> := None,
    fileExtension: string := "ttf",
    bundle: BundleId := Main,
    systemFontScaleFactor: real := 1.2): (font: CustomFont)
    ensures font.name == name
    ensures displayName.Some? ==> font.displayName == displayName.value
    ensures displayName.None? ==> font.displayName == name
    ensures family.Some? ==> font.family == family.value
    ensures family.None? ==> font.family == DefaultFamily(name)
    ensures fileName.Some? ==> font.fileName == fileName.value
    ensures fileName.None? ==> font.fileName == name
    ensures font.fileExtension == fileExtension
    ensures font.bundle == bundle
    ensures font.systemFontScaleFactor == systemFontScaleFactor
  {
    CustomFont(
      name,
      displayName.GetOr(name),
      family.GetOr(DefaultFamily(name)),
      fileName.GetOr(name),
      fileExtension,
      bundle,
      systemFontScaleFactor)
  }

  /** With only a name, every other field takes its documented default. */
  lemma ResolveDefaults(name: string)
    ensures Resolve(name) == CustomFont(name, name, DefaultFamily(name), name, "ttf", Main, 1.2)
  {
  }

  /** A name alone: "OpenDyslexic-Bold" takes every other field's default. */
  lemma ResolveOpenDyslexicBoldByNameOnly()
    ensures Resolve("OpenDyslexic-Bold") ==
      CustomFont("OpenDyslexic-Bold", "OpenDyslexic-Bold", "OpenDyslexic", "OpenDyslexic-Bold", "ttf", Main, 1.2)
  {
    assert Join(["OpenDyslexic", "Bold"], '-') == "OpenDyslexic-Bold";
    FamilyOfHyphenated("OpenDyslexic", ["Bold"]);
  }

  /** Swift's `split` drops empty pieces: a leading hyphen is skipped and a name of hyphens only has family "". */
  lemma DefaultFamilyEdgeCases()
    ensures DefaultFamily("-Bold") == "Bold"
    ensures DefaultFamily("---") == ""
    ensures DefaultFamily("") == ""
  {
    var s := "-Bold";
    assert LeadingCount(s[1..], '-') == 0;
    DefaultFamilyIsFirstSegment(s);
    assert s[LeadingCount(s, '-')..] == "Bold";
    IndexOfFree("Bold", '-');
  }

  /** The family of `head-rest0-rest1-...` is `head`, whatever the further pieces. */
  lemma FamilyOfHyphenated(head: string, rest: seq<string>)
    requires head != [] && '-' !in head
    requires forall i :: 0 <= i < |rest| ==> rest[i] != [] && '-' !in rest[i]
    ensures DefaultFamily(Join([head] + rest, '-')) == head
  {
    var pieces := [head] + rest;
    forall i | 0 <= i < |pieces|
      ensures pieces[i] != [] && '-' !in pieces[i]
    {
      if i > 0 { assert pieces[i] == rest[i - 1]; }
    }
    SplitJoin(pieces, '-');
    assert Split(Join(pieces, '-'), '-')[0] == head;
  }

  /** `url`: the bundle's file for the descriptor's file name and extension, when it has one. */
  function Url(font: CustomFont, files: set<ResourceFile>): (url: Option<ResourceFile>)
    ensures url.Some? <==> ResourceFile(font.bundle, font.fileName, font.fileExtension) in files
    ensures url.Some? ==> url.value == ResourceFile(font.bundle, font.fileName, font.fileExtension)
  {
    var file := ResourceFile(font.bundle, font.fileName, font.fileExtension);
    if file in files then Some(file) else None
  }

  /** The catalog's font names for one family (`fontNames(forFamilyName:)`). */
  function FontNames(catalog: set<CatalogEntry>, family: string): (names: set<string>)
    ensures forall n :: n in names <==> CatalogEntry(family, n) in catalog
  {
    set e | e in catalog && e.family == family :: e.name
  }

  /** `isRegistered`: false without a file; otherwise whether the family's names contain the descriptor's name. */
  predicate IsRegistered(font: CustomFont, files: set<ResourceFile>, catalog: set<CatalogEntry>)
  {
    match Url(font, files)
    case None => false
    case Some(_) => font.name in FontNames(catalog, font.family)
  }

  /** Both directions of what `isRegistered` answers. */
  lemma IsRegisteredMeaning(font: CustomFont, files: set<ResourceFile>, catalog: set<CatalogEntry>)
    ensures IsRegistered(font, files, catalog) <==>
      ResourceFile(font.bundle, font.fileName, font.fileExtension) in files &&
      CatalogEntry(font.family, font.name) in catalog
  {
  }

  /** The catalog after `registerIfNeeded`: unchanged without a file or when already registered, otherwise with the font's entry added. */
  function Registered(font: CustomFont, files: set<ResourceFile>, catalog: set<CatalogEntry>): (after: set<CatalogEntry>)
    ensures Url(font, files).None? ==> after == catalog
    ensures IsRegistered(font, files, catalog) ==> after == catalog
    ensures Url(font, files).Some? ==> after == catalog + {CatalogEntry(font.family, font.name)}
  {
    if Url(font, files).None? || IsRegistered(font, files, catalog) then catalog
    else catalog + {CatalogEntry(font.family, font.name)}
  }

  /** Registering twice gives the catalog that registering once gives. */
  lemma RegisteredIdempotent(font: CustomFont, files: set<ResourceFile>, catalog: set<CatalogEntry>)
    ensures Registered(font, files, Registered(font, files, catalog)) == Registered(font, files, catalog)
  {
  }

  /** After registration a font with a file is registered; nothing is removed and only its own entry can appear. */
  lemma RegisteredEffect(font: CustomFont, files: set<ResourceFile>, catalog: set<CatalogEntry>)
    ensures Url(font, files).Some? <==> IsRegistered(font, files, Registered(font, files, catalog))
    ensures catalog <= Registered(font, files, catalog)
    ensures Registered(font, files, catalog) - catalog <= {CatalogEntry(font.family, font.name)}
  {
  }

  /** Registering two fonts in either order gives the same catalog: registrations do not interfere. */
  lemma RegisteredCommutes(a: CustomFont, b: CustomFont, files: set<ResourceFile>, catalog: set<CatalogEntry>)
    ensures Registered(b, files, Registered(a, files, catalog)) == Registered(a, files, Registered(b, files, catalog))
  {
  }

  /** The catalog after registering each font of `fonts` in order. */
  function RegisteredAll(fonts: seq<CustomFont>, files: set<ResourceFile>, catalog: set<CatalogEntry>): set<CatalogEntry>
    decreases |fonts|
  {
    if fonts == [] then catalog
    else RegisteredAll(fonts[1..], files, Registered(fonts[0], files, catalog))
  }

  /** Registering a list never removes an entry. */
  lemma {:induction false} RegisteredAllGrows(fonts: seq<CustomFont>, files: set<ResourceFile>, catalog: set<CatalogEntry>)
    ensures catalog <= RegisteredAll(fonts, files, catalog)
    decreases |fonts|
  {
    if fonts != [] {
      RegisteredEffect(fonts[0], files, catalog);
      RegisteredAllGrows(fonts[1..], files, Registered(fonts[0], files, catalog));
    }
  }

  /** After registering a list, every font in it whose file exists is registered, in whatever order it came. */
  lemma {:induction false} RegisteredAllRegistersEach(fonts: seq<CustomFont>, files: set<ResourceFile>, catalog: set<CatalogEntry>, i: nat)
    requires i < |fonts|
    ensures Url(fonts[i], files).Some? <==> IsRegistered(fonts[i], files, RegisteredAll(fonts, files, catalog))
    decreases |fonts|
  {
    var next := Registered(fonts[0], files, catalog);
    if i == 0 {
      RegisteredEffect(fonts[0], files, catalog);
      RegisteredAllGrows(fonts[1..], files, next);
    } else {
      RegisteredAllRegistersEach(fonts[1..], files, next, i - 1);
    }
  }
}
