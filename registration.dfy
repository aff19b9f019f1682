/**
 * The process-wide state that `CustomFont.init` touches: the files the
 * bundles hold (fixed for the process) and the font catalog that
 * registration extends in place.
 */
module Registration {
  import opened Wrappers
  import opened CustomFonts

  class FontEnvironment {
    /** The font files present in the bundles. */
    const files: set<ResourceFile>
    /** The process font catalog. */
    var catalog: set<CatalogEntry>

    constructor (files: set<ResourceFile>, catalog: set<CatalogEntry>)
      ensures this.files == files && this.catalog == catalog
    {
      this.files := files;
      this.catalog := catalog;
    }

    /** `isRegistered` against the current catalog. */
    predicate IsRegistered(font: CustomFont)
      reads this
    {
      CustomFonts.IsRegistered(font, files, catalog)
    }

    /** `registerIfNeeded`: nothing without a file or when already registered, otherwise the font's entry is added. */
    method RegisterIfNeeded(font: CustomFont)
      modifies this
      ensures catalog == Registered(font, files, old(catalog))
      ensures Url(font, files).Some? ==> IsRegistered(font)
    {
      var url := Url(font, files);
      if url.None? || IsRegistered(font) {
        return;
      }
      catalog := catalog + {CatalogEntry(font.family, font.name)};
    }
  }

  /**
   * `CustomFont.init`: resolve every field, then attempt registration once.
   * There is no precondition and no failure: a missing file leaves the
   * catalog as it was.
   */
  method CreateCustomFont(
    env: FontEnvironment,
    name: string,
    displayName: Option<string> := None,
    family: Option<string> := None,
    fileName: Option<string> := None,
    fileExtension: string := "ttf",
    bundle: BundleId := Main,
    systemFontScaleFactor: real := 1.2)
    returns (font: CustomFont)
    modifies env
    ensures font == Resolve(name, displayName, family, fileName, fileExtension, bundle, systemFontScaleFactor)
    ensures env.catalog == Registered(font, env.files, old(env.catalog))
  {
    font := Resolve(name, displayName, family, fileName, fileExtension, bundle, systemFontScaleFactor);
    env.RegisterIfNeeded(font);
  }

  /** A second construction with the same arguments leaves the catalog as the first one left it. */
  method CreateTwiceRegistersOnce(
    env: FontEnvironment,
    name: string,
    displayName: Option<string> := None,
    family: Option<string> := None,
    fileName: Option<string> := None,
    fileExtension: string := "ttf",
    bundle: BundleId := Main,
    systemFontScaleFactor: real := 1.2)
    modifies env
    ensures env.catalog == Registered(
      Resolve(name, displayName, family, fileName, fileExtension, bundle, systemFontScaleFactor),
      env.files, old(env.catalog))
  {
    var first := CreateCustomFont(env, name, displayName, family, fileName, fileExtension, bundle, systemFontScaleFactor);
    var second := CreateCustomFont(env, name, displayName, family, fileName, fileExtension, bundle, systemFontScaleFactor);
    RegisteredIdempotent(first, env.files, old(env.catalog));
  }
}
