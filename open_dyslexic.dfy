/**
 * The OpenDyslexic typeface shipped with FontKit: four `.otf` variants in
 * the package's own bundle, each drawn about 10% larger than the system
 * font, and the ordered list of all four.
 */
module OpenDyslexic {
  import opened Wrappers
  import opened SwiftStrings
  import opened CustomFonts
  import Registration

  /** The private factory every variant is made with. */
  function Make(name: string, displayName: string): (font: CustomFont)
    ensures font.name == name && font.displayName == displayName
    ensures font.family == DefaultFamily(name) && font.fileName == name
    ensures font.fileExtension == "otf" && font.bundle == Module && font.systemFontScaleFactor == 1.1
  {
    Resolve(name, Some(displayName), fileExtension := "otf", bundle := Module, systemFontScaleFactor := 1.1)
  }

  /**
   * The variant names are built from the typeface name; each is FontKit's
   * literal ("OpenDyslexic-Regular", ...), as FontsInOrder states.
   */
  const Typeface: string := "OpenDyslexic"
  const RegularName: string := Typeface + "-Regular"
  const BoldName: string := Typeface + "-Bold"
  const BoldItalicName: string := Typeface + "-Bold-Italic"
  const ItalicName: string := Typeface + "-Italic"

  const Regular: CustomFont := Make(RegularName, "OpenDyslexic")
  const Bold: CustomFont := Make(BoldName, "OpenDyslexic Bold")
  const BoldItalic: CustomFont := Make(BoldItalicName, "OpenDyslexic Bold Italic")
  const Italic: CustomFont := Make(ItalicName, "OpenDyslexic Italic")

  /** `openDyslexicFonts`: Regular, Bold, Italic, Bold-Italic, which is not the declaration order. */
  const Fonts: seq<CustomFont> := [Regular, Bold, Italic, BoldItalic]

  /** The variant names are FontKit's literals. */
  lemma VariantNames()
    ensures Typeface == "OpenDyslexic"
    ensures RegularName == "OpenDyslexic-Regular" && BoldName == "OpenDyslexic-Bold"
    ensures ItalicName == "OpenDyslexic-Italic" && BoldItalicName == "OpenDyslexic-Bold-Italic"
  {
  }

  /** The list holds the four variants in this order. */
  lemma FontsInOrder()
    ensures |Fonts| == 4
    ensures Fonts[0] == Regular && Fonts[1] == Bold && Fonts[2] == Italic && Fonts[3] == BoldItalic
    ensures Fonts[0].name == RegularName && Fonts[1].name == BoldName
    ensures Fonts[2].name == ItalicName && Fonts[3].name == BoldItalicName
  {
  }

  /** The variants' identifiers are pairwise distinct, so the list is a valid `Identifiable` collection. */
  lemma FontIdsDistinct()
    ensures forall i, j :: 0 <= i < j < |Fonts| ==> Fonts[i].Id() != Fonts[j].Id()
  {
    // The four names already differ in length: 20, 17, 19 and 24 characters.
    assert |Regular.Id()| == 20 && |Bold.Id()| == 17 && |Italic.Id()| == 19 && |BoldItalic.Id()| == 24;
  }

  /** The display names, list order. */
  lemma DisplayNames()
    ensures Fonts[0].displayName == "OpenDyslexic" && Fonts[1].displayName == "OpenDyslexic Bold"
    ensures Fonts[2].displayName == "OpenDyslexic Italic" && Fonts[3].displayName == "OpenDyslexic Bold Italic"
  {
  }

  /** Every variant is an `.otf` file named after the font, in the package bundle, with factor 1.1. */
  lemma VariantFiles()
    ensures forall i :: 0 <= i < |Fonts| ==>
      Fonts[i].fileExtension == "otf" && Fonts[i].fileName == Fonts[i].name &&
      Fonts[i].bundle == Module && Fonts[i].systemFontScaleFactor == 1.1
  {
    forall font | font in Fonts
      ensures font.fileExtension == "otf" && font.fileName == font.name
      ensures font.bundle == Module && font.systemFontScaleFactor == 1.1
    {
      assert font == Regular || font == Bold || font == Italic || font == BoldItalic;
    }
  }

  // One lemma per variant keeps each proof about a single name.

  lemma RegularFamily()
    ensures Regular.family == Typeface
  {
    assert Join([Typeface, "Regular"], '-') == RegularName;
    FamilyOfHyphenated(Typeface, ["Regular"]);
  }

  lemma BoldFamily()
    ensures Bold.family == Typeface
  {
    assert Join([Typeface, "Bold"], '-') == BoldName;
    FamilyOfHyphenated(Typeface, ["Bold"]);
  }

  lemma ItalicFamily()
    ensures Italic.family == Typeface
  {
    assert Join([Typeface, "Italic"], '-') == ItalicName;
    FamilyOfHyphenated(Typeface, ["Italic"]);
  }

  lemma BoldItalicFamily()
    ensures BoldItalic.family == Typeface
  {
    assert Join([Typeface, "Bold", "Italic"], '-') == BoldItalicName;
    FamilyOfHyphenated(Typeface, ["Bold", "Italic"]);
  }

  /** Every variant's derived family is the typeface name "OpenDyslexic", the two-hyphen Bold-Italic included. */
  lemma VariantFamilies()
    ensures forall i :: 0 <= i < |Fonts| ==> Fonts[i].family == Typeface
  {
    RegularFamily();
    BoldFamily();
    ItalicFamily();
    BoldItalicFamily();
  }

  /** The bundle file each variant is looked up as. */
  function FileOf(font: CustomFont): ResourceFile
  {
    ResourceFile(font.bundle, font.fileName, font.fileExtension)
  }

  /**
   * First use of `openDyslexicFonts`: each static is initialised in list
   * order, and each initialisation attempts its registration.
   */
  method LoadFonts(env: Registration.FontEnvironment) returns (fonts: seq<CustomFont>)
    modifies env
    ensures fonts == Fonts
    ensures env.catalog == RegisteredAll(Fonts, env.files, old(env.catalog))
  {
    var regular := Registration.CreateCustomFont(env, RegularName, Some("OpenDyslexic"),
      fileExtension := "otf", bundle := Module, systemFontScaleFactor := 1.1);
    var bold := Registration.CreateCustomFont(env, BoldName, Some("OpenDyslexic Bold"),
      fileExtension := "otf", bundle := Module, systemFontScaleFactor := 1.1);
    var italic := Registration.CreateCustomFont(env, ItalicName, Some("OpenDyslexic Italic"),
      fileExtension := "otf", bundle := Module, systemFontScaleFactor := 1.1);
    var boldItalic := Registration.CreateCustomFont(env, BoldItalicName, Some("OpenDyslexic Bold Italic"),
      fileExtension := "otf", bundle := Module, systemFontScaleFactor := 1.1);
    fonts := [regular, bold, italic, boldItalic];
    assert fonts == Fonts;
    var c0 := old(env.catalog);
    var c1 := Registered(Regular, env.files, c0);
    var c2 := Registered(Bold, env.files, c1);
    var c3 := Registered(Italic, env.files, c2);
    assert RegisteredAll(Fonts[3..], env.files, c3) == RegisteredAll([BoldItalic], env.files, c3) == env.catalog;
    assert RegisteredAll(Fonts[2..], env.files, c2) == env.catalog;
    assert RegisteredAll(Fonts[1..], env.files, c1) == env.catalog;
  }

  /** With all four files bundled, each variant ends up registered under its own name, whatever the catalog held before. */
  lemma AllVariantsRegistered(files: set<ResourceFile>, catalog: set<CatalogEntry>)
    requires forall i :: 0 <= i < |Fonts| ==> FileOf(Fonts[i]) in files
    ensures forall i :: 0 <= i < |Fonts| ==> IsRegistered(Fonts[i], files, RegisteredAll(Fonts, files, catalog))
  {
    forall i | 0 <= i < |Fonts|
      ensures IsRegistered(Fonts[i], files, RegisteredAll(Fonts, files, catalog))
    {
      RegisteredAllRegistersEach(Fonts, files, catalog, i);
    }
  }
}
