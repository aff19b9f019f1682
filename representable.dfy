/**
 * The font builders shared by every custom font: the size compensation
 * by the font's system font scale factor, the platform font lookup that
 * aborts when the platform has no such font, and the three SwiftUI
 * `Font.custom` requests (scaled, fixed and style-relative).
 *
 * The host toolkit is opaque: the platform font constructor is a function
 * parameter, and a SwiftUI font is the request record handed to it.
 */
module Representable {
  import opened Wrappers
  import opened CustomFonts

  /** SwiftUI's text styles, the anchors of style-relative sizing. */
  datatype TextStyle =
    | LargeTitle | Title | Title2 | Title3 | Headline | Subheadline
    | Body | Callout | Footnote | Caption | Caption2

  /** How the host scales a custom font. */
  datatype Sizing =
    | Scaled                    // `Font.custom(_:size:)`: follows dynamic type
    | Fixed                     // `Font.custom(_:fixedSize:)`: ignores dynamic type
    | RelativeTo(style: TextStyle)  // `Font.custom(_:size:relativeTo:)`

  /** A SwiftUI `Font.custom` request: font name, point size and sizing mode. */
  datatype SwiftUIFont = Custom(name: string, size: real, sizing: Sizing)

  /** The outcome of `font(size:)`: the platform's font, or the `fatalError` that ends the process. */
  datatype Resolution<H> = Resolved(font: H) | FatalError(message: string)

  /** `systemFontSize(for:)`: the point size at which the font looks as large as the system font at `size`. */
  function SystemFontSize(font: CustomFont, size: real): (adjusted: real)
    requires font.systemFontScaleFactor != 0.0
    ensures adjusted * font.systemFontScaleFactor == size
  {
    size / font.systemFontScaleFactor
  }

  /** For a font drawn larger than the system font, the compensated size is positive and strictly smaller. */
  lemma SystemFontSizeShrinks(font: CustomFont, size: real)
    requires font.systemFontScaleFactor > 1.0 && size > 0.0
    ensures 0.0 < SystemFontSize(font, size) < size
  {
    var f, r := font.systemFontScaleFactor, SystemFontSize(font, size);
    assert r * f == size;
    assert r > 0.0;
    assert size - r == r * (f - 1.0);
    assert r * (f - 1.0) > 0.0;
  }

  /** Compensation keeps the order of sizes for a positive factor. */
  lemma SystemFontSizeMonotonic(font: CustomFont, small: real, large: real)
    requires font.systemFontScaleFactor > 0.0 && small < large
    ensures SystemFontSize(font, small) < SystemFontSize(font, large)
  {
    var f := font.systemFontScaleFactor;
    var a, b := SystemFontSize(font, small), SystemFontSize(font, large);
    assert b - a == (large - small) / f;
    assert (large - small) / f > 0.0;
  }

  /** Asking for the factor itself gives point size 1; 15 points with factor 1.1 give 150/11. */
  lemma SystemFontSizeExamples(font: CustomFont)
    requires font.systemFontScaleFactor != 0.0
    ensures SystemFontSize(font, font.systemFontScaleFactor) == 1.0
    ensures font.systemFontScaleFactor == 1.1 ==> SystemFontSize(font, 15.0) == 150.0 / 11.0
  {
  }

  /**
   * `font(size:)`: the platform font for the name at the compensated size
   * when the platform has one, otherwise the fatal error naming the font.
   * No other font is ever substituted.
   */
  function PlatformFont<H>(font: CustomFont, size: real, platform: (string, real) -> Option<H>): (r: Resolution<H>)
    requires font.systemFontScaleFactor != 0.0
    ensures r.Resolved? <==> platform(font.name, SystemFontSize(font, size)).Some?
    ensures r.Resolved? ==> r.font == platform(font.name, SystemFontSize(font, size)).value
    ensures r.FatalError? ==> r.message == "Unable to initialize font '" + font.name + "'"
  {
    match platform(font.name, SystemFontSize(font, size))
    case Some(h) => Resolved(h)
    case None => FatalError("Unable to initialize font '" + font.name + "'")
  }

  /** `Font.dynamic`: a request that follows dynamic type. */
  function Dynamic(font: CustomFont, size: real): (r: SwiftUIFont)
    requires font.systemFontScaleFactor != 0.0
    ensures r.name == font.name && r.size * font.systemFontScaleFactor == size && r.sizing == Scaled
  {
    Custom(font.name, SystemFontSize(font, size), Scaled)
  }

  /** `Font.fixed`: a request at a size that ignores dynamic type. */
  function FixedFont(font: CustomFont, size: real): (r: SwiftUIFont)
    requires font.systemFontScaleFactor != 0.0
    ensures r.name == font.name && r.size * font.systemFontScaleFactor == size && r.sizing == Fixed
  {
    Custom(font.name, SystemFontSize(font, size), Fixed)
  }

  /** `Font.relative`: a request that scales with the metrics of `style`. */
  function Relative(font: CustomFont, size: real, style: TextStyle): (r: SwiftUIFont)
    requires font.systemFontScaleFactor != 0.0
    ensures r.name == font.name && r.size * font.systemFontScaleFactor == size && r.sizing == RelativeTo(style)
  {
    Custom(font.name, SystemFontSize(font, size), RelativeTo(style))
  }

  /** `swiftUIFont(dynamicSize:)`. */
  function SwiftUIFontDynamicSize(font: CustomFont, size: real): SwiftUIFont
    requires font.systemFontScaleFactor != 0.0
  {
    Dynamic(font, size)
  }

  /** `swiftUIFont(fixedSize:)`. */
  function SwiftUIFontFixedSize(font: CustomFont, size: real): SwiftUIFont
    requires font.systemFontScaleFactor != 0.0
  {
    FixedFont(font, size)
  }

  /** `swiftUIFont(size:relativeTo:)`. */
  function SwiftUIFontRelative(font: CustomFont, size: real, style: TextStyle): SwiftUIFont
    requires font.systemFontScaleFactor != 0.0
  {
    Relative(font, size, style)
  }

  /** The three builders ask for the same font at the same compensated size and differ only in sizing mode. */
  lemma BuildersDifferOnlyInSizing(font: CustomFont, size: real, style: TextStyle)
    requires font.systemFontScaleFactor != 0.0
    ensures Dynamic(font, size).name == FixedFont(font, size).name == Relative(font, size, style).name == font.name
    ensures Dynamic(font, size).size == FixedFont(font, size).size == Relative(font, size, style).size
    ensures Dynamic(font, size).size == SystemFontSize(font, size)
    ensures Dynamic(font, size).sizing != FixedFont(font, size).sizing
    ensures FixedFont(font, size).sizing != Relative(font, size, style).sizing
    ensures Relative(font, size, style).sizing != Dynamic(font, size).sizing
  {
  }

  /** Each `swiftUIFont` wrapper is the `Font` builder with the same arguments. */
  lemma WrappersAreBuilders(font: CustomFont, size: real, style: TextStyle)
    requires font.systemFontScaleFactor != 0.0
    ensures SwiftUIFontDynamicSize(font, size) == Dynamic(font, size)
    ensures SwiftUIFontFixedSize(font, size) == FixedFont(font, size)
    ensures SwiftUIFontRelative(font, size, style) == Relative(font, size, style)
  {
  }

  /** When the platform builds no font for the name at any size, asking for the font always ends in the fatal error. */
  lemma MissingFontIsFatalAtResolution<H>(font: CustomFont, size: real, platform: (string, real) -> Option<H>)
    requires font.systemFontScaleFactor != 0.0
    requires forall s :: platform(font.name, s).None?
    ensures PlatformFont(font, size, platform) == FatalError("Unable to initialize font '" + font.name + "'")
  {
  }
}
