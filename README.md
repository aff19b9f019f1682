# FontKit descriptor, registration and sizing model

FontKit loads custom font files from a bundle. It registers them with the
platform's process font catalog unless they are already there. It builds
platform and SwiftUI fonts whose requested size is divided by the font's
system font scale factor, so that the font looks as large as the system
font would. It ships four OpenDyslexic variants.

This project models that logic in Dafny:

- `SwiftStrings` models Swift's `split(separator:)`, which drops empty pieces. It also holds a separate reference definition of "first segment".
- `CustomFonts` holds the `CustomFont` record, the resolution of its defaults (`init` minus its side effect), `defaultFamily`, `url`, the non-macOS `isRegistered`, and `Registered`. `Registered` is the catalog after `registerIfNeeded`, computed on values.
- `Registration` holds the process state as a class: the bundled files and the font catalog. `FontEnvironment.RegisterIfNeeded` updates the catalog in place. `CreateCustomFont` is `init`: resolve every field, then attempt registration once.
- `Representable` holds `systemFontSize(for:)` and `font(size:)`. The platform constructor is a function parameter, and the abort is a `FatalError` value. It also holds the three `Font.custom` builders, modelled as request records, and the `swiftUIFont` wrappers.
- `OpenDyslexic` holds the private factory, the four variants, the ordered `openDyslexicFonts` list, and the first use of that list, which registers each variant.
- `MacRegistration` holds the macOS branch of `isRegistered`, as written and corrected (see Findings).

Where the code and its doc comments differ, the model follows the code:

- The doc comment at `CustomFont.swift:27` gives the default family as "the first name segment". The code takes the first NON-EMPTY `-`-separated piece of the name, so `"-Bold"` gives `"Bold"` and `"---"` gives `""`.
- The doc comment at `CustomFont.swift:31` gives the default scale factor as `1`. The code at `CustomFont.swift:39` uses `1.2`.

Registration is attempted at the end of `init` (`CustomFont.swift:48`), so every construction of a descriptor tries it once.

## Model

| member | source | states |
|---|---|---|
| `SwiftStrings.Split` | Sources/FontKit/CustomFont.swift:79 | every piece is non-empty and free of the separator |
| `SwiftStrings.SplitJoin` | Sources/FontKit/CustomFont.swift:79 | splitting undoes joining with the separator, for non-empty separator-free pieces |
| `SwiftStrings.SplitKeepsOtherCharacters` | Sources/FontKit/CustomFont.swift:79 | the pieces, concatenated, are the input with exactly its separators removed |
| `SwiftStrings.SplitFirstIsFirstSegment` | Sources/FontKit/CustomFont.swift:79 | the split is empty iff the input is all separators; otherwise its first piece is the reference first segment |
| `SwiftStrings.SplitAtSeparator` | Sources/FontKit/CustomFont.swift:79 | splitting at any one separator gives the split of the left side followed by the split of the right side; with `SplitOfFree`, the pieces are exactly the maximal separator-free runs, in order |
| `CustomFonts.IdIsName` | Sources/FontKit/CustomFont.swift:52 | `id` is `name`, so two descriptors share an id iff they share a name |
| `CustomFonts.CustomFont.Id` | Sources/FontKit/CustomFont.swift:52 | models `id`; its contract is stated by `CustomFonts.IdIsName` |
| `CustomFonts.DefaultFamily` | Sources/FontKit/CustomFont.swift:78-80 | models `defaultFamily`; its contract is stated by `DefaultFamilyProperties`, `DefaultFamilyIsFirstSegment`, `DefaultFamilyEdgeCases` and `FamilyOfHyphenated` |
| `CustomFonts.DefaultFamilyProperties` | Sources/FontKit/CustomFont.swift:78-80 | the default family has no `-`; it is the whole name when the name has no `-`; it is empty iff the name is all hyphens |
| `CustomFonts.DefaultFamilyIsFirstSegment` | Sources/FontKit/CustomFont.swift:78-80 | the default family equals the reference first segment: skip leading hyphens, stop at the next one |
| `CustomFonts.DefaultFamilyEdgeCases` | Sources/FontKit/CustomFont.swift:79 | `"-Bold"` gives `"Bold"`; `"---"` and `""` give `""` |
| `CustomFonts.FamilyOfHyphenated` | Sources/FontKit/CustomFont.swift:78-80 | the family of `head-p1-…-pn` is `head`, however many pieces follow |
| `CustomFonts.Resolve` | Sources/FontKit/CustomFont.swift:32-47 | each optional override is kept when given and otherwise falls back: displayName and fileName to `name`, family to the default family |
| `CustomFonts.ResolveDefaults` | Sources/FontKit/CustomFont.swift:37-47 | with a name alone, the fields are name, name, default family, name, `"ttf"`, main bundle and 1.2 |
| `CustomFonts.ResolveOpenDyslexicBoldByNameOnly` | Sources/FontKit/CustomFont.swift:41-47 | `"OpenDyslexic-Bold"` alone resolves to family `"OpenDyslexic"`, with displayName and fileName equal to the name and extension `"ttf"` |
| `CustomFonts.Url` | Sources/FontKit/CustomFont.swift:95-100 | a URL exists iff the bundle holds a file with the font's file name and extension; it is that file |
| `CustomFonts.FontNames` | Sources/FontKit/CustomFont.swift:90 | the family's font names are exactly the names the catalog lists under that family |
| `CustomFonts.IsRegistered` | Sources/FontKit/CustomFont.swift:85-93 | models the non-macOS `isRegistered`; its contract is stated by `CustomFonts.IsRegisteredMeaning` |
| `CustomFonts.IsRegisteredMeaning` | Sources/FontKit/CustomFont.swift:85-93 | registered iff the file exists and the catalog lists the name under the font's family; false whenever the file is missing |
| `CustomFonts.Registered` | Sources/FontKit/CustomFont.swift:102-105 | the catalog is unchanged without a file or when already registered; with a file, it is the old catalog plus the font's entry |
| `CustomFonts.RegisteredIdempotent` | Sources/FontKit/CustomFont.swift:102-105 | registering twice yields the same catalog as registering once |
| `CustomFonts.RegisteredEffect` | Sources/FontKit/CustomFont.swift:102-105 | the font is registered afterwards iff its file exists; nothing is removed; only its own entry can be added |
| `CustomFonts.RegisteredCommutes` | Sources/FontKit/CustomFont.swift:102-105 | registering two fonts in either order gives the same catalog |
| `CustomFonts.RegisteredAllGrows` | Sources/FontKit/CustomFont.swift:102-105 | registering a list of fonts never removes a catalog entry |
| `CustomFonts.RegisteredAllRegistersEach` | Sources/FontKit/CustomFont.swift:102-105 | after registering a list, each font in it is registered iff its file exists, wherever it stands in the list |
| `Registration.FontEnvironment.RegisterIfNeeded` | Sources/FontKit/CustomFont.swift:102-105 | the catalog becomes `Registered` of the old catalog; a font with a file is registered afterwards |
| `Registration.FontEnvironment.IsRegistered` | Sources/FontKit/CustomFont.swift:85-93 | `isRegistered` against the environment's current files and catalog; it is `CustomFonts.IsRegistered` there, whose meaning `CustomFonts.IsRegisteredMeaning` states |
| `Registration.CreateCustomFont` | Sources/FontKit/CustomFont.swift:32-49 | construction always returns the resolved descriptor, with no precondition; it then attempts registration exactly once |
| `Registration.CreateTwiceRegistersOnce` | Sources/FontKit/CustomFont.swift:48 | constructing a font twice with the same arguments, overrides included, leaves the catalog as one construction does |
| `Representable.SystemFontSize` | Sources/FontKit/CustomFontRepresentable.swift:48-50 | the adjusted size times the scale factor is the requested size |
| `Representable.SystemFontSizeShrinks` | Sources/FontKit/CustomFontRepresentable.swift:16-19 | for a factor above 1 and a positive size, the adjusted size is positive and strictly smaller |
| `Representable.SystemFontSizeMonotonic` | Sources/FontKit/CustomFontRepresentable.swift:48-50 | for a positive factor, a larger requested size gives a larger adjusted size |
| `Representable.SystemFontSizeExamples` | Sources/FontKit/CustomFontRepresentable.swift:48-50 | asking for the factor gives 1; 15 with factor 1.1 gives 150/11 |
| `Representable.PlatformFont` | Sources/FontKit/CustomFontRepresentable.swift:40-45 | the result is the platform's font for the name at the adjusted size when the platform has one, and otherwise the fatal error naming the font; there is never a substitute |
| `Representable.MissingFontIsFatalAtResolution` | Sources/FontKit/CustomFontRepresentable.swift:40-45 | a name the platform cannot build at any size always ends in the fatal error |
| `Representable.Dynamic` | Sources/FontKit/CustomFontRepresentable.swift:79-84 | requests the font's name at the adjusted size, scaled with dynamic type |
| `Representable.FixedFont` | Sources/FontKit/CustomFontRepresentable.swift:89-94 | requests the font's name at the adjusted size, fixed |
| `Representable.Relative` | Sources/FontKit/CustomFontRepresentable.swift:99-105 | requests the font's name at the adjusted size, relative to the given text style |
| `Representable.BuildersDifferOnlyInSizing` | Sources/FontKit/CustomFontRepresentable.swift:79-105 | the three builders send the same name and the same adjusted size, and their sizing modes are pairwise different |
| `Representable.WrappersAreBuilders` | Sources/FontKit/CustomFontRepresentable.swift:55-71 | each `swiftUIFont` wrapper equals the matching `Font` builder on the same arguments |
| `Representable.SwiftUIFontDynamicSize` | Sources/FontKit/CustomFontRepresentable.swift:55-57 | models `swiftUIFont(dynamicSize:)`; its contract is stated by `Representable.WrappersAreBuilders` |
| `Representable.SwiftUIFontFixedSize` | Sources/FontKit/CustomFontRepresentable.swift:62-64 | models `swiftUIFont(fixedSize:)`; its contract is stated by `Representable.WrappersAreBuilders` |
| `Representable.SwiftUIFontRelative` | Sources/FontKit/CustomFontRepresentable.swift:69-71 | models `swiftUIFont(size:relativeTo:)`; its contract is stated by `Representable.WrappersAreBuilders` |
| `OpenDyslexic.Make` | Sources/FontKit/CustomFont+OpenDyslexic.swift:43-54 | a variant keeps its name and display name, takes the default family and file name, and is an `.otf` in the package bundle with factor 1.1 |
| `OpenDyslexic.VariantNames` | Sources/FontKit/CustomFont+OpenDyslexic.swift:17-38 | the four variant names are the literals Regular, Bold, Italic and Bold-Italic, each prefixed `OpenDyslexic-` |
| `OpenDyslexic.FontsInOrder` | Sources/FontKit/CustomFont+OpenDyslexic.swift:66-73 | the list has four elements, in the order Regular, Bold, Italic, Bold-Italic |
| `OpenDyslexic.FontIdsDistinct` | Sources/FontKit/CustomFont+OpenDyslexic.swift:17-38 | the ids in the list are pairwise distinct |
| `OpenDyslexic.DisplayNames` | Sources/FontKit/CustomFont+OpenDyslexic.swift:19-37 | the display names are "OpenDyslexic", "OpenDyslexic Bold", "OpenDyslexic Italic" and "OpenDyslexic Bold Italic" |
| `OpenDyslexic.VariantFiles` | Sources/FontKit/CustomFont+OpenDyslexic.swift:47-53 | every variant is `.otf`, in the package bundle, with file name equal to its name and factor 1.1 |
| `OpenDyslexic.VariantFamilies` | Sources/FontKit/CustomFont+OpenDyslexic.swift:17-38 | every variant's derived family is `Typeface` ("OpenDyslexic", by `VariantNames`), including the two-hyphen Bold-Italic |
| `OpenDyslexic.LoadFonts` | Sources/FontKit/CustomFont+OpenDyslexic.swift:60-73 | first use yields exactly the list, and the catalog is the old one with the four registrations applied in list order |
| `OpenDyslexic.AllVariantsRegistered` | Sources/FontKit/CustomFont+OpenDyslexic.swift:66-73 | with all four files bundled, every variant is registered under its own name afterwards, whatever the catalog held before |
| `MacRegistration.RegisterForUrl` | Sources/FontKit/CustomFont.swift:104 | process registration puts an unregistered file in the process scope; an already registered file is left as it was; every other file keeps its scope, neither gained nor lost |
| `MacRegistration.IsRegisteredAsWritten` | Sources/FontKit/CustomFont.swift:85-88 | models the macOS check as written; its contract is stated by `MacRegistration.IsRegisteredAsWrittenMeaning` |
| `MacRegistration.IsRegisteredAsWrittenMeaning` | Sources/FontKit/CustomFont.swift:85-88 | as written, the check holds iff the file is bundled and CoreText has it in no scope |
| `MacRegistration.RegisterIfNeededAsWritten` | Sources/FontKit/CustomFont.swift:102-105 | models `registerIfNeeded` over the check as written; its contract is stated by `MacRegistration.AsWrittenNeverRegisters` and `MacRegistration.AsWrittenCounterexample` |
| `MacRegistration.AsWrittenNeverRegisters` | Sources/FontKit/CustomFont.swift:85-105 | with the macOS check as written, `registerIfNeeded` never changes CoreText's scopes |
| `MacRegistration.AsWrittenCounterexample` | Sources/FontKit/CustomFont.swift:88 | a bundled, never registered file is reported registered by the macOS check and stays unregistered |
| `MacRegistration.IsRegisteredMac` | Sources/FontKit/CustomFont.swift:85-88 | models the macOS check corrected to `!= .none`; its contract is stated by `MacRegistration.IsRegisteredMacMeaning` |
| `MacRegistration.IsRegisteredMacMeaning` | Sources/FontKit/CustomFont.swift:85-88 | corrected, the check holds iff the file is bundled and CoreText has it in some scope |
| `MacRegistration.RegisterIfNeededMac` | Sources/FontKit/CustomFont.swift:85-105 | with the corrected check, the font is registered afterwards iff its file exists; nothing changes when it already was; every other file keeps its scope, neither gained nor lost |
| `MacRegistration.RegisterIfNeededMacIdempotent` | Sources/FontKit/CustomFont.swift:102-105 | with the corrected check, registering twice equals registering once |
| `MacRegistration.CorrectedRegistersCounterexample` | Sources/FontKit/CustomFont.swift:88 | the corrected check calls the counterexample's file unregistered and registers it at process scope |

## Left out

- SwiftUI `Font.custom` and the UIKit/AppKit font constructors are not modelled. A SwiftUI font is the request record `(name, size, sizing)`, and the platform constructor is a function parameter of `PlatformFont`.
- Dynamic-type and text-style metrics are the host's work. The model does not capture how a relative font's effective size follows a style's current metric.
- CoreText registration and `UIFont.fontNames(forFamilyName:)` are a set of `(family, name)` entries. Registering a file is assumed to add the descriptor's own `(family, name)`. A real file registers under the names stored inside its font tables. Two files that claim the same name are not distinguished.
- `Bundle.url(forResource:withExtension:)` is membership in a set of `(bundle, fileName, fileExtension)` files, with no file I/O. Bundles are identified only as main, the package's module bundle, or by an identifier.
- The main model follows the non-macOS branch of `isRegistered`. The macOS branch is modelled apart in `MacRegistration`, as written and corrected.
- Representable.SystemFontSize: requires a non-zero factor. Swift's `Double` division by zero gives infinity or NaN, and the model works over `real`, so neither exists there. Rounding of `Double` and `CGFloat` is not modelled either.
- `CustomFontRepresentable` is a protocol. The builders are modelled on its one conformer in the library, `CustomFont`.
- `fatalError` in `font(size:)` is the value `FatalError(message)`; process termination itself is not modelled.
- A Swift `String` is a sequence of grapheme clusters, and the model uses `seq<char>`. A `-` followed by a combining mark would not split in Swift. Such names are not distinguished.
- The `Sendable` conformance, thread safety, and the lazy, once-only initialisation of the `static let` variants are not modelled. `OpenDyslexic.LoadFonts` models only the first use of the list. By `RegisteredIdempotent`, repeating the registrations would change nothing.
- The `swiftUIFont` wrappers carry no contract of their own. `WrappersAreBuilders` states what they do.
- The `#Preview` blocks, `Demo/Demo/ContentView.swift` and `Package.swift` are not modelled. They hold UI and packaging, with no logic.

## Findings

| source | as written | input that shows it | evidently intended | confidence | as-written member | corrected member |
|---|---|---|---|---|---|---|
| Sources/FontKit/CustomFont.swift:88 | on macOS `isRegistered` returns `CTFontManagerGetScopeForURL(url) == .none`, which is true for a file that is NOT registered | a bundled font file never registered before (scope `.none`): it is reported registered, so `registerIfNeeded` skips it and the font stays unavailable | `CTFontManagerGetScopeForURL(url) != .none` | medium, not executed | `MacRegistration.AsWrittenCounterexample` | `MacRegistration.RegisterIfNeededMac` |
