/**
 * The macOS branch of `isRegistered`, which asks CoreText for the scope a
 * font file is registered in instead of listing the family's font names.
 * CoreText answers `.none` for a file that is not registered at all.
 *
 * The branch as written treats `.none` as "registered"; the corrected
 * branch treats any other scope as "registered". Both are given here, each
 * with `registerIfNeeded` on top of it.
 */
module MacRegistration {
  import opened Wrappers
  import opened CustomFonts

  /** CoreText's registration scopes (`CTFontManagerScope`). */
  datatype Scope = NoScope | Process | Persistent | Session

  /** The scope each font file is registered in; files not listed are in no scope. */
  type Scopes = map<ResourceFile, Scope>

  /** `CTFontManagerGetScopeForURL`. */
  function ScopeForUrl(scopes: Scopes, url: ResourceFile): Scope
  {
    if url in scopes then scopes[url] else NoScope
  }

  /** `CTFontManagerRegisterFontsForURL(url, .process, nil)`: a file not yet registered joins the process scope; a registered one is refused. */
  function RegisterForUrl(scopes: Scopes, url: ResourceFile): (after: Scopes)
    ensures ScopeForUrl(after, url) != NoScope
    ensures ScopeForUrl(scopes, url) == NoScope ==> ScopeForUrl(after, url) == Process
    ensures ScopeForUrl(scopes, url) != NoScope ==> after == scopes
    ensures forall u :: u != url ==> ScopeForUrl(after, u) == ScopeForUrl(scopes, u)
  {
    if ScopeForUrl(scopes, url) == NoScope then scopes[url := Process] else scopes
  }

  /** `isRegistered` on macOS as written: "registered" when the file is in no scope. */
  predicate IsRegisteredAsWritten(font: CustomFont, files: set<ResourceFile>, scopes: Scopes)
  {
    match Url(font, files)
    case None => false
    case Some(url) => ScopeForUrl(scopes, url) == NoScope
  }

  /** As written, the check holds exactly for a bundled file that CoreText has in no scope. */
  lemma IsRegisteredAsWrittenMeaning(font: CustomFont, files: set<ResourceFile>, scopes: Scopes)
    ensures IsRegisteredAsWritten(font, files, scopes) <==>
      var file := ResourceFile(font.bundle, font.fileName, font.fileExtension);
      file in files && ScopeForUrl(scopes, file) == NoScope
  {
  }

  /** `registerIfNeeded` on macOS as written. */
  function RegisterIfNeededAsWritten(font: CustomFont, files: set<ResourceFile>, scopes: Scopes): Scopes
  {
    match Url(font, files)
    case None => scopes
    case Some(url) => if IsRegisteredAsWritten(font, files, scopes) then scopes else RegisterForUrl(scopes, url)
  }

  /** As written, `registerIfNeeded` never changes CoreText's state: it skips unregistered files and retries registered ones. */
  lemma AsWrittenNeverRegisters(font: CustomFont, files: set<ResourceFile>, scopes: Scopes)
    ensures RegisterIfNeededAsWritten(font, files, scopes) == scopes
  {
  }

  /** A bundled, never registered file: the check calls it registered, and it stays unregistered. */
  lemma AsWrittenCounterexample()
    ensures var font := CustomFont("A", "A", "A", "A", "ttf", Main, 1.2);
      var files := {ResourceFile(Main, "A", "ttf")};
      IsRegisteredAsWritten(font, files, map[]) &&
      ScopeForUrl(RegisterIfNeededAsWritten(font, files, map[]), ResourceFile(Main, "A", "ttf")) == NoScope
  {
  }

  /** `isRegistered` on macOS as intended: the file exists and is in some scope. */
  predicate IsRegisteredMac(font: CustomFont, files: set<ResourceFile>, scopes: Scopes)
  {
    match Url(font, files)
    case None => false
    case Some(url) => ScopeForUrl(scopes, url) != NoScope
  }

  /** The intended check holds exactly for a bundled file that CoreText has in some scope. */
  lemma IsRegisteredMacMeaning(font: CustomFont, files: set<ResourceFile>, scopes: Scopes)
    ensures IsRegisteredMac(font, files, scopes) <==>
      var file := ResourceFile(font.bundle, font.fileName, font.fileExtension);
      file in files && ScopeForUrl(scopes, file) != NoScope
  {
  }

  /** `registerIfNeeded` on macOS over the intended check. */
  function RegisterIfNeededMac(font: CustomFont, files: set<ResourceFile>, scopes: Scopes): (after: Scopes)
    ensures Url(font, files).Some? <==> IsRegisteredMac(font, files, after)
    ensures Url(font, files).None? || IsRegisteredMac(font, files, scopes) ==> after == scopes
    ensures forall u :: u != ResourceFile(font.bundle, font.fileName, font.fileExtension) ==> ScopeForUrl(after, u) == ScopeForUrl(scopes, u)
  {
    match Url(font, files)
    case None => scopes
    case Some(url) => if IsRegisteredMac(font, files, scopes) then scopes else RegisterForUrl(scopes, url)
  }

  /** Over the intended check, registering twice is registering once. */
  lemma RegisterIfNeededMacIdempotent(font: CustomFont, files: set<ResourceFile>, scopes: Scopes)
    ensures RegisterIfNeededMac(font, files, RegisterIfNeededMac(font, files, scopes)) == RegisterIfNeededMac(font, files, scopes)
  {
  }

  /** The intended check registers the counterexample's file. */
  lemma CorrectedRegistersCounterexample()
    ensures var font := CustomFont("A", "A", "A", "A", "ttf", Main, 1.2);
      var files := {ResourceFile(Main, "A", "ttf")};
      !IsRegisteredMac(font, files, map[]) &&
      ScopeForUrl(RegisterIfNeededMac(font, files, map[]), ResourceFile(Main, "A", "ttf")) == Process
  {
  }
}
