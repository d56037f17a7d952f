/**
 * The resource preview dialog: the absolute URL of the resource, its
 * extension, and the kind of preview shown for it.
 */
module ResourcePreview {
  import opened Wrappers
  import opened Text
  import OverviewTab

  const HTTP := "http"
  const HTTPS := "https://"

  /** A JavaScript string that is truthy: present and not empty. */
  predicate Truthy(s: Option<string>)
  {
    s.Some? && s.value != ""
  }

  /**
   * `toAbsolute(url)`: a falsy URL, or one starting with `http`, is returned
   * as it is (so a missing URL stays missing); otherwise the origin is put in front.
   */
  function ToAbsolute(url: Option<string>, origin: string): (r: Option<string>)
    ensures !Truthy(url) ==> r == url
    ensures url.Some? && StartsWith(url.value, HTTP) ==> r == url
    ensures Truthy(url) && !StartsWith(url.value, HTTP) ==> r == Some(origin + url.value)
  {
    if Truthy(url) && !StartsWith(url.value, HTTP) then Some(origin + url.value) else url
  }

  /**
   * `getExtensionFromUrl(url)`, given the result of `decodeURIComponent(url)`
   * (`None` when decoding throws): the lower-cased text after the last `.` of
   * the last `/` segment, `""` when that segment holds no dot or decoding failed.
   */
  function GetExtensionFromUrl(decoded: Option<string>): (r: string)
    ensures decoded.None? ==> r == ""
  {
    if decoded.None? then ""
    else
      var segments := Split(decoded.value, '/');
      var filename := segments[|segments| - 1];
      if '.' in filename then
        var pieces := Split(filename, '.');
        Lower(pieces[|pieces| - 1])
      else ""
  }

  /** A path ending in `stem.ext` has the extension `ext`, lower-cased. */
  lemma ExtensionOfPath(dir: string, stem: string, ext: string)
    requires '/' !in stem && '/' !in ext && '.' !in ext
    ensures GetExtensionFromUrl(Some(dir + "/" + stem + "." + ext)) == Lower(ext)
  {
    var filename := stem + "." + ext;
    assert '/' !in filename;
    assert dir + "/" + stem + "." + ext == dir + ['/'] + filename;
    SplitLast(dir, filename, '/');
    assert filename[|stem|] == '.';
    SplitLast(stem, ext, '.');
  }

  /** A last segment without a dot has no extension. */
  lemma NoDotNoExtension(dir: string, name: string)
    requires '/' !in name && '.' !in name
    ensures GetExtensionFromUrl(Some(dir + "/" + name)) == ""
  {
    assert dir + "/" + name == dir + ['/'] + name;
    SplitLast(dir, name, '/');
  }

  /**
   * The two copies of the helpers disagree: a name without a dot is its own
   * extension in the overview tab and has none here, and a missing URL
   * becomes `""` there and stays missing here.
   */
  lemma HelpersDisagree(origin: string)
    ensures OverviewTab.GetExt(Some("README")) == "readme"
    ensures GetExtensionFromUrl(Some("README")) == ""
    ensures OverviewTab.ToAbsolute(None, origin) == "" && ToAbsolute(None, origin) == None
  {
    var name := "README";
    assert '.' !in name && '/' !in name;
    DotlessName(name);
    var low := Lower(name);
    assert low[0] == 'r' && low[1] == 'e' && low[2] == 'a' && low[3] == 'd' && low[4] == 'm' && low[5] == 'e';
    assert low == "readme";
  }

  /** A dotless name: the overview tab's helper yields the whole name, lower-cased; this one yields nothing. */
  lemma DotlessName(name: string)
    requires '.' !in name && '/' !in name
    ensures OverviewTab.GetExt(Some(name)) == Lower(name)
    ensures GetExtensionFromUrl(Some(name)) == ""
  {
    OverviewTab.GetExtWithoutDot(name);
    SplitNoSep(name, '/');
  }

  // ---------------------------------------------------------------- preview

  const PDF := "pdf"
  const OFFICE := ["ppt", "pptx", "xls", "xlsx", "doc", "docx"]
  const IMAGES := ["jpg", "jpeg", "png", "gif", "webp", "svg"]
  const VIDEOS := ["mp4", "webm", "ogg"]

  /** What the dialog body shows; the office viewer embeds the URL in the viewer's address. */
  datatype Preview = NoPreview | PdfFrame(src: string) | OfficeViewer(src: string) | Image(src: string)
    | Video(src: string, ext: string) | Unavailable

  /**
   * `renderPreview(url, ext)`, checked in order: no URL, pdf, office documents
   * (only over `https://`), images, videos, and otherwise "preview unavailable".
   */
  function RenderPreview(url: Option<string>, ext: string): (p: Preview)
    ensures p.NoPreview? <==> !Truthy(url)
    ensures p.PdfFrame? <==> Truthy(url) && ext == PDF
    ensures p.OfficeViewer? <==> Truthy(url) && ext in OFFICE && StartsWith(url.value, HTTPS)
    ensures p.Image? <==> Truthy(url) && ext in IMAGES
    ensures p.Video? <==> Truthy(url) && ext in VIDEOS
    ensures !p.NoPreview? && !p.Unavailable? ==> p.src == url.value
  {
    if !Truthy(url) then NoPreview
    else if ext == PDF then PdfFrame(url.value)
    else if ext in OFFICE && StartsWith(url.value, HTTPS) then OfficeViewer(url.value)
    else if ext in IMAGES then Image(url.value)
    else if ext in VIDEOS then Video(url.value, ext)
    else Unavailable
  }

  /** An office document served over plain `http` (or a relative path) cannot be previewed. */
  lemma OfficeNeedsHttps(url: string, ext: string)
    requires url != "" && ext in OFFICE && !StartsWith(url, HTTPS)
    ensures RenderPreview(Some(url), ext) == Unavailable
  {
    assert ext !in IMAGES && ext !in VIDEOS;
  }

  /** The fields of a resource the dialog reads. */
  datatype PreviewResource = PreviewResource(file: Option<string>, url: Option<string>, ext: Option<string>)

  /** `decodeURIComponent(undefined)` decodes the text "undefined". */
  const UNDEFINED := "undefined"

  /**
   * The dialog body for a resource: the URL is `res.file || res.url` made
   * absolute, and an explicit `res.ext` wins over the extension of that URL.
   * `decode` is `decodeURIComponent`, `None` where it throws.
   */
  function ModalPreview(res: PreviewResource, origin: string, decode: string -> Option<string>): (p: Preview)
    ensures Truthy(res.ext) ==>
      p == RenderPreview(ToAbsolute(if Truthy(res.file) then res.file else res.url, origin), res.ext.value)
  {
    var absUrl := ToAbsolute(if Truthy(res.file) then res.file else res.url, origin);
    var ext := if Truthy(res.ext) then res.ext.value
      else GetExtensionFromUrl(if absUrl.Some? then decode(absUrl.value) else Some(UNDEFINED));
    RenderPreview(absUrl, ext)
  }

  /** With an explicit extension the preview does not depend on decoding or on the file name. */
  lemma ExplicitExtensionWins(res: PreviewResource, origin: string, d1: string -> Option<string>, d2: string -> Option<string>)
    requires res.ext == Some(PDF) && Truthy(res.file)
    ensures ModalPreview(res, origin, d1) == ModalPreview(res, origin, d2)
    ensures ModalPreview(res, origin, d1).PdfFrame?
  {
  }

  /**
   * Without an explicit extension the URL's own extension decides: a URL
   * that decodes to a path ending in `.ext` is previewed as an `ext` file,
   * so a `.pdf` path gets the PDF frame.
   */
  lemma DerivedExtensionDecides(res: PreviewResource, origin: string, decode: string -> Option<string>,
                                dir: string, stem: string, ext: string)
    requires !Truthy(res.ext) && Truthy(res.file)
    requires '/' !in stem && '/' !in ext && '.' !in ext
    requires ToAbsolute(res.file, origin).Some?
    requires decode(ToAbsolute(res.file, origin).value) == Some(dir + "/" + stem + "." + ext)
    ensures ModalPreview(res, origin, decode) == RenderPreview(ToAbsolute(res.file, origin), Lower(ext))
    ensures Lower(ext) == PDF ==> ModalPreview(res, origin, decode).PdfFrame?
  {
    ExtensionOfPath(dir, stem, ext);
  }
}
