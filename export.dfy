/**
 * `export_page` and the page loop of `main`: what one page export decides
 * (title, body, directory, attachment map, image map, Markdown) and how many
 * exports succeed. The HTTP replies are oracles and listings, the Markdown
 * converter is a parameter, and the file system appears only as the sets of
 * directories created and files written.
 */
module Export {
  import opened Wrappers
  import opened Strings
  import opened Urls
  import opened Filenames
  import opened Converter
  import opened ApiClient

  // ---------------------------------------------------------------------------
  // Pages and attachments
  // ---------------------------------------------------------------------------

  /**
   * A page as the API returns it: its id, its title (`None` when the key is
   * missing) and its storage-format body (`None` when `body.storage.value`
   * is missing, as in a descendants listing).
   */
  datatype PageData = PageData(id: string, title: Option<string>, body: Option<string>)

  /** An attachment; a missing `title` or `downloadLink` is the empty string. */
  datatype Attachment = Attachment(title: string, downloadLink: string)

  const UntitledPage: string := "Untitled"
  const NoContent: string := "\n\n*(This page has no content)*\n"
  const ReadmeName: string := "README.md"
  const ImagesDirName: string := "images"
  const ImageExtensions: seq<string> := [".png", ".jpg", ".jpeg", ".gif", ".svg", ".webp"]

  /** `page_data.get("title", "Untitled")`. */
  function TitleOf(page: PageData): (t: string)
    ensures page.title.None? ==> t == UntitledPage
    ensures page.title.Some? ==> t == page.title.value
  {
    page.title.GetOr(UntitledPage)
  }

  /** Both fields are non-empty, so the attachment enters the attachment map. */
  predicate Listed(a: Attachment) {
    a.title != [] && a.downloadLink != []
  }

  // ---------------------------------------------------------------------------
  // The attachment map: title to download link, the last listed one wins
  // ---------------------------------------------------------------------------

  function AttachmentMapOf(atts: seq<Attachment>): map<string, string> {
    if atts == [] then map[]
    else
      var m := AttachmentMapOf(atts[..|atts| - 1]);
      var a := atts[|atts| - 1];
      if Listed(a) then m[a.title := a.downloadLink] else m
  }

  /** A title is a key exactly when some listed attachment carries it. */
  lemma {:induction false} AttachmentMapKeys(atts: seq<Attachment>, k: string)
    ensures k in AttachmentMapOf(atts) <==>
      exists i :: 0 <= i < |atts| && Listed(atts[i]) && atts[i].title == k
    decreases |atts|
  {
    if atts != [] {
      var init := atts[..|atts| - 1];
      AttachmentMapKeys(init, k);
      if exists i :: 0 <= i < |init| && Listed(init[i]) && init[i].title == k {
        var i :| 0 <= i < |init| && Listed(init[i]) && init[i].title == k;
        assert atts[i] == init[i];
      }
      if exists i :: 0 <= i < |atts| && Listed(atts[i]) && atts[i].title == k {
        var i :| 0 <= i < |atts| && Listed(atts[i]) && atts[i].title == k;
        if i < |init| {
          assert init[i] == atts[i];
        }
      }
    }
  }

  /**
   * The link stored for a title is that of the last listed attachment with
   * that title: a later attachment overwrites an earlier one.
   */
  lemma {:induction false} AttachmentMapLastWins(atts: seq<Attachment>, i: nat)
    requires i < |atts| && Listed(atts[i])
    requires forall j :: i < j < |atts| && Listed(atts[j]) ==> atts[j].title != atts[i].title
    ensures atts[i].title in AttachmentMapOf(atts)
    ensures AttachmentMapOf(atts)[atts[i].title] == atts[i].downloadLink
    decreases |atts|
  {
    var init := atts[..|atts| - 1];
    if i < |atts| - 1 {
      forall j | i < j < |init| && Listed(init[j]) ensures init[j].title != init[i].title {
        assert init[j] == atts[j];
      }
      AttachmentMapLastWins(init, i);
    }
  }

  /** The loop at the start of the non-empty branch, filling the dictionary attachment by attachment. */
  method BuildAttachmentMap(atts: seq<Attachment>) returns (m: map<string, string>)
    ensures m == AttachmentMapOf(atts)
  {
    m := map[];
    var i := 0;
    while i < |atts|
      invariant 0 <= i <= |atts|
      invariant m == AttachmentMapOf(atts[..i])
    {
      var a := atts[i];
      if a.title != [] && a.downloadLink != [] {
        m := m[a.title := a.downloadLink];
      }
      assert atts[..i + 1][..i] == atts[..i];
      i := i + 1;
    }
    assert atts[..i] == atts;
  }

  // ---------------------------------------------------------------------------
  // The image map
  // ---------------------------------------------------------------------------

  /** The file name ends, ignoring ASCII case, in one of the image extensions. */
  predicate IsImageName(f: string) {
    exists i :: 0 <= i < |ImageExtensions| && EndsWith(Lower(f), ImageExtensions[i])
  }

  /** Lower-casing twice is lower-casing once. */
  lemma {:induction false} LowerIdempotent(s: string)
    ensures Lower(Lower(s)) == Lower(s)
  {
    assert forall i :: 0 <= i < |s| ==> LowerChar(LowerChar(s[i])) == LowerChar(s[i]);
  }

  /** Whether a name is an image name does not depend on its case. */
  lemma {:induction false} ImageNameIgnoresCase(f: string)
    ensures IsImageName(Lower(f)) <==> IsImageName(f)
  {
    LowerIdempotent(f);
  }

  /** The image entries among `keys`: those image names whose download succeeds. */
  function ImagesAmong<B>(client: ConfluenceClient, attMap: map<string, string>, keys: set<string>,
                          download: string -> Reply<B>): map<string, string>
  {
    map k | k in keys && k in attMap && IsImageName(k) && client.DownloadAttachment(attMap[k], download).Ok?
      :: "images/" + k
  }

  /** The image map `export_page` passes to the converter. */
  function ImageMapOf<B>(client: ConfluenceClient, attMap: map<string, string>, download: string -> Reply<B>)
    : map<string, string>
  {
    ImagesAmong(client, attMap, attMap.Keys, download)
  }

  /**
   * The keys are exactly the image names of the attachment map whose
   * download succeeds, each mapped to `images/<name>`.
   */
  lemma {:induction false} ImageMapEntries<B>(client: ConfluenceClient, attMap: map<string, string>, download: string -> Reply<B>,
                           k: string)
    ensures k in ImageMapOf(client, attMap, download) <==>
      k in attMap && IsImageName(k) && !IsHttpError(download(client.DownloadUrl(attMap[k])).status)
    ensures k in ImageMapOf(client, attMap, download) ==>
      ImageMapOf(client, attMap, download)[k] == ImagesDirName + "/" + k
  {
  }

  /** One failed download removes its own entry and leaves every other entry as it was. */
  lemma {:induction false} FailedDownloadOnlyDropsItsEntry<B>(client: ConfluenceClient, attMap: map<string, string>,
                                           download: string -> Reply<B>, download': string -> Reply<B>,
                                           name: string)
    requires name in attMap && client.DownloadAttachment(attMap[name], download').Err?
    requires forall k :: k in attMap && k != name ==>
      client.DownloadAttachment(attMap[k], download').Ok? == client.DownloadAttachment(attMap[k], download).Ok?
    ensures ImageMapOf(client, attMap, download') == ImageMapOf(client, attMap, download) - {name}
  {
  }

  /**
   * Whether an image downloads or not, the converter is given the same
   * `src` for it: a downloaded image is mapped to `images/<name>`, and a
   * failed one falls back to `images/<name>`.
   */
  lemma {:induction false} ImageSrcIgnoresDownloads<B>(client: ConfluenceClient, attMap: map<string, string>,
                                    download: string -> Reply<B>, name: string)
    ensures ImageSrc(ImageMapOf(client, attMap, download), name) == "images/" + name
  {
  }

  /** The image files written: `<image dir>/<name>` for each entry of the image map. */
  function ImageFiles(imageDir: string, images: map<string, string>): set<string> {
    set k | k in images :: JoinPath(imageDir, k)
  }

  /** Considering one more attachment adds its entry when it is an image that downloads. */
  lemma {:induction false} ImagesAmongStep<B>(client: ConfluenceClient, attMap: map<string, string>, done: set<string>, name: string,
                           download: string -> Reply<B>)
    requires name in attMap
    ensures ImagesAmong(client, attMap, done + {name}, download) ==
      if IsImageName(name) && client.DownloadAttachment(attMap[name], download).Ok?
      then ImagesAmong(client, attMap, done, download)[name := "images/" + name]
      else ImagesAmong(client, attMap, done, download)
  {
  }

  lemma {:induction false} ImageFilesStep(imageDir: string, images: map<string, string>, name: string, v: string)
    ensures ImageFiles(imageDir, images[name := v]) == ImageFiles(imageDir, images) + {JoinPath(imageDir, name)}
  {
  }

  /**
   * The download loop: every attachment of the map, in the dictionary's
   * order, is downloaded when its name is an image name; a failed download
   * is skipped.
   */
  method BuildImageMap<B>(client: ConfluenceClient, attMap: map<string, string>, imageDir: string,
                          download: string -> Reply<B>)
    returns (images: map<string, string>, files: set<string>)
    ensures images == ImageMapOf(client, attMap, download)
    ensures files == ImageFiles(imageDir, images)
  {
    images := map[];
    files := {};
    var todo := attMap.Keys;
    assert attMap.Keys - todo == {};
    while todo != {}
      invariant todo <= attMap.Keys
      invariant images == ImagesAmong(client, attMap, attMap.Keys - todo, download)
      invariant files == ImageFiles(imageDir, images)
      decreases |todo|
    {
      var name :| name in todo;
      ghost var done := attMap.Keys - todo;
      ImagesAmongStep(client, attMap, done, name, download);
      if IsImageName(name) {
        var content := client.DownloadAttachment(attMap[name], download);
        if content.Ok? {
          ImageFilesStep(imageDir, images, name, "images/" + name);
          images := images[name := "images/" + name];
          files := files + {JoinPath(imageDir, name)};
        }
      }
      todo := todo - {name};
      assert attMap.Keys - todo == done + {name};
    }
  }

  // ---------------------------------------------------------------------------
  // export_page
  // ---------------------------------------------------------------------------

  /** What one export did: its verdict, the directories created, the files written and the Markdown. */
  datatype Outcome = Outcome(ok: bool, dirs: set<string>, files: set<string>, markdown: Option<string>)

  /** The heading-only Markdown of a page without content. */
  function EmptyPageMarkdown(title: string): (md: string)
    ensures StartsWith(md, "# " + title) && EndsWith(md, NoContent)
  {
    var md := "# " + title + NoContent;
    assert md[..|"# " + title|] == "# " + title;
    assert md[|md| - |NoContent|..] == NoContent;
    md
  }

  /** The page's directory: the sanitized title under the output directory. */
  function PageDir(outputDir: string, title: string): (d: string)
    ensures outputDir != [] && !EndsWith(outputDir, "/") ==> d == outputDir + "/" + SanitizeFilenameIntended(title)
    ensures EndsWith(d, SanitizeFilenameIntended(title))
  {
    IntendedHasNoSlash(title);
    JoinPath(outputDir, SanitizeFilenameIntended(title))
  }

  /**
   * The page's HTML: the body it came with, or else the body of the page
   * fetched by id, where a missing body is empty; an HTTP error while
   * fetching fails the export.
   */
  function HtmlOf(client: ConfluenceClient, page: PageData, pageFetch: string -> Reply<PageData>)
    : (r: Result<string, int>)
    ensures page.body.Some? ==> r == Ok(page.body.value)
    ensures page.body.None? ==> (r.Err? <==> IsHttpError(pageFetch(client.PageUrl(page.id)).status))
    ensures page.body.None? && r.Err? ==> r.error == pageFetch(client.PageUrl(page.id)).status
    ensures page.body.None? && r.Ok? ==> r.value == pageFetch(client.PageUrl(page.id)).body.body.GetOr("")
  {
    match page.body
    case Some(html) => Ok(html)
    case None =>
      match client.GetPage(page.id, pageFetch)
      case Err(status) => Err(status)
      case Ok(full) => Ok(full.body.GetOr(""))
  }

  /**
   * What `export_page` does, as a function of the page, the directory its
   * title gives and the replies it receives.
   */
  function ExportOutcome<B>(client: ConfluenceClient, dir: string, page: PageData,
                            pageFetch: string -> Reply<PageData>, attachments: seq<Response<Attachment>>,
                            download: string -> Reply<B>, markdownify: string -> string): Outcome
    requires HasStop(attachments)
  {
    match HtmlOf(client, page, pageFetch)
    case Err(_) => Outcome(false, {}, {}, None)
    case Ok(html) =>
      if html == [] then Outcome(true, {dir}, {JoinPath(dir, ReadmeName)}, Some(EmptyPageMarkdown(TitleOf(page))))
      else ContentOutcome(client, dir, html, attachments, download, markdownify)
  }

  /** The export of a page whose body is not empty. */
  function ContentOutcome<B>(client: ConfluenceClient, dir: string, html: string,
                             attachments: seq<Response<Attachment>>,
                             download: string -> Reply<B>, markdownify: string -> string): Outcome
    requires HasStop(attachments)
  {
    match Collect(attachments, {400, 404})
    case Err(_) => Outcome(false, {dir}, {}, None)
    case Ok(atts) =>
      var attMap := AttachmentMapOf(atts);
      var imageDir := JoinPath(dir, ImagesDirName);
      var images := ImageMapOf(client, attMap, download);
      var md := HtmlToMarkdown(html, Some(images), markdownify).0;
      Outcome(true, {dir} + (if attMap == map[] then {} else {imageDir}),
              ImageFiles(imageDir, images) + {JoinPath(dir, ReadmeName)}, Some(md))
  }

  /**
   * `export_page`. The attachment listing is paged like every listing and
   * must end; it is only requested when the body is not empty.
   */
  method ExportPage<B>(client: ConfluenceClient, outputDir: string, page: PageData,
                       pageFetch: string -> Reply<PageData>, attachments: seq<Response<Attachment>>,
                       download: string -> Reply<B>, markdownify: string -> string)
    returns (out: Outcome, listed: bool)
    requires HasStop(attachments)
    ensures out == ExportOutcome(client, PageDir(outputDir, TitleOf(page)), page, pageFetch, attachments, download,
                                 markdownify)
    ensures listed <==> HtmlOf(client, page, pageFetch).Ok? && HtmlOf(client, page, pageFetch).value != []
  {
    var dir := PageDir(outputDir, TitleOf(page));
    out, listed := ExportInto(client, dir, page, pageFetch, attachments, download, markdownify);
  }

  /** The body of `export_page` once the page's directory is known. */
  method ExportInto<B>(client: ConfluenceClient, dir: string, page: PageData,
                       pageFetch: string -> Reply<PageData>, attachments: seq<Response<Attachment>>,
                       download: string -> Reply<B>, markdownify: string -> string)
    returns (out: Outcome, listed: bool)
    requires HasStop(attachments)
    ensures out == ExportOutcome(client, dir, page, pageFetch, attachments, download, markdownify)
    ensures listed <==> HtmlOf(client, page, pageFetch).Ok? && HtmlOf(client, page, pageFetch).value != []
  {
    listed := false;
    var html := page.body;
    if html.None? {
      var full := client.GetPage(page.id, pageFetch);
      if full.Err? {
        return Outcome(false, {}, {}, None), listed;
      }
      html := Some(full.value.body.GetOr(""));
    }
    if html.value == [] {
      out := Outcome(true, {dir}, {JoinPath(dir, ReadmeName)}, Some(EmptyPageMarkdown(TitleOf(page))));
    } else {
      listed := true;
      out := ExportContent(client, dir, html.value, page.id, attachments, download, markdownify);
    }
  }

  /** The non-empty branch: list the attachments, download the images, convert and write. */
  method ExportContent<B>(client: ConfluenceClient, dir: string, html: string, pageId: string,
                          attachments: seq<Response<Attachment>>,
                          download: string -> Reply<B>, markdownify: string -> string)
    returns (out: Outcome)
    requires HasStop(attachments)
    ensures out == ContentOutcome(client, dir, html, attachments, download, markdownify)
  {
    var listing, _ := client.GetAttachments(pageId, attachments);
    if listing.Err? {
      return Outcome(false, {dir}, {}, None);
    }
    assert Collect(attachments, {400, 404}) == Ok(listing.value);
    var attMap := BuildAttachmentMap(listing.value);
    var imageDir := JoinPath(dir, ImagesDirName);
    var images: map<string, string> := map[];
    var files: set<string> := {};
    if attMap != map[] {
      images, files := BuildImageMap(client, attMap, imageDir, download);
    } else {
      assert ImageMapOf(client, attMap, download) == map[];
      assert ImageFiles(imageDir, images) == {};
    }
    var markdown := HtmlToMarkdown(html, Some(images), markdownify).0;
    out := Outcome(true, {dir} + (if attMap == map[] then {} else {imageDir}),
                   files + {JoinPath(dir, ReadmeName)}, Some(markdown));
  }

  /**
   * A page with an empty body gets the heading-only Markdown; what the
   * attachment listing, the downloads and the converter would answer does
   * not matter.
   */
  lemma {:induction false} EmptyBodyGetsHeading<B>(client: ConfluenceClient, dir: string, page: PageData,
                                pageFetch: string -> Reply<PageData>,
                                attachments: seq<Response<Attachment>>, attachments': seq<Response<Attachment>>,
                                download: string -> Reply<B>, download': string -> Reply<B>,
                                markdownify: string -> string, markdownify': string -> string)
    requires HasStop(attachments) && HasStop(attachments')
    requires HtmlOf(client, page, pageFetch) == Ok("")
    ensures var out := ExportOutcome(client, dir, page, pageFetch, attachments, download, markdownify);
      && out.ok
      && out.markdown == Some("# " + TitleOf(page) + "\n\n*(This page has no content)*\n")
      && out.dirs == {dir}
      && out == ExportOutcome(client, dir, page, pageFetch, attachments', download', markdownify')
  {
  }

  /** A page whose body has to be fetched and cannot be fails before anything is created. */
  lemma {:induction false} FetchFailureCreatesNothing<B>(client: ConfluenceClient, dir: string, page: PageData,
                                      pageFetch: string -> Reply<PageData>,
                                      attachments: seq<Response<Attachment>>,
                                      download: string -> Reply<B>, markdownify: string -> string)
    requires HasStop(attachments)
    requires page.body.None? && IsHttpError(pageFetch(client.PageUrl(page.id)).status)
    ensures ExportOutcome(client, dir, page, pageFetch, attachments, download, markdownify)
      == Outcome(false, {}, {}, None)
  {
  }

  /**
   * A page with content whose attachment listing fails with anything but
   * 400 or 404 fails after its directory was created, and nothing is written.
   */
  lemma {:induction false} ListingFailureLeavesDirectory<B>(client: ConfluenceClient, dir: string, page: PageData,
                                         pageFetch: string -> Reply<PageData>,
                                         attachments: seq<Response<Attachment>>,
                                         download: string -> Reply<B>, markdownify: string -> string)
    requires HasStop(attachments)
    requires HtmlOf(client, page, pageFetch).Ok? && HtmlOf(client, page, pageFetch).value != []
    requires IsHttpError(attachments[StopAt(attachments)].status)
    requires attachments[StopAt(attachments)].status !in {400, 404}
    ensures var out := ExportOutcome(client, dir, page, pageFetch, attachments, download, markdownify);
      !out.ok && out.dirs == {dir} && out.files == {}
  {
    assert Collect(attachments, {400, 404}).Err?;
  }

  /**
   * A page with content is converted with the image map built from its
   * attachments, and its Markdown goes to `README.md` in its directory.
   */
  lemma {:induction false} ContentIsConverted<B>(client: ConfluenceClient, dir: string, page: PageData,
                              pageFetch: string -> Reply<PageData>,
                              attachments: seq<Response<Attachment>>,
                              download: string -> Reply<B>, markdownify: string -> string)
    requires HasStop(attachments)
    requires HtmlOf(client, page, pageFetch).Ok? && HtmlOf(client, page, pageFetch).value != []
    requires Collect(attachments, {400, 404}).Ok?
    ensures var out := ExportOutcome(client, dir, page, pageFetch, attachments, download, markdownify);
      var html := HtmlOf(client, page, pageFetch).value;
      var images := ImageMapOf(client, AttachmentMapOf(Collect(attachments, {400, 404}).value), download);
      && out.ok
      && out.markdown == Some(markdownify(StandardHtml(html, images)))
      && JoinPath(dir, ReadmeName) in out.files
  {
  }

  // ---------------------------------------------------------------------------
  // main: the page list and the success count
  // ---------------------------------------------------------------------------

  /**
   * The pages to export: the parent alone, or (recursively) the parent
   * followed by its descendants. The descendants are listed first, and an
   * HTTP error in either request ends the run.
   */
  function PageList(client: ConfluenceClient, pageId: string, recursive: bool,
                    descendants: seq<Response<PageData>>, pageFetch: string -> Reply<PageData>)
    : (r: Result<seq<PageData>, int>)
    requires recursive ==> HasStop(descendants)
    ensures r.Ok? ==> |r.value| >= 1 && r.value[0] == pageFetch(client.PageUrl(pageId)).body
    ensures r.Ok? && recursive ==> Collect(descendants, {}).Ok? && r.value[1..] == Collect(descendants, {}).value
    ensures r.Ok? && !recursive ==> |r.value| == 1
    ensures r.Err? <==>
      IsHttpError(pageFetch(client.PageUrl(pageId)).status) || (recursive && Collect(descendants, {}).Err?)
  {
    if recursive then
      match Collect(descendants, {})
      case Err(status) => Err(status)
      case Ok(all) =>
        match client.GetPage(pageId, pageFetch)
        case Err(status) => Err(status)
        case Ok(parent) => Ok([parent] + all)
    else
      match client.GetPage(pageId, pageFetch)
      case Err(status) => Err(status)
      case Ok(parent) => Ok([parent])
  }

  /** The page-list part of `main`, with the descendants listing paged. */
  method FetchPages(client: ConfluenceClient, pageId: string, recursive: bool,
                    descendants: seq<Response<PageData>>, pageFetch: string -> Reply<PageData>)
    returns (r: Result<seq<PageData>, int>)
    requires recursive ==> HasStop(descendants)
    ensures r == PageList(client, pageId, recursive, descendants, pageFetch)
  {
    if recursive {
      var all, _ := client.GetDescendants(pageId, descendants);
      if all.Err? {
        return Err(all.error);
      }
      var parent := client.GetPage(pageId, pageFetch);
      if parent.Err? {
        return Err(parent.error);
      }
      r := Ok([parent.value] + all.value);
    } else {
      var parent := client.GetPage(pageId, pageFetch);
      if parent.Err? {
        return Err(parent.error);
      }
      r := Ok([parent.value]);
    }
  }

  /** The number of `true` verdicts. */
  function CountTrue(verdicts: seq<bool>): (n: nat)
    ensures n <= |verdicts|
  {
    if verdicts == [] then 0 else (if verdicts[0] then 1 else 0) + CountTrue(verdicts[1..])
  }

  /** Every export succeeds exactly when the count is the number of pages, and none when it is zero. */
  lemma {:induction false} CountTrueExtremes(verdicts: seq<bool>)
    ensures CountTrue(verdicts) == |verdicts| <==> forall i :: 0 <= i < |verdicts| ==> verdicts[i]
    ensures CountTrue(verdicts) == 0 <==> forall i :: 0 <= i < |verdicts| ==> !verdicts[i]
    decreases |verdicts|
  {
    if verdicts != [] {
      CountTrueExtremes(verdicts[1..]);
      assert forall i :: 1 <= i < |verdicts| ==> verdicts[i] == verdicts[1..][i - 1];
    }
  }

  lemma {:induction false} CountTrueAppend(verdicts: seq<bool>, b: bool)
    ensures CountTrue(verdicts + [b]) == CountTrue(verdicts) + (if b then 1 else 0)
    decreases |verdicts|
  {
    if verdicts != [] {
      assert (verdicts + [b])[1..] == verdicts[1..] + [b];
      CountTrueAppend(verdicts[1..], b);
    } else {
      assert ([] + [b])[1..] == [];
    }
  }

  /**
   * Whether exporting `page` succeeds: its body is at hand or can be
   * fetched, and, when it is not empty, its attachments can be listed.
   */
  predicate Succeeds(client: ConfluenceClient, page: PageData, pageFetch: string -> Reply<PageData>,
                     attachments: seq<Response<Attachment>>)
    requires HasStop(attachments)
  {
    && HtmlOf(client, page, pageFetch).Ok?
    && (HtmlOf(client, page, pageFetch).value == [] || Collect(attachments, {400, 404}).Ok?)
  }

  /** The verdict of an export is `Succeeds`, wherever the page is written and whatever is downloaded. */
  lemma {:induction false} ExportVerdict<B>(client: ConfluenceClient, dir: string, page: PageData,
                         pageFetch: string -> Reply<PageData>, attachments: seq<Response<Attachment>>,
                         download: string -> Reply<B>, markdownify: string -> string)
    requires HasStop(attachments)
    ensures ExportOutcome(client, dir, page, pageFetch, attachments, download, markdownify).ok
      == Succeeds(client, page, pageFetch, attachments)
  {
  }

  /** The verdicts of exporting each page in turn. */
  function Verdicts(client: ConfluenceClient, pages: seq<PageData>, pageFetch: string -> Reply<PageData>,
                    attachments: string -> seq<Response<Attachment>>)
    : (vs: seq<bool>)
    requires forall p :: p in pages ==> HasStop(attachments(p.id))
    ensures |vs| == |pages|
  {
    seq(|pages|, i requires 0 <= i < |pages| => Succeeds(client, pages[i], pageFetch, attachments(pages[i].id)))
  }

  /** One `export_page` call of the loop, seen through its verdict. */
  method ExportCounted<B>(client: ConfluenceClient, outputDir: string, page: PageData,
                          pageFetch: string -> Reply<PageData>, attachments: seq<Response<Attachment>>,
                          download: string -> Reply<B>, markdownify: string -> string)
    returns (ok: bool)
    requires HasStop(attachments)
    ensures ok == Succeeds(client, page, pageFetch, attachments)
  {
    var out, _ := ExportPage(client, outputDir, page, pageFetch, attachments, download, markdownify);
    ExportVerdict(client, PageDir(outputDir, TitleOf(page)), page, pageFetch, attachments, download, markdownify);
    ok := out.ok;
  }

  /** The export loop of `main`: every page is exported and the successes are counted. */
  method ExportAll<B>(client: ConfluenceClient, outputDir: string, pages: seq<PageData>,
                      pageFetch: string -> Reply<PageData>, attachments: string -> seq<Response<Attachment>>,
                      download: string -> Reply<B>, markdownify: string -> string)
    returns (successCount: nat)
    requires forall p :: p in pages ==> HasStop(attachments(p.id))
    ensures successCount == CountTrue(Verdicts(client, pages, pageFetch, attachments))
    ensures successCount <= |pages|
  {
    ghost var vs := Verdicts(client, pages, pageFetch, attachments);
    successCount := 0;
    var i := 0;
    while i < |pages|
      invariant 0 <= i <= |pages|
      invariant successCount == CountTrue(vs[..i])
    {
      var ok := ExportCounted(client, outputDir, pages[i], pageFetch, attachments(pages[i].id), download, markdownify);
      if ok {
        successCount := successCount + 1;
      }
      assert vs[..i + 1] == vs[..i] + [vs[i]];
      CountTrueAppend(vs[..i], vs[i]);
      i := i + 1;
    }
    assert vs[..i] == vs;
  }
}
