# confluence-dump core, modelled in Dafny

confluence-dump exports a Confluence page and, optionally, its descendant
pages to Markdown. For each page it does the following:

- It fetches the storage-format body.
- It lists the page's attachments and downloads the image attachments into an
  `images/` directory.
- It rewrites the vendor markup. `<ac:image>` blocks holding an
  `<ri:attachment ri:filename="...">` reference, and drawio
  `<ac:structured-macro>` blocks, both become plain `<img>` tags. It then
  hands the HTML to a Markdown converter.
- It writes `README.md` into a directory named after the page's sanitized
  title.

This project models the decision logic of that pipeline and proves what it
promises. It has one module per source file:

| module | file | models |
|---|---|---|
| `Converter` | converter.dfy | the regex scans of `converter.py` as recursive scanners with Python `re` semantics (greedy `[^>]*` backing off, lazy `.*?` stopping at the first closing tag, scanning resuming after a match), the stage order of `html_to_markdown`, and the replacement loop of `rewrite_image_links` |
| `UrlParser` | url_parser.dfy | `parse_confluence_url` and `extract_domain` |
| `Filenames` | filenames.dfy | `sanitize_filename`, as written and corrected (see Findings) |
| `ApiClient` | api_client.dfy | `ConfluenceClient` (base-URL normalisation, request URLs, the cursor-pagination loop of the two listings) and `create_client_from_env` |
| `Downloader` | downloader.dfy | `ImageDownloader`: file naming, the reuse-or-fetch decision, and the assembly of the URL-to-path map |
| `Export` | export.dfy | `export_page` (body fetch, empty-body shortcut, attachment map, image filter and image map, conversion, files written) and the page list and success count of `main` |
| `Strings`, `Urls`, `Wrappers` | strings.dfy, urls.dfy, wrappers.dfy | the parts of Python's `str`, `urllib.parse.urlparse` and `os.path` that the code uses, plus `Option` and `Result` |

The environment enters the model as parameters:

- Every HTTP reply is a parameter. A single request is a function from URL
  to `Reply(status, body)`. A paginated listing is the sequence of
  `Response(status, results, next)` the server gives, one per request.
- The Markdown converter (markdownify) is a function parameter.
- Python's `hash` is a function parameter.
- The environment variables are a map.
- The file system is a set of existing paths, plus the sets of directories
  created and files written.

## Model

| member | source | states |
|---|---|---|
| `Converter.ExtractConfluenceImages` | src/confluence_dump/converter.py:10-29 | every extracted name is non-empty and contains no `"`; duplicates are gone (a set) |
| `Converter.ExtractedNamesAreReferenced` | src/confluence_dump/converter.py:25-27 | every extracted name occurs as `ri:filename="name"` inside a tag opened by `<ri:attachment`, with no `>` between the two |
| `Converter.NoAttachmentTagNoNames` | src/confluence_dump/converter.py:25-27 | a body with no `<ri:attachment` yields no names |
| `Converter.ReferencedNameExtracted` | src/confluence_dump/converter.py:10-29 | the converse for one tag: a tag `<ri:attachment a ri:filename="n" b>` at the head of the body, with no `>` in `a`, `n` or `b`, `n` non-empty and quote-free, and no later `ri:filename="` inside the tag (`TagFits`), makes `n` one of the extracted names |
| `Converter.TagThenRest` | src/confluence_dump/converter.py:25-27 | `re.findall` resumes after each match: such a tag followed by `t` yields `n` and then exactly the names of `t` |
| `Converter.NamesAfterPlainPrefix` | src/confluence_dump/converter.py:25-26 | text in which no `<ri:attachment` opens contributes no names: `re.findall` passes over it |
| `Converter.ReferencedNameExtractedAfter` | src/confluence_dump/converter.py:10-29 | the first fitting tag of a body: after text in which no attachment tag opens, its name `n` is extracted |
| `Converter.PiecesNames` | src/confluence_dump/converter.py:25-27 | the converse for every tag of a body: for a body made of plain text (in which no attachment tag opens) and any number of fitting tags, `re.findall` captures exactly the tags' names, all of them, left to right |
| `Converter.EveryReferencedNameExtracted` | src/confluence_dump/converter.py:10-29 | for such a body, the extracted names are exactly the set of names its tags reference |
| `Converter.TwoTagsBothExtracted` | src/confluence_dump/converter.py:25-27 | two self-closing tags in a row give both names, `["a", "b"]` |
| `Converter.FoundNamesAreReferenced` | src/confluence_dump/converter.py:25-26 | every name `re.findall` captures, left to right, is a reference of the input |
| `Converter.LastFilenameIndexIsLast` | src/confluence_dump/converter.py:25 | the greedy `[^>]*` before `ri:filename=` backs off to the last index where the rest of the pattern matches: it matches at no later index, and at none when the scan finds nothing |
| `Converter.AttachmentMatch` | src/confluence_dump/converter.py:25 | one match of the attachment pattern consumes a non-empty prefix and captures a non-empty, quote-free name that sits inside the opening tag |
| `Converter.Search` | src/confluence_dump/converter.py:49-53 | `re.search(key([^c]+)close)` returns a non-empty value free of `c` that occurs as `key + value + close`, and returns nothing exactly when the pattern matches nowhere; when it matches, the value is the one captured at the leftmost match |
| `Converter.BlockEndAt` | src/confluence_dump/converter.py:63 | `open[^>]*>.*?close` with `re.DOTALL`: the opening tag ends at its first `>` (greedy `[^>]*` cannot cross one), and the block ends at the first `close` after it (lazy `.*?`) |
| `Converter.MarkerFound` | src/confluence_dump/converter.py:103 | `ac:name="drawio"` anywhere in the attributes puts the macro's opening tag in the drawio pattern |
| `Converter.MarkerMissing` | src/confluence_dump/converter.py:103 | an opening tag whose attributes lack `ac:name="drawio"` is not in the drawio pattern |
| `Converter.ImageBlockReplaced` | src/confluence_dump/converter.py:45-64 | an `<ac:image>` block becomes exactly `<img src="S" alt="A" />`. `S` is `image_map[f]` for its first filename `f`, else `images/f`. `A` is the first non-empty `ac:alt`, else empty. A block with no filename becomes the empty string. The match ends at the first `</ac:image>` and the rest is scanned afresh |
| `Converter.ImagesWithoutCloseUnchanged` | src/confluence_dump/converter.py:63-64 | a body with no `</ac:image>` is returned unchanged by the image pass |
| `Converter.ImagesCopyPlainPrefix` | src/confluence_dump/converter.py:63-64 | text in which no `<ac:image` opens (other tags included) is copied unchanged by the image pass, which then continues on the rest |
| `Converter.DrawioBlockReplaced` | src/confluence_dump/converter.py:84-104 | a drawio macro named `n` becomes `<img src="S" alt="n" />`, with `S` = `image_map[n.png]`, else `images/n.png`. A macro without a name is removed. The match ends at the first `</ac:structured-macro>` |
| `Converter.DrawioCopyPlainPrefix` | src/confluence_dump/converter.py:103-104 | text in which no `<ac:structured-macro` opens is copied unchanged by the drawio pass, which then continues on the rest |
| `Converter.OtherMacroNotMatched` | src/confluence_dump/converter.py:103-104 | a structured macro whose opening tag lacks `ac:name="drawio"` is not replaced: its first character is copied and the scan moves on |
| `Converter.DrawioWithoutMarkerUnchanged` | src/confluence_dump/converter.py:103-104 | a body that never says `ac:name="drawio"` is returned unchanged by the drawio pass |
| `Converter.HtmlToMarkdown` | src/confluence_dump/converter.py:109-145 | the Markdown is the converter applied to the body after the image pass and then the drawio pass, both with the given map, or with the empty map when none is given; the returned names are those of the original body, before any rewrite |
| `Converter.NamesIgnoreImageMap` | src/confluence_dump/converter.py:120-127 | the returned names do not depend on the image map |
| `Converter.PlainBodyReachesMarkdownUnchanged` | src/confluence_dump/converter.py:123-130 | a body with neither kind of block reaches the Markdown converter unchanged |
| `Converter.RewriteImageLinks` | src/confluence_dump/converter.py:148-162 | the result is `str.replace(url, path)` applied for each entry in map order; an empty map is the identity |
| `Converter.AbsentEntrySkipped` | src/confluence_dump/converter.py:159-161 | an entry whose URL does not occur leaves the text unchanged |
| `UrlParser.QueryPageId` | src/confluence_dump/url_parser.py:35-37 | the id is the text right after the first `pageId=`; it holds no `&`; it is not checked for digits and may be empty |
| `UrlParser.FieldAfterDelimited` | src/confluence_dump/url_parser.py:36 | the id ends at the end of the URL, at an `&`, or at the next `pageId=`, and contains no `pageId=` |
| `UrlParser.PathPageId` | src/confluence_dump/url_parser.py:41-61 | a Cloud path `wiki/spaces/<S>/pages/<N>/...` with `N` all digits gives segment 4, `N`; any other path gives its last segment when that is all digits; there is none exactly when neither applies |
| `UrlParser.ParseWith` | src/confluence_dump/url_parser.py:28-63 | the site is `scheme://netloc` on every branch. `pageId=` takes precedence over both path branches. Otherwise the id is the one `PathPageId` gives. A `ValueError` is raised exactly when no branch matches, with the URL in its message |
| `UrlParser.ParseConfluenceUrl` | src/confluence_dump/url_parser.py:9-63 | the site is the URL's scheme and `extract_domain` of the URL |
| `UrlParser.ExtractDomain` | src/confluence_dump/url_parser.py:66-71 | the domain is the network location: after a `//` that follows the scheme, the text up to the end or to the first `/`, `?` or `#`, and empty when no `//` follows the scheme |
| `UrlParser.PathIgnoresOuterSlashes` | src/confluence_dump/url_parser.py:41-42 | a leading or trailing `/` on the path does not change the id |
| `UrlParser.CloudPathGivesId` | src/confluence_dump/url_parser.py:46-55 | a path `/wiki/spaces/<S>/pages/<N>/...` with `N` all digits yields `N` |
| `Filenames.SanitizeFilename` | src/confluence_dump/main.py:21-29 | as written: never empty; contains no character of the literal class `< > : " ? * \ / x 0 - 1 f` and the vertical bar; whitespace is single plain spaces; no whitespace at the ends |
| `Filenames.SanitizeFilenameIntended` | src/confluence_dump/main.py:21-29 | the same, for the reserved characters and the control characters U+0000 to U+001F |
| `Filenames.CollapseRun` | src/confluence_dump/main.py:28 | a maximal whitespace run between two pieces of text becomes exactly one space, whatever its length and characters |
| `Filenames.SanitizeCollapsesRun` | src/confluence_dump/main.py:21-29 | for any class: two clean, single-spaced, stripped pieces joined by a whitespace run that survives removal sanitize to the two pieces joined by one space |
| `Filenames.SanitizeFilenameCollapsesRun` | src/confluence_dump/main.py:21-29 | the same for `sanitize_filename` as written |
| `Filenames.SanitizeFilenameIntendedCollapsesRun` | src/confluence_dump/main.py:21-29 | the same for the corrected sanitizer, whose class also removes tabs and newlines before collapsing |
| `Filenames.Sanitize` | src/confluence_dump/main.py:27-29 | the result is `Untitled` when nothing survives removal and stripping, and is what survives otherwise |
| `Filenames.SanitizeKeepsText` | src/confluence_dump/main.py:27-29 | apart from whitespace, the result is exactly the surviving characters in order; with none it is `Untitled` |
| `Filenames.CollapseKeepsText` | src/confluence_dump/main.py:28 | collapsing whitespace keeps every other character, in order |
| `Filenames.RemoveCharsKeeps` | src/confluence_dump/main.py:27 | a character survives removal exactly when it occurs and is outside the class |
| `Filenames.SanitizeIdempotent` | src/confluence_dump/main.py:21-29 | sanitizing twice is sanitizing once, for any class that spares the space and `Untitled` |
| `Filenames.SanitizeFilenameIdempotent` | src/confluence_dump/main.py:21-29 | `sanitize_filename` as written is idempotent |
| `Filenames.SanitizeFilenameIntendedIdempotent` | src/confluence_dump/main.py:21-29 | the corrected sanitizer is idempotent |
| `Filenames.SanitizeKeepsCleanName` | src/confluence_dump/main.py:21-29 | a non-empty name that is clean, single-spaced and stripped is kept as it is |
| `Filenames.AsWrittenMangles` | src/confluence_dump/main.py:26-27 | as written, `file-01` becomes `ile` |
| `Filenames.IntendedKeeps` | src/confluence_dump/main.py:26-27 | with the corrected class, `file-01` is kept |
| `Filenames.IntendedHasNoSlash` | src/confluence_dump/main.py:59-60 | the corrected name has no `/`, so the page directory is one path component |
| `ApiClient.NormalizeBaseUrl` | src/confluence_dump/api_client.py:27 | the base URL never ends with `/`; a missing or empty one becomes `""`; otherwise only trailing slashes are removed |
| `ApiClient.NormalizeIdempotent` | src/confluence_dump/api_client.py:27 | normalising a normalised base URL changes nothing |
| `ApiClient.OrEmpty` | src/confluence_dump/api_client.py:28-29 | a missing or empty e-mail or token becomes `""`; otherwise it is kept |
| `ApiClient.ConfluenceClient.constructor` | src/confluence_dump/api_client.py:16-29 | the fields are the normalised base URL, e-mail and token |
| `ApiClient.ConfluenceClient.PageUrl` | src/confluence_dump/api_client.py:44 | the page URL is `base + "/wiki/api/v2/pages/" + id + "?body-format=storage"`, and the id can be read back from it |
| `ApiClient.ConfluenceClient.PageUrlInjective` | src/confluence_dump/api_client.py:44 | different page ids give different URLs |
| `ApiClient.ConfluenceClient.DescendantsUrl` | src/confluence_dump/api_client.py:68 | the descendants URL is the pages path, then the page id, then `/descendants`, and the id can be read back from it |
| `ApiClient.ConfluenceClient.AttachmentsUrl` | src/confluence_dump/api_client.py:101 | the attachments URL is the pages path, then the page id, then `/attachments`, and the id can be read back from it |
| `ApiClient.ConfluenceClient.DownloadUrl` | src/confluence_dump/api_client.py:133-137 | the download URL is `base + "/wiki/" + link`, with one leading `/` of the link removed |
| `ApiClient.ConfluenceClient.DownloadLeadingSlashOptional` | src/confluence_dump/api_client.py:133-137 | `/x` and `x` resolve to the same URL |
| `ApiClient.ConfluenceClient.GetPage` | src/confluence_dump/api_client.py:34-48 | the page is fetched from `PageUrl`; a 4xx or 5xx status is the error |
| `ApiClient.ConfluenceClient.DownloadAttachment` | src/confluence_dump/api_client.py:123-141 | the content is fetched from `DownloadUrl`; a 4xx or 5xx status is the error |
| `ApiClient.Collect` | src/confluence_dump/api_client.py:60-121 | a listing fails exactly when the response that ends it has an error status outside the soft set |
| `ApiClient.RequestsMade` | src/confluence_dump/api_client.py:64-66 | one request per response up to the one that ends the listing. The first carries no cursor. Each later one carries the previous response's `next`. `limit` is always 100 |
| `ApiClient.Paginate` | src/confluence_dump/api_client.py:60-81 | the `while True` loop returns the concatenation, in request order, of every `results` up to the first response whose `next` is missing or empty; it makes exactly the requests of `RequestsMade` |
| `ApiClient.FlattenContains` | src/confluence_dump/api_client.py:74 | every item of every page is in the concatenation |
| `ApiClient.CollectedHasEveryFetchedItem` | src/confluence_dump/api_client.py:114 | every item of a page fetched before the end is returned |
| `ApiClient.SoftStatusesOnlyMatterOnError` | src/confluence_dump/api_client.py:114-119 | a listing that ends without an error returns every page's results, whichever statuses are soft |
| `ApiClient.SoftStatusKeepsCollected` | src/confluence_dump/api_client.py:106-112 | a 400 or 404 ends the attachments listing with what was accumulated; without that rule it would be the error |
| `ApiClient.ConfluenceClient.GetDescendants` | src/confluence_dump/api_client.py:50-81 | the descendants listing propagates every error status |
| `ApiClient.ConfluenceClient.GetAttachments` | src/confluence_dump/api_client.py:83-121 | the attachments listing treats 400 and 404 as soft |
| `ApiClient.GetEnv` | src/confluence_dump/api_client.py:154-156 | a variable is present exactly when the environment has it |
| `ApiClient.CreateClientFromEnv` | src/confluence_dump/api_client.py:144-164 | the result is the `ValueError` exactly when one of the three variables is missing or empty; otherwise it is a client built from them |
| `Downloader.FallbackName` | src/confluence_dump/downloader.py:38-39 | the fallback name `image_<hash>.png` has no `/` or `?` |
| `Downloader.GenerateFilename` | src/confluence_dump/downloader.py:30-44 | the name is never empty and has no `/` or `?`. It is the last path segment when that is non-empty, and the fallback name otherwise |
| `Downloader.SameLastSegmentSameName` | src/confluence_dump/downloader.py:34-36 | URLs whose paths end in the same segment get the same name |
| `Downloader.ImageDownloader.constructor` | src/confluence_dump/downloader.py:18-28 | the downloader keeps its output directory and worker count |
| `Downloader.ImageDownloader.LocalPath` | src/confluence_dump/downloader.py:55 | the local path ends in the generated name |
| `Downloader.ImageDownloader.LocalPathUnderOutputDir` | src/confluence_dump/downloader.py:54-55 | the local path is `output_dir + "/" + name`, or `output_dir + name` when the directory is empty or already ends in `/`: the name never starts with `/`, so `os.path.join` never drops the directory |
| `Downloader.ImageDownloader.DownloadSingle` | src/confluence_dump/downloader.py:46-74 | the result has a path exactly when the file exists or the fetch succeeds, and that path is the local path |
| `Downloader.ImageDownloader.ExistingFileNotFetched` | src/confluence_dump/downloader.py:57-59 | an existing file is returned whatever the network would answer |
| `Downloader.ImageDownloader.Record` | src/confluence_dump/downloader.py:102-109 | one completed download adds at most its own URL to the map and changes no other entry |
| `Downloader.ImageDownloader.AssembleSound` | src/confluence_dump/downloader.py:102-109 | every key of the map is an input URL mapped to its local path |
| `Downloader.ImageDownloader.SucceededUrlIncluded` | src/confluence_dump/downloader.py:102-109 | a URL whose file exists or whose fetch succeeds is in the map, whatever happens to the others |
| `Downloader.ImageDownloader.FailedUrlOmitted` | src/confluence_dump/downloader.py:72-74 | a failed URL whose file never appears has no entry |
| `Downloader.ImageDownloader.DownloadImages` | src/confluence_dump/downloader.py:76-111 | an empty list gives `{}` and creates no directory; otherwise the directory is created and the map is the fold of the downloads |
| `Export.TitleOf` | src/confluence_dump/main.py:48 | the title is `Untitled` when the key is missing |
| `Export.AttachmentMapKeys` | src/confluence_dump/main.py:70-75 | a title is a key exactly when some attachment with a non-empty title and link carries it |
| `Export.AttachmentMapLastWins` | src/confluence_dump/main.py:70-75 | a later attachment with the same title overwrites an earlier one |
| `Export.BuildAttachmentMap` | src/confluence_dump/main.py:69-75 | the loop builds exactly the attachment map |
| `Export.ImageNameIgnoresCase` | src/confluence_dump/main.py:85 | the extension test ignores case |
| `Export.ImageMapEntries` | src/confluence_dump/main.py:83-94 | the keys are exactly the attachment names with an image extension whose download succeeds; each value is `images/<name>` |
| `Export.FailedDownloadOnlyDropsItsEntry` | src/confluence_dump/main.py:86-94 | one failed download removes its own entry and leaves the others intact |
| `Export.ImageSrcIgnoresDownloads` | src/confluence_dump/main.py:92-100 | the converter is given `images/<name>` as the source of every image, whether its download succeeded or fell back |
| `Export.BuildImageMap` | src/confluence_dump/main.py:78-94 | the download loop builds exactly the image map and writes one file per entry |
| `Export.EmptyPageMarkdown` | src/confluence_dump/main.py:65 | the empty-page Markdown is `# <title>` followed by the no-content note |
| `Export.PageDir` | src/confluence_dump/main.py:59-60 | the page directory is the title as cleaned by the corrected sanitizer (see Findings), joined under the output directory as one component |
| `Export.HtmlOf` | src/confluence_dump/main.py:51-55 | a body that is present is used. Otherwise the page is fetched: a 4xx or 5xx status, and only that, fails the export with that status, and a successful fetch gives the fetched body, or `""` when it has none |
| `Export.ExportPage` | src/confluence_dump/main.py:32-111 | the export is `ExportOutcome`; attachments are listed exactly when the body is non-empty |
| `Export.ExportInto` | src/confluence_dump/main.py:47-100 | the same, once the directory is known |
| `Export.ExportContent` | src/confluence_dump/main.py:67-104 | the non-empty branch lists attachments, builds both maps, downloads and converts |
| `Export.EmptyBodyGetsHeading` | src/confluence_dump/main.py:64-66 | a falsy body yields `# title\n\n*(This page has no content)*\n` and succeeds. The listing, the downloads and the converter do not matter |
| `Export.FetchFailureCreatesNothing` | src/confluence_dump/main.py:52-55 | a body fetch that fails fails the export before anything is created |
| `Export.ListingFailureLeavesDirectory` | src/confluence_dump/main.py:69 | a hard listing error fails the export after the directory was created; nothing is written |
| `Export.ContentIsConverted` | src/confluence_dump/main.py:99-104 | a page with content is converted with the image map built from its attachments and written to `README.md` |
| `Export.ExportVerdict` | src/confluence_dump/main.py:47-111 | the export succeeds exactly when the body is available and, if it is non-empty, the attachments can be listed |
| `Export.PageList` | src/confluence_dump/main.py:177-188 | in recursive mode the page list is `[parent] + descendants`, in that order, and otherwise it is `[parent]`. An error in either fetch ends the run |
| `Export.FetchPages` | src/confluence_dump/main.py:177-188 | the fetching code builds exactly that list |
| `Export.CountTrue` | src/confluence_dump/main.py:192-195 | the count is at most the number of pages |
| `Export.CountTrueExtremes` | src/confluence_dump/main.py:192-200 | the count equals the number of pages exactly when every export succeeded, and is zero exactly when none did |
| `Export.ExportAll` | src/confluence_dump/main.py:192-195 | `success_count` is the number of successful exports and at most `len(pages)` |

## Left out

- HTTP transport: the `requests.Session`, basic authentication, headers, timeouts and JSON decoding. Replies and listings are parameters. Any exception other than an HTTP error status is not modelled.
- markdownify and BeautifulSoup. The converter is a parameter, and the `<img>` collection that `html_to_markdown` builds and never uses has no effect.
- The thread pool of `download_images`. Downloads are folded one after another, in submission order. When two URLs share a local name, the map depends on that order: a URL whose fetch fails is mapped when a URL with the same name succeeded before it, and omitted otherwise. The model fixes one order, and does not capture the others the scheduler can produce.
- `_download_single` opens the local file before streaming. A download that fails mid-stream leaves a partial file, which a later URL with the same name then reuses. The model adds a path to the existing files only when its download succeeds.
- File contents: bytes are not written, only the paths of files written and directories created are recorded. `os.path.exists` is a set of existing paths.
- The click command line, `load_dotenv`, `os.getenv` (the environment is a map), printing, exit codes and the output-directory creation of `main`.
- The `--format` option: it is parsed but not used.
- Python's salted `hash`: a function parameter.
- `urlparse`: only scheme, netloc and path are modelled, with a simplified split (scheme characters, `//` netloc, then query and fragment cut off). Params after `;` are not split off.
- `str.isdigit` is modelled on ASCII digits and `str.lower` on ASCII letters.
- `extract_confluence_images` returns `list(set(...))` in an unspecified order. The model returns the set.
- Listings must end: the response sequence must contain a response after which no further request is made. A server that always sends a `next` cursor makes the loop run forever, which is not modelled.
- LocalPath: its own contract states only that the path ends in the generated name. The whole `os.path.join` result is stated by `LocalPathUnderOutputDir`, a lemma beside it, which keeps the proofs about the download map small.
- `Export.ExportPage`: the exception handler also catches failures of the file system and of the converter. Those are not modelled, so a page fails only through an HTTP error.

## Findings

| source | as written | input that shows it | evidently intended | confidence | as-written member | corrected member |
|---|---|---|---|---|---|---|
| src/confluence_dump/main.py:26-27 | `re.escape` turns the class written as `\x00-\x1f` plus reserved characters into the literal characters `< > : " ? * \ / x 0 - 1 f` and the vertical bar, so no control character is removed and every `f`, `x`, `0`, `1` and `-` is | the title `file-01` becomes the directory `ile` | remove the reserved characters and the control characters U+0000 to U+001F only, as the comment says; `file-01` is kept | high, not executed | `Filenames.AsWrittenMangles` | `Filenames.IntendedKeeps` |

The page directory of `Export.PageDir` uses the corrected sanitizer,
`Filenames.SanitizeFilenameIntended`. `Filenames.SanitizeFilename` keeps the
class as written, and the properties are proved once for both, through
`Filenames.Sanitize`.
