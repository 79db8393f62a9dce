# DocuStax, modelled in Dafny

DocuStax is a static document library. A build step scans the `documents/`
folder and writes `manifest.json`, renders one PNG thumbnail per PDF and writes
a `sitemap.xml`. In the browser, a service loads the manifest and each
document's `metadata.json` and `document.html` into a cached catalog. Pages
then query that catalog for a document by slug, related documents, all
categories and all tags, and group the documents by category. A React page
renders a second, hash-routed sitemap.

This project models those data transformations and proves what each one
promises. File system, network, shell and clock results are parameters.

- `document_model.dfy` (`DocumentModel`): the `DocumentMetadata` and
  `Document` records.
- `document_service.dfy` (`DocumentCatalog`):
  - catalog assembly from the manifest response and the per-slug responses;
  - the queries;
  - the `DocumentService` class, whose `allDocuments` field is stored by `Load`.
- `categories.dfy` (`Categories`): category grouping, with `localeCompare`
  as an abstract comparator `cmp`.
- `sitemap_script.dfy` (`SitemapScript`): the build-time sitemap.
  - The URL list is built by successive loops, as in the script.
  - A specification function `SitemapUrls` describes the list.
  - The rendering is proved equal to a line-by-line view.
- `app_sitemap.dfy` (`AppSitemap`):
  - the base URL derivation;
  - `generateSitemapXml`, a method that appends line by line and is proved
    equal to the page's lines joined by newlines.
- `manifest_script.dfy` (`ManifestScript`): folder selection, code-unit
  sorting and the manifest text.
- `thumbnails_script.dfy` (`ThumbnailScript`): the per-slug classification
  loop, its counters and the exit status.
- Shared helpers:
  - `collections.dfy`: `Distinct` is `[...new Set(s)]`; also subsequences.
  - `text.dfy`: `Array.join`, `+=` accumulation, prefix and suffix tests.
  - `ordering.dfy`: `Array.prototype.sort` as an insertion sort, and
    code-unit string order.
  - `sitemap_format.dfy`: the fixed XML pieces.

Behaviours of the code that the model keeps:

- `pdfUrl` is `/documents/<slug>/document.pdf`, with a leading slash
  (src/services/document.service.ts:59).
- A document whose fetches fail is dropped, and the other documents still
  load (src/services/document.service.ts:33).
- The service offers lookups by slug, related documents, all categories and
  all tags; it has no lookups by category, tag or person.
- `App.tsx` takes its `Document` type and its document list from modules
  that are not part of this model (`./types` and a React `documentService`;
  App.tsx:6-7 and App.tsx:17).
  The model uses the `Document` record of `document_model.dfy` in their
  place. The page reads only `slug` and `metadata.date` of each document,
  and both records have them.

## Model

| member | source | states |
|---|---|---|
| `DocumentCatalog.FetchDocumentData` | src/services/document.service.ts:40-65 | A document comes back exactly when both fetches arrived, were ok and had readable bodies. It then carries the slug, the metadata, the HTML, the PDF URL `/documents/<slug>/document.pdf` and no thumbnail. |
| `DocumentCatalog.LoadableSlugs` | src/services/document.service.ts:29-33 | The slugs that load, as a subsequence of the manifest. Every slug in it loads. A slug that loads occurs as often as in the manifest, repeats included, and one that does not load never occurs. |
| `DocumentCatalog.AssembleDocuments` | src/services/document.service.ts:29-33 | The assembled documents' slugs are exactly the loadable slugs in manifest order. Each document is what its own fetches produced. |
| `DocumentCatalog.FetchAllDocuments` | src/services/document.service.ts:21-38 | A manifest that fails to arrive, is not ok or cannot be read gives the empty list. Otherwise the result is the loadable slugs in manifest order. Each document is exactly what its own two fetches produced: its metadata, its HTML, its derived PDF URL and no thumbnail. |
| `DocumentCatalog.EveryLoadKeepsManifest` | src/services/document.service.ts:29-33 | When every slug loads, the catalog lists exactly the manifest, in order. |
| `DocumentCatalog.FindBySlug` | src/services/document.service.ts:73 | `None` exactly when no document has the slug; otherwise the first document with that slug. |
| `DocumentCatalog.IsRelated` | src/services/document.service.ts:80-81 | A document with the current slug is never related. With another slug, the same category suffices. With another category, at least one shared tag is needed. |
| `DocumentCatalog.RelatedSymmetric` | src/services/document.service.ts:80-81 | Relatedness is symmetric. |
| `DocumentCatalog.RelatedCandidates` | src/services/document.service.ts:79-81 | The documents passing the filter, as a subsequence of the catalog. Each has another slug and shares the category or a tag. A passing document occurs as often as in the catalog, and a failing one never occurs. |
| `DocumentCatalog.RelatedDocuments` | src/services/document.service.ts:77-83 | At most three results, never the current slug, each sharing the category or a tag. The result is a subsequence of the catalog. It is the prefix of the candidates of length min(3, candidates); when shorter than three, every related document is in it. |
| `DocumentCatalog.CategoriesOf` | src/services/document.service.ts:86 | One category per document, position by position. |
| `DocumentCatalog.TagsOf` | src/services/document.service.ts:91 | A tag is in the flattened list exactly when some document carries it. No documents give no tags, and one document gives its own tag list. |
| `DocumentCatalog.TagsOfAppend` | src/services/document.service.ts:91 | Flattening lays the tag lists end to end: the tags of two catalogs joined are the first one's tags followed by the second's, repeats kept. |
| `DocumentCatalog.AllCategories` | src/services/document.service.ts:85-88 | No duplicates. A category is present exactly when some document has it. Categories are in first-occurrence order of the mapped list. |
| `DocumentCatalog.AllTags` | src/services/document.service.ts:90-93 | No duplicates. A tag is present exactly when some document carries it. Tags are in first-occurrence order of the flattened tag lists. |
| `DocumentCatalog.DocumentService.constructor` | src/services/document.service.ts:10-19 | The cached list starts empty and nothing is loaded. |
| `DocumentCatalog.DocumentService.Load` | src/services/document.service.ts:13-17 | The first load stores `FetchAllDocuments` of the responses. A later one, replayed, changes nothing. The cached list is empty whenever nothing has loaded. |
| `DocumentCatalog.DocumentService.GetDocumentBySlug` | src/services/document.service.ts:71-75 | Over the loaded list: undefined exactly when no document has the slug, else the first one that has it. |
| `DocumentCatalog.DocumentService.GetRelatedDocuments` | src/services/document.service.ts:77-83 | Empty before the load. A subsequence of the cached list, each related. It is the prefix of the candidates of length min(3, candidates); when shorter than three, every related document is in it. |
| `DocumentCatalog.DocumentService.GetAllCategories` | src/services/document.service.ts:85-88 | Empty before the load. Otherwise each cached category exactly once, in first-seen order. |
| `DocumentCatalog.DocumentService.GetAllTags` | src/services/document.service.ts:90-93 | Empty before the load. Otherwise each cached tag exactly once, in first-seen order. |
| `Collections.Distinct` | src/services/document.service.ts:87 | `[...new Set(s)]`: no duplicates, the same members as `s`, and no longer than `s`. |
| `Collections.DistinctFirstOccurrenceOrder` | src/services/document.service.ts:87 | Elements appear in the order of their first occurrence in the input. |
| `Categories.InCategory` | src/components/categories/categories.component.ts:30 | The documents of one category, as a subsequence of the list. A document of that category occurs as often as in the list, and no other document occurs. |
| `Categories.Groups` | src/components/categories/categories.component.ts:28-30 | One group per category entry, in order, each holding that category's documents. |
| `Categories.NameOrderTotalPreorder` | src/components/categories/categories.component.ts:31 | Comparing groups by `cmp` on their names is a total preorder when `cmp` is consistent. |
| `Categories.CategoryGroups` | src/components/categories/categories.component.ts:24-32 | A reordering of `Groups` (the same multiset), so one group per category entry, repeats included. Every category has its group, and names are distinct when the categories are. Each group holds exactly its category's documents in catalog order. The groups ascend by name under `cmp`. Groups whose names `cmp` ties keep their order in the category list, as the stable sort keeps them. |
| `Categories.GroupsPartitionCatalog` | src/components/categories/categories.component.ts:25-31 | With the categories taken from the same documents, the groups partition the catalog. Sizes sum to the document count, no group is empty, every document is in a group, and no document is in two. |
| `Categories.TotalSizeSort` | src/components/categories/categories.component.ts:31 | Sorting the groups does not change how many documents they hold. |
| `Ordering.Sort` | scripts/generate-manifest.mjs:37 | The sorted list is a permutation of the input: the same elements, each as often. |
| `Ordering.SortSorted` | scripts/generate-manifest.mjs:37 | The insertion sort yields an ascending order under a total preorder. |
| `Ordering.SortMembers` | scripts/generate-manifest.mjs:37 | Every input element appears in the sorted list, and every element of the sorted list comes from the input. |
| `Ordering.SortStable` | src/components/categories/categories.component.ts:31 | The sort is stable: for any element, the elements it ties with come out in the order they went in. |
| `Ordering.LexLeqTotalOrder` | scripts/generate-manifest.mjs:37 | The default string order (code unit by code unit, a proper prefix first) is total, transitive and antisymmetric. |
| `ManifestScript.IsDocumentFolder` | scripts/generate-manifest.mjs:25-35 | An entry that is not a directory is rejected, then a hidden one. A remaining directory is kept exactly when its `metadata.json` exists. |
| `ManifestScript.FolderEntries` | scripts/generate-manifest.mjs:24-35 | The kept entries are a subsequence of the listing, each a directory that is not hidden and holds `metadata.json`. Each such entry occurs as often as in the listing, and no other entry occurs. |
| `ManifestScript.Names` | scripts/generate-manifest.mjs:36 | One name per entry, position by position. |
| `ManifestScript.FolderNames` | scripts/generate-manifest.mjs:24-36 | The names of `FolderEntries`, position by position, and a subsequence of the listing's names. Every name belongs to a directory entry that is not hidden and holds `metadata.json`, and every such entry's name is present. |
| `ManifestScript.SelectSlugs` | scripts/generate-manifest.mjs:24-37 | The slug list is a permutation of the filtered names and ascends in code-unit order. It contains only qualifying folders and all of them. |
| `ManifestScript.StringifyArray` | scripts/generate-manifest.mjs:45 | The text opens with `[` and closes with `]`; it is `[]` exactly for the empty list. |
| `ManifestScript.ManifestContent` | scripts/generate-manifest.mjs:45-48 | The written content is the array text followed by exactly one newline; an empty selection writes `[]` and a newline. |
| `ManifestScript.GenerateManifest` | scripts/generate-manifest.mjs:17-62 | An unreadable directory ends with status 1. Otherwise the selected slugs are written as the manifest content. The warning is given exactly when the selection is empty, and then `[]` and a newline is still written. |
| `ThumbnailScript.Classify` | scripts/generate-thumbnails.mjs:92-113 | Files count as present when they existed at the start or the run has written them. A missing PDF is a failure and never a skip. A present thumbnail is skipped exactly when `--force` is absent. Otherwise `pdftoppm`'s result, on `<dir>/<slug>/document.pdf` and `<dir>/<slug>/thumbnail.png`, decides success or failure. |
| `ThumbnailScript.TallyTotal` | scripts/generate-thumbnails.mjs:87-114 | Every outcome is of exactly one kind, so the four tallies add up to the number of slugs. |
| `ThumbnailScript.OutcomesInOrder` | scripts/generate-thumbnails.mjs:92-113 | Slug `i` is classified against the files present at the start plus the thumbnails written for the slugs before it. |
| `ThumbnailScript.WrittenMembers` | scripts/generate-thumbnails.mjs:41-58 | A path has been written exactly when it is `<dir>/<slug>/thumbnail.png` for an earlier slug whose `pdftoppm -singlefile` run succeeded. |
| `ThumbnailScript.RepeatedSlugSkipped` | scripts/generate-thumbnails.mjs:103-106 | A slug listed twice whose first pass generated its thumbnail is skipped the second time unless `--force` is given. |
| `ThumbnailScript.DistinctSlugsSeeStart` | scripts/generate-thumbnails.mjs:92-113 | With no slug listed twice, every slug is classified against the files present at the start. |
| `ThumbnailScript.GenerateAllThumbnails` | scripts/generate-thumbnails.mjs:65-126 | Without `pdftoppm` or a readable manifest, it exits with status 1 before any slug. Otherwise the outcomes are `Outcomes` of the manifest: each slug in order, seeing the thumbnails written before it. Each slug increments exactly one counter. The counts sum to the manifest length, and the status is 1 exactly when a slug failed. |
| `SitemapScript.BaseUrl` | scripts/generate-sitemap.mjs:10 | An unset or empty `BASE_URL` gives `https://docustax.example.com`; otherwise its value is used. |
| `SitemapScript.ReadAll` | scripts/generate-sitemap.mjs:40-42 | Every document's metadata in manifest order, or nothing as soon as one cannot be read. |
| `SitemapScript.DocEntries` | scripts/generate-sitemap.mjs:40-50 | One entry per slug, in manifest order: loc `BASE_URL/doc/<slug>`, lastmod the metadata date, monthly, 0.8. |
| `SitemapScript.PageEntries` | scripts/generate-sitemap.mjs:65-80 | One listing entry per name, in order: loc `BASE_URL/<section>/` followed by the encoded name, weekly. |
| `SitemapScript.MetadataTags` | scripts/generate-sitemap.mjs:61 | A tag is in the collected list exactly when some document carries it. No documents give no tags, and one document gives its own tag list. |
| `SitemapScript.MetadataTagsAppend` | scripts/generate-sitemap.mjs:53-62 | The tags collected from two runs of documents are those of the first followed by those of the second, repeats kept. |
| `SitemapScript.SitemapCategories` | scripts/generate-sitemap.mjs:53-60 | The category set: no duplicates, exactly the categories in use, in the order first met (a `Set` iterates in insertion order). |
| `SitemapScript.SitemapTags` | scripts/generate-sitemap.mjs:54-61 | The tag set: no duplicates, exactly the tags in use, in the order first met in the collected tag lists. |
| `SitemapScript.UrlList` | scripts/generate-sitemap.mjs:23-80 | The list holds 2 + documents + categories + tags entries. |
| `SitemapScript.SitemapUrls` | scripts/generate-sitemap.mjs:23-80 | The URL count is 2 + manifest length + distinct categories + distinct tags. |
| `SitemapScript.UrlListLayout` | scripts/generate-sitemap.mjs:23-80 | Home (`BASE_URL`, 1.0) comes first and browse (`BASE_URL/browse`, 0.9) second. Then come the documents in manifest order, then every category (`/category/`, 0.7), then every tag (`/tag/`, 0.6). |
| `SitemapScript.SitemapCoversCatalog` | scripts/generate-sitemap.mjs:40-80 | Every document, every category in use and every tag in use has its entry. |
| `SitemapScript.LastmodOnlyOnDocuments` | scripts/generate-sitemap.mjs:26-80 | Only document entries carry a `lastmod`, and each is that document's date. |
| `SitemapScript.OptionalLine` | scripts/generate-sitemap.mjs:86-89 | An element line, `<tag>value</tag>`, is emitted exactly when its value is truthy (non-empty). |
| `SitemapScript.UrlLines` | scripts/generate-sitemap.mjs:85-90 | A record has three to six lines: `<url>`, then `loc`, then one line each for `lastmod`, `changefreq` and `priority` in that order, exactly when the value is truthy, then `</url>`. |
| `SitemapScript.RenderUrl` | scripts/generate-sitemap.mjs:85-90 | A record starts with `<url>` and its `loc` line and ends with `</url>`. |
| `SitemapScript.RenderUrlLines` | scripts/generate-sitemap.mjs:85-90 | One rendered record is its lines joined by newlines. |
| `SitemapScript.RenderSitemap` | scripts/generate-sitemap.mjs:83-91 | The file starts with the declaration line and `<urlset …>`, and ends with `</urlset>` with no newline after it. |
| `SitemapScript.SitemapIsLines` | scripts/generate-sitemap.mjs:83-91 | The file is exactly the declaration, `<urlset …>`, every record's lines and `</urlset>`, joined by newlines, with no newline at the end. |
| `SitemapScript.AddDocumentPages` | scripts/generate-sitemap.mjs:40-50 | Appends the document entries when every metadata read succeeds, and reports failure exactly when one does not. |
| `SitemapScript.AddTags` | scripts/generate-sitemap.mjs:61 | Adding a document's tags to the insertion-ordered set gives `Distinct` of all tags so far. |
| `SitemapScript.CollectCategoriesAndTags` | scripts/generate-sitemap.mjs:53-62 | The loop fills the two sets with exactly `SitemapCategories` and `SitemapTags` of the metadata. |
| `SitemapScript.AddListingPages` | scripts/generate-sitemap.mjs:64-80 | Appends one listing entry per name, in order. |
| `SitemapScript.GenerateSitemap` | scripts/generate-sitemap.mjs:20-107 | When all metadata can be read, the URL list is `SitemapUrls` and the XML is its rendering. When one cannot, the run fails with status 1. |
| `AppSitemap.StripIndexHtml` | App.tsx:15 | One trailing `index.html` is removed; a pathname not ending in it is unchanged. |
| `AppSitemap.PageBaseUrl` | App.tsx:15 | The base URL is the origin followed by the pathname. When the pathname ends in `index.html`, that suffix is dropped. |
| `AppSitemap.DatePart` | App.tsx:26 | The text before the first `T`: a prefix of the timestamp with no `T` in it, stopped at the first `T`. |
| `AppSitemap.SitemapLines` | App.tsx:19-44 | The page has 9 + 6 × document-count lines. It opens with the declaration and `<urlset …>` and closes with `</urlset>`. |
| `AppSitemap.DocumentRecordLayout` | App.tsx:32-40 | Document `i`'s six lines sit at positions `6i` to `6i+5` of the document part. |
| `AppSitemap.SitemapRecords` | App.tsx:23-40 | There are exactly 1 + document-count records. The home record comes first (`baseUrl#/`, today, weekly, 1.0). Then each document follows in order (`baseUrl#/documents/<slug>`, its date verbatim, monthly, 0.8). |
| `AppSitemap.SitemapXml` | App.tsx:19-44 | The text starts with the declaration line and the `urlset` line, and ends with `</urlset>` with no newline after it. |
| `AppSitemap.AppendRecord` | App.tsx:24-29 | Six `+=` append the record's lines, each followed by a newline. |
| `AppSitemap.GenerateSitemapXml` | App.tsx:19-44 | The accumulated text equals the page's lines joined by newlines: `SitemapXml` of the base URL, today's date part and the documents. |

## Left out

- File system, network, shell and clock. These are parameters:
  - `readdirSync` and `existsSync` results, and the `fetch` responses;
  - the metadata reads, `pdftoppm` availability and its success;
  - `process.argv` and `process.env.BASE_URL`;
  - the current time as ISO text.
- Side effects that do not change the outcome: `console` output, creating the output directory, and the writes of `sitemap.xml` and `manifest.json`. A failed write of the sitemap or the manifest is not modelled. The thumbnails that `pdftoppm` writes are modelled, because later slugs test for them.
- ThumbnailScript.GenerateAllThumbnails: a failed `pdftoppm` run is taken to write nothing, and no other process changes the documents directory during the run.
- Foreign functions that are parameters and not interpreted:
  - `encodeURIComponent` (`encode`) and `JSON.stringify` of one string (`quote`);
  - `localeCompare` (`cmp`). Only the total-preorder property that the sort needs is assumed of it.
- Unmodelled parsing: `JSON.parse` of the manifest and metadata becomes "parsed value or failure".
- Parsed metadata is always complete. A missing `date` or `tags` field is not represented; an empty `date` stands for a missing one.
- `path.join` is modelled as `dir/a/b` for a normalised directory and single-segment names. Its normalisation of `..`, `.` and repeated separators is not.
- Strings are sequences of Unicode scalar values. Folder names are assumed to lie in the Basic Multilingual Plane. There, comparing scalar values agrees with the UTF-16 code-unit comparison of `.sort()`. For names that mix characters above U+FFFF with ones in U+E000 to U+FFFF, the two orders differ.
- RxJS and asynchrony: `from`, `tap`, `shareReplay` and `Promise.all` collapse into one `Load` step. Concurrency and emission timing are not modelled, and neither is the observable `getDocuments`.
- DocumentCatalog.DocumentService.GetDocumentBySlug: requires the list to be loaded, because the observable answers only after the load has been stored. The waiting itself is not modelled.
- The sitemap script reads each document's metadata twice (`scripts/generate-sitemap.mjs:42` and `:58`). The model assumes both reads give the same result, so the second loop cannot fail once the first has succeeded.
- The manifest read at the top level of `scripts/generate-sitemap.mjs:17` happens before the function starts. Its failure is a crash outside `generateSitemap`; the manifest is an input here.
- The categories component reads `documents()` and `isLoaded` from the service (`src/components/categories/categories.component.ts:19-26`). Neither exists in `src/services/document.service.ts`. `CategoryGroups` therefore takes the document list and the category list as arguments, and `GroupsPartitionCatalog` takes the categories to be `AllCategories` of the same list.
- The thumbnail width (400) and the exact `pdftoppm` command line sit inside the generation call and are part of its outcome.
- Rendering of the in-app sitemap inside `<pre><code>` and the rest of the page's JSX is presentation.
- ThumbnailScript.GenerateAllThumbnails: the script exits on a missing `pdftoppm` or a missing manifest, and rejects when `JSON.parse` throws. All three are one abort with status 1 and no slug processed. The different messages are not distinguished.
