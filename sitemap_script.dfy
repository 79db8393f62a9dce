/**
 * `scripts/generate-sitemap.mjs`: the list of URLs the site publishes
 * (home, browse, one per manifest document, one per distinct category and
 * one per distinct tag) and its rendering as a sitemap XML document.
 *
 * The environment variable, the manifest, the reading of each document's
 * `metadata.json` and `encodeURIComponent` are inputs.
 */
module SitemapScript {
  import opened Collections
  import opened Text
  import opened DocumentModel
  import opened SitemapFormat

  const DefaultBaseUrl: string := "https://docustax.example.com"

  /** `process.env.BASE_URL || DefaultBaseUrl`: an unset or empty variable falls back to the default. */
  function BaseUrl(env: Option<string>): (r: string)
    ensures env.Some? && env.value != "" ==> r == env.value
    ensures env.None? || env.value == "" ==> r == DefaultBaseUrl
    ensures r != ""
  {
    if env.Some? && env.value != "" then env.value else DefaultBaseUrl
  }

  /** One `<url>` record. The empty string stands for an absent (falsy) field. */
  datatype UrlEntry = UrlEntry(loc: string, lastmod: string, changefreq: string, priority: string)

  function HomeEntry(base: string): UrlEntry {
    UrlEntry(base, "", "weekly", "1.0")
  }

  function BrowseEntry(base: string): UrlEntry {
    UrlEntry(base + "/browse", "", "weekly", "0.9")
  }

  function DocEntry(base: string, slug: string, date: string): UrlEntry {
    UrlEntry(base + "/doc/" + slug, date, "monthly", "0.8")
  }

  /** A listing page: `section` is "category" or "tag", `name` is URI-encoded into the path. */
  function PageEntry(base: string, encode: string -> string, section: string, priority: string, name: string): UrlEntry {
    UrlEntry(base + "/" + section + "/" + encode(name), "", "weekly", priority)
  }

  function CategoryEntry(base: string, encode: string -> string, category: string): UrlEntry {
    PageEntry(base, encode, "category", "0.7", category)
  }

  function TagEntry(base: string, encode: string -> string, tag: string): UrlEntry {
    PageEntry(base, encode, "tag", "0.6", tag)
  }

  /**
   * Reading every manifest document's metadata: `None` as soon as one read
   * fails (the script then rejects), otherwise the metadata in manifest order.
   */
  function ReadAll(manifest: seq<string>, metadataOf: string -> Option<DocumentMetadata>): (r: Option<seq<DocumentMetadata>>)
    ensures r.Some? <==> forall i :: 0 <= i < |manifest| ==> metadataOf(manifest[i]).Some?
    ensures r.Some? ==> |r.value| == |manifest|
    ensures r.Some? ==> forall i :: 0 <= i < |manifest| ==> metadataOf(manifest[i]) == Some(r.value[i])
  {
    if manifest == [] then Some([])
    else
      var init := manifest[..|manifest| - 1];
      assert forall i :: 0 <= i < |init| ==> init[i] == manifest[i];
      match (ReadAll(init, metadataOf), metadataOf(manifest[|manifest| - 1]))
      case (Some(ms), Some(m)) => Some(ms + [m])
      case _ => None
  }

  /** The document entries, one per slug, in manifest order. */
  function DocEntries(base: string, slugs: seq<string>, metas: seq<DocumentMetadata>): (r: seq<UrlEntry>)
    requires |slugs| == |metas|
    ensures |r| == |slugs|
    ensures forall i :: 0 <= i < |r| ==> r[i] == DocEntry(base, slugs[i], metas[i].date)
  {
    if slugs == [] then []
    else DocEntries(base, slugs[..|slugs| - 1], metas[..|metas| - 1])
         + [DocEntry(base, slugs[|slugs| - 1], metas[|metas| - 1].date)]
  }

  /** The listing entries of one section, one per name, in the order given. */
  function PageEntries(base: string, encode: string -> string, section: string, priority: string, names: seq<string>): (r: seq<UrlEntry>)
    ensures |r| == |names|
    ensures forall i :: 0 <= i < |r| ==> r[i] == PageEntry(base, encode, section, priority, names[i])
  {
    if names == [] then []
    else PageEntries(base, encode, section, priority, names[..|names| - 1])
         + [PageEntry(base, encode, section, priority, names[|names| - 1])]
  }

  /** Every document's category, in manifest order, repeats included. */
  function MetadataCategories(metas: seq<DocumentMetadata>): (r: seq<string>)
    ensures |r| == |metas|
    ensures forall i :: 0 <= i < |metas| ==> r[i] == metas[i].category
  {
    if metas == [] then [] else MetadataCategories(metas[..|metas| - 1]) + [metas[|metas| - 1].category]
  }

  /** `c` is the category of some document. */
  predicate CategoryInUse(metas: seq<DocumentMetadata>, c: string) {
    exists i :: 0 <= i < |metas| && metas[i].category == c
  }

  /** `t` is a tag of some document. */
  predicate TagInUse(metas: seq<DocumentMetadata>, t: string) {
    exists i :: 0 <= i < |metas| && t in metas[i].tags
  }

  /**
   * Every document's tags, in manifest order, repeats included: one document
   * contributes its own tag list, and `MetadataTagsAppend` shows that lists
   * are laid end to end.
   */
  function MetadataTags(metas: seq<DocumentMetadata>): (r: seq<string>)
    ensures forall t :: t in r <==> TagInUse(metas, t)
    ensures metas == [] ==> r == []
    ensures |metas| == 1 ==> r == metas[0].tags
  {
    if metas == [] then []
    else
      var init := metas[..|metas| - 1];
      var last := metas[|metas| - 1];
      assert forall i :: 0 <= i < |init| ==> init[i] == metas[i];
      assert forall t :: TagInUse(metas, t) <==> TagInUse(init, t) || t in last.tags by {
        forall t ensures TagInUse(metas, t) ==> TagInUse(init, t) || t in last.tags {
          if TagInUse(metas, t) {
            var i :| 0 <= i < |metas| && t in metas[i].tags;
            if i < |init| {
              assert t in init[i].tags;
            }
          }
        }
      }
      MetadataTags(init) + last.tags
  }

  /** The categories that get a page: each category in use once, in the order first met. */
  function SitemapCategories(metas: seq<DocumentMetadata>): (r: seq<string>)
    ensures NoDups(r)
    ensures forall c :: c in r <==> CategoryInUse(metas, c)
    ensures InFirstOccurrenceOrder(r, MetadataCategories(metas))
  {
    var cats := MetadataCategories(metas);
    DistinctFirstOccurrenceOrder(cats);
    assert forall c :: c in cats <==> CategoryInUse(metas, c) by {
      forall c ensures c in cats <==> CategoryInUse(metas, c) {
        if c in cats {
          var i :| 0 <= i < |cats| && cats[i] == c;
          assert metas[i].category == c;
        }
        if CategoryInUse(metas, c) {
          var i :| 0 <= i < |metas| && metas[i].category == c;
          assert cats[i] == c;
        }
      }
    }
    Distinct(cats)
  }

  /** The tags that get a page: each tag in use once, in the order first met. */
  function SitemapTags(metas: seq<DocumentMetadata>): (r: seq<string>)
    ensures NoDups(r)
    ensures forall t :: t in r <==> TagInUse(metas, t)
    ensures InFirstOccurrenceOrder(r, MetadataTags(metas))
  {
    DistinctFirstOccurrenceOrder(MetadataTags(metas));
    Distinct(MetadataTags(metas))
  }

  /** Home, browse, the documents, the given categories, the given tags, in that order. */
  function UrlList(base: string, slugs: seq<string>, metas: seq<DocumentMetadata>, categories: seq<string>,
                   tags: seq<string>, encode: string -> string): (r: seq<UrlEntry>)
    requires |slugs| == |metas|
    ensures |r| == 2 + |slugs| + |categories| + |tags|
  {
    [HomeEntry(base), BrowseEntry(base)]
    + DocEntries(base, slugs, metas)
    + PageEntries(base, encode, "category", "0.7", categories)
    + PageEntries(base, encode, "tag", "0.6", tags)
  }

  /**
   * The URL list the script builds: home, browse, the documents in manifest
   * order, then each distinct category and each distinct tag once, in the
   * order first met (a JavaScript `Set` iterates in insertion order).
   */
  function SitemapUrls(base: string, slugs: seq<string>, metas: seq<DocumentMetadata>, encode: string -> string): (r: seq<UrlEntry>)
    requires |slugs| == |metas|
    ensures |r| == 2 + |slugs| + |SitemapCategories(metas)| + |SitemapTags(metas)|
  {
    UrlList(base, slugs, metas, SitemapCategories(metas), SitemapTags(metas), encode)
  }

  /** Where the document entries sit in a URL list. */
  lemma UrlListDocuments(base: string, slugs: seq<string>, metas: seq<DocumentMetadata>, categories: seq<string>,
                         tags: seq<string>, encode: string -> string, r: seq<UrlEntry>)
    requires |slugs| == |metas|
    requires r == UrlList(base, slugs, metas, categories, tags, encode)
    ensures forall i :: 0 <= i < |slugs| ==> r[2 + i] == DocEntry(base, slugs[i], metas[i].date)
  {
    var head := [HomeEntry(base), BrowseEntry(base)];
    var docs := DocEntries(base, slugs, metas);
    var cs := PageEntries(base, encode, "category", "0.7", categories);
    var ts := PageEntries(base, encode, "tag", "0.6", tags);
    assert r == head + docs + cs + ts;
    forall i | 0 <= i < |slugs| ensures r[2 + i] == DocEntry(base, slugs[i], metas[i].date) {
      assert (head + docs)[2 + i] == docs[i];
      assert (head + docs + cs)[2 + i] == docs[i];
    }
  }

  /** Where the category entries sit in a URL list. */
  lemma UrlListCategories(base: string, slugs: seq<string>, metas: seq<DocumentMetadata>, categories: seq<string>,
                          tags: seq<string>, encode: string -> string, r: seq<UrlEntry>)
    requires |slugs| == |metas|
    requires r == UrlList(base, slugs, metas, categories, tags, encode)
    ensures forall k :: 0 <= k < |categories| ==> r[2 + |slugs| + k] == CategoryEntry(base, encode, categories[k])
  {
    var head := [HomeEntry(base), BrowseEntry(base)];
    var docs := DocEntries(base, slugs, metas);
    var cs := PageEntries(base, encode, "category", "0.7", categories);
    var ts := PageEntries(base, encode, "tag", "0.6", tags);
    var front := head + docs;
    assert r == front + cs + ts && |front| == 2 + |slugs|;
    forall k | 0 <= k < |categories| ensures r[2 + |slugs| + k] == CategoryEntry(base, encode, categories[k]) {
      assert (front + cs)[|front| + k] == cs[k];
    }
  }

  /** Where the tag entries sit in a URL list. */
  lemma UrlListTags(base: string, slugs: seq<string>, metas: seq<DocumentMetadata>, categories: seq<string>,
                    tags: seq<string>, encode: string -> string, r: seq<UrlEntry>)
    requires |slugs| == |metas|
    requires r == UrlList(base, slugs, metas, categories, tags, encode)
    ensures forall k :: 0 <= k < |tags| ==> r[2 + |slugs| + |categories| + k] == TagEntry(base, encode, tags[k])
  {
    var head := [HomeEntry(base), BrowseEntry(base)];
    var docs := DocEntries(base, slugs, metas);
    var cs := PageEntries(base, encode, "category", "0.7", categories);
    var ts := PageEntries(base, encode, "tag", "0.6", tags);
    var front := head + docs + cs;
    assert r == front + ts && |front| == 2 + |slugs| + |categories|;
    forall k | 0 <= k < |tags| ensures r[2 + |slugs| + |categories| + k] == TagEntry(base, encode, tags[k]) {
      assert r[|front| + k] == ts[k];
    }
  }

  /**
   * Where each kind of page sits in the list: home first, browse second,
   * then the documents in manifest order, then the categories, then the tags.
   */
  lemma UrlListLayout(base: string, slugs: seq<string>, metas: seq<DocumentMetadata>, categories: seq<string>,
                      tags: seq<string>, encode: string -> string, r: seq<UrlEntry>)
    requires |slugs| == |metas|
    requires r == UrlList(base, slugs, metas, categories, tags, encode)
    ensures |r| == 2 + |slugs| + |categories| + |tags|
    ensures r[0] == HomeEntry(base) && r[1] == BrowseEntry(base)
    ensures forall i :: 0 <= i < |slugs| ==> r[2 + i] == DocEntry(base, slugs[i], metas[i].date)
    ensures forall k :: 0 <= k < |categories| ==> r[2 + |slugs| + k] == CategoryEntry(base, encode, categories[k])
    ensures forall k :: 0 <= k < |tags| ==> r[2 + |slugs| + |categories| + k] == TagEntry(base, encode, tags[k])
  {
    UrlListDocuments(base, slugs, metas, categories, tags, encode, r);
    UrlListCategories(base, slugs, metas, categories, tags, encode, r);
    UrlListTags(base, slugs, metas, categories, tags, encode, r);
  }

  lemma SitemapHasDocuments(base: string, slugs: seq<string>, metas: seq<DocumentMetadata>, encode: string -> string,
                            r: seq<UrlEntry>)
    requires |slugs| == |metas|
    requires r == SitemapUrls(base, slugs, metas, encode)
    ensures forall i :: 0 <= i < |slugs| ==> DocEntry(base, slugs[i], metas[i].date) in r
  {
    UrlListDocuments(base, slugs, metas, SitemapCategories(metas), SitemapTags(metas), encode, r);
    forall i | 0 <= i < |slugs| ensures DocEntry(base, slugs[i], metas[i].date) in r {
      assert r[2 + i] == DocEntry(base, slugs[i], metas[i].date);
    }
  }

  lemma SitemapHasCategories(base: string, slugs: seq<string>, metas: seq<DocumentMetadata>, encode: string -> string,
                             r: seq<UrlEntry>)
    requires |slugs| == |metas|
    requires r == SitemapUrls(base, slugs, metas, encode)
    ensures forall i :: 0 <= i < |metas| ==> CategoryEntry(base, encode, metas[i].category) in r
  {
    var categories := SitemapCategories(metas);
    UrlListCategories(base, slugs, metas, categories, SitemapTags(metas), encode, r);
    forall i | 0 <= i < |metas| ensures CategoryEntry(base, encode, metas[i].category) in r {
      assert CategoryInUse(metas, metas[i].category);
      var k :| 0 <= k < |categories| && categories[k] == metas[i].category;
      assert r[2 + |slugs| + k] == CategoryEntry(base, encode, categories[k]);
    }
  }

  lemma SitemapHasTags(base: string, slugs: seq<string>, metas: seq<DocumentMetadata>, encode: string -> string,
                       r: seq<UrlEntry>)
    requires |slugs| == |metas|
    requires r == SitemapUrls(base, slugs, metas, encode)
    ensures forall i, j :: 0 <= i < |metas| && 0 <= j < |metas[i].tags| ==> TagEntry(base, encode, metas[i].tags[j]) in r
  {
    var categories := SitemapCategories(metas);
    var tags := SitemapTags(metas);
    UrlListTags(base, slugs, metas, categories, tags, encode, r);
    forall i, j | 0 <= i < |metas| && 0 <= j < |metas[i].tags| ensures TagEntry(base, encode, metas[i].tags[j]) in r {
      var t := metas[i].tags[j];
      assert TagInUse(metas, t);
      var k :| 0 <= k < |tags| && tags[k] == t;
      assert r[2 + |slugs| + |categories| + k] == TagEntry(base, encode, tags[k]);
    }
  }

  /** Every document, every category in use and every tag in use has its page in the sitemap. */
  lemma SitemapCoversCatalog(base: string, slugs: seq<string>, metas: seq<DocumentMetadata>, encode: string -> string)
    requires |slugs| == |metas|
    ensures forall i :: 0 <= i < |slugs| ==> DocEntry(base, slugs[i], metas[i].date) in SitemapUrls(base, slugs, metas, encode)
    ensures forall i :: 0 <= i < |metas| ==> CategoryEntry(base, encode, metas[i].category) in SitemapUrls(base, slugs, metas, encode)
    ensures forall i, j :: 0 <= i < |metas| && 0 <= j < |metas[i].tags| ==>
              TagEntry(base, encode, metas[i].tags[j]) in SitemapUrls(base, slugs, metas, encode)
  {
    var r := SitemapUrls(base, slugs, metas, encode);
    SitemapHasDocuments(base, slugs, metas, encode, r);
    SitemapHasCategories(base, slugs, metas, encode, r);
    SitemapHasTags(base, slugs, metas, encode, r);
  }

  /** Only document entries carry a `lastmod`, and exactly those whose date is not empty. */
  lemma LastmodOnlyOnDocuments(base: string, slugs: seq<string>, metas: seq<DocumentMetadata>, encode: string -> string,
                               r: seq<UrlEntry>)
    requires |slugs| == |metas|
    requires r == SitemapUrls(base, slugs, metas, encode)
    ensures forall i :: 0 <= i < |r| && !(2 <= i < 2 + |slugs|) ==> r[i].lastmod == ""
    ensures forall i :: 0 <= i < |slugs| ==> r[2 + i].lastmod == metas[i].date
  {
    var categories := SitemapCategories(metas);
    var tags := SitemapTags(metas);
    UrlListLayout(base, slugs, metas, categories, tags, encode, r);
    forall i | 0 <= i < |r| && !(2 <= i < 2 + |slugs|) ensures r[i].lastmod == "" {
      if 2 + |slugs| <= i < 2 + |slugs| + |categories| {
        assert r[i] == CategoryEntry(base, encode, categories[i - 2 - |slugs|]);
      } else if 2 + |slugs| + |categories| <= i {
        assert r[i] == TagEntry(base, encode, tags[i - 2 - |slugs| - |categories|]);
      }
    }
  }

  /** An element on a line of its own, or nothing when the value is falsy. */
  function OptionalElement(tag: string, value: string): string {
    if value != "" then "\n" + ElementLine(tag, value) else ""
  }

  /** The template of one `<url>` record: `<url>` and the `loc` line first, `</url>` last. */
  function RenderUrl(u: UrlEntry): (r: string)
    ensures StartsWith(r, UrlOpenLine + "\n" + ElementLine("loc", u.loc))
    ensures EndsWith(r, "\n" + UrlCloseLine)
  {
    var head := UrlOpenLine + "\n" + ElementLine("loc", u.loc);
    var s1 := head + OptionalElement("lastmod", u.lastmod);
    var s2 := s1 + OptionalElement("changefreq", u.changefreq);
    var s3 := s2 + OptionalElement("priority", u.priority);
    StartsWithAppend(head, head, OptionalElement("lastmod", u.lastmod));
    StartsWithAppend(s1, head, OptionalElement("changefreq", u.changefreq));
    StartsWithAppend(s2, head, OptionalElement("priority", u.priority));
    StartsWithAppend(s3, head, "\n");
    StartsWithAppend(s3 + "\n", head, UrlCloseLine);
    EndsWithPair(s3, "\n", UrlCloseLine);
    s3 + "\n" + UrlCloseLine
  }

  /** `urls.map(...)` with the record template. */
  function RenderUrls(urls: seq<UrlEntry>): (r: seq<string>)
    ensures |r| == |urls|
  {
    if urls == [] then [] else RenderUrls(urls[..|urls| - 1]) + [RenderUrl(urls[|urls| - 1])]
  }

  /** The whole file: declaration, opening tag, the records joined by newlines, closing tag. */
  function RenderSitemap(urls: seq<UrlEntry>): (r: string)
    ensures StartsWith(r, XmlDeclaration + "\n" + UrlsetOpen + "\n")
    ensures EndsWith(r, "\n" + UrlsetClose)
  {
    var head := XmlDeclaration + "\n" + UrlsetOpen + "\n";
    var body := head + Join(RenderUrls(urls), "\n");
    StartsWithAppend(head, head, Join(RenderUrls(urls), "\n"));
    StartsWithAppend(body, head, "\n");
    StartsWithAppend(body + "\n", head, UrlsetClose);
    EndsWithPair(body, "\n", UrlsetClose);
    body + "\n" + UrlsetClose
  }

  // ---------------------------------------------------------------------
  // The same document seen as a list of lines.

  function OptionalLine(tag: string, value: string): (r: seq<string>)
    ensures |r| <= 1
    ensures r != [] <==> value != ""
    ensures r != [] ==> r[0] == ElementLine(tag, value)
  {
    if value != "" then [ElementLine(tag, value)] else []
  }

  /** The lines of one record: open, `loc`, each present field in order, close. */
  function UrlLines(u: UrlEntry): (r: seq<string>)
    ensures 3 <= |r| <= 6
    ensures r[0] == UrlOpenLine && r[1] == ElementLine("loc", u.loc) && r[|r| - 1] == UrlCloseLine
    ensures r[2..|r| - 1] == OptionalLine("lastmod", u.lastmod) + OptionalLine("changefreq", u.changefreq)
                             + OptionalLine("priority", u.priority)
  {
    [UrlOpenLine, ElementLine("loc", u.loc)]
    + OptionalLine("lastmod", u.lastmod)
    + OptionalLine("changefreq", u.changefreq)
    + OptionalLine("priority", u.priority)
    + [UrlCloseLine]
  }

  function AllUrlLines(urls: seq<UrlEntry>): (r: seq<string>)
    ensures urls != [] ==> r != []
  {
    if urls == [] then [] else AllUrlLines(urls[..|urls| - 1]) + UrlLines(urls[|urls| - 1])
  }

  /** The file's lines: declaration, opening tag, every record's lines in order, closing tag. */
  function SitemapLines(urls: seq<UrlEntry>): (r: seq<string>)
    ensures |r| >= 3
    ensures r[0] == XmlDeclaration && r[1] == UrlsetOpen && r[|r| - 1] == UrlsetClose
  {
    [XmlDeclaration, UrlsetOpen] + AllUrlLines(urls) + [UrlsetClose]
  }

  lemma JoinOptional(a: seq<string>, tag: string, value: string)
    requires a != []
    ensures Join(a + OptionalLine(tag, value), "\n") == Join(a, "\n") + OptionalElement(tag, value)
  {
    if value != "" {
      JoinSnoc(a, ElementLine(tag, value), "\n");
    } else {
      assert a + OptionalLine(tag, value) == a;
    }
  }

  /** A rendered record is its lines joined by newlines. */
  lemma RenderUrlLines(u: UrlEntry)
    ensures RenderUrl(u) == Join(UrlLines(u), "\n")
  {
    var l0 := [UrlOpenLine, ElementLine("loc", u.loc)];
    assert l0 == [UrlOpenLine] + [ElementLine("loc", u.loc)];
    JoinSnoc([UrlOpenLine], ElementLine("loc", u.loc), "\n");
    var l1 := l0 + OptionalLine("lastmod", u.lastmod);
    JoinOptional(l0, "lastmod", u.lastmod);
    var l2 := l1 + OptionalLine("changefreq", u.changefreq);
    JoinOptional(l1, "changefreq", u.changefreq);
    var l3 := l2 + OptionalLine("priority", u.priority);
    JoinOptional(l2, "priority", u.priority);
    JoinSnoc(l3, UrlCloseLine, "\n");
  }

  lemma {:induction false} RenderUrlsLines(urls: seq<UrlEntry>)
    requires urls != []
    ensures Join(RenderUrls(urls), "\n") == Join(AllUrlLines(urls), "\n")
  {
    var init, last := urls[..|urls| - 1], urls[|urls| - 1];
    var x, g := RenderUrl(last), UrlLines(last);
    RenderUrlLines(last);
    assert RenderUrls(urls) == RenderUrls(init) + [x];
    assert AllUrlLines(urls) == AllUrlLines(init) + g;
    if init == [] {
      assert RenderUrls(urls) == [x];
      assert AllUrlLines(urls) == g;
    } else {
      RenderUrlsLines(init);
      JoinSnocJoined(RenderUrls(init), AllUrlLines(init), x, g, "\n");
    }
  }

  /**
   * The rendered file is exactly its lines joined by newlines, so each record
   * starts on a fresh line and the file ends with the closing tag and no
   * newline. (An empty list would leave a blank line; the script's list
   * always holds home and browse.)
   */
  lemma SitemapIsLines(urls: seq<UrlEntry>)
    requires urls != []
    ensures RenderSitemap(urls) == Join(SitemapLines(urls), "\n")
  {
    var head := [XmlDeclaration, UrlsetOpen];
    assert head == [XmlDeclaration] + [UrlsetOpen];
    JoinSnoc([XmlDeclaration], UrlsetOpen, "\n");
    RenderUrlsLines(urls);
    JoinAppend(head, AllUrlLines(urls), "\n");
    JoinSnoc(head + AllUrlLines(urls), UrlsetClose, "\n");
  }

  // ---------------------------------------------------------------------
  // The script itself.

  datatype SitemapRun = Written(urls: seq<UrlEntry>, xml: string) | Failed(exitCode: int)

  lemma DocEntriesSnoc(base: string, slugs: seq<string>, metas: seq<DocumentMetadata>, slug: string, m: DocumentMetadata)
    requires |slugs| == |metas|
    ensures DocEntries(base, slugs + [slug], metas + [m]) == DocEntries(base, slugs, metas) + [DocEntry(base, slug, m.date)]
  {
    assert (slugs + [slug])[..|slugs|] == slugs;
    assert (metas + [m])[..|metas|] == metas;
  }

  lemma PageEntriesSnoc(base: string, encode: string -> string, section: string, priority: string, names: seq<string>, name: string)
    ensures PageEntries(base, encode, section, priority, names + [name])
         == PageEntries(base, encode, section, priority, names) + [PageEntry(base, encode, section, priority, name)]
  {
    assert (names + [name])[..|names|] == names;
  }

  /** One pass of the first loop: the next slug's entry goes at the end. */
  lemma DocPagesStep(urls0: seq<UrlEntry>, base: string, manifest: seq<string>, metas: seq<DocumentMetadata>,
                     m: DocumentMetadata)
    requires |metas| < |manifest|
    ensures urls0 + DocEntries(base, manifest[..|metas| + 1], metas + [m])
         == (urls0 + DocEntries(base, manifest[..|metas|], metas)) + [DocEntry(base, manifest[|metas|], m.date)]
  {
    var i := |metas|;
    var prefix := manifest[..i];
    assert manifest[..i + 1] == prefix + [manifest[i]];
    DocEntriesSnoc(base, prefix, metas, manifest[i], m);
    var done, entry := DocEntries(base, prefix, metas), DocEntry(base, manifest[i], m.date);
    assert urls0 + (done + [entry]) == (urls0 + done) + [entry];
  }

  /**
   * The first loop of `generateSitemap`: one page per manifest slug, dated by
   * its metadata; stops at the first document whose metadata cannot be read.
   */
  method AddDocumentPages(urls0: seq<UrlEntry>, baseUrl: string, manifest: seq<string>,
                          metadataOf: string -> Option<DocumentMetadata>) returns (urls: seq<UrlEntry>, ok: bool)
    ensures ok <==> ReadAll(manifest, metadataOf).Some?
    ensures ok ==> urls == urls0 + DocEntries(baseUrl, manifest, ReadAll(manifest, metadataOf).value)
  {
    urls := urls0;
    ghost var metas: seq<DocumentMetadata> := [];
    for i := 0 to |manifest|
      invariant |metas| == i
      invariant ReadAll(manifest[..i], metadataOf) == Some(metas)
      invariant urls == urls0 + DocEntries(baseUrl, manifest[..i], metas)
    {
      var metadata := metadataOf(manifest[i]);
      if metadata.None? {
        ReadAllFails(manifest, metadataOf, i);
        return urls, false;
      }
      ReadAllStep(manifest, metadataOf, metas, metadata.value);
      DocPagesStep(urls0, baseUrl, manifest, metas, metadata.value);
      urls := urls + [DocEntry(baseUrl, manifest[i], metadata.value.date)];
      metas := metas + [metadata.value];
    }
    assert manifest[..|manifest|] == manifest;
    ok := true;
  }

  /** Reading one more slug: the prefix's metadata extended by that slug's. */
  lemma ReadAllStep(manifest: seq<string>, metadataOf: string -> Option<DocumentMetadata>, metas: seq<DocumentMetadata>,
                    m: DocumentMetadata)
    requires |metas| < |manifest|
    requires ReadAll(manifest[..|metas|], metadataOf) == Some(metas)
    requires metadataOf(manifest[|metas|]) == Some(m)
    ensures ReadAll(manifest[..|metas| + 1], metadataOf) == Some(metas + [m])
  {
    var i := |metas|;
    assert manifest[..i + 1][..i] == manifest[..i];
  }

  /** One unreadable slug makes the whole read fail. */
  lemma ReadAllFails(manifest: seq<string>, metadataOf: string -> Option<DocumentMetadata>, i: nat)
    requires i < |manifest|
    requires metadataOf(manifest[i]).None?
    ensures ReadAll(manifest, metadataOf).None?
  {
  }

  /** One pass of the inner loop: the next tag joins the set exactly when it is new. */
  lemma AddTagStep(seen: seq<string>, newTags: seq<string>, j: nat)
    requires j < |newTags|
    ensures Distinct(seen + newTags[..j + 1])
         == if newTags[j] in Distinct(seen + newTags[..j]) then Distinct(seen + newTags[..j])
            else Distinct(seen + newTags[..j]) + [newTags[j]]
  {
    assert seen + newTags[..j + 1] == (seen + newTags[..j]) + [newTags[j]];
    DistinctSnoc(seen + newTags[..j], newTags[j]);
  }

  /** The inner loop: each tag not yet in the set is appended to it. */
  method AddTags(tags0: seq<string>, ghost seen: seq<string>, newTags: seq<string>) returns (tags: seq<string>)
    requires tags0 == Distinct(seen)
    ensures tags == Distinct(seen + newTags)
  {
    tags := tags0;
    assert seen + newTags[..0] == seen;
    for j := 0 to |newTags|
      invariant tags == Distinct(seen + newTags[..j])
    {
      AddTagStep(seen, newTags, j);
      var tag := newTags[j];
      if tag !in tags {
        tags := tags + [tag];
      }
    }
    assert newTags[..|newTags|] == newTags;
  }

  lemma MetadataTagsSnoc(metas: seq<DocumentMetadata>, m: DocumentMetadata)
    ensures MetadataTags(metas + [m]) == MetadataTags(metas) + m.tags
  {
    assert (metas + [m])[..|metas|] == metas;
  }

  /** One pass of the collecting loop: the next document's category and tags join the sets. */
  lemma CollectStep(metas: seq<DocumentMetadata>, i: nat)
    requires i < |metas|
    ensures Distinct(MetadataCategories(metas[..i + 1]))
         == if metas[i].category in Distinct(MetadataCategories(metas[..i])) then Distinct(MetadataCategories(metas[..i]))
            else Distinct(MetadataCategories(metas[..i])) + [metas[i].category]
    ensures MetadataTags(metas[..i + 1]) == MetadataTags(metas[..i]) + metas[i].tags
  {
    assert metas[..i + 1] == metas[..i] + [metas[i]];
    MetadataCategoriesSnoc(metas[..i], metas[i]);
    MetadataTagsSnoc(metas[..i], metas[i]);
    DistinctSnoc(MetadataCategories(metas[..i]), metas[i].category);
  }

  /** Reading the manifest in two parts: the first part's tags, then the second's, repeats kept. */
  lemma {:induction false} MetadataTagsAppend(a: seq<DocumentMetadata>, b: seq<DocumentMetadata>)
    ensures MetadataTags(a + b) == MetadataTags(a) + MetadataTags(b)
    decreases |b|
  {
    if b == [] {
      assert a + b == a;
    } else {
      var init, m := b[..|b| - 1], b[|b| - 1];
      assert b == init + [m];
      assert a + b == (a + init) + [m];
      MetadataTagsSnoc(a + init, m);
      MetadataTagsSnoc(init, m);
      MetadataTagsAppend(a, init);
    }
  }

  lemma MetadataCategoriesSnoc(metas: seq<DocumentMetadata>, m: DocumentMetadata)
    ensures MetadataCategories(metas + [m]) == MetadataCategories(metas) + [m.category]
  {
    assert (metas + [m])[..|metas|] == metas;
  }

  /**
   * The second loop of `generateSitemap`: the category and tag sets, read
   * again from each document's metadata, kept in insertion order.
   */
  method CollectCategoriesAndTags(manifest: seq<string>, metadataOf: string -> Option<DocumentMetadata>)
    returns (categories: seq<string>, tags: seq<string>)
    requires ReadAll(manifest, metadataOf).Some?
    ensures categories == SitemapCategories(ReadAll(manifest, metadataOf).value)
    ensures tags == SitemapTags(ReadAll(manifest, metadataOf).value)
  {
    ghost var metas := ReadAll(manifest, metadataOf).value;
    categories, tags := [], [];
    for i := 0 to |manifest|
      invariant categories == Distinct(MetadataCategories(metas[..i]))
      invariant tags == Distinct(MetadataTags(metas[..i]))
    {
      var metadata := metadataOf(manifest[i]).value;
      assert metadata == metas[i];
      CollectStep(metas, i);
      if metadata.category !in categories {
        categories := categories + [metadata.category];
      }
      tags := AddTags(tags, MetadataTags(metas[..i]), metadata.tags);
    }
    assert metas[..|manifest|] == metas;
  }

  /** The category or tag loop: one listing page per name, in order. */
  method AddListingPages(urls0: seq<UrlEntry>, baseUrl: string, encode: string -> string, section: string,
                         priority: string, names: seq<string>) returns (urls: seq<UrlEntry>)
    ensures urls == urls0 + PageEntries(baseUrl, encode, section, priority, names)
  {
    urls := urls0;
    for k := 0 to |names|
      invariant urls == urls0 + PageEntries(baseUrl, encode, section, priority, names[..k])
    {
      var entry := PageEntry(baseUrl, encode, section, priority, names[k]);
      ghost var done := PageEntries(baseUrl, encode, section, priority, names[..k]);
      assert names[..k + 1] == names[..k] + [names[k]];
      PageEntriesSnoc(baseUrl, encode, section, priority, names[..k], names[k]);
      assert urls + [entry] == urls0 + (done + [entry]);
      urls := urls + [entry];
    }
    assert names[..|names|] == names;
  }

  /**
   * `generateSitemap`: when every document's metadata can be read, the URL
   * list is `SitemapUrls` of the manifest and its metadata, and the XML is
   * its rendering; when one cannot, the script exits with status 1.
   */
  method GenerateSitemap(baseUrl: string, manifest: seq<string>, metadataOf: string -> Option<DocumentMetadata>,
                         encode: string -> string) returns (run: SitemapRun)
    ensures run.Failed? <==> ReadAll(manifest, metadataOf).None?
    ensures run.Failed? ==> run.exitCode == 1
    ensures run.Written? ==> && run.urls == SitemapUrls(baseUrl, manifest, ReadAll(manifest, metadataOf).value, encode)
                             && run.xml == RenderSitemap(run.urls)
  {
    var urls := [HomeEntry(baseUrl), BrowseEntry(baseUrl)];
    var ok;
    urls, ok := AddDocumentPages(urls, baseUrl, manifest, metadataOf);
    if !ok {
      return Failed(1);
    }
    var categories, tags := CollectCategoriesAndTags(manifest, metadataOf);
    urls := AddListingPages(urls, baseUrl, encode, "category", "0.7", categories);
    urls := AddListingPages(urls, baseUrl, encode, "tag", "0.6", tags);
    run := Written(urls, RenderSitemap(urls));
  }
}
