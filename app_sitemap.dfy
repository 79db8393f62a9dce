/**
 * The sitemap page of `App.tsx`: the base URL derived from the page's own
 * location, and the XML text built by appending one line at a time (home
 * first, then one record per document, hash-routed).
 *
 * The browser location, the current time (as its ISO-8601 text) and the
 * document list are inputs.
 */
module AppSitemap {
  import opened Text
  import opened DocumentModel
  import opened SitemapFormat

  const IndexHtml: string := "index.html"

  /** `pathname.replace(/index\.html$/, '')`: one trailing `index.html` is dropped. */
  function StripIndexHtml(pathname: string): (r: string)
    ensures EndsWith(pathname, IndexHtml) ==> r + IndexHtml == pathname
    ensures !EndsWith(pathname, IndexHtml) ==> r == pathname
    ensures r <= pathname
  {
    if EndsWith(pathname, IndexHtml) then pathname[..|pathname| - |IndexHtml|] else pathname
  }

  /** `window.location.origin + ...`: the directory the page was served from. */
  function PageBaseUrl(origin: string, pathname: string): (r: string)
    ensures StartsWith(r, origin)
    ensures EndsWith(pathname, IndexHtml) ==> r + IndexHtml == origin + pathname
    ensures !EndsWith(pathname, IndexHtml) ==> r == origin + pathname
  {
    origin + StripIndexHtml(pathname)
  }

  /** `iso.split('T')[0]`: the text before the first `T`, or all of it. */
  function DatePart(iso: string): (r: string)
    ensures r <= iso
    ensures 'T' !in r
    ensures |r| < |iso| ==> iso[|r|] == 'T'
  {
    if iso == [] || iso[0] == 'T' then []
    else
      var rest := DatePart(iso[1..]);
      assert [iso[0]] + iso[1..] == iso;
      [iso[0]] + rest
  }

  /** The six lines of one record. */
  function RecordLines(loc: string, lastmod: string, changefreq: string, priority: string): (r: seq<string>)
    ensures |r| == 6
  {
    [UrlOpenLine, ElementLine("loc", loc), ElementLine("lastmod", lastmod),
     ElementLine("changefreq", changefreq), ElementLine("priority", priority), UrlCloseLine]
  }

  function HomeLoc(baseUrl: string): string {
    baseUrl + "#/"
  }

  /** Hash routing: a document's page is `#/documents/<slug>` under the base URL. */
  function DocumentLoc(baseUrl: string, slug: string): string {
    baseUrl + "#/documents/" + slug
  }

  function HomeLines(baseUrl: string, today: string): (r: seq<string>)
    ensures |r| == 6
  {
    RecordLines(HomeLoc(baseUrl), today, "weekly", "1.0")
  }

  function DocumentLines(baseUrl: string, doc: Document): (r: seq<string>)
    ensures |r| == 6
  {
    RecordLines(DocumentLoc(baseUrl, doc.slug), doc.metadata.date, "monthly", "0.8")
  }

  function AllDocumentLines(baseUrl: string, docs: seq<Document>): (r: seq<string>)
    ensures |r| == 6 * |docs|
  {
    if docs == [] then [] else AllDocumentLines(baseUrl, docs[..|docs| - 1]) + DocumentLines(baseUrl, docs[|docs| - 1])
  }

  /** The page's lines: declaration, `urlset`, the home record, each document's record, closing tag. */
  function SitemapLines(baseUrl: string, today: string, docs: seq<Document>): (r: seq<string>)
    ensures |r| == 9 + 6 * |docs|
    ensures r[0] == XmlDeclaration && r[1] == UrlsetOpen && r[|r| - 1] == UrlsetClose
  {
    [XmlDeclaration, UrlsetOpen] + HomeLines(baseUrl, today) + AllDocumentLines(baseUrl, docs) + [UrlsetClose]
  }

  /**
   * The sitemap text: its lines separated by newlines. It opens with the
   * declaration line and the `urlset` line, and ends with `</urlset>` with
   * no newline after it.
   */
  function SitemapXml(baseUrl: string, today: string, docs: seq<Document>): (r: string)
    ensures StartsWith(r, XmlDeclaration + "\n" + UrlsetOpen + "\n")
    ensures EndsWith(r, "\n" + UrlsetClose)
  {
    var lines := SitemapLines(baseUrl, today, docs);
    var head := [XmlDeclaration, UrlsetOpen];
    var rest := lines[2..];
    assert lines == head + rest;
    assert head == [XmlDeclaration] + [UrlsetOpen];
    JoinSnoc([XmlDeclaration], UrlsetOpen, "\n");
    JoinAppend(head, rest, "\n");
    assert Join(lines, "\n") == XmlDeclaration + "\n" + UrlsetOpen + "\n" + Join(rest, "\n");
    var init := lines[..|lines| - 1];
    assert lines == init + [UrlsetClose];
    JoinSnoc(init, UrlsetClose, "\n");
    Join(lines, "\n")
  }

  /** Where a document's record sits: in the document part, record `i` takes lines `6 * i` to `6 * i + 5`. */
  lemma {:induction false} DocumentRecordLayout(baseUrl: string, docs: seq<Document>, i: int)
    requires 0 <= i < |docs|
    ensures AllDocumentLines(baseUrl, docs)[6 * i .. 6 * i + 6] == DocumentLines(baseUrl, docs[i])
    decreases |docs|
  {
    var init := docs[..|docs| - 1];
    var front := AllDocumentLines(baseUrl, init);
    var r := AllDocumentLines(baseUrl, docs);
    assert r == front + DocumentLines(baseUrl, docs[|docs| - 1]);
    if i < |docs| - 1 {
      DocumentRecordLayout(baseUrl, init, i);
      assert init[i] == docs[i];
      assert r[6 * i .. 6 * i + 6] == front[6 * i .. 6 * i + 6];
    } else {
      assert r[6 * i .. 6 * i + 6] == r[|front|..];
    }
  }

  /**
   * The page holds exactly `1 + |docs|` records between the `urlset` lines:
   * the home record first, carrying today's date, then each document's
   * record in input order, with its hash-routed location and its date.
   */
  lemma SitemapRecords(baseUrl: string, today: string, docs: seq<Document>, r: seq<string>)
    requires r == SitemapLines(baseUrl, today, docs)
    ensures |r| == 2 + 6 * (1 + |docs|) + 1
    ensures r[2..8] == RecordLines(HomeLoc(baseUrl), today, "weekly", "1.0")
    ensures forall i :: 0 <= i < |docs| ==>
              r[8 + 6 * i .. 14 + 6 * i] == RecordLines(DocumentLoc(baseUrl, docs[i].slug), docs[i].metadata.date, "monthly", "0.8")
  {
    var head := [XmlDeclaration, UrlsetOpen] + HomeLines(baseUrl, today);
    var body := AllDocumentLines(baseUrl, docs);
    assert r == head + body + [UrlsetClose];
    assert r[2..8] == head[2..8];
    forall i | 0 <= i < |docs|
      ensures r[8 + 6 * i .. 14 + 6 * i] == RecordLines(DocumentLoc(baseUrl, docs[i].slug), docs[i].metadata.date, "monthly", "0.8")
    {
      DocumentRecordLayout(baseUrl, docs, i);
      assert r[8 + 6 * i .. 14 + 6 * i] == body[6 * i .. 6 * i + 6];
    }
  }

  /** Appends the lines of one record, each with its newline, as the page's six `xml +=` do. */
  method AppendRecord(xml0: string, ghost lines0: seq<string>, loc: string, lastmod: string, changefreq: string,
                      priority: string) returns (xml: string)
    requires xml0 == Terminated(lines0)
    ensures xml == Terminated(lines0 + RecordLines(loc, lastmod, changefreq, priority))
  {
    ghost var lines := lines0;
    TerminatedSnoc(lines, UrlOpenLine);
    xml := xml0 + UrlOpenLine + "\n";
    lines := lines + [UrlOpenLine];
    TerminatedSnoc(lines, ElementLine("loc", loc));
    xml := xml + ElementLine("loc", loc) + "\n";
    lines := lines + [ElementLine("loc", loc)];
    TerminatedSnoc(lines, ElementLine("lastmod", lastmod));
    xml := xml + ElementLine("lastmod", lastmod) + "\n";
    lines := lines + [ElementLine("lastmod", lastmod)];
    TerminatedSnoc(lines, ElementLine("changefreq", changefreq));
    xml := xml + ElementLine("changefreq", changefreq) + "\n";
    lines := lines + [ElementLine("changefreq", changefreq)];
    TerminatedSnoc(lines, ElementLine("priority", priority));
    xml := xml + ElementLine("priority", priority) + "\n";
    lines := lines + [ElementLine("priority", priority)];
    TerminatedSnoc(lines, UrlCloseLine);
    xml := xml + UrlCloseLine + "\n";
    lines := lines + [UrlCloseLine];
    assert lines == lines0 + RecordLines(loc, lastmod, changefreq, priority);
  }

  lemma AllDocumentLinesStep(baseUrl: string, docs: seq<Document>, i: nat)
    requires i < |docs|
    ensures AllDocumentLines(baseUrl, docs[..i + 1]) == AllDocumentLines(baseUrl, docs[..i]) + DocumentLines(baseUrl, docs[i])
  {
    assert docs[..i + 1][..i] == docs[..i];
  }

  lemma HeaderTerminated()
    ensures Terminated([XmlDeclaration, UrlsetOpen]) == XmlDeclaration + "\n" + UrlsetOpen + "\n"
  {
    TerminatedSnoc([], XmlDeclaration);
    TerminatedSnoc([XmlDeclaration], UrlsetOpen);
    assert [XmlDeclaration] + [UrlsetOpen] == [XmlDeclaration, UrlsetOpen];
  }

  /** Appending the closing tag, with no newline, to every earlier line terminated gives the page. */
  lemma ClosedSitemap(baseUrl: string, today: string, docs: seq<Document>, lines: seq<string>)
    requires lines == [XmlDeclaration, UrlsetOpen] + HomeLines(baseUrl, today) + AllDocumentLines(baseUrl, docs)
    ensures Terminated(lines) + UrlsetClose == SitemapXml(baseUrl, today, docs)
  {
    TerminatedThenLast(lines, UrlsetClose);
    assert lines + [UrlsetClose] == SitemapLines(baseUrl, today, docs);
  }

  /**
   * `generateSitemapXml`: the text it accumulates is `SitemapXml` of the
   * base URL, today's date (the date part of `now`) and the documents.
   */
  method GenerateSitemapXml(baseUrl: string, now: string, docs: seq<Document>) returns (xml: string)
    ensures xml == SitemapXml(baseUrl, DatePart(now), docs)
  {
    xml := XmlDeclaration + "\n";
    xml := xml + UrlsetOpen + "\n";
    HeaderTerminated();
    ghost var lines: seq<string> := [XmlDeclaration, UrlsetOpen];

    var today := DatePart(now);
    xml := AppendRecord(xml, lines, HomeLoc(baseUrl), today, "weekly", "1.0");
    lines := lines + HomeLines(baseUrl, today);
    ghost var head := lines;

    for i := 0 to |docs|
      invariant lines == head + AllDocumentLines(baseUrl, docs[..i])
      invariant xml == Terminated(lines)
    {
      var doc := docs[i];
      xml := AppendRecord(xml, lines, DocumentLoc(baseUrl, doc.slug), doc.metadata.date, "monthly", "0.8");
      AllDocumentLinesStep(baseUrl, docs, i);
      lines := lines + DocumentLines(baseUrl, doc);
    }
    assert docs[..|docs|] == docs;
    ClosedSitemap(baseUrl, today, docs, lines);
    xml := xml + UrlsetClose;
  }
}
