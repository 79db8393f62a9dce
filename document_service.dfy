/**
 * The document catalog of `src/services/document.service.ts`: assembling
 * the catalog from the manifest and the per-document fetches, the cached
 * `allDocuments` list, and the queries the pages ask of it.
 *
 * Every `fetch` becomes a given `Response`; the asynchronous plumbing
 * (`Promise.all`, the observable and its replay cache) becomes one `Load`
 * step that stores the assembled list.
 */
module DocumentCatalog {
  import opened Collections
  import opened DocumentModel

  /**
   * What one `fetch` and the read of its body produced: the request failed
   * outright, or a response arrived with its `ok` flag and, when the body
   * could be read (`json()` / `text()`), that body.
   */
  datatype Response<T> = NetworkError | Response(ok: bool, body: Option<T>)

  /** A response that arrived, was `ok`, and whose body was read. */
  predicate Received<T>(r: Response<T>) {
    r.Response? && r.ok && r.body.Some?
  }

  /** The two fetches made for one slug: `metadata.json` and `document.html`. */
  datatype DocumentResponses = DocumentResponses(metadata: Response<DocumentMetadata>, html: Response<string>)

  function PdfUrl(slug: string): string {
    "/documents/" + slug + "/document.pdf"
  }

  /**
   * `fetchDocumentData`: either request failing, either status not ok, or
   * either body unreadable gives `undefined`; otherwise the document, whose
   * PDF lies next to its other files.
   */
  function FetchDocumentData(slug: string, responses: DocumentResponses): (r: Option<Document>)
    ensures r.Some? <==> Received(responses.metadata) && Received(responses.html)
    ensures r.Some? ==> && r.value.slug == slug
                        && r.value.metadata == responses.metadata.body.value
                        && r.value.htmlContent == responses.html.body.value
                        && r.value.pdfUrl == PdfUrl(slug)
                        && r.value.thumbnailUrl.None?
  {
    if responses.metadata.NetworkError? || responses.html.NetworkError? then None
    else if !responses.metadata.ok || !responses.html.ok then None
    else if responses.metadata.body.None? || responses.html.body.None? then None
    else Some(Document(slug, responses.metadata.body.value, responses.html.body.value, PdfUrl(slug), None))
  }

  /** Whether the slug's two fetches yield a document. */
  predicate Loads(slug: string, respond: string -> DocumentResponses) {
    FetchDocumentData(slug, respond(slug)).Some?
  }

  /** The manifest slugs whose documents load, in manifest order. */
  function LoadableSlugs(slugs: seq<string>, respond: string -> DocumentResponses): (r: seq<string>)
    ensures IsSubseq(r, slugs)
    ensures forall i :: 0 <= i < |r| ==> Loads(r[i], respond)
    ensures forall i :: 0 <= i < |slugs| && Loads(slugs[i], respond) ==> slugs[i] in r
    ensures forall s :: multiset(r)[s] == if Loads(s, respond) then multiset(slugs)[s] else 0
  {
    if slugs == [] then []
    else
      var rest := LoadableSlugs(slugs[1..], respond);
      var loads := s => Loads(s, respond);
      FilterConsCounts(slugs, rest, loads);
      FilterConsSubseq(slugs, rest, loads(slugs[0]));
      var r := if loads(slugs[0]) then [slugs[0]] + rest else rest;
      CountsFilter(r, slugs, loads);
      r
  }

  function Slugs(docs: seq<Document>): (r: seq<string>)
    ensures |r| == |docs|
    ensures forall i :: 0 <= i < |docs| ==> r[i] == docs[i].slug
  {
    if docs == [] then [] else [docs[0].slug] + Slugs(docs[1..])
  }

  /**
   * `Promise.all(slugs.map(fetchDocumentData))` followed by dropping the
   * `undefined` results.
   */
  function AssembleDocuments(slugs: seq<string>, respond: string -> DocumentResponses): (r: seq<Document>)
    ensures Slugs(r) == LoadableSlugs(slugs, respond)
    ensures forall i :: 0 <= i < |r| ==> FetchDocumentData(r[i].slug, respond(r[i].slug)) == Some(r[i])
  {
    if slugs == [] then []
    else
      var rest := AssembleDocuments(slugs[1..], respond);
      match FetchDocumentData(slugs[0], respond(slugs[0]))
      case Some(d) =>
        assert Slugs([d] + rest) == [d.slug] + Slugs(rest);
        [d] + rest
      case None => rest
  }

  /**
   * `fetchAllDocuments`: a manifest that cannot be fetched, is not ok, or
   * cannot be parsed gives the empty catalog; otherwise the documents of
   * the slugs that load, in manifest order, each with its derived PDF URL.
   */
  function FetchAllDocuments(manifest: Response<seq<string>>, respond: string -> DocumentResponses): (r: seq<Document>)
    ensures !Received(manifest) ==> r == []
    ensures Received(manifest) ==> Slugs(r) == LoadableSlugs(manifest.body.value, respond)
    ensures forall i :: 0 <= i < |r| ==> r[i].pdfUrl == PdfUrl(r[i].slug) && r[i].thumbnailUrl.None?
    ensures forall i :: 0 <= i < |r| ==> FetchDocumentData(r[i].slug, respond(r[i].slug)) == Some(r[i])
  {
    if !Received(manifest) then [] else AssembleDocuments(manifest.body.value, respond)
  }

  /** When every slug loads, the catalog lists exactly the manifest, in its order. */
  lemma {:induction false} EveryLoadKeepsManifest(slugs: seq<string>, respond: string -> DocumentResponses)
    requires forall i :: 0 <= i < |slugs| ==> Loads(slugs[i], respond)
    ensures LoadableSlugs(slugs, respond) == slugs
  {
    if slugs != [] {
      EveryLoadKeepsManifest(slugs[1..], respond);
      assert slugs == [slugs[0]] + slugs[1..];
    }
  }

  // ----- queries over a loaded list -----

  /** `docs.find(doc => doc.slug === slug)`. */
  function FindBySlug(docs: seq<Document>, slug: string): (r: Option<Document>)
    ensures r.None? <==> forall i :: 0 <= i < |docs| ==> docs[i].slug != slug
    ensures r.Some? ==> exists i :: && 0 <= i < |docs| && docs[i] == r.value && r.value.slug == slug
                                    && forall j :: 0 <= j < i ==> docs[j].slug != slug
  {
    if docs == [] then None
    else if docs[0].slug == slug then Some(docs[0])
    else
      var r := FindBySlug(docs[1..], slug);
      assert forall i :: 1 <= i < |docs| ==> docs[i] == docs[1..][i - 1];
      assert r.Some? ==> exists i :: && 1 <= i < |docs| && docs[i] == r.value && r.value.slug == slug
                                     && forall j :: 0 <= j < i ==> docs[j].slug != slug by {
        if r.Some? {
          var k :| && 0 <= k < |docs| - 1 && docs[1..][k] == r.value && r.value.slug == slug
                   && forall j :: 0 <= j < k ==> docs[1..][j].slug != slug;
          assert docs[k + 1] == r.value;
        }
      }
      r
  }

  /** `doc` has `current`'s category or at least one of its tags. */
  predicate SharesCategoryOrTag(doc: Document, current: Document) {
    || doc.metadata.category == current.metadata.category
    || exists t :: t in doc.metadata.tags && t in current.metadata.tags
  }

  /**
   * The filter condition of `getRelatedDocuments`: never a document with the
   * current slug; otherwise the same category suffices, and with another
   * category one shared tag is needed.
   */
  function IsRelated(doc: Document, current: Document): (r: bool)
    ensures doc.slug == current.slug ==> !r
    ensures doc.slug != current.slug && doc.metadata.category == current.metadata.category ==> r
    ensures doc.slug != current.slug && doc.metadata.category != current.metadata.category ==>
              (r <==> exists t :: t in doc.metadata.tags && t in current.metadata.tags)
  {
    doc.slug != current.slug && SharesCategoryOrTag(doc, current)
  }

  /** Relatedness is symmetric: if `a` would be suggested on `b`'s page, `b` would be on `a`'s. */
  lemma RelatedSymmetric(a: Document, b: Document)
    ensures IsRelated(a, b) <==> IsRelated(b, a)
  {
    if SharesCategoryOrTag(a, b) && a.metadata.category != b.metadata.category {
      var t :| t in a.metadata.tags && t in b.metadata.tags;
      assert t in b.metadata.tags && t in a.metadata.tags;
    }
  }

  /** The documents that pass the filter of `getRelatedDocuments`, in catalog order. */
  function RelatedCandidates(docs: seq<Document>, current: Document): (r: seq<Document>)
    ensures IsSubseq(r, docs)
    ensures forall i :: 0 <= i < |r| ==> IsRelated(r[i], current)
    ensures forall i :: 0 <= i < |docs| && IsRelated(docs[i], current) ==> docs[i] in r
    ensures forall d :: multiset(r)[d] == if IsRelated(d, current) then multiset(docs)[d] else 0
  {
    if docs == [] then []
    else
      var rest := RelatedCandidates(docs[1..], current);
      var related := d => IsRelated(d, current);
      FilterConsCounts(docs, rest, related);
      FilterConsSubseq(docs, rest, related(docs[0]));
      var r := if related(docs[0]) then [docs[0]] + rest else rest;
      CountsFilter(r, docs, related);
      r
  }

  const RelatedLimit := 3

  /**
   * `getRelatedDocuments`: the first three candidates. Never the current
   * document's slug, at most three, each sharing its category or a tag, in
   * catalog order; when fewer than three come back, no candidate was left out.
   */
  function RelatedDocuments(docs: seq<Document>, current: Document): (r: seq<Document>)
    ensures |r| <= RelatedLimit
    ensures forall i :: 0 <= i < |r| ==> r[i].slug != current.slug && SharesCategoryOrTag(r[i], current)
    ensures IsSubseq(r, docs)
    ensures r <= RelatedCandidates(docs, current)
    ensures |r| == if |RelatedCandidates(docs, current)| < RelatedLimit then |RelatedCandidates(docs, current)| else RelatedLimit
    ensures |r| < RelatedLimit ==> forall i :: 0 <= i < |docs| && IsRelated(docs[i], current) ==> docs[i] in r
  {
    var candidates := RelatedCandidates(docs, current);
    var n := if |candidates| < RelatedLimit then |candidates| else RelatedLimit;
    var r := candidates[..n];
    SubseqPrefix(candidates, docs, n);
    assert n == |candidates| ==> r == candidates;
    forall i | 0 <= i < |r| ensures r[i].slug != current.slug && SharesCategoryOrTag(r[i], current) {
      assert IsRelated(candidates[i], current);
    }
    r
  }

  /** `docs.map(doc => doc.metadata.category)`. */
  function CategoriesOf(docs: seq<Document>): (r: seq<string>)
    ensures |r| == |docs|
    ensures forall i :: 0 <= i < |docs| ==> r[i] == docs[i].metadata.category
  {
    if docs == [] then [] else [docs[0].metadata.category] + CategoriesOf(docs[1..])
  }

  /**
   * `docs.flatMap(doc => doc.metadata.tags)`: one document contributes its
   * own tag list, and `TagsOfAppend` shows that lists are laid end to end.
   */
  function TagsOf(docs: seq<Document>): (r: seq<string>)
    ensures forall t :: t in r <==> exists i :: 0 <= i < |docs| && t in docs[i].metadata.tags
    ensures docs == [] ==> r == []
    ensures |docs| == 1 ==> r == docs[0].metadata.tags
  {
    if docs == [] then []
    else
      var rest := TagsOf(docs[1..]);
      assert forall i :: 1 <= i < |docs| ==> docs[i] == docs[1..][i - 1];
      docs[0].metadata.tags + rest
  }

  /** Flattening a catalog made of two parts: the first part's tags, then the second's, repeats kept. */
  lemma {:induction false} TagsOfAppend(a: seq<Document>, b: seq<Document>)
    ensures TagsOf(a + b) == TagsOf(a) + TagsOf(b)
    decreases |a|
  {
    if a != [] {
      assert (a + b)[0] == a[0];
      assert (a + b)[1..] == a[1..] + b;
      TagsOfAppend(a[1..], b);
    } else {
      assert a + b == b;
    }
  }

  /**
   * `getAllCategories`: each category present in the catalog exactly once,
   * in the order of first appearance.
   */
  function AllCategories(docs: seq<Document>): (r: seq<string>)
    ensures NoDups(r)
    ensures forall c :: c in r <==> exists i :: 0 <= i < |docs| && docs[i].metadata.category == c
    ensures InFirstOccurrenceOrder(r, CategoriesOf(docs))
  {
    var all := CategoriesOf(docs);
    DistinctFirstOccurrenceOrder(all);
    var r := Distinct(all);
    assert forall c :: c in r <==> c in all by {
      forall c ensures c in r <==> c in all {
        if c in r { var k :| 0 <= k < |r| && r[k] == c; }
        if c in all { var k :| 0 <= k < |all| && all[k] == c; }
      }
    }
    r
  }

  /**
   * `getAllTags`: each tag of each document exactly once, in the order of
   * first appearance in the documents' tag lists taken in catalog order.
   */
  function AllTags(docs: seq<Document>): (r: seq<string>)
    ensures NoDups(r)
    ensures forall t :: t in r <==> exists i :: 0 <= i < |docs| && t in docs[i].metadata.tags
    ensures InFirstOccurrenceOrder(r, TagsOf(docs))
  {
    var all := TagsOf(docs);
    DistinctFirstOccurrenceOrder(all);
    var r := Distinct(all);
    assert forall t :: t in r <==> t in all by {
      forall t ensures t in r <==> t in all {
        if t in r { var k :| 0 <= k < |r| && r[k] == t; }
        if t in all { var k :| 0 <= k < |all| && all[k] == t; }
      }
    }
    r
  }

  /**
   * The service object. `allDocuments` is the list the `tap` stores once the
   * load has finished; `loaded` records that the shared, replayed load has
   * emitted, after which it is never repeated.
   */
  class DocumentService {
    var allDocuments: seq<Document>
    var loaded: bool

    ghost predicate Valid()
      reads this
    {
      !loaded ==> allDocuments == []
    }

    constructor ()
      ensures Valid() && !loaded && allDocuments == []
    {
      allDocuments := [];
      loaded := false;
    }

    /** The first subscription runs the load and stores its result; later ones replay it. */
    method Load(manifest: Response<seq<string>>, respond: string -> DocumentResponses)
      requires Valid()
      modifies this
      ensures Valid() && loaded
      ensures old(loaded) ==> allDocuments == old(allDocuments)
      ensures !old(loaded) ==> allDocuments == FetchAllDocuments(manifest, respond)
    {
      if !loaded {
        allDocuments := FetchAllDocuments(manifest, respond);
        loaded := true;
      }
    }

    /** `getDocumentBySlug`, answered once the loaded list has been emitted: the first document with that slug. */
    function GetDocumentBySlug(slug: string): (r: Option<Document>)
      reads this
      requires loaded
      ensures r.None? <==> forall i :: 0 <= i < |allDocuments| ==> allDocuments[i].slug != slug
      ensures r.Some? ==> exists i :: && 0 <= i < |allDocuments| && allDocuments[i] == r.value && r.value.slug == slug
                                      && forall j :: 0 <= j < i ==> allDocuments[j].slug != slug
    {
      FindBySlug(allDocuments, slug)
    }

    /** `getRelatedDocuments`, over whatever `allDocuments` holds when it is called. */
    function GetRelatedDocuments(currentDoc: Document): (r: seq<Document>)
      reads this
      requires Valid()
      ensures !loaded ==> r == []
      ensures |r| <= RelatedLimit
      ensures IsSubseq(r, allDocuments)
      ensures forall i :: 0 <= i < |r| ==> r[i] in allDocuments && IsRelated(r[i], currentDoc)
      ensures r <= RelatedCandidates(allDocuments, currentDoc)
      ensures |r| == if |RelatedCandidates(allDocuments, currentDoc)| < RelatedLimit
                     then |RelatedCandidates(allDocuments, currentDoc)| else RelatedLimit
      ensures |r| < RelatedLimit ==>
                forall i :: 0 <= i < |allDocuments| && IsRelated(allDocuments[i], currentDoc) ==> allDocuments[i] in r
    {
      var r := RelatedDocuments(allDocuments, currentDoc);
      SubseqMembers(r, allDocuments);
      r
    }

    /** `getAllCategories`: empty until loaded, then each category of the catalog once, first-seen first. */
    function GetAllCategories(): (r: seq<string>)
      reads this
      requires Valid()
      ensures !loaded ==> r == []
      ensures NoDups(r)
      ensures forall c :: c in r <==> exists i :: 0 <= i < |allDocuments| && allDocuments[i].metadata.category == c
      ensures InFirstOccurrenceOrder(r, CategoriesOf(allDocuments))
    {
      AllCategories(allDocuments)
    }

    /** `getAllTags`: empty until loaded, then each tag of the catalog once, first-seen first. */
    function GetAllTags(): (r: seq<string>)
      reads this
      requires Valid()
      ensures !loaded ==> r == []
      ensures NoDups(r)
      ensures forall t :: t in r <==> exists i :: 0 <= i < |allDocuments| && t in allDocuments[i].metadata.tags
      ensures InFirstOccurrenceOrder(r, TagsOf(allDocuments))
    {
      AllTags(allDocuments)
    }
  }
}
