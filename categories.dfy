/**
 * The `categoryGroups` computation of
 * `src/components/categories/categories.component.ts`: one group per
 * category, holding the documents of that category, the groups sorted by
 * name with `localeCompare`.
 *
 * `localeCompare` is host-defined; it is a parameter `cmp` here, of which
 * only what `Array.prototype.sort` needs is assumed: that `cmp(a, b) <= 0`
 * is a total preorder.
 */
module Categories {
  import opened Collections
  import opened Ordering
  import opened DocumentModel
  import opened DocumentCatalog

  datatype CategoryGroup = CategoryGroup(name: string, documents: seq<Document>)

  /** `docs.filter(doc => doc.metadata.category === category)`. */
  function InCategory(docs: seq<Document>, category: string): (r: seq<Document>)
    ensures IsSubseq(r, docs)
    ensures forall i :: 0 <= i < |r| ==> r[i].metadata.category == category
    ensures forall i :: 0 <= i < |docs| && docs[i].metadata.category == category ==> docs[i] in r
    ensures forall d :: multiset(r)[d] == if d.metadata.category == category then multiset(docs)[d] else 0
  {
    if docs == [] then []
    else
      var rest := InCategory(docs[1..], category);
      var inCategory := (d: Document) => d.metadata.category == category;
      FilterConsCounts(docs, rest, inCategory);
      FilterConsSubseq(docs, rest, inCategory(docs[0]));
      var r := if inCategory(docs[0]) then [docs[0]] + rest else rest;
      CountsFilter(r, docs, inCategory);
      r
  }

  /** `categories.map(category => ({name: category, documents: ...}))`, before sorting. */
  function Groups(docs: seq<Document>, categories: seq<string>): (r: seq<CategoryGroup>)
    ensures |r| == |categories|
    ensures forall i :: 0 <= i < |r| ==> r[i] == CategoryGroup(categories[i], InCategory(docs, categories[i]))
  {
    if categories == [] then []
    else [CategoryGroup(categories[0], InCategory(docs, categories[0]))] + Groups(docs, categories[1..])
  }

  /** What `sort` needs of a comparison function: `cmp(a, b) <= 0` is a total preorder. */
  ghost predicate ConsistentComparator(cmp: (string, string) -> int) {
    && (forall a, b :: cmp(a, b) <= 0 || cmp(b, a) <= 0)
    && (forall a, b, c :: cmp(a, b) <= 0 && cmp(b, c) <= 0 ==> cmp(a, c) <= 0)
  }

  /** The comparison `(a, b) => a.name.localeCompare(b.name)`, as "a may stay before b". */
  function NameOrder(cmp: (string, string) -> int): (CategoryGroup, CategoryGroup) -> bool {
    (a: CategoryGroup, b: CategoryGroup) => cmp(a.name, b.name) <= 0
  }

  lemma NameOrderTotalPreorder(cmp: (string, string) -> int)
    requires ConsistentComparator(cmp)
    ensures TotalPreorder(NameOrder(cmp))
  {
    var leq := NameOrder(cmp);
    forall a, b ensures leq(a, b) || leq(b, a) {
      assert cmp(a.name, b.name) <= 0 || cmp(b.name, a.name) <= 0;
    }
    forall a, b, c | leq(a, b) && leq(b, c) ensures leq(a, c) {
      assert cmp(a.name, b.name) <= 0 && cmp(b.name, c.name) <= 0;
    }
  }

  /**
   * `categoryGroups`: the groups of `Groups`, reordered, so there is exactly
   * one group per entry of `categories` (repeats included) and the names are
   * distinct when the categories are; a group holds the documents
   * of its category in their catalog order; the groups ascend by name, and
   * groups whose names `cmp` ties keep the order of `categories`, as the
   * stable `Array.prototype.sort` keeps them.
   */
  function CategoryGroups(docs: seq<Document>, categories: seq<string>, cmp: (string, string) -> int): (r: seq<CategoryGroup>)
    requires ConsistentComparator(cmp)
    ensures |r| == |categories|
    ensures multiset(r) == multiset(Groups(docs, categories))
    ensures forall c :: c in categories ==> exists i :: 0 <= i < |r| && r[i].name == c
    ensures forall i :: 0 <= i < |r| ==> r[i].name in categories
    ensures forall i :: 0 <= i < |r| ==> r[i].documents == InCategory(docs, r[i].name)
    ensures forall i :: 0 <= i < |r| ==> IsSubseq(r[i].documents, docs)
    ensures forall i, k :: 0 <= i < |r| && 0 <= k < |r[i].documents| ==> r[i].documents[k].metadata.category == r[i].name
    ensures NoDups(categories) ==> forall i, j :: 0 <= i < j < |r| ==> r[i].name != r[j].name
    ensures forall i, j :: 0 <= i < j < |r| ==> cmp(r[i].name, r[j].name) <= 0
    ensures forall g :: TiedWith(r, g, NameOrder(cmp)) == TiedWith(Groups(docs, categories), g, NameOrder(cmp))
  {
    var groups := Groups(docs, categories);
    var r := Sort(groups, NameOrder(cmp));
    NameOrderTotalPreorder(cmp);
    SortSorted(groups, NameOrder(cmp));
    forall g ensures TiedWith(r, g, NameOrder(cmp)) == TiedWith(groups, g, NameOrder(cmp)) {
      SortStable(groups, g, NameOrder(cmp));
    }
    SortedGroupsMembers(docs, categories, cmp, r);
    if NoDups(categories) then
      SortedGroupsDistinct(docs, categories, cmp, r);
      r
    else
      r
  }

  /** Each sorted group is one of the unsorted ones, and each category keeps its group. */
  lemma SortedGroupsMembers(docs: seq<Document>, categories: seq<string>, cmp: (string, string) -> int, r: seq<CategoryGroup>)
    requires r == Sort(Groups(docs, categories), NameOrder(cmp))
    ensures forall c :: c in categories ==> exists i :: 0 <= i < |r| && r[i].name == c
    ensures forall i :: 0 <= i < |r| ==> r[i].name in categories && r[i].documents == InCategory(docs, r[i].name)
  {
    var groups := Groups(docs, categories);
    SortMembers(groups, NameOrder(cmp));
    forall c | c in categories ensures exists i :: 0 <= i < |r| && r[i].name == c {
      var k :| 0 <= k < |categories| && categories[k] == c;
      assert groups[k] in r;
      var i :| 0 <= i < |r| && r[i] == groups[k];
      assert r[i].name == c;
    }
    forall i | 0 <= i < |r| ensures r[i].name in categories && r[i].documents == InCategory(docs, r[i].name) {
      assert r[i] in groups;
      var k :| 0 <= k < |groups| && groups[k] == r[i];
      assert r[i].name == categories[k];
    }
  }

  /** Distinct categories give groups with distinct names, whatever the sort did. */
  lemma SortedGroupsDistinct(docs: seq<Document>, categories: seq<string>, cmp: (string, string) -> int, r: seq<CategoryGroup>)
    requires r == Sort(Groups(docs, categories), NameOrder(cmp))
    requires NoDups(categories)
    ensures forall i, j :: 0 <= i < j < |r| ==> r[i].name != r[j].name
  {
    var groups := Groups(docs, categories);
    assert NoDups(groups);
    PermutationKeepsNoDups(groups, r);
    SortedGroupsMembers(docs, categories, cmp, r);
    forall i, j | 0 <= i < j < |r| ensures r[i].name != r[j].name {
      assert r[i] != r[j];
    }
  }

  /** How many documents the groups hold together. */
  function TotalSize(groups: seq<CategoryGroup>): nat {
    if groups == [] then 0 else |groups[0].documents| + TotalSize(groups[1..])
  }

  lemma {:induction false} TotalSizeAppend(a: seq<CategoryGroup>, b: seq<CategoryGroup>)
    ensures TotalSize(a + b) == TotalSize(a) + TotalSize(b)
  {
    if a == [] {
      assert a + b == b;
    } else {
      assert (a + b)[0] == a[0];
      assert (a + b)[1..] == a[1..] + b;
      TotalSizeAppend(a[1..], b);
    }
  }

  lemma {:induction false} TotalSizeInsert(x: CategoryGroup, s: seq<CategoryGroup>, leq: (CategoryGroup, CategoryGroup) -> bool)
    ensures TotalSize(Insert(x, s, leq)) == TotalSize(s) + |x.documents|
  {
    if s == [] || !leq(s[0], x) {
    } else {
      TotalSizeInsert(x, s[1..], leq);
    }
  }

  /** Sorting the groups moves them around but keeps every document. */
  lemma {:induction false} TotalSizeSort(s: seq<CategoryGroup>, leq: (CategoryGroup, CategoryGroup) -> bool)
    ensures TotalSize(Sort(s, leq)) == TotalSize(s)
  {
    if s != [] {
      var init, last := s[..|s| - 1], s[|s| - 1];
      TotalSizeSort(init, leq);
      TotalSizeInsert(last, Sort(init, leq), leq);
      assert s == init + [last];
      TotalSizeAppend(init, [last]);
      assert TotalSize([last]) == |last.documents| by {
        assert [last][1..] == [];
      }
    }
  }

  /** Adding a document to the front adds it to the one group of its category, if any. */
  lemma {:induction false} TotalSizeCons(d: Document, rest: seq<Document>, categories: seq<string>)
    requires NoDups(categories)
    ensures TotalSize(Groups([d] + rest, categories))
         == TotalSize(Groups(rest, categories)) + (if d.metadata.category in categories then 1 else 0)
  {
    if categories != [] {
      var c := categories[0];
      FirstNotInTail(categories);
      TotalSizeCons(d, rest, categories[1..]);
      InCategoryCons(d, rest, c);
      TotalSizeGroups([d] + rest, categories);
      TotalSizeGroups(rest, categories);
    }
  }

  lemma TotalSizeGroups(docs: seq<Document>, categories: seq<string>)
    requires categories != []
    ensures TotalSize(Groups(docs, categories)) == |InCategory(docs, categories[0])| + TotalSize(Groups(docs, categories[1..]))
  {
    var groups := Groups(docs, categories);
    assert groups[1..] == Groups(docs, categories[1..]);
    TotalSizeFirst(groups);
  }

  lemma InCategoryCons(d: Document, rest: seq<Document>, category: string)
    ensures |InCategory([d] + rest, category)| == |InCategory(rest, category)| + (if d.metadata.category == category then 1 else 0)
  {
    assert ([d] + rest)[0] == d;
    assert ([d] + rest)[1..] == rest;
  }

  lemma TotalSizeFirst(groups: seq<CategoryGroup>)
    requires groups != []
    ensures TotalSize(groups) == |groups[0].documents| + TotalSize(groups[1..])
  {
  }

  /** The number of documents whose category is among `categories`. */
  function Covered(docs: seq<Document>, categories: seq<string>): nat {
    if docs == [] then 0
    else (if docs[0].metadata.category in categories then 1 else 0) + Covered(docs[1..], categories)
  }

  lemma {:induction false} TotalSizeEmpty(categories: seq<string>)
    ensures TotalSize(Groups([], categories)) == 0
  {
    if categories != [] {
      TotalSizeEmpty(categories[1..]);
    }
  }

  /** Over distinct categories, the groups hold each covered document once. */
  lemma {:induction false} TotalSizeCovered(docs: seq<Document>, categories: seq<string>)
    requires NoDups(categories)
    ensures TotalSize(Groups(docs, categories)) == Covered(docs, categories)
  {
    if docs == [] {
      TotalSizeEmpty(categories);
    } else {
      assert docs == [docs[0]] + docs[1..];
      TotalSizeCons(docs[0], docs[1..], categories);
      TotalSizeCovered(docs[1..], categories);
    }
  }

  lemma {:induction false} CoveredAll(docs: seq<Document>, categories: seq<string>)
    requires forall k :: 0 <= k < |docs| ==> docs[k].metadata.category in categories
    ensures Covered(docs, categories) == |docs|
  {
    if docs != [] {
      CoveredAll(docs[1..], categories);
    }
  }

  /**
   * With the categories taken from the same documents (`getAllCategories`),
   * the groups partition the catalog: no group is empty, every document
   * lies in exactly one group, and the group sizes add up to the catalog size.
   */
  lemma GroupsPartitionCatalog(docs: seq<Document>, cmp: (string, string) -> int, r: seq<CategoryGroup>)
    requires ConsistentComparator(cmp)
    requires r == CategoryGroups(docs, AllCategories(docs), cmp)
    ensures TotalSize(r) == |docs|
    ensures forall i :: 0 <= i < |r| ==> r[i].documents != []
    ensures forall k :: 0 <= k < |docs| ==> exists i :: 0 <= i < |r| && docs[k] in r[i].documents
    ensures forall k, i, j :: (0 <= k < |docs| && 0 <= i < |r| && 0 <= j < |r|
                               && docs[k] in r[i].documents && docs[k] in r[j].documents) ==> i == j
  {
    GroupSizesAddUp(docs, cmp, r);
    GroupsNonEmpty(docs, cmp, r);
    GroupsCoverCatalog(docs, cmp, r);
    GroupsDisjoint(r);
  }

  lemma GroupSizesAddUp(docs: seq<Document>, cmp: (string, string) -> int, r: seq<CategoryGroup>)
    requires ConsistentComparator(cmp)
    requires r == CategoryGroups(docs, AllCategories(docs), cmp)
    ensures TotalSize(r) == |docs|
  {
    var categories := AllCategories(docs);
    var groups := Groups(docs, categories);
    assert r == Sort(groups, NameOrder(cmp));
    TotalSizeSort(groups, NameOrder(cmp));
    TotalSizeCovered(docs, categories);
    CoveredAll(docs, categories);
  }

  lemma GroupsNonEmpty(docs: seq<Document>, cmp: (string, string) -> int, r: seq<CategoryGroup>)
    requires ConsistentComparator(cmp)
    requires r == CategoryGroups(docs, AllCategories(docs), cmp)
    ensures forall i :: 0 <= i < |r| ==> r[i].documents != []
  {
    forall i | 0 <= i < |r| ensures r[i].documents != [] {
      var k :| 0 <= k < |docs| && docs[k].metadata.category == r[i].name;
      assert docs[k] in InCategory(docs, r[i].name);
    }
  }

  lemma GroupsCoverCatalog(docs: seq<Document>, cmp: (string, string) -> int, r: seq<CategoryGroup>)
    requires ConsistentComparator(cmp)
    requires r == CategoryGroups(docs, AllCategories(docs), cmp)
    ensures forall k :: 0 <= k < |docs| ==> exists i :: 0 <= i < |r| && docs[k] in r[i].documents
  {
    var categories := AllCategories(docs);
    forall k | 0 <= k < |docs| ensures exists i :: 0 <= i < |r| && docs[k] in r[i].documents {
      var c := docs[k].metadata.category;
      assert c in categories;
      var i :| 0 <= i < |r| && r[i].name == c;
      assert r[i].documents == InCategory(docs, c);
      assert docs[k] in InCategory(docs, c);
    }
  }

  /** Groups with distinct names cannot share a document. */
  lemma GroupsDisjoint(r: seq<CategoryGroup>)
    requires forall i, k :: 0 <= i < |r| && 0 <= k < |r[i].documents| ==> r[i].documents[k].metadata.category == r[i].name
    requires forall i, j :: 0 <= i < j < |r| ==> r[i].name != r[j].name
    ensures forall d, i, j :: (0 <= i < |r| && 0 <= j < |r| && d in r[i].documents && d in r[j].documents) ==> i == j
  {
    forall d, i, j | 0 <= i < |r| && 0 <= j < |r| && d in r[i].documents && d in r[j].documents
      ensures i == j
    {
      var a :| 0 <= a < |r[i].documents| && r[i].documents[a] == d;
      var b :| 0 <= b < |r[j].documents| && r[j].documents[b] == d;
      assert r[i].name == d.metadata.category == r[j].name;
    }
  }
}
