/**
 * `scripts/generate-manifest.mjs`: choose the document folders among the
 * entries of the documents directory, sort their names, and write them as
 * a JSON array followed by a newline.
 *
 * The directory listing and the existence test are inputs; `JSON.stringify`
 * of one string (quoting and escaping) is the parameter `quote`.
 */
module ManifestScript {
  import opened Collections
  import opened Text
  import opened Ordering

  /** One entry of `readdirSync(dir, { withFileTypes: true })`. */
  datatype DirEntry = DirEntry(name: string, isDirectory: bool)

  /**
   * The callback of the folder filter: an entry that is not a directory is
   * rejected, then a hidden one, and a remaining directory is kept exactly
   * when its `metadata.json` exists.
   */
  function IsDocumentFolder(entry: DirEntry, documentsDir: string, fileExists: string -> bool): (r: bool)
    ensures !entry.isDirectory ==> !r
    ensures StartsWith(entry.name, ".") ==> !r
    ensures entry.isDirectory && !StartsWith(entry.name, ".") ==>
              (r <==> fileExists(PathJoin(documentsDir, entry.name, "metadata.json")))
  {
    && entry.isDirectory
    && !StartsWith(entry.name, ".")
    && fileExists(PathJoin(documentsDir, entry.name, "metadata.json"))
  }

  /** `n` is the name of some document folder among `entries`. */
  predicate IsFolderName(entries: seq<DirEntry>, n: string, documentsDir: string, fileExists: string -> bool) {
    exists e :: e in entries && IsDocumentFolder(e, documentsDir, fileExists) && e.name == n
  }

  /**
   * `entries.filter(...)`: the document folders in listing order, each entry
   * kept as often as it occurs and no other entry kept.
   */
  function FolderEntries(entries: seq<DirEntry>, documentsDir: string, fileExists: string -> bool): (r: seq<DirEntry>)
    ensures IsSubseq(r, entries)
    ensures forall k :: 0 <= k < |r| ==> IsDocumentFolder(r[k], documentsDir, fileExists)
    ensures forall e :: multiset(r)[e] == if IsDocumentFolder(e, documentsDir, fileExists) then multiset(entries)[e] else 0
  {
    if entries == [] then []
    else
      var rest := FolderEntries(entries[1..], documentsDir, fileExists);
      var isFolder := e => IsDocumentFolder(e, documentsDir, fileExists);
      FilterConsCounts(entries, rest, isFolder);
      FilterConsSubseq(entries, rest, isFolder(entries[0]));
      var r := if isFolder(entries[0]) then [entries[0]] + rest else rest;
      CountsFilter(r, entries, isFolder);
      r
  }

  /** `.map(entry => entry.name)`. */
  function Names(entries: seq<DirEntry>): (r: seq<string>)
    ensures |r| == |entries|
    ensures forall k :: 0 <= k < |entries| ==> r[k] == entries[k].name
  {
    if entries == [] then [] else [entries[0].name] + Names(entries[1..])
  }

  /** Taking the names of a subsequence of entries gives a subsequence of their names. */
  lemma {:induction false} NamesSubseq(a: seq<DirEntry>, b: seq<DirEntry>)
    requires IsSubseq(a, b)
    ensures IsSubseq(Names(a), Names(b))
    decreases |b|
  {
    if a == [] {
    } else if a[0] == b[0] && IsSubseq(a[1..], b[1..]) {
      NamesSubseq(a[1..], b[1..]);
      assert Names(a)[1..] == Names(a[1..]);
      assert Names(b)[1..] == Names(b[1..]);
    } else {
      NamesSubseq(a, b[1..]);
      assert Names(b)[1..] == Names(b[1..]);
    }
  }

  /**
   * `entries.filter(...).map(entry => entry.name)`, before sorting: the
   * names of the document folders, in listing order, taken from the listing's
   * names; every name is a document folder's and none is missing.
   */
  function FolderNames(entries: seq<DirEntry>, documentsDir: string, fileExists: string -> bool): (r: seq<string>)
    ensures |r| == |FolderEntries(entries, documentsDir, fileExists)|
    ensures forall k :: 0 <= k < |r| ==> r[k] == FolderEntries(entries, documentsDir, fileExists)[k].name
    ensures IsSubseq(r, Names(entries))
    ensures forall k :: 0 <= k < |r| ==> IsFolderName(entries, r[k], documentsDir, fileExists)
    ensures forall e :: e in entries && IsDocumentFolder(e, documentsDir, fileExists) ==> e.name in r
  {
    var folders := FolderEntries(entries, documentsDir, fileExists);
    var r := Names(folders);
    NamesSubseq(folders, entries);
    SubseqMembers(folders, entries);
    assert forall k :: 0 <= k < |r| ==> IsFolderName(entries, r[k], documentsDir, fileExists) by {
      forall k | 0 <= k < |r| ensures IsFolderName(entries, r[k], documentsDir, fileExists) {
        assert folders[k] in folders;
      }
    }
    assert forall e :: e in entries && IsDocumentFolder(e, documentsDir, fileExists) ==> e.name in r by {
      forall e | e in entries && IsDocumentFolder(e, documentsDir, fileExists) ensures e.name in r {
        assert multiset(folders)[e] > 0;
        var k :| 0 <= k < |folders| && folders[k] == e;
        assert r[k] == e.name;
      }
    }
    r
  }

  /**
   * The slug list: every name in it is a document folder, no document folder
   * is missing, it is a permutation of the filtered names, and it ascends in
   * code-unit order.
   */
  function SelectSlugs(entries: seq<DirEntry>, documentsDir: string, fileExists: string -> bool): (r: seq<string>)
    ensures multiset(r) == multiset(FolderNames(entries, documentsDir, fileExists))
    ensures Sorted(r, LexLeq)
    ensures forall k :: 0 <= k < |r| ==> IsFolderName(entries, r[k], documentsDir, fileExists)
    ensures forall e :: e in entries && IsDocumentFolder(e, documentsDir, fileExists) ==> e.name in r
  {
    var names := FolderNames(entries, documentsDir, fileExists);
    LexLeqTotalOrder();
    SortSorted(names, LexLeq);
    var r := Sort(names, LexLeq);
    ReorderedNamesQualify(names, r, entries, documentsDir, fileExists);
    r
  }

  /** Reordering the filtered names keeps every name a document folder's and loses none. */
  lemma ReorderedNamesQualify(names: seq<string>, r: seq<string>, entries: seq<DirEntry>, documentsDir: string, fileExists: string -> bool)
    requires multiset(r) == multiset(names)
    requires forall k :: 0 <= k < |names| ==> IsFolderName(entries, names[k], documentsDir, fileExists)
    requires forall e :: e in entries && IsDocumentFolder(e, documentsDir, fileExists) ==> e.name in names
    ensures forall k :: 0 <= k < |r| ==> IsFolderName(entries, r[k], documentsDir, fileExists)
    ensures forall e :: e in entries && IsDocumentFolder(e, documentsDir, fileExists) ==> e.name in r
  {
    forall e | e in entries && IsDocumentFolder(e, documentsDir, fileExists) ensures e.name in r {
      assert e.name in multiset(names);
    }
    forall k | 0 <= k < |r| ensures IsFolderName(entries, r[k], documentsDir, fileExists) {
      assert r[k] in multiset(r);
      var j :| 0 <= j < |names| && names[j] == r[k];
    }
  }

  /** Each slug on its own line, indented by two spaces, as `JSON.stringify(.., null, 2)` lays out an array. */
  function Indented(items: seq<string>, quote: string -> string): (r: seq<string>)
    ensures |r| == |items|
  {
    if items == [] then [] else ["  " + quote(items[0])] + Indented(items[1..], quote)
  }

  /** `JSON.stringify(items, null, 2)` for an array of strings. */
  function StringifyArray(items: seq<string>, quote: string -> string): (r: string)
    ensures |r| >= 2 && r[0] == '[' && r[|r| - 1] == ']'
    ensures items == [] <==> r == "[]"
  {
    if items == [] then "[]"
    else "[\n" + Join(Indented(items, quote), ",\n") + "\n]"
  }

  /** The file content: the array text followed by exactly one newline. */
  function ManifestContent(slugs: seq<string>, quote: string -> string): (r: string)
    ensures |r| >= 3 && r[|r| - 1] == '\n' && r[|r| - 2] == ']'
    ensures r[..|r| - 1] == StringifyArray(slugs, quote)
    ensures slugs == [] ==> r == "[]\n"
  {
    StringifyArray(slugs, quote) + "\n"
  }

  /**
   * One run: a directory that cannot be listed ends the script with status
   * 1; otherwise the manifest is always written, after a warning when no
   * folder qualified.
   */
  datatype ManifestRun = Written(slugs: seq<string>, warned: bool, content: string) | Aborted(exitCode: int)

  function GenerateManifest(entries: Option<seq<DirEntry>>, documentsDir: string, fileExists: string -> bool,
                            quote: string -> string): (r: ManifestRun)
    ensures entries.None? <==> r.Aborted?
    ensures r.Aborted? ==> r.exitCode == 1
    ensures r.Written? ==> && r.slugs == SelectSlugs(entries.value, documentsDir, fileExists)
                           && r.warned == (r.slugs == [])
                           && r.content == ManifestContent(r.slugs, quote)
    ensures r.Written? && r.warned ==> r.content == "[]\n"
  {
    match entries
    case None => Aborted(1)
    case Some(es) =>
      var slugs := SelectSlugs(es, documentsDir, fileExists);
      Written(slugs, slugs == [], ManifestContent(slugs, quote))
  }
}
