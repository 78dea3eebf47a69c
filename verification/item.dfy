/**
 * The entries of the browser and the directory being browsed
 * (com/yoclabo/filesystem/item/Item.py, classes `Item` and `Directory`).
 *
 * The entries a listing or an ancestor chain holds are values (`Entry`);
 * the directory a request browses is a `Directory` object whose fields
 * `prepare_browse` fills step by step.  Page sizes, the slideshow interval
 * and the root directory are configuration passed in as a `Config`.
 */
module Item {
  import opened Strings
  import opened Query
  import Paginator

  /** Which class of the module an entry is an instance of. */
  datatype ItemClass = PlainItem | DirectoryItem | ImageItem | PdfItem | MediaItem

  /** An `Item`: its path, the kind `get_type` gives it, its name and its sequence number. */
  datatype Entry = Entry(path: Path, kind: Kind, name: string, sequence: int, cls: ItemClass)

  /** `Item.__init__` (and the subclasses' constructors, which add nothing the listing needs). */
  function MakeEntry(nodes: map<Path, Node>, p: Path, sequence: int, cls: ItemClass): Entry {
    Entry(p, GetType(nodes, p), Name(p), sequence, cls)
  }

  /** The root directory, the slideshow interval and the two page sizes, read from the environment by the source. */
  datatype Config = Config(rootDirectory: string, slideShowIntervalMs: int, itemsPerPage: int, tileItemsPerPage: int)

  /** The defaults the source falls back on when the environment sets nothing. */
  function DefaultConfig(rootDirectory: string): Config {
    Config(rootDirectory, 3000, 10, 30)
  }

  /** `Item.id`: the path with the root directory cut out, percent-encoded by `quote`. */
  function Id(p: Path, rootDirectory: string, quote: string -> string): string {
    quote(Replace(PathString(p), rootDirectory, ""))
  }

  // ---------------------------------------------------------------------
  // row_display_attributes

  const EvenRow: string := "bg-secondary bg-opacity-10"
  const OddRow: string := "border-top border-bottom"

  /** `Item.row_display_attributes`: the row style by the parity of the sequence number. */
  function RowDisplayAttributes(sequence: int): (r: string)
    ensures r == EvenRow <==> sequence % 2 == 0
    ensures r == OddRow <==> sequence % 2 != 0
  {
    if sequence % 2 == 0 then EvenRow else OddRow
  }

  /** Consecutive rows always differ in style, and the styles repeat every two rows. */
  lemma RowsAlternate(sequence: int)
    ensures RowDisplayAttributes(sequence) != RowDisplayAttributes(sequence + 1)
    ensures RowDisplayAttributes(sequence) == RowDisplayAttributes(sequence + 2)
  {
  }

  // ---------------------------------------------------------------------
  // max_page, prev_page, next_page

  /** `max_page`: 1 for an empty listing, otherwise the ceiling of count / pageSize. */
  function PageCount(count: nat, pageSize: int): (r: int)
    requires pageSize >= 1
    ensures r >= 1
    ensures count == 0 ==> r == 1
    ensures count > 0 ==> (r - 1) * pageSize < count <= r * pageSize
  {
    if 0 == count then 1
    else
      var q := (-(count as int)) / pageSize;
      assert q * pageSize <= -(count as int) < q * pageSize + pageSize;
      assert (-q) * pageSize == -(q * pageSize);
      assert (-q - 1) * pageSize == -(q * pageSize) - pageSize;
      -q
  }

  /** `prev_page`. */
  function PrevPageOf(page: int): int {
    if 1 < page then page - 1 else 1
  }

  /** `next_page`. */
  function NextPageOf(page: int, maxPage: int): int {
    if maxPage > page then page + 1 else maxPage
  }

  /**
   * For a page within range, Previous and Next stay within range, and each
   * leaves the page unchanged only at its own end; past the last page, Next
   * leads back to the last page.
   */
  lemma NeighbourPages(page: int, maxPage: int)
    ensures 1 <= page <= maxPage ==>
      1 <= PrevPageOf(page) <= page <= NextPageOf(page, maxPage) <= maxPage
    ensures PrevPageOf(page) == page <==> page == 1
    ensures page <= maxPage ==> (NextPageOf(page, maxPage) == page <==> page == maxPage)
    ensures page > maxPage ==> NextPageOf(page, maxPage) == maxPage
  {
  }

  /** Previous and Next move by exactly one page whenever they move at all. */
  lemma NeighbourStep(page: int, maxPage: int)
    ensures 1 < page ==> PrevPageOf(page) == page - 1
    ensures page < maxPage ==> NextPageOf(page, maxPage) == page + 1
  {
  }

  // ---------------------------------------------------------------------
  // slice

  /** Multiplying by a non-negative factor keeps the order. */
  lemma MulMonotone(c: int, a: int, b: int)
    requires c >= 0 && a <= b
    ensures c * a <= c * b
  {
    var d := b - a;
    assert c * b == c * a + c * d;
  }

  /** The index of the first entry of a page. */
  function PageStart(page: int, pageSize: int): int {
    pageSize * (page - 1)
  }

  /** The index after the last entry of a page: the start plus a page, cut at the end of the listing. */
  function PageEnd(count: nat, page: int, pageSize: int): int {
    var end := PageStart(page, pageSize) + pageSize;
    if count < end then count else end
  }

  /** The entries with an index in [start, end), none when that range is empty. */
  function Window<T>(info: seq<T>, start: nat, end: int): (r: seq<T>)
    requires end <= |info|
    ensures |r| == if start < end then end - start else 0
    ensures forall k :: 0 <= k < |r| ==> r[k] == info[start + k]
  {
    if start < end then info[start..end] else []
  }

  /** The entries `slice` appends for a page: indices from the page start up to the page end. */
  function PageSlice<T>(info: seq<T>, page: int, pageSize: int): (r: seq<T>)
    requires page >= 1 && pageSize >= 1
    ensures |r| <= pageSize
  {
    MulMonotone(pageSize, 0, page - 1);
    Window(info, PageStart(page, pageSize), PageEnd(|info|, page, pageSize))
  }

  /**
   * The slice holds exactly the entries whose index lies in
   * [pageSize*(page-1), min(pageSize*page, n)), in order, and nothing when
   * the page starts at or past the end of the listing.
   */
  lemma PageSliceIndices<T>(info: seq<T>, page: int, pageSize: int)
    requires page >= 1 && pageSize >= 1
    ensures PageStart(page, pageSize) >= |info| ==> PageSlice(info, page, pageSize) == []
    ensures PageStart(page, pageSize) < |info| ==>
      |PageSlice(info, page, pageSize)| == PageEnd(|info|, page, pageSize) - PageStart(page, pageSize)
    ensures forall k :: 0 <= k < |PageSlice(info, page, pageSize)| ==>
      PageStart(page, pageSize) + k < |info| &&
      PageSlice(info, page, pageSize)[k] == info[PageStart(page, pageSize) + k]
  {
    MulMonotone(pageSize, 0, page - 1);
  }

  /** The pages 1 to m, one after the other. */
  function FirstPages<T>(info: seq<T>, pageSize: int, m: nat): seq<T>
    requires pageSize >= 1
    decreases m
  {
    if m == 0 then [] else FirstPages(info, pageSize, m - 1) + PageSlice(info, m, pageSize)
  }

  lemma {:induction false} FirstPagesPrefix<T>(info: seq<T>, pageSize: int, m: nat)
    requires pageSize >= 1
    ensures FirstPages(info, pageSize, m) == info[..if pageSize * m < |info| then pageSize * m else |info|]
    decreases m
  {
    if m > 0 {
      FirstPagesPrefix(info, pageSize, m - 1);
      var start := pageSize * (m - 1);
      assert start == pageSize * m - pageSize;
      assert PageStart(m, pageSize) == start;
      assert start >= 0;
      var before := if start < |info| then start else |info|;
      var after := if pageSize * m < |info| then pageSize * m else |info|;
      assert info[..after] == info[..before] + info[before..after];
    }
  }

  /**
   * The pages 1 to `max_page` together are the whole listing, in order:
   * every entry is shown on exactly one page.
   */
  lemma PagesCoverListing<T>(info: seq<T>, pageSize: int)
    requires pageSize >= 1
    ensures FirstPages(info, pageSize, PageCount(|info|, pageSize)) == info
  {
    var m := PageCount(|info|, pageSize);
    FirstPagesPrefix(info, pageSize, m);
    if |info| == 0 {
      assert info[..0] == info;
    } else {
      assert info[..|info|] == info;
    }
  }

  /** For a non-empty listing, a page is non-empty exactly when it is at most `max_page`. */
  lemma PageNonEmptyInRange<T>(info: seq<T>, page: int, pageSize: int)
    requires page >= 1 && pageSize >= 1 && |info| > 0
    ensures PageSlice(info, page, pageSize) != [] <==> page <= PageCount(|info|, pageSize)
  {
    var m := PageCount(|info|, pageSize);
    var start := PageStart(page, pageSize);
    assert (m - 1) * pageSize < |info| <= m * pageSize;
    if page <= m {
      MulMonotone(pageSize, page - 1, m - 1);
      assert start < |info|;
      assert start < PageEnd(|info|, page, pageSize);
    } else {
      MulMonotone(pageSize, m, page - 1);
      assert start >= |info|;
    }
  }

  // ---------------------------------------------------------------------
  // cache_children_info

  /** The class `cache_children_info` instantiates for a kind: text, hidden and other files are plain items. */
  function ClassFor(k: Kind): (c: ItemClass)
    ensures c == PlainItem <==> k == Text || k == HiddenFile || k == Other
    ensures c == DirectoryItem <==> k == Directory
  {
    match k
    case Directory => DirectoryItem
    case Image => ImageItem
    case Pdf => PdfItem
    case Media => MediaItem
    case _ => PlainItem
  }

  /** The entry `cache_children_info` makes for the child numbered `number`. */
  function ChildEntry(nodes: map<Path, Node>, p: Path, number: int): Entry {
    MakeEntry(nodes, p, number, ClassFor(GetType(nodes, p)))
  }

  /** The entries `cache_children_info` appends: one per child, numbered from 1 in listing order. */
  function ClassifiedChildren(nodes: map<Path, Node>, children: seq<Path>): (r: seq<Entry>)
    ensures |r| == |children|
  {
    seq(|children|, i requires 0 <= i < |children| => ChildEntry(nodes, children[i], i + 1))
  }

  /**
   * The entry for the child at position `i` carries its path, its kind and
   * the number `i + 1`; it is a directory entry exactly for a directory, an
   * image, pdf or media entry exactly for that kind, and plain otherwise.
   */
  lemma ClassifiedEntry(nodes: map<Path, Node>, children: seq<Path>, i: int)
    requires 0 <= i < |children|
    ensures var e := ClassifiedChildren(nodes, children)[i];
      && e.path == children[i] && e.kind == GetType(nodes, children[i]) && e.sequence == i + 1
      && (e.cls == DirectoryItem <==> IsDir(nodes, children[i]))
      && (e.cls == ImageItem <==> e.kind == Image)
      && (e.cls == PdfItem <==> e.kind == Pdf)
      && (e.cls == MediaItem <==> e.kind == Media)
      && (e.cls == PlainItem <==> e.kind in {Text, HiddenFile, Other})
  {
  }

  /** Classifying one more child of a prefix appends its entry, numbered after the others. */
  lemma ClassifiedPrefix(nodes: map<Path, Node>, children: seq<Path>, i: int)
    requires 1 <= i <= |children|
    ensures ClassifiedChildren(nodes, children[..i])
      == ClassifiedChildren(nodes, children[..i - 1]) + [ChildEntry(nodes, children[i - 1], i)]
  {
    var longer := ClassifiedChildren(nodes, children[..i]);
    var shorter := ClassifiedChildren(nodes, children[..i - 1]);
    forall k | 0 <= k < i - 1
      ensures longer[k] == shorter[k]
    {
      assert children[..i][k] == children[..i - 1][k];
    }
  }

  /** The loop of `cache_children_info`: one entry per child, numbered from 1, classed by kind. */
  method Classify(nodes: map<Path, Node>, children: seq<Path>) returns (entries: seq<Entry>)
    ensures entries == ClassifiedChildren(nodes, children)
  {
    entries := [];
    var i := 1;
    while i <= |children|
      invariant 1 <= i <= |children| + 1
      invariant entries == ClassifiedChildren(nodes, children[..i - 1])
    {
      var child := children[i - 1];
      ClassifiedPrefix(nodes, children, i);
      entries := entries + [ChildEntry(nodes, child, i)];
      i := i + 1;
    }
    assert children[..i - 1] == children;
  }

  /** In a directory's listing every directory entry comes before every other entry. */
  lemma ListingDirectoriesFirst(nodes: map<Path, Node>, listing: seq<Path>, i: int, j: int)
    requires 0 <= i < |ClassifiedChildren(nodes, Children(nodes, listing))|
    requires 0 <= j < |ClassifiedChildren(nodes, Children(nodes, listing))|
    requires ClassifiedChildren(nodes, Children(nodes, listing))[i].cls == DirectoryItem
    requires ClassifiedChildren(nodes, Children(nodes, listing))[j].cls != DirectoryItem
    ensures i < j
  {
    ChildIsDirOrFile(nodes, listing, j);
    ChildrenDirectoriesFirst(nodes, listing, i, j);
  }

  /** Every child a listing yields is a directory or a file. */
  lemma ChildIsDirOrFile(nodes: map<Path, Node>, listing: seq<Path>, j: int)
    requires 0 <= j < |Children(nodes, listing)|
    ensures IsDir(nodes, Children(nodes, listing)[j]) || IsFile(nodes, Children(nodes, listing)[j])
  {
    var d := Entries(nodes, listing, true);
    var f := Entries(nodes, listing, false);
    if j < |d| {
      assert Children(nodes, listing)[j] == d[j] && d[j] in d;
    } else {
      assert Children(nodes, listing)[j] == f[j - |d|] && f[j - |d|] in f;
    }
  }

  /** The entries `fill_ancestors` appends: a plain item with sequence 0 for each path of the ancestor chain. */
  function AncestorEntries(nodes: map<Path, Node>, root: Path, p: Path): (r: seq<Entry>)
    requires |p| >= 1
  {
    var a := QueryAncestors(root, p);
    seq(|a|, i requires 0 <= i < |a| => MakeEntry(nodes, a[i], 0, PlainItem))
  }

  // ---------------------------------------------------------------------
  // create_directory, create_text_file

  /** The name `create_text_file` gives the file: ".txt" is appended unless already there. */
  function TextFileName(name: string): string {
    if EndsWith(name, ".txt") then name else name + ".txt"
  }

  /** The file name always ends in ".txt", starts with the given name, and is left alone when it already ends so. */
  lemma TextFileNameShape(name: string)
    ensures EndsWith(TextFileName(name), ".txt")
    ensures StartsWith(TextFileName(name), name)
    ensures EndsWith(name, ".txt") ==> TextFileName(name) == name
    ensures TextFileName(TextFileName(name)) == TextFileName(name)
  {
    var t := TextFileName(name);
    if !EndsWith(name, ".txt") {
      assert t[|t| - 4..] == ".txt";
      assert t[..|name|] == name;
    }
  }

  /** The path `Directory.create_directory` and `create_text_file` work on: the child `fileName` of the directory, located through its id. */
  function ChildPath(p: Path, rootDirectory: string, quote: string -> string, fileName: string): Path {
    ParsePath(JoinPath(GetPathFromRootDirectory(rootDirectory, Id(p, rootDirectory, quote)), fileName))
  }

  /** `Directory`: the directory a request browses or changes. */
  class Directory {
    const path: Path
    const kind: Kind
    const name: string
    const sequence: int
    const config: Config
    var ancestors: seq<Entry>
    var childrenInfo: seq<Entry>
    var children: seq<Entry>
    var page: int
    var pages: seq<Paginator.PageLink>
    var isTile: bool

    /** The page sizes are positive. */
    predicate Valid() {
      config.itemsPerPage >= 1 && config.tileItemsPerPage >= 1
    }

    constructor (nodes: map<Path, Node>, path: Path, sequence: int, config: Config)
      requires config.itemsPerPage >= 1 && config.tileItemsPerPage >= 1
      ensures Valid()
      ensures this.path == path && this.sequence == sequence && this.config == config
      ensures kind == GetType(nodes, path) && name == Name(path)
      ensures ancestors == [] && childrenInfo == [] && children == [] && pages == []
      ensures page == 0 && !isTile
    {
      this.path := path;
      this.kind := GetType(nodes, path);
      this.name := Name(path);
      this.sequence := sequence;
      this.config := config;
      ancestors := [];
      childrenInfo := [];
      children := [];
      page := 0;
      pages := [];
      isTile := false;
    }

    /** The page size in force: the tile size in tile mode. */
    function PageSize(): int
      reads this
    {
      if isTile then config.tileItemsPerPage else config.itemsPerPage
    }

    /** `max_page`. */
    function MaxPage(): int
      reads this
      requires Valid()
    {
      PageCount(|childrenInfo|, PageSize())
    }

    /** `prev_page`. */
    function PrevPage(): int
      reads this
    {
      PrevPageOf(page)
    }

    /** `next_page`. */
    function NextPage(): int
      reads this
      requires Valid()
    {
      NextPageOf(page, MaxPage())
    }

    /** `fill_ancestors`. */
    method FillAncestors(nodes: map<Path, Node>)
      requires |path| >= 1
      modifies this`ancestors
      ensures ancestors == old(ancestors) + AncestorEntries(nodes, ParsePath(config.rootDirectory), path)
    {
      var chain := QueryAncestors(ParsePath(config.rootDirectory), path);
      ghost var added := AncestorEntries(nodes, ParsePath(config.rootDirectory), path);
      var entries := [];
      var i := 0;
      while i < |chain|
        invariant 0 <= i <= |chain|
        invariant entries == added[..i]
      {
        entries := entries + [MakeEntry(nodes, chain[i], 0, PlainItem)];
        i := i + 1;
      }
      assert entries == added;
      ancestors := ancestors + entries;
    }

    /** `cache_children_info`: classifies the children of the directory and numbers them from 1. */
    method CacheChildrenInfo(nodes: map<Path, Node>, listing: seq<Path>)
      requires ListingOf(nodes, path, listing)
      modifies this`childrenInfo
      ensures childrenInfo == old(childrenInfo) + ClassifiedChildren(nodes, Children(nodes, listing))
      ensures |childrenInfo| == |old(childrenInfo)| + |listing|
    {
      var found := QueryChildren(nodes, path, listing);
      var entries := Classify(nodes, found);
      childrenInfo := childrenInfo + entries;
    }

    /** `slice`: appends the entries of the current page to `children`. */
    method Slice()
      requires Valid() && page >= 1
      modifies this`children
      ensures children == old(children) + PageSlice(childrenInfo, page, PageSize())
    {
      var size := if isTile then config.tileItemsPerPage else config.itemsPerPage;
      var start := size * (page - 1);
      var end := start + size;
      end := if |childrenInfo| < end then |childrenInfo| else end;
      MulMonotone(size, 0, page - 1);
      ghost var added := Window(childrenInfo, start, end);
      var visible := [];
      var i := start;
      while i < end
        invariant start <= i && (start < end ==> i <= end) && (start >= end ==> i == start)
        invariant visible == added[..i - start]
      {
        visible := visible + [childrenInfo[i]];
        i := i + 1;
      }
      assert visible == added;
      children := children + visible;
    }

    /** `prepare_browse`: fills the ancestors, the listing, the page links and the visible page. */
    method PrepareBrowse(nodes: map<Path, Node>, listing: seq<Path>, page: int, isTile: bool)
      requires Valid() && page >= 1 && |path| >= 1
      requires ListingOf(nodes, path, listing)
      modifies this`ancestors, this`page, this`isTile, this`childrenInfo, this`pages, this`children
      ensures ancestors == old(ancestors) + AncestorEntries(nodes, ParsePath(config.rootDirectory), path)
      ensures this.page == page && this.isTile == isTile
      ensures childrenInfo == old(childrenInfo) + ClassifiedChildren(nodes, Children(nodes, listing))
      ensures pages == Paginator.PageList(page, PrevPageOf(page), NextPageOf(page, MaxPage()), MaxPage())
      ensures children == old(children) + PageSlice(childrenInfo, page, PageSize())
    {
      FillAncestors(nodes);
      this.page := page;
      this.isTile := isTile;
      CacheChildrenInfo(nodes, listing);
      pages := Paginator.CreateList(page, PrevPage(), NextPage(), MaxPage());
      Slice();
    }

    /** `Directory.create_directory`: nothing for an empty name, else `create_directory` on the child path. */
    method CreateDirectory(fs: FileSystem, childName: string, quote: string -> string, validFilename: string -> string)
      returns (error: Option<IoError>)
      requires fs.Valid()
      modifies fs
      ensures fs.Valid()
      ensures childName == "" ==> error == None && fs.nodes == old(fs.nodes)
      ensures childName != "" ==>
        Step(error, fs.nodes) == MkdirStep(old(fs.nodes), ChildPath(path, config.rootDirectory, quote, validFilename(childName)))
    {
      if childName == "" {
        return None;
      }
      var target := ChildPath(path, config.rootDirectory, quote, validFilename(childName));
      error := fs.CreateDirectory(target);
    }

    /**
     * `Directory.create_text_file`: nothing for an empty name, else the
     * content is written to the child named by `TextFileName`.
     */
    method CreateTextFile(fs: FileSystem, childName: string, content: string, quote: string -> string,
                          validFilename: string -> string, encode: string -> seq<byte>)
      returns (error: Option<IoError>)
      requires fs.Valid()
      modifies fs
      ensures fs.Valid()
      ensures childName == "" ==> error == None && fs.nodes == old(fs.nodes)
      ensures childName != "" ==>
        Step(error, fs.nodes) == WriteTextStep(old(fs.nodes),
          ChildPath(path, config.rootDirectory, quote, validFilename(TextFileName(childName))), content, encode)
    {
      if childName == "" {
        return None;
      }
      var target := ChildPath(path, config.rootDirectory, quote, validFilename(TextFileName(childName)));
      error := fs.UpdateTextContent(target, content, encode);
    }
  }
}
