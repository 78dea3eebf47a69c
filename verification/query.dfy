/**
 * The filesystem queries and mutations of the browser
 * (com/yoclabo/filesystem/query/Query.py).
 *
 * The filesystem is a map from paths to nodes.  A path is a sequence of
 * components, as pathlib's `parts` gives them: an absolute path starts with
 * the anchor "/".  Reads are functions of the map; the operations that
 * change the disk are methods of `FileSystem`, each specified by a
 * function that computes the error it raises (if any) and the new map.
 */
module Query {
  import opened Strings
  import Base64

  type Path = seq<string>

  datatype Node = Dir | File(data: seq<byte>)

  /** The kinds `get_type` tells apart. */
  datatype Kind = Directory | HiddenFile | Text | Image | Pdf | Media | Other

  /** The string `get_type` returns for each kind. */
  function KindName(k: Kind): string {
    match k
    case Directory => "directory"
    case HiddenFile => "hidden_file"
    case Text => "text"
    case Image => "image"
    case Pdf => "pdf"
    case Media => "media"
    case Other => "other"
  }

  /** The exceptions the operating system raises for the calls the module makes. */
  datatype IoError = FileNotFound | IsADirectory | NotADirectory

  datatype Result<+T> = Ok(value: T) | Err(error: IoError)

  /**
   * pathlib's `parent`: the path without its last component.  Taken only of
   * a path of two or more components; pathlib's parent of a bare anchor or
   * of a single relative component is not needed by the model.
   */
  function Parent(p: Path): Path
    requires |p| >= 2
  {
    p[..|p| - 1]
  }

  /** pathlib's `name`: the last component, and "" for the bare anchor or the empty path. */
  function Name(p: Path): string {
    if |p| == 0 || p == ["/"] then "" else p[|p| - 1]
  }

  /**
   * pathlib's `suffix`: from the last dot to the end, provided that dot is
   * neither the first nor the last character of the name.
   */
  function Suffix(name: string): string {
    var i := LastIndexOf(name, '.');
    if 0 < i < |name| - 1 then name[i..] else ""
  }

  /** A suffix is empty, or a dot and at least one more character ending the name, and shorter than the name. */
  lemma SuffixShape(name: string)
    ensures var r := Suffix(name);
      r == "" || (r[0] == '.' && |r| >= 2 && EndsWith(name, r) && |r| < |name|)
  {
  }

  predicate IsDir(nodes: map<Path, Node>, p: Path) {
    p in nodes && nodes[p].Dir?
  }

  predicate IsFile(nodes: map<Path, Node>, p: Path) {
    p in nodes && nodes[p].File?
  }

  // ---------------------------------------------------------------------
  // get_type

  /**
   * `get_type`: the first of these that applies decides the kind: a
   * directory; a name starting with a dot; then the exact, case-sensitive
   * suffix, tested against `SuffixChecks` in order.
   */
  function GetType(nodes: map<Path, Node>, p: Path): (k: Kind)
    ensures k == Directory <==> IsDir(nodes, p)
  {
    if IsDir(nodes, p) then Directory
    else if StartsWith(Name(p), ".") then HiddenFile
    else
      LookupGivesListedKind(Suffix(Name(p)), SuffixChecks);
      LookupSuffix(Suffix(Name(p)), SuffixChecks)
  }

  /** A chain of suffix tests: each gives its kind to the suffixes it lists; `Fallback` gives Other. */
  datatype SuffixChain = Fallback | Check(suffixes: set<string>, kind: Kind, next: SuffixChain)

  /** The suffixes `get_type` recognises, by kind. */
  const TextSuffixes: set<string> := {".txt", ".text"}
  const ImageSuffixes: set<string> := {".jpg", ".jpeg", ".png", ".gif"}
  const PdfSuffixes: set<string> := {".pdf"}
  const MediaSuffixes: set<string> := {".mp4", ".mp3", ".m4a", ".flv", ".wmv"}

  /** The suffix tests of `get_type`, in the order it makes them. */
  const SuffixChecks: SuffixChain :=
    Check(TextSuffixes, Text, Check(ImageSuffixes, Image, Check(PdfSuffixes, Pdf, Check(MediaSuffixes, Media, Fallback))))

  /** The kind given by the first test in the chain that lists `suffix`, or Other. */
  function LookupSuffix(suffix: string, chain: SuffixChain): Kind {
    match chain
    case Fallback => Other
    case Check(ss, k, next) => if suffix in ss then k else LookupSuffix(suffix, next)
  }

  /** The suffixes the chain's tests list. */
  function Suffixes(chain: SuffixChain): set<string> {
    match chain
    case Fallback => {}
    case Check(ss, _, next) => ss + Suffixes(next)
  }

  /** The kinds the chain's tests give. */
  function Kinds(chain: SuffixChain): set<Kind> {
    match chain
    case Fallback => {}
    case Check(_, k, next) => {k} + Kinds(next)
  }

  /** A lookup gives Other or a kind one of the tests gives. */
  lemma {:induction false} LookupGivesListedKind(suffix: string, chain: SuffixChain)
    ensures LookupSuffix(suffix, chain) == Other || LookupSuffix(suffix, chain) in Kinds(chain)
  {
    match chain
    case Fallback =>
    case Check(ss, _, next) =>
      if suffix !in ss {
        LookupGivesListedKind(suffix, next);
      }
  }

  /** A suffix none of the tests lists gives Other. */
  lemma {:induction false} LookupMissing(suffix: string, chain: SuffixChain)
    requires suffix !in Suffixes(chain)
    ensures LookupSuffix(suffix, chain) == Other
  {
    match chain
    case Fallback =>
    case Check(_, _, next) => LookupMissing(suffix, next);
  }

  /**
   * A non-directory whose name starts with a dot is hidden whatever its
   * suffix, and only a name with a suffix is text, image, pdf or media.
   */
  lemma GetTypeOrder(nodes: map<Path, Node>, p: Path)
    ensures !IsDir(nodes, p) && StartsWith(Name(p), ".") ==> GetType(nodes, p) == HiddenFile
    ensures GetType(nodes, p) in {Text, Image, Pdf, Media} ==> Suffix(Name(p)) != ""
  {
    if !IsDir(nodes, p) && !StartsWith(Name(p), ".") && Suffix(Name(p)) == "" {
      LookupMissing("", SuffixChecks);
    }
  }

  /**
   * For a file whose name does not start with a dot, the suffix alone
   * decides: each recognised suffix gives its kind, and any other gives Other.
   */
  lemma GetTypeFollowsSuffixTable(nodes: map<Path, Node>, p: Path)
    requires !IsDir(nodes, p) && !StartsWith(Name(p), ".")
    ensures Suffix(Name(p)) in TextSuffixes ==> GetType(nodes, p) == Text
    ensures Suffix(Name(p)) in ImageSuffixes ==> GetType(nodes, p) == Image
    ensures Suffix(Name(p)) in PdfSuffixes ==> GetType(nodes, p) == Pdf
    ensures Suffix(Name(p)) in MediaSuffixes ==> GetType(nodes, p) == Media
    ensures Suffix(Name(p)) !in TextSuffixes + ImageSuffixes + PdfSuffixes + MediaSuffixes ==> GetType(nodes, p) == Other
  {
    var suffix := Suffix(Name(p));
    var c1 := SuffixChecks.next;
    var c2 := c1.next;
    var c3 := c2.next;
    if suffix !in TextSuffixes {
      assert LookupSuffix(suffix, SuffixChecks) == LookupSuffix(suffix, c1);
      if suffix !in ImageSuffixes {
        assert LookupSuffix(suffix, c1) == LookupSuffix(suffix, c2);
        if suffix !in PdfSuffixes {
          assert LookupSuffix(suffix, c2) == LookupSuffix(suffix, c3);
          if suffix !in MediaSuffixes {
            assert LookupSuffix(suffix, c3) == LookupSuffix(suffix, Fallback);
          }
        }
      }
    }
  }

  /** A name ending in ".txt" that does not start with a dot is a text file. */
  lemma TxtNameIsText(nodes: map<Path, Node>, p: Path)
    requires !IsDir(nodes, p) && EndsWith(Name(p), ".txt") && !StartsWith(Name(p), ".")
    ensures GetType(nodes, p) == Text
  {
    var name := Name(p);
    var n := |name|;
    assert name[n - 4..] == ".txt";
    assert name[n - 4] == '.' && name[n - 3] == 't' && name[n - 2] == 'x' && name[n - 1] == 't';
    var i := LastIndexOf(name, '.');
    LastIndexOfIsLast(name, '.');
    assert i == n - 4;
    assert name[..1] == [name[0]];
    assert Suffix(name) == ".txt";
  }

  /** The suffix test is exact: an upper-case extension is not recognised. */
  lemma UpperCaseSuffixIsOther(nodes: map<Path, Node>, p: Path)
    requires !IsDir(nodes, p) && Name(p) == "photo.JPG"
    ensures GetType(nodes, p) == Other
  {
    var name := Name(p);
    assert name[5] == '.' && name[6] == 'J' && name[7] == 'P' && name[8] == 'G';
    LastIndexOfIsLast(name, '.');
    assert LastIndexOf(name, '.') == 5;
    assert Suffix(name) == ".JPG";
    assert name[..1] == "p";
    LookupMissing(".JPG", SuffixChecks);
  }

  // ---------------------------------------------------------------------
  // get_path_from_root_directory

  /** `os.path.join(a, b)` on POSIX: an absolute `b` replaces `a`. */
  function JoinPath(a: string, b: string): string {
    if StartsWith(b, "/") then b
    else if a == "" || EndsWith(a, "/") then a + b
    else a + "/" + b
  }

  /** `get_path_from_root_directory`: drop one leading "/" from the id and join it onto the root. */
  function GetPathFromRootDirectory(root: string, id: string): (r: string)
    ensures !StartsWith(id, "//") && root != "" && !EndsWith(root, "/") ==>
      r == root + "/" + (if StartsWith(id, "/") then id[1..] else id)
    ensures StartsWith(id, "//") ==> r == id[1..]
  {
    if StartsWith(id, "/") then JoinPath(root, id[1..]) else JoinPath(root, id)
  }

  /** pathlib's parsing of a string: split on "/", dropping empty and "." components. */
  function ParsePath(s: string): Path {
    var parts := Proper(Split(s, '/'));
    if StartsWith(s, "/") then ["/"] + parts else parts
  }

  function Proper(parts: seq<string>): seq<string>
    decreases |parts|
  {
    if |parts| == 0 then []
    else if parts[0] == "" || parts[0] == "." then Proper(parts[1..])
    else [parts[0]] + Proper(parts[1..])
  }

  /** `str(path)` for a pathlib path. */
  function PathString(p: Path): string {
    if |p| == 0 then "."
    else if p[0] == "/" then "/" + Join(p[1..], "/")
    else Join(p, "/")
  }

  // ---------------------------------------------------------------------
  // query_ancestors

  /**
   * `query_ancestors`: the chain of paths from the root (or from a
   * single-component path, when the walk never meets the root) down to `p`.
   */
  function QueryAncestors(root: Path, p: Path): (r: seq<Path>)
    requires |p| >= 1
    ensures |r| >= 1 && r[|r| - 1] == p
    ensures r[0] == root || |r[0]| == 1
    ensures forall i :: 1 <= i < |r| ==> |r[i]| >= 2 && r[i - 1] == Parent(r[i])
    decreases |p|
  {
    if p == root then [p]
    else if |p| == 1 then [p]
    else QueryAncestors(root, Parent(p)) + [p]
  }

  /**
   * For a path strictly below the root, the chain starts at the root and
   * holds every prefix of the path from the root on, one per level.
   */
  lemma {:induction false} AncestorsBelowRoot(root: Path, p: Path)
    requires |root| >= 1 && |root| < |p| && p[..|root|] == root
    ensures |QueryAncestors(root, p)| == |p| - |root| + 1
    ensures QueryAncestors(root, p)[0] == root
    ensures forall i :: 0 <= i < |p| - |root| + 1 ==> QueryAncestors(root, p)[i] == p[..|root| + i]
    decreases |p|
  {
    var q := Parent(p);
    assert |p| != |root|;
    var r := QueryAncestors(root, p);
    var rq := QueryAncestors(root, q);
    assert r == rq + [p];
    if |q| == |root| {
      assert q == root;
      assert rq == [q];
    } else {
      assert q[..|root|] == root;
      AncestorsBelowRoot(root, q);
    }
    assert |rq| == |q| - |root| + 1;
    forall i | 0 <= i < |p| - |root| + 1
      ensures r[i] == p[..|root| + i]
    {
      if i < |p| - |root| {
        assert r[i] == rq[i];
        assert rq[i] == q[..|root| + i];
        assert q[..|root| + i] == p[..|root| + i];
      }
    }
  }

  /**
   * For a path that the root is not a prefix of, the walk goes up to the
   * first component: one element per component.
   */
  lemma {:induction false} AncestorsOutsideRoot(root: Path, p: Path)
    requires |p| >= 1 && !(|root| <= |p| && p[..|root|] == root)
    ensures |QueryAncestors(root, p)| == |p|
    ensures QueryAncestors(root, p)[0] == p[..1]
    decreases |p|
  {
    if |p| > 1 {
      var q := Parent(p);
      assert |root| <= |q| ==> p[..|root|] == q[..|root|];
      AncestorsOutsideRoot(root, q);
      assert q[..1] == p[..1];
    } else {
      assert p == p[..1];
    }
  }

  // ---------------------------------------------------------------------
  // query_children

  /** Whether `query_children`'s first pass (`dirs`) or second pass keeps `p`. */
  predicate Selected(nodes: map<Path, Node>, p: Path, dirs: bool) {
    if dirs then IsDir(nodes, p) else IsFile(nodes, p)
  }

  /** The entries of a listing one pass keeps, in listing order. */
  function Entries(nodes: map<Path, Node>, listing: seq<Path>, dirs: bool): (r: seq<Path>)
    ensures |r| <= |listing|
    ensures forall x :: x in r <==> x in listing && Selected(nodes, x, dirs)
    decreases |listing|
  {
    if |listing| == 0 then []
    else
      var last := listing[|listing| - 1];
      Entries(nodes, listing[..|listing| - 1], dirs) + (if Selected(nodes, last, dirs) then [last] else [])
  }

  /** `query_children`'s result: the directories of the listing, then its regular files. */
  function Children(nodes: map<Path, Node>, listing: seq<Path>): seq<Path> {
    Entries(nodes, listing, true) + Entries(nodes, listing, false)
  }

  /**
   * One `for` loop of `query_children`: walks the listing and appends to
   * `acc` each path the pass keeps (`isdir` when `dirs`, else `isfile`).
   */
  method AppendPass(nodes: map<Path, Node>, listing: seq<Path>, dirs: bool, acc: seq<Path>) returns (r: seq<Path>)
    ensures r == acc + Entries(nodes, listing, dirs)
  {
    r := acc;
    var i := 0;
    while i < |listing|
      invariant 0 <= i <= |listing|
      invariant r == acc + Entries(nodes, listing[..i], dirs)
    {
      assert listing[..i + 1][..i] == listing[..i];
      if Selected(nodes, listing[i], dirs) {
        r := r + [listing[i]];
      }
      i := i + 1;
    }
    assert listing[..i] == listing;
  }

  /**
   * `query_children`: two passes over the directory's listing (what
   * `iterdir` yields, given here as `listing`), directories first, then
   * files, appending to one list.
   */
  method QueryChildren(nodes: map<Path, Node>, dir: Path, listing: seq<Path>) returns (children: seq<Path>)
    requires ListingOf(nodes, dir, listing)
    ensures children == Children(nodes, listing)
    ensures |children| == |listing|
    ensures forall q :: q in children <==> q in nodes && IsEntryOf(dir, q)
  {
    children := AppendPass(nodes, listing, true, []);
    children := AppendPass(nodes, listing, false, children);
    ListedChildren(nodes, dir, listing);
  }

  /** Every directory of the result comes before every file. */
  lemma ChildrenDirectoriesFirst(nodes: map<Path, Node>, listing: seq<Path>, i: int, j: int)
    requires 0 <= i < |Children(nodes, listing)| && 0 <= j < |Children(nodes, listing)|
    requires IsDir(nodes, Children(nodes, listing)[i]) && IsFile(nodes, Children(nodes, listing)[j])
    ensures i < j
  {
    var d := Entries(nodes, listing, true);
    var f := Entries(nodes, listing, false);
    var c := Children(nodes, listing);
    forall k | 0 <= k < |c|
      ensures k < |d| <==> IsDir(nodes, c[k])
    {
      if k < |d| {
        assert c[k] == d[k] && d[k] in d;
      } else {
        assert c[k] == f[k - |d|] && f[k - |d|] in f;
      }
    }
  }

  /** A pass keeps the listing's order: filtering a concatenation concatenates the filtered parts. */
  lemma {:induction false} EntriesKeepOrder(nodes: map<Path, Node>, l1: seq<Path>, l2: seq<Path>, dirs: bool)
    ensures Entries(nodes, l1 + l2, dirs) == Entries(nodes, l1, dirs) + Entries(nodes, l2, dirs)
    decreases |l2|
  {
    if |l2| == 0 {
      assert l1 + l2 == l1;
    } else {
      var init := l2[..|l2| - 1];
      var last := l2[|l2| - 1];
      var tail := if Selected(nodes, last, dirs) then [last] else [];
      assert (l1 + l2)[..|l1 + l2| - 1] == l1 + init;
      assert (l1 + l2)[|l1 + l2| - 1] == last;
      calc {
        Entries(nodes, l1 + l2, dirs);
        Entries(nodes, l1 + init, dirs) + tail;
        { EntriesKeepOrder(nodes, l1, init, dirs); }
        (Entries(nodes, l1, dirs) + Entries(nodes, init, dirs)) + tail;
        Entries(nodes, l1, dirs) + (Entries(nodes, init, dirs) + tail);
        Entries(nodes, l1, dirs) + Entries(nodes, l2, dirs);
      }
    }
  }

  /** Nothing is dropped when every listed entry is a directory or a regular file. */
  lemma {:induction false} ChildrenCount(nodes: map<Path, Node>, listing: seq<Path>)
    requires forall x :: x in listing ==> IsDir(nodes, x) || IsFile(nodes, x)
    ensures |Children(nodes, listing)| == |listing|
    decreases |listing|
  {
    if |listing| > 0 {
      var init := listing[..|listing| - 1];
      assert forall x :: x in init ==> x in listing;
      ChildrenCount(nodes, init);
    }
  }

  /** `q` lies directly inside `dir`. */
  predicate IsEntryOf(dir: Path, q: Path) {
    |q| == |dir| + 1 && q[..|dir|] == dir
  }

  /**
   * `listing` is what `dir.iterdir()` yields: `dir` is a directory, and the
   * listing holds each of its entries exactly once, in some order.
   */
  ghost predicate ListingOf(nodes: map<Path, Node>, dir: Path, listing: seq<Path>) {
    && IsDir(nodes, dir)
    && (forall i, j :: 0 <= i < j < |listing| ==> listing[i] != listing[j])
    && (forall q :: q in listing <==> q in nodes && IsEntryOf(dir, q))
  }

  /** The children of a directory are exactly its entries, and none of them is dropped. */
  lemma ListedChildren(nodes: map<Path, Node>, dir: Path, listing: seq<Path>)
    requires ListingOf(nodes, dir, listing)
    ensures |Children(nodes, listing)| == |listing|
    ensures forall q :: q in Children(nodes, listing) <==> q in nodes && IsEntryOf(dir, q)
  {
    assert forall x :: x in listing ==> IsDir(nodes, x) || IsFile(nodes, x);
    ChildrenCount(nodes, listing);
  }

  // ---------------------------------------------------------------------
  // Reads

  /**
   * The error the operating system raises when it cannot reach `p`: it
   * walks the directories above `p` from the top, and the first one that is
   * not a directory decides, ENOTDIR for a file there and ENOENT otherwise.
   * The walk starts at the first component; the empty prefix is not checked.
   */
  function MissingError(nodes: map<Path, Node>, p: Path): IoError {
    WalkError(nodes, p, 1)
  }

  /** The walk of `MissingError` from the prefix of length `k` on. */
  function WalkError(nodes: map<Path, Node>, p: Path, k: nat): (e: IoError)
    ensures e != IsADirectory
    decreases |p| - k
  {
    if k >= |p| then FileNotFound
    else if IsFile(nodes, p[..k]) then NotADirectory
    else if !IsDir(nodes, p[..k]) then FileNotFound
    else WalkError(nodes, p, k + 1)
  }

  /**
   * The walk from `k` gives NotADirectory exactly when some prefix of `p`
   * from length `k` on, short of `p` itself, is a file and every shorter
   * one it passes is a directory.
   */
  lemma {:induction false} WalkErrorFindsFile(nodes: map<Path, Node>, p: Path, k: nat)
    ensures WalkError(nodes, p, k) == NotADirectory <==>
      exists i :: k <= i < |p| && IsFile(nodes, p[..i]) && forall j :: k <= j < i ==> IsDir(nodes, p[..j])
    decreases |p| - k
  {
    if k < |p| && !IsFile(nodes, p[..k]) && IsDir(nodes, p[..k]) {
      WalkErrorFindsFile(nodes, p, k + 1);
      if WalkError(nodes, p, k + 1) == NotADirectory {
        var i :| k + 1 <= i < |p| && IsFile(nodes, p[..i]) && forall j :: k + 1 <= j < i ==> IsDir(nodes, p[..j]);
        assert forall j :: k <= j < i ==> IsDir(nodes, p[..j]);
      }
    } else if k < |p| && !IsFile(nodes, p[..k]) {
      forall i | k < i < |p| && IsFile(nodes, p[..i])
        ensures !forall j :: k <= j < i ==> IsDir(nodes, p[..j])
      {
        assert k <= k < i && !IsDir(nodes, p[..k]);
      }
    } else if k < |p| {
      assert k <= k < |p| && IsFile(nodes, p[..k]);
    }
  }

  /** In a tree, every directory above a node is in the map. */
  lemma {:induction false} TreeAncestorsAreDirs(nodes: map<Path, Node>, p: Path, i: nat)
    requires Tree(nodes) && i <= |p| && p[..i] in nodes
    ensures forall j :: 1 <= j < i ==> IsDir(nodes, p[..j])
    decreases i
  {
    if i > 1 {
      assert ParentIsDir(nodes, p[..i]);
      assert Parent(p[..i]) == p[..i - 1];
      TreeAncestorsAreDirs(nodes, p, i - 1);
    }
  }

  /**
   * In a tree, a path that cannot be reached gives NotADirectory exactly
   * when a file sits somewhere above it, and FileNotFound otherwise.
   */
  lemma MissingErrorInTree(nodes: map<Path, Node>, p: Path)
    requires Tree(nodes)
    ensures MissingError(nodes, p) == NotADirectory <==> exists i :: 1 <= i < |p| && IsFile(nodes, p[..i])
    ensures MissingError(nodes, p) == FileNotFound <==> forall i :: 1 <= i < |p| ==> !IsFile(nodes, p[..i])
  {
    WalkErrorFindsFile(nodes, p, 1);
    if exists i :: 1 <= i < |p| && IsFile(nodes, p[..i]) {
      var i :| 1 <= i < |p| && IsFile(nodes, p[..i]);
      TreeAncestorsAreDirs(nodes, p, i);
    }
  }

  /** A file two levels above the target: `open` and `os.mkdir` raise NotADirectory, not FileNotFound. */
  lemma FileAboveParentIsNotADirectory()
    ensures var nodes := map[["/"] := Dir, ["/", "a"] := Dir, ["/", "a", "f"] := File([])];
      var p := ["/", "a", "f", "x", "y"];
      ReadFile(nodes, p) == Err(NotADirectory) && MkdirStep(nodes, p).error == Some(NotADirectory)
  {
    var nodes := map[["/"] := Dir, ["/", "a"] := Dir, ["/", "a", "f"] := File([])];
    var p := ["/", "a", "f", "x", "y"];
    assert p[..1] == ["/"] && p[..2] == ["/", "a"] && p[..3] == ["/", "a", "f"];
    assert p !in nodes && Parent(p) !in nodes;
  }

  /** `get_image_bytearray`: `open(path, 'rb').read()`. */
  function ReadFile(nodes: map<Path, Node>, p: Path): (r: Result<seq<byte>>)
    ensures r.Ok? <==> IsFile(nodes, p)
    ensures r.Ok? ==> r.value == nodes[p].data
    ensures IsDir(nodes, p) ==> r == Err(IsADirectory)
  {
    if p !in nodes then Err(MissingError(nodes, p))
    else if nodes[p].Dir? then Err(IsADirectory)
    else Ok(nodes[p].data)
  }

  /** The prefix `get_web_encoded_image` puts before the encoded octets, whatever the image format. */
  const DataUriPrefix: string := "data:image/jpeg;base64,"

  /** `get_web_encoded_image`: a data URI holding the file's octets in base 64. */
  function GetWebEncodedImage(nodes: map<Path, Node>, p: Path): Result<string> {
    match ReadFile(nodes, p)
    case Ok(data) => Ok(DataUriPrefix + Base64.Encode(data))
    case Err(e) => Err(e)
  }

  /**
   * The data URI of a file is the fixed prefix followed by text that
   * decodes to exactly the file's octets; anything else fails as the read does.
   */
  lemma WebEncodedImageRoundTrip(nodes: map<Path, Node>, p: Path)
    ensures IsFile(nodes, p) ==>
      GetWebEncodedImage(nodes, p).Ok? &&
      StartsWith(GetWebEncodedImage(nodes, p).value, DataUriPrefix) &&
      Base64.Decode(GetWebEncodedImage(nodes, p).value[|DataUriPrefix|..]) == Some(nodes[p].data)
    ensures !IsFile(nodes, p) ==> GetWebEncodedImage(nodes, p) == Err(ReadFile(nodes, p).error)
  {
    if IsFile(nodes, p) {
      var s := GetWebEncodedImage(nodes, p).value;
      assert s == DataUriPrefix + Base64.Encode(nodes[p].data);
      assert s[..|DataUriPrefix|] == DataUriPrefix;
      assert s[|DataUriPrefix|..] == Base64.Encode(nodes[p].data);
      Base64.DecodeEncode(nodes[p].data);
    }
  }

  // ---------------------------------------------------------------------
  // Mutations

  /** Whether the directory that would hold `p` exists (a top-level path always has one). */
  predicate ParentIsDir(nodes: map<Path, Node>, p: Path) {
    |p| <= 1 || IsDir(nodes, Parent(p))
  }

  /** A well-formed tree: every node below the top level sits in a directory of the map. */
  ghost predicate Tree(nodes: map<Path, Node>) {
    forall p :: p in nodes ==> ParentIsDir(nodes, p)
  }

  /** What an operation raised (if anything) and the map it leaves. */
  datatype Step = Step(error: Option<IoError>, nodes: map<Path, Node>)

  /** `create_directory`: nothing when the path exists, else `os.mkdir`, which fails without a parent directory. */
  function MkdirStep(nodes: map<Path, Node>, p: Path): Step {
    if p in nodes then Step(None, nodes)
    else if !ParentIsDir(nodes, p) then Step(Some(MissingError(nodes, p)), nodes)
    else Step(None, nodes[p := Dir])
  }

  /**
   * `create_directory` leaves the map unchanged or adds exactly one
   * directory, at `p`, and changes no other node; it fails only when the
   * path is absent and has no parent directory.
   */
  lemma MkdirAddsOneDirectory(nodes: map<Path, Node>, p: Path)
    ensures MkdirStep(nodes, p).nodes.Keys == nodes.Keys + (if MkdirStep(nodes, p).error.None? then {p} else {})
    ensures forall q :: q in nodes ==> MkdirStep(nodes, p).nodes[q] == nodes[q]
    ensures MkdirStep(nodes, p).error.None? <==> (p in nodes || ParentIsDir(nodes, p))
    ensures p !in nodes && MkdirStep(nodes, p).error.None? ==> IsDir(MkdirStep(nodes, p).nodes, p)
  {
  }

  /** Creating the same directory twice is the same as creating it once. */
  lemma MkdirIdempotent(nodes: map<Path, Node>, p: Path)
    ensures MkdirStep(MkdirStep(nodes, p).nodes, p).nodes == MkdirStep(nodes, p).nodes
  {
  }

  lemma MkdirKeepsTree(nodes: map<Path, Node>, p: Path)
    requires Tree(nodes)
    ensures Tree(MkdirStep(nodes, p).nodes)
  {
    var after := MkdirStep(nodes, p).nodes;
    forall q | q in after
      ensures ParentIsDir(after, q)
    {
      if q != p {
        assert ParentIsDir(nodes, q);
      }
    }
  }

  /**
   * `update_text_content`: nothing for a directory; otherwise `open(path,
   * 'w')` truncates or creates the file and writes the content in the
   * platform's text encoding (`encode`), failing without a parent directory.
   */
  function WriteTextStep(nodes: map<Path, Node>, p: Path, content: string, encode: string -> seq<byte>): Step {
    if IsDir(nodes, p) then Step(None, nodes)
    else if !ParentIsDir(nodes, p) then Step(Some(MissingError(nodes, p)), nodes)
    else Step(None, nodes[p := File(encode(content))])
  }

  /**
   * A successful write that was not refused on a directory leaves exactly
   * the new content at `p`; no other path changes either way.
   */
  lemma WriteTextOverwrites(nodes: map<Path, Node>, p: Path, content: string, encode: string -> seq<byte>)
    ensures IsDir(nodes, p) ==> WriteTextStep(nodes, p, content, encode) == Step(None, nodes)
    ensures !IsDir(nodes, p) && ParentIsDir(nodes, p) ==>
      WriteTextStep(nodes, p, content, encode).error.None? &&
      WriteTextStep(nodes, p, content, encode).nodes[p] == File(encode(content))
    ensures forall q :: q != p && q in nodes ==>
      q in WriteTextStep(nodes, p, content, encode).nodes && WriteTextStep(nodes, p, content, encode).nodes[q] == nodes[q]
    ensures WriteTextStep(nodes, p, content, encode).nodes.Keys <= nodes.Keys + {p}
  {
  }

  /**
   * `get_text_content`: `open(path).read()`, the file's octets read back
   * as text in the platform's text encoding (`decode`, which also stands
   * for the newline translation of text mode).
   */
  function GetTextContent(nodes: map<Path, Node>, p: Path, decode: seq<byte> -> string): (r: Result<string>)
    ensures r.Ok? <==> IsFile(nodes, p)
    ensures r.Err? ==> r.error == ReadFile(nodes, p).error
  {
    match ReadFile(nodes, p)
    case Ok(data) => Ok(decode(data))
    case Err(e) => Err(e)
  }

  /**
   * Text written by `update_text_content` reads back unchanged through
   * `get_text_content` whenever the encoding round-trips it.
   */
  lemma WriteThenRead(nodes: map<Path, Node>, p: Path, content: string, encode: string -> seq<byte>, decode: seq<byte> -> string)
    requires !IsDir(nodes, p) && ParentIsDir(nodes, p) && decode(encode(content)) == content
    ensures GetTextContent(WriteTextStep(nodes, p, content, encode).nodes, p, decode) == Ok(content)
  {
  }

  /** Writing twice is the same as writing the second content once: the file is overwritten, not appended to. */
  lemma LastWriteWins(nodes: map<Path, Node>, p: Path, c1: string, c2: string, encode: string -> seq<byte>)
    ensures WriteTextStep(WriteTextStep(nodes, p, c1, encode).nodes, p, c2, encode) == WriteTextStep(nodes, p, c2, encode)
  {
  }

  lemma WriteTextKeepsTree(nodes: map<Path, Node>, p: Path, content: string, encode: string -> seq<byte>)
    requires Tree(nodes)
    ensures Tree(WriteTextStep(nodes, p, content, encode).nodes)
  {
    var after := WriteTextStep(nodes, p, content, encode).nodes;
    forall q | q in after
      ensures ParentIsDir(after, q)
    {
      if q != p {
        assert ParentIsDir(nodes, q);
        if |q| > 1 && Parent(q) == p {
          assert IsDir(nodes, p);
        }
      }
    }
  }

  /** A single path component: a name with no separator. */
  predicate IsPlainName(name: string) {
    name != "" && name != "." && name != ".." && '/' !in name
  }

  /**
   * `copy_file_to_static`: the target `<static>/<name>` is removed first if
   * it exists (which fails for a directory), then the source is copied
   * there (which fails for a missing source or a directory, after the
   * removal has happened).
   */
  function CopyStep(nodes: map<Path, Node>, from: Path, staticDir: Path, name: string): Step
    requires IsPlainName(name)
  {
    var target := staticDir + [name];
    if IsDir(nodes, target) then Step(Some(IsADirectory), nodes)
    else
      var removed := nodes - {target};
      match ReadFile(removed, from)
      case Err(e) => Step(Some(e), removed)
      case Ok(data) =>
        if !ParentIsDir(removed, target) then Step(Some(MissingError(removed, target)), removed)
        else Step(None, removed[target := File(data)])
  }

  /**
   * A copy that succeeds puts the source's octets at the target and changes
   * nothing else; a copy whose source is missing still loses the old target.
   */
  lemma CopyPublishesSource(nodes: map<Path, Node>, from: Path, staticDir: Path, name: string)
    requires IsPlainName(name) && |staticDir| >= 1
    ensures CopyStep(nodes, from, staticDir, name).error.None? ==>
      IsFile(nodes, from) &&
      CopyStep(nodes, from, staticDir, name).nodes == nodes[staticDir + [name] := nodes[from]]
    ensures IsFile(nodes, staticDir + [name]) && from != staticDir + [name] && from !in nodes ==>
      staticDir + [name] !in CopyStep(nodes, from, staticDir, name).nodes
    ensures IsFile(nodes, from) && from != staticDir + [name] && IsDir(nodes, staticDir) && !IsDir(nodes, staticDir + [name]) ==>
      CopyStep(nodes, from, staticDir, name).error.None?
  {
    var target := staticDir + [name];
    assert |target| > 1 && Parent(target) == staticDir;
  }

  lemma CopyKeepsTree(nodes: map<Path, Node>, from: Path, staticDir: Path, name: string)
    requires Tree(nodes) && IsPlainName(name)
    ensures Tree(CopyStep(nodes, from, staticDir, name).nodes)
  {
    var target := staticDir + [name];
    var after := CopyStep(nodes, from, staticDir, name).nodes;
    forall q | q in after
      ensures ParentIsDir(after, q)
    {
      if q != target {
        assert ParentIsDir(nodes, q);
        if |q| > 1 && Parent(q) == target {
          assert IsDir(nodes, target);
        }
      }
    }
  }

  /** The disk the module works on, which its mutating functions change in place. */
  class FileSystem {
    var nodes: map<Path, Node>

    ghost predicate Valid()
      reads this
    {
      Tree(nodes)
    }

    constructor (initial: map<Path, Node>)
      requires Tree(initial)
      ensures Valid() && nodes == initial
    {
      nodes := initial;
    }

    /** `create_directory`. */
    method CreateDirectory(p: Path) returns (error: Option<IoError>)
      requires Valid()
      modifies this
      ensures Valid()
      ensures Step(error, nodes) == MkdirStep(old(nodes), p)
    {
      MkdirKeepsTree(nodes, p);
      if p in nodes {
        return None;
      }
      if !ParentIsDir(nodes, p) {
        return Some(MissingError(nodes, p));
      }
      nodes := nodes[p := Dir];
      error := None;
    }

    /** `update_text_content`. */
    method UpdateTextContent(p: Path, content: string, encode: string -> seq<byte>) returns (error: Option<IoError>)
      requires Valid()
      modifies this
      ensures Valid()
      ensures Step(error, nodes) == WriteTextStep(old(nodes), p, content, encode)
    {
      WriteTextKeepsTree(nodes, p, content, encode);
      if IsDir(nodes, p) {
        return None;
      }
      if !ParentIsDir(nodes, p) {
        return Some(MissingError(nodes, p));
      }
      nodes := nodes[p := File(encode(content))];
      error := None;
    }

    /** `copy_file_to_static`, with the static directory given as a path. */
    method CopyFileToStatic(from: Path, staticDir: Path, name: string) returns (error: Option<IoError>)
      requires Valid() && IsPlainName(name)
      modifies this
      ensures Valid()
      ensures Step(error, nodes) == CopyStep(old(nodes), from, staticDir, name)
    {
      CopyKeepsTree(nodes, from, staticDir, name);
      var target := staticDir + [name];
      if target in nodes {
        if nodes[target].Dir? {
          return Some(IsADirectory);
        }
        nodes := nodes - {target};
      } else {
        assert nodes - {target} == nodes;
      }
      var read := ReadFile(nodes, from);
      if read.Err? {
        return Some(read.error);
      }
      if !ParentIsDir(nodes, target) {
        return Some(MissingError(nodes, target));
      }
      nodes := nodes[target := File(read.value)];
      error := None;
    }
  }
}
