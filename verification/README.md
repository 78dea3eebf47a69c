# Filesystem browser — a Dafny model of its core

Filesystem-browser is a small Django web application that shows the files under one root directory. It lists a directory with its sub-directories first, in pages of 10 rows or 30 tiles. It shows text, images, PDFs and media files. It can create directories and text files.

This project models the parts of the application that decide what is shown and what changes on disk:

- **`Query`** (`query.dfy`): the file-system queries and mutations of `Query.py`, over a file system modelled as a map from pathlib-style paths to nodes.
  - Queries: `get_type`, `get_name`, `query_ancestors`, `query_children`, `get_path_from_root_directory`, `get_text_content`, reading an image and encoding it as a data URI.
  - Mutations: `create_directory`, `update_text_content`, `copy_file_to_static`. Each is a method of the `FileSystem` class, specified by a step function that returns the raised error (if any) and the new map.
- **`Base64`** (`base64.dfy`): the base 64 encoding of section 4 of RFC 4648, which `get_web_encoded_image` uses, with a decoder that proves the encoding loses nothing.
- **`Item`** (`item.dfy`): the `Item` entries and the `Directory` class of `Item.py`.
  - `Directory` covers the page arithmetic (`max_page`, `prev_page`, `next_page`), `cache_children_info`, `slice`, `prepare_browse`, `create_directory` and `create_text_file`.
  - Also in this module: `row_display_attributes`.
- **`Paginator`** (`paginator.dfy`): `Paginator.create_list`, its four layouts and `mark_current`.
- **`Router`** (`router.dfy`): how `FilesystemRouter.run` in `Router.py` picks a handler for a request.
- **`PdfViewer`** (`pdf.dfy`): the `PdfCanvas` page and rotation state of `static/pdf.mjs`.
- **`Strings`** (`strings.dfy`): the Python string operations the model needs.

## Modelling choices

- **Parameters.** These become parameters of the model:
  - the environment settings: the root directory, the slideshow interval, and the page sizes, which default to 3000, 10 and 30;
  - what `iterdir` yields for a directory (`listing`): exactly that directory's entries, each once, in an order the model leaves open;
  - Django's `get_valid_filename` and `urllib.parse.quote`;
  - the platform text encoding used by `open(path, 'w')` and `open(path)` (`encode` and `decode`).
- **Paths.** A path is the sequence of its pathlib parts. An absolute path starts with the anchor `"/"`.
  - `query_ancestors` compares `str(path)` with the root directory string. The model compares parsed paths, which agrees when the configured root is written in normal form (no trailing slash, no `.` or empty components).
- **Errors.** OS errors become values of `IoError`:
  - for a path whose parent directory cannot be reached, walking down from the top, the first path above it that is not a directory decides: `NotADirectoryError` when it is a file, `FileNotFoundError` when it is missing;
  - `IsADirectoryError` for reading, or removing, a directory.
- **Overwriting.** `Directory.create_text_file` overwrites an existing file, because `update_text_content` opens it with mode `'w'`.
- **Quirks kept as written.** Both are stated by lemmas:
  - the trailing "..." of the middle paging layout is built from `next_page`, so it leads to the current page + 4 and no link leads to the current page + 3 (`Paginator.MiddleWindowSkipsOnePage`);
  - `mark_current` flags every link that points at the current page, including Previous, Next and an ellipsis (`Paginator.PageListFrame`).

## Model

| member | source | states |
|---|---|---|
| Query.KindName | com/yoclabo/filesystem/query/Query.py:57-71 | the seven strings `get_type` returns, one per kind |
| Query.Name | com/yoclabo/filesystem/query/Query.py:81-82 | `get_name`: pathlib's name, the last component, and empty for the bare anchor |
| Query.Suffix | com/yoclabo/filesystem/query/Query.py:62-70 | pathlib's suffix: from the last dot of the name, unless that dot is its first or last character; its shape is stated by `Query.SuffixShape` |
| Query.IsDir | com/yoclabo/filesystem/query/Query.py:49 | `os.path.isdir`: the path is in the map as a directory |
| Query.IsFile | com/yoclabo/filesystem/query/Query.py:52 | `os.path.isfile`: the path is in the map as a file |
| Query.SuffixShape | com/yoclabo/filesystem/query/Query.py:62-70 | pathlib's suffix is empty, or a dot and at least one more character that end the name and are shorter than it |
| Query.GetType | com/yoclabo/filesystem/query/Query.py:57-71 | the kind is "directory" exactly for directories |
| Query.LookupSuffix | com/yoclabo/filesystem/query/Query.py:62-71 | the suffix tests in order: the kind of the first group that lists the suffix, else other |
| Query.GetTypeOrder | com/yoclabo/filesystem/query/Query.py:57-71 | a non-directory whose name starts with "." is a hidden file whatever its suffix; text, image, pdf and media need a non-empty suffix |
| Query.LookupGivesListedKind | com/yoclabo/filesystem/query/Query.py:62-71 | a chain of suffix tests gives other or one of the kinds it lists |
| Query.LookupMissing | com/yoclabo/filesystem/query/Query.py:62-71 | a suffix no test of the chain lists gives other |
| Query.GetTypeFollowsSuffixTable | com/yoclabo/filesystem/query/Query.py:62-71 | for a file whose name does not start with a dot: .txt and .text give text; .jpg, .jpeg, .png and .gif give image; .pdf gives pdf; .mp4, .mp3, .m4a, .flv and .wmv give media; every other suffix gives other |
| Query.TxtNameIsText | com/yoclabo/filesystem/query/Query.py:60-63 | a non-directory named like "x.txt", not starting with a dot, is text |
| Query.UpperCaseSuffixIsOther | com/yoclabo/filesystem/query/Query.py:62-71 | suffix comparison is case-sensitive: "photo.JPG" is other, not image |
| Query.JoinPath | com/yoclabo/filesystem/query/Query.py:32 | POSIX `os.path.join` of two strings: an absolute second part replaces the first, otherwise one "/" joins them |
| Query.ParsePath | com/yoclabo/filesystem/query/Query.py:36 | pathlib's `Path(s)`: the parts of s split on "/", without empty or "." parts, after the anchor "/" when s is absolute; a leading "//", which pathlib keeps as its own anchor, is read as "/", naming the same file on Linux |
| Query.PathString | com/yoclabo/filesystem/query/Query.py:36 | `str(path)`: the parts joined by "/" after the anchor, and "." for the empty path |
| Query.GetPathFromRootDirectory | com/yoclabo/filesystem/query/Query.py:31-32 | one leading "/" of the id is dropped and the rest is joined below the root; an id starting with "//" escapes the root and names an absolute path |
| Query.QueryAncestors | com/yoclabo/filesystem/query/Query.py:35-43 | the chain ends at the path itself, starts at the root or at a one-component path, and each element is the parent of the next |
| Query.AncestorsBelowRoot | com/yoclabo/filesystem/query/Query.py:35-43 | for a path below the root, the chain is the root followed by every longer prefix of the path, one per level |
| Query.AncestorsOutsideRoot | com/yoclabo/filesystem/query/Query.py:35-43 | for a path the root is not a prefix of, the chain has one element per component and starts at the first component |
| Query.Selected | com/yoclabo/filesystem/query/Query.py:48-53 | the test of each pass: `isdir` in the first, `isfile` in the second |
| Query.IsEntryOf | com/yoclabo/filesystem/query/Query.py:48 | a path lies directly inside a directory: one component longer, with the directory as prefix |
| Query.ListingOf | com/yoclabo/filesystem/query/Query.py:48-51 | what `path.iterdir()` yields: the path is a directory and the listing holds each of its entries exactly once |
| Query.Entries | com/yoclabo/filesystem/query/Query.py:48-53 | one pass of `query_children` keeps exactly the listed paths that are directories (or files), and no more than were listed |
| Query.Children | com/yoclabo/filesystem/query/Query.py:46-54 | the result of `query_children`: the directories of the listing, then its files |
| Query.AppendPass | com/yoclabo/filesystem/query/Query.py:48-53 | one loop appends to the list exactly the listed paths its pass keeps, in listing order |
| Query.QueryChildren | com/yoclabo/filesystem/query/Query.py:46-54 | for the listing of a directory, the two loops return its directories, then its files, each in listing order: exactly the directory's entries, one per listed path |
| Query.ListedChildren | com/yoclabo/filesystem/query/Query.py:46-54 | for a directory's listing, the children are exactly the directory's entries, as many as listed |
| Query.ChildrenDirectoriesFirst | com/yoclabo/filesystem/query/Query.py:46-54 | every directory among the children comes before every file |
| Query.EntriesKeepOrder | com/yoclabo/filesystem/query/Query.py:48-53 | a pass over two listings one after the other keeps the first's entries before the second's |
| Query.ChildrenCount | com/yoclabo/filesystem/query/Query.py:46-54 | when every listed path is a directory or a file, none is dropped: there are as many children as listed paths |
| Query.MissingError | com/yoclabo/filesystem/query/Query.py:101-102 | the error `open` (and `os.mkdir`) raises for a path it cannot reach: the first path above it that is not a directory decides |
| Query.WalkError | com/yoclabo/filesystem/query/Query.py:101-102 | the walk down the paths above the target, from the top; it never gives IsADirectory |
| Query.WalkErrorFindsFile | com/yoclabo/filesystem/query/Query.py:101-102 | the walk gives NotADirectory exactly when it meets a file before any missing path |
| Query.TreeAncestorsAreDirs | com/yoclabo/filesystem/query/Query.py:101-102 | in a well-formed tree, every path above a node is a directory |
| Query.MissingErrorInTree | com/yoclabo/filesystem/query/Query.py:101-102 | in a well-formed tree, NotADirectory exactly when a file sits somewhere above the path, FileNotFound exactly when none does |
| Query.FileAboveParentIsNotADirectory | com/yoclabo/filesystem/query/Query.py:74-102 | with a file two levels above the target, both a read and `create_directory` raise NotADirectory |
| Query.ReadFile | com/yoclabo/filesystem/query/Query.py:101-102 | a read succeeds exactly on a file and gives its octets; a directory raises IsADirectory |
| Base64.CharOf | com/yoclabo/filesystem/query/Query.py:98 | the alphabet of RFC 4648: A-Z, a-z, 0-9, "+" and "/" for the values 0 to 63 |
| Base64.ValueOf | com/yoclabo/filesystem/query/Query.py:98 | the value of an alphabet character, and -1 for any other |
| Base64.EncodeGroup | com/yoclabo/filesystem/query/Query.py:98 | three octets as four characters of six bits each, high bits first |
| Base64.Encode | com/yoclabo/filesystem/query/Query.py:98 | the encoding has four characters per started group of three octets |
| Base64.ValueOfCharOf | com/yoclabo/filesystem/query/Query.py:98 | each of the 64 values has a character of the alphabet that reads back as that value |
| Base64.EncodeAlphabet | com/yoclabo/filesystem/query/Query.py:98 | every character of the encoding is from the alphabet of RFC 4648 or the pad "=" |
| Base64.DecodeEncode | com/yoclabo/filesystem/query/Query.py:98 | decoding the base 64 text gives back exactly the encoded octets |
| Base64.Decode | com/yoclabo/filesystem/query/Query.py:98 | the reading of base 64 text back into octets that `Base64.DecodeEncode` proves inverse to the encoding |
| Query.GetWebEncodedImage | com/yoclabo/filesystem/query/Query.py:97-98 | the data URI: the fixed jpeg prefix and the base 64 text of the file, or the read's error |
| Query.WebEncodedImageRoundTrip | com/yoclabo/filesystem/query/Query.py:97-98 | the data URI of a file is "data:image/jpeg;base64," followed by text that decodes to the file's octets; otherwise the read's error is raised |
| Query.MkdirStep | com/yoclabo/filesystem/query/Query.py:74-78 | `create_directory`: nothing for an existing path, else `os.mkdir`, which fails when the parent is not a directory |
| Query.MkdirAddsOneDirectory | com/yoclabo/filesystem/query/Query.py:74-78 | `create_directory` leaves the map alone or adds exactly one directory at the path, and changes no other node; it fails exactly when the path is absent and its parent is not a directory |
| Query.MkdirIdempotent | com/yoclabo/filesystem/query/Query.py:74-78 | creating the same directory twice is the same as once |
| Query.MkdirKeepsTree | com/yoclabo/filesystem/query/Query.py:74-78 | every node still sits in a directory after `create_directory` |
| Query.WriteTextStep | com/yoclabo/filesystem/query/Query.py:89-94 | `update_text_content`: nothing for a directory, else the file is truncated or created and holds the encoded content, failing when the parent is not a directory |
| Query.GetTextContent | com/yoclabo/filesystem/query/Query.py:85-86 | `get_text_content` succeeds exactly on a file, with its decoded content, and fails as the read does otherwise |
| Query.WriteThenRead | com/yoclabo/filesystem/query/Query.py:85-94 | text written by `update_text_content` reads back unchanged whenever the encoding round-trips it |
| Query.WriteTextOverwrites | com/yoclabo/filesystem/query/Query.py:89-94 | a directory is left alone; otherwise, with an existing parent directory, the file holds exactly the encoded content; no other path changes |
| Query.LastWriteWins | com/yoclabo/filesystem/query/Query.py:89-94 | two writes leave what the second alone would: the file is truncated, not appended to |
| Query.WriteTextKeepsTree | com/yoclabo/filesystem/query/Query.py:89-94 | every node still sits in a directory after a write |
| Query.CopyStep | com/yoclabo/filesystem/query/Query.py:105-111 | `copy_file_to_static`: a directory target fails; otherwise the old target is removed, then the source is read and copied there, failing after the removal for a missing source |
| Query.CopyPublishesSource | com/yoclabo/filesystem/query/Query.py:105-111 | a successful copy puts the source's octets at static/name and changes nothing else; a missing source still costs the old target; a file copied into an existing static directory, onto anything but a directory, succeeds |
| Query.CopyKeepsTree | com/yoclabo/filesystem/query/Query.py:105-111 | every node still sits in a directory after a copy, whether it fails or not |
| Query.FileSystem.constructor | com/yoclabo/filesystem/query/Query.py:74-111 | the disk starts as the given well-formed tree |
| Query.FileSystem.CreateDirectory | com/yoclabo/filesystem/query/Query.py:74-78 | the error raised and the new disk are those of the `create_directory` step, and the disk stays a tree |
| Query.FileSystem.UpdateTextContent | com/yoclabo/filesystem/query/Query.py:89-94 | the error raised and the new disk are those of the `update_text_content` step, and the disk stays a tree |
| Query.FileSystem.CopyFileToStatic | com/yoclabo/filesystem/query/Query.py:105-111 | the error raised and the new disk are those of the copy step (remove, then copy), and the disk stays a tree |
| Item.MakeEntry | com/yoclabo/filesystem/item/Item.py:34-40 | `Item.__init__`: the path, its kind, its name and the sequence number |
| Item.DefaultConfig | com/yoclabo/filesystem/item/Item.py:83-85 | the defaults of the environment settings: 3000 ms, 10 rows and 30 tiles |
| Item.Id | com/yoclabo/filesystem/item/Item.py:42-44 | `Item.id`: the path string with every occurrence of the root directory removed, then quoted |
| Item.RowDisplayAttributes | com/yoclabo/filesystem/item/Item.py:62-66 | even sequence numbers get the shaded style, odd ones the bordered style |
| Item.RowsAlternate | com/yoclabo/filesystem/item/Item.py:62-66 | consecutive rows always differ in style, and the styles repeat every two rows |
| Item.PageCount | com/yoclabo/filesystem/item/Item.py:100-106 | `max_page` is 1 for an empty listing and otherwise the least m with m pages holding every entry: (m-1)·size < n ≤ m·size |
| Item.PrevPageOf | com/yoclabo/filesystem/item/Item.py:108-110 | `prev_page`: one page back, and 1 from page 1 or below |
| Item.NextPageOf | com/yoclabo/filesystem/item/Item.py:112-114 | `next_page`: one page on below the last page, else the last page |
| Item.NeighbourPages | com/yoclabo/filesystem/item/Item.py:108-114 | for a page in range, Previous and Next stay in [1, max_page] around it and stay put only at the first or last page; past the last page, Next leads to the last page |
| Item.NeighbourStep | com/yoclabo/filesystem/item/Item.py:108-114 | Previous is exactly one page back above the first page, Next exactly one page on below the last |
| Item.PageStart | com/yoclabo/filesystem/item/Item.py:141-148 | the first index of a page: size times (page - 1) |
| Item.PageEnd | com/yoclabo/filesystem/item/Item.py:141-148 | the end of a page: one page on from its start, cut at the length of the listing |
| Item.Window | com/yoclabo/filesystem/item/Item.py:141-148 | the entries from the start to the end of a page, none past the end of the listing |
| Item.PageSlice | com/yoclabo/filesystem/item/Item.py:141-148 | a page holds at most one page size of entries |
| Item.PageSliceIndices | com/yoclabo/filesystem/item/Item.py:141-148 | the k-th entry shown is entry size·(page-1)+k of the listing; a page starting past the end shows nothing |
| Item.PagesCoverListing | com/yoclabo/filesystem/item/Item.py:100-148 | pages 1 to `max_page` shown one after another are the whole listing, in order, so every entry is on exactly one page |
| Item.PageNonEmptyInRange | com/yoclabo/filesystem/item/Item.py:100-148 | in a non-empty listing a page shows something exactly when it is at most `max_page` |
| Item.ClassFor | com/yoclabo/filesystem/item/Item.py:128-137 | directories become `Directory`; text, hidden and other files become plain items |
| Item.ChildEntry | com/yoclabo/filesystem/item/Item.py:128-137 | the entry for a numbered child, with the class its kind selects |
| Item.ClassifiedChildren | com/yoclabo/filesystem/item/Item.py:124-139 | one entry per child |
| Item.ClassifiedEntry | com/yoclabo/filesystem/item/Item.py:124-139 | the entry for the child at position i has its path, its kind and the number i+1; its class is Directory exactly for a directory, Image, Pdf or Media exactly for that kind, and plain for text, hidden and other files |
| Item.ClassifiedPrefix | com/yoclabo/filesystem/item/Item.py:124-139 | classifying one more child appends exactly its entry, numbered after the ones before |
| Item.Classify | com/yoclabo/filesystem/item/Item.py:126-138 | the loop builds exactly the classified children |
| Item.ListingDirectoriesFirst | com/yoclabo/filesystem/item/Item.py:124-139 | in the cached listing every `Directory` entry comes before every other entry |
| Item.ChildIsDirOrFile | com/yoclabo/filesystem/query/Query.py:46-54 | every child returned by `query_children` is a directory or a file |
| Item.AncestorEntries | com/yoclabo/filesystem/item/Item.py:68-71 | one plain entry with sequence 0 for each path of `query_ancestors` |
| Item.TextFileName | com/yoclabo/filesystem/item/Item.py:169 | the file name: ".txt" appended unless the name already ends in it |
| Item.ChildPath | com/yoclabo/filesystem/item/Item.py:159-171 | the child path: the sanitised name joined onto the directory located through its id, then parsed |
| Item.TextFileNameShape | com/yoclabo/filesystem/item/Item.py:169 | the created file's name ends in ".txt", starts with the given name, and is the given name when it already ends in ".txt" |
| Item.Directory.constructor | com/yoclabo/filesystem/item/Item.py:76-86 | a new directory has its kind and name from the path, no ancestors, children or links, page 0 and list mode |
| Item.Directory.PageSize | com/yoclabo/filesystem/item/Item.py:104-106 | the page size in force: the tile size in tile mode, else the row size |
| Item.Directory.MaxPage | com/yoclabo/filesystem/item/Item.py:100-106 | `max_page` of the cached listing at the page size in force |
| Item.Directory.PrevPage | com/yoclabo/filesystem/item/Item.py:108-110 | `prev_page` of the current page |
| Item.Directory.NextPage | com/yoclabo/filesystem/item/Item.py:112-114 | `next_page` of the current page and `max_page` |
| Item.Directory.FillAncestors | com/yoclabo/filesystem/item/Item.py:68-71 | appends one entry with sequence 0 for each path of the ancestor chain |
| Item.Directory.CacheChildrenInfo | com/yoclabo/filesystem/item/Item.py:124-139 | given the directory's own listing, appends the classified children of `query_children` (directories first) to the cached listing, one entry per entry of the directory |
| Item.Directory.Slice | com/yoclabo/filesystem/item/Item.py:141-148 | appends exactly the entries of the current page |
| Item.Directory.PrepareBrowse | com/yoclabo/filesystem/item/Item.py:150-157 | fills ancestors, listing, page links (built from the page, `prev_page`, `next_page` and `max_page`) and the visible page |
| Item.Directory.CreateDirectory | com/yoclabo/filesystem/item/Item.py:159-164 | nothing for an empty name; else `create_directory` of the sanitised name below the directory located through its id |
| Item.Directory.CreateTextFile | com/yoclabo/filesystem/item/Item.py:166-171 | nothing for an empty name; else the content is written to the sanitised ".txt" name below the directory, overwriting any file there |
| Paginator.Link | com/yoclabo/filesystem/item/Item.py:321-364 | a link built by one of the `create_*` helpers: its page and caption, not flagged |
| Paginator.Numbered | com/yoclabo/filesystem/item/Item.py:339-346 | a link captioned with its own page number |
| Paginator.First2 | com/yoclabo/filesystem/item/Item.py:321-330 | `create_first_2`: page 1, then Previous to the previous page |
| Paginator.PrevDot | com/yoclabo/filesystem/item/Item.py:332-337 | `create_prev_dot`: an ellipsis to the current page - 3 |
| Paginator.NextDot | com/yoclabo/filesystem/item/Item.py:348-353 | `create_next_dot`: an ellipsis to its argument + 3 |
| Paginator.Last2 | com/yoclabo/filesystem/item/Item.py:355-364 | `create_last_2`: Next to the next page, then the last page |
| Paginator.Layout | com/yoclabo/filesystem/item/Item.py:291-319 | the links of the branch `create_list` takes, before marking: small, low, high or middle window |
| Paginator.PageList | com/yoclabo/filesystem/item/Item.py:291-319 | the list `create_list` returns: the layout, then marked |
| Paginator.Center | com/yoclabo/filesystem/item/Item.py:339-346 | one numbered link per page of range(start, end), in order |
| Paginator.Marked | com/yoclabo/filesystem/item/Item.py:366-371 | marking keeps the number of links |
| Paginator.CreateCenter | com/yoclabo/filesystem/item/Item.py:339-346 | the loop appends exactly the links of `Center` |
| Paginator.MarkCurrent | com/yoclabo/filesystem/item/Item.py:366-371 | the loop sets the flag of every link that points at the current page |
| Paginator.CreateList | com/yoclabo/filesystem/item/Item.py:291-364 | the list is the layout of the branch taken, then marked |
| Paginator.NumberIsNoCaption | com/yoclabo/filesystem/item/Item.py:259-261 | no page number reads as "...", "Previous" or "Next" |
| Paginator.MarkedFlags | com/yoclabo/filesystem/item/Item.py:366-371 | marking changes flags only, and a link ends up flagged exactly when it was already or points at the current page |
| Paginator.SmallFrame | com/yoclabo/filesystem/item/Item.py:293-298 | under nine pages the layout is framed: 1 and Previous first, Next and the last page last, nothing flagged |
| Paginator.LowFrame | com/yoclabo/filesystem/item/Item.py:299-305 | with the current page below 5 the layout is framed |
| Paginator.HighFrame | com/yoclabo/filesystem/item/Item.py:306-312 | with the current page among the last four the layout is framed |
| Paginator.MiddleFrame | com/yoclabo/filesystem/item/Item.py:313-319 | the middle layout is framed |
| Paginator.LayoutFrame | com/yoclabo/filesystem/item/Item.py:291-364 | every layout is page 1 and Previous, some middle links, then Next and the last page, with no link flagged before marking |
| Paginator.PageListFrame | com/yoclabo/filesystem/item/Item.py:291-371 | every list starts with 1 and Previous and ends with Next and the last page; a link is flagged exactly when it points at the current page, whatever its caption |
| Paginator.SmallLayout | com/yoclabo/filesystem/item/Item.py:293-298 | under nine pages: no ellipsis, and pages 2 to max-1 in order between Previous and Next |
| Paginator.SinglePageLayout | com/yoclabo/filesystem/item/Item.py:293-298 | one page gives [1, Previous, Next, 1] |
| Paginator.LowWindow | com/yoclabo/filesystem/item/Item.py:299-305 | nine pages or more, current below 5: pages 2 to current+2, then an ellipsis to current+3, and no leading ellipsis |
| Paginator.HighWindow | com/yoclabo/filesystem/item/Item.py:306-312 | current among the last four: an ellipsis to current-3, then pages current-2 to max-1 |
| Paginator.MiddleWindow | com/yoclabo/filesystem/item/Item.py:313-319 | middle: eleven links, an ellipsis to current-3, pages current-2 to current+2, and an ellipsis to next+3 |
| Paginator.MiddleWindowSkipsOnePage | com/yoclabo/filesystem/item/Item.py:313-319 | with next = current+1 the trailing ellipsis leads to current+4 and no link leads to current+3 |
| Paginator.TwentyPagesAtTen | com/yoclabo/filesystem/item/Item.py:291-371 | twenty pages at page 10 give 1, Previous(9), …(7), 8–12, …(14), Next(11), 20, with only page 10 flagged |
| Router.HasGetParam | com/yoclabo/routing/Router.py:46-51 | `has_get_param`: the query parameter is present and not empty |
| Router.HasPostParam | com/yoclabo/routing/Router.py:53-58 | `has_post_param`: the form parameter is present and not empty |
| Router.GetParam | com/yoclabo/routing/Router.py:60-63 | a non-empty form value wins; otherwise exactly the query value when the name is in the query, else `None`; a present non-empty parameter always reads as non-empty |
| Router.IsPost | com/yoclabo/routing/Router.py:83 | the request method is POST |
| Router.IsFilePost | com/yoclabo/routing/Router.py:82-88 | `is_file_post`: a POST that carries files |
| Router.IsTextUpdatePost | com/yoclabo/routing/Router.py:90-95 | `is_text_update_post`: a POST with a non-empty `text_content` |
| Router.IsCreateTextFilePost | com/yoclabo/routing/Router.py:97-104 | `is_create_text_file_post`: a POST with a non-empty `textFileName` and `content` |
| Router.IsCreateDirectoryPost | com/yoclabo/routing/Router.py:106-111 | `is_create_directory_post`: a POST with a non-empty `directoryName` |
| Router.IsImageBytearrayGet | com/yoclabo/routing/Router.py:113-120 | `is_image_bytearray_get`: a non-empty id and a `content` that reads "bytes" |
| Router.IsWebEncodedImageGet | com/yoclabo/routing/Router.py:122-129 | `is_web_encoded_image_get`: a non-empty id and a `content` that reads "encoded" |
| Router.IsDocumentGet | com/yoclabo/routing/Router.py:131-141 | `is_document_get`: a non-empty id and type, the type not "directory", and not an image asked for with a content form |
| Router.IsDirectoryGet | com/yoclabo/routing/Router.py:143-146 | `is_directory_get`: a non-empty id |
| Router.IsRootGet | com/yoclabo/routing/Router.py:148-154 | `is_root_get`: no form parameters, and no query parameters or an id that reads as empty |
| Router.Run | com/yoclabo/routing/Router.py:196-216 | a file upload always goes to the upload handler; the browser page is reached exactly when every test fails |
| Router.OnlyPostsMutate | com/yoclabo/routing/Router.py:82-111 | only a POST reaches a handler that changes the disk |
| Router.MutatingRoutes | com/yoclabo/routing/Router.py:196-204 | each mutating handler is reached exactly when its test holds and the earlier ones fail |
| Router.ReadingRoutes | com/yoclabo/routing/Router.py:204-213 | each read-only handler (raw image bytes, encoded image, document, directory view) is reached exactly when its test holds and every earlier test fails |
| Router.BytesWinOverDocument | com/yoclabo/routing/Router.py:204-209 | a GET that passes the document test but asks for `content=bytes` is served as raw bytes, because that test comes first |
| Router.ImageRoutesExclusive | com/yoclabo/routing/Router.py:113-129 | the image-bytes and encoded-image tests never both hold |
| Router.ImageContentIsNotDocument | com/yoclabo/routing/Router.py:131-141 | an image request with a `content` parameter never reaches the document handler |
| Router.IdAloneIsDirectory | com/yoclabo/routing/Router.py:196-212 | a GET with a non-empty id and no type or content shows the directory |
| Router.RootNeedsNoId | com/yoclabo/routing/Router.py:148-154 | the root listing is served exactly to a request that is not a file upload, has no form parameters, and has no query parameters or an empty id |
| Router.NoIdIsBrowser | com/yoclabo/routing/Router.py:196-216 | a request that is not an upload, has no form parameters and has query parameters but no id falls through to the browser page, never to the root listing |
| PdfViewer.RotatedRight | static/pdf.mjs:48-51 | a right turn keeps the rotation a quarter turn and adds 90 modulo 360 |
| PdfViewer.RotatedLeft | static/pdf.mjs:43-46 | a left turn keeps the rotation a quarter turn and subtracts 90 modulo 360 |
| PdfViewer.RotationsCancel | static/pdf.mjs:43-51 | a left turn and a right turn undo each other |
| PdfViewer.FourQuarterTurns | static/pdf.mjs:48-51 | four right turns restore the rotation and fewer do not |
| PdfViewer.PrevPage | static/pdf.mjs:33-36 | back one page, staying on page 1, never below 1 |
| PdfViewer.NextPage | static/pdf.mjs:38-41 | forward one page, staying on the last page, never past it |
| PdfViewer.FedPage | static/pdf.mjs:19-22 | the page requested is the given one cut down to the page count |
| PdfViewer.NextThenPrev | static/pdf.mjs:33-41 | forward then back returns to the page, except from the last page |
| PdfViewer.PrevThenNext | static/pdf.mjs:33-41 | back then forward returns to the page, except from the first page |
| PdfViewer.OnePageStep | static/pdf.mjs:33-41 | `prev` goes back exactly one page above the first and `next` forward exactly one below the last; each stays put at its end |
| PdfViewer.PdfCanvas.constructor | static/pdf.mjs:2-7 | the viewer starts on page 1, unrotated, without a document |
| PdfViewer.PdfCanvas.DocumentLoaded | static/pdf.mjs:14-16 | the loaded document's page count is kept; page and rotation are unchanged |
| PdfViewer.PdfCanvas.Feed | static/pdf.mjs:19-22 | requests min(page, page count), and fails without a document |
| PdfViewer.PdfCanvas.Prev | static/pdf.mjs:33-36 | the page goes back one (not below 1), the rotation is kept, and the new page is requested |
| PdfViewer.PdfCanvas.Next | static/pdf.mjs:38-41 | the page goes forward one (not past the last), the rotation is kept; without a document nothing changes |
| PdfViewer.PdfCanvas.RotateLeft90 | static/pdf.mjs:43-46 | the rotation turns left, the page is kept and requested again |
| PdfViewer.PdfCanvas.RotateRight90 | static/pdf.mjs:48-51 | the rotation turns right, the page is kept and requested again |

## Left out

- Real disk access, file permissions (the `os.chmod` after a copy) and concurrent changes to the disk: the disk is a map held by `FileSystem`.
- `Directory.save_file` (uploads written chunk by chunk) and the upload handler: they depend on Django's upload objects.
- The `prepare_view` methods of `Text`, `Image`, `Pdf` and `Media`: thin wrappers around `fill_ancestors`, `get_text_content`, `get_web_encoded_image` and `copy_file_to_static`.
- The request handlers (`FilesystemHandler.py`, `BrowserHandler.py`), `BrowserRouter.run`, `FilesystemRouter.download`, the Django views and URL tables, and `browse.js`: they render templates or delegate without deciding anything.
- `PdfCanvas.load`, `render` and the `window.onload` wiring: pdf.js promises, canvas drawing and a worker loaded from a CDN. `DocumentLoaded` stands for the resolved promise and may happen only once.
- Query.QueryAncestors: compares parsed paths rather than `str(path)` with the configured root string, so a root configured with a trailing slash or `.` components is not modelled.
- Query.CopyStep: the target name must be a single path component; `copy_to` is always an item's own name there.
- `get_valid_filename`, `urllib.parse.quote` and the text encoding are parameters of the model, so nothing is proved about what they return.
- Query.JoinPath: models `os.path.join` for two arguments on POSIX only.
- Query.Proper: keeps ".." as an ordinary path component, and the disk map has no symbolic links. The operating system resolves both, so `os.path.exists("/r/..")` holds whenever "/r" is a directory, while in the model a path through ".." names a node of its own, usually absent. So `MkdirStep`, `ReadFile`, `WriteTextStep` and `CopyStep` treat such a path as a new, separate node: a read of it fails and `create_directory` adds it. In the same way an `id` such as "/../x", which the source resolves to a path outside the root directory without checking, stays below the root in the model.
- Query.QueryChildren: requires the listing of an existing directory; `iterdir` raises on a missing path or a file, and that error is not modelled.
- Item.Directory.CacheChildrenInfo: requires the listing of the directory's own path, for the same reason.
- Item.Directory.PrepareBrowse: requires the listing of the directory's own path, for the same reason.
- Item.Directory.constructor: requires both page sizes to be at least 1. The source reads them from the environment unchecked. A size of 0 makes `max_page` raise ZeroDivisionError on a non-empty listing, and a negative size gives a negative page count; neither is modelled.
- Item.PageCount: requires a page size of at least 1, for the same reason.
- Item.Directory.CreateDirectory: `get_valid_filename` is a total function here. Django's raises SuspiciousFileOperation for a name that reduces to "", "." or "..", and that error is not modelled.
- Item.Directory.CreateTextFile: the same gap for `get_valid_filename`.
- Query.WriteTextStep: `encode` is total. A UnicodeEncodeError raised by the write after `open(path, 'w')` has truncated the file is not modelled.
- Query.GetTextContent: `decode` is total; a UnicodeDecodeError is not modelled.
- Query.ParsePath: pathlib keeps exactly two leading slashes as the anchor "//" (`Path('//a').parts` is `('//', 'a')`); the model reads it as "/", which names the same file on Linux but compares differently.
- Query.QueryAncestors: requires a path of at least one component. For the empty path (`str` gives ".") under any root other than ".", the source calls itself on `Path('').parent`, which is the empty path again, until Python raises RecursionError.
- Item.Directory.FillAncestors: requires a path of at least one component, for the same reason.
- Item.PageSlice: requires a page of at least 1. The handler passes the `page` parameter unchecked. At page 0, `slice` walks `range(-size, 0)`: it shows the last `size` entries when the listing has at least that many, and raises IndexError otherwise, an empty directory included. A negative page reads further back in the same way.
- Item.Directory.Slice: requires a page of at least 1, for the same reason.
- Item.Directory.PrepareBrowse: requires a page of at least 1 and a path of at least one component, for the reasons given for `Slice` and `FillAncestors`.
