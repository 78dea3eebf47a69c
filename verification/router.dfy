/**
 * Request routing (com/yoclabo/routing/Router.py): which handler a request
 * reaches.  A request is its method, its query and form parameters (the
 * value Django's `get` returns for each name) and whether it uploads files.
 * The handlers themselves are not part of this model; `Run` names the one
 * chosen.
 */
module Router {
  import opened Strings
  import Query

  datatype Request = Request(httpMethod: string, get: map<string, string>, post: map<string, string>, hasFiles: bool)

  /** The handlers a request can reach. */
  datatype Route =
    | PostFile
    | UpdateTextContent
    | CreateTextFile
    | CreateDirectory
    | ImageBytearray
    | WebEncodedImage
    | Document
    | DirectoryView
    | RootDirectory
    | Browser

  /** The kind names, as `get_type` spells them, that the router compares the `type` parameter with. */
  const TypeDirectory: string := Query.KindName(Query.Directory)
  const TypeImage: string := Query.KindName(Query.Image)

  /** `has_get_param`: the query parameter is present and not empty. */
  predicate HasGetParam(req: Request, name: string) {
    name in req.get && req.get[name] != ""
  }

  /** `has_post_param`: the form parameter is present and not empty. */
  predicate HasPostParam(req: Request, name: string) {
    name in req.post && req.post[name] != ""
  }

  /** `get_param`: a non-empty form value wins over the query value; `None` when neither is there. */
  function GetParam(req: Request, name: string): (r: Option<string>)
    ensures HasPostParam(req, name) ==> r == Some(req.post[name])
    ensures !HasPostParam(req, name) ==> r == (if name in req.get then Some(req.get[name]) else None)
    ensures HasGetParam(req, name) || HasPostParam(req, name) ==> r.Some? && r.value != ""
    ensures r == Some("") ==> !HasGetParam(req, name) && !HasPostParam(req, name)
  {
    if HasPostParam(req, name) then Some(req.post[name])
    else if name in req.get then Some(req.get[name])
    else None
  }

  predicate IsPost(req: Request) {
    req.httpMethod == "POST"
  }

  /** `is_file_post`. */
  predicate IsFilePost(req: Request) {
    IsPost(req) && req.hasFiles
  }

  /** `is_text_update_post`. */
  predicate IsTextUpdatePost(req: Request) {
    IsPost(req) && HasPostParam(req, "text_content")
  }

  /** `is_create_text_file_post`. */
  predicate IsCreateTextFilePost(req: Request) {
    IsPost(req) && HasPostParam(req, "textFileName") && HasPostParam(req, "content")
  }

  /** `is_create_directory_post`. */
  predicate IsCreateDirectoryPost(req: Request) {
    IsPost(req) && HasPostParam(req, "directoryName")
  }

  /** `is_image_bytearray_get`. */
  predicate IsImageBytearrayGet(req: Request) {
    HasGetParam(req, "id") && HasGetParam(req, "content") && GetParam(req, "content") == Some("bytes")
  }

  /** `is_web_encoded_image_get`. */
  predicate IsWebEncodedImageGet(req: Request) {
    HasGetParam(req, "id") && HasGetParam(req, "content") && GetParam(req, "content") == Some("encoded")
  }

  /** `is_document_get`: an id and a type other than a directory; an image only without `content`. */
  predicate IsDocumentGet(req: Request) {
    HasGetParam(req, "id") && HasGetParam(req, "type")
    && GetParam(req, "type") != Some(TypeDirectory)
    && !(GetParam(req, "type") == Some(TypeImage) && HasGetParam(req, "content"))
  }

  /** `is_directory_get`. */
  predicate IsDirectoryGet(req: Request) {
    HasGetParam(req, "id")
  }

  /** `is_root_get`: no form parameters, and either no query parameters or an `id` that reads as empty. */
  predicate IsRootGet(req: Request) {
    |req.post| == 0 && (|req.get| > 0 ==> GetParam(req, "id") == Some(""))
  }

  /** `FilesystemRouter.run`: the first test that holds, in a fixed order, picks the handler. */
  function Run(req: Request): (r: Route)
    ensures r == PostFile <==> IsFilePost(req)
    ensures r == Browser <==>
      !IsFilePost(req) && !IsTextUpdatePost(req) && !IsCreateTextFilePost(req) && !IsCreateDirectoryPost(req)
      && !IsImageBytearrayGet(req) && !IsWebEncodedImageGet(req) && !IsDocumentGet(req)
      && !IsDirectoryGet(req) && !IsRootGet(req)
  {
    if IsFilePost(req) then PostFile
    else if IsTextUpdatePost(req) then UpdateTextContent
    else if IsCreateTextFilePost(req) then CreateTextFile
    else if IsCreateDirectoryPost(req) then CreateDirectory
    else if IsImageBytearrayGet(req) then ImageBytearray
    else if IsWebEncodedImageGet(req) then WebEncodedImage
    else if IsDocumentGet(req) then Document
    else if IsDirectoryGet(req) then DirectoryView
    else if IsRootGet(req) then RootDirectory
    else Browser
  }

  /** The routes that change the file system. */
  predicate Mutates(r: Route) {
    r in {PostFile, UpdateTextContent, CreateTextFile, CreateDirectory}
  }

  /** Only a POST request reaches a handler that changes the file system. */
  lemma OnlyPostsMutate(req: Request)
    ensures Mutates(Run(req)) ==> IsPost(req)
  {
  }

  /** A request reaches a mutating handler exactly when it passes that handler's test and none of the earlier ones. */
  lemma MutatingRoutes(req: Request)
    ensures Run(req) == UpdateTextContent <==> !IsFilePost(req) && IsTextUpdatePost(req)
    ensures Run(req) == CreateTextFile <==>
      !IsFilePost(req) && !IsTextUpdatePost(req) && IsCreateTextFilePost(req)
    ensures Run(req) == CreateDirectory <==>
      !IsFilePost(req) && !IsTextUpdatePost(req) && !IsCreateTextFilePost(req) && IsCreateDirectoryPost(req)
  {
  }

  /**
   * A request reaches a read-only handler exactly when it passes that
   * handler's test and none of the earlier ones: a PDF asked for with
   * `content=bytes`, say, is served as raw bytes, not as a document.
   */
  lemma ReadingRoutes(req: Request)
    ensures Run(req) == ImageBytearray <==>
      !IsFilePost(req) && !IsTextUpdatePost(req) && !IsCreateTextFilePost(req) && !IsCreateDirectoryPost(req)
      && IsImageBytearrayGet(req)
    ensures Run(req) == WebEncodedImage <==>
      !IsFilePost(req) && !IsTextUpdatePost(req) && !IsCreateTextFilePost(req) && !IsCreateDirectoryPost(req)
      && !IsImageBytearrayGet(req) && IsWebEncodedImageGet(req)
    ensures Run(req) == Document <==>
      !IsFilePost(req) && !IsTextUpdatePost(req) && !IsCreateTextFilePost(req) && !IsCreateDirectoryPost(req)
      && !IsImageBytearrayGet(req) && !IsWebEncodedImageGet(req) && IsDocumentGet(req)
    ensures Run(req) == DirectoryView <==>
      !IsFilePost(req) && !IsTextUpdatePost(req) && !IsCreateTextFilePost(req) && !IsCreateDirectoryPost(req)
      && !IsImageBytearrayGet(req) && !IsWebEncodedImageGet(req) && !IsDocumentGet(req) && IsDirectoryGet(req)
  {
  }

  /** A PDF requested with `content=bytes` reaches the raw-bytes handler before the document test. */
  lemma BytesWinOverDocument(req: Request)
    requires !IsPost(req) && |req.post| == 0 && IsDocumentGet(req)
    requires "content" in req.get && req.get["content"] == "bytes"
    ensures Run(req) == ImageBytearray
  {
  }

  /** The two image routes never both apply: `content` cannot read both "bytes" and "encoded". */
  lemma ImageRoutesExclusive(req: Request)
    ensures !(IsImageBytearrayGet(req) && IsWebEncodedImageGet(req))
  {
  }

  /** An image request that asks for a content form never reaches the document handler. */
  lemma ImageContentIsNotDocument(req: Request)
    requires GetParam(req, "type") == Some(TypeImage) && HasGetParam(req, "content")
    ensures Run(req) != Document
  {
  }

  /** A GET with a non-empty id and no `type` or `content` shows the directory view. */
  lemma IdAloneIsDirectory(req: Request)
    requires !IsPost(req) && HasGetParam(req, "id")
    requires "type" !in req.get && "content" !in req.get
    ensures Run(req) == DirectoryView
  {
  }

  /**
   * The root listing is served only to a request without form parameters
   * and without a usable id: either no query parameters at all, or an `id`
   * given with an empty value.
   */
  lemma RootNeedsNoId(req: Request)
    ensures Run(req) == RootDirectory <==>
      !IsFilePost(req) && |req.post| == 0 && (|req.get| == 0 || ("id" in req.get && req.get["id"] == ""))
  {
    if Run(req) == RootDirectory {
      assert !IsFilePost(req) && !IsDirectoryGet(req) && IsRootGet(req);
      if |req.get| > 0 {
        assert GetParam(req, "id") == Some("");
      }
    }
  }

  /**
   * A request that is not an upload, has no form parameters and carries
   * query parameters but no `id` at all (only a page number, say) falls
   * through to the browser page, never to the root listing.
   */
  lemma NoIdIsBrowser(req: Request)
    requires !IsFilePost(req) && |req.post| == 0 && |req.get| > 0 && "id" !in req.get
    ensures Run(req) == Browser
  {
  }
}
