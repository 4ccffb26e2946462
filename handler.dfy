/** The request handler passed to `http.createServer`. Each request is
    answered from the file system alone: validate the code, then read, write
    or unlink `<cacheDir>/<code>.jpg` according to the method, and turn a
    rejected file-system call into 404 (ENOENT) or 500 (anything else). */
module Handler {
  import opened Wrappers
  import opened Fs
  import opened Url
  import opened CachePath
  import opened Body

  datatype Request = Request(verb: string, url: string, chunks: seq<seq<byte>>)

  /** A response body: a text written with `res.end(string)`, or raw bytes. */
  datatype Payload = Text(text: string) | Binary(data: seq<byte>)

  datatype Response = Response(status: int, contentType: string, body: Payload)

  /** What one request does: the response, the files afterwards, and the
      calls it made into the file system, in order. */
  datatype Outcome = Outcome(response: Response, files: Files, calls: seq<FsCall>)

  const TEXT_PLAIN: string := "text/plain"
  const IMAGE_JPEG: string := "image/jpeg"

  const BAD_REQUEST := Response(400, TEXT_PLAIN, Text("Bad Request: missing code"))
  const CREATED := Response(201, TEXT_PLAIN, Text("Created"))
  const DELETED := Response(200, TEXT_PLAIN, Text("Deleted"))
  const METHOD_NOT_ALLOWED := Response(405, TEXT_PLAIN, Text("Method not allowed"))
  const NOT_FOUND := Response(404, TEXT_PLAIN, Text("Not Found"))
  const INTERNAL_ERROR := Response(500, TEXT_PLAIN, Text("Internal Server Error"))

  function ImageResponse(data: seq<byte>): Response {
    Response(200, IMAGE_JPEG, Binary(data))
  }

  /** `!code`: the code is `undefined` or the empty string. */
  predicate MissingCode(code: Option<string>) {
    code.None? || code.value == ""
  }

  /** The `catch` block: a file-system error becomes a response by its code. */
  function ErrorResponse(code: string): (r: Response)
    ensures r.status == 404 <==> code == ENOENT
    ensures r.status == 404 || r.status == 500
  {
    if code == ENOENT then NOT_FOUND else INTERNAL_ERROR
  }

  predicate KnownMethod(verb: string) {
    verb == "GET" || verb == "PUT" || verb == "DELETE"
  }

  /** The whole handler as a function of the request and the state of the
      disk. */
  function Respond(cacheDir: string, files: Files, faults: Faults, req: Request): (o: Outcome)
    // 400 exactly for a missing code, and then the disk is not touched
    ensures o.response.status == 400 <==> MissingCode(UrlCode(req.url))
    ensures o.response.status == 400 ==> o == Outcome(BAD_REQUEST, files, [])
    // 405 exactly for a present code and an unknown method, also without touching the disk
    ensures o.response.status == 405 <==> !MissingCode(UrlCode(req.url)) && !KnownMethod(req.verb)
    ensures o.response.status == 405 ==> o == Outcome(METHOD_NOT_ALLOWED, files, [])
    // otherwise exactly one call, on the code's own file, and only that file may change
    ensures !MissingCode(UrlCode(req.url)) && KnownMethod(req.verb) ==>
      var p := CacheFilePath(cacheDir, UrlCode(req.url).value);
      && |o.calls| == 1 && o.calls[0].path == p
      && forall q :: q != p ==> Read(o.files, faults, q) == Read(files, faults, q)
    // a failed call changes nothing, and answers 500 only for an error other than ENOENT
    ensures o.response.status == 404 || o.response.status == 500 ==> o.files == files
    ensures o.response.status == 500 ==>
      |o.calls| == 1 && o.calls[0].path in faults && faults[o.calls[0].path] != ENOENT
  {
    var code := UrlCode(req.url);
    if MissingCode(code) then Outcome(BAD_REQUEST, files, [])
    else
      var p := CacheFilePath(cacheDir, code.value);
      if req.verb == "GET" then
        match Read(files, faults, p)
        case Ok(data) => Outcome(ImageResponse(data), files, [ReadCall(p)])
        case Err(e) => Outcome(ErrorResponse(e), files, [ReadCall(p)])
      else if req.verb == "PUT" then
        var body := Concat(req.chunks);
        var w := Write(files, faults, p, body);
        Outcome(if w.result.Ok? then CREATED else ErrorResponse(w.result.code), w.files, [WriteCall(p, body)])
      else if req.verb == "DELETE" then
        var u := Unlink(files, faults, p);
        Outcome(if u.result.Ok? then DELETED else ErrorResponse(u.result.code), u.files, [UnlinkCall(p)])
      else Outcome(METHOD_NOT_ALLOWED, files, [])
  }

  /** The running server: the cache directory it was started with and the
      file system it serves from. */
  class Server {
    const cacheDir: string
    const fs: FileSystem

    constructor (cacheDir: string, fs: FileSystem)
      ensures this.cacheDir == cacheDir && this.fs == fs
    {
      this.cacheDir := cacheDir;
      this.fs := fs;
    }

    /** Answers one request, with the file system changed and its calls
        recorded exactly as Respond says. */
    method Handle(req: Request) returns (resp: Response)
      modifies fs
      ensures var o := Respond(cacheDir, old(fs.files), fs.faults, req);
        resp == o.response && fs.files == o.files && fs.trace == old(fs.trace) + o.calls
    {
      var code := UrlCode(req.url);
      if MissingCode(code) {
        return BAD_REQUEST;
      }
      var filePath := CacheFilePath(cacheDir, code.value);
      if req.verb == "GET" {
        var data := fs.ReadFile(filePath);
        if data.Err? {
          return ErrorResponse(data.code);
        }
        resp := ImageResponse(data.value);
      } else if req.verb == "PUT" {
        var buffer := ReadRequestBody(req.chunks);
        var written := fs.WriteFile(filePath, buffer);
        if written.Err? {
          return ErrorResponse(written.code);
        }
        resp := CREATED;
      } else if req.verb == "DELETE" {
        var removed := fs.UnlinkFile(filePath);
        if removed.Err? {
          return ErrorResponse(removed.code);
        }
        resp := DELETED;
      } else {
        resp := METHOD_NOT_ALLOWED;
      }
    }
  }
}
