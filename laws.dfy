/** What the handler promises, per method and across consecutive requests. */
module HandlerLaws {
  import opened Wrappers
  import opened Fs
  import opened Url
  import opened CachePath
  import opened Body
  import opened Handler

  /** The request URL carries a usable code. */
  predicate HasCode(url: string) {
    !MissingCode(UrlCode(url))
  }

  /** The file a request URL with a code is served from. */
  function FileOf(cacheDir: string, url: string): Path
    requires HasCode(url)
  {
    CacheFilePath(cacheDir, UrlCode(url).value)
  }

  /** `/` and the empty URL are rejected for every method, before any
      file-system call. */
  lemma MissingCodeRejected(cacheDir: string, files: Files, faults: Faults, verb: string, chunks: seq<seq<byte>>)
    ensures Respond(cacheDir, files, faults, Request(verb, "/", chunks)) == Outcome(BAD_REQUEST, files, [])
    ensures Respond(cacheDir, files, faults, Request(verb, "", chunks)) == Outcome(BAD_REQUEST, files, [])
  {
    UrlCodeExamples();
  }

  /** GET of a stored image answers 200 `image/jpeg` with exactly the stored
      bytes, after a single read, and changes nothing. */
  lemma GetPresent(cacheDir: string, files: Files, faults: Faults, url: string, chunks: seq<seq<byte>>)
    requires HasCode(url)
    requires FileOf(cacheDir, url) in files && FileOf(cacheDir, url) !in faults
    ensures var p := FileOf(cacheDir, url);
      Respond(cacheDir, files, faults, Request("GET", url, chunks)) == Outcome(ImageResponse(files[p]), files, [ReadCall(p)])
  {
    var p := FileOf(cacheDir, url);
    assert Read(files, faults, p) == Ok(files[p]);
  }

  /** GET of an image that is not stored answers 404 after a single read:
      nothing is fetched and nothing is written. */
  lemma GetAbsent(cacheDir: string, files: Files, faults: Faults, url: string, chunks: seq<seq<byte>>)
    requires HasCode(url)
    requires FileOf(cacheDir, url) !in files && FileOf(cacheDir, url) !in faults
    ensures var p := FileOf(cacheDir, url);
      Respond(cacheDir, files, faults, Request("GET", url, chunks)) == Outcome(NOT_FOUND, files, [ReadCall(p)])
  {
    var p := FileOf(cacheDir, url);
    assert Read(files, faults, p) == Err(ENOENT);
  }

  /** PUT stores the chunks joined in arrival order, whether or not the file
      existed, answers 201 `Created`, and leaves every other file alone. */
  lemma PutStores(cacheDir: string, files: Files, faults: Faults, url: string, chunks: seq<seq<byte>>)
    requires HasCode(url)
    requires FileOf(cacheDir, url) !in faults
    ensures var p := FileOf(cacheDir, url);
      Respond(cacheDir, files, faults, Request("PUT", url, chunks))
        == Outcome(CREATED, files[p := Concat(chunks)], [WriteCall(p, Concat(chunks))])
  {
    var p := FileOf(cacheDir, url);
    assert Write(files, faults, p, Concat(chunks)) == Effect(Ok(()), files[p := Concat(chunks)]);
  }

  /** DELETE of a stored image answers 200 `Deleted` and removes that file
      only. */
  lemma DeletePresent(cacheDir: string, files: Files, faults: Faults, url: string, chunks: seq<seq<byte>>)
    requires HasCode(url)
    requires FileOf(cacheDir, url) in files && FileOf(cacheDir, url) !in faults
    ensures var p := FileOf(cacheDir, url);
      Respond(cacheDir, files, faults, Request("DELETE", url, chunks)) == Outcome(DELETED, files - {p}, [UnlinkCall(p)])
  {
    var p := FileOf(cacheDir, url);
    assert Unlink(files, faults, p) == Effect(Ok(()), files - {p});
  }

  /** DELETE of an image that is not stored answers 404 and changes
      nothing. */
  lemma DeleteAbsent(cacheDir: string, files: Files, faults: Faults, url: string, chunks: seq<seq<byte>>)
    requires HasCode(url)
    requires FileOf(cacheDir, url) !in files && FileOf(cacheDir, url) !in faults
    ensures var p := FileOf(cacheDir, url);
      Respond(cacheDir, files, faults, Request("DELETE", url, chunks)) == Outcome(NOT_FOUND, files, [UnlinkCall(p)])
  {
    var p := FileOf(cacheDir, url);
    var u := Unlink(files, faults, p);
    assert u == Effect(Err(ENOENT), files);
    assert ErrorResponse(u.result.code) == NOT_FOUND;
  }

  /** Any file-system failure other than a missing file answers 500, for
      every method that touches the disk, and changes nothing. */
  lemma StorageFailure(cacheDir: string, files: Files, faults: Faults, req: Request)
    requires HasCode(req.url) && KnownMethod(req.verb)
    requires FileOf(cacheDir, req.url) in faults && faults[FileOf(cacheDir, req.url)] != ENOENT
    ensures Respond(cacheDir, files, faults, req).response == INTERNAL_ERROR
    ensures Respond(cacheDir, files, faults, req).files == files
  {
  }

  /** A successful PUT followed by a GET of the same URL serves the body
      that was put. */
  lemma PutThenGet(cacheDir: string, files: Files, faults: Faults, url: string, body: seq<seq<byte>>, any: seq<seq<byte>>)
    requires Respond(cacheDir, files, faults, Request("PUT", url, body)).response == CREATED
    ensures var after := Respond(cacheDir, files, faults, Request("PUT", url, body)).files;
      Respond(cacheDir, after, faults, Request("GET", url, any)).response == ImageResponse(Concat(body))
  {
  }

  /** After a successful DELETE, a GET and a second DELETE of the same URL
      both answer 404. */
  lemma DeleteThenAccess(cacheDir: string, files: Files, faults: Faults, url: string, chunks: seq<seq<byte>>, any: seq<seq<byte>>)
    requires Respond(cacheDir, files, faults, Request("DELETE", url, chunks)).response == DELETED
    ensures var after := Respond(cacheDir, files, faults, Request("DELETE", url, chunks)).files;
      && Respond(cacheDir, after, faults, Request("GET", url, any)).response == NOT_FOUND
      && Respond(cacheDir, after, faults, Request("DELETE", url, any)).response == NOT_FOUND
  {
  }

  /** A request for one code never changes what any other code serves:
      distinct codes live in distinct files. */
  lemma OtherCodesUnaffected(cacheDir: string, files: Files, faults: Faults, req: Request, url: string, any: seq<seq<byte>>)
    requires HasCode(req.url) && HasCode(url)
    requires UrlCode(req.url) != UrlCode(url)
    ensures var after := Respond(cacheDir, files, faults, req).files;
      Respond(cacheDir, after, faults, Request("GET", url, any)).response
        == Respond(cacheDir, files, faults, Request("GET", url, any)).response
  {
    var after := Respond(cacheDir, files, faults, req).files;
    var p, q := FileOf(cacheDir, req.url), FileOf(cacheDir, url);
    if p == q {
      CacheFilePathInjective(cacheDir, UrlCode(req.url).value, UrlCode(url).value);
    }
    assert Read(after, faults, q) == Read(files, faults, q);
    GetSeesOnlyItsFile(cacheDir, after, files, faults, url, any);
  }

  /** What a GET answers depends on nothing but the outcome of reading its
      own file. */
  lemma GetSeesOnlyItsFile(cacheDir: string, files1: Files, files2: Files, faults: Faults, url: string, any: seq<seq<byte>>)
    requires HasCode(url)
    requires Read(files1, faults, FileOf(cacheDir, url)) == Read(files2, faults, FileOf(cacheDir, url))
    ensures Respond(cacheDir, files1, faults, Request("GET", url, any)).response
      == Respond(cacheDir, files2, faults, Request("GET", url, any)).response
  {
  }
}
