# Image cache server: a Dafny model of its request handler

The server keeps images by code in one flat cache directory. Each image is the
file `<cacheDir>/<code>.jpg`. It answers HTTP requests on `/<code>`:

- `GET` serves the stored file as `image/jpeg`.
- `PUT` stores the request body, creating or replacing the file, and answers `201 Created`.
- `DELETE` removes the file and answers `200 Deleted`.
- Any other method answers `405`.
- A URL without a code answers `400` before the disk is touched.
- A file-system error whose code is `ENOENT` answers `404 Not Found`.
- Any other file-system error answers `500 Internal Server Error`.

The model has these parts:

- `Url` models `req.url.split('/')[1]`. It has a one-character `Split` and a `Join`, proved inverse to each other in both directions.
- `CachePath` models `getCacheFilePath`, which is `path.join(cacheDir, code + ".jpg")`.
- `Fs` models `readFile`, `writeFile` and `unlink` of `fs/promises`. They work over a map from paths to bytes. Failing paths come from an explicit map `faults`, from path to error code. The class `Fs.FileSystem` holds that map as a field and keeps a ghost trace of every call.
- `Body` models how the PUT branch collects the request chunks and concatenates them.
- `Handler` defines `Respond`, the handler as a function of the request and the disk. It also defines the class `Server`, whose method `Handle` follows the source statement by statement and is proved to agree with `Respond`.
- `HandlerLaws` holds the per-method laws and the laws that span several requests.

The request's HTTP method is the field `verb`, because `method` is a Dafny keyword.

## Model

| member | source | states |
|---|---|---|
| Url.IndexOf | index.js:36 | the result is the first position of the character, and it is absent exactly when the character does not occur |
| Url.IndexOfFirst | index.js:36 | a position with the character there and nowhere before it is the one `IndexOf` finds |
| Url.Split | index.js:36 | `split` always yields at least one field |
| Url.SplitJoin | index.js:36 | joining the fields of `split` with the separator gives back the string |
| Url.JoinSplit | index.js:36 | splitting a join of fields that contain no separator gives back those fields |
| Url.SplitFieldsAvoidSep | index.js:36 | no field produced by `split` contains the separator |
| Url.SplitHasSecondField | index.js:36-37 | a second field exists exactly when the separator occurs |
| Url.SplitAt | index.js:36 | the fields are the text before the first separator followed by the fields of the rest |
| Url.SplitFirstField | index.js:36 | the first field is everything up to the first separator |
| Url.UrlCode | index.js:36-37 | a code exists exactly when the URL contains `/` (else `undefined`), and a code never contains `/` |
| Url.UrlCodeIsSecondSegment | index.js:36-37 | the code is exactly the text between the first `/` and the next `/` or the end |
| Url.UrlCodeExamples | index.js:37 | `/200` gives `200`, `/404/extra` gives `404`, `/` gives the empty code, `200` gives none |
| CachePath.JoinPath | index.js:29 | `path.join` of the directory and one file name; specified through `CacheFilePath`'s ensures: the directory, at most one added `/`, then the name |
| CachePath.CacheFilePath | index.js:28-30 | the path is the cache directory, one `/` when the directory does not already end in one, and `<code>.jpg`, with nothing else between them |
| CachePath.CacheFilePathInjective | index.js:28-30 | distinct codes map to distinct cache files |
| Fs.Read | index.js:49 | `fs.readFile`; specified by `ReadOutcome`, `WriteThenRead` and `UnlinkThenRead` |
| Fs.Write | index.js:60 | `fs.writeFile`; specified by `WriteThenRead` and `WriteFrame` |
| Fs.Unlink | index.js:66 | `fs.unlink`; specified by `UnlinkThenRead` and `UnlinkFrame` |
| Fs.ReadOutcome | index.js:49 | reading succeeds exactly for a present file on a healthy path and yields its bytes; a missing file fails with `ENOENT` |
| Fs.WriteThenRead | index.js:60 | after a successful write, a read returns the written bytes |
| Fs.WriteFrame | index.js:60 | a write changes no other path, and a failed write changes nothing |
| Fs.UnlinkThenRead | index.js:66 | after a successful unlink, both read and a second unlink fail with `ENOENT` |
| Fs.UnlinkFrame | index.js:66 | an unlink changes no other path, and a failed unlink changes nothing |
| Fs.FileSystem.ReadFile | index.js:49 | returns the outcome of `Read`, records the call and changes no file |
| Fs.FileSystem.WriteFile | index.js:60 | the result and the new files are those of `Write`, and the call is recorded |
| Fs.FileSystem.UnlinkFile | index.js:66 | the result and the new files are those of `Unlink`, and the call is recorded |
| Body.Concat | index.js:59 | `Buffer.concat`; specified by `ConcatAt`, `ConcatLength` and `ConcatAppend` |
| Body.ConcatAppend | index.js:59 | concatenating two runs of chunks is the concatenation of each |
| Body.ConcatLength | index.js:59 | the concatenation is as long as all chunks together |
| Body.ConcatAt | index.js:55-59 | byte `j` of chunk `k` lands right after the bytes of the chunks that arrived before it |
| Body.ReadRequestBody | index.js:55-59 | the loop that pushes each chunk and then concatenates yields the concatenation of the stream in arrival order |
| Handler.MissingCode | index.js:38 | `!code`: the code is `undefined` or empty; its meaning is `Respond`'s clause that 400 is answered exactly in this case |
| Handler.ErrorResponse | index.js:75-86 | an error answers 404 exactly when its code is `ENOENT`, and 500 otherwise |
| Handler.Respond | index.js:36-86 | 400 exactly for a missing code and 405 exactly for an unknown method, both with no disk call; otherwise exactly one call on the code's own file, with every other file unchanged; 404 and 500 change nothing; 500 only for a fault other than `ENOENT` |
| Handler.Server.Handle | index.js:35-87 | the response, the new files and the recorded calls are exactly those of `Respond` |
| HandlerLaws.MissingCodeRejected | index.js:38-42 | `/` and the empty URL answer 400 for every method, with no file-system call and no change |
| HandlerLaws.GetPresent | index.js:47-51 | GET of a stored image answers 200 `image/jpeg` with exactly the stored bytes after one read, and the files are unchanged |
| HandlerLaws.GetAbsent | index.js:47-49 | GET of an absent image answers 404, the only call is the read, and nothing is written |
| HandlerLaws.PutStores | index.js:53-62 | PUT stores the chunks concatenated in order, whether or not the file existed, answers 201 `Created` and changes no other file |
| HandlerLaws.DeletePresent | index.js:64-68 | DELETE of a stored image answers 200 `Deleted` and removes only that file |
| HandlerLaws.DeleteAbsent | index.js:64-68 | DELETE of an absent image answers 404 and changes nothing |
| HandlerLaws.StorageFailure | index.js:80-85 | a fault other than `ENOENT` answers 500 for GET, PUT and DELETE, and changes nothing |
| HandlerLaws.PutThenGet | index.js:47-62 | after a successful PUT, a GET of the same URL serves the body that was put |
| HandlerLaws.DeleteThenAccess | index.js:47-79 | after a successful DELETE, a GET and a second DELETE of the same URL both answer 404 |
| HandlerLaws.OtherCodesUnaffected | index.js:28-86 | no request for one code changes what a GET of another code answers |
| HandlerLaws.GetSeesOnlyItsFile | index.js:47-51 | a GET's answer depends only on the outcome of reading its own file |

## Left out

- Command-line parsing (host, port, cache directory) and the startup `mkdir` of the cache directory are configuration and I/O. The cache directory is a plain parameter, and the directory is assumed to exist.
- `server.listen`, the Node `http` plumbing and all logging are I/O and are not modelled.
- The path normalisation of `path.join` (`./`, `..`, repeated slashes) is left out. `CachePath.JoinPath` only puts one slash between the directory and the file name. A code never contains `/`, so normalisation could only change the directory part, which is the same for every request.
- Paths follow POSIX `path.join`, where `/` is the only separator. Files are keyed by their exact name: case is significant and there is no Unicode normalisation. `CachePath.CacheFilePathInjective` holds for path strings only, and `HandlerLaws.OtherCodesUnaffected` relies on it, so it too holds only under this assumption. On Windows, `path.join` also treats `\` as a separator and resolves `..`. There the code `x\..\200` lands on the same file as `200`, and a URL such as `/..\..\evil` writes outside the cache directory. On a case-insensitive file system, `/ABC` and `/abc` share one file.
- Real file-system failures are nondeterministic. Here they are a fixed map from path to error code. A faulty path fails in the same way for read, write and unlink alike, and the faults do not change between requests. For that reason the model does not capture a write-only file, which accepts `writeFile` and rejects `readFile` with `EACCES`. `Fs.WriteThenRead` and `HandlerLaws.PutThenGet` rely on this simplification. A failed `writeFile` is modelled as changing nothing, although a real one may leave a partly written file.
- An error raised by the request stream while a PUT body is read is left out. The body is a complete sequence of chunks.
- The asynchronous scheduling, and concurrent requests racing on the same file, are left out. Requests are handled one at a time.
- There is no fetch from a remote image provider on a cache miss, because `index.js` has none. A GET miss answers 404 through the `catch` block.
- Response bodies are kept as text or raw bytes. How `res.end` encodes a string is not modelled.
