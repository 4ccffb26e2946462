/** The part of `fs/promises` the server uses (`readFile`, `writeFile`,
    `unlink`), over a file system that maps file paths to their bytes. */
module Fs {

  newtype byte = x: int | 0 <= x < 256

  type Path = string

  /** The files present on disk and their contents. */
  type Files = map<Path, seq<byte>>

  /** Paths whose every access fails with the given error code (a directory
      in the way, a permission denied, a disk error). */
  type Faults = map<Path, string>

  /** The error code Node gives when the file does not exist. */
  const ENOENT: string := "ENOENT"

  /** What a call resolves to (`Ok`) or the `code` of the error it rejects
      with (`Err`). */
  datatype FsResult<+T> = Ok(value: T) | Err(code: string)

  /** A call's outcome together with the files after it. */
  datatype Effect = Effect(result: FsResult<()>, files: Files)

  /** One call into the file system, as recorded in a trace. */
  datatype FsCall = ReadCall(path: Path) | WriteCall(path: Path, data: seq<byte>) | UnlinkCall(path: Path)

  /** `fs.readFile(p)`. */
  function Read(files: Files, faults: Faults, p: Path): FsResult<seq<byte>> {
    if p in faults then Err(faults[p])
    else if p in files then Ok(files[p])
    else Err(ENOENT)
  }

  /** `fs.writeFile(p, data)`: creates the file or replaces its contents. */
  function Write(files: Files, faults: Faults, p: Path, data: seq<byte>): Effect {
    if p in faults then Effect(Err(faults[p]), files)
    else Effect(Ok(()), files[p := data])
  }

  /** `fs.unlink(p)`: removes the file, failing with ENOENT when there is
      none. */
  function Unlink(files: Files, faults: Faults, p: Path): Effect {
    if p in faults then Effect(Err(faults[p]), files)
    else if p in files then Effect(Ok(()), files - {p})
    else Effect(Err(ENOENT), files)
  }

  /** Reading succeeds exactly on a healthy path that holds a file, and then
      yields that file's bytes. */
  lemma ReadOutcome(files: Files, faults: Faults, p: Path)
    ensures Read(files, faults, p).Ok? <==> p !in faults && p in files
    ensures Read(files, faults, p).Ok? ==> Read(files, faults, p).value == files[p]
    ensures p !in faults && p !in files ==> Read(files, faults, p) == Err(ENOENT)
  {
  }

  /** A successful write is read back unchanged. */
  lemma WriteThenRead(files: Files, faults: Faults, p: Path, data: seq<byte>)
    requires Write(files, faults, p, data).result.Ok?
    ensures Read(Write(files, faults, p, data).files, faults, p) == Ok(data)
  {
  }

  /** A write changes the file it names and no other; a failed write changes
      nothing. */
  lemma WriteFrame(files: Files, faults: Faults, p: Path, data: seq<byte>, q: Path)
    requires q != p || Write(files, faults, p, data).result.Err?
    ensures Read(Write(files, faults, p, data).files, faults, q) == Read(files, faults, q)
  {
  }

  /** After a successful unlink the file is gone, and a second unlink fails
      with ENOENT. */
  lemma UnlinkThenRead(files: Files, faults: Faults, p: Path)
    requires Unlink(files, faults, p).result.Ok?
    ensures Read(Unlink(files, faults, p).files, faults, p) == Err(ENOENT)
    ensures Unlink(Unlink(files, faults, p).files, faults, p).result == Err(ENOENT)
  {
  }

  /** An unlink removes the file it names and no other; a failed unlink
      changes nothing. */
  lemma UnlinkFrame(files: Files, faults: Faults, p: Path, q: Path)
    requires q != p || Unlink(files, faults, p).result.Err?
    ensures Read(Unlink(files, faults, p).files, faults, q) == Read(files, faults, q)
  {
  }

  /** The file system the server runs against. `trace` records every call
      made to it, so that a caller can state which requests touch the disk. */
  class FileSystem {
    var files: Files
    const faults: Faults
    ghost var trace: seq<FsCall>

    constructor (files: Files, faults: Faults)
      ensures this.files == files && this.faults == faults && trace == []
    {
      this.files := files;
      this.faults := faults;
      trace := [];
    }

    method ReadFile(p: Path) returns (r: FsResult<seq<byte>>)
      modifies this`trace
      ensures r == Read(files, faults, p)
      ensures trace == old(trace) + [ReadCall(p)]
    {
      if p in faults {
        r := Err(faults[p]);
      } else if p in files {
        r := Ok(files[p]);
      } else {
        r := Err(ENOENT);
      }
      trace := trace + [ReadCall(p)];
    }

    method WriteFile(p: Path, data: seq<byte>) returns (r: FsResult<()>)
      modifies this
      ensures Effect(r, files) == Write(old(files), faults, p, data)
      ensures trace == old(trace) + [WriteCall(p, data)]
    {
      if p in faults {
        r := Err(faults[p]);
      } else {
        files := files[p := data];
        r := Ok(());
      }
      trace := trace + [WriteCall(p, data)];
    }

    method UnlinkFile(p: Path) returns (r: FsResult<()>)
      modifies this
      ensures Effect(r, files) == Unlink(old(files), faults, p)
      ensures trace == old(trace) + [UnlinkCall(p)]
    {
      if p in faults {
        r := Err(faults[p]);
      } else if p in files {
        files := files - {p};
        r := Ok(());
      } else {
        r := Err(ENOENT);
      }
      trace := trace + [UnlinkCall(p)];
    }
  }
}
