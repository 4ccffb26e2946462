/** Where an image is kept: the file `<code>.jpg` inside the cache
    directory given on the command line. */
module CachePath {

  const EXTENSION: string := ".jpg"

  /** The directory part `path.join` puts in front of a file name: the
      directory followed by one slash, none added when it already ends in
      one, and nothing at all when the directory is empty. */
  function DirPrefix(dir: string): string {
    if dir == [] || dir[|dir| - 1] == '/' then dir else dir + "/"
  }

  /** `path.join(dir, name)` for a directory and a single file name. */
  function JoinPath(dir: string, name: string): string {
    DirPrefix(dir) + name
  }

  /** The file an image code is cached in. */
  function CacheFilePath(cacheDir: string, code: string): (p: string)
    ensures |p| == |DirPrefix(cacheDir)| + |code| + |EXTENSION|
    ensures p[|p| - |code| - |EXTENSION|..] == code + EXTENSION
    ensures p[..|cacheDir|] == cacheDir
    ensures cacheDir != [] ==> p[|p| - |code| - |EXTENSION| - 1] == '/'
  {
    JoinPath(cacheDir, code + EXTENSION)
  }

  /** Distinct codes are cached in distinct files. */
  lemma CacheFilePathInjective(cacheDir: string, code1: string, code2: string)
    requires CacheFilePath(cacheDir, code1) == CacheFilePath(cacheDir, code2)
    ensures code1 == code2
  {
    var pre := DirPrefix(cacheDir);
    var p := pre + (code1 + EXTENSION);
    assert p == pre + (code2 + EXTENSION);
    assert |code1| == |code2|;
    assert code1 == p[|pre|..|pre| + |code1|];
    assert code2 == p[|pre|..|pre| + |code2|];
  }
}
