/** Output file names of the `sefer` converter (rust/sefer/src/file_ops.rs):
    the input path with its extension replaced, or an extension added. Reading
    and writing files are left out. */
module FileOps {
  import opened Wrappers
  import opened Strings

  /** `generate_output_filename` as written: the last `.` anywhere in the
      path, directories included, starts the extension that is replaced. */
  function GenerateOutputFilename(inputPath: string, extension: string): (r: string)
    ensures EndsWith(r, "." + extension)
    ensures '.' !in inputPath ==> r == inputPath + "." + extension
    ensures '.' in inputPath ==>
      var base := r[..|r| - |extension| - 1];
      |base| < |inputPath| && inputPath[..|base|] == base && inputPath[|base|] == '.' && '.' !in inputPath[|base| + 1..]
  {
    match RSplitOnce(inputPath, '.')
    case None => Suffixed(inputPath, extension)
    case Some((base, rest)) =>
      assert inputPath == base + ['.'] + rest;
      assert inputPath[|base| + 1..] == rest;
      Suffixed(base, extension)
  }

  /** `base + "." + extension`, which ends with its extension. */
  function Suffixed(base: string, extension: string): (r: string)
    ensures EndsWith(r, "." + extension)
    ensures |r| == |base| + 1 + |extension| && r[..|base|] == base
  {
    var r := base + "." + extension;
    assert r[|r| - |"." + extension|..] == "." + extension;
    r
  }

  /** Deriving again with the same dot-free extension changes nothing. */
  lemma GenerateIdempotent(inputPath: string, extension: string)
    requires '.' !in extension
    ensures GenerateOutputFilename(GenerateOutputFilename(inputPath, extension), extension)
         == GenerateOutputFilename(inputPath, extension)
  {
    var r := GenerateOutputFilename(inputPath, extension);
    var base := r[..|r| - |extension| - 1];
    assert r == base + ['.'] + extension;
    RSplitOnceLast(base, '.', extension);
  }

  /** A path whose last dot is in a directory name loses everything after
      that dot: `"./bible"` becomes `"." + extension`, and so does every
      undotted file name under `"./"`. */
  lemma DotDirectoryTruncates(name: string, extension: string)
    requires '.' !in name
    ensures GenerateOutputFilename("./" + name, extension) == "." + extension
  {
    RSplitOnceLast("", '.', "/" + name);
    assert "" + ['.'] + ("/" + name) == "./" + name;
  }

  /** The file name: the text after the last `/`. */
  function FileName(path: string): (r: string)
    ensures '/' !in r
  {
    match RSplitOnce(path, '/')
    case None => path
    case Some((_, name)) => name
  }

  /** The extension replaced only inside the file name: the directory part
      is kept whatever dots it contains. */
  function GenerateOutputFilenameIntended(inputPath: string, extension: string): (r: string)
    ensures EndsWith(r, "." + extension)
  {
    match RSplitOnce(inputPath, '/')
    case None => GenerateOutputFilename(inputPath, extension)
    case Some((dir, name)) =>
      var r := dir + "/" + GenerateOutputFilename(name, extension);
      assert r == (dir + "/") + GenerateOutputFilename(name, extension);
      EndsWithAppend(dir + "/", GenerateOutputFilename(name, extension));
      r
  }

  /** The corrected derivation keeps every directory and changes only the
      file name. */
  lemma IntendedKeepsDirectory(dir: string, name: string, extension: string)
    requires '/' !in name
    ensures GenerateOutputFilenameIntended(dir + "/" + name, extension)
         == dir + "/" + GenerateOutputFilename(name, extension)
  {
    RSplitOnceLast(dir, '/', name);
  }

  /** Without a dot the two derivations agree. */
  lemma IntendedAgreesUndotted(inputPath: string, extension: string)
    requires '.' !in inputPath
    ensures GenerateOutputFilenameIntended(inputPath, extension) == GenerateOutputFilename(inputPath, extension)
  {
    if '/' in inputPath {
      var (dir, name) := RSplitOnce(inputPath, '/').value;
      forall k | 0 <= k < |name| ensures name[k] != '.' {
        assert name[k] == inputPath[|dir| + 1 + k];
      }
    }
  }

  /** Without a directory the two derivations agree. */
  lemma IntendedAgreesUndirected(inputPath: string, extension: string)
    requires '/' !in inputPath
    ensures GenerateOutputFilenameIntended(inputPath, extension) == GenerateOutputFilename(inputPath, extension)
  {
  }

  /** The dotted directory `"./"` is kept as intended: `"./bible"` becomes
      `"./bible." + extension`. */
  lemma DotDirectoryKept(name: string, extension: string)
    requires '.' !in name && '/' !in name
    ensures GenerateOutputFilenameIntended("./" + name, extension) == "./" + name + "." + extension
  {
    RSplitOnceLast(".", '/', name);
    assert "." + ['/'] + name == "./" + name;
  }

  /** The unit tests' cases, for any new extension. */
  lemma DottedExample(extension: string)
    ensures GenerateOutputFilename("test.json", extension) == "test." + extension
  {
    ReplacedExtension("test", "json", extension);
    assert "test" + "." + "json" == "test.json";
  }

  lemma UndottedExample(extension: string)
    ensures GenerateOutputFilename("test", extension) == "test." + extension
  {
    assert forall k | 0 <= k < 4 :: "test"[k] != '.';
  }

  /** The extension after the last dot is replaced. */
  lemma ReplacedExtension(base: string, previous: string, extension: string)
    requires '.' !in previous
    ensures GenerateOutputFilename(base + "." + previous, extension) == base + "." + extension
  {
    RSplitOnceLast(base, '.', previous);
  }
}
