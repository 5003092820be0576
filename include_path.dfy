/**
 * `include_path`: write an installation path into a list of files in place of a keyword. The
 * file system is a map from file name to text content, passed in and returned; the printed
 * progress messages are returned as a log.
 */
module IncludePath {
  import opened Strings

  /** The path as written into the files: on Windows (`os.name == "nt"`) every `\` becomes `/`. */
  function NormalisePath(path: string, isWindows: bool): (p: string)
    ensures |p| == |path|
    ensures isWindows ==> '\\' !in p
    ensures isWindows ==> forall i :: 0 <= i < |path| ==> p[i] == if path[i] == '\\' then '/' else path[i]
    ensures !isWindows ==> p == path
  {
    if isWindows then
      ReplaceChar(path, '\\', '/');
      Replace(path, ['\\'], ['/'])
    else path
  }

  /** Python's `s.replace("", n)`: `n` before every character and once more at the end. */
  function ReplaceEmpty(s: string, n: string): (r: string)
    ensures |r| == |s| + (|s| + 1) * |n|
    ensures r[..|n|] == n && r[|r| - |n|..] == n
  {
    if s == [] then n
    else
      var rest := ReplaceEmpty(s[1..], n);
      assert (|s| + 1) * |n| == (|s[1..]| + 1) * |n| + |n|;
      n + [s[0]] + rest
  }

  /** Python's `s.replace(k, n)` for any keyword, the empty one included. */
  function PyReplace(s: string, k: string, n: string): string
  {
    if k == [] then ReplaceEmpty(s, n) else Replace(s, k, n)
  }

  /** One pass of the loop body: an existing file gets its keyword replaced; a missing one is skipped. */
  function UpdateFile(fs: map<string, string>, f: string, keyword: string, p: string): map<string, string>
  {
    if f in fs then fs[f := PyReplace(fs[f], keyword, p)] else fs
  }

  /** The file system after the loop over `files`, in list order. */
  function ReplaceInFiles(fs: map<string, string>, files: seq<string>, keyword: string, p: string): (r: map<string, string>)
    ensures r.Keys == fs.Keys
  {
    if files == [] then fs
    else UpdateFile(ReplaceInFiles(fs, files[..|files| - 1], keyword, p), files[|files| - 1], keyword, p)
  }

  /** The message printed for one listed file: `Updated: f` or `File not found: f`. */
  datatype Message = Updated(file: string) | NotFound(file: string)

  function MessageFor(fs: map<string, string>, f: string): Message
  {
    if f in fs then Updated(f) else NotFound(f)
  }

  /** `replace_keyword_in_files`: rewrites each listed file, returning the new file system and the messages. */
  method ReplaceKeywordInFiles(fs: map<string, string>, path: string, files: seq<string>, keyword: string, isWindows: bool)
    returns (result: map<string, string>, log: seq<Message>)
    ensures result == ReplaceInFiles(fs, files, keyword, NormalisePath(path, isWindows))
    ensures |log| == |files| && forall i :: 0 <= i < |files| ==> log[i] == MessageFor(fs, files[i])
  {
    var p := path;
    if isWindows {
      p := Replace(p, ['\\'], ['/']);
    }
    result := fs;
    log := [];
    for i := 0 to |files|
      invariant result == ReplaceInFiles(fs, files[..i], keyword, p)
      invariant |log| == i && forall j :: 0 <= j < i ==> log[j] == MessageFor(fs, files[j])
    {
      assert files[..i + 1] == files[..i] + [files[i]];
      var f := files[i];
      if f in result {
        result := result[f := PyReplace(result[f], keyword, p)];
        log := log + [Updated(f)];
      } else {
        log := log + [NotFound(f)];
      }
    }
    assert files[..|files|] == files;
  }

  /** The keyword replaced `c` times over, as a file listed `c` times sees it. */
  function Repeat(s: string, k: string, n: string, c: nat): string
  {
    if c == 0 then s else PyReplace(Repeat(s, k, n, c - 1), k, n)
  }

  /**
   * An existing file listed `c` times has the keyword replaced `c` times over, each pass
   * seeing the previous one's output (so a file not listed keeps its content).
   */
  lemma {:induction false} ReplaceInFilesEffect(fs: map<string, string>, files: seq<string>, keyword: string, p: string)
    ensures forall f :: f in fs ==> ReplaceInFiles(fs, files, keyword, p)[f] == Repeat(fs[f], keyword, p, multiset(files)[f])
  {
    if files != [] {
      var init := files[..|files| - 1];
      var last := files[|files| - 1];
      ReplaceInFilesEffect(fs, init, keyword, p);
      var prev := ReplaceInFiles(fs, init, keyword, p);
      var r := ReplaceInFiles(fs, files, keyword, p);
      assert r == UpdateFile(prev, last, keyword, p);
      assert files == init + [last];
      forall f | f in fs
        ensures r[f] == Repeat(fs[f], keyword, p, multiset(files)[f])
      {
        assert multiset(files)[f] == multiset(init)[f] + if f == last then 1 else 0;
      }
    }
  }

  /** Listed once, an existing file's new content is its old one with the keyword replaced. */
  lemma ListedOnce(fs: map<string, string>, files: seq<string>, keyword: string, p: string, f: string)
    requires f in fs && multiset(files)[f] == 1
    ensures ReplaceInFiles(fs, files, keyword, p)[f] == PyReplace(fs[f], keyword, p)
  {
    ReplaceInFilesEffect(fs, files, keyword, p);
    assert Repeat(fs[f], keyword, p, 1) == PyReplace(fs[f], keyword, p);
  }

  /** Listed twice, the second pass rewrites the output of the first. */
  lemma ListedTwice(fs: map<string, string>, files: seq<string>, keyword: string, p: string, f: string)
    requires f in fs && multiset(files)[f] == 2
    ensures ReplaceInFiles(fs, files, keyword, p)[f] == PyReplace(PyReplace(fs[f], keyword, p), keyword, p)
  {
    ReplaceInFilesEffect(fs, files, keyword, p);
    assert Repeat(fs[f], keyword, p, 1) == PyReplace(fs[f], keyword, p);
  }

  /** A file that is not listed is left as it was. */
  lemma NotListedUnchanged(fs: map<string, string>, files: seq<string>, keyword: string, p: string, f: string)
    requires f in fs && f !in files
    ensures ReplaceInFiles(fs, files, keyword, p)[f] == fs[f]
  {
    ReplaceInFilesEffect(fs, files, keyword, p);
    assert multiset(files)[f] == 0;
  }

  /** Repeated passes over a text without the (non-empty) keyword change nothing. */
  lemma {:induction false} RepeatWithoutKeyword(s: string, k: string, n: string, c: nat)
    requires k != [] && NoOccurrence(s, k)
    ensures Repeat(s, k, n, c) == s
  {
    if c > 0 {
      RepeatWithoutKeyword(s, k, n, c - 1);
      ReplaceWithoutOccurrence(s, k, n);
    }
  }

  /** If no file contains the (non-empty) keyword, the file system is unchanged. */
  lemma NoKeywordNoChange(fs: map<string, string>, files: seq<string>, keyword: string, p: string)
    requires keyword != [] && forall f :: f in fs ==> NoOccurrence(fs[f], keyword)
    ensures ReplaceInFiles(fs, files, keyword, p) == fs
  {
    var r := ReplaceInFiles(fs, files, keyword, p);
    ReplaceInFilesEffect(fs, files, keyword, p);
    forall f | f in fs ensures r[f] == fs[f] {
      RepeatWithoutKeyword(fs[f], keyword, p, multiset(files)[f]);
    }
  }
}
