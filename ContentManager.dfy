/**
 * ContentManager: the table of processors by extension, the choice of a
 * processor for a path, and the container bookkeeping of a load. Reading
 * files, hashing and the file watcher are not modelled; what a processor
 * makes of a file is passed in as an opaque payload.
 */
module Content {
  import opened Results
  import opened Containers
  import opened ContentArgs

  /** `path.Split('.')`: the pieces between the dots, empty pieces included. */
  function Split(s: string): (r: seq<string>)
    ensures |r| >= 1
    decreases |s|
  {
    if s == [] then [[]]
    else
      var rest := Split(s[1..]);
      if s[0] == '.' then [[]] + rest else [[s[0]] + rest[0]] + rest[1..]
  }

  /** `string.Join(".", parts)`, the inverse of `Split`. */
  function Join(parts: seq<string>): string
    requires |parts| >= 1
    decreases |parts|
  {
    if |parts| == 1 then parts[0] else parts[0] + "." + Join(parts[1..])
  }

  lemma {:induction false} JoinSplit(s: string)
    ensures Join(Split(s)) == s
    decreases |s|
  {
    if s != [] {
      var rest := Split(s[1..]);
      JoinSplit(s[1..]);
      if s[0] == '.' {
        assert Split(s)[1..] == rest;
        assert Join(Split(s)) == [] + "." + Join(rest);
      } else {
        if |rest| == 1 {
          assert Join(Split(s)) == [s[0]] + rest[0];
        } else {
          assert Split(s)[1..] == rest[1..];
          assert Join(Split(s)) == [s[0]] + rest[0] + "." + Join(rest[1..]);
          assert Join(rest) == rest[0] + "." + Join(rest[1..]);
        }
      }
      assert s == [s[0]] + s[1..];
    }
  }

  lemma {:induction false} SplitPiecesHaveNoDot(s: string)
    ensures forall i :: 0 <= i < |Split(s)| ==> '.' !in Split(s)[i]
    decreases |s|
  {
    if s != [] {
      SplitPiecesHaveNoDot(s[1..]);
      var rest := Split(s[1..]);
      if s[0] != '.' {
        assert '.' !in [s[0]] + rest[0];
        forall i | 1 <= i < |Split(s)|
          ensures '.' !in Split(s)[i]
        {
          assert Split(s)[i] == rest[i];
        }
      } else {
        forall i | 1 <= i < |Split(s)|
          ensures '.' !in Split(s)[i]
        {
          assert Split(s)[i] == rest[i - 1];
        }
      }
    }
  }

  /** `splits[splits.Length - 1]`: the text after the last `.`, or the whole path. */
  function Extension(path: string): string {
    var splits := Split(path);
    splits[|splits| - 1]
  }

  /** A path splits into one piece exactly when it has no dot. */
  lemma {:induction false} SplitSingle(s: string)
    ensures |Split(s)| == 1 <==> '.' !in s
    decreases |s|
  {
    if s != [] {
      SplitSingle(s[1..]);
      assert '.' in s <==> s[0] == '.' || '.' in s[1..];
    }
  }

  /** One step of `Extension`: a leading character is kept only when no dot follows it. */
  lemma ExtensionStep(path: string)
    requires path != []
    ensures Extension(path)
            == if path[0] != '.' && '.' !in path[1..] then path else Extension(path[1..])
  {
    var tail := path[1..];
    var rest := Split(tail);
    var splits := Split(path);
    SplitSingle(tail);
    if path[0] == '.' {
      assert splits == [[]] + rest;
      assert splits[|splits| - 1] == rest[|rest| - 1];
    } else if '.' !in tail {
      assert |rest| == 1;
      JoinSplit(tail);
      assert rest[0] == tail;
      assert splits == [[path[0]] + tail];
      assert path == [path[0]] + tail;
    } else {
      assert splits == [[path[0]] + rest[0]] + rest[1..];
      assert |rest| > 1;
      assert splits[|splits| - 1] == rest[|rest| - 1];
    }
  }

  /** The extension is the longest dot-free suffix: the whole path when it has no dot. */
  lemma {:induction false} ExtensionIsLastDotFreeSuffix(path: string)
    ensures var e := Extension(path);
      && |e| <= |path| && path[|path| - |e|..] == e
      && ('.' !in path ==> e == path)
      && ('.' in path ==> |e| < |path| && path[|path| - |e| - 1] == '.')
    decreases |path|
  {
    if path != [] {
      var tail := path[1..];
      ExtensionIsLastDotFreeSuffix(tail);
      ExtensionStep(path);
      assert '.' in path <==> path[0] == '.' || '.' in tail;
      if path[0] == '.' || '.' in tail {
        SuffixOfTail(path, Extension(tail));
      }
    }
  }

  /** A suffix of `path[1..]` is a suffix of `path`, and so is the character before it. */
  lemma SuffixOfTail(path: string, e: string)
    requires path != [] && |e| <= |path| - 1 && path[1..][|path| - 1 - |e|..] == e
    ensures path[|path| - |e|..] == e
    ensures path[|path| - |e| - 1] == if |e| == |path| - 1 then path[0] else path[1..][|path| - 2 - |e|]
  {
    assert path[|path| - |e|..] == path[1..][|path| - 1 - |e|..];
  }

  /** The extension itself never holds a dot. */
  lemma ExtensionHasNoDot(path: string)
    ensures '.' !in Extension(path)
  {
    SplitPiecesHaveNoDot(path);
  }

  /** `AssumeProcess`: the processor registered for the extension, else the byte-array reader. */
  function AssumeProcess(extensions: map<string, Processor>, path: string): (p: Processor)
    ensures Extension(path) in extensions ==> p == extensions[Extension(path)]
    ensures Extension(path) !in extensions ==> p == ProcessByteArray
  {
    var extension := Extension(path);
    if extension in extensions then extensions[extension] else ProcessByteArray
  }

  /** With the default table, an image path is read as a texture and anything else as bytes. */
  lemma DefaultProcessChoice(path: string)
    ensures AssumeProcess(DefaultExtensions, path)
            == if Extension(path) in {"png", "jpg", "jpeg", "bmp"} then ProcessTexture else ProcessByteArray
  {
    DefaultExtensionsExactly(Extension(path));
  }

  /** `HashObject`: every object hashes to the empty string. */
  function HashObject(obj: Payload): (h: string)
    ensures |h| == 0
  {
    ""
  }

  /**
   * The directory handed to the file watcher: the base path without its last
   * character (the trailing separator). `String.Remove` throws on an empty base path.
   */
  function WatchedDirectory(basePath: string): (r: Result<string, Exception>)
    ensures r.Failure? <==> basePath == []
    ensures r.Failure? ==> r.error == ArgumentOutOfRange
    ensures r.Success? ==> r.value + [basePath[|basePath| - 1]] == basePath
  {
    if basePath == [] then Failure(ArgumentOutOfRange) else Success(basePath[..|basePath| - 1])
  }

  /** With the default content path the watcher observes the `content` directory itself. */
  lemma DefaultWatchedDirectory(baseDirectory: string)
    ensures WatchedDirectory(baseDirectory + DefaultContentPath) == Success(baseDirectory + "content")
  {
    var b := baseDirectory + DefaultContentPath;
    assert b[..|b| - 1] == baseDirectory + "content";
  }

  class ContentManager {
    /** `_content`: containers by path. Nothing in the class inserts into it. */
    var content: map<string, ContentContainer>
    const extensions: ExtensionTable
    const basePath: string
    /** The watcher's directory, or the exception its construction throws. */
    const watchedDirectory: Result<string, Exception>

    ghost predicate Valid()
      reads this`content
    {
      content == map[]
    }

    /**
     * The table is copied from the arguments; the base path is the process's base
     * directory (when the path is relative) followed by the content path.
     */
    constructor (args: ContentManagerArgs, baseDirectory: string)
      ensures Valid()
      ensures fresh(extensions) && extensions.entries == args.extensions.entries
      ensures basePath == (if args.relativePath then baseDirectory else "") + args.contentPath
      ensures watchedDirectory == WatchedDirectory(basePath)
    {
      content := map[];
      extensions := new ExtensionTable.Copy(args.extensions);
      var path := (if args.relativePath then baseDirectory else "") + args.contentPath;
      basePath := path;
      watchedDirectory := WatchedDirectory(path);
    }

    function ContainsPath(path: string): (r: bool)
      reads this`content
    {
      path in content
    }

    function ContainsContent(cc: ContentContainer): (r: bool)
      reads this`content
    {
      cc in content.Values
    }

    /** `LoadFromFile`: the payload is stored, hashed, and the load marked complete. */
    method LoadFromFile(cc: ContentContainer, payload: Payload)
      modifies cc`content, cc`hash, cc`loadingComplete
      ensures cc.content == Some(payload) && cc.hash == Some(HashObject(payload)) && cc.loadingComplete
    {
      cc.content := Some(payload);
      cc.hash := Some(HashObject(payload));
      cc.loadingComplete := true;
    }

    /**
     * `LoadContent(path, process)`: the container already held for the path, or
     * a new one loaded synchronously. The table of held containers is not updated.
     */
    method LoadContent(path: string, process: Processor, payload: Payload) returns (cc: ContentContainer)
      ensures content == old(content)
      ensures old(path in content) ==> cc == old(content[path])
      ensures old(path !in content) ==>
        && fresh(cc) && cc.path == path && !cc.loadedAsync && cc.process == Some(process)
        && cc.content == Some(payload) && cc.hash == Some("") && cc.loadingComplete
    {
      if path in content {
        return content[path];
      }
      cc := new ContentContainer(path);
      cc.loadedAsync := false;
      cc.process := Some(process);
      LoadFromFile(cc, payload);
    }

    /** `LoadContent(path)`: the processor is chosen from the path's extension. */
    method LoadContentByExtension(path: string, payload: Payload) returns (cc: ContentContainer)
      ensures content == old(content)
      ensures old(path in content) ==> cc == old(content[path])
      ensures old(path !in content) ==>
        && fresh(cc) && cc.path == path && !cc.loadedAsync
        && cc.process == Some(AssumeProcess(extensions.entries, path))
        && cc.content == Some(payload) && cc.hash == Some("") && cc.loadingComplete
    {
      cc := LoadContent(path, AssumeProcess(extensions.entries, path), payload);
    }

    /**
     * `LoadContentAsync(path, process)`: a new container is marked as loading
     * asynchronously and not complete before its load is queued; the queued load
     * itself is not modelled.
     */
    method LoadContentAsync(path: string, process: Processor) returns (cc: ContentContainer)
      ensures content == old(content)
      ensures old(path in content) ==> cc == old(content[path])
      ensures old(path !in content) ==>
        && fresh(cc) && cc.path == path && cc.loadedAsync && !cc.loadingComplete
        && cc.process == Some(process) && cc.content == None
    {
      if path in content {
        return content[path];
      }
      cc := new ContentContainer(path);
      cc.loadedAsync := true;
      cc.loadingComplete := false;
      cc.process := Some(process);
    }

    /** `LoadContentAsync(path)`: the processor is chosen from the path's extension. */
    method LoadContentAsyncByExtension(path: string) returns (cc: ContentContainer)
      ensures content == old(content)
      ensures old(path in content) ==> cc == old(content[path])
      ensures old(path !in content) ==>
        && fresh(cc) && cc.path == path && cc.loadedAsync && !cc.loadingComplete
        && cc.process == Some(AssumeProcess(extensions.entries, path)) && cc.content == None
    {
      cc := LoadContentAsync(path, AssumeProcess(extensions.entries, path));
    }

    /**
     * The watcher's change handler: the base path is cut off the front (which
     * throws when the full path is shorter), and a held container is reloaded:
     * at once when it was loaded synchronously, on the thread pool otherwise.
     */
    method OnChanged(fullPath: string, payload: Payload) returns (o: Outcome<Exception>)
      modifies content.Values
      ensures o.Fail? <==> |fullPath| < |basePath|
      ensures o.Fail? ==> o.error == ArgumentOutOfRange
      ensures content == old(content)
      ensures |fullPath| >= |basePath| && fullPath[|basePath|..] in content
              && !old(content[fullPath[|basePath|..]].loadedAsync) ==>
        var cc := content[fullPath[|basePath|..]];
        cc.content == Some(payload) && cc.hash == Some(HashObject(payload)) && cc.loadingComplete
      ensures old(Valid()) ==> unchanged(old(content.Values))
    {
      if |fullPath| < |basePath| {
        return Fail(ArgumentOutOfRange);
      }
      var path := fullPath[|basePath|..];
      o := Pass;
      if path !in content {
        return;
      }
      var cc := content[path];
      if !cc.loadedAsync {
        LoadFromFile(cc, payload);
      }
    }
  }

  /** Since nothing is ever held, no path and no container is ever found. */
  lemma NothingIsHeld(m: ContentManager, path: string, cc: ContentContainer)
    requires m.Valid()
    ensures !m.ContainsPath(path) && !m.ContainsContent(cc)
  {
  }
}
