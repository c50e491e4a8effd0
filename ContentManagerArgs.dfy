/** ContentManagerArgs: the settings a content manager is built from. */
module ContentArgs {
  import opened Results
  import opened Containers

  /** A `Dictionary<string, ProcessContent>` from file extension to processor. */
  class ExtensionTable {
    var entries: map<string, Processor>

    constructor ()
      ensures entries == map[]
    {
      entries := map[];
    }

    /** `new Dictionary<…>(other)`: a new table holding the same entries. */
    constructor Copy(other: ExtensionTable)
      ensures entries == old(other.entries)
    {
      entries := other.entries;
    }

    /** `Dictionary.Add`: a key already present throws and changes nothing. */
    method Add(key: string, value: Processor) returns (o: Outcome<Exception>)
      modifies this
      ensures o.Fail? <==> key in old(entries)
      ensures o.Fail? ==> o.error == DuplicateKey && entries == old(entries)
      ensures o.Pass? ==> entries == old(entries)[key := value]
    {
      if key in entries {
        return Fail(DuplicateKey);
      }
      entries := entries[key := value];
      o := Pass;
    }
  }

  /** The built-in table: the four image extensions, all read as textures. */
  const DefaultExtensions: map<string, Processor> :=
    map["png" := ProcessTexture, "jpg" := ProcessTexture, "jpeg" := ProcessTexture, "bmp" := ProcessTexture]

  /** `@"content\"`. */
  const DefaultContentPath: string := "content\\"

  /** Exactly the four image extensions are registered, each to the texture processor. */
  lemma DefaultExtensionsExactly(ext: string)
    ensures ext in DefaultExtensions <==> ext in {"png", "jpg", "jpeg", "bmp"}
    ensures ext in DefaultExtensions ==> DefaultExtensions[ext] == ProcessTexture
  {
  }

  class ContentManagerArgs {
    var contentPath: string
    var relativePath: bool
    var safeContentLoading: bool
    var extensions: ExtensionTable

    /** The defaults: a relative `content\` folder, unsafe loading, the image table. */
    constructor ()
      ensures contentPath == DefaultContentPath && relativePath && !safeContentLoading
      ensures fresh(extensions) && extensions.entries == DefaultExtensions
    {
      contentPath := DefaultContentPath;
      relativePath := true;
      safeContentLoading := false;
      var table := new ExtensionTable();
      var _ := table.Add("png", ProcessTexture);
      var _ := table.Add("jpg", ProcessTexture);
      var _ := table.Add("jpeg", ProcessTexture);
      var _ := table.Add("bmp", ProcessTexture);
      extensions := table;
    }

    /** The copy constructor: the same settings over a new table, so later additions stay apart. */
    constructor Copy(args: ContentManagerArgs)
      ensures contentPath == args.contentPath && relativePath == args.relativePath
      ensures safeContentLoading == args.safeContentLoading
      ensures fresh(extensions) && extensions.entries == args.extensions.entries
    {
      contentPath := args.contentPath;
      relativePath := args.relativePath;
      safeContentLoading := args.safeContentLoading;
      extensions := new ExtensionTable.Copy(args.extensions);
    }
  }
}
