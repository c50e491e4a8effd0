/** ContentContainer: one loaded asset and the facts about how it was loaded. */
module Containers {
  import opened Results

  /** A `ProcessContent` delegate: the two built-in processors or one supplied by a game. */
  datatype Processor = ProcessByteArray | ProcessTexture | CustomProcessor(id: nat)

  /** The object a processor made from a file; what it holds is not modelled. */
  datatype Payload = Payload(id: nat)

  class ContentContainer {
    var content: Option<Payload>
    var path: string
    var hash: Option<string>
    var loadedAsync: bool
    var loadingComplete: bool
    var process: Option<Processor>

    /** `ContentContainer(path)`: only the path is set; the other properties keep their defaults. */
    constructor (path: string)
      ensures this.path == path
      ensures content == None && hash == None && process == None
      ensures !loadedAsync && !loadingComplete
    {
      this.path := path;
      content := None;
      hash := None;
      loadedAsync := false;
      loadingComplete := false;
      process := None;
    }
  }
}
