/** The server's file store: a map from path to the bytes stored there. Both
    the replay files of time trials and the archive item files live in it. */
module FileSystem {
  import opened Common

  class FileStore {
    var files: map<string, seq<byte>>

    constructor (initial: map<string, seq<byte>>)
      ensures files == initial
    {
      files := initial;
    }

    /** `std::fs::exists` when it succeeds. */
    function Exists(path: string): (b: bool)
      reads this
      ensures b <==> path in files
    {
      path in files
    }

    /** `write`: creates the file or replaces its whole content. */
    method Write(path: string, data: seq<byte>)
      modifies this
      ensures files == old(files)[path := data]
    {
      files := files[path := data];
    }
  }
}
