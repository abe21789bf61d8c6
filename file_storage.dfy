/** The file system under the storage root, as far as the service writes to it. */
module FileStorage {

  class Storage {
    /** The directories that exist; a copy neither creates nor removes one. */
    const directories: set<string>
    /** The stored files, by path. */
    var files: map<string, seq<bv8>>
    /** Every path a copy was attempted to, in order. */
    var attempts: seq<string>

    /** No path is both a file and a directory. */
    ghost predicate Valid()
      reads this
    {
      files.Keys !! directories
    }

    constructor (directories: set<string>)
      ensures this.directories == directories
      ensures files == map[] && attempts == []
      ensures Valid()
    {
      this.directories := directories;
      files := map[];
      attempts := [];
    }

    /**
      `Files.copy(in, target)` with no copy options: it refuses a target that
      already exists, as a file or as a directory, and it can fail on an I/O
      error (`ioError`, which the model takes as given). On failure nothing
      is stored.
     */
    method Copy(content: seq<bv8>, path: string, ioError: bool) returns (ok: bool)
      requires Valid()
      modifies this
      ensures Valid()
      ensures ok <==> !ioError && path !in old(files) && path !in directories
      ensures files == if ok then old(files)[path := content] else old(files)
      ensures attempts == old(attempts) + [path]
    {
      ok := !ioError && path !in files && path !in directories;
      if ok {
        files := files[path := content];
      }
      attempts := attempts + [path];
    }
  }
}
