/**
 * The local filesystem as the upload code sees it: a map from path to the
 * bytes of the file at that path. Failures of the operating system (a file
 * that cannot be created, a write that fails) are supplied by the caller.
 */
module Fs {
  import opened Base

  class Disk {
    var files: map<string, seq<byte>>

    constructor (initial: map<string, seq<byte>>)
      ensures files == initial
    {
      files := initial;
    }

    /**
     * `File::create`: creates the file or truncates an existing one, unless
     * the operating system answers with `failure`.
     */
    method Create(path: string, failure: Option<string>) returns (err: Option<string>)
      modifies this
      ensures err == failure
      ensures files == if failure.None? then old(files)[path := []] else old(files)
    {
      err := failure;
      if failure.None? {
        files := files[path := []];
      }
    }

    /** `write` on an open file: appends all of `data`, or fails and writes nothing. */
    method Write(path: string, data: seq<byte>, failure: Option<string>) returns (err: Option<string>)
      requires path in files
      modifies this
      ensures err == failure
      ensures files == if failure.None? then old(files)[path := old(files)[path] + data] else old(files)
    {
      err := failure;
      if failure.None? {
        files := files[path := files[path] + data];
      }
    }

    /** `fs::remove_file`: reports whether there was a file to remove. */
    method RemoveFile(path: string) returns (existed: bool)
      modifies this
      ensures existed == (path in old(files))
      ensures files == old(files) - {path}
    {
      existed := path in files;
      files := files - {path};
    }

    /**
     * `fs::copy`: the destination becomes a copy of the source. The
     * destination is opened with truncation before anything is read, so
     * copying a file onto itself leaves it empty.
     */
    method Copy(from: string, to: string)
      requires from in files
      modifies this
      ensures files == old(files)[to := if from == to then [] else old(files)[from]]
    {
      var contents := files[from];
      files := files[to := []];
      if from != to {
        files := files[to := contents];
      }
    }
  }
}
