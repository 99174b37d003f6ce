/**
 * The file system as the pipeline sees it through Node's `fs` module: a map
 * from the full path handed to `fs` to the file's text. Directories are not
 * modelled, so `mkdir` has nothing to do and a write always succeeds.
 */
module Disk {
  import opened Wrappers

  /** The message of the ENOENT error `fs` raises for `syscall` on a missing path. */
  function NotFound(syscall: string, path: string): string
  {
    "ENOENT: no such file or directory, " + syscall + " '" + path + "'"
  }

  class FileSystem {
    var files: map<string, string>

    constructor (initial: map<string, string>)
      ensures files == initial
    {
      files := initial;
    }

    /** `fs.readFile(path, 'utf8')`. */
    method ReadFile(path: string) returns (r: Result<string>)
      ensures r == if path in files then Success(files[path]) else Failure(NotFound("open", path))
    {
      if path in files {
        r := Success(files[path]);
      } else {
        r := Failure(NotFound("open", path));
      }
    }

    /** `fs.writeFile(path, content, 'utf8')`. */
    method WriteFile(path: string, content: string)
      modifies this
      ensures files == old(files)[path := content]
    {
      files := files[path := content];
    }

    /** `fs.unlink(path)`: the error it raises, if any. */
    method Unlink(path: string) returns (error: Option<string>)
      modifies this
      ensures files == old(files) - {path}
      ensures error == if path in old(files) then None else Some(NotFound("unlink", path))
    {
      error := if path in files then None else Some(NotFound("unlink", path));
      files := files - {path};
    }

    /** `fs.access(path)` succeeding, or `fs.existsSync(path)`. */
    method Exists(path: string) returns (b: bool)
      ensures b == (path in files)
    {
      b := path in files;
    }
  }
}
