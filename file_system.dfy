/**
 * The local file system as the scrapers see it: a map from path to file
 * size in bytes. Directories are not modelled (see README).
 */
module FileSystem {

  class Disk {
    /** Every existing file and its size. */
    var files: map<string, nat>

    constructor (initial: map<string, nat>)
      ensures files == initial
    {
      files := initial;
    }

    /** `touch($path)`: creates an empty file if none exists and leaves an existing one as it is. */
    method Touch(path: string)
      modifies this
      ensures files == if path in old(files) then old(files) else old(files)[path := 0]
    {
      if path !in files {
        files := files[path := 0];
      }
    }

    /** `if (file_exists($path)) unlink($path)`: the file is gone afterwards. */
    method DeleteIfExists(path: string)
      modifies this
      ensures files == old(files) - {path}
    {
      files := files - {path};
    }

    /** A write that leaves the file at the given size. */
    method SetSize(path: string, size: nat)
      modifies this
      ensures files == old(files)[path := size]
    {
      files := files[path := size];
    }

    /** Bytes written at the end of a file opened for writing: a missing file is created first. */
    method Append(path: string, n: nat)
      modifies this
      ensures files == old(files)[path := (if path in old(files) then old(files)[path] else 0) + n]
    {
      var before := if path in files then files[path] else 0;
      files := files[path := before + n];
    }

    /** `filesize($path)` where the file exists, 0 where it does not. */
    function SizeOrZero(path: string): (n: nat)
      reads this
      ensures path in files ==> n == files[path]
      ensures path !in files ==> n == 0
    {
      if path in files then files[path] else 0
    }
  }
}
