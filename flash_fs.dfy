/**
 * LittleFS as the firmware uses it: a flat map from path to file contents,
 * whether `LittleFS.begin()` mounted the partition, and whether the flash
 * currently accepts a file opened for writing (an oracle: a full or worn
 * partition refuses it).
 */
module FlashFs {
  import opened Arduino

  class Fs {
    var mounted: bool
    var files: map<string, string>
    var writable: bool

    constructor (mounted: bool, files: map<string, string>, writable: bool)
      ensures this.mounted == mounted && this.files == files && this.writable == writable
    {
      this.mounted := mounted;
      this.files := files;
      this.writable := writable;
    }

    /** `LittleFS.exists(path)`. */
    method Exists(path: string) returns (b: bool)
      ensures b <==> mounted && path in files
    {
      b := mounted && path in files;
    }

    /** `LittleFS.open(path, FILE_READ)` followed by reading the whole file; `None` when the open fails. */
    method Read(path: string) returns (r: Option<string>)
      ensures r.Some? <==> mounted && path in files
      ensures r.Some? ==> r.value == files[path]
    {
      if mounted && path in files {
        r := Some(files[path]);
      } else {
        r := None;
      }
    }

    /** `LittleFS.open(path, "w")`, writing `content`, `close()`; false when the open fails. */
    method Write(path: string, content: string) returns (ok: bool)
      modifies this
      ensures ok <==> old(mounted && writable)
      ensures files == if ok then old(files)[path := content] else old(files)
      ensures mounted == old(mounted) && writable == old(writable)
    {
      ok := mounted && writable;
      if ok {
        files := files[path := content];
      }
    }

    /** `LittleFS.remove(path)`: fails, changing nothing, when there is no such file. */
    method Remove(path: string) returns (ok: bool)
      modifies this
      ensures ok <==> old(mounted) && path in old(files)
      ensures files == if ok then old(files) - {path} else old(files)
      ensures mounted == old(mounted) && writable == old(writable)
    {
      ok := mounted && path in files;
      if ok {
        files := files - {path};
      }
    }

    /** `LittleFS.end()`: unmounts the partition. */
    method End()
      modifies this
      ensures !mounted && files == old(files) && writable == old(writable)
    {
      mounted := false;
    }
  }
}
