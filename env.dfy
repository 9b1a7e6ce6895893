/**
 * The parts of the PHP runtime the framework core reads: the filesystem
 * (files, directories, declared classes and their methods), the request
 * superglobals, and the page-cache directory, which is the one place the
 * core writes to. Logger calls made by Http and Command are returned as
 * LogCall values instead of being performed.
 */
module Env {
  import opened ByteStrings

  /**
   * The installation as the core sees it. `files` maps a path to the output
   * that including it produces; `classes` maps a lower-cased class name to the
   * lower-cased names of its methods, because class_exists and method_exists
   * ignore ASCII case.
   */
  datatype Host = Host(
    ds: Bytes,                       // DIRECTORY_SEPARATOR
    appRoot: Bytes,                  // APP_ROOT, ending in ds
    files: map<Bytes, Bytes>,
    dirs: set<Bytes>,
    classes: map<Bytes, set<Bytes>>)

  /** file_exists is true of directories as well as of files. */
  predicate FileExists(h: Host, path: Bytes) {
    path in h.files || path in h.dirs
  }

  predicate IsDir(h: Host, path: Bytes) {
    path in h.dirs
  }

  predicate ClassExists(h: Host, name: Bytes) {
    Lower(name) in h.classes
  }

  predicate MethodExists(h: Host, className: Bytes, name: Bytes) {
    Lower(className) in h.classes && Lower(name) in h.classes[Lower(className)]
  }

  /** PAGE_DIR. */
  function PageDir(h: Host): Bytes {
    h.appRoot + "Pages" + h.ds
  }

  /** TEMP_DIR. */
  function TempDir(h: Host): Bytes {
    h.appRoot + "Temp" + h.ds
  }

  /** The request superglobals the core reads; None stands for an unset entry. */
  datatype Server = Server(
    urlParam: Option<Bytes>,         // $_GET['url']
    post: map<Bytes, Bytes>,         // $_POST
    requestMethod: Bytes,            // $_SERVER['REQUEST_METHOD']
    https: Option<Bytes>,            // $_SERVER['HTTPS']
    host: Bytes,                     // $_SERVER['HTTP_HOST']
    requestUri: Bytes,               // $_SERVER['REQUEST_URI']
    scriptName: Bytes,               // $_SERVER['SCRIPT_NAME']
    requestedWith: Option<Bytes>,    // $_SERVER['HTTP_X_REQUESTED_WITH']
    sapi: Bytes)                     // PHP_SAPI

  /** A call Logger::<level>(message) that the core makes. */
  datatype LogCall = LogCall(level: Bytes, message: Bytes)

  /** The cache directory TEMP_DIR/Cache: the full path of each file it holds, with its content. */
  class CacheDir {
    var files: map<Bytes, Bytes>

    constructor (initial: map<Bytes, Bytes>)
      ensures files == initial
    {
      files := initial;
    }

    /** file_put_contents: create or overwrite one file. */
    method Write(path: Bytes, content: Bytes)
      modifies this
      ensures files == old(files)[path := content]
    {
      files := files[path := content];
    }

    /** unlink of one file. */
    method Remove(path: Bytes)
      modifies this
      ensures files == old(files) - {path}
    {
      files := files - {path};
    }
  }
}
