/** The host's file-system watcher, reduced to what the terminal uses: the
    pattern and ignore flags it was created with, and whether it has been
    disposed. Event delivery belongs to the host and is not modelled. */
module FileWatchers {

  class FileSystemWatcher {
    const pattern: string
    const ignoreCreateEvents: bool
    const ignoreChangeEvents: bool
    const ignoreDeleteEvents: bool
    var disposed: bool

    /** `vscode.workspace.createFileSystemWatcher(pattern, ...)` */
    constructor (pattern: string, ignoreCreateEvents: bool, ignoreChangeEvents: bool, ignoreDeleteEvents: bool)
      ensures this.pattern == pattern
      ensures this.ignoreCreateEvents == ignoreCreateEvents
      ensures this.ignoreChangeEvents == ignoreChangeEvents
      ensures this.ignoreDeleteEvents == ignoreDeleteEvents
      ensures !disposed
    {
      this.pattern := pattern;
      this.ignoreCreateEvents := ignoreCreateEvents;
      this.ignoreChangeEvents := ignoreChangeEvents;
      this.ignoreDeleteEvents := ignoreDeleteEvents;
      disposed := false;
    }

    /** `fw.dispose()`; disposing twice is harmless. */
    method Dispose()
      modifies this
      ensures disposed
    {
      disposed := true;
    }
  }
}
