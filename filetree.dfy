/**
 * The documentation tree as the generator sees it, and the files it writes.
 * Reading never observes the generator's own writes (each directory is
 * listed before anything is written below it, and `index.rst` is never
 * read as content), so the tree is an immutable value and the writes are
 * a log.
 */
module FileTree {

  /** What `open(path).read()` yields: the text, or an error (permissions, a decoding failure). */
  datatype Content = Text(text: string) | Unreadable

  /** A directory maps each entry name to a file or a subdirectory. */
  datatype Node = File(content: Content) | Dir(entries: map<string, Node>)

  /** One `open(path, 'w').write(text)`. */
  datatype Write = Write(path: string, text: string)

  /** The output side of the filesystem: every file written, in order. */
  class Disk {
    var log: seq<Write>

    constructor ()
      ensures log == []
    {
      log := [];
    }

    method WriteFile(path: string, text: string)
      modifies this
      ensures log == old(log) + [Write(path, text)]
    {
      log := log + [Write(path, text)];
    }
  }
}
