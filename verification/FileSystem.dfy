/** A disk as a map from path to contents, with every state it has ever been in: a process that dies leaves the
    disk in one of them. Renaming replaces the target in one step. */
module FileSystem {
  import opened Wrappers

  type Files = map<string, string>

  /** Which of the system calls of one save work, and how much of a failing write reaches the disk. */
  datatype Io = Io(create: bool, write: bool, written: nat, rename: bool) {
    predicate Works() { create && write && rename }
  }

  function TempPath(path: string): string { path + ".tmp" }

  /** No file but the one at path and its temporary neighbour differs. */
  ghost predicate OnlyTouches(before: Files, after: Files, path: string) {
    forall q :: q != path && q != TempPath(path) ==> Get(after, q) == Get(before, q)
  }

  /** How much of a text a write puts on disk: all of it, or a prefix when the write fails. */
  function Written(text: string, io: Io): string {
    if io.write || io.written > |text| then text else text[..io.written]
  }

  /** The files after a save of text to path. When incomplete is set the writer gives up after text and never
      renames. */
  function SavedFiles(files: Files, path: string, text: string, incomplete: bool, io: Io): Files {
    var temp := TempPath(path);
    if !io.create then files
    else if incomplete || !io.write then files[temp := Written(text, io)]
    else if io.rename then files[path := text] - {temp}
    else files - {temp}
  }

  /** What a save of text to path may leave behind if the process dies during it: the target holds what it held, or
      all of the text when the save is one that can complete. */
  ghost predicate CrashSafe(before: Files, after: Files, path: string, text: string, incomplete: bool) {
    && (Get(after, path) == Get(before, path) || (!incomplete && Get(after, path) == Some(text)))
    && OnlyTouches(before, after, path)
  }

  lemma TempIsAnotherFile(path: string)
    ensures TempPath(path) != path
  {
    assert |TempPath(path)| != |path|;
  }

  /** The temporary file is another file, whatever it holds. */
  lemma TempIsApart(before: Files, path: string, text: string, part: string, incomplete: bool)
    ensures TempPath(path) != path
    ensures CrashSafe(before, before, path, text, incomplete)
    ensures CrashSafe(before, before[TempPath(path) := part], path, text, incomplete)
    ensures CrashSafe(before, before - {TempPath(path)}, path, text, incomplete)
  {
    TempIsAnotherFile(path);
  }

  /** What a save means for its target, its temporary file and every other file. */
  lemma SavedFilesAt(files: Files, path: string, text: string, incomplete: bool, io: Io)
    ensures var after := SavedFiles(files, path, text, incomplete, io);
            && Get(after, path) == (if io.Works() && !incomplete then Some(text) else Get(files, path))
            && Get(after, TempPath(path)) == (if !io.create then Get(files, TempPath(path))
                                              else if incomplete || !io.write then Some(Written(text, io))
                                              else None)
            && OnlyTouches(files, after, path)
  {
    TempIsAnotherFile(path);
  }

  class Disk {
    var files: Files
    ghost var states: iset<Files>

    constructor (files: Files)
      ensures this.files == files && states == iset{files}
    {
      this.files, states := files, iset{files};
    }

    /** Opens a file for writing, emptying it. */
    method Create(path: string, works: bool)
      modifies this
      ensures files == if works then old(files)[path := ""] else old(files)
      ensures states == old(states) + iset{files}
    {
      if works {
        files := files[path := ""];
      }
      states := states + iset{files};
    }

    /** Writes an open, empty file. Any prefix may be on disk on the way; a failing write leaves one. */
    method Write(path: string, text: string, io: Io)
      modifies this
      ensures files == old(files)[path := Written(text, io)]
      ensures states == old(states) + iset n: nat | n <= |text| :: old(files)[path := text[..n]]
    {
      ghost var before := files;
      var n := if io.write || io.written > |text| then |text| else io.written;
      assert text[..|text|] == text;
      files := files[path := text[..n]];
      states := states + iset n: nat | n <= |text| :: before[path := text[..n]];
    }

    method Rename(source: string, target: string, works: bool)
      requires source in files
      modifies this
      ensures files == if works then old(files)[target := old(files)[source]] - {source} else old(files)
      ensures states == old(states) + iset{files}
    {
      if works {
        files := files[target := files[source]] - {source};
      }
      states := states + iset{files};
    }

    method Remove(path: string)
      modifies this
      ensures files == old(files) - {path}
      ensures states == old(states) + iset{files}
    {
      files := files - {path};
      states := states + iset{files};
    }

    /** Opens and writes the temporary file. */
    method WriteTemp(path: string, text: string, ghost incomplete: bool, io: Io) returns (ok: bool)
      modifies this
      ensures ok <==> io.create && io.write
      ensures files == if io.create then old(files)[TempPath(path) := Written(text, io)] else old(files)
      ensures forall d :: d in states && d !in old(states) ==> CrashSafe(old(files), d, path, text, incomplete)
    {
      var temp := TempPath(path);
      TempIsApart(files, path, text, "", incomplete);
      ghost var before := files;
      Create(temp, io.create);
      if !io.create {
        return false;
      }
      Write(temp, text, io);
      forall n: nat | n <= |text| ensures CrashSafe(before, before[temp := text[..n]], path, text, incomplete) {
        TempIsApart(before, path, text, text[..n], incomplete);
      }
      ok := io.write;
    }

    /** Writes a temporary file beside path and renames it over path: at every step the target holds what it held,
        or all of the text; a writer that gives up never changes it. */
    method Replace(path: string, text: string, incomplete: bool, io: Io) returns (ok: bool)
      modifies this
      ensures ok <==> io.Works() && !incomplete
      ensures files == SavedFiles(old(files), path, text, incomplete, io)
      ensures forall d :: d in states && d !in old(states) ==> CrashSafe(old(files), d, path, text, incomplete)
    {
      var temp := TempPath(path);
      TempIsApart(files, path, text, text, incomplete);
      ok := WriteTemp(path, text, incomplete, io);
      if incomplete || !ok {
        return false;
      }
      Rename(temp, path, io.rename);
      if io.rename {
        assert files == old(files)[path := text] - {temp};
      } else {
        Remove(temp);
        assert files == old(files) - {temp};
      }
      ok := io.rename;
    }
  }
}
