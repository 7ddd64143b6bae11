/** The folder listing (src/main/server/api/listFolder.ts) over a directory
    listing given as data: the hidden-name filter, then the split of the
    surviving names into sub-folder names and a count of other entries. */
module ListFolder {
  import opened Util

  /** What `statSync` reports for one entry, or that it threw. */
  datatype Stat = Directory | NotDirectory | StatFails

  /** One name `readdirSync` returned, with the outcome of its `statSync`. */
  datatype DirEntry = DirEntry(name: string, stat: Stat)

  /** `Folders`: the resolved path, the sub-folder names and the file count. */
  datatype Folders = Folders(path: string, folderNames: seq<string>, files: nat)

  predicate IsHidden(name: string) {
    StartsWith(name, ".")
  }

  /** The `filter`: hidden names survive only when `showHidden` is set. */
  function Visible(entries: seq<DirEntry>, showHidden: bool): (v: seq<DirEntry>)
    ensures |v| <= |entries|
    ensures forall e :: e in v <==> e in entries && (showHidden || !IsHidden(e.name))
    ensures showHidden ==> v == entries
    decreases |entries|
  {
    if entries == [] then []
    else
      var rest := Visible(entries[1..], showHidden);
      if showHidden || !IsHidden(entries[0].name) then [entries[0]] + rest else rest
  }

  /** The filter keeps listing order: a listing split in two is filtered
      part by part, and a single entry survives exactly when it is kept. */
  lemma {:induction false} VisibleAppend(a: seq<DirEntry>, b: seq<DirEntry>, showHidden: bool)
    ensures Visible(a + b, showHidden) == Visible(a, showHidden) + Visible(b, showHidden)
    ensures forall e :: Visible([e], showHidden) == if showHidden || !IsHidden(e.name) then [e] else []
    decreases |a|
  {
    if a == [] {
      assert a + b == b;
    } else {
      assert (a + b)[1..] == a[1..] + b;
      VisibleAppend(a[1..], b, showHidden);
    }
    forall e: DirEntry
      ensures Visible([e], showHidden) == if showHidden || !IsHidden(e.name) then [e] else []
    {
      assert [e][1..] == [];
    }
  }

  /** The names of the entries that are directories, in listing order. */
  function DirectoryNames(entries: seq<DirEntry>): seq<string>
    decreases |entries|
  {
    if entries == [] then []
    else DirectoryNames(entries[..|entries| - 1]) +
         (if entries[|entries| - 1].stat == Directory then [entries[|entries| - 1].name] else [])
  }

  /** How many entries were stat'ed successfully and are not directories. */
  function FileCount(entries: seq<DirEntry>): nat
    decreases |entries|
  {
    if entries == [] then 0
    else FileCount(entries[..|entries| - 1]) + (if entries[|entries| - 1].stat == NotDirectory then 1 else 0)
  }

  /** How many entries could not be stat'ed. */
  function ErrorCount(entries: seq<DirEntry>): nat
    decreases |entries|
  {
    if entries == [] then 0
    else ErrorCount(entries[..|entries| - 1]) + (if entries[|entries| - 1].stat == StatFails then 1 else 0)
  }

  /** `listFolder`: the entries are visited in listing order; a directory's
      name is appended, any other successful stat bumps the count, and a
      failed stat is skipped. `resolvedPath` is `path.resolve(folderPath)`. */
  method ListFolder(resolvedPath: string, entries: seq<DirEntry>, showHidden: bool) returns (folders: Folders)
    ensures folders.path == resolvedPath
    ensures folders.folderNames == DirectoryNames(Visible(entries, showHidden))
    ensures folders.files == FileCount(Visible(entries, showHidden))
  {
    var files := Visible(entries, showHidden);
    folders := Folders(resolvedPath, [], 0);
    var i := 0;
    while i < |files|
      invariant 0 <= i <= |files|
      invariant folders.path == resolvedPath
      invariant folders.folderNames == DirectoryNames(files[..i])
      invariant folders.files == FileCount(files[..i])
      decreases |files| - i
    {
      assert files[..i + 1][..i] == files[..i];
      if files[i].stat == Directory {
        folders := folders.(folderNames := folders.folderNames + [files[i].name]);
      } else if files[i].stat == NotDirectory {
        folders := folders.(files := folders.files + 1);
      }
      i := i + 1;
    }
    assert files[..i] == files;
  }

  /** Every entry lands in exactly one of the three tallies, so the two
      reported tallies never exceed the entries, and reach them exactly when
      no stat fails. */
  lemma {:induction false} PartitionCounts(entries: seq<DirEntry>)
    ensures |DirectoryNames(entries)| + FileCount(entries) + ErrorCount(entries) == |entries|
    ensures |DirectoryNames(entries)| + FileCount(entries) <= |entries|
    ensures (forall k :: 0 <= k < |entries| ==> entries[k].stat != StatFails) ==>
      |DirectoryNames(entries)| + FileCount(entries) == |entries|
    decreases |entries|
  {
    if entries != [] {
      var prefix := entries[..|entries| - 1];
      PartitionCounts(prefix);
      if forall k :: 0 <= k < |entries| ==> entries[k].stat != StatFails {
        assert forall k :: 0 <= k < |prefix| ==> prefix[k].stat != StatFails;
        assert entries[|entries| - 1].stat != StatFails;
      }
    }
  }

  /** The folder names of a listing split in two are those of the first part
      followed by those of the second: listing order is kept. */
  lemma {:induction false} DirectoryNamesAppend(a: seq<DirEntry>, b: seq<DirEntry>)
    ensures DirectoryNames(a + b) == DirectoryNames(a) + DirectoryNames(b)
    decreases |b|
  {
    if b == [] {
      assert a + b == a;
    } else {
      var b' := b[..|b| - 1];
      assert (a + b)[..|a + b| - 1] == a + b';
      assert (a + b)[|a + b| - 1] == b[|b| - 1];
      DirectoryNamesAppend(a, b');
    }
  }

  /** A name is reported as a folder exactly when some entry of that name
      is a directory. */
  lemma {:induction false} DirectoryNamesMembers(entries: seq<DirEntry>, name: string)
    ensures name in DirectoryNames(entries) <==> DirEntry(name, Directory) in entries
    decreases |entries|
  {
    if entries != [] {
      var prefix := entries[..|entries| - 1];
      DirectoryNamesMembers(prefix, name);
      assert entries == prefix + [entries[|entries| - 1]];
    }
  }

  /** With the default `showHidden = false`, no reported folder name is
      hidden, and a visible directory is always reported. */
  lemma HiddenFoldersExcluded(entries: seq<DirEntry>, name: string)
    ensures name in DirectoryNames(Visible(entries, false)) <==>
      DirEntry(name, Directory) in entries && !IsHidden(name)
  {
    DirectoryNamesMembers(Visible(entries, false), name);
  }
}
