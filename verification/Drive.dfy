/** The operations on a user's files (frontend/files.cc, frontend/common_mail_files.cc), over one row of the store. */
module DriveImplementation {
  import opened Options
  import opened ListString
  import opened Paths
  import opened FileColumns
  import opened FileTree
  import opened RowFrame

  const MAX_CPUT_ITERATIONS := 100

  datatype Response = Success | MissingKey | ValMismatch

  /** The path that a name means: a missing leading slash is added. */
  function PathIn(name: string): Path {
    Tokens(WithSlash(name), '/')
  }

  /** A slash-normalised name other than the root's, of proper components. */
  predicate Normal(name: string) {
    name != "" && Proper(PathIn(name)) && PathIn(name) != [] && PathOf(PathIn(name)) == WithSlash(name)
  }

  /** The file system after `write_file`: the directories on the way exist and the file holds the data. */
  function Written(fs: FileSystem, p: Path, data: string): FileSystem {
    FileSystem(WithAncestors(fs.dirs, p), fs.files[p := data])
  }

  class Drive {
    /** The user's row. */
    var cells: Cells
    /** What it stands for. */
    ghost var fs: FileSystem

    /** The row encodes the file system, or will once it is initialised. */
    ghost predicate Valid()
      reads this
    {
      Encodes(Initialised(cells), fs)
    }

    constructor (row: Cells)
      requires NoFileColumns(row)
      ensures Valid() && cells == row && fs == NOTHING
    {
      cells := row;
      fs := NOTHING;
      InitialisedIsEmpty(row);
    }

    // ---- The store --------------------------------------------------------------------------------

    method GetCall(column: string) returns (value: Option<string>)
      ensures value == if column in cells then Some(cells[column]) else None
    {
      value := if column in cells then Some(cells[column]) else None;
    }

    method PutCall(column: string, value: string)
      modifies `cells
      ensures cells == old(cells)[column := value]
    {
      cells := cells[column := value];
    }

    method CPutCall(column: string, oldValue: string, newValue: string) returns (response: Response)
      modifies `cells
      ensures response == if column !in old(cells) then MissingKey
                          else if old(cells)[column] == oldValue then Success else ValMismatch
      ensures cells == if response == Success then old(cells)[column := newValue] else old(cells)
    {
      if column !in cells {
        return MissingKey;
      }
      if cells[column] != oldValue {
        return ValMismatch;
      }
      cells := cells[column := newValue];
      response := Success;
    }

    method DeleteCall(column: string)
      modifies `cells
      ensures cells == old(cells) - {column}
    {
      cells := cells - {column};
    }

    // ---- Lists ------------------------------------------------------------------------------------

    /** `cput_loop`: the value read is swapped at once if there is one, and never otherwise. */
    method CPutLoop(column: string, value: string) returns (ok: bool)
      modifies `cells
      ensures ok <==> column in old(cells)
      ensures cells == if ok then old(cells)[column := value] else old(cells)
    {
      for i := 0 to MAX_CPUT_ITERATIONS
        invariant cells == old(cells)
        invariant i > 0 ==> column !in cells
      {
        var reply := GetCall(column);
        var oldValue := if reply.Some? then reply.value else "";
        var response := CPutCall(column, oldValue, value);
        if response == Success {
          return true;
        }
      }
      ok := false;
    }

    /** `append_to_metadata` */
    method AppendToMetadata(column: string, data: string) returns (ok: bool)
      modifies `cells
      ensures ok <==> column in old(cells)
      ensures cells == WithEntry(old(cells), column, data)
    {
      var reply := GetCall(column);
      var metadata := if reply.Some? then reply.value else "";
      metadata := metadata + ";" + data;
      ok := CPutLoop(column, metadata);
    }

    /** `init_files_metadata` */
    method InitFilesMetadata() returns (created: bool)
      modifies `cells
      ensures created <==> "/,files" !in old(cells)
      ensures cells == Initialised(old(cells))
      ensures OthersKeptOrMade(old(cells), cells, {}) && "/,files" in cells
    {
      hide Name;
      RootCells();
      CellColumn(Files([]));
      CellColumn(Dirs([]));
      hide TreeColumn;
      var reply := GetCall("/,files");
      if reply.Some? {
        return false;
      }
      PutCall("/,files", ";");
      PutCall("/,dirs", ";");
      PutCall("$$$shared_files", ";");
      created := true;
    }

    // ---- Directories ------------------------------------------------------------------------------

    /** `create_dir` */
    method CreateDir(directory: string, ghost d: Path)
      requires Proper(d) && d != [] && PathOf(d) == directory
      modifies `cells
      ensures cells == WithDir(old(cells), d)
      ensures OthersKept(old(cells), cells, {})
    {
      hide Up; hide PathOf; hide Proper;
      ParentProper(d);
      CellColumn(Files(d));
      CellColumn(Dirs(d));
      CellColumn(Dirs(Parent(d)));
      hide TreeColumn;
      PutCall(directory + ",files", ";");
      PutCall(directory + ",dirs", ";");
      UpIsParent(d);
      var up := OneLevelUp(directory);
      var _ := AppendToMetadata(up + ",dirs", directory);
    }

    /** `build_out_directory_path` */
    method BuildOutDirectoryPath(filename: string) returns (added: bool)
      requires Valid() && Normal(filename)
      modifies this
      ensures Encodes(cells, fs)
      ensures fs == old(fs).(dirs := WithAncestors(old(fs).dirs, PathIn(filename)))
      ensures OthersKeptOrMade(old(cells), cells, {})
      ensures !added
    {
      hide Encodes; hide WithDir; hide Initialised; hide Tokens; hide PathOf; hide Ancestors; hide OthersKept;
      hide OthersKeptOrMade;
      var _ := InitFilesMetadata();
      ghost var p := PathIn(filename);
      added := false;
      var parts := SeparateString(WithSlash(filename), '/');
      parts := parts[..|parts| - 1];
      RootIsThere(cells, fs);
      if 0 < |p| { NextAncestor(p, 0); }
      assert fs.dirs + Ancestors(p, 1) == fs.dirs;
      for i := 0 to |parts|
        invariant Encodes(cells, fs)
        invariant fs == old(fs).(dirs := old(fs).dirs + Ancestors(p, i + 1))
        invariant OthersKeptOrMade(old(cells), cells, {})
      {
        ghost var d := p[..i + 1];
        assert parts[..i + 1] == d;
        JoinIsPath(d);
        var path := JoinParts(parts[..i + 1]);
        NextAncestor(p, i + 1);
        DirThere(cells, fs, d);
        var reply := GetCall(path + ",files");
        if reply.None? {
          CreateDirEncodes(cells, fs, d);
          ghost var before := cells;
          CreateDir(path, d);
          KeptAfterMade(old(cells), before, cells, {});
          fs := fs.(dirs := fs.dirs + {d});
        }
        assert fs.dirs == old(fs).dirs + Ancestors(p, i + 2);
      }
    }

    // ---- Files ------------------------------------------------------------------------------------

    /** `delete_file`: unlike the other operations it takes the name as it is, and does to the row what it does for any
        name of a column. For the full name of a file that is to delete the file. */
    method DeleteFile(filename: string, ghost p: Path) returns (existed: bool)
      modifies this
      ensures existed <==> filename in old(cells)
      ensures !existed ==> cells == old(cells)
      ensures cells == Deleted(old(cells), filename)
      ensures if existed && old(FullName(filename, p)) then
                p in old(fs).files && fs == old(fs).(files := old(fs).files - {p}) && Encodes(cells, fs)
              else fs == old(fs)
      ensures OthersKept(old(cells), cells, old(Touched(filename)))
      ensures old(FullName(filename, p)) ==> OthersKept(old(cells), cells, {})
    {
      hide Tokens; hide Encodes; hide Up; hide Removed; hide TreeColumn;
      if FullName(filename, p) { ChunksAreTree(cells, fs, p); }
      var reply := GetCall(filename);
      if reply.None? {
        return false;
      }
      var chunks := SeparateString(reply.value, ';');
      assert cells - ListedIn(chunks[..0]) == cells by { assert ListedIn(chunks[..0]) == {}; }
      for i := 0 to |chunks|
        invariant fs == old(fs) && cells == old(cells) - ListedIn(chunks[..i])
      {
        assert ListedIn(chunks[..i + 1]) == ListedIn(chunks[..i]) + {chunks[i]} by {
          assert chunks[..i + 1] == chunks[..i] + [chunks[i]];
        }
        DeleteCall(chunks[i]);
      }
      assert chunks[..|chunks|] == chunks;
      DeleteCall(filename);
      var up := OneLevelUp(filename);
      var list := GetCall(up + ",files");
      var metadata := DeleteHash(if list.Some? then list.value else "", filename);
      PutCall(up + ",files", metadata);
      if old(FullName(filename, p)) {
        DeletedFile(old(cells), fs, p);
        fs := fs.(files := fs.files - {p});
        TouchedTree(old(cells), cells, {}, old(Touched(filename)));
      }
      existed := true;
    }

    /** The column of that name, those that it lists, and the list of files above it. */
    ghost function Touched(filename: string): set<string>
      reads this
    {
      TouchedIn(cells, filename)
    }

    /** The name is the full one of the path, on an encoded row. */
    ghost predicate FullName(filename: string, p: Path)
      reads this
    {
      Encodes(cells, fs) && Proper(p) && p != [] && PathOf(p) == filename
    }

    /** One turn of the loop that writes chunks. */
    method PutChunk(filename: string, i: nat, data: string, ghost p: Path)
      requires PathOf(p) == filename && i < ChunkCount(|data|)
      modifies `cells
      ensures cells == WithChunk(old(cells), p, i, ChunkOf(data, i))
      ensures Proper(p) && p != [] ==> OthersKept(old(cells), cells, {})
    {
      hide ChunkCount;
      if Proper(p) && p != [] {
        CellColumn(Meta(p));
        CellColumn(Chunk(p, i));
      }
      hide TreeColumn; hide Proper;
      StartsWithin(|data|, i);
      var chunk := filename + "," + Decimal.ToString(i);
      var _ := AppendToMetadata(filename, chunk);
      PutCall(chunk, Substr(data, i * CHUNK_SIZE_BYTES, CHUNK_SIZE_BYTES));
    }

    /** The loop that writes chunks, and the last one. */
    method PutChunks(filename: string, data: string, ghost p: Path, ghost base: FileSystem)
      requires Proper(p) && p != [] && PathOf(p) == filename && Writing(cells, base, p, data, 0)
      modifies `cells
      ensures Writing(cells, base, p, data, ChunkCount(|data|)) && OthersKept(old(cells), cells, {})
    {
      hide Writing; hide PathOf; hide Proper; hide WithChunk; hide OthersKept;
      NothingTouched(cells);
      var fullChunks, lastChunkSize := 1, 0;
      if |data| > CHUNK_SIZE_BYTES {
        fullChunks, lastChunkSize := |data| / CHUNK_SIZE_BYTES, |data| % CHUNK_SIZE_BYTES;
      }
      for i := 0 to fullChunks
        invariant Writing(cells, base, p, data, i)
        invariant OthersKept(old(cells), cells, {})
      {
        WriteChunk(cells, base, p, data, i);
        ghost var before := cells;
        PutChunk(filename, i, data, p);
        KeptTrans(old(cells), before, cells, {});
      }
      if lastChunkSize != 0 {
        WriteChunk(cells, base, p, data, fullChunks);
        ghost var before := cells;
        PutChunk(filename, fullChunks, data, p);
        KeptTrans(old(cells), before, cells, {});
      }
    }

    /** `write_file` */
    method WriteFile(name: string, data: string) returns (ok: bool)
      requires Valid() && Normal(name)
      modifies this
      ensures Encodes(cells, fs) && fs == Written(old(fs), PathIn(name), data)
      ensures OthersKeptOrMade(old(cells), cells, {})
      ensures ok
    {
      hide OthersKept; hide OthersKeptOrMade; hide TreeColumn;
      hide Encodes; hide Writing; hide Initialised; hide Tokens; hide PathOf; hide Ancestors; hide Proper; hide Up;
      hide WithChunk; hide Deleted; hide Removed; hide WithEntry;
      var filename := WithSlash(name);
      ghost var p := PathIn(name);
      var _ := BuildOutDirectoryPath(filename);
      EncodedIsInitialised(cells, fs);
      ParentIsAncestor(old(fs).dirs, p);
      BeginErasing(cells, fs, p);
      ghost var built := cells;
      var _ := DeleteFile(filename, p);
      KeptAfterMade(old(cells), built, cells, {});
      ghost var base, erased := fs, cells;
      BeginWriting(cells, base, p, data);
      UpIsParent(p);
      var up := OneLevelUp(filename);
      ok := AppendToMetadata(up + ",files", filename);
      PutCall(filename, ";");
      FileEntryKept(erased, cells, p);
      KeptAfterMade(old(cells), erased, cells, {});
      ghost var listed := cells;
      PutChunks(filename, data, p, base);
      KeptAfterMade(old(cells), listed, cells, {});
      FinishWriting(cells, base, p, data);
      fs := base.(files := base.files[p := data]);
      assert (old(fs).files - {p})[p := data] == old(fs).files[p := data];
    }

    /** `get_file_data` */
    method GetFileData(name: string) returns (data: string)
      requires Valid() && Normal(name)
      modifies `cells
      ensures Encodes(cells, fs) && cells == Initialised(old(cells))
      ensures OthersKeptOrMade(old(cells), cells, {})
      ensures data == if PathIn(name) in fs.files then fs.files[PathIn(name)] else "NO SUCH FILE"
    {
      hide Encodes; hide Erasing; hide Initialised; hide Tokens; hide PathOf; hide Proper; hide ChunkOf;
      hide FirstChunks;
      var _ := InitFilesMetadata();
      var filename := WithSlash(name);
      ghost var p := PathIn(name);
      BeginErasing(cells, fs, p);
      var reply := GetCall(filename);
      if reply.None? {
        return "NO SUCH FILE";
      }
      ErasingLists(cells, fs, p, 0);
      var chunks := SeparateString(reply.value, ';');
      ghost var now, content := cells, fs.files[p];
      AllChunks(content);
      data := "";
      for i := 0 to |chunks|
        invariant cells == now && data == FirstChunks(content, i)
      {
        ErasingChunk(cells, fs, p, i);
        var chunk := GetCall(chunks[i]);
        NextChunk(content, i);
        data := data + if chunk.Some? then chunk.value else "";
      }
    }

    /** `file_exists` */
    method FileExists(name: string) returns (exists_: bool)
      requires Valid() && Normal(name)
      modifies `cells
      ensures Encodes(cells, fs) && cells == Initialised(old(cells))
      ensures OthersKeptOrMade(old(cells), cells, {})
      ensures exists_ <==> PathIn(name) in fs.files
    {
      hide Encodes; hide Erasing; hide Initialised; hide Tokens; hide PathOf; hide Proper;
      var _ := InitFilesMetadata();
      BeginErasing(cells, fs, PathIn(name));
      var reply := GetCall(WithSlash(name));
      exists_ := reply.Some?;
    }

    /** The deletion in `move_file`: the name is passed on as it was given. */
    method DeleteSource(source: string)
      requires Encodes(cells, fs) && Normal(source) && PathIn(source) in fs.files
      requires source[0] == '/' || ListsNoColumns(cells, source)
      modifies this
      ensures Encodes(cells, fs)
      ensures fs == if source[0] == '/' then old(fs).(files := old(fs).files - {PathIn(source)}) else old(fs)
      ensures OthersKept(old(cells), cells, if source[0] == '/' then {} else TouchedIn(old(cells), source))
    {
      hide Encodes; hide PathIn; hide Proper; hide PathOf; hide WithSlash; hide Normal; hide Deleted; hide ListsNoColumns;
      hide OthersKept; hide TouchedIn;
      NormalName(source);
      FileThere(cells, fs, PathIn(source));
      if source[0] != '/' {
        NotFullName(source, PathIn(source));
        if source in cells { DeletedOutside(cells, fs, source); } else { DeletedNothing(cells, source); }
      }
      var _ := DeleteFile(source, PathIn(source));
    }

    method MoveData(source: string, target: string, data: string)
      requires Encodes(cells, fs) && Normal(source) && Normal(target) && PathIn(source) in fs.files
      requires source[0] == '/' || ListsNoColumns(cells, source)
      modifies this
      ensures Encodes(cells, fs)
      ensures fs == Written(if source[0] == '/' then old(fs).(files := old(fs).files - {PathIn(source)}) else old(fs),
                            PathIn(target), data)
      ensures OthersKeptOrMade(old(cells), cells, if source[0] == '/' then {} else TouchedIn(old(cells), source))
    {
      hide Encodes; hide Initialised; hide PathIn; hide Written; hide Normal; hide ListsNoColumns; hide TouchedIn;
      hide OthersKept; hide OthersKeptOrMade;
      NormalName(source);
      ghost var touched := if source[0] == '/' then {} else TouchedIn(cells, source);
      EncodedHasRoot(cells, fs);
      DeleteSource(source);
      ghost var deleted := cells;
      EncodedHasRoot(cells, fs);
      EncodedIsInitialised(cells, fs);
      var _ := WriteFile(target, data);
      KeptWider(deleted, cells, touched);
      MadeAfterKept(old(cells), deleted, cells, touched);
    }

    /** `move_file`: the source is deleted under the name given, so only one with a leading slash goes away. A name
        without one may be that of another column, which goes instead. */
    method MoveFile(source: string, target: string) returns (result: nat)
      requires Valid() && Normal(source) && Normal(target)
      requires source[0] == '/' || ListsNoColumns(Initialised(cells), source)
      modifies this
      ensures Encodes(cells, fs)
      ensures result == if PathIn(source) !in old(fs).files then 1 else if PathIn(target) in old(fs).files then 2 else 0
      ensures fs == if result != 0 then old(fs)
                    else Written(if source[0] == '/' then old(fs).(files := old(fs).files - {PathIn(source)}) else old(fs),
                                 PathIn(target), old(fs).files[PathIn(source)])
      ensures OthersKeptOrMade(old(cells), cells, if source[0] == '/' then {} else old(Touched(source)))
    {
      hide OthersKeptOrMade; hide TouchedIn; hide Encodes; hide Initialised; hide PathIn; hide Written; hide Normal;
      hide ListsNoColumns;
      NormalName(source);
      ghost var touched := if source[0] == '/' then {} else Touched(source);
      var there := FileExists(source);
      EncodedIsInitialised(cells, fs);
      KeptWider(old(cells), cells, touched);
      if !there {
        return 1;
      }
      there := FileExists(target);
      if there {
        return 2;
      }
      var data := GetFileData(source);
      ghost var found := cells;
      EncodedHasRoot(cells, fs);
      MoveData(source, target, data);
      if source[0] != '/' {
        TouchedAfterInit(old(cells), source);
        MadeMore(found, cells, TouchedIn(found, source), touched);
      }
      MadeAfterMade(old(cells), found, cells, touched);
      result := 0;
    }

    // ---- Subtrees ---------------------------------------------------------------------------------

    /** The names, each followed by a semicolon. */
    static method ListString(names: seq<string>) returns (list: string)
      ensures list == ";" + Terminated(names, ';')
    {
      list := ";";
      assert names[0..] == names;
      for i := 0 to |names|
        invariant list + Terminated(names[i..], ';') == ";" + Terminated(names, ';')
      {
        assert names[i..][1..] == names[i + 1..];
        list := list + names[i] + ";";
      }
    }

    /** `get_all_files_json` */
    method GetAllFiles(root: string, ghost r: Path) returns (allFiles: string, allDirs: string)
      requires Valid() && Proper(r) && PathOf(r) == root
      modifies `cells
      ensures Encodes(cells, fs) && cells == Initialised(old(cells))
      ensures OthersKeptOrMade(old(cells), cells, {})
      ensures Lists(allFiles, FilesUnder(fs.files.Keys, r))
      ensures Lists(allDirs, DirsUnder(fs.dirs, r) + {r})
    {
      hide Encodes; hide Initialised; hide Found; hide Tokens; hide PathOf; hide Proper; hide Named;
      hide DirsUnder; hide FilesUnder; hide Children; hide Terminated;
      var _ := InitFilesMetadata();
      EncodesWellFormed(cells, fs);
      var filePaths: seq<string> := [];
      var dirPaths := [root];
      var stack := [root];
      ghost var visited, pending := {}, {r};
      ghost var now := cells;
      if r in fs.dirs { BeginFound(fs, r); }
      DirThere(cells, fs, r);
      while |stack| > 0
        invariant cells == now
        invariant r in fs.dirs ==> Found(fs, r, visited, pending, stack, dirPaths, filePaths)
        invariant r !in fs.dirs ==> stack == [root] && dirPaths == [root] && filePaths == []
        decreases fs.dirs - visited
      {
        var currentDir := stack[|stack| - 1];
        ghost var d := r;
        if r in fs.dirs {
          d := StepFound(cells, fs, r, visited, pending, stack, dirPaths, filePaths);
        }
        stack := stack[..|stack| - 1];
        var files := GetCall(currentDir + ",files");
        if files.None? {
          break;
        }
        var filesHere := SeparateString(files.value, ';');
        filePaths := filePaths + filesHere;
        var dirs := GetCall(currentDir + ",dirs");
        if dirs.None? {
          break;
        }
        var children := SeparateString(dirs.value, ';');
        dirPaths := dirPaths + children;
        stack := stack + children;
        visited, pending := visited + {d}, pending - {d} + Children(fs.dirs, d);
      }
      if r in fs.dirs { EndFound(fs, r, visited, pending, dirPaths, filePaths); }
      FinishLists(fs, r, dirPaths, filePaths);
      allFiles := ListString(filePaths);
      allDirs := ListString(dirPaths);
    }

    /** `delete_dir`: the name ends at the first ampersand. */
    method DeleteDir(name: string, ghost r: Path) returns (ok: bool)
      requires Valid() && Proper(r)
      requires Tokens(name, '&') != [] && Tokens(name, '&')[0] == PathOf(r)
      modifies this
      ensures Valid() && fs == Pruned(old(fs), r)
      ensures ok <==> r != [] && Parent(r) in old(fs).dirs
      ensures OthersKeptOrMade(old(cells), cells, {})
    {
      hide OthersKept; hide OthersKeptOrMade;
      hide Encodes; hide Initialised; hide Tokens; hide PathOf; hide Proper; hide Lists; hide Named; hide PathsOf;
      hide DirsUnder; hide FilesUnder; hide ListsDropped; hide Up; hide Pruned; hide Removed; hide Split;
      var pieces := SeparateString(name, '&');
      var dirName := pieces[0];
      var allFiles, allDirs := GetAllFiles(dirName, r);
      EncodesWellFormed(cells, fs);
      UnderProper(fs, r);
      ghost var files, before := FilesUnder(fs.files.Keys, r), fs;

      var fileNames := SeparateString(allFiles, ';');
      NamedAre(fileNames, allFiles, files, fs);
      assert before.files - PathsOf(fileNames[..0]) == before.files by { NoPaths(fileNames); }
      for i := 0 to |fileNames|
        invariant Encodes(cells, fs)
        invariant fs == before.(files := before.files - PathsOf(fileNames[..i]))
        invariant OthersKeptOrMade(old(cells), cells, {})
      {
        ghost var p := Tokens(fileNames[i], '/');
        ghost var now := cells;
        PathsOfNext(fileNames, i);
        FileThere(cells, fs, p);
        var existed := DeleteFile(fileNames[i], p);
        KeptAfterMade(old(cells), now, cells, {});
        assert fs.files == before.files - PathsOf(fileNames[..i + 1]);
      }
      assert fileNames[..|fileNames|] == fileNames;
      ghost var base, ds := cells, DirsUnder(fs.dirs, r) + {r};

      var dirNames := SeparateString(allDirs, ';');
      NamedDirs(dirNames, allDirs, ds, fs);
      NoPaths(dirNames);
      DropNoLists(cells);
      for i := 0 to |dirNames|
        invariant fs == before.(files := before.files - files)
        invariant ListsDropped(base, cells, PathsOf(dirNames[..i]))
        invariant OthersKeptOrMade(old(cells), cells, {})
      {
        PathsOfNext(dirNames, i);
        ListsAreTree(cells, Tokens(dirNames[i], '/'));
        KeptAfterMade(old(cells), cells, cells - {dirNames[i] + ",dirs"} - {dirNames[i] + ",files"}, {});
        DropLists(base, cells, PathsOf(dirNames[..i]), Tokens(dirNames[i], '/'));
        DeleteCall(dirNames[i] + ",dirs");
        DeleteCall(dirNames[i] + ",files");
      }
      assert dirNames[..|dirNames|] == dirNames;
      FilesGone(before, r);
      PrunedOnce(before, r);
      ghost var dropped := cells;
      ok := Unlink(dirName, r, base);
      UpListIsTree(r);
      OneColumn(dropped, cells, Up(dirName) + ",dirs");
      KeptAfterMade(old(cells), dropped, cells, {});
    }

    /** The end of `delete_dir`: the parent's list. */
    method Unlink(dirName: string, ghost r: Path, ghost base: Cells) returns (ok: bool)
      requires Encodes(base, fs) && FilesUnder(fs.files.Keys, r) == {} && Proper(r) && PathOf(r) == dirName
      requires ListsDropped(base, cells, DirsUnder(fs.dirs, r) + {r})
      modifies this
      ensures Valid() && fs == Pruned(old(fs), r)
      ensures ok <==> r != [] && Parent(r) in old(fs).dirs
      ensures cells - {Up(dirName) + ",dirs"} == old(cells) - {Up(dirName) + ",dirs"}
    {
      hide Encodes; hide Initialised; hide Tokens; hide Proper; hide DirsUnder; hide FilesUnder; hide ListsDropped;
      hide Removed; hide Split; hide Up;
      ghost var was := fs;
      UpOf(r);
      if r == [] {
        PruneRoot(base, cells, fs);
        InitialisedIsEmpty(cells);
        NoRootList(cells);
        fs := NOTHING;
      } else {
        FinishPruning(base, cells, fs, r);
        NothingToPrune(fs, r);
      }
      var up := OneLevelUp(dirName);
      var reply := GetCall(up + ",dirs");
      if reply.None? {
        if r != [] { EncodedIsInitialised(cells, fs); }
        return false;
      }
      var metadata := DeleteHash(reply.value, dirName);
      var _ := CPutLoop(up + ",dirs", metadata);
      fs := fs.(dirs := fs.dirs - DirsUnder(fs.dirs, r));
      EncodedIsInitialised(cells, fs);
      ok := true;
    }
  }

  // ---- What a user is promised ----------------------------------------------------------------------

  /** A file can be read back as it was written, whatever is written to another file in between. */
  method WriteThenRead(drive: Drive, name: string, data: string, other: string, otherData: string) returns (read: string)
    requires drive.Valid() && Normal(name) && Normal(other) && PathIn(name) != PathIn(other)
    modifies drive
    ensures drive.Valid() && read == data
  {
    hide Encodes; hide Initialised; hide Normal; hide PathIn; hide WithAncestors;
    var _ := drive.WriteFile(name, data);
    EncodedIsInitialised(drive.cells, drive.fs);
    var _ := drive.WriteFile(other, otherData);
    EncodedIsInitialised(drive.cells, drive.fs);
    read := drive.GetFileData(name);
    EncodedIsInitialised(drive.cells, drive.fs);
  }

  /** Moving a file to a free path keeps its content, and the old name is then free. */
  method MoveThenRead(drive: Drive, source: string, target: string) returns (data: string, read: string, there: bool)
    requires drive.Valid() && Normal(source) && source[0] == '/' && Normal(target)
    requires PathIn(source) in drive.fs.files && PathIn(target) !in drive.fs.files
    modifies drive
    ensures drive.Valid() && data == old(drive.fs.files[PathIn(source)]) && read == data && !there
  {
    hide Encodes; hide Initialised; hide Normal; hide PathIn; hide WithAncestors;
    data := drive.GetFileData(source);
    EncodedIsInitialised(drive.cells, drive.fs);
    var _ := drive.MoveFile(source, target);
    EncodedIsInitialised(drive.cells, drive.fs);
    read := drive.GetFileData(target);
    EncodedIsInitialised(drive.cells, drive.fs);
    there := drive.FileExists(source);
    EncodedIsInitialised(drive.cells, drive.fs);
  }

  lemma FileEntryKept(cells: Cells, cells': Cells, p: Path)
    requires Proper(p) && p != []
    requires cells' == WithEntry(cells, Name(Files(Parent(p))), PathOf(p))[PathOf(p) := ";"]
    ensures OthersKept(cells, cells', {})
  {
    hide PathOf; hide Appended; hide Proper;
    ParentProper(p);
    CellColumn(Meta(p));
    CellColumn(Files(Parent(p)));
  }

  lemma ListsAreTree(cells: Cells, d: Path)
    requires Proper(d)
    ensures OthersKept(cells, cells - {PathOf(d) + ",dirs"} - {PathOf(d) + ",files"}, {})
  {
    hide PathOf; hide Proper;
    CellColumn(Dirs(d));
    CellColumn(Files(d));
  }

  lemma UpListIsTree(r: Path)
    requires Proper(r)
    ensures TreeColumn(Up(PathOf(r)) + ",dirs")
  {
    UpOf(r);
    if r != [] { ParentProper(r); }
    CellColumn(Dirs(if r == [] then [] else Parent(r)));
  }

  ghost function TouchedIn(cells: Cells, filename: string): set<string> {
    {filename, Up(filename) + ",files"} + if filename in cells then ListedIn(Tokens(cells[filename], ';')) else {}
  }

  lemma NothingListed()
    ensures Tokens(";", ';') == []
  {
    assert ";" == "" + [';'] + "";
    SplitConcat("", "", ';');
  }

  /** Initialisation lists nothing under a name without a slash. */
  lemma TouchedAfterInit(cells: Cells, name: string)
    requires name != "" && name[0] != '/'
    ensures TouchedIn(Initialised(cells), name) <= TouchedIn(cells, name)
  {
    hide Tokens; hide Up;
    RootCells();
    NothingListed();
  }

  // ---- delete_file on any column --------------------------------------------------------------------

  function ListedIn(names: seq<string>): set<string> {
    set x | x in names
  }

  /** The row after `delete_file`: the column goes, with every column that it lists, and the list of the directory above
      the name no longer lists the name. */
  function Deleted(cells: Cells, filename: string): Cells {
    if filename !in cells then cells
    else
      var c1 := cells - ListedIn(Tokens(cells[filename], ';')) - {filename};
      var list := Up(filename) + ",files";
      c1[list := Removed(if list in c1 then c1[list] else "", filename, ';')]
  }

  lemma DeletedNothing(cells: Cells, filename: string)
    requires filename !in cells
    ensures Deleted(cells, filename) == cells
  {
  }

  lemma {:induction false} EraseChunks(cells: Cells, fs: FileSystem, p: Path, n: nat)
    requires Erasing(cells, fs, p, 0) && Proper(p) && p != [] && n <= ChunkCount(|fs.files[p]|)
    ensures Erasing(cells - ListedIn(ChunkNames(p, n)), fs, p, n)
    decreases n
  {
    hide Erasing; hide Name; hide Proper;
    if n == 0 {
      assert cells - ListedIn(ChunkNames(p, 0)) == cells;
    } else {
      EraseChunks(cells, fs, p, n - 1);
      EraseChunk(cells - ListedIn(ChunkNames(p, n - 1)), fs, p, n - 1);
      assert ChunkNames(p, n) == ChunkNames(p, n - 1) + [Name(Chunk(p, n - 1))];
      assert cells - ListedIn(ChunkNames(p, n))
             == cells - ListedIn(ChunkNames(p, n - 1)) - {Name(Chunk(p, n - 1))};
    }
  }

  /** On a file's full name this is to delete the file. */
  lemma DeletedFile(cells: Cells, fs: FileSystem, p: Path)
    requires Encodes(cells, fs) && Proper(p) && p != [] && PathOf(p) in cells
    ensures p in fs.files && Encodes(Deleted(cells, PathOf(p)), fs.(files := fs.files - {p}))
  {
    hide Encodes; hide Erasing; hide Tokens; hide Proper; hide Removed; hide Up; hide ChunkNames; hide PathOf;
    BeginErasing(cells, fs, p);
    MetaName(cells, p);
    ErasingLists(cells, fs, p, 0);
    var n := ChunkCount(|fs.files[p]|);
    EraseChunks(cells, fs, p, n);
    FinishErasing(cells - ListedIn(ChunkNames(p, n)), fs, p);
    UpIsParent(p);
  }

  predicate Slashed(name: string) {
    name != "" && name[0] == '/'
  }

  /** The column, if there is one, lists no name with a leading slash. */
  ghost predicate ListsNoColumns(cells: Cells, name: string) {
    name in cells ==> forall t :: t in Tokens(cells[name], ';') ==> !Slashed(t)
  }

  lemma NotFullName(name: string, p: Path)
    requires name != "" && name[0] != '/' && Proper(p)
    ensures PathOf(p) != name
  {
    PathChars(p);
  }

  lemma {:induction false} WithoutForeign(l: seq<string>, x: string)
    requires x !in l
    ensures Without(l, x) == l
    decreases |l|
  {
    if l == [] {
    } else {
      WithoutForeign(l[1..], x);
    }
  }

  /** A name without a leading slash is on no list. */
  lemma RemoveForeign(s: string, ps: set<Path>, x: string)
    requires Lists(s, ps) && x != "" && x[0] != '/' && forall p :: p in ps ==> Proper(p)
    ensures Lists(Removed(s, x, ';'), ps)
  {
    hide PathOf; hide Proper; hide Removed; hide Named;
    var l := Tokens(s, ';');
    forall i | 0 <= i < |l| ensures l[i] != x {
      NamedProper(l, ps, i);
      PathChars(Tokens(l[i], '/'));
    }
    RemoveDrops(s, x, ';');
    WithoutForeign(l, x);
  }

  lemma ForeignSpares(cells: Cells, names: set<string>, c: Cell)
    requires ProperCell(c) && forall x :: x in names ==> !Slashed(x)
    ensures Look(cells - names, c) == Look(cells, c)
  {
    NameChars(c);
    assert Slashed(Name(c));
  }

  /** Without the leading slash another column goes, and the tree stays as it is, file and all. */
  lemma DeletedOutside(cells: Cells, fs: FileSystem, name: string)
    requires Encodes(cells, fs) && Normal(name) && name[0] != '/' && PathIn(name) in fs.files
    requires name in cells && ListsNoColumns(cells, name)
    ensures Encodes(Deleted(cells, name), fs)
  {
    hide Look; hide Lists; hide FileAt; hide Name; hide Removed; hide Up; hide PathOf; hide Tokens; hide Proper; hide Content;
    hide Children; hide WellFormed;
    var p := PathIn(name);
    NormalName(name);
    var up := Parent(p);
    UpIsParent(p);
    assert Up(name) == PathOf(up) by { SameUp(name, p); }
    var gone := ListedIn(Tokens(cells[name], ';')) + {name};
    var c1 := cells - ListedIn(Tokens(cells[name], ';')) - {name};
    assert c1 == cells - gone;
    forall c | ProperCell(c) ensures Look(c1, c) == Look(cells, c) { ForeignSpares(cells, gone, c); }
    ParentThere(fs, p);
    assert TreeAt(cells, fs.dirs, fs.files.Keys, up);
    assert ProperCell(Files(up));
    var v := Look(cells, Files(up)).value;
    AllProper(fs) by { EncodesWellFormed(cells, fs); }
    ChildrenProper(fs, up);
    RemoveForeign(v, Children(fs.files.Keys, up), name);
    LookSome(c1, Files(up));
    assert Name(Files(up)) == PathOf(up) + ",files" by { FilesName(up); }
    var c2 := Deleted(cells, name);
    assert c2 == c1[Name(Files(up)) := Removed(v, name, ';')];
    LookPut(c1, Files(up), Removed(v, name, ';'));
    forall d | Proper(d) ensures TreeAt(c2, fs.dirs, fs.files.Keys, d) {
      assert TreeAt(cells, fs.dirs, fs.files.Keys, d);
      assert ProperCell(Files(d)) && ProperCell(Dirs(d));
    }
    SameFilesKeep(cells, c2, fs.files, {});
  }

  lemma FilesName(d: Path)
    ensures Name(Files(d)) == PathOf(d) + ",files"
  {
  }

  lemma SameUp(name: string, p: Path)
    requires name != "" && WithSlash(name) == PathOf(p) && Proper(p) && p != []
    ensures Up(name) == Up(PathOf(p))
  {
    PathChars(p);
  }

  lemma ParentThere(fs: FileSystem, p: Path)
    requires WellFormed(fs.dirs, fs.files.Keys) && p in fs.files
    ensures p != [] && Parent(p) in fs.dirs && Proper(Parent(p))
  {
  }

  lemma ChildrenProper(fs: FileSystem, d: Path)
    requires forall p :: p in fs.dirs || p in fs.files.Keys ==> Proper(p)
    ensures forall p :: p in Children(fs.files.Keys, d) ==> Proper(p)
  {
  }

  // ---- Over a store that brings deleted columns back ------------------------------------------------

  /** The columns that hold a file. */
  function FileColumnNames(p: Path, n: nat): set<string> {
    ListedIn(ChunkNames(p, n)) + {Name(Meta(p))}
  }

  /** The row with deleted columns brought back by a checkpoint of the storage node. */
  function WithBack(cells: Cells, back: set<string>): Cells {
    cells + map x | x in back :: ""
  }

  /** After `delete_file` the row encodes a file system, the one without the file, exactly when the store brings none of
      the file's columns back; if it does the row encodes no file system at all. */
  lemma BroughtBackEncodesNothingIff(cells: Cells, fs: FileSystem, p: Path, back: set<string>)
    requires Encodes(cells, fs) && Proper(p) && p != [] && p in fs.files
    requires back <= FileColumnNames(p, ChunkCount(|fs.files[p]|))
    ensures (exists fs' :: Encodes(WithBack(Deleted(cells, PathOf(p)), back), fs')) <==> back == {}
    ensures back == {} ==> Encodes(WithBack(Deleted(cells, PathOf(p)), back), fs.(files := fs.files - {p}))
  {
    hide Tree; hide OtherFiles; hide Deleted; hide Proper;
    BeginErasing(cells, fs, p);
    MetaName(cells, p);
    DeletedFile(cells, fs, p);
    var c := Deleted(cells, PathOf(p));
    var fs1 := fs.(files := fs.files - {p});
    assert WithBack(c, {}) == c;
    if back != {} {
      forall fs' ensures !Encodes(WithBack(c, back), fs') {
        BackEncodesNothing(c, fs1, p, back, ChunkCount(|fs.files[p]|), fs');
      }
    } else {
      assert Encodes(WithBack(c, back), fs1);
    }
  }

  lemma BackEncodesNothing(c: Cells, fs: FileSystem, p: Path, back: set<string>, n: nat, fs': FileSystem)
    requires Encodes(c, fs) && Proper(p) && p != [] && p !in fs.files && back <= FileColumnNames(p, n) && back != {}
    ensures !Encodes(WithBack(c, back), fs')
  {
    hide Tree; hide Proper; hide Name; hide ChunkOf;
    var c' := WithBack(c, back);
    assert FileAt(c, p, None) by { NewFile(c, fs.files, p); }
    if Name(Meta(p)) in back {
      assert Look(c', Meta(p)) == Some("");
      TokensOne("", ';');
    } else {
      var x :| x in back;
      assert x in ChunkNames(p, n);
      var i: nat :| i < n && ChunkNames(p, n)[i] == x;
      assert Look(c', Chunk(p, i)).Some?;
      assert Look(c', Meta(p)) == Look(c, Meta(p));
    }
    assert !FileAt(c', p, Content(fs'.files, p));
  }

  lemma NormalName(name: string)
    requires Normal(name)
    ensures name != "" && Proper(PathIn(name)) && PathIn(name) != [] && PathOf(PathIn(name)) == WithSlash(name)
    ensures name[0] == '/' ==> WithSlash(name) == name
  {
  }

  lemma EncodesWellFormed(cells: Cells, fs: FileSystem)
    requires Encodes(cells, fs)
    ensures WellFormed(fs.dirs, fs.files.Keys)
  {
  }

  /** What the walk found, written out. */
  lemma FinishLists(fs: FileSystem, r: Path, dirPaths: seq<string>, filePaths: seq<string>)
    requires WellFormed(fs.dirs, fs.files.Keys) && Proper(r)
    requires r in fs.dirs ==>
               Named(dirPaths, DirsUnder(fs.dirs, r)) && Named(filePaths, FilesUnder(fs.files.Keys, r))
    requires r !in fs.dirs ==> dirPaths == [PathOf(r)] && filePaths == []
    ensures Lists(";" + Terminated(filePaths, ';'), FilesUnder(fs.files.Keys, r))
    ensures Lists(";" + Terminated(dirPaths, ';'), DirsUnder(fs.dirs, r) + {r})
  {
    hide PathOf; hide Terminated; hide Tokens; hide Proper; hide Named;
    AllProper(fs);
    if r in fs.dirs {
      assert DirsUnder(fs.dirs, r) + {r} == DirsUnder(fs.dirs, r);
    } else {
      NoDirNoFiles(fs.dirs, fs.files.Keys, r);
      NamedOne(r);
      NamedNone();
      assert DirsUnder(fs.dirs, r) + {r} == {r};
    }
    NamedWritten(dirPaths, DirsUnder(fs.dirs, r) + {r});
    NamedWritten(filePaths, FilesUnder(fs.files.Keys, r));
  }

  lemma NamedNone()
    ensures Named([], {})
  {
  }

  lemma NoPaths(l: seq<string>)
    ensures PathsOf(l[..0]) == {}
  {
  }

  /** The names in a list are those of its paths. */
  lemma NamedAre(names: seq<string>, list: string, ps: set<Path>, fs: FileSystem)
    requires names == Tokens(list, ';') && Lists(list, ps) && WellFormed(fs.dirs, fs.files.Keys) && ps <= fs.files.Keys
    ensures PathsOf(names) == ps
    ensures forall i :: 0 <= i < |names| ==>
              var p := Tokens(names[i], '/'); p in ps && PathOf(p) == names[i] && Proper(p) && p != []
  {
    hide Tokens; hide PathOf; hide Proper;
    AllProper(fs);
    PathsOfNamed(names, ps);
    forall i | 0 <= i < |names|
      ensures var p := Tokens(names[i], '/'); p in ps && PathOf(p) == names[i] && Proper(p) && p != [] {
      NamedProper(names, ps, i);
    }
  }

  lemma NamedDirs(names: seq<string>, list: string, ps: set<Path>, fs: FileSystem)
    requires names == Tokens(list, ';') && Lists(list, ps) && forall p :: p in ps ==> Proper(p)
    ensures PathsOf(names) == ps
    ensures forall i :: 0 <= i < |names| ==>
              var p := Tokens(names[i], '/'); p in ps && PathOf(p) == names[i] && Proper(p)
  {
    hide Tokens; hide PathOf; hide Proper;
    PathsOfNamed(names, ps);
    forall i | 0 <= i < |names|
      ensures var p := Tokens(names[i], '/'); p in ps && PathOf(p) == names[i] && Proper(p) {
      NamedProper(names, ps, i);
    }
  }

  lemma FileThere(cells: Cells, fs: FileSystem, p: Path)
    requires Encodes(cells, fs) && Proper(p) && p != []
    ensures p in fs.files <==> PathOf(p) in cells
  {
    hide Look; hide Encodes; hide PathOf;
    BeginErasing(cells, fs, p);
    MetaName(cells, p);
  }

  lemma FilesGone(fs: FileSystem, r: Path)
    ensures FilesUnder((fs.files - FilesUnder(fs.files.Keys, r)).Keys, r) == {}
  {
  }

  lemma UnderProper(fs: FileSystem, r: Path)
    requires WellFormed(fs.dirs, fs.files.Keys) && Proper(r)
    ensures FilesUnder(fs.files.Keys, r) <= fs.files.Keys
    ensures forall p :: p in DirsUnder(fs.dirs, r) + {r} ==> Proper(p)
  {
    hide Proper;
  }

  lemma PrunedOnce(fs: FileSystem, r: Path)
    ensures Pruned(fs.(files := fs.files - FilesUnder(fs.files.Keys, r)), r) == Pruned(fs, r)
  {
    var files := FilesUnder(fs.files.Keys, r);
    FilesGone(fs, r);
    assert fs.files - files - {} == fs.files - files;
  }

  lemma UpOf(r: Path)
    requires Proper(r)
    ensures Up(PathOf(r)) == PathOf(if r == [] then [] else Parent(r))
  {
    if r == [] {
      PathTokens([]);
    } else {
      UpIsParent(r);
    }
  }

  lemma NoRootList(cells: Cells)
    requires NoFileColumns(cells)
    ensures PathOf([]) + ",dirs" !in cells
  {
    hide Look;
    ProperRoot();
    assert ProperCell(Dirs([]));
    LookNone(cells, Dirs([]));
  }

  /** `Pruned` with no files left to drop. */
  lemma NothingToPrune(fs: FileSystem, r: Path)
    requires FilesUnder(fs.files.Keys, r) == {} && r != []
    ensures Pruned(fs, r) == fs.(dirs := fs.dirs - DirsUnder(fs.dirs, r))
  {
    assert fs.files - {} == fs.files;
  }

  lemma MetaName(cells: Cells, p: Path)
    ensures Look(cells, Meta(p)).Some? <==> PathOf(p) in cells
  {
    hide PathOf;
  }

lemma RootIsThere(cells: Cells, fs: FileSystem)
    requires Encodes(cells, fs)
    ensures [] in fs.dirs
  {
  }

  lemma JoinIsPath(d: Path)
    requires d != []
    ensures Join(d) == PathOf(d)
  {
  }

  lemma DirThere(cells: Cells, fs: FileSystem, d: Path)
    requires Encodes(cells, fs) && Proper(d)
    ensures d in fs.dirs <==> PathOf(d) + ",files" in cells
  {
    hide Look; hide Tree;
    ListThere(cells, fs.dirs, fs.files.Keys, d);
    LookNone(cells, Files(d));
  }

  lemma ErasingLists(cells: Cells, fs: FileSystem, p: Path, k: nat)
    requires Erasing(cells, fs, p, k)
    ensures PathOf(p) in cells && Tokens(cells[PathOf(p)], ';') == ChunkNames(p, ChunkCount(|fs.files[p]|))
  {
    hide Tree; hide OtherFiles; hide ChunksAt; hide Tokens; hide ChunkNames;
  }

  lemma ErasingChunk(cells: Cells, fs: FileSystem, p: Path, i: nat)
    requires Erasing(cells, fs, p, 0) && i < ChunkCount(|fs.files[p]|)
    ensures Name(Chunk(p, i)) in cells && cells[Name(Chunk(p, i))] == ChunkOf(fs.files[p], i)
  {
    hide Tree; hide OtherFiles; hide ListsChunks; hide ChunkOf;
    assert Look(cells, Chunk(p, i)).Some?;
  }

  lemma ParentIsAncestor(dirs: set<Path>, p: Path)
    requires p != []
    ensures Parent(p) in WithAncestors(dirs, p)
  {
    NextAncestor(p, |p| - 1);
  }
}
