/** What the columns of a user's row stand for: a tree of directories and files with contents (frontend/files.cc). */
module FileTree {
  import opened Numbers
  import opened Options
  import opened ListString
  import opened Paths
  import opened FileColumns

  /** What a user sees. */
  datatype FileSystem = FileSystem(dirs: set<Path>, files: map<Path, string>)

  const NOTHING := FileSystem({[]}, map[])

  /** 1000000 (frontend/files.h:4) */
  const CHUNK_SIZE_BYTES: Positive

  // ---- Chunks ---------------------------------------------------------------------------------------

  /** The number of chunks: one, even for no data, up to the chunk size; then the full ones and the rest. */
  function ChunkCount(size: nat): (n: nat)
    ensures n >= 1
  {
    if size <= CHUNK_SIZE_BYTES then 1
    else size / CHUNK_SIZE_BYTES + (if size % CHUNK_SIZE_BYTES != 0 then 1 else 0)
  }

  /** Where a chunk starts. */
  function Start(i: nat): nat {
    i * CHUNK_SIZE_BYTES
  }

  lemma StartNext(i: nat)
    ensures Start(0) == 0 && Start(i + 1) == Start(i) + CHUNK_SIZE_BYTES
  {
  }

  /** The chunks reach to the end of the data, and none but the only one starts there. */
  lemma ChunksCover(size: nat)
    ensures var n := ChunkCount(size); size <= Start(n) && Start(n - 1) <= size
  {
    var q, r := size / CHUNK_SIZE_BYTES, size % CHUNK_SIZE_BYTES;
    assert size == Start(q) + r;
    StartNext(q);
    if size > CHUNK_SIZE_BYTES && r == 0 {
      assert q > 0;
      StartNext(q - 1);
    }
    StartNext(0);
  }

  lemma StartsWithin(size: nat, i: nat)
    requires i < ChunkCount(size)
    ensures Start(i) <= size
  {
    var n := ChunkCount(size);
    ChunksCover(size);
    if i < n - 1 { MulAtLeast(i, n - 1, CHUNK_SIZE_BYTES); }
  }

  /** `string::substr` */
  function Substr(s: string, pos: nat, length: nat): string
    requires pos <= |s|
  {
    if pos + length <= |s| then s[pos..pos + length] else s[pos..]
  }

  function ChunkOf(data: string, i: nat): string
    requires i < ChunkCount(|data|)
  {
    StartsWithin(|data|, i);
    Substr(data, Start(i), CHUNK_SIZE_BYTES)
  }

  /** What the first `n` chunks hold. */
  function FirstChunks(data: string, n: nat): string {
    if Start(n) <= |data| then data[..Start(n)] else data
  }

  lemma NextChunk(data: string, n: nat)
    requires n < ChunkCount(|data|)
    ensures FirstChunks(data, n) + ChunkOf(data, n) == FirstChunks(data, n + 1)
  {
    StartsWithin(|data|, n);
    StartNext(n);
    hide Start;
  }

  /** All chunks together are the data, whatever its length. */
  lemma AllChunks(data: string)
    ensures FirstChunks(data, 0) == ""
    ensures FirstChunks(data, ChunkCount(|data|)) == data
  {
    var n := ChunkCount(|data|);
    ChunksCover(|data|);
    StartNext(0);
    hide Start;
    if Start(n) == |data| {
      assert data[..Start(n)] == data;
    }
  }

  /** The chunk columns of the file, in order. */
  function ChunkNames(p: Path, n: nat): (names: seq<string>)
    ensures |names| == n && forall i: nat :: i < n ==> names[i] == Name(Chunk(p, i))
    decreases n
  {
    if n == 0 then [] else ChunkNames(p, n - 1) + [Name(Chunk(p, n - 1))]
  }

  lemma NameChars(c: Cell)
    requires ProperCell(c)
    ensures Name(c) != "" && Name(c)[0] == '/' && ';' !in Name(c)
  {
    PathChars(c.path);
  }

  // ---- One file -------------------------------------------------------------------------------------

  predicate FileCell(c: Cell) {
    c.Meta? || c.Chunk?
  }

  /** The file's list names its first `n` chunks. */
  predicate ListsChunks(v: Option<string>, p: Path, n: nat) {
    v.Some? && Tokens(v.value, ';') == ChunkNames(p, n)
  }

  /** The cells of `p` hold chunks `lo` to `hi` of the data and no others. */
  ghost predicate ChunksAt(cells: Cells, p: Path, data: string, lo: nat, hi: nat)
    requires hi <= ChunkCount(|data|)
  {
    forall i: nat :: Look(cells, Chunk(p, i)) == if lo <= i < hi then Some(ChunkOf(data, i)) else None
  }

  ghost predicate FileAt(cells: Cells, p: Path, data: Option<string>) {
    match data
    case None => Look(cells, Meta(p)) == None && forall i: nat :: Look(cells, Chunk(p, i)) == None
    case Some(d) => ListsChunks(Look(cells, Meta(p)), p, ChunkCount(|d|)) && ChunksAt(cells, p, d, 0, ChunkCount(|d|))
  }

  function Content(files: map<Path, string>, p: Path): Option<string> {
    if p in files then Some(files[p]) else None
  }

  /** Every path but `except` holds what the files say. */
  ghost predicate OtherFiles(cells: Cells, files: map<Path, string>, except: set<Path>) {
    forall p :: Proper(p) && p != [] && p !in except ==> FileAt(cells, p, Content(files, p))
  }

  /** The columns encode the file system. */
  ghost predicate Encodes(cells: Cells, fs: FileSystem) {
    Tree(cells, fs.dirs, fs.files.Keys) && OtherFiles(cells, fs.files, {})
  }

  // ---- What a change of columns leaves --------------------------------------------------------------

  /** Only the cells of file `p` differ. */
  ghost predicate OnlyFile(cells: Cells, cells': Cells, p: Path) {
    forall c :: ProperCell(c) && !(FileCell(c) && c.path == p) ==> Look(cells', c) == Look(cells, c)
  }

  /** No cell of a file differs. */
  ghost predicate SameFiles(cells: Cells, cells': Cells) {
    forall c :: ProperCell(c) && FileCell(c) ==> Look(cells', c) == Look(cells, c)
  }

  lemma FileAtKeeps(cells: Cells, cells': Cells, p: Path, data: Option<string>)
    requires FileAt(cells, p, data) && Look(cells', Meta(p)) == Look(cells, Meta(p))
    requires forall i: nat :: Look(cells', Chunk(p, i)) == Look(cells, Chunk(p, i))
    ensures FileAt(cells', p, data)
  {
    hide Look; hide ListsChunks; hide ChunkOf;
  }

  lemma OnlyFileKeeps(cells: Cells, cells': Cells, fs: FileSystem, files: set<Path>, p: Path)
    requires Tree(cells, fs.dirs, files) && OtherFiles(cells, fs.files, {p}) && OnlyFile(cells, cells', p)
    ensures Tree(cells', fs.dirs, files) && OtherFiles(cells', fs.files, {p})
  {
    hide Look; hide FileAt; hide Tree; hide Content; hide Proper;
    assert SameTree(cells, cells') by {
      forall d | Proper(d)
        ensures Look(cells', Files(d)) == Look(cells, Files(d)) && Look(cells', Dirs(d)) == Look(cells, Dirs(d)) {
        assert ProperCell(Files(d)) && ProperCell(Dirs(d));
      }
    }
    SameTreeKeeps(cells, cells', fs.dirs, files);
    forall q | Proper(q) && q != [] && q != p ensures FileAt(cells', q, Content(fs.files, q)) {
      assert ProperCell(Meta(q));
      assert forall i: nat :: ProperCell(Chunk(q, i));
      FileAtKeeps(cells, cells', q, Content(fs.files, q));
    }
  }

  lemma SameFilesKeep(cells: Cells, cells': Cells, files: map<Path, string>, except: set<Path>)
    requires OtherFiles(cells, files, except) && SameFiles(cells, cells')
    ensures OtherFiles(cells', files, except)
  {
    hide Look; hide FileAt; hide Content; hide Proper;
    forall q | Proper(q) && q != [] && q !in except ensures FileAt(cells', q, Content(files, q)) {
      assert ProperCell(Meta(q));
      assert forall i: nat :: ProperCell(Chunk(q, i));
      FileAtKeeps(cells, cells', q, Content(files, q));
    }
  }

  lemma PutFileCell(cells: Cells, c: Cell, v: string)
    requires ProperCell(c) && FileCell(c)
    ensures OnlyFile(cells, cells[Name(c) := v], c.path)
  {
    hide Look;
    LookPut(cells, c, v);
  }

  lemma DeleteFileCell(cells: Cells, c: Cell)
    requires ProperCell(c) && FileCell(c)
    ensures OnlyFile(cells, cells - {Name(c)}, c.path)
  {
    hide Look;
    LookDelete(cells, c);
  }

  lemma PutListCell(cells: Cells, c: Cell, v: string)
    requires ProperCell(c) && !FileCell(c)
    ensures SameFiles(cells, cells[Name(c) := v])
  {
    hide Look;
    LookPut(cells, c, v);
  }

  // ---- Initialisation -------------------------------------------------------------------------------

  /** The columns that `init_files_metadata` leaves. */
  function Initialised(cells: Cells): Cells {
    if Name(Files([])) in cells then cells
    else cells[Name(Files([])) := ";"][Name(Dirs([])) := ";"]["$$$shared_files" := ";"]
  }

  ghost predicate NoFileColumns(cells: Cells) {
    forall c :: ProperCell(c) ==> Look(cells, c) == None
  }

  /** On a row without columns of the file tree it makes the empty root. */
  lemma InitialisedIsEmpty(cells: Cells)
    requires NoFileColumns(cells)
    ensures Encodes(Initialised(cells), NOTHING)
  {
    hide Look; hide Name; hide Lists; hide FileAt; hide Proper;
    var c1 := cells[Name(Files([])) := ";"];
    var c2 := c1[Name(Dirs([])) := ";"];
    var c3 := c2["$$$shared_files" := ";"];
    assert Proper([]) by { ProperRoot(); }
    LookPut(cells, Files([]), ";");
    LookPut(c1, Dirs([]), ";");
    LookOutside(c2, "$$$shared_files", ";");
    assert Look(cells, Files([])) == None;
    LookNone(cells, Files([]));
    ListsNothing();
    assert Children({}, []) == {} && Children({[]}, []) == {};
    forall d | Proper(d) ensures TreeAt(c3, {[]}, {}, d) {
      assert ProperCell(Files(d)) && ProperCell(Dirs(d));
    }
    forall p | Proper(p) && p != [] ensures FileAt(c3, p, None) {
      NoFileHere(c3, p);
    }
    assert NOTHING.files.Keys == {};
  }

  lemma ProperRoot()
    ensures Proper([])
  {
  }

  lemma LookNone(cells: Cells, c: Cell)
    ensures Look(cells, c) == None <==> Name(c) !in cells
  {
  }

  lemma NoFileHere(cells: Cells, p: Path)
    requires Proper(p) && p != []
    requires forall c :: ProperCell(c) && FileCell(c) ==> Look(cells, c) == None
    ensures FileAt(cells, p, None)
  {
    hide Look;
    assert ProperCell(Meta(p));
    assert forall i: nat :: ProperCell(Chunk(p, i));
  }

  /** A column that is not a path holds nothing of the tree. */
  lemma LookOutside(cells: Cells, column: string, v: string)
    requires column != "" && column[0] != '/'
    ensures forall c :: ProperCell(c) ==> Look(cells[column := v], c) == Look(cells, c)
  {
    forall c | ProperCell(c) ensures Look(cells[column := v], c) == Look(cells, c) {
      NameChars(c);
    }
  }

  lemma EncodedIsInitialised(cells: Cells, fs: FileSystem)
    requires Encodes(cells, fs)
    ensures Initialised(cells) == cells
  {
    hide Lists; hide Name;
    ProperRoot();
    assert TreeAt(cells, fs.dirs, fs.files.Keys, []);
  }

  // ---- Directories ----------------------------------------------------------------------------------

  /** The directories on the way to `p`, the first `n` of them. */
  function Ancestors(p: Path, n: nat): (ds: set<Path>)
    requires n <= |p|
  {
    set k: nat | k < n :: p[..k]
  }

  /** Every directory that a file at `p` needs. */
  function WithAncestors(dirs: set<Path>, p: Path): set<Path> {
    dirs + Ancestors(p, |p|)
  }

  /** `create_dir` adds one directory and nothing else. */
  lemma CreateDirEncodes(cells: Cells, fs: FileSystem, d: Path)
    requires Encodes(cells, fs) && Proper(d) && d != [] && d !in fs.dirs && Parent(d) in fs.dirs
    ensures Encodes(WithDir(cells, d), fs.(dirs := fs.dirs + {d}))
  {
    hide Tree; hide Look; hide Name; hide Proper; hide OtherFiles; hide Appended; hide WithDir;
    AddDir(cells, fs.dirs, fs.files.Keys, d);
    ParentProper(d);
    ListThere(cells, fs.dirs, fs.files.Keys, Parent(d));
    WithDirLooks(cells, d);
    SameFilesKeep(cells, WithDir(cells, d), fs.files, {});
  }

  lemma ListThere(cells: Cells, dirs: set<Path>, files: set<Path>, d: Path)
    requires Tree(cells, dirs, files) && Proper(d)
    ensures d in dirs <==> Look(cells, Files(d)).Some?
    ensures d in dirs <==> Look(cells, Dirs(d)).Some?
  {
    hide Look; hide Lists;
    assert TreeAt(cells, dirs, files, d);
  }

  lemma NextAncestor(p: Path, k: nat)
    requires k < |p|
    ensures Ancestors(p, k + 1) == Ancestors(p, k) + {p[..k]}
    ensures Ancestors(p, 1) == {[]}
    ensures k > 0 ==> Parent(p[..k]) in Ancestors(p, k)
  {
    assert p[..0] == [];
    if k > 0 {
      assert Parent(p[..k]) == p[..k - 1];
    }
  }

  // ---- Deleting a file ------------------------------------------------------------------------------

  /** `delete_file` has deleted the first `k` chunks. */
  ghost predicate Erasing(cells: Cells, fs: FileSystem, p: Path, k: nat) {
    && p in fs.files
    && k <= ChunkCount(|fs.files[p]|)
    && Tree(cells, fs.dirs, fs.files.Keys)
    && OtherFiles(cells, fs.files, {p})
    && ListsChunks(Look(cells, Meta(p)), p, ChunkCount(|fs.files[p]|))
    && ChunksAt(cells, p, fs.files[p], k, ChunkCount(|fs.files[p]|))
  }

  lemma BeginErasing(cells: Cells, fs: FileSystem, p: Path)
    requires Encodes(cells, fs) && Proper(p) && p != []
    ensures p in fs.files ==> Erasing(cells, fs, p, 0)
    ensures p in fs.files <==> Look(cells, Meta(p)).Some?
  {
    hide Look; hide Tree; hide Tokens; hide ChunkNames; hide ChunksAt;
    assert FileAt(cells, p, Content(fs.files, p));
  }

  lemma EraseChunk(cells: Cells, fs: FileSystem, p: Path, k: nat)
    requires Erasing(cells, fs, p, k) && Proper(p) && p != [] && k < ChunkCount(|fs.files[p]|)
    ensures Erasing(cells - {Name(Chunk(p, k))}, fs, p, k + 1)
  {
    hide Look; hide Tree; hide ListsChunks; hide OtherFiles; hide ChunkOf; hide Proper; hide Name;
    var c := Chunk(p, k);
    DeleteFileCell(cells, c);
    OnlyFileKeeps(cells, cells - {Name(c)}, fs, fs.files.Keys, p);
    LookDelete(cells, c);
    assert ProperCell(Meta(p)) && forall i: nat :: ProperCell(Chunk(p, i));
  }

  /** Then it deletes the list of chunks and takes the file off its directory's list. */
  function Unlisted(cells: Cells, f: Path): Cells
    requires f != []
  {
    var list := Name(Files(Parent(f)));
    var c1 := cells - {Name(Meta(f))};
    c1[list := Removed(if list in c1 then c1[list] else "", PathOf(f), ';')]
  }

  lemma FinishErasing(cells: Cells, fs: FileSystem, p: Path)
    requires Proper(p) && p != [] && p in fs.files && Erasing(cells, fs, p, ChunkCount(|fs.files[p]|))
    ensures Encodes(Unlisted(cells, p), fs.(files := fs.files - {p}))
  {
    hide Look; hide Tree; hide ListsChunks; hide FileAt; hide ChunkOf; hide Removed; hide Name; hide OtherFiles;
    var c1 := cells - {Name(Meta(p))};
    DeleteFileCell(cells, Meta(p));
    OnlyFileKeeps(cells, c1, fs, fs.files.Keys, p);
    RemoveFileEntry(c1, fs.dirs, fs.files.Keys, p);
    LookSome(c1, Files(Parent(p)));
    var c2 := Unlisted(cells, p);
    ParentProper(p);
    PutListCell(c1, Files(Parent(p)), Removed(Look(c1, Files(Parent(p))).value, PathOf(p), ';'));
    SameFilesKeep(c1, c2, fs.files, {p});
    GoneFile(cells, fs.files[p], p);
    NoFileKeeps(c1, c2, p);
    WithoutFile(c2, fs.files, p);
    assert (fs.files - {p}).Keys == fs.files.Keys - {p};
  }

  lemma LookSome(cells: Cells, c: Cell)
    requires Look(cells, c).Some?
    ensures Name(c) in cells && cells[Name(c)] == Look(cells, c).value
  {
  }

  lemma GoneFile(cells: Cells, data: string, p: Path)
    requires Proper(p) && p != [] && ChunksAt(cells, p, data, ChunkCount(|data|), ChunkCount(|data|))
    ensures FileAt(cells - {Name(Meta(p))}, p, None)
  {
    hide Look; hide ChunkOf; hide Proper; hide Name;
    LookDelete(cells, Meta(p));
    assert ProperCell(Meta(p)) && forall i: nat :: ProperCell(Chunk(p, i));
  }

  lemma NoFileKeeps(cells: Cells, cells': Cells, p: Path)
    requires Proper(p) && p != [] && FileAt(cells, p, None) && SameFiles(cells, cells')
    ensures FileAt(cells', p, None)
  {
    hide Look; hide Proper;
    assert ProperCell(Meta(p)) && forall i: nat :: ProperCell(Chunk(p, i));
  }

  lemma WithoutFile(cells: Cells, files: map<Path, string>, p: Path)
    requires OtherFiles(cells, files, {p}) && FileAt(cells, p, None)
    ensures OtherFiles(cells, files - {p}, {})
  {
    hide FileAt;
  }

  // ---- Writing a file -------------------------------------------------------------------------------

  /** `write_file` has listed the file and written its first `k` chunks. */
  ghost predicate Writing(cells: Cells, fs: FileSystem, p: Path, data: string, k: nat) {
    && k <= ChunkCount(|data|)
    && Tree(cells, fs.dirs, fs.files.Keys + {p})
    && OtherFiles(cells, fs.files, {p})
    && ListsChunks(Look(cells, Meta(p)), p, k)
    && ChunksAt(cells, p, data, 0, k)
  }

  function ListedFile(cells: Cells, f: Path): Cells
    requires f != []
  {
    WithEntry(cells, Name(Files(Parent(f))), PathOf(f))[Name(Meta(f)) := ";"]
  }

  lemma BeginWriting(cells: Cells, fs: FileSystem, p: Path, data: string)
    requires Encodes(cells, fs) && Proper(p) && p != [] && p !in fs.files && Parent(p) in fs.dirs
    ensures Name(Files(Parent(p))) in cells
    ensures Writing(ListedFile(cells, p), fs, p, data, 0)
  {
    hide Look; hide Tree; hide FileAt; hide ChunkOf; hide Appended; hide Name; hide OtherFiles; hide Proper;
    var list := Files(Parent(p));
    ParentProper(p);
    AddFileEntry(cells, fs.dirs, fs.files.Keys, p);
    LookSome(cells, list);
    var c1 := WithEntry(cells, Name(list), PathOf(p));
    PutListCell(cells, list, Appended(cells[Name(list)], PathOf(p), ';'));
    assert FileAt(cells, p, None) by { NewFile(cells, fs.files, p); }
    NoFileKeeps(cells, c1, p);
    SameFilesKeep(cells, c1, fs.files, {});
    assert OtherFiles(c1, fs.files, {p}) by { Fewer(c1, fs.files, p); }
    PutFileCell(c1, Meta(p), ";");
    OnlyFileKeeps(c1, c1[Name(Meta(p)) := ";"], fs, fs.files.Keys + {p}, p);
    EmptyFile(c1, p, data);
  }

  lemma NewFile(cells: Cells, files: map<Path, string>, p: Path)
    requires OtherFiles(cells, files, {}) && Proper(p) && p != [] && p !in files
    ensures FileAt(cells, p, None)
  {
    hide FileAt;
  }

  lemma Fewer(cells: Cells, files: map<Path, string>, p: Path)
    requires OtherFiles(cells, files, {})
    ensures OtherFiles(cells, files, {p})
  {
    hide FileAt;
  }

  lemma EmptyFile(cells: Cells, p: Path, data: string)
    requires Proper(p) && p != [] && FileAt(cells, p, None)
    ensures ListsChunks(Look(cells[Name(Meta(p)) := ";"], Meta(p)), p, 0)
    ensures ChunksAt(cells[Name(Meta(p)) := ";"], p, data, 0, 0)
  {
    hide Look; hide Proper; hide Name; hide Tokens; hide ChunkOf;
    LookPut(cells, Meta(p), ";");
    assert ProperCell(Meta(p)) && forall i: nat :: ProperCell(Chunk(p, i));
    assert Tokens(";", ';') == [] by { NoTokens(); }
  }

  lemma NoTokens()
    ensures Tokens(";", ';') == []
  {
    TokensConcat("", "", ';');
    TokensOne("", ';');
    assert "" + [';'] + "" == ";";
  }

  function WithChunk(cells: Cells, p: Path, k: nat, chunk: string): Cells {
    WithEntry(cells, Name(Meta(p)), Name(Chunk(p, k)))[Name(Chunk(p, k)) := chunk]
  }

  lemma WriteChunk(cells: Cells, fs: FileSystem, p: Path, data: string, k: nat)
    requires Writing(cells, fs, p, data, k) && Proper(p) && p != [] && k < ChunkCount(|data|)
    ensures Writing(WithChunk(cells, p, k, ChunkOf(data, k)), fs, p, data, k + 1)
  {
    hide Look; hide Tree; hide OtherFiles; hide ChunkOf; hide Proper; hide Name; hide Tokens; hide ChunkNames;
    hide Appended;
    var list, c := Meta(p), Chunk(p, k);
    assert ProperCell(list) && forall i: nat :: ProperCell(Chunk(p, i));
    LookSome(cells, list);
    NameChars(c);
    AppendAddsIff(cells[Name(list)], Name(c), ';');
    var c1 := WithEntry(cells, Name(list), Name(c));
    PutFileCell(cells, list, Appended(cells[Name(list)], Name(c), ';'));
    OnlyFileKeeps(cells, c1, fs, fs.files.Keys + {p}, p);
    PutFileCell(c1, c, ChunkOf(data, k));
    OnlyFileKeeps(c1, c1[Name(c) := ChunkOf(data, k)], fs, fs.files.Keys + {p}, p);
    LookPut(cells, list, Appended(cells[Name(list)], Name(c), ';'));
    LookPut(c1, c, ChunkOf(data, k));
    assert ChunkNames(p, k + 1) == ChunkNames(p, k) + [Name(c)];
  }

  lemma FinishWriting(cells: Cells, fs: FileSystem, p: Path, data: string)
    requires Writing(cells, fs, p, data, ChunkCount(|data|))
    ensures Encodes(cells, fs.(files := fs.files[p := data]))
  {
    hide Look; hide Tree; hide ListsChunks; hide ChunksAt;
    assert FileAt(cells, p, Some(data));
    forall q | Proper(q) && q != [] ensures FileAt(cells, q, Content(fs.files[p := data], q)) {
      if q != p {
        assert FileAt(cells, q, Content(fs.files, q));
      }
    }
    assert fs.files[p := data].Keys == fs.files.Keys + {p};
  }

  // ---- The walk over the tree -----------------------------------------------------------------------

  /** The directories in the tree under `r`, itself included. */
  function DirsUnder(dirs: set<Path>, r: Path): set<Path> {
    set d | d in dirs && r <= d
  }

  function FilesUnder(files: set<Path>, r: Path): set<Path> {
    set f | f in files && f != [] && r <= Parent(f)
  }

  function FilesIn(files: set<Path>, dirs: set<Path>): set<Path> {
    set f | f in files && f != [] && Parent(f) in dirs
  }

  /** The walk has visited some directories; those on the stack are exactly the other ones whose parent was visited. */
  ghost predicate Walking(dirs: set<Path>, r: Path, visited: set<Path>, pending: set<Path>) {
    && visited !! pending
    && visited + pending <= DirsUnder(dirs, r)
    && r in visited + pending
    && (forall d :: d in DirsUnder(dirs, r) && d != r ==> (Parent(d) in visited <==> d in visited + pending))
  }

  lemma UnderParent(r: Path, d: Path)
    requires r <= d && d != r
    ensures d != [] && r <= Parent(d) && |Parent(d)| < |d|
  {
  }

  lemma BeginWalk(dirs: set<Path>, r: Path)
    requires r in dirs
    ensures Walking(dirs, r, {}, {r})
  {
  }

  lemma StepWalk(dirs: set<Path>, r: Path, visited: set<Path>, pending: set<Path>, d: Path)
    requires Walking(dirs, r, visited, pending) && d in pending
    ensures Children(dirs, d) !! visited + pending
    ensures Walking(dirs, r, visited + {d}, pending - {d} + Children(dirs, d))
  {
    forall x | x in Children(dirs, d) ensures x !in visited + pending && x in DirsUnder(dirs, r) {
      assert |Parent(x)| < |x| && r <= d && Parent(x) == d;
      assert x != r;
    }
  }

  lemma StepFiles(files: set<Path>, visited: set<Path>, d: Path)
    requires d !in visited
    ensures FilesIn(files, visited + {d}) == FilesIn(files, visited) + Children(files, d)
    ensures FilesIn(files, visited) !! Children(files, d)
  {
  }

  /** With an empty stack the whole subtree was visited. */
  lemma {:induction false} WalkReaches(dirs: set<Path>, files: set<Path>, r: Path, visited: set<Path>, d: Path)
    requires WellFormed(dirs, files) && Walking(dirs, r, visited, {}) && d in DirsUnder(dirs, r)
    ensures d in visited
    decreases |d|
  {
    if d == r {
    } else {
      UnderParent(r, d);
      assert Parent(d) in dirs;
      WalkReaches(dirs, files, r, visited, Parent(d));
    }
  }

  lemma EndWalk(dirs: set<Path>, files: set<Path>, r: Path, visited: set<Path>)
    requires WellFormed(dirs, files) && Walking(dirs, r, visited, {})
    ensures visited == DirsUnder(dirs, r)
    ensures FilesIn(files, visited) == FilesUnder(files, r)
  {
    forall d | d in DirsUnder(dirs, r) ensures d in visited {
      WalkReaches(dirs, files, r, visited, d);
    }
  }

  /** Under what is no directory there is nothing. */
  lemma {:induction false} NothingUnder(dirs: set<Path>, files: set<Path>, r: Path, d: Path)
    requires WellFormed(dirs, files) && d in dirs && r <= d
    ensures r in dirs
    decreases |d|
  {
    if d == r {
    } else {
      UnderParent(r, d);
      NothingUnder(dirs, files, r, Parent(d));
    }
  }

  lemma NoDirNoFiles(dirs: set<Path>, files: set<Path>, r: Path)
    requires WellFormed(dirs, files) && r !in dirs
    ensures DirsUnder(dirs, r) == {} && FilesUnder(files, r) == {}
  {
    forall d | d in DirsUnder(dirs, r) ensures false {
      NothingUnder(dirs, files, r, d);
    }
    forall f | f in FilesUnder(files, r) ensures false {
      NothingUnder(dirs, files, r, Parent(f));
    }
  }

  // ---- Deleting a directory -------------------------------------------------------------------------

  /** The lists of the directories in `ds` are deleted, and nothing else is. */
  ghost predicate ListsDropped(cells: Cells, cells': Cells, ds: set<Path>) {
    forall c :: ProperCell(c) ==> Look(cells', c) == if !FileCell(c) && c.path in ds then None else Look(cells, c)
  }

  lemma DropNoLists(cells: Cells)
    ensures ListsDropped(cells, cells, {})
  {
  }

  lemma DropLists(base: Cells, cells: Cells, ds: set<Path>, d: Path)
    requires ListsDropped(base, cells, ds) && Proper(d)
    ensures ListsDropped(base, cells - {Name(Dirs(d))} - {Name(Files(d))}, ds + {d})
  {
    hide Look; hide Name; hide Proper;
    assert ProperCell(Dirs(d)) && ProperCell(Files(d));
    LookDelete(cells, Dirs(d));
    LookDelete(cells - {Name(Dirs(d))}, Files(d));
  }

  lemma DroppedSameFiles(cells: Cells, cells': Cells, ds: set<Path>)
    requires ListsDropped(cells, cells', ds)
    ensures SameFiles(cells, cells')
  {
    hide Look;
  }

  /** Deleting the lists under `r` and taking `r` off its parent's list leaves the tree without the subtree. */
  lemma PruneTree(base: Cells, cells: Cells, dirs: set<Path>, files: set<Path>, r: Path, list: string)
    requires Tree(base, dirs, files) && FilesUnder(files, r) == {} && Proper(r) && r != [] && Parent(r) in dirs
    requires ListsDropped(base, cells, DirsUnder(dirs, r) + {r})
    requires Look(base, Dirs(Parent(r))) == Some(list)
    ensures Tree(cells[Name(Dirs(Parent(r))) := Removed(list, PathOf(r), ';')], dirs - DirsUnder(dirs, r), files)
  {
    hide Look; hide Lists; hide Name; hide Removed; hide WellFormed; hide Children; hide DirsUnder; hide FilesUnder;
    hide Proper;
    var up := Parent(r);
    var c1 := cells[Name(Dirs(up)) := Removed(list, PathOf(r), ';')];
    ParentProper(r);
    LookPut(cells, Dirs(up), Removed(list, PathOf(r), ';'));
    assert TreeAt(base, dirs, files, up);
    PruneSets(dirs, files, r);
    ListsRemove(list, Children(dirs, up), r);
    forall x | Proper(x) ensures TreeAt(c1, dirs - DirsUnder(dirs, r), files, x) {
      assert TreeAt(base, dirs, files, x);
      assert ProperCell(Files(x)) && ProperCell(Dirs(x));
      PruneChildren(dirs, files, r, x);
    }
  }

  lemma PruneSets(dirs: set<Path>, files: set<Path>, r: Path)
    requires WellFormed(dirs, files) && FilesUnder(files, r) == {} && r != [] && Parent(r) in dirs
    ensures WellFormed(dirs - DirsUnder(dirs, r), files)
    ensures Parent(r) !in DirsUnder(dirs, r) + {r}
    ensures r !in dirs - DirsUnder(dirs, r)
    ensures forall q :: q in Children(dirs, Parent(r)) ==> Proper(q)
  {
    forall d | d in dirs - DirsUnder(dirs, r) && d != [] ensures Parent(d) in dirs - DirsUnder(dirs, r) {
      assert Parent(d) in dirs;
    }
    forall f | f in files ensures Parent(f) in dirs - DirsUnder(dirs, r) {
      assert f !in FilesUnder(files, r);
    }
  }

  lemma PruneChildren(dirs: set<Path>, files: set<Path>, r: Path, x: Path)
    requires WellFormed(dirs, files) && r != []
    ensures x in dirs - DirsUnder(dirs, r) && x != Parent(r) ==> Children(dirs - DirsUnder(dirs, r), x) == Children(dirs, x)
    ensures x == Parent(r) ==> Children(dirs - DirsUnder(dirs, r), x) == Children(dirs, x) - {r}
  {
    var rest := dirs - DirsUnder(dirs, r);
    if x in rest {
      forall d | d in Children(dirs, x) && d != r ensures d in Children(rest, x) {
        if r <= d { UnderParent(r, d); }
      }
    }
    if x == Parent(r) {
      forall d | d in Children(dirs, x) && d != r ensures d in Children(rest, x) {
        assert |d| == |r| && d != r;
      }
    }
  }

  /** The file system without the subtree. */
  function Pruned(fs: FileSystem, r: Path): FileSystem {
    if r == [] then NOTHING
    else FileSystem(fs.dirs - DirsUnder(fs.dirs, r), fs.files - FilesUnder(fs.files.Keys, r))
  }

  /** Once the subtree's files are gone and its lists are dropped, `delete_dir` has one list left to change. */
  lemma FinishPruning(base: Cells, cells: Cells, fs: FileSystem, r: Path)
    requires Encodes(base, fs) && FilesUnder(fs.files.Keys, r) == {} && Proper(r) && r != []
    requires ListsDropped(base, cells, DirsUnder(fs.dirs, r) + {r})
    ensures Parent(r) in fs.dirs <==> Name(Dirs(Parent(r))) in cells
    ensures Parent(r) in fs.dirs ==>
              Encodes(cells[Name(Dirs(Parent(r))) := Removed(cells[Name(Dirs(Parent(r)))], PathOf(r), ';')],
                      fs.(dirs := fs.dirs - DirsUnder(fs.dirs, r)))
    ensures Parent(r) !in fs.dirs ==> DirsUnder(fs.dirs, r) == {} && Encodes(cells, fs)
  {
    hide Look; hide Tree; hide Name; hide Removed; hide FileAt; hide OtherFiles; hide DirsUnder; hide FilesUnder;
    hide Proper;
    var up := Parent(r);
    ParentProper(r);
    ListThere(base, fs.dirs, fs.files.Keys, up);
    DroppedSameFiles(base, cells, DirsUnder(fs.dirs, r) + {r});
    SameFilesKeep(base, cells, fs.files, {});
    ParentNotUnder(fs.dirs, r);
    assert Look(cells, Dirs(up)) == Look(base, Dirs(up)) by { assert ProperCell(Dirs(up)); }
    LookNone(cells, Dirs(up));
    if up in fs.dirs {
      LookSome(cells, Dirs(up));
      var list := cells[Name(Dirs(up))];
      PruneTree(base, cells, fs.dirs, fs.files.Keys, r, list);
      PutListCell(cells, Dirs(up), Removed(list, PathOf(r), ';'));
      SameFilesKeep(cells, cells[Name(Dirs(up)) := Removed(list, PathOf(r), ';')], fs.files, {});
    } else {
      OrphanNothing(base, fs, r);
      DropNothing(base, cells, fs.dirs, fs.files.Keys, DirsUnder(fs.dirs, r) + {r});
    }
  }

  lemma ParentNotUnder(dirs: set<Path>, r: Path)
    requires r != []
    ensures Parent(r) !in DirsUnder(dirs, r) + {r}
  {
    assert |Parent(r)| < |r|;
  }

  lemma OrphanNothing(base: Cells, fs: FileSystem, r: Path)
    requires Encodes(base, fs) && Proper(r) && r != [] && Parent(r) !in fs.dirs
    ensures r !in fs.dirs && DirsUnder(fs.dirs, r) == {} && FilesUnder(fs.files.Keys, r) == {}
  {
    NoDirNoFiles(fs.dirs, fs.files.Keys, r);
  }

  lemma DropNothing(base: Cells, cells: Cells, dirs: set<Path>, files: set<Path>, ds: set<Path>)
    requires Tree(base, dirs, files) && ListsDropped(base, cells, ds) && ds !! dirs
    ensures Tree(cells, dirs, files)
  {
    hide Look; hide Listed; hide WellFormed; hide Children; hide Proper;
    forall d | Proper(d) ensures TreeAt(cells, dirs, files, d) {
      assert TreeAt(base, dirs, files, d);
      assert ProperCell(Files(d)) && ProperCell(Dirs(d));
    }
  }

  /** Deleting the root leaves a row without columns of the tree. */
  lemma PruneRoot(base: Cells, cells: Cells, fs: FileSystem)
    requires Encodes(base, fs) && FilesUnder(fs.files.Keys, []) == {} && ListsDropped(base, cells, DirsUnder(fs.dirs, []) + {[]})
    ensures NoFileColumns(cells)
  {
    hide Look; hide Lists; hide Proper;
    AllUnderRoot(fs);
    forall c | ProperCell(c) ensures Look(cells, c) == None {
      if FileCell(c) {
        assert FileAt(base, c.path, None);
      } else {
        assert TreeAt(base, fs.dirs, fs.files.Keys, c.path);
        assert [] <= c.path;
      }
    }
  }

  lemma AllUnderRoot(fs: FileSystem)
    requires WellFormed(fs.dirs, fs.files.Keys)
    ensures FilesUnder(fs.files.Keys, []) == fs.files.Keys
  {
  }

  // ---- The walk's lists -----------------------------------------------------------------------------

  /** What the variables of `get_all_files_json` name while it walks. */
  ghost predicate Found(fs: FileSystem, r: Path, visited: set<Path>, pending: set<Path>,
                        stack: seq<string>, dirPaths: seq<string>, filePaths: seq<string>) {
    && Walking(fs.dirs, r, visited, pending)
    && Named(stack, pending)
    && Named(dirPaths, visited + pending)
    && Named(filePaths, FilesIn(fs.files.Keys, visited))
  }

  lemma BeginFound(fs: FileSystem, r: Path)
    requires Proper(r) && r in fs.dirs
    ensures Found(fs, r, {}, {r}, [PathOf(r)], [PathOf(r)], [])
  {
    hide PathOf;
    BeginWalk(fs.dirs, r);
    NamedOne(r);
    assert {} + {r} == {r};
  }

  lemma ListsHere(cells: Cells, fs: FileSystem, d: Path)
    requires Encodes(cells, fs) && d in fs.dirs
    ensures PathOf(d) + ",files" in cells && PathOf(d) + ",dirs" in cells
    ensures Lists(cells[PathOf(d) + ",files"], Children(fs.files.Keys, d))
    ensures Lists(cells[PathOf(d) + ",dirs"], Children(fs.dirs, d))
  {
    hide Lists; hide PathOf; hide OtherFiles;
    assert TreeAt(cells, fs.dirs, fs.files.Keys, d);
    assert Name(Files(d)) == PathOf(d) + ",files" && Name(Dirs(d)) == PathOf(d) + ",dirs";
  }

  lemma AllProper(fs: FileSystem)
    requires WellFormed(fs.dirs, fs.files.Keys)
    ensures forall p :: p in fs.dirs || p in fs.files.Keys ==> Proper(p)
  {
  }

  /** One turn of the loop. */
  lemma StepFound(cells: Cells, fs: FileSystem, r: Path, visited: set<Path>, pending: set<Path>,
                  stack: seq<string>, dirPaths: seq<string>, filePaths: seq<string>)
    returns (d: Path)
    requires Encodes(cells, fs) && Found(fs, r, visited, pending, stack, dirPaths, filePaths) && stack != []
    ensures d in fs.dirs && d !in visited && PathOf(d) == stack[|stack| - 1]
    ensures PathOf(d) + ",files" in cells && PathOf(d) + ",dirs" in cells
    ensures Found(fs, r, visited + {d}, pending - {d} + Children(fs.dirs, d),
                  stack[..|stack| - 1] + Tokens(cells[PathOf(d) + ",dirs"], ';'),
                  dirPaths + Tokens(cells[PathOf(d) + ",dirs"], ';'),
                  filePaths + Tokens(cells[PathOf(d) + ",files"], ';'))
  {
    hide Named; hide Tokens; hide PathOf; hide OtherFiles; hide Proper; hide WellFormed; hide TreeAt;
    AllProper(fs);
    NamedInit(stack, pending);
    d := Tokens(stack[|stack| - 1], '/');
    ListsHere(cells, fs, d);
    StepWalk(fs.dirs, r, visited, pending, d);
    StepFiles(fs.files.Keys, visited, d);
    NamedConcat(stack[..|stack| - 1], pending - {d}, Tokens(cells[PathOf(d) + ",dirs"], ';'), Children(fs.dirs, d));
    NamedConcat(dirPaths, visited + pending, Tokens(cells[PathOf(d) + ",dirs"], ';'), Children(fs.dirs, d));
    NamedConcat(filePaths, FilesIn(fs.files.Keys, visited),
                Tokens(cells[PathOf(d) + ",files"], ';'), Children(fs.files.Keys, d));
    assert visited + {d} + (pending - {d} + Children(fs.dirs, d)) == visited + pending + Children(fs.dirs, d);
  }

  /** When the stack is empty the lists are complete. */
  lemma EndFound(fs: FileSystem, r: Path, visited: set<Path>, pending: set<Path>,
                 dirPaths: seq<string>, filePaths: seq<string>)
    requires WellFormed(fs.dirs, fs.files.Keys) && Found(fs, r, visited, pending, [], dirPaths, filePaths)
    ensures Named(dirPaths, DirsUnder(fs.dirs, r)) && Named(filePaths, FilesUnder(fs.files.Keys, r))
  {
    hide PathOf; hide Tokens;
    assert pending == {} by {
      if p :| p in pending { assert PathOf(p) in []; }
    }
    assert visited + {} == visited;
    EndWalk(fs.dirs, fs.files.Keys, r, visited);
  }

  function PathsOf(l: seq<string>): set<Path> {
    set t | t in l :: Tokens(t, '/')
  }

  lemma PathsOfNext(l: seq<string>, i: nat)
    requires i < |l|
    ensures PathsOf(l[..i + 1]) == PathsOf(l[..i]) + {Tokens(l[i], '/')}
  {
    hide Tokens;
    assert l[..i + 1] == l[..i] + [l[i]];
  }

  lemma PathsOfNamed(l: seq<string>, ps: set<Path>)
    requires Named(l, ps) && forall p :: p in ps ==> Proper(p)
    ensures PathsOf(l) == ps
  {
    hide Tokens; hide PathOf;
    forall p | p in ps ensures p in PathsOf(l) {
      PathTokens(p);
      assert PathOf(p) in l;
    }
    forall t | t in l ensures Tokens(t, '/') in ps {
      var i :| 0 <= i < |l| && l[i] == t;
      assert Entry(l[i], ps);
    }
  }
}
