/** The columns of a user's row that are none of the file tree's (frontend/users.cc keeps the password among them): what
    an operation on files may do to them. */
module RowFrame {
  import opened Options
  import opened Paths
  import opened FileColumns
  import opened FileTree

  const SHARED_FILES := "$$$shared_files"

  function Column(cells: Cells, name: string): Option<string> {
    if name in cells then Some(cells[name]) else None
  }

  /** The column of some cell of the tree: a directory's list of files or of directories, a file's list of chunks or a
      chunk. */
  ghost predicate TreeColumn(name: string) {
    exists c :: ProperCell(c) && Name(c) == name
  }

  /** No column outside the tree has changed but those in `touched`. */
  ghost predicate OthersKept(cells: Cells, cells': Cells, touched: set<string>) {
    forall x :: !TreeColumn(x) && x !in touched ==> Column(cells', x) == Column(cells, x)
  }

  /** Nor but the list of shared files, which is made empty where the row had no root directory. */
  ghost predicate OthersKeptOrMade(cells: Cells, cells': Cells, touched: set<string>) {
    forall x :: !TreeColumn(x) && x !in touched ==>
      Column(cells', x) == if x == SHARED_FILES && "/,files" !in cells then Some(";") else Column(cells, x)
  }

  lemma CellColumn(c: Cell)
    requires ProperCell(c)
    ensures TreeColumn(Name(c))
  {
  }

  /** A name without a leading slash is none of the tree's. */
  lemma UnslashedIsOther(name: string)
    requires name == "" || name[0] != '/'
    ensures !TreeColumn(name)
  {
    forall c | ProperCell(c) ensures Name(c) != name {
      NameChars(c);
    }
  }

  lemma KeptTrans(a: Cells, b: Cells, c: Cells, touched: set<string>)
    requires OthersKept(a, b, touched) && OthersKept(b, c, touched)
    ensures OthersKept(a, c, touched)
  {
    hide TreeColumn; hide Column;
  }

  lemma KeptAfterMade(a: Cells, b: Cells, c: Cells, touched: set<string>)
    requires OthersKeptOrMade(a, b, touched) && OthersKept(b, c, touched)
    ensures OthersKeptOrMade(a, c, touched)
  {
    hide TreeColumn; hide Column;
  }

  lemma MadeAfterMade(a: Cells, b: Cells, c: Cells, touched: set<string>)
    requires OthersKeptOrMade(a, b, touched) && OthersKeptOrMade(b, c, touched) && "/,files" in b
    ensures OthersKeptOrMade(a, c, touched)
  {
    hide TreeColumn; hide Column;
  }

  /** A row that had the root already: nothing is made. */
  lemma MadeAfterKept(a: Cells, b: Cells, c: Cells, touched: set<string>)
    requires "/,files" in a && "/,files" in b && OthersKept(a, b, touched) && OthersKeptOrMade(b, c, touched)
    ensures OthersKeptOrMade(a, c, touched)
  {
    hide TreeColumn; hide Column;
  }

  lemma MadeMore(a: Cells, b: Cells, touched: set<string>, more: set<string>)
    requires OthersKeptOrMade(a, b, touched) && touched <= more
    ensures OthersKeptOrMade(a, b, more)
  {
    hide TreeColumn; hide Column;
  }

  lemma KeptWider(a: Cells, b: Cells, touched: set<string>)
    ensures OthersKept(a, b, {}) ==> OthersKept(a, b, touched)
    ensures OthersKeptOrMade(a, b, {}) ==> OthersKeptOrMade(a, b, touched)
  {
    hide TreeColumn; hide Column;
  }

  lemma OneColumn(a: Cells, b: Cells, name: string)
    requires TreeColumn(name) && a - {name} == b - {name}
    ensures OthersKept(a, b, {})
  {
    hide TreeColumn;
    forall x | x != name ensures Column(b, x) == Column(a, x) {
      assert Column(a - {name}, x) == Column(a, x) && Column(b - {name}, x) == Column(b, x);
    }
  }

  lemma NothingTouched(cells: Cells)
    ensures OthersKept(cells, cells, {})
  {
  }

  /** A column that is touched although it is the tree's makes no difference. */
  lemma TouchedTree(a: Cells, b: Cells, touched: set<string>, columns: set<string>)
    requires forall x :: x in columns ==> TreeColumn(x)
    ensures OthersKept(a, b, touched + columns) <==> OthersKept(a, b, touched)
  {
    hide Column;
    forall x | !TreeColumn(x) ensures x in touched + columns <==> x in touched {
    }
  }

  lemma RootCells()
    ensures Name(Files([])) == "/,files" && Name(Dirs([])) == "/,dirs"
    ensures ProperCell(Files([])) && ProperCell(Dirs([]))
  {
    ProperRoot();
    PathTokens([]);
  }

  /** An encoded row has a root directory. */
  lemma EncodedHasRoot(cells: Cells, fs: FileSystem)
    requires Encodes(cells, fs)
    ensures "/,files" in cells
  {
    hide OtherFiles; hide Tree; hide Look;
    RootCells();
    RootThere(cells, fs);
  }

  lemma RootThere(cells: Cells, fs: FileSystem)
    requires Encodes(cells, fs)
    ensures Name(Files([])) in cells
  {
    hide Lists; hide Name;
    ProperRoot();
    assert TreeAt(cells, fs.dirs, fs.files.Keys, []);
  }

  /** A file's list names columns of the tree. */
  lemma ChunksAreTree(cells: Cells, fs: FileSystem, p: Path)
    requires Encodes(cells, fs) && Proper(p) && p != []
    ensures PathOf(p) in cells ==>
              forall x :: x in ListString.Tokens(cells[PathOf(p)], ';') ==> TreeColumn(x)
    ensures TreeColumn(PathOf(p)) && TreeColumn(Up(PathOf(p)) + ",files")
  {
    hide Tree; hide OtherFiles; hide Erasing;
    BeginErasing(cells, fs, p);
    UpIsParent(p);
    ParentProper(p);
    CellColumn(Meta(p));
    CellColumn(Files(Parent(p)));
    if PathOf(p) in cells { ListedAreTree(cells, fs, p); }
  }

  lemma ListedAreTree(cells: Cells, fs: FileSystem, p: Path)
    requires Erasing(cells, fs, p, 0) && Proper(p) && p != [] && PathOf(p) in cells
    ensures forall x :: x in ListString.Tokens(cells[PathOf(p)], ';') ==> TreeColumn(x)
  {
    hide Tree; hide OtherFiles; hide ChunksAt; hide TreeColumn; hide ListString.Tokens;
    var n := ChunkCount(|fs.files[p]|);
    var names := ListString.Tokens(cells[PathOf(p)], ';');
    assert Look(cells, Meta(p)) == Some(cells[PathOf(p)]);
    assert names == ChunkNames(p, n);
    forall i | 0 <= i < |names| ensures TreeColumn(names[i]) {
      assert names[i] == Name(Chunk(p, i));
      CellColumn(Chunk(p, i));
    }
  }
}
