/** How the file tree of a user is spread over the columns of the user's row (frontend/files.cc): per directory a list
    of its files and one of its directories, per file a list of its chunks and the chunks. */
module FileColumns {
  import opened Options
  import opened ListString
  import opened Decimal
  import opened Paths

  type Cells = map<string, string>

  datatype Cell = Files(path: Path) | Dirs(path: Path) | Meta(path: Path) | Chunk(path: Path, index: nat)

  predicate ProperCell(c: Cell) {
    Proper(c.path) && (c.Meta? || c.Chunk? ==> c.path != [])
  }

  /** The column's name. */
  function Name(c: Cell): string {
    match c
    case Files(p) => PathOf(p) + ",files"
    case Dirs(p) => PathOf(p) + ",dirs"
    case Meta(p) => PathOf(p)
    case Chunk(p, i) => PathOf(p) + "," + ToString(i)
  }

  function Suffix(c: Cell): string
    requires !c.Meta?
  {
    match c
    case Files(_) => "files"
    case Dirs(_) => "dirs"
    case Chunk(_, i) => ToString(i)
  }

  lemma NameSplits(c: Cell)
    requires ProperCell(c)
    ensures Split(Name(c), ',') == if c.Meta? then [PathOf(c.path)] else [PathOf(c.path), Suffix(c)]
  {
    PathChars(c.path);
    SplitNone(PathOf(c.path), ',');
    if !c.Meta? {
      assert Name(c) == PathOf(c.path) + [','] + Suffix(c);
      SplitConcat(PathOf(c.path), Suffix(c), ',');
      SplitNone(Suffix(c), ',');
    }
  }

  /** Different cells have different columns. */
  lemma NameInjective(c: Cell, c': Cell)
    requires ProperCell(c) && ProperCell(c') && Name(c) == Name(c')
    ensures c == c'
  {
    NameSplits(c);
    NameSplits(c');
    PathOfInjective(c.path, c'.path);
    if !c.Meta? {
      assert Suffix(c) == Suffix(c');
      SuffixKind(c);
      SuffixKind(c');
      if c.Chunk? {
        ToStringInjective(c.index, c'.index);
      }
    }
  }

  /** A number is not a word. */
  lemma SuffixKind(c: Cell)
    requires !c.Meta?
    ensures c.Chunk? <==> IsDigit(Suffix(c)[0])
    ensures !c.Chunk? ==> (c.Files? <==> Suffix(c)[0] == 'f')
  {
  }

  function Look(cells: Cells, c: Cell): Option<string> {
    if Name(c) in cells then Some(cells[Name(c)]) else None
  }

  lemma LookPut(cells: Cells, c: Cell, v: string)
    requires ProperCell(c)
    ensures forall d :: ProperCell(d) ==> Look(cells[Name(c) := v], d) == if d == c then Some(v) else Look(cells, d)
  {
    hide Name;
    forall d | ProperCell(d) ensures Look(cells[Name(c) := v], d) == if d == c then Some(v) else Look(cells, d) {
      if Name(d) == Name(c) { NameInjective(c, d); }
    }
  }

  lemma LookDelete(cells: Cells, c: Cell)
    requires ProperCell(c)
    ensures forall d :: ProperCell(d) ==> Look(cells - {Name(c)}, d) == if d == c then None else Look(cells, d)
  {
    hide Name;
    forall d | ProperCell(d) ensures Look(cells - {Name(c)}, d) == if d == c then None else Look(cells, d) {
      if Name(d) == Name(c) { NameInjective(c, d); }
    }
  }

  // ---- Lists of paths -------------------------------------------------------------------------------

  predicate Entry(t: string, ps: set<Path>) {
    Tokens(t, '/') in ps && PathOf(Tokens(t, '/')) == t
  }

  /** The names are those of the paths in the set, each once. */
  ghost predicate Named(l: seq<string>, ps: set<Path>) {
    && (forall i :: 0 <= i < |l| ==> Entry(l[i], ps))
    && (forall i, j :: 0 <= i < j < |l| ==> l[i] != l[j])
    && (forall p :: p in ps ==> PathOf(p) in l)
  }

  /** The string lists exactly the paths of the set, each once. */
  ghost predicate Lists(s: string, ps: set<Path>) {
    Named(Tokens(s, ';'), ps)
  }

  lemma NamedConcat(l: seq<string>, ps: set<Path>, m: seq<string>, qs: set<Path>)
    requires Named(l, ps) && Named(m, qs) && ps !! qs
    ensures Named(l + m, ps + qs)
  {
    forall i | 0 <= i < |l + m| ensures Entry((l + m)[i], ps + qs) {
      assert if i < |l| then Entry(l[i], ps) else Entry(m[i - |l|], qs);
    }
    forall i, j | 0 <= i < |l| <= j < |l + m| ensures (l + m)[i] != (l + m)[j] {
      assert Entry(l[i], ps) && Entry(m[j - |l|], qs);
    }
  }

  lemma NamedInit(l: seq<string>, ps: set<Path>)
    requires Named(l, ps) && l != [] && forall p :: p in ps ==> Proper(p)
    ensures Entry(l[|l| - 1], ps)
    ensures Named(l[..|l| - 1], ps - {Tokens(l[|l| - 1], '/')})
  {
    var init, p := l[..|l| - 1], Tokens(l[|l| - 1], '/');
    forall i | 0 <= i < |init| ensures Entry(init[i], ps - {p}) {
      assert Entry(l[i], ps);
    }
    forall q | q in ps - {p} ensures PathOf(q) in init {
      PathTokens(q);
      var i :| 0 <= i < |l| && l[i] == PathOf(q);
      assert i != |l| - 1;
      assert init[i] == PathOf(q);
    }
  }

  lemma NamedOne(p: Path)
    requires Proper(p)
    ensures Named([PathOf(p)], {p})
  {
    PathTokens(p);
  }

  lemma NamedProper(l: seq<string>, ps: set<Path>, i: nat)
    requires Named(l, ps) && i < |l| && forall p :: p in ps ==> Proper(p)
    ensures Tokens(l[i], '/') in ps && PathOf(Tokens(l[i], '/')) == l[i] && l[i] != "" && ';' !in l[i]
  {
    assert Entry(l[i], ps);
    PathChars(Tokens(l[i], '/'));
  }

  /** Written out with a delimiter after each, the names are a list. */
  lemma NamedWritten(l: seq<string>, ps: set<Path>)
    requires Named(l, ps) && forall p :: p in ps ==> Proper(p)
    ensures Tokens(";" + Terminated(l, ';'), ';') == l
  {
    forall i | 0 <= i < |l| ensures l[i] != "" && ';' !in l[i] {
      NamedProper(l, ps, i);
    }
    SplitTerminated(l, ';');
    SplitConcat("", Terminated(l, ';'), ';');
    assert "" + [';'] + Terminated(l, ';') == ";" + Terminated(l, ';');
    NonEmptyConcat([""], l + [""]);
    NonEmptyConcat(l, [""]);
    NonEmptyAll(l);
    assert NonEmpty([""]) == [];
  }

  lemma ListsNothing()
    ensures Lists(";", {})
  {
    assert ";" == Terminated([""], ';') by {
      assert [""][1..] == [];
      assert Terminated([], ';') == "";
    }
    SplitTerminated([""], ';');
    NonEmptyConcat([""], [""]);
    assert NonEmpty([""]) == [];
  }

  lemma ListsAppend(s: string, ps: set<Path>, p: Path)
    requires Lists(s, ps) && Proper(p) && p !in ps
    ensures Lists(Appended(s, PathOf(p), ';'), ps + {p})
  {
    PathChars(p);
    PathTokens(p);
    AppendAddsIff(s, PathOf(p), ';');
    var l := Tokens(s, ';');
    assert forall i :: 0 <= i < |l| ==> Entry(l[i], ps);
    assert Entry(PathOf(p), ps + {p});
  }

  lemma {:induction false} WithoutMembers(l: seq<string>, x: string)
    ensures forall t :: t in Without(l, x) <==> t in l && t != x
    ensures (forall i, j :: 0 <= i < j < |l| ==> l[i] != l[j]) ==>
              forall i, j :: 0 <= i < j < |Without(l, x)| ==> Without(l, x)[i] != Without(l, x)[j]
    decreases |l|
  {
    if l == [] {
    } else {
      WithoutMembers(l[1..], x);
      if forall i, j :: 0 <= i < j < |l| ==> l[i] != l[j] {
        assert forall i :: 0 <= i < |l[1..]| ==> l[1..][i] == l[i + 1];
        assert l[0] !in l[1..];
        assert forall i :: 0 <= i < |Without(l[1..], x)| ==> Without(l[1..], x)[i] in Without(l[1..], x);
      }
    }
  }

  lemma ListsRemove(s: string, ps: set<Path>, p: Path)
    requires Lists(s, ps) && Proper(p) && forall q :: q in ps ==> Proper(q)
    ensures Lists(Removed(s, PathOf(p), ';'), ps - {p})
  {
    RemoveDrops(s, PathOf(p), ';');
    var l := Tokens(s, ';');
    var l' := Without(l, PathOf(p));
    WithoutMembers(l, PathOf(p));
    PathTokens(p);
    forall i | 0 <= i < |l'| ensures Entry(l'[i], ps - {p}) {
      assert l'[i] in l';
      var j :| 0 <= j < |l| && l[j] == l'[i];
      assert Entry(l[j], ps);
    }
    forall q | q in ps - {p} ensures PathOf(q) in l' {
      if PathOf(q) == PathOf(p) { PathOfInjective(p, q); }
    }
  }

  // ---- The tree -------------------------------------------------------------------------------------

  function Children(files: set<Path>, d: Path): set<Path> {
    set f | f in files && f != [] && Parent(f) == d
  }

  /** Every directory and file is proper and lies in a directory; the root is there. */
  ghost predicate WellFormed(dirs: set<Path>, files: set<Path>) {
    && [] in dirs
    && (forall d :: d in dirs ==> Proper(d) && (d != [] ==> Parent(d) in dirs))
    && (forall f :: f in files ==> Proper(f) && f != [] && Parent(f) in dirs)
  }

  ghost predicate Listed(v: Option<string>, ps: set<Path>) {
    v.Some? && Lists(v.value, ps)
  }

  ghost predicate TreeAt(cells: Cells, dirs: set<Path>, files: set<Path>, d: Path) {
    if d in dirs then
      Listed(Look(cells, Files(d)), Children(files, d)) && Listed(Look(cells, Dirs(d)), Children(dirs, d))
    else Look(cells, Files(d)) == None && Look(cells, Dirs(d)) == None
  }

  /** Every directory has its two lists, and they name exactly its children: every file and every directory but the
      root is listed exactly once, by its parent. */
  ghost predicate Tree(cells: Cells, dirs: set<Path>, files: set<Path>) {
    WellFormed(dirs, files) && forall d :: Proper(d) ==> TreeAt(cells, dirs, files, d)
  }

  ghost predicate SameTree(cells: Cells, cells': Cells) {
    forall d :: Proper(d) ==>
      Look(cells', Files(d)) == Look(cells, Files(d)) && Look(cells', Dirs(d)) == Look(cells, Dirs(d))
  }

  lemma SameTreeKeeps(cells: Cells, cells': Cells, dirs: set<Path>, files: set<Path>)
    requires Tree(cells, dirs, files) && SameTree(cells, cells')
    ensures Tree(cells', dirs, files)
  {
    hide Look; hide Listed; hide WellFormed; hide Children;
    forall d | Proper(d) ensures TreeAt(cells', dirs, files, d) {
      assert TreeAt(cells, dirs, files, d);
    }
  }

  /** The columns that `append_to_metadata` leaves: a missing list stays missing. */
  function WithEntry(cells: Cells, list: string, x: string): Cells {
    if list in cells then cells[list := Appended(cells[list], x, ';')] else cells
  }

  /** The columns that `create_dir` leaves. */
  function WithDir(cells: Cells, d: Path): Cells
    requires d != []
  {
    WithEntry(cells[Name(Files(d)) := ";"][Name(Dirs(d)) := ";"], Name(Dirs(Parent(d))), PathOf(d))
  }

  lemma WithDirLooks(cells: Cells, d: Path)
    requires Proper(d) && d != [] && Look(cells, Dirs(Parent(d))).Some?
    ensures forall c :: ProperCell(c) ==>
              Look(WithDir(cells, d), c) ==
                if c == Files(d) || c == Dirs(d) then Some(";")
                else if c == Dirs(Parent(d)) then Some(Appended(Look(cells, c).value, PathOf(d), ';'))
                else Look(cells, c)
  {
    hide Name; hide Appended;
    var up := Parent(d);
    assert Proper(up);
    assert d != up by { assert |d| != |up|; }
    LookPut(cells, Files(d), ";");
    var c0 := cells[Name(Files(d)) := ";"];
    LookPut(c0, Dirs(d), ";");
    var c1 := c0[Name(Dirs(d)) := ";"];
    assert Look(c1, Dirs(up)) == Look(cells, Dirs(up));
    LookPut(c1, Dirs(up), Appended(Look(c1, Dirs(up)).value, PathOf(d), ';'));
  }

  /** `create_dir`: the new directory's lists are empty, and its parent lists it. */
  lemma AddDir(cells: Cells, dirs: set<Path>, files: set<Path>, d: Path)
    requires Tree(cells, dirs, files) && Proper(d) && d != [] && d !in dirs && Parent(d) in dirs
    ensures Tree(WithDir(cells, d), dirs + {d}, files)
  {
    hide Look; hide Lists; hide Name; hide Appended; hide WithDir; hide WellFormed; hide Children; hide Proper;
    var up := Parent(d);
    ParentProper(d);
    assert d != up by { assert |d| != |up|; }
    assert TreeAt(cells, dirs, files, up) && TreeAt(cells, dirs, files, d);
    WithDirLooks(cells, d);
    ChildrenOfNew(dirs, files, d);
    ListsAppend(Look(cells, Dirs(up)).value, Children(dirs, up), d);
    ListsNothing();
    forall x | Proper(x) ensures TreeAt(WithDir(cells, d), dirs + {d}, files, x) {
      assert TreeAt(cells, dirs, files, x);
    }
  }

  lemma ParentProper(d: Path)
    requires Proper(d) && d != []
    ensures Proper(Parent(d))
  {
  }

  lemma ChildrenOfNew(dirs: set<Path>, files: set<Path>, d: Path)
    requires WellFormed(dirs, files) && d != [] && d !in dirs && Parent(d) in dirs
    ensures forall x :: x != Parent(d) && x != d ==> Children(dirs + {d}, x) == Children(dirs, x)
    ensures Children(dirs + {d}, Parent(d)) == Children(dirs, Parent(d)) + {d}
    ensures Children(files, d) == {} && Children(dirs + {d}, d) == {} && d !in Children(dirs, Parent(d))
    ensures Proper(d) ==> WellFormed(dirs + {d}, files)
  {
    assert |Parent(d)| != |d|;
  }

  /** Listing a new file in its directory. */
  lemma AddFileEntry(cells: Cells, dirs: set<Path>, files: set<Path>, f: Path)
    requires Tree(cells, dirs, files) && Proper(f) && f != [] && f !in files && Parent(f) in dirs
    ensures Look(cells, Files(Parent(f))).Some?
    ensures Tree(cells[Name(Files(Parent(f))) := Appended(Look(cells, Files(Parent(f))).value, PathOf(f), ';')],
                 dirs, files + {f})
  {
    hide Look; hide Lists; hide Name; hide Appended;
    var up := Parent(f);
    assert Proper(up) && TreeAt(cells, dirs, files, up);
    var v := Look(cells, Files(up)).value;
    LookPut(cells, Files(up), Appended(v, PathOf(f), ';'));
    var c := cells[Name(Files(up)) := Appended(v, PathOf(f), ';')];
    ListsAppend(v, Children(files, up), f);
    assert Children(files + {f}, up) == Children(files, up) + {f};
    forall x | Proper(x) ensures TreeAt(c, dirs, files + {f}, x) {
      assert TreeAt(cells, dirs, files, x);
      if x != up {
        assert Children(files + {f}, x) == Children(files, x);
      }
    }
  }

  /** Taking a file off its directory's list. */
  lemma RemoveFileEntry(cells: Cells, dirs: set<Path>, files: set<Path>, f: Path)
    requires Tree(cells, dirs, files) && f in files
    ensures f != [] && Look(cells, Files(Parent(f))).Some?
    ensures Tree(cells[Name(Files(Parent(f))) := Removed(Look(cells, Files(Parent(f))).value, PathOf(f), ';')],
                 dirs, files - {f})
  {
    hide Look; hide Lists; hide Name; hide Removed;
    var up := Parent(f);
    assert Proper(up) && TreeAt(cells, dirs, files, up);
    var v := Look(cells, Files(up)).value;
    LookPut(cells, Files(up), Removed(v, PathOf(f), ';'));
    var c := cells[Name(Files(up)) := Removed(v, PathOf(f), ';')];
    ListsRemove(v, Children(files, up), f);
    assert Children(files - {f}, up) == Children(files, up) - {f};
    forall x | Proper(x) ensures TreeAt(c, dirs, files - {f}, x) {
      assert TreeAt(cells, dirs, files, x);
      if x != up {
        assert Children(files - {f}, x) == Children(files, x);
      }
    }
  }
}
