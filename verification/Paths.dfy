/** Slash-separated names of files and directories (frontend/files.cc:302-322). */
module Paths {
  import opened ListString

  /** A directory or file, as the names on the way to it from the root. */
  type Path = seq<string>

  /** A name that the encodings of paths, columns and lists leave intact. */
  predicate ProperName(c: string) {
    c != "" && '/' !in c && ',' !in c && ';' !in c
  }

  predicate Proper(p: Path) {
    forall i :: 0 <= i < |p| ==> ProperName(p[i])
  }

  function Join(p: Path): string
    decreases |p|
  {
    if p == [] then "" else "/" + p[0] + Join(p[1..])
  }

  /** The name under which the source knows the path. */
  function PathOf(p: Path): string {
    if p == [] then "/" else Join(p)
  }

  function Parent(p: Path): Path
    requires p != []
  {
    p[..|p| - 1]
  }

  /** Every file name is stored with a leading slash. */
  function WithSlash(s: string): string {
    if s != "" && s[0] == '/' then s else "/" + s
  }

  /** `one_level_up` */
  method OneLevelUp(path: string) returns (up: string)
    ensures up == Up(path)
  {
    var parts := SeparateString(WithSlash(path), '/');
    if |parts| < 2 {
      return "/";
    }
    up := JoinParts(parts[..|parts| - 1]);
  }

  /** The loop that builds a path from its parts, in `one_level_up` and in `build_out_directory_path`. */
  method JoinParts(parts: seq<string>) returns (path: string)
    ensures path == Join(parts)
  {
    path := "";
    assert parts[..0] == [];
    for i := 0 to |parts|
      invariant path == Join(parts[..i])
    {
      JoinSnoc(parts[..i], parts[i]);
      assert parts[..i + 1] == parts[..i] + [parts[i]];
      path := path + "/" + parts[i];
    }
    assert parts[..|parts|] == parts;
  }

  function Up(path: string): string {
    var parts := Tokens(WithSlash(path), '/');
    if |parts| < 2 then "/" else Join(parts[..|parts| - 1])
  }

  lemma {:induction false} JoinSnoc(p: Path, c: string)
    ensures Join(p + [c]) == Join(p) + "/" + c
    decreases |p|
  {
    if p == [] {
      assert [] + [c] == [c] && [c][1..] == [];
    } else {
      assert (p + [c])[1..] == p[1..] + [c];
      JoinSnoc(p[1..], c);
    }
  }

  lemma {:induction false} SplitJoin(x: string, p: Path)
    requires '/' !in x && Proper(p)
    ensures Split(x + Join(p), '/') == [x] + p
    decreases |p|
  {
    if p == [] {
      assert x + "" == x;
      SplitNone(x, '/');
    } else {
      assert ProperName(p[0]);
      SplitJoin(p[0], p[1..]);
      assert x + Join(p) == x + ['/'] + (p[0] + Join(p[1..]));
      SplitConcat(x, p[0] + Join(p[1..]), '/');
      SplitNone(x, '/');
      assert p == [p[0]] + p[1..];
    }
  }

  lemma {:induction false} NonEmptyAll(ts: seq<string>)
    requires forall i :: 0 <= i < |ts| ==> ts[i] != ""
    ensures NonEmpty(ts) == ts
    decreases |ts|
  {
    if ts == [] {
    } else {
      NonEmptyAll(ts[1..]);
    }
  }

  /** Splitting a path at its slashes gives its names back, so different paths have different strings. */
  lemma PathTokens(p: Path)
    requires Proper(p)
    ensures Tokens(PathOf(p), '/') == p && Tokens(Join(p), '/') == p
  {
    SplitJoin("", p);
    assert "" + Join(p) == Join(p);
    assert forall i :: 0 <= i < |p| ==> ProperName(p[i]);
    NonEmptyAll(p);
    NonEmptyConcat([""], p);
    assert NonEmpty([""]) == [];
    if p == [] {
      assert Split("/", '/') == ["", ""] by { SplitConcat("", "", '/'); assert "" + ['/'] + "" == "/"; }
      assert NonEmpty(["", ""]) == NonEmpty([""]) == [];
    }
  }

  lemma PathOfInjective(p: Path, q: Path)
    requires Proper(p) && Proper(q) && PathOf(p) == PathOf(q)
    ensures p == q
  {
    PathTokens(p);
    PathTokens(q);
  }

  lemma {:induction false} JoinChars(p: Path)
    requires Proper(p)
    ensures ',' !in Join(p) && ';' !in Join(p) && (p != [] ==> |Join(p)| > 1 && Join(p)[0] == '/' && Join(p)[1] != '/')
    decreases |p|
  {
    if p == [] {
    } else {
      assert ProperName(p[0]);
      assert forall i :: 0 <= i < |p[1..]| ==> p[1..][i] == p[i + 1];
      JoinChars(p[1..]);
      assert p[0][0] in p[0];
    }
  }

  lemma PathChars(p: Path)
    requires Proper(p)
    ensures ',' !in PathOf(p) && ';' !in PathOf(p) && PathOf(p) != "" && PathOf(p)[0] == '/'
    ensures p != [] ==> WithSlash(PathOf(p)[1..]) == PathOf(p)
  {
    JoinChars(p);
    if p != [] {
      assert "/" + Join(p)[1..] == Join(p);
    }
  }

  /** `one_level_up` gives the parent. */
  lemma UpIsParent(p: Path)
    requires Proper(p) && p != []
    ensures Up(PathOf(p)) == PathOf(Parent(p)) && Proper(Parent(p))
  {
    PathTokens(p);
    PathChars(p);
  }
}
