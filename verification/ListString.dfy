/** Lists kept as strings with a delimiter (frontend/common_mail_files.cc:82-159). */
module ListString {

  /** All pieces between delimiters, empty ones included. */
  function Split(s: string, d: char): (r: seq<string>)
    ensures |r| > 0
    decreases |s|
  {
    if s == "" then [""]
    else
      var rest := Split(s[1..], d);
      if s[0] == d then [""] + rest else [[s[0]] + rest[0]] + rest[1..]
  }

  function NonEmpty(ts: seq<string>): seq<string>
    decreases |ts|
  {
    if ts == [] then [] else (if ts[0] == "" then [] else [ts[0]]) + NonEmpty(ts[1..])
  }

  /** The list that a string stands for. */
  function Tokens(s: string, d: char): seq<string> {
    NonEmpty(Split(s, d))
  }

  /** The list without every occurrence of `x`. */
  function Without(ts: seq<string>, x: string): seq<string>
    decreases |ts|
  {
    if ts == [] then [] else (if ts[0] == x then [] else [ts[0]]) + Without(ts[1..], x)
  }

  /** The pieces, each followed by the delimiter. */
  function Terminated(ts: seq<string>, d: char): string
    decreases |ts|
  {
    if ts == [] then "" else ts[0] + [d] + Terminated(ts[1..], d)
  }

  // ---- Splitting ------------------------------------------------------------------------------------

  lemma {:induction false} SplitNone(s: string, d: char)
    requires d !in s
    ensures Split(s, d) == [s]
    decreases |s|
  {
    if s == "" {
    } else {
      SplitNone(s[1..], d);
      assert s == [s[0]] + s[1..];
    }
  }

  /** Splitting distributes over a delimiter. */
  lemma {:induction false} SplitConcat(s: string, t: string, d: char)
    ensures Split(s + [d] + t, d) == Split(s, d) + Split(t, d)
    decreases |s|
  {
    if s == "" {
      assert "" + [d] + t == [d] + t;
      assert ([d] + t)[1..] == t;
    } else {
      assert (s + [d] + t)[1..] == s[1..] + [d] + t;
      SplitConcat(s[1..], t, d);
      assert (s + [d] + t)[0] == s[0];
    }
  }

  lemma {:induction false} SplitPieces(s: string, d: char)
    ensures forall t :: t in Split(s, d) ==> d !in t
    decreases |s|
  {
    if s == "" {
    } else {
      SplitPieces(s[1..], d);
    }
  }

  lemma {:induction false} NonEmptyConcat(ts: seq<string>, us: seq<string>)
    ensures NonEmpty(ts + us) == NonEmpty(ts) + NonEmpty(us)
    decreases |ts|
  {
    if ts == [] {
      assert ts + us == us;
    } else {
      assert (ts + us)[1..] == ts[1..] + us;
      NonEmptyConcat(ts[1..], us);
    }
  }

  lemma {:induction false} WithoutConcat(ts: seq<string>, us: seq<string>, x: string)
    ensures Without(ts + us, x) == Without(ts, x) + Without(us, x)
    decreases |ts|
  {
    if ts == [] {
      assert ts + us == us;
    } else {
      assert (ts + us)[1..] == ts[1..] + us;
      WithoutConcat(ts[1..], us, x);
    }
  }

  lemma TokensConcat(s: string, t: string, d: char)
    ensures Tokens(s + [d] + t, d) == Tokens(s, d) + Tokens(t, d)
  {
    SplitConcat(s, t, d);
    NonEmptyConcat(Split(s, d), Split(t, d));
  }

  lemma TokensOne(x: string, d: char)
    requires d !in x
    ensures Tokens(x, d) == if x == "" then [] else [x]
  {
    SplitNone(x, d);
    assert NonEmpty([x]) == (if x == "" then [] else [x]) + NonEmpty([x][1..]);
  }

  lemma {:induction false} NonEmptyPieces(ts: seq<string>)
    ensures forall t :: t in NonEmpty(ts) <==> t in ts && t != ""
    decreases |ts|
  {
    if ts == [] {
    } else {
      NonEmptyPieces(ts[1..]);
    }
  }

  lemma TokensAreProper(s: string, d: char)
    ensures forall t :: t in Tokens(s, d) ==> t != "" && d !in t
  {
    SplitPieces(s, d);
    NonEmptyPieces(Split(s, d));
  }

  // ---- append_to_metadata ---------------------------------------------------------------------------

  /** `metadata + ";" + x` */
  function Appended(m: string, x: string, d: char): string {
    m + [d] + x
  }

  /** Appending adds one element, and it is `x`, exactly when `x` is a proper element: not empty and without the
      delimiter. The pieces left empty by earlier appends do not matter. */
  lemma AppendAddsIff(m: string, x: string, d: char)
    ensures Tokens(Appended(m, x, d), d) == Tokens(m, d) + [x] <==> x != "" && d !in x
  {
    TokensConcat(m, x, d);
    if d !in x {
      TokensOne(x, d);
    } else {
      TokensAreProper(Appended(m, x, d), d);
      assert x in Tokens(m, d) + [x];
    }
  }

  // ---- delete_hash_from_metadata_string -------------------------------------------------------------

  function Removed(m: string, x: string, d: char): string {
    Terminated(Without(Split(m, d), x), d)
  }

  lemma {:induction false} SplitTerminated(ts: seq<string>, d: char)
    requires forall t :: t in ts ==> d !in t
    ensures Split(Terminated(ts, d), d) == ts + [""]
    decreases |ts|
  {
    if ts == [] {
    } else {
      SplitTerminated(ts[1..], d);
      SplitConcat(ts[0], Terminated(ts[1..], d), d);
      SplitNone(ts[0], d);
      assert ts == [ts[0]] + ts[1..];
    }
  }

  lemma {:induction false} WithoutPieces(ts: seq<string>, x: string)
    ensures forall t :: t in Without(ts, x) <==> t in ts && t != x
    ensures NonEmpty(Without(ts, x)) == Without(NonEmpty(ts), x)
    decreases |ts|
  {
    if ts == [] {
    } else {
      WithoutPieces(ts[1..], x);
      NonEmptyConcat(if ts[0] == x then [] else [ts[0]], Without(ts[1..], x));
      WithoutConcat(if ts[0] == "" then [] else [ts[0]], NonEmpty(ts[1..]), x);
    }
  }

  /** Deleting from the string is dropping every occurrence from the list, for every `x`. */
  lemma RemoveDrops(m: string, x: string, d: char)
    ensures Tokens(Removed(m, x, d), d) == Without(Tokens(m, d), x)
  {
    var kept := Without(Split(m, d), x);
    SplitPieces(m, d);
    WithoutPieces(Split(m, d), x);
    SplitTerminated(kept, d);
    NonEmptyConcat(kept, [""]);
    assert NonEmpty([""]) == [];
  }

  // ---- The loops ------------------------------------------------------------------------------------

  method Find(s: string, d: char) returns (found: bool, pos: nat)
    ensures found <==> d in s
    ensures found ==> pos < |s| && s[pos] == d && d !in s[..pos]
  {
    pos := 0;
    while pos < |s|
      invariant pos <= |s| && d !in s[..pos]
    {
      if s[pos] == d {
        return true, pos;
      }
      pos := pos + 1;
    }
    assert s[..pos] == s;
    found := false;
  }

  /** `separate_string` */
  method SeparateString(s: string, delimiter: char) returns (ret: seq<string>)
    ensures ret == Tokens(s, delimiter)
  {
    ret := [];
    var rest := s;
    var found, pos := Find(rest, delimiter);
    while found
      invariant ret + Tokens(rest, delimiter) == Tokens(s, delimiter)
      invariant found <==> delimiter in rest
      invariant found ==> 0 <= pos < |rest| && rest[pos] == delimiter && delimiter !in rest[..pos]
      decreases |rest|
    {
      var token := rest[..pos];
      assert rest == token + [delimiter] + rest[pos + 1..];
      TokensConcat(token, rest[pos + 1..], delimiter);
      TokensOne(token, delimiter);
      if |token| > 0 {
        ret := ret + [token];
      }
      rest := rest[pos + 1..];
      found, pos := Find(rest, delimiter);
    }
    TokensOne(rest, delimiter);
    if |rest| > 0 {
      ret := ret + [rest];
    }
  }

  /** The first loop of `delete_hash_from_metadata_string`. */
  method OtherPieces(metadata: string, hash: string) returns (hashes: seq<string>)
    ensures hashes == Without(Split(metadata, ';'), hash)
  {
    hide Split; hide Without;
    hashes := [];
    var rest := metadata;
    var found, position := Find(rest, ';');
    while found
      invariant hashes + Without(Split(rest, ';'), hash) == Without(Split(metadata, ';'), hash)
      invariant found <==> ';' in rest
      invariant found ==> 0 <= position < |rest| && rest[position] == ';' && ';' !in rest[..position]
      decreases |rest|
    {
      var substring := rest[..position];
      FirstPiece(rest, position, hash);
      if substring != hash {
        hashes := hashes + [substring];
      }
      rest := rest[position + 1..];
      found, position := Find(rest, ';');
    }
    SplitNone(rest, ';');
    WithoutOne(rest, hash);
    if rest != hash {
      hashes := hashes + [rest];
    }
  }

  lemma FirstPiece(s: string, pos: nat, hash: string)
    requires pos < |s| && s[pos] == ';' && ';' !in s[..pos]
    ensures Without(Split(s, ';'), hash)
            == (if s[..pos] == hash then [] else [s[..pos]]) + Without(Split(s[pos + 1..], ';'), hash)
  {
    assert s == s[..pos] + [';'] + s[pos + 1..];
    SplitConcat(s[..pos], s[pos + 1..], ';');
    SplitNone(s[..pos], ';');
    WithoutConcat([s[..pos]], Split(s[pos + 1..], ';'), hash);
    WithoutOne(s[..pos], hash);
  }

  lemma WithoutOne(t: string, x: string)
    ensures Without([t], x) == if t == x then [] else [t]
  {
    assert [t][1..] == [];
  }

  /** `delete_hash_from_metadata_string` */
  method DeleteHash(metadata: string, hash: string) returns (newMetadata: string)
    ensures newMetadata == Removed(metadata, hash, ';')
  {
    var hashes := OtherPieces(metadata, hash);
    newMetadata := "";
    assert hashes[0..] == hashes;
    for i := 0 to |hashes|
      invariant newMetadata + Terminated(hashes[i..], ';') == Terminated(hashes, ';')
    {
      assert hashes[i..][1..] == hashes[i + 1..];
      newMetadata := newMetadata + hashes[i] + [';'];
    }
  }
}
