/** Block files and the extents a value occupies in them (kvstore/kv_cache.cpp, kvstore/kv_store.cpp).

    A file position is a pair (block id, offset). Extents are handed out by a bump pointer, so "before the
    pointer" and "at or after the pointer" are the two facts every separation argument rests on. */
module Extents {
  import opened Numbers

  /** 10 * 1024 * 1024 (kvstore/kv_cache.hh:9) */
  const BLOCK_SIZE: Positive

  /** Where the bump pointer may stand in its block: at the end of it too. */
  type Offset = o: nat | o <= BLOCK_SIZE

  /** Contents of the files `block<id>`; a `char` stands for one byte. */
  type Blocks = map<nat, string>

  datatype BlockPtr = BlockPtr(id: nat, offset: nat, size: nat)

  datatype Placement = Placement(extent: seq<BlockPtr>, id: nat, offset: Offset)

  // ---- Geometry -------------------------------------------------------------------------------------

  predicate InBounds(f: BlockPtr) {
    f.offset + f.size <= BLOCK_SIZE
  }

  /** The fragment ends before the position. */
  predicate Before(f: BlockPtr, id: nat, offset: nat) {
    f.id < id || (f.id == id && f.offset + f.size <= offset)
  }

  /** The fragment starts at the position or later. */
  predicate NotBefore(f: BlockPtr, id: nat, offset: nat) {
    f.id > id || (f.id == id && f.offset >= offset)
  }

  predicate PosLe(id: nat, offset: nat, id': nat, offset': nat) {
    id < id' || (id == id' && offset <= offset')
  }

  /** No byte is in both fragments. */
  predicate Apart(f: BlockPtr, g: BlockPtr) {
    f.id != g.id || f.offset + f.size <= g.offset || g.offset + g.size <= f.offset
  }

  ghost predicate ApartFrom(f: BlockPtr, e: seq<BlockPtr>) {
    forall i :: 0 <= i < |e| ==> Apart(f, e[i])
  }

  ghost predicate MutuallyApart(d: seq<BlockPtr>, e: seq<BlockPtr>) {
    forall i :: 0 <= i < |d| ==> ApartFrom(d[i], e)
  }

  ghost predicate SelfApart(e: seq<BlockPtr>) {
    forall i, j :: 0 <= i < j < |e| ==> Apart(e[i], e[j])
  }

  ghost predicate ExtentBefore(e: seq<BlockPtr>, id: nat, offset: nat) {
    forall i :: 0 <= i < |e| ==> Before(e[i], id, offset)
  }

  ghost predicate ExtentNotBefore(e: seq<BlockPtr>, id: nat, offset: nat) {
    forall i :: 0 <= i < |e| ==> NotBefore(e[i], id, offset)
  }

  ghost predicate ExtentInBounds(e: seq<BlockPtr>) {
    forall i :: 0 <= i < |e| ==> InBounds(e[i])
  }

  function Total(e: seq<BlockPtr>): (n: nat) {
    if e == [] then 0 else e[0].size + Total(e[1..])
  }

  function Linear(id: nat, offset: nat): nat {
    id * BLOCK_SIZE + offset
  }

  /** Each fragment starts, in linear position, where the one before it ends; the first one starts at `start`. */
  ghost predicate Contiguous(e: seq<BlockPtr>, start: nat) {
    e == [] || (Linear(e[0].id, e[0].offset) == start && Contiguous(e[1..], start + e[0].size))
  }

  // ---- Allocation -----------------------------------------------------------------------------------

  /** The extent that `size` bytes get when the bump pointer is at (id, offset), and the pointer afterwards.
      When `offset == BLOCK_SIZE` the first fragment is empty, so `size` alone does not decrease. */
  function Place(id: nat, offset: Offset, size: nat): (p: Placement)
    ensures PosLe(id, offset, p.id, p.offset)
    decreases size, offset
  {
    if size == 0 then Placement([], id, offset)
    else if offset + size > BLOCK_SIZE then
      var rem := BLOCK_SIZE - offset;
      var rest := Place(id + 1, 0, size - rem);
      rest.(extent := [BlockPtr(id, offset, rem)] + rest.extent)
    else Placement([BlockPtr(id, offset, size)], id, offset + size)
  }

  /** What `update_disk_map` promises of a value's fragments: they lie between the old pointer and the new one,
      inside their blocks, are contiguous and apart, hold exactly `size` bytes, and the pointer moves by `size`. */
  lemma {:induction false} PlaceIsExact(id: nat, offset: Offset, size: nat)
    ensures var p := Place(id, offset, size);
            && ExtentInBounds(p.extent) && Total(p.extent) == size
            && ExtentNotBefore(p.extent, id, offset) && ExtentBefore(p.extent, p.id, p.offset)
            && SelfApart(p.extent)
            && Contiguous(p.extent, Linear(id, offset))
            && Linear(p.id, p.offset) == Linear(id, offset) + size
    decreases size, offset
  {
    if size == 0 {
    } else if offset + size > BLOCK_SIZE {
      var rem := BLOCK_SIZE - offset;
      PlaceIsExact(id + 1, 0, size - rem);
      var rest := Place(id + 1, 0, size - rem);
      var p := Place(id, offset, size);
      assert p.extent[1..] == rest.extent;
      assert forall i :: 0 < i < |p.extent| ==> p.extent[i] == rest.extent[i - 1];
    } else {
      assert [BlockPtr(id, offset, size)][1..] == [];
    }
  }

  /** Extents on the two sides of a position do not overlap. */
  lemma BeforeIsApart(d: seq<BlockPtr>, e: seq<BlockPtr>, id: nat, offset: nat)
    requires ExtentBefore(d, id, offset) && ExtentNotBefore(e, id, offset)
    ensures MutuallyApart(d, e) && MutuallyApart(e, d)
  {
  }

  lemma BeforeMonotone(e: seq<BlockPtr>, id: nat, offset: nat, id': nat, offset': nat)
    requires ExtentBefore(e, id, offset) && PosLe(id, offset, id', offset')
    ensures ExtentBefore(e, id', offset')
  {
  }

  // ---- Reading and writing --------------------------------------------------------------------------

  function Zeros(n: nat): (s: string)
    ensures |s| == n
  {
    seq(n, _ => '\0')
  }

  /** Files `block<lo+1>` .. `block<hi>` are removed and re-created, filled with zeros. */
  function Recreated(b: Blocks, lo: nat, hi: nat): Blocks {
    if hi <= lo then b else Recreated(b, lo, hi - 1)[hi := Zeros(BLOCK_SIZE)]
  }

  /** One byte as `fs.read` delivers it into a zero-filled buffer. */
  function ByteAt(b: Blocks, id: nat, o: nat): char {
    if id in b && o < |b[id]| then b[id][o] else '\0'
  }

  function ReadFragment(b: Blocks, f: BlockPtr): (s: string)
    ensures |s| == f.size
  {
    seq(f.size, i requires 0 <= i < f.size => ByteAt(b, f.id, f.offset + i))
  }

  function ReadExtent(b: Blocks, e: seq<BlockPtr>): (s: string)
    ensures |s| == Total(e)
  {
    if e == [] then "" else ReadFragment(b, e[0]) + ReadExtent(b, e[1..])
  }

  /** `fstream` opened for reading and writing: a write to a missing file is lost. Fragments are in bounds,
      so a write never lengthens a file. */
  function WriteFragment(b: Blocks, f: BlockPtr, piece: string): Blocks {
    if f.id in b && f.offset + |piece| <= |b[f.id]| then
      b[f.id := b[f.id][..f.offset] + piece + b[f.id][f.offset + |piece|..]]
    else b
  }

  function WriteExtent(b: Blocks, e: seq<BlockPtr>, value: string): Blocks
    requires Total(e) == |value|
  {
    if e == [] then b
    else WriteExtent(WriteFragment(b, e[0], value[..e[0].size]), e[1..], value[e[0].size..])
  }

  /** Every block up to `id` exists at full size. */
  ghost predicate Allocated(b: Blocks, id: nat) {
    forall i: nat :: i <= id ==> i in b && |b[i]| == BLOCK_SIZE
  }

  /** The same files with the same sizes. */
  ghost predicate SameShape(b: Blocks, b': Blocks) {
    b.Keys == b'.Keys && forall i :: i in b ==> |b[i]| == |b'[i]|
  }

  lemma WriteFragmentEffect(b: Blocks, f: BlockPtr, piece: string)
    requires f.id in b && |b[f.id]| == BLOCK_SIZE && InBounds(f) && |piece| == f.size
    ensures SameShape(b, WriteFragment(b, f, piece))
    ensures forall id: nat, o: nat {:trigger ByteAt(WriteFragment(b, f, piece), id, o)} ::
              ByteAt(WriteFragment(b, f, piece), id, o) ==
              (if id == f.id && f.offset <= o < f.offset + f.size then piece[o - f.offset] else ByteAt(b, id, o))
  {
  }

  /** No write reaches a byte outside the extent. */
  lemma {:induction false} WriteExtentFrame(b: Blocks, e: seq<BlockPtr>, value: string, g: BlockPtr, id: nat)
    requires Total(e) == |value| && ExtentInBounds(e) && Allocated(b, id)
    requires forall i :: 0 <= i < |e| ==> e[i].id <= id
    ensures var b' := WriteExtent(b, e, value);
            SameShape(b, b') && Allocated(b', id) && (ApartFrom(g, e) ==> ReadFragment(b', g) == ReadFragment(b, g))
    decreases |e|
  {
    if e == [] {
    } else {
      var f := e[0];
      var b1 := WriteFragment(b, f, value[..f.size]);
      WriteFragmentEffect(b, f, value[..f.size]);
      assert Allocated(b1, id);
      assert forall i :: 0 <= i < |e[1..]| ==> e[1..][i] == e[i + 1];
      WriteExtentFrame(b1, e[1..], value[f.size..], g, id);
      if ApartFrom(g, e) {
        assert Apart(g, f);
        assert ReadFragment(b1, g) == ReadFragment(b, g);
      }
    }
  }

  lemma {:induction false} ReadExtentSame(b: Blocks, b': Blocks, e: seq<BlockPtr>)
    requires forall i :: 0 <= i < |e| ==> ReadFragment(b, e[i]) == ReadFragment(b', e[i])
    ensures ReadExtent(b, e) == ReadExtent(b', e)
    decreases |e|
  {
    if e == [] {
    } else {
      assert forall i :: 0 <= i < |e[1..]| ==> e[1..][i] == e[i + 1];
      ReadExtentSame(b, b', e[1..]);
    }
  }

  /** Writing a value over one extent leaves what every other extent holds. */
  lemma WriteLeavesOthers(b: Blocks, e: seq<BlockPtr>, value: string, d: seq<BlockPtr>, id: nat)
    requires Total(e) == |value| && ExtentInBounds(e) && Allocated(b, id)
    requires forall i :: 0 <= i < |e| ==> e[i].id <= id
    requires MutuallyApart(d, e)
    ensures ReadExtent(WriteExtent(b, e, value), d) == ReadExtent(b, d)
  {
    var b' := WriteExtent(b, e, value);
    forall i | 0 <= i < |d| ensures ReadFragment(b, d[i]) == ReadFragment(b', d[i]) {
      assert ApartFrom(d[i], e);
      WriteExtentFrame(b, e, value, d[i], id);
    }
    ReadExtentSame(b, b', d);
  }

  /** What is written to an extent is read back from it. */
  lemma {:induction false} ReadAfterWrite(b: Blocks, e: seq<BlockPtr>, value: string, id: nat)
    requires Total(e) == |value| && ExtentInBounds(e) && SelfApart(e) && Allocated(b, id)
    requires forall i :: 0 <= i < |e| ==> e[i].id <= id
    ensures ReadExtent(WriteExtent(b, e, value), e) == value
    decreases |e|
  {
    if e == [] {
    } else {
      var f, rest := e[0], e[1..];
      var piece, tail := value[..f.size], value[f.size..];
      var b1 := WriteFragment(b, f, piece);
      WriteFragmentEffect(b, f, piece);
      assert Allocated(b1, id);
      assert forall i :: 0 <= i < |rest| ==> rest[i] == e[i + 1];
      assert ApartFrom(f, rest);
      ReadAfterWrite(b1, rest, tail, id);
      WriteExtentFrame(b1, rest, tail, f, id);
      assert ReadFragment(b1, f) == piece;
      assert value == piece + tail;
    }
  }

  // ---- Writes to different extents commute ----------------------------------------------------------

  lemma WriteFragmentsCommute(b: Blocks, f: BlockPtr, p: string, g: BlockPtr, q: string)
    requires |p| == f.size && |q| == g.size && Apart(f, g)
    ensures WriteFragment(WriteFragment(b, f, p), g, q) == WriteFragment(WriteFragment(b, g, q), f, p)
  {
    if f.id == g.id && f.id in b && f.offset + f.size <= |b[f.id]| && g.offset + g.size <= |b[f.id]| {
      var s := b[f.id];
      var fs := s[..f.offset] + p + s[f.offset + |p|..];
      var gs := s[..g.offset] + q + s[g.offset + |q|..];
      assert fs[..g.offset] + q + fs[g.offset + |q|..] == gs[..f.offset] + p + gs[f.offset + |p|..];
    }
  }

  lemma {:induction false} FragmentCommutes(b: Blocks, f: BlockPtr, p: string, e: seq<BlockPtr>, value: string)
    requires |p| == f.size && Total(e) == |value| && ApartFrom(f, e)
    ensures WriteExtent(WriteFragment(b, f, p), e, value) == WriteFragment(WriteExtent(b, e, value), f, p)
    decreases |e|
  {
    if e == [] {
    } else {
      var piece, rest := value[..e[0].size], value[e[0].size..];
      assert Apart(f, e[0]);
      WriteFragmentsCommute(b, f, p, e[0], piece);
      assert forall i :: 0 <= i < |e[1..]| ==> e[1..][i] == e[i + 1];
      FragmentCommutes(WriteFragment(b, e[0], piece), f, p, e[1..], rest);
    }
  }

  lemma {:induction false} ExtentsCommute(b: Blocks, d: seq<BlockPtr>, v: string, e: seq<BlockPtr>, w: string)
    requires Total(d) == |v| && Total(e) == |w| && MutuallyApart(d, e)
    ensures WriteExtent(WriteExtent(b, d, v), e, w) == WriteExtent(WriteExtent(b, e, w), d, v)
    decreases |d|
  {
    if d == [] {
    } else {
      var piece, rest := v[..d[0].size], v[d[0].size..];
      assert ApartFrom(d[0], e);
      FragmentCommutes(b, d[0], piece, e, w);
      assert forall i :: 0 <= i < |d[1..]| ==> d[1..][i] == d[i + 1];
      ExtentsCommute(WriteFragment(b, d[0], piece), d[1..], rest, e, w);
    }
  }

  // ---- Agreement below a position -------------------------------------------------------------------

  /** The two disks hold the same byte at every position before (id, offset). */
  ghost predicate AgreeBefore(b: Blocks, b': Blocks, id: nat, offset: nat) {
    forall i: nat, o: nat {:trigger ByteAt(b', i, o)} ::
      i < id || (i == id && o < offset) ==> ByteAt(b, i, o) == ByteAt(b', i, o)
  }

  lemma AgreeReadsSame(b: Blocks, b': Blocks, id: nat, offset: nat, e: seq<BlockPtr>)
    requires AgreeBefore(b, b', id, offset) && ExtentBefore(e, id, offset)
    requires ExtentInBounds(e)
    ensures ReadExtent(b', e) == ReadExtent(b, e)
  {
    forall i | 0 <= i < |e| ensures ReadFragment(b', e[i]) == ReadFragment(b, e[i]) {
      assert Before(e[i], id, offset);
    }
    ReadExtentSame(b', b, e);
  }

  lemma {:induction false} RecreatedAgrees(b: Blocks, lo: nat, hi: nat, offset: nat)
    requires offset <= BLOCK_SIZE
    ensures AgreeBefore(b, Recreated(b, lo, hi), lo, offset)
    ensures forall i: nat :: i <= lo ==> (i in Recreated(b, lo, hi) <==> i in b)
    ensures lo <= hi && Allocated(b, lo) ==> Allocated(Recreated(b, lo, hi), hi)
    decreases hi
  {
    if hi <= lo {
    } else {
      RecreatedAgrees(b, lo, hi - 1, offset);
      var b1 := Recreated(b, lo, hi - 1);
      forall i: nat, o: nat | i <= lo ensures ByteAt(Recreated(b, lo, hi), i, o) == ByteAt(b1, i, o) {
      }
    }
  }

  /** Writes at or after a position leave everything before it. */
  lemma {:induction false} WriteExtentAgrees(b: Blocks, e: seq<BlockPtr>, value: string, id: nat, offset: nat)
    requires Total(e) == |value| && ExtentNotBefore(e, id, offset)
    ensures AgreeBefore(b, WriteExtent(b, e, value), id, offset)
    decreases |e|
  {
    if e == [] {
    } else {
      var b1 := WriteFragment(b, e[0], value[..e[0].size]);
      assert NotBefore(e[0], id, offset);
      assert AgreeBefore(b, b1, id, offset);
      assert forall i :: 0 <= i < |e[1..]| ==> e[1..][i] == e[i + 1];
      WriteExtentAgrees(b1, e[1..], value[e[0].size..], id, offset);
      AgreeTransitive(b, b1, WriteExtent(b, e, value), id, offset);
    }
  }

  lemma AgreeTransitive(b: Blocks, b': Blocks, b'': Blocks, id: nat, offset: nat)
    requires AgreeBefore(b, b', id, offset) && AgreeBefore(b', b'', id, offset)
    ensures AgreeBefore(b, b'', id, offset)
  {
    forall i: nat, o: nat | i < id || (i == id && o < offset) ensures ByteAt(b, i, o) == ByteAt(b'', i, o) {
      assert ByteAt(b', i, o) == ByteAt(b'', i, o);
    }
  }
}
