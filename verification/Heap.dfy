/** The kernel heap: block headers in memory, linked in address order. */
module Heap {

  import opened Base

  const HEADER_SIZE := 32
  const HEADER_ALIGN := 8

  /** A block header as stored in front of its payload. */
  datatype Header = Header(next: Option<nat>, used: bool, size: nat, address: nat)

  type Memory = map<nat, Header>

  /** One block; its size includes the header. */
  datatype Tile = Tile(address: nat, size: nat, used: bool)

  // ------------------------------------------------------------------------ tilings

  predicate TileOk(t: Tile) {
    t.size >= HEADER_SIZE && t.size % HEADER_ALIGN == 0 && t.address % HEADER_ALIGN == 0
  }

  /** The tiles cover `[a, b)` exactly, in order. */
  ghost predicate Tiling(tiles: seq<Tile>, a: nat, b: nat) {
    if tiles == [] then a == b
    else tiles[0].address == a && TileOk(tiles[0]) && Tiling(tiles[1..], a + tiles[0].size, b)
  }

  lemma {:induction false} TilingJoin(x: seq<Tile>, y: seq<Tile>, a: nat, b: nat, c: nat)
    requires Tiling(x, a, b) && Tiling(y, b, c)
    ensures Tiling(x + y, a, c)
  {
    if x == [] {
      assert x + y == y;
    } else {
      assert (x + y)[1..] == x[1..] + y;
      TilingJoin(x[1..], y, a + x[0].size, b, c);
    }
  }

  lemma {:induction false} TilingSplit(x: seq<Tile>, y: seq<Tile>, a: nat, c: nat) returns (b: nat)
    requires Tiling(x + y, a, c)
    ensures Tiling(x, a, b) && Tiling(y, b, c) && a <= b
    ensures y != [] ==> b == y[0].address
  {
    if x == [] {
      assert x + y == y;
      b := a;
    } else {
      assert (x + y)[1..] == x[1..] + y;
      b := TilingSplit(x[1..], y, a + x[0].size, c);
    }
  }

  lemma {:induction false} TilesInside(tiles: seq<Tile>, a: nat, b: nat, i: nat)
    requires Tiling(tiles, a, b) && i < |tiles|
    ensures a <= tiles[i].address && tiles[i].address + tiles[i].size <= b && TileOk(tiles[i])
  {
    var e := TilingEnd(tiles[1..], a + tiles[0].size, b);
    if i > 0 {
      TilesInside(tiles[1..], a + tiles[0].size, b, i - 1);
    }
  }

  lemma {:induction false} TilingEnd(tiles: seq<Tile>, a: nat, b: nat) returns (length: nat)
    requires Tiling(tiles, a, b)
    ensures b == a + length
  {
    if tiles == [] {
      length := 0;
    } else {
      length := TilingEnd(tiles[1..], a + tiles[0].size, b);
      length := length + tiles[0].size;
    }
  }

  lemma {:induction false} TilesApart(tiles: seq<Tile>, a: nat, b: nat, i: nat, j: nat)
    requires Tiling(tiles, a, b) && i < j < |tiles|
    ensures tiles[i].address + tiles[i].size <= tiles[j].address
  {
    if i == 0 {
      TilesInside(tiles[1..], a + tiles[0].size, b, j - 1);
    } else {
      TilesApart(tiles[1..], a + tiles[0].size, b, i - 1, j - 1);
    }
  }

  /** A payload shares no byte with any other block, header included; it is aligned. */
  lemma PayloadsApart(tiles: seq<Tile>, a: nat, b: nat, i: nat, j: nat, byte: nat)
    requires Tiling(tiles, a, b) && i < |tiles| && j < |tiles|
    requires tiles[i].address + HEADER_SIZE <= byte < tiles[i].address + tiles[i].size
    requires tiles[j].address <= byte < tiles[j].address + tiles[j].size
    ensures i == j && a <= byte < b && (tiles[i].address + HEADER_SIZE) % HEADER_ALIGN == 0
  {
    TilesInside(tiles, a, b, i);
    if i < j {
      TilesApart(tiles, a, b, i, j);
    } else if j < i {
      TilesApart(tiles, a, b, j, i);
    }
  }

  // ------------------------------------------------------------------- linked headers

  ghost predicate HeaderOf(h: Header, t: Tile) {
    h.used == t.used && h.size == t.size && h.address == t.address
  }

  /** Following links from `p` passes the headers of the tiles and arrives at `q`. */
  ghost predicate Chain(mem: Memory, p: Option<nat>, tiles: seq<Tile>, q: Option<nat>)
    decreases |tiles|
  {
    if tiles == [] then p == q
    else
      var at := tiles[0].address;
      p == Some(at) && at in mem && HeaderOf(mem[at], tiles[0]) && Chain(mem, mem[at].next, tiles[1..], q)
  }

  lemma {:induction false} ChainJoin(mem: Memory, p: Option<nat>, x: seq<Tile>, m: Option<nat>, y: seq<Tile>,
                                     q: Option<nat>)
    requires Chain(mem, p, x, m) && Chain(mem, m, y, q)
    ensures Chain(mem, p, x + y, q)
    decreases |x|
  {
    if x == [] {
      assert x + y == y;
    } else {
      assert (x + y)[1..] == x[1..] + y;
      ChainJoin(mem, mem[x[0].address].next, x[1..], m, y, q);
    }
  }

  lemma {:induction false} ChainSplit(mem: Memory, p: Option<nat>, x: seq<Tile>, y: seq<Tile>, q: Option<nat>)
    returns (m: Option<nat>)
    requires Chain(mem, p, x + y, q)
    ensures Chain(mem, p, x, m) && Chain(mem, m, y, q)
    decreases |x|
  {
    if x == [] {
      assert x + y == y;
      m := p;
    } else {
      assert (x + y)[1..] == x[1..] + y;
      m := ChainSplit(mem, mem[x[0].address].next, x[1..], y, q);
    }
  }

  /** Headers outside `[lo, hi)` do not matter to a chain inside it. */
  lemma {:induction false} ChainFrame(mem: Memory, mem': Memory, p: Option<nat>, tiles: seq<Tile>, q: Option<nat>,
                                      lo: nat, hi: nat)
    requires Chain(mem, p, tiles, q) && Tiling(tiles, lo, hi)
    requires forall c :: lo <= c < hi && c in mem ==> c in mem' && mem'[c] == mem[c]
    ensures Chain(mem', p, tiles, q)
    decreases |tiles|
  {
    if tiles != [] {
      TilesInside(tiles, lo, hi, 0);
      ChainFrame(mem, mem', mem[tiles[0].address].next, tiles[1..], q, lo + tiles[0].size, hi);
    }
  }

  /** Tiles `x + y + z` in memory, with the middle ones to be replaced. */
  ghost predicate Around(mem: Memory, p: Option<nat>, x: seq<Tile>, y: seq<Tile>, z: seq<Tile>, a: nat, b: nat, c: nat,
                         d: nat, m: Option<nat>, n: Option<nat>)
  {
    && Tiling(x, a, b) && Tiling(y, b, c) && Tiling(z, c, d)
    && Chain(mem, p, x, m) && Chain(mem, m, y, n) && Chain(mem, n, z, None)
  }

  /** Rewriting headers inside the middle replaces the middle. */
  lemma Replace(mem: Memory, mem': Memory, p: Option<nat>, x: seq<Tile>, y: seq<Tile>, y': seq<Tile>, z: seq<Tile>,
                a: nat, b: nat, c: nat, d: nat, m: Option<nat>, n: Option<nat>)
    requires Around(mem, p, x, y, z, a, b, c, d, m, n) && a <= b <= c
    requires forall k :: (k < b || c <= k) && k in mem ==> k in mem' && mem'[k] == mem[k]
    requires Tiling(y', b, c) && Chain(mem', m, y', n)
    ensures Tiling(x + y' + z, a, d) && Chain(mem', p, x + y' + z, None)
  {
    hide Tiling, Chain;
    ChainFrame(mem, mem', p, x, m, a, b);
    ChainFrame(mem, mem', n, z, None, c, d);
    TilingJoin(x, y', a, b, c);
    TilingJoin(x + y', z, a, c, d);
    ChainJoin(mem', p, x, m, y', n);
    ChainJoin(mem', p, x + y', n, z, None);
  }

  lemma FindAround(mem: Memory, p: Option<nat>, x: seq<Tile>, y: seq<Tile>, z: seq<Tile>, a: nat, d: nat)
    returns (b: nat, c: nat, m: Option<nat>, n: Option<nat>)
    requires Tiling(x + y + z, a, d) && Chain(mem, p, x + y + z, None)
    ensures Around(mem, p, x, y, z, a, b, c, d, m, n) && a <= b <= c
    ensures y != [] ==> b == y[0].address
  {
    hide Tiling, Chain;
    c := TilingSplit(x + y, z, a, d);
    b := TilingSplit(x, y, a, c);
    var l := TilingEnd(y, b, c);
    n := ChainSplit(mem, p, x + y, z, None);
    m := ChainSplit(mem, p, x, y, n);
  }

  // ------------------------------------------------------------------------ operations

  /** A free tile that has the size, or can be split with a header to spare. */
  predicate Fits(t: Tile, size: nat) {
    !t.used && (t.size == size || t.size >= size + HEADER_SIZE)
  }

  /**
    A tile fits exactly when it is free and can be cut so that the first part
    has the size and the rest, if any, is made of proper blocks.
   */
  lemma FitsIsCuttable(t: Tile, size: nat)
    requires TileOk(t) && size >= HEADER_SIZE && size % HEADER_ALIGN == 0
    ensures Fits(t, size) <==>
              !t.used && exists rest :: Tiling([Tile(t.address, size, true)] + rest, t.address, t.address + t.size)
  {
    var first := Tile(t.address, size, true);
    if Fits(t, size) {
      var rest := if t.size == size then [] else [Tile(t.address + size, t.size - size, false)];
      assert ([first] + rest)[1..] == rest;
      assert Tiling(rest, t.address + size, t.address + t.size);
      assert Tiling([first] + rest, t.address, t.address + t.size);
    }
    if rest: seq<Tile> :| Tiling([first] + rest, t.address, t.address + t.size) {
      CutFits(t, size, rest);
    }
  }

  lemma CutFits(t: Tile, size: nat, rest: seq<Tile>)
    requires Tiling([Tile(t.address, size, true)] + rest, t.address, t.address + t.size)
    ensures t.size == size || t.size >= size + HEADER_SIZE
  {
    var all := [Tile(t.address, size, true)] + rest;
    assert all[0].size == size && all[1..] == rest;
    assert Tiling(rest, t.address + size, t.address + t.size);
    if rest != [] {
      assert rest[0].address == t.address + size;
      TilesInside(rest, t.address + size, t.address + t.size, 0);
    }
  }

  /** What a fitting tile is replaced by. */
  ghost function Split(t: Tile, size: nat): seq<Tile>
    requires Fits(t, size)
  {
    if t.size == size then [t.(used := true)]
    else [Tile(t.address, size, true), Tile(t.address + size, t.size - size, false)]
  }

  ghost predicate FirstFit(tiles: seq<Tile>, size: nat, i: nat) {
    i < |tiles| && Fits(tiles[i], size) && forall j :: 0 <= j < i ==> !Fits(tiles[j], size)
  }

  ghost function Taken(tiles: seq<Tile>, i: nat, size: nat): seq<Tile>
    requires i < |tiles| && Fits(tiles[i], size)
  {
    tiles[..i] + Split(tiles[i], size) + tiles[i + 1..]
  }

  /** The tile at `i` becomes free and swallows a free right neighbour. */
  ghost function Freed(tiles: seq<Tile>, i: nat): seq<Tile>
    requires i < |tiles|
  {
    var t := tiles[i].(used := false);
    if i + 1 < |tiles| && !tiles[i + 1].used then
      tiles[..i] + [t.(size := t.size + tiles[i + 1].size)] + tiles[i + 2..]
    else tiles[..i] + [t] + tiles[i + 1..]
  }

  class LinkedListHeap {
    const heapStart: nat
    const heapEnd: nat

    var head: Option<nat>
    var mem: Memory

    ghost var tiles: seq<Tile>

    ghost predicate Valid()
      reads this
    {
      Tiling(tiles, heapStart, heapEnd) && Chain(mem, head, tiles, None)
    }

    constructor (heapStart: nat, heapEnd: nat)
      requires heapStart % HEADER_ALIGN == 0 && heapEnd % HEADER_ALIGN == 0 && heapStart + HEADER_SIZE <= heapEnd
      ensures Valid() && tiles == [Tile(heapStart, heapEnd - heapStart, false)]
      ensures this.heapStart == heapStart && this.heapEnd == heapEnd
    {
      this.heapStart, this.heapEnd := heapStart, heapEnd;
      mem := map[heapStart := Header(None, false, heapEnd - heapStart, heapStart)];
      head := Some(heapStart);
      tiles := [Tile(heapStart, heapEnd - heapStart, false)];
    }

    /** Writes a fresh header if the place can hold one. */
    method CreateBlock(address: nat, size: nat) returns (ok: bool)
      modifies this`mem
      ensures ok <==> address % HEADER_ALIGN == 0 && size >= HEADER_SIZE
      ensures mem == if ok then old(mem)[address := Header(None, false, size, address)] else old(mem)
    {
      if address % HEADER_ALIGN != 0 || size < HEADER_SIZE {
        return false;
      }
      mem := mem[address := Header(None, false, size, address)];
      return true;
    }

    /** Takes the block at `at`, splitting off what is too much. */
    method TakeBlock(at: nat, size: nat, ghost i: nat) returns (ok: bool)
      requires Valid() && size >= HEADER_SIZE && size % HEADER_ALIGN == 0
      requires i < |tiles| && at == tiles[i].address && at in mem && HeaderOf(mem[at], tiles[i])
      requires !tiles[i].used && tiles[i].size >= size
      modifies this`mem, this`tiles
      ensures Valid() && (ok <==> Fits(old(tiles)[i], size))
      ensures tiles == if ok then Taken(old(tiles), i, size) else old(tiles)
      ensures !ok ==> mem == old(mem)
    {
      hide Tiling, Chain;
      ghost var mem0, x, t, z := mem, tiles[..i], tiles[i], tiles[i + 1..];
      ghost var b, c, m, n;
      assert tiles == x + [t] + z;
      b, c, m, n := FindAround(mem, head, x, [t], z, heapStart, heapEnd);
      TilesInside(tiles, heapStart, heapEnd, i);
      OneTile(mem, t, b, c, m, n);
      var block := mem[at];
      if block.size != size {
        var rest := at + size;
        var made := CreateBlock(rest, block.size - size);
        if !made {
          return false;
        }
        mem := mem[rest := mem[rest].(next := block.next)];
        mem := mem[at := block.(next := Some(rest), used := true, size := size)];
        SplitChain(mem, t, size, n);
        TwoTiles(Tile(at, size, true), Tile(rest, t.size - size, false), b, c);
      } else {
        mem := mem[at := block.(used := true)];
        OneChain(mem, t.(used := true), n, b, c);
      }
      Replace(mem0, mem, head, x, [t], Split(t, size), z, heapStart, b, c, heapEnd, m, n);
      tiles := Taken(tiles, i, size);
      return true;
    }

    /** Takes the lowest block that fits; fails only when none does. */
    method AllocateInternal(size: nat) returns (r: Option<nat>, ghost i: nat)
      requires Valid() && size >= HEADER_SIZE && size % HEADER_ALIGN == 0
      modifies this`mem, this`tiles
      ensures Valid()
      ensures r.None? ==> tiles == old(tiles) && forall j :: 0 <= j < |tiles| ==> !Fits(tiles[j], size)
      ensures r.Some? ==> FirstFit(old(tiles), size, i) && tiles == Taken(old(tiles), i, size)
      ensures r.Some? ==> r.value == old(tiles)[i].address + HEADER_SIZE
    {
      var at := head;
      i := 0;
      ghost var tiles0 := tiles;
      assert tiles[0..] == tiles;
      while at.Some?
        invariant Valid() && tiles == tiles0 && i <= |tiles| && Chain(mem, at, tiles[i..], None)
        invariant forall j :: 0 <= j < i ==> !Fits(tiles[j], size)
        decreases |tiles| - i
      {
        assert tiles[i..][0] == tiles[i] && tiles[i..][1..] == tiles[i + 1..];
        var block := mem[at.value];
        if !block.used && block.size >= size {
          var taken := TakeBlock(at.value, size, i);
          if taken {
            return Some(block.address + HEADER_SIZE), i;
          }
        }
        at, i := block.next, i + 1;
      }
      return None, i;
    }

    /** Frees a live payload; a free right neighbour is merged. */
    method DeallocInternal(addr: nat, ghost i: nat)
      requires Valid() && i < |tiles| && tiles[i].used && addr == tiles[i].address + HEADER_SIZE
      modifies this`mem, this`tiles
      ensures Valid() && tiles == Freed(old(tiles), i)
    {
      hide Tiling, Chain;
      var at := addr - HEADER_SIZE;
      ghost var mem0, x, t, z := mem, tiles[..i], tiles[i], tiles[i + 1..];
      ghost var b, c, m, n;
      assert tiles == x + [t] + z;
      b, c, m, n := FindAround(mem, head, x, [t], z, heapStart, heapEnd);
      TilesInside(tiles, heapStart, heapEnd, i);
      OneTile(mem, t, b, c, m, n);
      mem := mem[at := mem[at].(used := false)];
      OneChain(mem, t.(used := false), n, b, c);
      Replace(mem0, mem, head, x, [t], [t.(used := false)], z, heapStart, b, c, heapEnd, m, n);
      tiles := x + [t.(used := false)] + z;
      MergeRight(at, i);
    }

    /** Merges a free block with its right neighbour if that is free. */
    method MergeRight(at: nat, ghost i: nat)
      requires Valid() && i < |tiles| && at == tiles[i].address && !tiles[i].used
      modifies this`mem, this`tiles
      ensures Valid() && tiles == Freed(old(tiles), i)
    {
      hide Tiling, Chain;
      ghost var mem0, x, t := mem, tiles[..i], tiles[i];
      NextHeader(mem, head, tiles, heapStart, heapEnd, i);
      assert tiles == x + [t] + tiles[i + 1..];
      var block := mem[at];
      if block.next.None? {
        return;
      }
      var next := mem[block.next.value];
      if next.used {
        return;
      }
      ghost var u, z := tiles[i + 1], tiles[i + 2..];
      ghost var b, c, m, n;
      assert tiles == x + [t, u] + z;
      b, c, m, n := FindAround(mem, head, x, [t, u], z, heapStart, heapEnd);
      PairOfTiles(mem, t, u, b, c, m, n);
      mem := mem[at := block.(size := block.size + next.size, next := next.next)];
      OneChain(mem, t.(size := t.size + u.size), n, b, c);
      Replace(mem0, mem, head, x, [t, u], [t.(size := t.size + u.size)], z, heapStart, b, c, heapEnd, m, n);
      tiles := Freed(tiles, i);
    }

    /** Serves a request for `size` bytes: padded, with room for a header. */
    method Alloc(size: nat, align: nat) returns (r: Option<nat>, ghost i: nat)
      requires Valid() && align > 0
      modifies this`mem, this`tiles
      ensures Valid()
      ensures r.None? ==> tiles == old(tiles) && forall j :: 0 <= j < |tiles| ==>
                !Fits(tiles[j], BlockSize(size, align))
      ensures r.Some? ==>
                FirstFit(old(tiles), BlockSize(size, align), i) && tiles == Taken(old(tiles), i, BlockSize(size, align))
      ensures r.Some? ==> r.value == old(tiles)[i].address + HEADER_SIZE && r.value % HEADER_ALIGN == 0
      requires align % HEADER_ALIGN == 0 || HEADER_ALIGN % align == 0
    {
      hide Tiling, Chain;
      BlockSizeOk(size, align);
      r, i := AllocateInternal(BlockSize(size, align));
      if r.Some? {
        TakenHere(old(tiles), i, BlockSize(size, align));
        TilesInside(tiles, heapStart, heapEnd, i);
      }
    }

    /** Frees live payloads given in descending address order. */
    method FreeDescending(addrs: seq<nat>)
      requires Valid() && addrs == LiveDescending(tiles)
      modifies this`mem, this`tiles
      ensures Valid() && tiles == AllFreed(old(tiles))
      ensures old(tiles) != [] ==> (Whole(tiles, heapStart, heapEnd) <==> OnlyLastFree(old(tiles)))
    {
      hide Tiling, Chain;
      ghost var tiles0 := tiles;
      ghost var k: nat := |tiles|;
      assert tiles0[..k] == tiles0 && tiles0[k..] == [];
      var j := 0;
      while j < |addrs|
        invariant 0 <= j <= |addrs| && Valid() && k <= |tiles0|
        invariant tiles == tiles0[..k] + AllFreed(tiles0[k..])
        invariant addrs[j..] == LiveDescending(tiles0[..k])
      {
        ghost var m := LastUsed(tiles0, k, addrs[j..]);
        assert tiles[m] == tiles0[m];
        DeallocInternal(addrs[j], m);
        FreedIsAllFreed(tiles0, k, m);
        k := m;
        j := j + 1;
      }
      NoneUsed(tiles0, k);
      if tiles0 != [] {
        OneBlockLeft(tiles0, heapStart, heapEnd);
      }
    }

    /**
      Serves any requests from a fresh heap, first fit for each, and frees the
      payloads in descending order: the heap is whole again. `mid` is the
      tiling in between, `addrs` the payloads served.
     */
    method AllocateAllThenFree(sizes: seq<nat>) returns (addrs: seq<nat>, ghost mid: seq<Tile>)
      requires Valid() && Whole(tiles, heapStart, heapEnd)
      modifies this`mem, this`tiles
      ensures mid == ServeAll(old(tiles), sizes) && addrs == LiveDescending(mid)
      ensures Valid() && Whole(tiles, heapStart, heapEnd)
    {
      hide Tiling, Chain, Serve;
      addrs := [];
      ghost var tiles0 := tiles;
      WholeIsFresh(tiles, heapStart, heapEnd);
      assert sizes[..0] == [];
      for k := 0 to |sizes|
        invariant Valid() && tiles != [] && OnlyLastFree(tiles) && addrs == LiveDescending(tiles)
        invariant tiles == ServeAll(tiles0, sizes[..k])
      {
        ghost var before, size := tiles, BlockSize(sizes[k], HEADER_ALIGN);
        ghost var i;
        var r;
        r, i := Alloc(sizes[k], HEADER_ALIGN);
        assert sizes[..k + 1][..k] == sizes[..k];
        if r.Some? {
          ServeTakes(before, size, i);
          TakenKeepsShape(before, i, size);
          TakenLive(before, i, size);
          addrs := [r.value] + addrs;
        } else {
          ServeRefuses(before, size);
        }
      }
      assert sizes[..|sizes|] == sizes;
      mid := tiles;
      FreeDescending(addrs);
    }
  }

  /** The tiling after one request: the lowest fitting tile is taken, if there is one. */
  ghost function Serve(tiles: seq<Tile>, size: nat): seq<Tile> {
    if exists i: nat :: FirstFit(tiles, size, i) then
      var i: nat :| FirstFit(tiles, size, i);
      Taken(tiles, i, size)
    else tiles
  }

  ghost function ServeAll(tiles: seq<Tile>, sizes: seq<nat>): seq<Tile> {
    if sizes == [] then tiles
    else Serve(ServeAll(tiles, sizes[..|sizes| - 1]), BlockSize(sizes[|sizes| - 1], HEADER_ALIGN))
  }

  lemma ServeTakes(tiles: seq<Tile>, size: nat, i: nat)
    requires FirstFit(tiles, size, i)
    ensures Serve(tiles, size) == Taken(tiles, i, size)
  {
    hide Taken, Fits;
    forall j: nat | FirstFit(tiles, size, j) ensures j == i {
    }
  }

  lemma ServeRefuses(tiles: seq<Tile>, size: nat)
    requires forall j :: 0 <= j < |tiles| ==> !Fits(tiles[j], size)
    ensures Serve(tiles, size) == tiles
  {
  }

  /** The size of the block that serves a request. */
  function BlockSize(size: nat, align: nat): nat {
    var a := if align > HEADER_ALIGN then align else HEADER_ALIGN;
    RoundUp(size, a) + HEADER_SIZE
  }

  function RoundUp(n: nat, align: nat): nat
    requires align > 0
  {
    (n + align - 1) / align * align
  }

  /** The payload has room for the request; the block can be split off. */
  lemma BlockSizeOk(size: nat, align: nat)
    requires align > 0 && (align % HEADER_ALIGN == 0 || HEADER_ALIGN % align == 0)
    ensures BlockSize(size, align) >= size + HEADER_SIZE && BlockSize(size, align) % HEADER_ALIGN == 0
    ensures BlockSize(size, align) - (size + HEADER_SIZE) < if align > HEADER_ALIGN then align else HEADER_ALIGN
  {
    hide RoundUp;
    var a := if align > HEADER_ALIGN then align else HEADER_ALIGN;
    assert a % HEADER_ALIGN == 0;
    RoundUpMultiple(size, a / HEADER_ALIGN);
    assert a == a / HEADER_ALIGN * HEADER_ALIGN;
    RoundUpCovers(size, a);
  }

  lemma RoundUpCovers(n: nat, a: nat)
    requires a > 0
    ensures n <= RoundUp(n, a) < n + a
  {
    Ceiling(n, a);
  }

  lemma RoundUpMultiple(n: nat, k: nat)
    requires k > 0
    ensures RoundUp(n, k * HEADER_ALIGN) % HEADER_ALIGN == 0
  {
    var q := (n + k * HEADER_ALIGN - 1) / (k * HEADER_ALIGN);
    assert q * (k * HEADER_ALIGN) == (q * k) * HEADER_ALIGN;
    MultipleOf(q * k);
  }

  lemma MultipleOf(m: nat)
    ensures (m * HEADER_ALIGN) % HEADER_ALIGN == 0
  {
  }

  lemma Ceiling(n: nat, a: nat)
    requires a > 0
    ensures n <= (n + a - 1) / a * a < n + a
  {
    var q, r := (n + a - 1) / a, (n + a - 1) % a;
    assert n + a - 1 == a * q + r && r < a;
    assert q * a == a * q;
  }

  lemma TakenHere(tiles: seq<Tile>, i: nat, size: nat)
    requires i < |tiles| && Fits(tiles[i], size)
    ensures i < |Taken(tiles, i, size)| && Taken(tiles, i, size)[i] == Tile(tiles[i].address, size, true)
  {
  }

  // ----------------------------------------------------------------- freeing everything

  /** A single free block. */
  ghost predicate Whole(tiles: seq<Tile>, a: nat, b: nat) {
    |tiles| == 1 && tiles[0].address == a && a + tiles[0].size == b && !tiles[0].used
  }

  /** Nothing but the last tile may be free. */
  ghost predicate OnlyLastFree(tiles: seq<Tile>) {
    forall i :: 0 <= i < |tiles| - 1 ==> tiles[i].used
  }

  ghost function LiveDescending(tiles: seq<Tile>): seq<nat> {
    if tiles == [] then []
    else
      var t := tiles[|tiles| - 1];
      (if t.used then [t.address + HEADER_SIZE] else []) + LiveDescending(tiles[..|tiles| - 1])
  }

  /** A freed tile in front of free ones: it takes in the first of them. */
  ghost function Swallow(t: Tile, rest: seq<Tile>): seq<Tile> {
    if rest == [] then [t.(used := false)]
    else [t.(used := false, size := t.size + rest[0].size)] + rest[1..]
  }

  /** The tiles after freeing the used ones from right to left. */
  ghost function AllFreed(tiles: seq<Tile>): seq<Tile> {
    if tiles == [] then []
    else
      var t, rest := tiles[0], AllFreed(tiles[1..]);
      if t.used then Swallow(t, rest) else [t] + rest
  }

  lemma {:induction false} AllFreedIsFree(tiles: seq<Tile>)
    ensures forall i :: 0 <= i < |AllFreed(tiles)| ==> !AllFreed(tiles)[i].used
    ensures tiles != [] ==> AllFreed(tiles) != []
  {
    if tiles != [] {
      AllFreedIsFree(tiles[1..]);
    }
  }

  /** The used tile that a live address stands for; those after it are free. */
  lemma {:induction false} LastUsed(tiles: seq<Tile>, k: nat, addrs: seq<nat>) returns (m: nat)
    requires k <= |tiles| && addrs == LiveDescending(tiles[..k]) && addrs != []
    ensures m < k && tiles[m].used && addrs[0] == tiles[m].address + HEADER_SIZE
    ensures addrs[1..] == LiveDescending(tiles[..m])
    ensures forall i :: m < i < k ==> !tiles[i].used
  {
    assert tiles[..k][..k - 1] == tiles[..k - 1];
    if tiles[k - 1].used {
      m := k - 1;
    } else {
      m := LastUsed(tiles, k - 1, addrs);
    }
  }

  /** Free tiles in front stay as they are. */
  lemma {:induction false} AllFreedPrefix(x: seq<Tile>, y: seq<Tile>)
    requires forall i :: 0 <= i < |x| ==> !x[i].used
    ensures AllFreed(x + y) == x + AllFreed(y)
  {
    if x == [] {
      assert x + y == y;
    } else {
      AllFreedPrefix(x[1..], y);
      assert (x + y)[1..] == x[1..] + y;
      assert [x[0]] + (x[1..] + AllFreed(y)) == x + AllFreed(y);
    }
  }

  lemma AllFreedSkips(tiles: seq<Tile>, m: nat, k: nat)
    requires m <= k <= |tiles| && forall i :: m <= i < k ==> !tiles[i].used
    ensures AllFreed(tiles[m..]) == tiles[m..k] + AllFreed(tiles[k..])
  {
    hide AllFreed;
    assert tiles[m..] == tiles[m..k] + tiles[k..];
    AllFreedPrefix(tiles[m..k], tiles[k..]);
  }

  lemma FreedIsAllFreed(tiles: seq<Tile>, k: nat, m: nat)
    requires m < k <= |tiles| && tiles[m].used && forall i :: m < i < k ==> !tiles[i].used
    ensures m < |tiles[..k] + AllFreed(tiles[k..])|
    ensures Freed(tiles[..k] + AllFreed(tiles[k..]), m) == tiles[..m] + AllFreed(tiles[m..])
  {
    hide AllFreed, Freed;
    var x, t, mid, tail := tiles[..m], tiles[m], tiles[m + 1..k], tiles[k..];
    assert tiles[..k] == x + [t] + mid;
    assert tiles[m..] == [t] + (mid + tail);
    FreedBefore(x, t, mid, tail);
    assert x + [t] + mid + AllFreed(tail) == x + [t] + (mid + AllFreed(tail));
  }

  /** Freeing a tile in front of free ones, right of which everything is freed. */
  lemma FreedBefore(x: seq<Tile>, t: Tile, mid: seq<Tile>, tail: seq<Tile>)
    requires t.used && forall i :: 0 <= i < |mid| ==> !mid[i].used
    ensures Freed(x + [t] + (mid + AllFreed(tail)), |x|) == x + AllFreed([t] + (mid + tail))
  {
    hide AllFreed, Freed, Swallow;
    AllFreedPrefix(mid, tail);
    AllFreedIsFree(mid + tail);
    AllFreedUsed([t] + (mid + tail));
    assert ([t] + (mid + tail))[1..] == mid + tail;
    FreedMiddle(x, t, mid + AllFreed(tail));
  }

  /** A used tile in front is freed last, and swallows what is right of it. */
  lemma AllFreedUsed(tiles: seq<Tile>)
    requires tiles != [] && tiles[0].used
    ensures AllFreed(tiles) == Swallow(tiles[0], AllFreed(tiles[1..]))
  {
  }

  lemma FreedMiddle(x: seq<Tile>, t: Tile, rest: seq<Tile>)
    requires rest != [] ==> !rest[0].used
    ensures Freed(x + [t] + rest, |x|) == x + Swallow(t, rest)
  {
    var now := x + [t] + rest;
    assert now[|x|] == t && now[..|x|] == x;
    assert now[|x| + 1..] == rest;
    if rest != [] {
      assert now[|x| + 1] == rest[0] && now[|x| + 2..] == rest[1..];
    }
  }

  lemma {:induction false} NoneUsed(tiles: seq<Tile>, k: nat)
    requires k <= |tiles| && LiveDescending(tiles[..k]) == []
    ensures tiles[..k] + AllFreed(tiles[k..]) == AllFreed(tiles)
  {
    forall i | 0 <= i < k ensures !tiles[i].used {
      NotLive(tiles[..k], i);
    }
    AllFreedSkips(tiles, 0, k);
    assert tiles[0..] == tiles && tiles[0..k] == tiles[..k];
  }

  lemma {:induction false} NotLive(tiles: seq<Tile>, i: nat)
    requires LiveDescending(tiles) == [] && i < |tiles|
    ensures !tiles[i].used
  {
    if i < |tiles| - 1 {
      NotLive(tiles[..|tiles| - 1], i);
    }
  }

  /** One block is left exactly when nothing but the last tile was free. */
  lemma {:induction false} OneBlockLeft(tiles: seq<Tile>, a: nat, b: nat)
    requires Tiling(tiles, a, b) && tiles != []
    ensures Whole(AllFreed(tiles), a, b) <==> OnlyLastFree(tiles)
    ensures AllFreed(tiles) != [] && AllFreed(tiles)[0].address == a
              && (|AllFreed(tiles)| == 1 ==> Whole(AllFreed(tiles), a, b))
  {
    var rest := tiles[1..];
    AllFreedIsFree(tiles);
    if rest == [] {
      assert AllFreed(rest) == [];
    } else {
      OneBlockLeft(rest, a + tiles[0].size, b);
      LastFreeStep(tiles);
    }
  }

  lemma LastFreeStep(tiles: seq<Tile>)
    requires |tiles| > 1
    ensures OnlyLastFree(tiles) <==> tiles[0].used && OnlyLastFree(tiles[1..])
  {
    var rest := tiles[1..];
    if OnlyLastFree(tiles) {
      assert forall i :: 0 <= i < |rest| - 1 ==> rest[i] == tiles[i + 1];
    }
    if tiles[0].used && OnlyLastFree(rest) {
      forall i | 0 <= i < |tiles| - 1 ensures tiles[i].used {
        assert i > 0 ==> tiles[i] == rest[i - 1];
      }
    }
  }

  /** Allocating from a heap whose only free block is the last keeps it so. */
  lemma TakenKeepsShape(tiles: seq<Tile>, i: nat, size: nat)
    requires FirstFit(tiles, size, i) && OnlyLastFree(tiles)
    ensures Taken(tiles, i, size) != [] && OnlyLastFree(Taken(tiles, i, size))
  {
    assert i == |tiles| - 1;
  }

  lemma WholeIsFresh(tiles: seq<Tile>, a: nat, b: nat)
    requires Whole(tiles, a, b)
    ensures OnlyLastFree(tiles) && LiveDescending(tiles) == []
  {
    assert tiles[..0] == [];
  }

  lemma TakenLive(tiles: seq<Tile>, i: nat, size: nat)
    requires FirstFit(tiles, size, i) && OnlyLastFree(tiles)
    ensures LiveDescending(Taken(tiles, i, size)) == [tiles[i].address + HEADER_SIZE] + LiveDescending(tiles)
  {
    assert i == |tiles| - 1;
    var r, x, t := Taken(tiles, i, size), tiles[..i], tiles[i];
    var u := Tile(t.address, size, true);
    assert LiveDescending(tiles) == LiveDescending(x);
    assert (x + [u])[..|x|] == x;
    assert LiveDescending(x + [u]) == [t.address + HEADER_SIZE] + LiveDescending(x);
    if t.size == size {
      assert r == x + [u];
    } else {
      assert r[..|r| - 1] == x + [u];
    }
  }

  /** The two headers of neighbouring tiles. */
  lemma PairOfTiles(mem: Memory, t: Tile, u: Tile, b: nat, c: nat, m: Option<nat>, n: Option<nat>)
    requires Tiling([t, u], b, c) && Chain(mem, m, [t, u], n)
    ensures b == t.address && u.address == b + t.size && c == u.address + u.size && m == Some(t.address)
    ensures t.address in mem && HeaderOf(mem[t.address], t) && mem[t.address].next == Some(u.address)
    ensures u.address in mem && HeaderOf(mem[u.address], u) && mem[u.address].next == n
    ensures TileOk(t) && TileOk(u) && TileOk(t.(size := t.size + u.size))
  {
    assert [t, u][1..] == [u];
    assert Tiling([u], b + t.size, c) && Chain(mem, mem[t.address].next, [u], n);
    OneTile(mem, u, b + t.size, c, mem[t.address].next, n);
    TileAlone(u, b + t.size, c);
  }

  lemma TileAlone(t: Tile, b: nat, c: nat)
    requires Tiling([t], b, c)
    ensures TileOk(t)
  {
  }

  lemma NextHeader(mem: Memory, p: Option<nat>, tiles: seq<Tile>, a: nat, d: nat, i: nat)
    requires Tiling(tiles, a, d) && Chain(mem, p, tiles, None) && i < |tiles|
    ensures tiles[i].address in mem && HeaderOf(mem[tiles[i].address], tiles[i])
    ensures mem[tiles[i].address].next == if i + 1 < |tiles| then Some(tiles[i + 1].address) else None
    ensures i + 1 < |tiles| ==> tiles[i + 1].address in mem && HeaderOf(mem[tiles[i + 1].address], tiles[i + 1])
  {
    hide Tiling, Chain;
    var x, t, z := tiles[..i], tiles[i], tiles[i + 1..];
    assert tiles == x + [t] + z;
    var b, c, m, n := FindAround(mem, p, x, [t], z, a, d);
    OneTile(mem, t, b, c, m, n);
    FirstOf(mem, n, z);
  }

  lemma FirstOf(mem: Memory, p: Option<nat>, tiles: seq<Tile>)
    requires Chain(mem, p, tiles, None)
    ensures if tiles == [] then p == None
            else p == Some(tiles[0].address) && tiles[0].address in mem && HeaderOf(mem[tiles[0].address], tiles[0])
  {
  }

  lemma OneTile(mem: Memory, t: Tile, b: nat, c: nat, m: Option<nat>, n: Option<nat>)
    requires Tiling([t], b, c) && Chain(mem, m, [t], n)
    ensures b == t.address && c == b + t.size && m == Some(t.address) && t.address in mem
    ensures HeaderOf(mem[t.address], t) && mem[t.address].next == n
  {
    assert [t][1..] == [];
  }

  lemma OneChain(mem: Memory, t: Tile, n: Option<nat>, b: nat, c: nat)
    requires t.address in mem && HeaderOf(mem[t.address], t) && mem[t.address].next == n
    requires TileOk(t) && b == t.address && c == b + t.size
    ensures Chain(mem, Some(t.address), [t], n) && Tiling([t], b, c)
  {
    assert [t][1..] == [];
  }

  lemma SplitChain(mem: Memory, t: Tile, size: nat, n: Option<nat>)
    requires Fits(t, size) && t.size != size && t.address in mem && t.address + size in mem
    requires mem[t.address] == Header(Some(t.address + size), true, size, t.address)
    requires mem[t.address + size] == Header(n, false, t.size - size, t.address + size)
    ensures Chain(mem, Some(t.address), Split(t, size), n)
  {
    var y := Split(t, size);
    assert y[1..] == [y[1]] && y[1..][1..] == [];
    assert Chain(mem, Some(y[1].address), [y[1]], n) by { assert [y[1]][1..] == []; }
  }

  lemma TwoTiles(t: Tile, u: Tile, b: nat, c: nat)
    requires TileOk(t) && TileOk(u) && t.address == b && u.address == b + t.size && c == u.address + u.size
    ensures Tiling([t, u], b, c)
  {
    assert [t, u][1..] == [u] && [u][1..] == [];
    assert Tiling([u], u.address, c);
  }
}
