/**
  A four-level page table as frames in memory. A node is the frame a list of
  indices leads to; lists of four indices are the pages themselves.
 */
module PageTree {

  import opened Base
  import opened PageEntries

  type Memory = map<Frame, seq<Entry>>

  type Path = seq<nat>

  function EntryIn(mem: Memory, f: Frame, i: nat): Entry {
    if f in mem && i < |mem[f]| then mem[f][i] else UNUSED
  }

  /** The walk of the memory management unit. */
  function Node(mem: Memory, root: Frame, p: Path): Option<Frame>
    decreases |p|
  {
    if p == [] then Some(root)
    else
      match Node(mem, root, p[..|p| - 1])
      case None => None
      case Some(f) => FrameOf(EntryIn(mem, f, p[|p| - 1]))
  }

  /** The entry a walk ends with; unused when it does not get that far. */
  ghost function EntryOn(mem: Memory, root: Frame, p: Path): Entry
    requires p != []
  {
    match Node(mem, root, p[..|p| - 1])
    case None => UNUSED
    case Some(f) => EntryIn(mem, f, p[|p| - 1])
  }

  /** What the processor lets a walk do: the flags common to all the entries it passes. */
  ghost function Access(mem: Memory, root: Frame, p: Path): bv64 {
    if p == [] then 0xFFFF_FFFF_FFFF_FFFF else Access(mem, root, p[..|p| - 1]) & FlagsOf(EntryOn(mem, root, p))
  }

  /** A walk grants a right exactly when every entry on it does. */
  lemma {:induction false} AccessMeans(mem: Memory, root: Frame, p: Path, right: bv64)
    ensures Contains(Access(mem, root, p), right) <==>
              forall k :: 1 <= k <= |p| ==> Contains(FlagsOf(EntryOn(mem, root, p[..k])), right)
  {
    hide FlagsOf, EntryOn, Contains;
    ContainsSelf(right);
    if p != [] {
      var front := p[..|p| - 1];
      AccessMeans(mem, root, front, right);
      ContainsBoth(Access(mem, root, front), FlagsOf(EntryOn(mem, root, p)), right);
      assert p[..|p|] == p && forall k :: 1 <= k < |p| ==> front[..k] == p[..k];
    }
  }

  /** Entries that only gain flags take no right away. */
  lemma {:induction false} AccessGrows(mem: Memory, mem': Memory, root: Frame, p: Path)
    requires forall k :: 1 <= k <= |p| ==>
               Contains(FlagsOf(EntryOn(mem', root, p[..k])), FlagsOf(EntryOn(mem, root, p[..k])))
    ensures Contains(Access(mem', root, p), Access(mem, root, p))
  {
    hide FlagsOf, EntryOn, Contains;
    if p == [] {
      ContainsSelf(Access(mem, root, p));
    } else {
      var front := p[..|p| - 1];
      assert p[..|p|] == p && forall k :: 1 <= k < |p| ==> front[..k] == p[..k];
      AccessGrows(mem, mem', root, front);
      ContainsPairs(Access(mem, root, front), FlagsOf(EntryOn(mem, root, p)),
                    Access(mem', root, front), FlagsOf(EntryOn(mem', root, p)));
    }
  }

  ghost predicate IsTable(mem: Memory, f: Frame) {
    f in mem && |mem[f]| == ENTRIES
  }

  ghost predicate Intermediate(mem: Memory, root: Frame, p: Path)
    requires p != []
  {
    EntryOn(mem, root, p) != UNUSED ==> Node(mem, root, p).Some? && !Contains(FlagsOf(EntryOn(mem, root, p)), HUGE_PAGE)
  }

  /** Tables form a tree: no frame is reached twice, and nothing is huge. */
  ghost predicate Shape(mem: Memory, root: Frame) {
    && (forall p: Path :: |p| <= 3 && Node(mem, root, p).Some? ==> IsTable(mem, Node(mem, root, p).value))
    && (forall p: Path, q: Path ::
          |p| <= 3 && |q| <= 3 && Node(mem, root, p).Some? && Node(mem, root, p) == Node(mem, root, q) ==> p == q)
    && (forall p: Path :: 1 <= |p| <= 3 ==> Intermediate(mem, root, p))
  }

  ghost predicate NotTable(mem: Memory, root: Frame, z: Frame) {
    forall p: Path :: |p| <= 3 ==> Node(mem, root, p) != Some(z)
  }

  function Write(mem: Memory, f: Frame, i: nat, e: Entry): Memory
    requires f in mem && i < |mem[f]|
  {
    mem[f := mem[f][i := e]]
  }

  // --------------------------------------------------------------------- one write

  /** The walk `q` goes from the table at `p` through its entry `i`. */
  predicate Passes(p: Path, i: nat, q: Path) {
    |q| > |p| && q[|p|] == i && q[..|p|] == p
  }

  /** Walks that do not pass the written entry are as before. */
  lemma {:induction false} WriteElsewhere(mem: Memory, root: Frame, p: Path, f: Frame, i: nat, e: Entry, q: Path)
    requires Shape(mem, root) && |p| <= 3 && Node(mem, root, p) == Some(f) && IsTable(mem, f) && i < ENTRIES
    requires |q| <= 4 && !Passes(p, i, q)
    ensures Node(Write(mem, f, i, e), root, q) == Node(mem, root, q)
    ensures q != [] ==> EntryOn(Write(mem, f, i, e), root, q) == EntryOn(mem, root, q)
    decreases |q|
  {
    hide FrameOf, Shape;
    if q != [] {
      var q0 := q[..|q| - 1];
      assert |p| < |q| ==> q0[..|p|] == q[..|p|];
      WriteElsewhere(mem, root, p, f, i, e, q0);
      if Node(mem, root, q0) == Some(f) {
        OnePathOnly(mem, root, p, q0);
      }
    }
  }

  lemma OnePathOnly(mem: Memory, root: Frame, p: Path, q: Path)
    requires Shape(mem, root) && |p| <= 3 && |q| <= 3 && Node(mem, root, p).Some?
             && Node(mem, root, p) == Node(mem, root, q)
    ensures p == q
  {
    hide Node, EntryOn, Intermediate;
  }

  lemma WriteHere(mem: Memory, root: Frame, p: Path, f: Frame, i: nat, e: Entry)
    requires Shape(mem, root) && |p| <= 3 && Node(mem, root, p) == Some(f) && IsTable(mem, f) && i < ENTRIES
    ensures Node(Write(mem, f, i, e), root, p) == Some(f)
    ensures EntryOn(Write(mem, f, i, e), root, p + [i]) == e && Node(Write(mem, f, i, e), root, p + [i]) == FrameOf(e)
  {
    hide FrameOf, Shape;
    WriteElsewhere(mem, root, p, f, i, e, p);
    assert (p + [i])[..|p|] == p;
  }

  lemma TablesStay(mem: Memory, f: Frame, i: nat, e: Entry, g: Frame)
    requires f in mem && i < |mem[f]|
    ensures IsTable(Write(mem, f, i, e), g) <==> IsTable(mem, g)
  {
  }

  /** Writing a leaf changes the translation of that page alone. */
  lemma WriteLeaf(mem: Memory, root: Frame, p: Path, f: Frame, i: nat, e: Entry)
    requires Shape(mem, root) && |p| == 3 && Node(mem, root, p) == Some(f) && IsTable(mem, f) && i < ENTRIES
    ensures Shape(Write(mem, f, i, e), root)
    ensures forall q: Path :: |q| <= 4 && q != p + [i] ==> Node(Write(mem, f, i, e), root, q) == Node(mem, root, q)
    ensures forall q: Path :: 1 <= |q| <= 4 && q != p + [i] ==>
              EntryOn(Write(mem, f, i, e), root, q) == EntryOn(mem, root, q)
  {
    hide FrameOf, Shape, Node, EntryOn;
    var mem' := Write(mem, f, i, e);
    forall q: Path | |q| <= 4 && q != p + [i]
      ensures Node(mem', root, q) == Node(mem, root, q) && (q != [] ==> EntryOn(mem', root, q) == EntryOn(mem, root, q))
    {
      assert Passes(p, i, q) ==> q == p + [i];
      WriteElsewhere(mem, root, p, f, i, e, q);
    }
    forall q: Path | 1 <= |q| <= 3 ensures Intermediate(mem', root, q) {
      ShapeAt(mem, root, q);
    }
    SameNodesShape(mem, mem', root, f, i, e);
  }

  lemma ShapeAt(mem: Memory, root: Frame, q: Path)
    requires Shape(mem, root) && 1 <= |q| <= 3
    ensures Intermediate(mem, root, q)
  {
    hide Node, EntryOn, Intermediate;
  }

  lemma SameNodesShape(mem: Memory, mem': Memory, root: Frame, f: Frame, i: nat, e: Entry)
    requires Shape(mem, root) && f in mem && i < |mem[f]| && mem' == Write(mem, f, i, e)
    requires forall q: Path :: |q| <= 3 ==> Node(mem', root, q) == Node(mem, root, q)
    requires forall q: Path :: 1 <= |q| <= 3 ==> Intermediate(mem', root, q)
    ensures Shape(mem', root)
  {
    hide FrameOf, Node, EntryOn, Intermediate;
    forall p: Path | |p| <= 3 && Node(mem', root, p).Some? ensures IsTable(mem', Node(mem', root, p).value) {
      TablesStay(mem, f, i, e, Node(mem, root, p).value);
    }
  }

  /** Rewriting an entry with the same frame changes no walk. */
  lemma {:induction false} SameFrameNode(mem: Memory, root: Frame, p: Path, f: Frame, i: nat, e: Entry, q: Path)
    requires Shape(mem, root) && |p| <= 3 && Node(mem, root, p) == Some(f) && IsTable(mem, f) && i < ENTRIES
    requires FrameOf(e) == FrameOf(mem[f][i]) && |q| <= 4
    ensures Node(Write(mem, f, i, e), root, q) == Node(mem, root, q)
    ensures q != [] && q != p + [i] ==> EntryOn(Write(mem, f, i, e), root, q) == EntryOn(mem, root, q)
    decreases |q|
  {
    hide FrameOf, Shape;
    if q != [] {
      var q0 := q[..|q| - 1];
      SameFrameNode(mem, root, p, f, i, e, q0);
      if Node(mem, root, q0) == Some(f) {
        OnePathOnly(mem, root, p, q0);
        assert q == p + [q[|q| - 1]];
      }
    }
  }

  lemma WriteSameFrame(mem: Memory, root: Frame, p: Path, f: Frame, i: nat, e: Entry)
    requires Shape(mem, root) && |p| <= 2 && Node(mem, root, p) == Some(f) && IsTable(mem, f) && i < ENTRIES
    requires FrameOf(e) == FrameOf(mem[f][i]) && FrameOf(e).Some? && !Contains(FlagsOf(e), HUGE_PAGE)
    ensures Shape(Write(mem, f, i, e), root)
    ensures forall q: Path :: |q| <= 4 ==> Node(Write(mem, f, i, e), root, q) == Node(mem, root, q)
    ensures forall q: Path :: 1 <= |q| <= 4 && q != p + [i] ==>
              EntryOn(Write(mem, f, i, e), root, q) == EntryOn(mem, root, q)
  {
    hide FrameOf, FlagsOf, Contains, Shape, Node, EntryOn;
    var mem' := Write(mem, f, i, e);
    forall q: Path | |q| <= 4
      ensures Node(mem', root, q) == Node(mem, root, q)
      ensures q != [] && q != p + [i] ==> EntryOn(mem', root, q) == EntryOn(mem, root, q)
    {
      SameFrameNode(mem, root, p, f, i, e, q);
    }
    forall q: Path | 1 <= |q| <= 3 ensures Intermediate(mem', root, q) {
      if q == p + [i] {
        WriteHere(mem, root, p, f, i, e);
      } else {
        ShapeAt(mem, root, q);
      }
    }
    SameNodesShape(mem, mem', root, f, i, e);
  }

  // ------------------------------------------------------------- frames outside the tree

  /** Memory of a frame that is no table does not matter to any walk. */
  lemma {:induction false} OutsideNode(mem: Memory, root: Frame, z: Frame, b: seq<Entry>, q: Path)
    requires NotTable(mem, root, z) && |q| <= 4
    ensures Node(mem[z := b], root, q) == Node(mem, root, q)
    ensures q != [] ==> EntryOn(mem[z := b], root, q) == EntryOn(mem, root, q)
    decreases |q|
  {
    hide FrameOf;
    if q != [] {
      OutsideNode(mem, root, z, b, q[..|q| - 1]);
    }
  }

  lemma WriteOutside(mem: Memory, root: Frame, z: Frame, b: seq<Entry>)
    requires Shape(mem, root) && NotTable(mem, root, z)
    ensures Shape(mem[z := b], root) && NotTable(mem[z := b], root, z)
    ensures forall q: Path :: |q| <= 4 ==> Node(mem[z := b], root, q) == Node(mem, root, q)
    ensures forall q: Path :: 1 <= |q| <= 4 ==> EntryOn(mem[z := b], root, q) == EntryOn(mem, root, q)
  {
    hide FrameOf, FlagsOf, Contains, Node, EntryOn;
    forall q: Path | |q| <= 4
      ensures Node(mem[z := b], root, q) == Node(mem, root, q)
      ensures q != [] ==> EntryOn(mem[z := b], root, q) == EntryOn(mem, root, q)
    {
      OutsideNode(mem, root, z, b, q);
    }
    forall q: Path | 1 <= |q| <= 3 ensures Intermediate(mem[z := b], root, q) {
      ShapeAt(mem, root, q);
    }
  }

  // ------------------------------------------------------------------ linking a table

  function Blank(): (b: seq<Entry>)
    ensures |b| == ENTRIES && forall i :: 0 <= i < ENTRIES ==> b[i] == UNUSED
  {
    seq(ENTRIES, _ => UNUSED)
  }

  /** Linking a blank frame adds its node; every other walk is as before. */
  lemma {:induction false} LinkNode(mem: Memory, root: Frame, p: Path, f: Frame, i: nat, z: Frame, e: Entry, q: Path)
    requires Shape(mem, root) && NotTable(mem, root, z) && z in mem && mem[z] == Blank()
    requires |p| <= 2 && Node(mem, root, p) == Some(f) && IsTable(mem, f) && i < ENTRIES && f != z
    requires mem[f][i] == UNUSED && FrameOf(e) == Some(z) && |q| <= 4
    ensures Node(Write(mem, f, i, e), root, q) == if q == p + [i] then Some(z) else Node(mem, root, q)
    ensures q != [] && q != p + [i] ==> EntryOn(Write(mem, f, i, e), root, q) == EntryOn(mem, root, q)
    decreases |q|
  {
    hide FrameOf, Shape, NotTable;
    if !Passes(p, i, q) {
      WriteElsewhere(mem, root, p, f, i, e, q);
    } else if |q| == |p| + 1 {
      assert q == p + [i];
      WriteHere(mem, root, p, f, i, e);
    } else {
      var q0 := q[..|q| - 1];
      assert q0[..|p|] == q[..|p|];
      LinkNode(mem, root, p, f, i, z, e, q0);
      UnusedHasNoFrame();
      NothingBelow(mem, root, p, f, i, q0);
      assert q0 == p + [i] ==> EntryIn(Write(mem, f, i, e), z, q[|q| - 1]) == UNUSED;
    }
  }

  /** Below an unused entry there is no node. */
  lemma NothingBelow(mem: Memory, root: Frame, p: Path, f: Frame, i: nat, q: Path)
    requires Node(mem, root, p) == Some(f) && IsTable(mem, f) && i < ENTRIES && mem[f][i] == UNUSED
    requires Passes(p, i, q)
    ensures Node(mem, root, q) == None
  {
    hide FrameOf;
    UnusedHasNoFrame();
    assert q[..|p| + 1] == p + [i] && (p + [i])[..|p|] == p;
    if Node(mem, root, q).Some? {
      PrefixNode(mem, root, q, |p| + 1);
    }
  }

  lemma LinkTable(mem: Memory, root: Frame, p: Path, f: Frame, i: nat, z: Frame, e: Entry)
    requires Shape(mem, root) && NotTable(mem, root, z) && z in mem && mem[z] == Blank()
    requires |p| <= 2 && Node(mem, root, p) == Some(f) && IsTable(mem, f) && i < ENTRIES
    requires mem[f][i] == UNUSED && FrameOf(e) == Some(z) && !Contains(FlagsOf(e), HUGE_PAGE)
    ensures Shape(Write(mem, f, i, e), root)
    ensures forall q: Path :: |q| <= 4 ==>
              Node(Write(mem, f, i, e), root, q) == if q == p + [i] then Some(z) else Node(mem, root, q)
    ensures forall q: Path :: 1 <= |q| <= 4 && q != p + [i] ==>
              EntryOn(Write(mem, f, i, e), root, q) == EntryOn(mem, root, q)
  {
    hide FrameOf, FlagsOf, Contains, Shape, Node, EntryOn;
    var mem' := Write(mem, f, i, e);
    assert f != z;
    forall q: Path | |q| <= 4
      ensures Node(mem', root, q) == if q == p + [i] then Some(z) else Node(mem, root, q)
      ensures q != [] && q != p + [i] ==> EntryOn(mem', root, q) == EntryOn(mem, root, q)
    {
      LinkNode(mem, root, p, f, i, z, e, q);
    }
    WriteHere(mem, root, p, f, i, e);
    LinkShape(mem, mem', root, p, f, i, z, e);
  }

  lemma LinkShape(mem: Memory, mem': Memory, root: Frame, p: Path, f: Frame, i: nat, z: Frame, e: Entry)
    requires Shape(mem, root) && NotTable(mem, root, z) && IsTable(mem, z)
    requires |p| <= 2 && f in mem && i < |mem[f]| && mem' == Write(mem, f, i, e)
    requires !Contains(FlagsOf(e), HUGE_PAGE) && EntryOn(mem', root, p + [i]) == e
    requires forall q: Path :: |q| <= 4 ==> Node(mem', root, q) == if q == p + [i] then Some(z) else Node(mem, root, q)
    requires forall q: Path :: 1 <= |q| <= 4 && q != p + [i] ==> EntryOn(mem', root, q) == EntryOn(mem, root, q)
    ensures Shape(mem', root)
  {
    hide FrameOf, FlagsOf, Contains, Node, EntryOn;
    forall q: Path | |q| <= 3 && Node(mem', root, q).Some? ensures IsTable(mem', Node(mem', root, q).value) {
      TablesStay(mem, f, i, e, Node(mem', root, q).value);
    }
    forall q: Path | 1 <= |q| <= 3 ensures Intermediate(mem', root, q) {
      if q != p + [i] {
        ShapeAt(mem, root, q);
      }
    }
  }

  /** A walk that gets somewhere got through each of its steps. */
  lemma {:induction false} PrefixNode(mem: Memory, root: Frame, q: Path, k: nat)
    requires k <= |q| && Node(mem, root, q).Some?
    ensures Node(mem, root, q[..k]).Some?
    decreases |q|
  {
    if k < |q| {
      PrefixNode(mem, root, q[..|q| - 1], k);
      assert q[..|q| - 1][..k] == q[..k];
    } else {
      assert q[..k] == q;
    }
  }
}
