/** Walking the directories of a volume by name. */
module Walking {

  import opened Base
  import opened Slots
  import opened Ownership
  import opened ShortNames
  import opened DirectoryParser
  import opened DirectoryEdits
  import opened ClusterData
  import opened FatVolume
  import opened Forest
  import opened TreeEdits
  import opened TreeOps
  import opened VolumeState
  import opened ResizeState
  import opened FileResize
  import opened DirectorySlots
  import opened Lookup
  import opened Paths

  // ------------------------------------------------------------------ one component

  ghost predicate DirectoryNamed(e: Entry, name: string) {
    IsDirectory(e.slot) && EqIgnoreCase(e.name, name)
  }

  /** Where the first directory listed under `name` leads. */
  ghost function DirectoryIn(root: nat, es: seq<Entry>, name: string): Option<nat> {
    if es == [] then None
    else if DirectoryNamed(es[0], name) then Some(Leads(root, es[0].slot))
    else DirectoryIn(root, es[1..], name)
  }

  ghost function LookIn(root: nat, sl: View): Look {
    (d: nat, name: string) => if d in sl then DirectoryIn(root, Listing(sl[d]), name) else None
  }

  ghost function LookOf(v: Volume): Look
    reads v
  {
    LookIn(v.rootCluster, ViewOf(v.disk, v.layout))
  }

  lemma {:induction false} DirectoryInFinds(root: nat, es: seq<Entry>, name: string) returns (j: nat)
    requires DirectoryIn(root, es, name).Some?
    ensures j < |es| && DirectoryNamed(es[j], name) && DirectoryIn(root, es, name) == Some(Leads(root, es[j].slot))
  {
    hide DirectoryNamed, Leads;
    if DirectoryNamed(es[0], name) {
      j := 0;
    } else {
      j := DirectoryInFinds(root, es[1..], name);
      j := j + 1;
    }
  }

  // ---------------------------------------------------------------- what the tree gives

  /** A live directory entry leads to a directory of the tree. */
  lemma EntryLeads(root: nat, clusterSize: nat, sl: View, l: Layout, d: nat, i: nat)
    requires Tree(root, clusterSize, sl, l) && d in sl && Live(sl[d], i) && i < |sl[d]| && IsDirectory(sl[d][i])
    ensures Leads(root, sl[d][i]) in sl
    ensures var s := sl[d][i];
            if IsDotName(Name(s)) then
              d != root && i == (if Name(s) == DotName(false) then 0 else 1)
              && d in l.holder && Leads(root, s) == (if Name(s) == DotName(false) then d else l.holder[d].dir)
            else Leads(root, s) in l.holder && l.holder[Leads(root, s)] == Place(d, i) && Leads(root, s) != root
  {
    hide Live, Shaped, Dots, IsDirectory, Name, IsDotName, SizeOk, Cluster, Held;
    assert EntryOk(l, clusterSize, Place(d, i), sl[d][i]);
    HolderAbove(root, clusterSize, sl, l, d);
    if !IsDotName(Name(sl[d][i])) {
      OwnerLeads(root, clusterSize, sl, l, d, i);
    }
  }

  lemma OwnerLeads(root: nat, clusterSize: nat, sl: View, l: Layout, d: nat, i: nat)
    requires Tree(root, clusterSize, sl, l) && d in sl && Live(sl[d], i) && i < |sl[d]| && IsDirectory(sl[d][i])
    requires !IsDotName(Name(sl[d][i]))
    ensures var f := Cluster(sl[d][i]); f != 0 && f in l.holder && l.holder[f] == Place(d, i) && f in sl && f != root
  {
    hide Live, Shaped, Dots, IsNormal, Name, IsDotName, SizeOk, Cluster, Held;
    assert EntryOk(l, clusterSize, Place(d, i), sl[d][i]);
    OwnerHolds(root, clusterSize, sl, l, d, i);
  }

  lemma DotTexts()
    ensures ShortText(DotName(false)) == HERE && ShortText(DotName(true)) == UP
  {
    var a, b := DotName(false), DotName(true);
    assert TrimEnd(a[..8]) == [0x2E] by { TrimField([0x2E], 8); assert a[..8] == Field([0x2E], 8); }
    assert TrimEnd(b[..8]) == [0x2E, 0x2E] by { TrimField([0x2E, 0x2E], 8); assert b[..8] == Field([0x2E, 0x2E], 8); }
    assert TrimEnd(a[8..]) == [] by { TrimField([], 3); assert a[8..] == Field([], 3); }
    assert b[8..] == a[8..];
  }

  /** The two dot entries open the listing, under their own names. */
  lemma DotsListed(ss: seq<Slot>)
    requires Dots(ss)
    ensures |Listing(ss)| >= 2
    ensures Listing(ss)[0].slot == ss[0] && Listing(ss)[0].name == HERE
    ensures Listing(ss)[1].slot == ss[1] && Listing(ss)[1].name == UP
  {
    hide EntryAt, IsShortEntry, IsDirectory, Name, DotName, ShortText;
    EntriesSplit(ss, 0, 2, End(ss));
    EntriesSplit(ss, 0, 1, 2);
    assert Entries(ss, 0, 1) == Entries(ss, 0, 0) + [EntryAt(ss, 0)];
    assert Entries(ss, 1, 2) == Entries(ss, 1, 1) + [EntryAt(ss, 1)];
    BarrierName(ss, 0);
    BarrierName(ss, 1);
    DotTexts();
  }

  lemma BarrierName(ss: seq<Slot>, i: nat)
    requires i < |ss| && (i > 0 ==> IsShortEntry(ss[i - 1]))
    ensures EntryAt(ss, i).name == ShortText(Name(ss[i]))
  {
    assert forall k: nat :: Group(ss, i, k) ==> Member(ss[i - 1], 1, k, Checksum(Name(ss[i])));
  }

  /** No directory of the root is listed as `.`. */
  ghost predicate NoNamedDot(root: nat, sl: View) {
    root in sl ==> DirectoryIn(root, Listing(sl[root]), HERE).None?
  }

  lemma DotsLookup(root: nat, clusterSize: nat, sl: View, l: Layout, d: nat)
    requires Tree(root, clusterSize, sl, l) && d in sl && d != root
    ensures DirectoryIn(root, Listing(sl[d]), HERE) == Some(d)
    ensures d in l.holder && DirectoryIn(root, Listing(sl[d]), UP) == Some(l.holder[d].dir)
  {
    hide Listing, Live, Shaped, EntriesOk, AllHeld, IsDirectory, Leads, Name, DotName;
    assert DirOk(root, sl, l, d);
    var ss := sl[d];
    DotsListed(ss);
    DotsLead(root, clusterSize, sl, l, d);
    var es := Listing(ss);
    assert es[1..][0] == es[1];
    assert EqIgnoreCase(HERE, HERE) && EqIgnoreCase(UP, UP) && !EqIgnoreCase(HERE, UP);
  }

  lemma DotsLead(root: nat, clusterSize: nat, sl: View, l: Layout, d: nat)
    requires Tree(root, clusterSize, sl, l) && d in sl && d != root && d in l.holder && Dots(sl[d])
    ensures Leads(root, sl[d][0]) == d && Leads(root, sl[d][1]) == l.holder[d].dir
  {
    hide Tree, Live, Leads, IsDirectory, Name;
    assert DotName(true)[1] != DotName(false)[1];
    EntryLeads(root, clusterSize, sl, l, d, 0);
    EntryLeads(root, clusterSize, sl, l, d, 1);
  }

  /** Every lookup stays in the tree and `..` leads back from it, exactly when the root lists no directory as `.`. */
  lemma TreeIsFaithful(root: nat, clusterSize: nat, sl: View, l: Layout)
    requires Tree(root, clusterSize, sl, l)
    ensures Faithful(LookIn(root, sl), sl.Keys) <==> NoNamedDot(root, sl)
  {
    hide Faithful, NoNamedDot;
    if NoNamedDot(root, sl) {
      LookupsAreFaithful(root, clusterSize, sl, l);
    } else {
      NamedDotLeadsAway(root, clusterSize, sl, l);
      AwayIsUnfaithful(LookIn(root, sl), sl.Keys, root);
    }
  }

  lemma AwayIsUnfaithful(look: Look, dirs: set<nat>, root: nat)
    requires root in dirs && look(root, HERE).Some? && look(root, HERE) != Some(root)
    ensures !Faithful(look, dirs)
  {
    var c := look(root, HERE).value;
    assert look(root, HERE) == Some(c);
  }

  /** A directory the root lists as `.` is another one. */
  lemma NamedDotLeadsAway(root: nat, clusterSize: nat, sl: View, l: Layout)
    requires Tree(root, clusterSize, sl, l) && !NoNamedDot(root, sl)
    ensures root in sl && LookIn(root, sl)(root, HERE).Some? && LookIn(root, sl)(root, HERE) != Some(root)
  {
    hide Tree, DirectoryIn, Listing, Live, EntryAt, Leads, IsDirectory, EqIgnoreCase, Name, DotName;
    var ss := sl[root];
    var j := DirectoryInFinds(root, Listing(ss), HERE);
    ListingAt(ss, j);
    EntryLeads(root, clusterSize, sl, l, root, Listing(ss)[j].index);
  }

  /** Normalising a path never changes where a walk that succeeds ends. */
  ghost predicate Agrees(look: Look, dirs: set<nat>) {
    forall start, cs :: start in dirs && RawWalk(look, start, cs).Some? ==>
      Walk(look, start, Normalize(cs)) == RawWalk(look, start, cs)
  }

  /** Normalisation agrees with the raw walk on every path exactly when the root lists no directory as `.`. */
  lemma NormalisationExact(root: nat, clusterSize: nat, sl: View, l: Layout)
    requires Tree(root, clusterSize, sl, l)
    ensures Agrees(LookIn(root, sl), sl.Keys) <==> NoNamedDot(root, sl)
  {
    hide Tree, Faithful, NoNamedDot, Normalize, RawWalk, Walk, LookIn;
    var look := LookIn(root, sl);
    TreeIsFaithful(root, clusterSize, sl, l);
    if NoNamedDot(root, sl) {
      forall start, cs | start in sl.Keys && RawWalk(look, start, cs).Some?
        ensures Walk(look, start, Normalize(cs)) == RawWalk(look, start, cs)
      {
        WalkNormalized(look, sl.Keys, start, cs);
      }
    } else {
      NamedDotLeadsAway(root, clusterSize, sl, l);
      DotWalk(look, root);
    }
  }

  /** The path `.` is walked raw, but normalised away. */
  lemma DotWalk(look: Look, start: nat)
    ensures RawWalk(look, start, [HERE]) == look(start, HERE)
    ensures Walk(look, start, Normalize([HERE])) == Some(start)
  {
    assert [HERE][..0] == [];
    assert RawWalk(look, start, []) == Some(start);
    assert PushAll([], [HERE]) == Push(PushAll([], []), HERE);
    assert Normalize([HERE]) == [];
  }

  lemma LookupsAreFaithful(root: nat, clusterSize: nat, sl: View, l: Layout)
    requires Tree(root, clusterSize, sl, l) && NoNamedDot(root, sl)
    ensures Faithful(LookIn(root, sl), sl.Keys)
  {
    hide Tree, DirectoryIn, Listing;
    var look := LookIn(root, sl);
    forall d, c, n | d in sl && look(d, n) == Some(c)
      ensures c in sl && (n == HERE ==> c == d) && (IsPlain(n) ==> look(c, UP) == Some(d))
    {
      LookupStep(root, clusterSize, sl, l, d, c, n);
    }
  }

  lemma LookupStep(root: nat, clusterSize: nat, sl: View, l: Layout, d: nat, c: nat, n: string)
    requires Tree(root, clusterSize, sl, l) && NoNamedDot(root, sl)
    requires d in sl && DirectoryIn(root, Listing(sl[d]), n) == Some(c)
    ensures c in sl && (n == HERE ==> c == d)
    ensures IsPlain(n) ==> DirectoryIn(root, Listing(sl[c]), UP) == Some(d)
  {
    hide Tree, DirectoryIn, Listing, Live, EntryAt, Leads, IsDirectory, EqIgnoreCase, Dots, Name, DotName;
    var ss := sl[d];
    var j := DirectoryInFinds(root, Listing(ss), n);
    ListingAt(ss, j);
    var i := Listing(ss)[j].index;
    EntryLeads(root, clusterSize, sl, l, d, i);
    if d != root {
      DotsLookup(root, clusterSize, sl, l, d);
    }
    if IsPlain(n) {
      PlainIsNotDot(root, clusterSize, sl, l, d, i, n);
      DotsLookup(root, clusterSize, sl, l, c);
    }
  }

  /** An entry found under a plain name is not a dot entry. */
  lemma PlainIsNotDot(root: nat, clusterSize: nat, sl: View, l: Layout, d: nat, i: nat, n: string)
    requires Tree(root, clusterSize, sl, l) && d in sl && Live(sl[d], i) && i < |sl[d]|
    requires DirectoryNamed(EntryAt(sl[d], i), n) && IsPlain(n)
    ensures !IsDotName(Name(sl[d][i]))
  {
    hide Tree, Live, EntryAt, Leads, IsDirectory, Name, DotName, EqIgnoreCase;
    if IsDotName(Name(sl[d][i])) {
      EntryLeads(root, clusterSize, sl, l, d, i);
      DotEntryName(root, clusterSize, sl, l, d, i);
      SameText(HERE, n);
      SameText(UP, n);
    }
  }

  lemma SameText(dots: string, n: string)
    requires dots == HERE || dots == UP
    ensures EqIgnoreCase(dots, n) ==> dots == n
  {
  }

  lemma DotEntryName(root: nat, clusterSize: nat, sl: View, l: Layout, d: nat, i: nat)
    requires Tree(root, clusterSize, sl, l) && d in sl && d != root && Live(sl[d], i) && i < |sl[d]| && i < 2
    ensures EntryAt(sl[d], i).name == HERE || EntryAt(sl[d], i).name == UP
  {
    hide EntriesOk, AllHeld, Shaped, Live, EntryAt, IsDirectory, Listing, Name, Dots;
    assert DirOk(root, sl, l, d);
    DotNames(sl[d]);
    assert i == 0 || i == 1;
  }

  lemma DotNames(ss: seq<Slot>)
    requires Dots(ss)
    ensures EntryAt(ss, 0).name == HERE && EntryAt(ss, 1).name == UP
  {
    hide EntryAt, IsDirectory, Name, DotName, ShortText;
    BarrierName(ss, 0);
    BarrierName(ss, 1);
    DotTexts();
  }

  // ------------------------------------------------------------------------ the walk

  /** The first listed directory of that name, as its first cluster. */
  method FindDirectory(v: Volume, dirCluster: nat, name: string) returns (r: Option<nat>)
    requires Good(v) && dirCluster in v.layout.dirs
    ensures r.Some? ==> r.value in v.layout.dirs
    ensures r.Some? || v.reliable ==> r == LookOf(v)(dirCluster, name)
  {
    hide Consistent, DirSlots, DirLocations, Listing, Located, IsDirectory, EqIgnoreCase, Cluster;
    var parsed := ReadEntries(v, dirCluster);
    if parsed.None? {
      return None;
    }
    ghost var es, root := ListingOf(v, dirCluster), v.rootCluster;
    ParsedEntries(v, dirCluster, parsed.value);
    LookHere(v, dirCluster, name);
    assert es[0..] == es;
    var j := 0;
    while j < |parsed.value|
      invariant 0 <= j <= |parsed.value| == |es|
      invariant DirectoryIn(root, es, name) == DirectoryIn(root, es[j..], name)
    {
      assert parsed.value[j].name == es[j].name && parsed.value[j].entry == es[j].slot;
      assert es[j..][0] == es[j] && es[j..][1..] == es[j + 1..];
      if IsDirectory(parsed.value[j].entry) && EqIgnoreCase(parsed.value[j].name, name) {
        FoundInTree(v, dirCluster, name);
        return Some(if Cluster(parsed.value[j].entry) == 0 then v.rootCluster else Cluster(parsed.value[j].entry));
      }
      j := j + 1;
    }
    return None;
  }

  lemma ParsedEntries(v: Volume, d: nat, parsed: seq<LocatedEntry>)
    requires d in v.layout.chains
    requires Located(ListingOf(v, d), DirLocations(v.layout.chains[d], v.clusterSize / SLOT_SIZE), parsed)
    ensures |parsed| == |ListingOf(v, d)|
    ensures forall j :: 0 <= j < |parsed| ==>
              parsed[j].name == ListingOf(v, d)[j].name && parsed[j].entry == ListingOf(v, d)[j].slot
  {
    hide DirSlots, DirLocations, Listing, EntryAt, IsEntry;
    forall j | 0 <= j < |parsed| ensures parsed[j].name == ListingOf(v, d)[j].name
      && parsed[j].entry == ListingOf(v, d)[j].slot {
      LocatedIsEntry(v, d, parsed, j);
    }
  }

  lemma LookHere(v: Volume, d: nat, name: string)
    requires Good(v) && d in v.layout.dirs
    ensures LookOf(v)(d, name) == DirectoryIn(v.rootCluster, ListingOf(v, d), name)
  {
    hide Tree, DirSlots, DirectoryIn, Listing, Owned, Formatted;
    TreeKeys(v.rootCluster, v.clusterSize, ViewOf(v.disk, v.layout), v.layout);
  }

  lemma FoundInTree(v: Volume, d: nat, name: string)
    requires Good(v) && d in v.layout.dirs
    ensures LookOf(v)(d, name).Some? ==> LookOf(v)(d, name).value in v.layout.dirs
  {
    hide Tree, DirSlots, DirectoryIn, Listing, Owned, Formatted, EntryAt, Live, Leads;
    var sl := ViewOf(v.disk, v.layout);
    TreeKeys(v.rootCluster, v.clusterSize, sl, v.layout);
    if LookOf(v)(d, name).Some? {
      var j := DirectoryInFinds(v.rootCluster, Listing(sl[d]), name);
      ListingAt(sl[d], j);
      EntryLeads(v.rootCluster, v.clusterSize, sl, v.layout, d, Listing(sl[d])[j].index);
    }
  }

  lemma {:induction false} WalkFront(look: Look, start: nat, cs: seq<string>)
    requires cs != []
    ensures Walk(look, start, cs) == match look(start, cs[0]) case None => None case Some(d) => Walk(look, d, cs[1..])
  {
    var front := cs[..|cs| - 1];
    if |cs| > 1 {
      WalkFront(look, start, front);
      assert front[0] == cs[0] && front[1..] == cs[1..][..|cs| - 2];
    }
  }

  method FindDirectoryComponents(v: Volume, dirCluster: nat, components: seq<string>) returns (r: Option<nat>)
    requires Good(v) && dirCluster in v.layout.dirs
    ensures components == [] ==> r.None?
    ensures r.Some? ==> r.value in v.layout.dirs
    ensures components != [] && (r.Some? || v.reliable) ==> r == Walk(LookOf(v), dirCluster, components)
    decreases |components|
  {
    hide Consistent, LookOf;
    if components == [] {
      return None;
    }
    WalkFront(LookOf(v), dirCluster, components);
    var next := FindDirectory(v, dirCluster, components[0]);
    if next.None? {
      return None;
    }
    if |components| == 1 {
      return next;
    }
    r := FindDirectoryComponents(v, next.value, components[1..]);
  }

  /**
    Resolves an absolute or relative path. Whenever the walk the path spells
    out succeeds, the result is where it ends.
   */
  method FindDirectoryFromPath(v: Volume, cwd: nat, path: string) returns (r: Option<nat>)
    requires Good(v) && cwd in v.layout.dirs
    ensures r.Some? ==> r.value in v.layout.dirs
    ensures r.Some? || v.reliable ==> r == Resolved(LookOf(v), v.rootCluster, cwd, path)
    ensures v.reliable && NoNamedDot(v.rootCluster, ViewOf(v.disk, v.layout)) ==>
              var raw := SpeltOut(LookOf(v), v.rootCluster, cwd, path);
              raw.Some? ==> r == raw
    ensures path == HERE || path == "" ==> r == Some(cwd)
    ensures path == "/" || path == "~" ==> r == Some(v.rootCluster)
  {
    hide Consistent, LookOf, NoNamedDot, Normalize, IsNormalized, Faithful, SpeltOut, Split, RawWalk;
    RootIsDir(v);
    AnchorSpelt(LookOf(v), v.rootCluster, cwd, path);
    NormalizeHere();
    ghost var anchor := Anchor(path, v.rootCluster, cwd);
    ghost var parts := Split(anchor.1);
    if v.reliable && NoNamedDot(v.rootCluster, ViewOf(v.disk, v.layout)) && RawWalk(LookOf(v), anchor.0, parts).Some? {
      LookIsFaithful(v);
      WalkNormalized(LookOf(v), v.layout.dirs, anchor.0, parts);
    }
    var start, rest;
    if path == "/" || path == "~" {
      NormalizeNothing();
      return Some(v.rootCluster);
    } else if HasPrefix(path, "~/") {
      start, rest := v.rootCluster, path[2..];
    } else if HasPrefix(path, "/") {
      start, rest := v.rootCluster, path[1..];
    } else {
      start, rest := cwd, path;
    }
    var components := NormalizePathComponents(rest);
    if components == [] {
      return Some(start);
    }
    r := FindDirectoryComponents(v, start, components);
  }

  lemma NormalizeHere()
    ensures Normalize(Split(HERE)) == [] && Normalize(Split("")) == []
  {
    NormalizeNothing();
    SplitSingle(HERE);
    assert PushAll([], [HERE]) == Push(PushAll([], []), HERE);
  }

  /**
    What changing the directory to `a` and then naming `b` finds. For relative
    paths it is what the one path `a/b` finds.
   */
  method FindBelow(v: Volume, cwd: nat, a: string, b: string) returns (r: Option<nat>)
    requires Good(v) && cwd in v.layout.dirs
    ensures v.reliable && NoNamedDot(v.rootCluster, ViewOf(v.disk, v.layout)) ==>
              IsRelative(a) && a != "" && IsRelative(b) && Resolved(LookOf(v), v.rootCluster, cwd, a).Some? ==>
                r == Resolved(LookOf(v), v.rootCluster, cwd, a + "/" + b)
    ensures r.Some? ==> r.value in v.layout.dirs
  {
    hide Consistent, LookOf, NoNamedDot, Resolved, SpeltOut, IsRelative, Faithful;
    var dir := FindDirectoryFromPath(v, cwd, a);
    if dir.None? {
      return None;
    }
    r := FindDirectoryFromPath(v, dir.value, b);
    if v.reliable && NoNamedDot(v.rootCluster, ViewOf(v.disk, v.layout)) && IsRelative(a) && a != "" && IsRelative(b) {
      LookIsFaithful(v);
      PathsCompose(LookOf(v), v.layout.dirs, v.rootCluster, cwd, a, dir.value, b);
    }
  }

  lemma NormalizeNothing()
    ensures Normalize(Split("")) == []
  {
    assert PushAll([], [""]) == Push(PushAll([], []), "");
  }

  lemma RootIsDir(v: Volume)
    requires Good(v)
    ensures v.rootCluster in v.layout.dirs
  {
    hide Tree;
    TreeKeys(v.rootCluster, v.clusterSize, ViewOf(v.disk, v.layout), v.layout);
  }

  lemma LookIsFaithful(v: Volume)
    requires Good(v) && NoNamedDot(v.rootCluster, ViewOf(v.disk, v.layout))
    ensures Faithful(LookOf(v), v.layout.dirs)
  {
    hide Tree, NoNamedDot, Faithful;
    TreeKeys(v.rootCluster, v.clusterSize, ViewOf(v.disk, v.layout), v.layout);
    TreeIsFaithful(v.rootCluster, v.clusterSize, ViewOf(v.disk, v.layout), v.layout);
  }
}
