/** Path normalisation and the walks it stands for. */
module Paths {

  import opened Base

  const HERE := "."
  const UP := ".."

  // ------------------------------------------------------------------ components

  /** Splits at every '/'; there is always at least one component. */
  function Split(path: string): (parts: seq<string>)
    ensures parts != []
    ensures forall i :: 0 <= i < |parts| ==> '/' !in parts[i]
  {
    if path == "" then [""]
    else
      var last := path[|path| - 1];
      var front := Split(path[..|path| - 1]);
      if last == '/' then front + [""]
      else front[..|front| - 1] + [front[|front| - 1] + [last]]
  }

  function Joined(parts: seq<string>): string
    requires parts != []
  {
    if |parts| == 1 then parts[0] else Joined(parts[..|parts| - 1]) + "/" + parts[|parts| - 1]
  }

  lemma {:induction false} SplitAppend(path: string, part: string)
    requires '/' !in part
    ensures Split(path + "/" + part) == Split(path) + [part]
  {
    var whole := path + "/" + part;
    if part == "" {
      assert whole[..|whole| - 1] == path;
    } else {
      var front := part[..|part| - 1];
      assert whole[..|whole| - 1] == path + "/" + front;
      SplitAppend(path, front);
      assert front + [part[|part| - 1]] == part;
    }
  }

  lemma {:induction false} SplitSingle(part: string)
    requires '/' !in part
    ensures Split(part) == [part]
  {
    if part != "" {
      SplitSingle(part[..|part| - 1]);
      assert part[..|part| - 1] + [part[|part| - 1]] == part;
    }
  }

  /** Joining components and splitting again gives them back. */
  lemma {:induction false} SplitJoined(parts: seq<string>)
    requires parts != [] && forall i :: 0 <= i < |parts| ==> '/' !in parts[i]
    ensures Split(Joined(parts)) == parts
  {
    if |parts| == 1 {
      SplitSingle(parts[0]);
    } else {
      var front := parts[..|parts| - 1];
      SplitJoined(front);
      SplitAppend(Joined(front), parts[|parts| - 1]);
    }
  }

  /** The parts after one more character: a slash opens a new part, anything else lengthens the last. */
  ghost function OneMore(parts: seq<string>, c: char): seq<string>
    requires parts != []
  {
    if c == '/' then parts + [""] else parts[..|parts| - 1] + [parts[|parts| - 1] + [c]]
  }

  lemma SplitOneMore(path: string, c: char)
    ensures Split(path + [c]) == OneMore(Split(path), c)
  {
    assert (path + [c])[..|path|] == path;
  }

  lemma JoinedOneMore(parts: seq<string>, c: char)
    requires parts != []
    ensures OneMore(parts, c) != [] && Joined(OneMore(parts, c)) == Joined(parts) + [c]
  {
    var more, front := OneMore(parts, c), parts[..|parts| - 1];
    if c == '/' {
      assert more[..|more| - 1] == parts;
      assert Joined(parts) + "/" + "" == Joined(parts) + [c];
    } else {
      assert more[..|more| - 1] == front;
      var last := parts[|parts| - 1];
      if front != [] {
        assert Joined(front) + "/" + (last + [c]) == Joined(front) + "/" + last + [c];
      }
    }
  }

  /** Splitting loses nothing: joining the parts gives the text back. */
  lemma {:induction false} JoinedSplit(path: string)
    ensures Joined(Split(path)) == path
  {
    if path != "" {
      var front, last := path[..|path| - 1], path[|path| - 1];
      JoinedSplit(front);
      hide Joined, Split, OneMore;
      assert front + [last] == path;
      SplitOneMore(front, last);
      JoinedOneMore(Split(front), last);
    }
  }

  lemma OneMoreBehind(x: seq<string>, y: seq<string>, c: char)
    requires y != []
    ensures OneMore(x + y, c) == x + OneMore(y, c)
  {
    assert (x + y)[..|x + y| - 1] == x + y[..|y| - 1];
  }

  /** A slash between two paths puts their parts side by side. */
  lemma {:induction false} SplitBoth(a: string, b: string)
    ensures Split(a + "/" + b) == Split(a) + Split(b)
    decreases |b|
  {
    hide OneMore;
    if b == "" {
      assert a + "/" + b == a + "/";
      SplitOneMore(a, '/');
      assert OneMore(Split(a), '/') == Split(a) + [""] by { OneSlash(Split(a)); }
    } else {
      var front, last := b[..|b| - 1], b[|b| - 1];
      hide Split;
      SplitBoth(a, front);
      assert front + [last] == b && (a + "/" + front) + [last] == a + "/" + b;
      SplitOneMore(a + "/" + front, last);
      SplitOneMore(front, last);
      OneMoreBehind(Split(a), Split(front), last);
    }
  }

  lemma OneSlash(parts: seq<string>)
    requires parts != []
    ensures OneMore(parts, '/') == parts + [""]
  {
  }

  // --------------------------------------------------------------- normalisation

  predicate IsPlain(c: string) { c != "" && c != HERE && c != UP }

  /** One component against the components kept so far. */
  function Push(kept: seq<string>, c: string): seq<string> {
    if c == "" || c == HERE then kept
    else if c == UP && kept != [] && kept[|kept| - 1] != UP then kept[..|kept| - 1]
    else kept + [c]
  }

  function PushAll(kept: seq<string>, cs: seq<string>): seq<string> {
    if cs == [] then kept else Push(PushAll(kept, cs[..|cs| - 1]), cs[|cs| - 1])
  }

  function Normalize(cs: seq<string>): seq<string> { PushAll([], cs) }

  method NormalizePathComponents(path: string) returns (components: seq<string>)
    ensures components == Normalize(Split(path))
    ensures IsNormalized(components)
  {
    var parts := Split(path);
    components := [];
    for i := 0 to |parts|
      invariant components == PushAll([], parts[..i])
    {
      var component := parts[i];
      if component == "" || component == HERE {
      } else if component == UP {
        if components == [] || components[|components| - 1] == UP {
          components := components + [component];
        } else {
          components := components[..|components| - 1];
        }
      } else {
        components := components + [component];
      }
      assert parts[..i + 1][..i] == parts[..i];
    }
    assert parts[..|parts|] == parts;
    NormalizeIsNormal(parts);
  }

  /** Leading `..`s, then plain names. */
  ghost predicate IsNormalized(cs: seq<string>) {
    && (forall i :: 0 <= i < |cs| ==> cs[i] == UP || IsPlain(cs[i]))
    && (forall i, j :: 0 <= i < j < |cs| && cs[j] == UP ==> cs[i] == UP)
  }

  lemma {:induction false} NormalizeIsNormal(cs: seq<string>)
    ensures IsNormalized(Normalize(cs))
  {
    if cs != [] {
      NormalizeIsNormal(cs[..|cs| - 1]);
    }
  }

  /** Exactly the normal lists are left alone; so normalising is idempotent. */
  lemma {:induction false} NormalizeFixes(cs: seq<string>)
    ensures Normalize(cs) == cs <==> IsNormalized(cs)
  {
    NormalizeIsNormal(cs);
    if IsNormalized(cs) && cs != [] {
      var front := cs[..|cs| - 1];
      NormalizeFixes(front);
      assert cs == front + [cs[|cs| - 1]];
    }
  }

  /** Normalising the text of a normalised path changes nothing. */
  lemma NormalizeIdempotent(path: string)
    ensures Normalize(Normalize(Split(path))) == Normalize(Split(path))
    ensures Normalize(Split(path)) != [] ==>
              Normalize(Split(Joined(Normalize(Split(path))))) == Normalize(Split(path))
  {
    var n := Normalize(Split(path));
    NormalizeIsNormal(Split(path));
    NormalizeFixes(n);
    PushAllParts([], Split(path));
    if n != [] {
      SplitJoined(n);
    }
  }

  lemma {:induction false} PushAllParts(kept: seq<string>, cs: seq<string>)
    requires forall i :: 0 <= i < |kept| ==> '/' !in kept[i]
    requires forall i :: 0 <= i < |cs| ==> '/' !in cs[i]
    ensures forall i :: 0 <= i < |PushAll(kept, cs)| ==> '/' !in PushAll(kept, cs)[i]
  {
    if cs != [] {
      PushAllParts(kept, cs[..|cs| - 1]);
    }
  }

  lemma {:induction false} PushAllSplit(kept: seq<string>, a: seq<string>, b: seq<string>)
    ensures PushAll(kept, a + b) == PushAll(PushAll(kept, a), b)
  {
    if b == [] {
      assert a + b == a;
    } else {
      assert (a + b)[..|a + b| - 1] == a + b[..|b| - 1];
      PushAllSplit(kept, a, b[..|b| - 1]);
    }
  }

  lemma {:induction false} PushAllNormalized(kept: seq<string>, cs: seq<string>)
    ensures PushAll(kept, Normalize(cs)) == PushAll(kept, cs)
  {
    if cs != [] {
      var n, c := Normalize(cs[..|cs| - 1]), cs[|cs| - 1];
      PushAllNormalized(kept, cs[..|cs| - 1]);
      NormalizeIsNormal(cs[..|cs| - 1]);
      if c == UP && n != [] && n[|n| - 1] != UP {
        var m := n[..|n| - 1];
        assert PushAll(kept, n) == Push(PushAll(kept, m), n[|n| - 1]);
        assert IsPlain(n[|n| - 1]);
        assert (PushAll(kept, m) + [n[|n| - 1]])[..|PushAll(kept, m)|] == PushAll(kept, m);
      } else if c != "" && c != HERE {
        assert (n + [c])[..|n|] == n;
      }
    }
  }

  /** Normalising a composed path is composing normalised paths. */
  lemma NormalizeComposes(a: seq<string>, b: seq<string>)
    ensures Normalize(a + b) == Normalize(Normalize(a) + Normalize(b))
  {
    PushAllSplit([], a, b);
    PushAllSplit([], Normalize(a), Normalize(b));
    PushAllNormalized([], a);
    PushAllNormalized(Normalize(a), b);
  }

  // -------------------------------------------------------------------- walking

  /** How one component leads from a directory to another. */
  type Look = (nat, string) -> Option<nat>

  ghost function Walk(look: Look, start: nat, cs: seq<string>): Option<nat> {
    if cs == [] then Some(start)
    else
      match Walk(look, start, cs[..|cs| - 1])
      case None => None
      case Some(d) => look(d, cs[|cs| - 1])
  }

  /** The walk a path spells out: only empty components are skipped. */
  ghost function RawWalk(look: Look, start: nat, cs: seq<string>): Option<nat> {
    if cs == [] then Some(start)
    else
      var before := RawWalk(look, start, cs[..|cs| - 1]);
      if cs[|cs| - 1] == "" || before.None? then before else look(before.value, cs[|cs| - 1])
  }

  /** `.` leads nowhere else; a plain name leads to a directory whose `..` leads back. */
  ghost predicate Faithful(look: Look, dirs: set<nat>) {
    forall d, c, n :: d in dirs && look(d, n) == Some(c) ==>
      && c in dirs
      && (n == HERE ==> c == d)
      && (IsPlain(n) ==> look(c, UP) == Some(d))
  }

  lemma {:induction false} WalkStays(look: Look, dirs: set<nat>, start: nat, cs: seq<string>)
    requires Faithful(look, dirs) && start in dirs
    ensures Walk(look, start, cs).Some? ==> Walk(look, start, cs).value in dirs
  {
    if cs != [] {
      WalkStays(look, dirs, start, cs[..|cs| - 1]);
    }
  }

  /** If the raw walk succeeds, the normalised path leads to the same directory. */
  lemma {:induction false} WalkNormalized(look: Look, dirs: set<nat>, start: nat, cs: seq<string>)
    requires Faithful(look, dirs) && start in dirs
    requires RawWalk(look, start, cs).Some?
    ensures Walk(look, start, Normalize(cs)) == RawWalk(look, start, cs)
  {
    if cs != [] {
      var front, c := cs[..|cs| - 1], cs[|cs| - 1];
      var n := Normalize(front);
      WalkNormalized(look, dirs, start, front);
      WalkStays(look, dirs, start, n);
      if c == UP && n != [] && n[|n| - 1] != UP {
        NormalizeIsNormal(front);
        WalkStays(look, dirs, start, n[..|n| - 1]);
        assert IsPlain(n[|n| - 1]);
      } else if c != "" && c != HERE {
        assert (n + [c])[..|n|] == n;
      }
    }
  }

  /** Going up from a kept path: a prefix of it, or only `..`s are left at its end. */
  lemma {:induction false} UpsOnly(kept: seq<string>, ups: seq<string>)
    requires forall i :: 0 <= i < |ups| ==> ups[i] == UP
    ensures var r := PushAll(kept, ups); r <= kept || (r != [] && r[|r| - 1] == UP)
  {
    if ups != [] {
      UpsOnly(kept, ups[..|ups| - 1]);
    }
  }

  lemma {:induction false} WalkPrefix(look: Look, start: nat, cs: seq<string>, k: nat)
    requires k <= |cs| && Walk(look, start, cs).Some?
    ensures Walk(look, start, cs[..k]).Some?
  {
    if k < |cs| {
      WalkPrefix(look, start, cs[..|cs| - 1], k);
      assert cs[..|cs| - 1][..k] == cs[..k];
    } else {
      assert cs[..k] == cs;
    }
  }

  /** One step up undoes the last step of a walk. */
  lemma StepUp(look: Look, dirs: set<nat>, start: nat, cs: seq<string>)
    requires Faithful(look, dirs) && start in dirs && cs != [] && IsPlain(cs[|cs| - 1])
    requires Walk(look, start, cs).Some?
    ensures look(Walk(look, start, cs).value, UP) == Walk(look, start, cs[..|cs| - 1])
  {
    WalkStays(look, dirs, start, cs[..|cs| - 1]);
  }

  /** Walking on from where a normal path led is walking the composed path. */
  lemma {:induction false} WalkOn(look: Look, dirs: set<nat>, start: nat, kept: seq<string>, d: nat, cs: seq<string>)
    requires Faithful(look, dirs) && start in dirs && IsNormalized(kept) && Walk(look, start, kept) == Some(d)
    requires IsNormalized(cs)
    ensures Walk(look, start, PushAll(kept, cs)) == Walk(look, d, cs)
  {
    hide Faithful;
    if cs != [] {
      var front, c := cs[..|cs| - 1], cs[|cs| - 1];
      WalkOn(look, dirs, start, kept, d, front);
      var m := PushAll(kept, front);
      if c == UP && m != [] && m[|m| - 1] != UP {
        UpsOnly(kept, front);
        assert m == kept[..|m|] && m[|m| - 1] == kept[|m| - 1];
        WalkPrefix(look, start, kept, |m|);
        StepUp(look, dirs, start, m);
      } else {
        assert (m + [c])[..|m|] == m;
      }
    }
  }

  /** Where `a` leads to `d`, the composed path leads where `b` leads from `d`. */
  lemma WalksCompose(look: Look, dirs: set<nat>, start: nat, a: seq<string>, d: nat, b: seq<string>)
    requires Faithful(look, dirs) && start in dirs && Walk(look, start, Normalize(a)) == Some(d)
    ensures Walk(look, start, Normalize(a + b)) == Walk(look, d, Normalize(b))
  {
    hide Faithful, Walk;
    NormalizeIsNormal(a);
    NormalizeIsNormal(b);
    PushAllSplit([], a, b);
    PushAllNormalized(Normalize(a), b);
    WalkOn(look, dirs, start, Normalize(a), d, Normalize(b));
  }

  // ------------------------------------------------------------- absolute paths

  predicate HasPrefix(s: string, p: string) { p <= s }

  /** Where a path starts, and the part of it that is walked. */
  function Anchor(path: string, root: nat, cwd: nat): (nat, string) {
    if path == "/" || path == "~" then (root, "")
    else if HasPrefix(path, "~/") then (root, path[2..])
    else if HasPrefix(path, "/") then (root, path[1..])
    else (cwd, path)
  }

  /** Where a path leads from a working directory. */
  ghost function Resolved(look: Look, root: nat, cwd: nat, path: string): Option<nat> {
    var anchor := Anchor(path, root, cwd);
    Walk(look, anchor.0, Normalize(Split(anchor.1)))
  }

  /** A path that neither starts at the root nor names the home directory. */
  ghost predicate IsRelative(path: string) {
    (path != "" ==> path[0] != '/') && path != "~" && (|path| >= 2 ==> path[..2] != "~/")
  }

  /** A relative path is walked from the working directory. */
  lemma RelativeResolves(look: Look, root: nat, cwd: nat, path: string)
    requires IsRelative(path)
    ensures Resolved(look, root, cwd, path) == Walk(look, cwd, Normalize(Split(path)))
  {
  }

  lemma LeadingSlash(path: string)
    requires path != "" && path[0] == '/'
    ensures Normalize(Split(path)) == Normalize(Split(path[1..]))
  {
    var rest := path[1..];
    SplitBoth("", rest);
    assert path == "" + "/" + rest;
    PushAllSplit([], [""], Split(rest));
    assert PushAll([], [""]) == Push(PushAll([], []), "");
  }

  /** A path with a leading slash is walked from the root, whatever the working directory; so is one below `~`. */
  lemma RootedResolves(look: Look, root: nat, cwd: nat, path: string)
    requires path != "" && path[0] == '/'
    ensures Resolved(look, root, cwd, path) == Walk(look, root, Normalize(Split(path)))
    ensures Resolved(look, root, cwd, "~" + path) == Walk(look, root, Normalize(Split(path)))
  {
    hide Split, Normalize, Walk;
    LeadingSlash(path);
    var home := "~" + path;
    assert home[1] == '/' && home[2..] == path[1..] && home[..2] == "~/";
    if path == "/" {
      assert path[1..] == "";
    }
  }

  /** `.` and the empty path stay in the working directory, `/` and `~` go to the root. */
  lemma ShortestPaths(look: Look, root: nat, cwd: nat)
    ensures Resolved(look, root, cwd, HERE) == Some(cwd) == Resolved(look, root, cwd, "")
    ensures Resolved(look, root, cwd, "/") == Some(root) == Resolved(look, root, cwd, "~")
  {
    assert PushAll([], [""]) == Push(PushAll([], []), "");
    SplitSingle(HERE);
    assert PushAll([], [HERE]) == Push(PushAll([], []), HERE);
  }

  /** Two relative paths one after the other are one path, with a slash between them. */
  lemma PathsCompose(look: Look, dirs: set<nat>, root: nat, cwd: nat, a: string, d: nat, b: string)
    requires Faithful(look, dirs) && cwd in dirs && IsRelative(a) && a != "" && IsRelative(b)
    requires Resolved(look, root, cwd, a) == Some(d)
    ensures Resolved(look, root, cwd, a + "/" + b) == Resolved(look, root, d, b)
  {
    hide Faithful, Normalize, Split, Walk, Anchor, Resolved;
    var both := a + "/" + b;
    assert both[0] == a[0] && (|a| == 1 ==> both[..2] == a + "/") && (|a| >= 2 ==> both[..2] == a[..2]);
    RelativeResolves(look, root, cwd, a);
    RelativeResolves(look, root, cwd, both);
    RelativeResolves(look, root, d, b);
    SplitBoth(a, b);
    WalksCompose(look, dirs, cwd, Split(a), d, Split(b));
  }

  /**
    The walk a path spells out, component by component: from the root if it has
    a leading slash or its first component is `~`, else from the working
    directory.
   */
  ghost function SpeltOut(look: Look, root: nat, cwd: nat, path: string): Option<nat> {
    var parts := Split(path);
    if path != "" && path[0] == '/' then RawWalk(look, root, parts)
    else if parts[0] == "~" then RawWalk(look, root, parts[1..])
    else RawWalk(look, cwd, parts)
  }

  lemma {:induction false} EmptyPartSkipped(look: Look, start: nat, cs: seq<string>)
    ensures RawWalk(look, start, [""] + cs) == RawWalk(look, start, cs)
  {
    var all := [""] + cs;
    if cs == [] {
      assert all[..0] == [];
    } else {
      assert all[..|all| - 1] == [""] + cs[..|cs| - 1];
      EmptyPartSkipped(look, start, cs[..|cs| - 1]);
    }
  }

  /** The part before the first slash. */
  lemma {:induction false} FirstPart(path: string, n: nat)
    requires n <= |path| && '/' !in path[..n] && (n < |path| ==> path[n] == '/')
    ensures Split(path)[0] == path[..n]
    ensures Split(path)[1..] == if n < |path| then Split(path[n + 1..]) else []
  {
    if n == |path| {
      assert path[..n] == path;
      SplitSingle(path);
    } else {
      SplitSingle(path[..n]);
      SplitBoth(path[..n], path[n + 1..]);
      assert path == path[..n] + "/" + path[n + 1..];
    }
  }

  /** The anchor of a path is where the walk it spells out starts, and its text is the rest of it. */
  lemma AnchorSpelt(look: Look, root: nat, cwd: nat, path: string)
    ensures var anchor := Anchor(path, root, cwd);
            RawWalk(look, anchor.0, Split(anchor.1)) == SpeltOut(look, root, cwd, path)
  {
    hide Split, RawWalk;
    EmptyWalks(look, root);
    if path != "" && path[0] == '/' {
      FirstPart(path, 0);
      assert path[1..] == "" ==> path == "/";
      assert Split(path) == [""] + Split(path[1..]);
      EmptyPartSkipped(look, root, Split(path[1..]));
    } else if path == "~" {
      FirstPart(path, 1);
    } else if HasPrefix(path, "~/") {
      assert path[..1] == "~" && path[1] == '/';
      FirstPart(path, 1);
    } else {
      NotHome(path);
    }
  }

  lemma EmptyWalks(look: Look, root: nat)
    ensures RawWalk(look, root, Split("")) == Some(root) == RawWalk(look, root, [])
  {
    assert [""][..0] == [];
    assert RawWalk(look, root, []) == Some(root);
  }

  lemma {:induction false} NotHome(path: string)
    requires path != "~" && !HasPrefix(path, "~/")
    ensures Split(path)[0] != "~"
  {
    JoinedSplit(path);
    StartsWithFirst(Split(path));
  }

  lemma {:induction false} StartsWithFirst(parts: seq<string>)
    requires parts != []
    ensures if |parts| == 1 then Joined(parts) == parts[0] else HasPrefix(Joined(parts), parts[0] + "/")
  {
    if |parts| > 1 {
      StartsWithFirst(parts[..|parts| - 1]);
    }
  }
}
