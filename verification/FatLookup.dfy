/** usbfat.h: finding a path, with a cache of the last eight folders. */
module FolderTree {
  import opened Machine

  /** A name the folder reader yields: long or 8.3 name, kind and first cluster. */
  datatype Entry = Entry(name: string, isDir: bool, first: nat)

  /** What a path stands for: a folder or a file, and where it starts. */
  datatype Found = Found(isDir: bool, start: nat)

  /** The folders of a mounted stick. Cluster 0 as a folder's first cluster means the root. */
  datatype Tree = Tree(root: nat, list: nat -> seq<Entry>) {
    ghost predicate Valid() {
      forall c: nat, i: nat {:trigger list(c)[i]} :: i < |list(c)| ==> CString(list(c)[i].name)
    }

    /** The first entry of that name. */
    function Find(entries: seq<Entry>, name: string): Option<Found> {
      if entries == [] then None
      else if SameName(entries[0].name, name) then Some(Resolve(entries[0]))
      else Find(entries[1..], name)
    }

    function Resolve(e: Entry): Found {
      Found(e.isDir, Start(e.isDir, e.first))
    }

    /** Where something starts, from the first cluster its entry names. */
    function Start(isDir: bool, first: nat): nat {
      if isDir && first == 0 then root else first
    }

    function Step(at: Option<Found>, name: string): Option<Found> {
      if at.Some? && at.value.isDir then Find(list(at.value.start), name) else None
    }

    function Steps(at: Option<Found>, names: seq<string>): Option<Found>
      decreases |names|
    {
      if names == [] then at else Steps(Step(at, names[0]), names[1..])
    }

    /** The whole meaning of a path: walk its components from the root. */
    function Walk(path: string): Option<Found> {
      Steps(Some(Found(true, root)), Components(path))
    }
  }

  predicate CString(s: string) {
    forall i :: 0 <= i < |s| ==> s[i] != '\0'
  }

  function Lower(c: char): char {
    if 'A' <= c <= 'Z' then c + 32 as char else c
  }

  predicate SameName(a: string, b: string) {
    |a| == |b| && forall i :: 0 <= i < |a| ==> Lower(a[i]) == Lower(b[i])
  }

  function ComponentLength(p: string): (n: nat)
    ensures n <= |p| && (n == |p| || p[n] == '/')
    ensures forall i :: 0 <= i < n ==> p[i] != '/'
  {
    if p == "" || p[0] == '/' then 0 else 1 + ComponentLength(p[1..])
  }

  /** The names between the slashes; any number of slashes counts as one. */
  function Components(p: string): seq<string>
    decreases |p|
  {
    if p == "" then []
    else if p[0] == '/' then Components(p[1..])
    else var n := ComponentLength(p); [p[..n]] + Components(p[n..])
  }

  /** What a walk finds has its final start: cluster 0 stands for no folder but a root there. */
  predicate Settled(t: Tree, at: Option<Found>) {
    at.Some? && at.value.isDir && at.value.start == 0 ==> t.root == 0
  }

  lemma {:induction false} FindSettled(t: Tree, entries: seq<Entry>, name: string)
    ensures Settled(t, t.Find(entries, name))
  {
    if entries != [] {
      FindSettled(t, entries[1..], name);
    }
  }

  lemma {:induction false} StepsSettled(t: Tree, at: Option<Found>, names: seq<string>)
    requires Settled(t, at)
    ensures Settled(t, t.Steps(at, names))
    decreases |names|
  {
    if names != [] {
      if at.Some? && at.value.isDir {
        FindSettled(t, t.list(at.value.start), names[0]);
      }
      StepsSettled(t, t.Step(at, names[0]), names[1..]);
    }
  }

  /** A place in a path that does not cut a component. */
  predicate Boundary(p: string, i: nat) {
    i <= |p| && (i == 0 || i == |p| || p[i] == '/' || p[i - 1] == '/')
  }

  lemma ComponentLengthUnique(p: string, n: nat)
    requires n <= |p| && (n == |p| || p[n] == '/')
    requires forall i :: 0 <= i < n ==> p[i] != '/'
    ensures ComponentLength(p) == n
  {
    if n > 0 {
      ComponentLengthUnique(p[1..], n - 1);
    }
  }

  lemma FirstComponent(p: string, n: nat)
    requires 0 < n <= |p| && (n == |p| || p[n] == '/')
    requires forall i :: 0 <= i < n ==> p[i] != '/'
    ensures Components(p) == [p[..n]] + Components(p[n..])
  {
    ComponentLengthUnique(p, n);
    assert p[0] != '/';
  }

  lemma {:induction false} ComponentsSplit(p: string, i: nat)
    requires Boundary(p, i)
    ensures Components(p) == Components(p[..i]) + Components(p[i..])
    decreases |p|
  {
    hide Components;
    if i == 0 {
      NoComponents();
      assert p[0..] == p && p[..0] == "";
    } else if p[0] == '/' {
      SplitAfterSlash(p, i);
      ComponentsSplit(p[1..], i - 1);
    } else {
      var n := ComponentLength(p);
      NameBeforeBoundary(p, i);
      ComponentsSplit(p[n..], i - n);
      SplitAfterName(p, i, n);
    }
  }

  lemma NoComponents()
    ensures Components("") == []
  {
  }

  lemma NameBeforeBoundary(p: string, i: nat)
    requires Boundary(p, i) && i > 0 && p[0] != '/'
    ensures var n := ComponentLength(p); 0 < n <= i && Boundary(p[n..], i - n)
  {
  }

  lemma SplitAfterSlash(p: string, i: nat)
    requires 0 < i <= |p| && p[0] == '/'
    ensures Components(p) == Components(p[1..]) && Components(p[..i]) == Components(p[1..][..i - 1])
    ensures p[i..] == p[1..][i - 1..]
  {
    assert p[..i][1..] == p[1..][..i - 1];
  }

  lemma SplitAfterName(p: string, i: nat, n: nat)
    requires 0 < n <= i <= |p| && (n == |p| || p[n] == '/')
    requires forall k :: 0 <= k < n ==> p[k] != '/'
    requires Components(p[n..]) == Components(p[n..][..i - n]) + Components(p[n..][i - n..])
    ensures Components(p) == Components(p[..i]) + Components(p[i..])
  {
    hide Components;
    FirstComponent(p, n);
    FirstComponent(p[..i], n);
    assert p[..i][..n] == p[..n];
    assert p[..i][n..] == p[n..][..i - n];
    assert p[i..] == p[n..][i - n..];
  }

  lemma {:induction false} StepsAppend(t: Tree, at: Option<Found>, a: seq<string>, b: seq<string>)
    ensures t.Steps(at, a + b) == t.Steps(t.Steps(at, a), b)
    decreases |a|
  {
    if a == [] {
      assert a + b == b;
    } else {
      assert (a + b)[0] == a[0] && (a + b)[1..] == a[1..] + b;
      StepsAppend(t, t.Step(at, a[0]), a[1..], b);
    }
  }

  /** A path may be cut at any component boundary and resumed from there. */
  lemma WalkSplit(t: Tree, p: string, i: nat)
    requires Boundary(p, i)
    ensures t.Walk(p) == t.Steps(t.Walk(p[..i]), Components(p[i..]))
  {
    ComponentsSplit(p, i);
    StepsAppend(t, Some(Found(true, t.root)), Components(p[..i]), Components(p[i..]));
  }

  lemma LowerKeepsSlash(a: char, b: char)
    requires Lower(a) == Lower(b)
    ensures a == '/' <==> b == '/'
  {
  }

  lemma {:induction false} FindSameName(t: Tree, entries: seq<Entry>, a: string, b: string)
    requires SameName(a, b)
    ensures t.Find(entries, a) == t.Find(entries, b)
  {
    if entries != [] {
      FindSameName(t, entries[1..], a, b);
    }
  }

  lemma {:induction false} StepsSameName(t: Tree, at: Option<Found>, p: string, q: string)
    requires SameName(p, q)
    ensures t.Steps(at, Components(p)) == t.Steps(at, Components(q))
    decreases |p|
  {
    if p == "" {
    } else if p[0] == '/' {
      LowerKeepsSlash(p[0], q[0]);
      StepsSameName(t, at, p[1..], q[1..]);
    } else {
      var n := ComponentLength(p);
      forall i | 0 <= i < |p|
        ensures p[i] == '/' <==> q[i] == '/'
      {
        LowerKeepsSlash(p[i], q[i]);
      }
      ComponentLengthUnique(q, n);
      if at.Some? && at.value.isDir {
        FindSameName(t, t.list(at.value.start), p[..n], q[..n]);
      }
      StepsSameName(t, t.Step(at, p[..n]), p[n..], q[n..]);
    }
  }

  /** Letter case never matters. */
  lemma WalkSameName(t: Tree, p: string, q: string)
    requires SpeltAlike(p, q)
    ensures t.Walk(p) == t.Walk(q)
  {
    AlikeIsSame(p, q);
    StepsSameName(t, Some(Found(true, t.root)), p, q);
  }

  // ---- names and paths, told without the code's way of comparing ----

  /** The same character, or a letter from A to Z and the one 32 places after it. */
  predicate SameLetter(a: char, b: char) {
    || a == b
    || ('A' <= a <= 'Z' && b as int == a as int + 32)
    || ('A' <= b <= 'Z' && a as int == b as int + 32)
  }

  predicate SpeltAlike(a: string, b: string) {
    |a| == |b| && forall i :: 0 <= i < |a| ==> SameLetter(a[i], b[i])
  }

  lemma AlikeIsSame(a: string, b: string)
    ensures SpeltAlike(a, b) <==> SameName(a, b)
  {
  }

  /** A folder gives the first of its entries that is spelt alike; the start of a folder that names
      cluster 0 is the root. */
  lemma {:induction false} FindsFirst(t: Tree, entries: seq<Entry>, name: string, i: nat)
    requires i <= |entries| && forall j :: 0 <= j < i ==> !SpeltAlike(entries[j].name, name)
    requires i < |entries| ==> SpeltAlike(entries[i].name, name)
    ensures t.Find(entries, name) ==
            if i == |entries| then None
            else if entries[i].isDir && entries[i].first == 0 then Some(Found(true, t.root))
            else Some(Found(entries[i].isDir, entries[i].first))
  {
    if entries != [] {
      AlikeIsSame(entries[0].name, name);
      if i > 0 {
        assert entries[1..][i - 1..] == entries[i..];
        FindsFirst(t, entries[1..], name, i - 1);
      }
    }
  }

  function Slashes(n: nat): (s: string)
    ensures |s| == n && forall i :: 0 <= i < n ==> s[i] == '/'
  {
    if n == 0 then "" else ['/'] + Slashes(n - 1)
  }

  /** A path of these names, with so many slashes before each and at the end. */
  function Spell(names: seq<string>, gaps: seq<nat>): string
    requires |gaps| == |names| + 1
    decreases |names|
  {
    Slashes(gaps[0]) + (if names == [] then "" else names[0] + Spell(names[1..], gaps[1..]))
  }

  lemma {:induction false} SkipGap(n: nat, s: string)
    ensures Components(Slashes(n) + s) == Components(s)
  {
    if n > 0 {
      assert (Slashes(n) + s)[1..] == Slashes(n - 1) + s;
      SkipGap(n - 1, s);
    } else {
      assert Slashes(0) + s == s;
    }
  }

  /** Any number of slashes stands between the names of a path, before and after them. */
  lemma {:induction false} ComponentsOfSpell(names: seq<string>, gaps: seq<nat>)
    requires |gaps| == |names| + 1 && forall i :: 0 < i < |names| ==> gaps[i] > 0
    requires forall i :: 0 <= i < |names| ==> names[i] != "" && '/' !in names[i]
    ensures Components(Spell(names, gaps)) == names
    decreases |names|
  {
    if names == [] {
      SkipGap(gaps[0], "");
    } else {
      var name, rest := names[0], Spell(names[1..], gaps[1..]);
      ComponentsOfSpell(names[1..], gaps[1..]);
      SkipGap(gaps[0], name + rest);
      assert Slashes(gaps[0]) + (name + rest) == Spell(names, gaps);
      if |names| > 1 {
        assert rest[0] == Slashes(gaps[1])[0];
      } else if rest != "" {
        assert rest == Slashes(gaps[1]) + "";
        assert rest[0] == Slashes(gaps[1])[0];
      }
      FirstComponent(name + rest, |name|);
      assert (name + rest)[..|name|] == name && (name + rest)[|name|..] == rest;
    }
  }

  /** So a path leads where its names lead, one folder after the other from the root. */
  lemma WalkOfSpell(t: Tree, names: seq<string>, gaps: seq<nat>, last: string, tail: nat)
    requires |gaps| == |names| + 1 && forall i :: 0 < i <= |names| ==> gaps[i] > 0
    requires forall i :: 0 <= i < |names| ==> names[i] != "" && '/' !in names[i]
    requires last != "" && '/' !in last
    ensures var at := t.Walk(Spell(names, gaps));
            t.Walk(Spell(names + [last], gaps + [tail])) ==
            if at.Some? && at.value.isDir then t.Find(t.list(at.value.start), last) else None
  {
    hide Components, Spell;
    ComponentsOfSpell(names, gaps);
    ComponentsOfSpell(names + [last], gaps + [tail]);
    StepsAppend(t, Some(Found(true, t.root)), names, [last]);
    OneStep(t, t.Steps(Some(Found(true, t.root)), names), last);
  }

  lemma OneStep(t: Tree, at: Option<Found>, name: string)
    ensures t.Steps(at, [name]) == t.Step(at, name)
  {
    assert [name][1..] == [];
  }
}

module FolderCache {
  import opened Machine
  import opened FolderTree

  const LINES: int := 8
  const PATH_MAX: int := 128

  datatype Line = Line(path: string, clus: nat)

  /** Character i of a C string: the NUL behind the last one can be read as well. */
  function At(s: string, i: nat): char
    requires i <= |s|
  {
    if i < |s| then s[i] else '\0'
  }

  /** ufs_name_eq: is the C string a the same name as the first blen characters at b? It
      never looks past b's terminator. */
  method NameEq(a: string, b: string, blen: nat) returns (eq: bool)
    requires CString(a) && CString(b)
    ensures eq <==> blen <= |b| && SameName(a, b[..blen])
    ensures eq <==> blen <= |b| && SpeltAlike(a, b[..blen])
  {
    var i := 0;
    while i < blen
      invariant i <= blen && i <= |a| && i <= |b|
      invariant forall k :: 0 <= k < i ==> Lower(a[k]) == Lower(b[k])
    {
      if At(a, i) == '\0' || Lower(At(a, i)) != Lower(At(b, i)) {
        return false;
      }
      i := i + 1;
    }
    return At(a, i) == '\0';
  }

  class Finder {
    const tree: Tree
    const cache: array<Line>
    var cacheNext: nat

    ghost predicate Valid()
      reads this, cache
    {
      && tree.Valid()
      && cache.Length == LINES && cacheNext < LINES
      && forall i :: 0 <= i < LINES ==> Good(cache[i])
    }

    /** A cache line is empty or says what the walk from the root says. */
    ghost predicate Good(line: Line) {
      && CString(line.path) && |line.path| < PATH_MAX
      && (line.path != "" ==> tree.Walk(line.path) == Some(Found(true, line.clus)))
    }

    /** What ufs_mount leaves behind. */
    constructor (t: Tree)
      requires t.Valid()
      ensures Valid() && tree == t && fresh(cache)
    {
      tree := t;
      cache := new Line[LINES](_ => Line("", 0));
      cacheNext := 0;
    }

    ghost predicate Cached(path: string)
      requires cache.Length == LINES
      reads this, cache
    {
      exists i :: 0 <= i < LINES && SameName(cache[i].path, path)
    }

    /** ufs_dcache_put: a new folder replaces the oldest line, a known one changes nothing. */
    method Put(path: string, len: nat, clus: nat)
      requires Valid() && CString(path) && len <= |path|
      requires tree.Walk(path[..len]) == Some(Found(true, clus))
      modifies `cacheNext, cache
      ensures Valid()
      ensures if len == 0 || len >= PATH_MAX || old(Cached(path[..len]))
              then cache[..] == old(cache[..]) && cacheNext == old(cacheNext)
              else cache[..] == old(cache[..])[old(cacheNext) := Line(path[..len], clus)] &&
                   cacheNext == (old(cacheNext) + 1) % LINES
    {
      hide Tree.Walk, SameName;
      if len <= 0 || len >= PATH_MAX {
        return;
      }
      for i := 0 to LINES
        invariant forall j :: 0 <= j < i ==> !SameName(cache[j].path, path[..len])
        invariant Valid() && cache[..] == old(cache[..]) && cacheNext == old(cacheNext)
      {
        var eq := NameEq(cache[i].path, path, len);
        if eq {
          return;
        }
      }
      cache[cacheNext] := Line(path[..len], clus);
      cacheNext := (cacheNext + 1) % LINES;
    }

    /** Does line i name a folder the path goes through? */
    ghost predicate OnTheWay(line: Line, path: string) {
      var len := |line.path|;
      len > 0 && len <= |path| && (len == |path| || path[len] == '/') && SameName(line.path, path[..len])
    }

    /** ufs_dcache_get: the longest cached folder on the way. The test of path[len] may look past the
        terminator, at what memory holds there by offset from the path; the answer does not depend on it. */
    method Get(path: string, clus0: nat, beyond: nat -> char) returns (best: nat, clus: nat)
      requires Valid() && CString(path)
      ensures best <= |path| && Boundary(path, best)
      ensures best == 0 ==> clus == clus0
      ensures best > 0 ==> tree.Walk(path[..best]) == Some(Found(true, clus))
      ensures forall i :: 0 <= i < LINES && OnTheWay(cache[i], path) ==> |cache[i].path| <= best
    {
      hide Tree.Walk, SameName;
      best, clus := 0, clus0;
      for i := 0 to LINES
        invariant best <= |path| && Boundary(path, best)
        invariant best == 0 ==> clus == clus0
        invariant best > 0 ==> tree.Walk(path[..best]) == Some(Found(true, clus))
        invariant forall j :: 0 <= j < i && OnTheWay(cache[j], path) ==> |cache[j].path| <= best
      {
        var len := |cache[i].path|;
        var next := if len <= |path| then At(path, len) else beyond(len);
        var eq := NameEq(cache[i].path, path, len);
        if len > best && (next == '/' || next == '\0') && eq {
          WalkSameName(tree, cache[i].path, path[..len]);
          best, clus := len, cache[i].clus;
        }
      }
    }

    /** The loop over the entries of one folder. */
    method FindEntry(clus: nat, rest: string, len: nat) returns (found: bool, e: Entry)
      requires Valid() && CString(rest) && len <= |rest|
      ensures tree.Find(tree.list(clus), rest[..len]) == if found then Some(tree.Resolve(e)) else None
    {
      var entries := tree.list(clus);
      e := Entry("", true, 0);
      for i := 0 to |entries|
        invariant tree.Find(entries, rest[..len]) == tree.Find(entries[i..], rest[..len])
      {
        e := entries[i];
        assert tree.list(clus)[i] == e;
        var eq := NameEq(e.name, rest, len);
        assert entries[i..][1..] == entries[i + 1..];
        if eq {
          return true, e;
        }
      }
      return false, e;
    }

    /** ufs_lookup: whatever earlier lookups left in the cache, the answer is that of the walk from the
        root. The caller gets the first cluster the last entry names, or the cached one: for a folder
        that is 0, standing for the root, or its start. */
    method Lookup(path: string, beyond: nat -> char) returns (r: Option<Found>, first: nat)
      requires Valid() && CString(path)
      modifies `cacheNext, cache
      ensures Valid()
      ensures r == tree.Walk(path)
      ensures r.Some? ==> r.value.start == tree.Start(r.value.isDir, first)
    {
      var lead := SkipSlashes(tree, path, 0);
      var full := path[lead..];
      LeadingSlashes(tree, path, lead);
      var skip, clus := Get(full, tree.root, (k: nat) => beyond(lead + k));
      first := clus;
      var isDir := true;
      StepsSettled(tree, Some(Found(true, tree.root)), Components(full[..skip]));
      var p := SkipSlashes(tree, full, skip);
      assert full[..0] == "";
      hide Tree.Walk, Components;
      var ok := true;
      while p < |full|
        invariant Valid() && Boundary(full, p) && (p < |full| ==> full[p] != '/')
        invariant tree.Walk(full[..p]) == Some(Found(isDir, clus)) && clus == tree.Start(isDir, first)
        decreases |full| - p
      {
        ok, p, isDir, clus, first := Enter(full, p, isDir, clus);
        if !ok {
          return None, first;
        }
        p := SkipSlashes(tree, full, p);
      }
      assert full[..p] == full;
      return Some(Found(isDir, clus)), first;
    }

    /** ufs_opendir: where the folder of that path starts. */
    method OpenDir(path: string, beyond: nat -> char) returns (start: Option<nat>)
      requires Valid() && CString(path)
      modifies `cacheNext, cache
      ensures Valid()
      ensures start.Some? <==> tree.Walk(path).Some? && tree.Walk(path).value.isDir
      ensures start.Some? ==> start.value == tree.Walk(path).value.start
    {
      var r, first := Lookup(path, beyond);
      if r == None || !r.value.isDir {
        return None;
      }
      return Some(if first == 0 then tree.root else first);
    }

    /** The lookup of ufs_open: where the file of that path starts. */
    method OpenFile(path: string, beyond: nat -> char) returns (start: Option<nat>)
      requires Valid() && CString(path)
      modifies `cacheNext, cache
      ensures Valid()
      ensures start.Some? <==> tree.Walk(path).Some? && !tree.Walk(path).value.isDir
      ensures start.Some? ==> start.value == tree.Walk(path).value.start
    {
      var r, first := Lookup(path, beyond);
      if r == None || r.value.isDir {
        return None;
      }
      return Some(first);
    }

    /** One turn of the loop of ufs_lookup: one component further down. */
    method Enter(full: string, p: nat, wasDir: bool, from: nat)
      returns (ok: bool, end: nat, isDir: bool, clus: nat, first: nat)
      requires Valid() && CString(full) && p < |full| && Boundary(full, p) && full[p] != '/'
      requires tree.Walk(full[..p]) == Some(Found(wasDir, from))
      modifies `cacheNext, cache
      ensures Valid() && p < end && Boundary(full, end)
      ensures if ok then tree.Walk(full[..end]) == Some(Found(isDir, clus)) else tree.Walk(full) == None
      ensures ok ==> clus == tree.Start(isDir, first)
    {
      hide Tree.Walk, Components, Tree.Find;
      var len := ComponentEnd(full[p..]);
      end, isDir, clus, first := p + len, wasDir, from, from;
      NextComponent(tree, full, p, len);
      NoWayDown(tree, full, end);
      if !isDir {
        return false, end, isDir, clus, first;
      }
      var found, e := FindEntry(clus, full[p..], len);
      if !found {
        return false, end, isDir, clus, first;
      }
      clus, first := e.first, e.first;
      isDir := e.isDir;
      if isDir && clus == 0 {
        clus := tree.root;
      }
      if isDir {
        Put(full, end, clus);
      }
      return true, end, isDir, clus, first;
    }
  }

  lemma LeadingSlashes(t: Tree, path: string, lead: nat)
    requires Boundary(path, lead) && t.Walk(path[..lead]) == t.Walk(path[..0])
    ensures t.Walk(path[lead..]) == t.Walk(path) && t.Walk("") == Some(Found(true, t.root))
  {
    WalkSplit(t, path, lead);
    assert path[..0] == "" && Components("") == [];
  }

  /** The scan for the end of a component. */
  method ComponentEnd(s: string) returns (len: nat)
    requires CString(s)
    ensures len == ComponentLength(s)
  {
    len := 0;
    while At(s, len) != '\0' && At(s, len) != '/'
      invariant len <= |s| && forall i :: 0 <= i < len ==> s[i] != '/'
      decreases |s| - len
    {
      len := len + 1;
    }
    ComponentLengthUnique(s, len);
  }

  method SkipSlashes(ghost t: Tree, s: string, p: nat) returns (q: nat)
    requires CString(s) && Boundary(s, p)
    ensures p <= q && Boundary(s, q) && (q < |s| ==> s[q] != '/')
    ensures t.Walk(s[..q]) == t.Walk(s[..p])
  {
    q := p;
    while At(s, q) == '/'
      invariant p <= q <= |s| && Boundary(s, q)
      invariant t.Walk(s[..q]) == t.Walk(s[..p])
      decreases |s| - q
    {
      assert s[..q + 1][..q] == s[..q] && s[..q + 1][q..] == "/";
      assert Components("/") == Components("");
      WalkSplit(t, s[..q + 1], q);
      q := q + 1;
    }
  }

  /** One more component is one more step. */
  lemma NextComponent(t: Tree, s: string, p: nat, len: nat)
    requires p < |s| && Boundary(s, p) && s[p] != '/' && len == ComponentLength(s[p..])
    ensures 0 < len && Boundary(s, p + len)
    ensures t.Walk(s[..p + len]) == t.Step(t.Walk(s[..p]), s[p..][..len])
  {
    var q := s[..p + len];
    assert q[..p] == s[..p] && q[p..] == s[p..][..len];
    assert Boundary(q, p);
    WalkSplit(t, q, p);
    ComponentLengthUnique(q[p..], len);
    assert q[p..][..len] == q[p..] && q[p..][len..] == "";
    assert Components(q[p..]) == [q[p..]] + [];
  }

  /** A walk that fails on the way fails. */
  lemma NoWayDown(t: Tree, s: string, p: nat)
    requires Boundary(s, p)
    ensures t.Walk(s[..p]) == None ==> t.Walk(s) == None
  {
    WalkSplit(t, s, p);
    StepsFromNone(t, Components(s[p..]));
  }

  lemma {:induction false} StepsFromNone(t: Tree, names: seq<string>)
    ensures t.Steps(None, names) == None
    decreases |names|
  {
    if names != [] {
      StepsFromNone(t, names[1..]);
    }
  }
}
