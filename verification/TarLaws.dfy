/** What a tree grown from tar headers holds, whatever order they came in. */
module TarLaws {
  import opened GoBytes
  import opened Govis
  import opened Keywords
  import Walk
  import opened TarTree
  import Paths

  /** A header of the archive with the keywords collected for it, and, for a directory, those for its set. */
  datatype Header = Header(name: Bytes, isDir: bool, keywords: seq<KeyVal>, base: Option<seq<KeyVal>>)

  function PathOf(h: Header): Segs {
    Paths.Segments(h.name)
  }

  /** A relative name that does not climb; a file's ends in its own name. */
  predicate WellNamed(h: Header) {
    && !Paths.IsAbs(h.name) && Paths.AllPlain(PathOf(h))
    && (!h.isDir ==> PathOf(h) != [] && FileBase(h.name) == Walk.BaseName(PathOf(h)) && h.base == None)
  }

  /** Distinct paths, and none that is both a file and a directory. */
  predicate Acceptable(hs: seq<Header>) {
    && (forall i :: 0 <= i < |hs| ==> WellNamed(hs[i]))
    && (forall i, j :: 0 <= i < |hs| && 0 <= j < |hs| && i != j && PathOf(hs[i]) != [] ==> PathOf(hs[i]) != PathOf(hs[j]))
    && (forall i, j :: 0 <= i < |hs| && 0 <= j < |hs| && i != j && !hs[i].isDir ==> !(PathOf(hs[i]) <= PathOf(hs[j])))
  }

  predicate IsPlaceholder(info: Info) {
    info.isDir && info.keywords == PLACEHOLDER && info.base == None
  }

  predicate Carries(info: Info, h: Header) {
    info.isDir == h.isDir && info.keywords == h.keywords && info.base == h.base
  }

  predicate OnTheWay(hs: seq<Header>, p: Segs) {
    exists i :: 0 <= i < |hs| && p <= PathOf(hs[i])
  }

  predicate HasHeader(hs: seq<Header>, p: Segs) {
    exists i :: 0 <= i < |hs| && PathOf(hs[i]) == p
  }

  /** The nodes are the ancestors of the header paths; a header's node carries its data, any other is
      a placeholder, and so is the root, header or not. */
  ghost predicate IsTreeOf(m: Contents, hs: seq<Header>) {
    && (forall p :: p in m <==> p == [] || OnTheWay(hs, p))
    && (forall i :: 0 <= i < |hs| && PathOf(hs[i]) != [] ==> PathOf(hs[i]) in m && Carries(m[PathOf(hs[i])], hs[i]))
    && (forall p :: p in m && (p == [] || !HasHeader(hs, p)) ==> IsPlaceholder(m[p]))
  }

  function Insert(m: Contents, h: Header): Contents
    requires [] in m && HasRoom(m, PathOf(h), h.isDir)
  {
    Inserted(m, PathOf(h), h.isDir, h.keywords, h.base)
  }

  // ---------- one header ----------

  lemma {:induction false} WithDirsAt(m: Contents, dirs: Segs, n: nat, q: Segs)
    requires n <= |dirs| && [] in m
    ensures var r := WithDirs(m, dirs, n);
      && (q in r <==> q in m || q <= dirs[..n])
      && (q in m ==> SameData(r[q], m[q]))
      && (q in r && q !in m ==> IsPlaceholder(r[q]))
  {
    if n > 0 {
      hide Grown;
      WithDirsAt(m, dirs, n - 1, q);
      PrefixOfLonger(q, dirs, n);
      assert Front(dirs[..n]) == dirs[..n - 1];
    } else {
      assert dirs[..0] == [];
    }
  }

  lemma PrefixOfLonger(q: Segs, dirs: Segs, n: nat)
    requires 0 < n <= |dirs|
    ensures q <= dirs[..n] <==> q <= dirs[..n - 1] || q == dirs[..n]
  {
    assert dirs[..n] == dirs[..n - 1] + [dirs[n - 1]];
  }

  /** A header adds its path and what is missing above it, and changes no other data. */
  lemma {:induction false} InsertAt(m: Contents, h: Header, q: Segs)
    requires [] in m && HasRoom(m, PathOf(h), h.isDir)
    ensures var r, p := Insert(m, h), PathOf(h);
      && (q in r <==> q in m || q <= p)
      && (q in m && (q != p || p == []) ==> SameData(r[q], m[q]))
      && (q in r && q !in m && q != p ==> IsPlaceholder(r[q]))
      && (q == p && p != [] ==> Carries(r[p], h))
  {
    hide WithDirs, Grown, HasRoom, Front;
    var p := PathOf(h);
    RoomPath(m, p, h.isDir);
    var dirs := Above(p, h.isDir);
    assert dirs[..|dirs|] == dirs && p[..|p|] == p;
    WithDirsAt(m, dirs, |dirs|, q);
    RoomAbove(m, p, h.isDir);
    if !h.isDir {
      FrontIs(p);
      PrefixOfLonger(q, p, |p|);
    }
  }

  lemma FrontIs(p: Segs)
    requires p != []
    ensures Front(p) == p[..|p| - 1]
  {
  }

  // ---------- all headers ----------

  /** What is in the tree after these headers. */
  function Built(hs: seq<Header>): (m: Contents)
    requires Acceptable(hs)
    ensures [] in m
    decreases |hs|, 0
  {
    if hs == [] then EMPTY_TREE
    else
      var before := hs[..|hs| - 1];
      BuiltIs(before);
      RoomForLast(hs, Built(before));
      InsertAt(Built(before), hs[|hs| - 1], []);
      Insert(Built(before), hs[|hs| - 1])
  }

  lemma {:induction false} RoomForLast(hs: seq<Header>, m: Contents)
    requires Acceptable(hs) && hs != [] && IsTreeOf(m, hs[..|hs| - 1])
    ensures Acceptable(hs[..|hs| - 1])
    ensures HasRoom(m, PathOf(hs[|hs| - 1]), hs[|hs| - 1].isDir)
  {
    hide IsTreeOf, OnTheWay, PathOf;
    AcceptableBefore(hs, |hs| - 1);
    var path := PathOf(hs[|hs| - 1]);
    forall k | 0 <= k <= |path| && path[..k] in m
      ensures m[path[..k]].isDir
    {
      NoFileAbove(hs, m, k);
    }
    if !hs[|hs| - 1].isDir {
      FileIsNew(hs, m);
    }
  }

  lemma FileIsNew(hs: seq<Header>, m: Contents)
    requires Acceptable(hs) && hs != [] && IsTreeOf(m, hs[..|hs| - 1]) && !hs[|hs| - 1].isDir
    ensures PathOf(hs[|hs| - 1]) != [] && PathOf(hs[|hs| - 1]) !in m
  {
    hide PathOf;
    var n := |hs| - 1;
    assert WellNamed(hs[n]);
    forall i | 0 <= i < n
      ensures !(PathOf(hs[n]) <= PathOf(hs[..n][i]))
    {
      assert hs[..n][i] == hs[i];
    }
  }

  lemma NoFileAbove(hs: seq<Header>, m: Contents, k: nat)
    requires Acceptable(hs) && hs != [] && IsTreeOf(m, hs[..|hs| - 1])
    requires k <= |PathOf(hs[|hs| - 1])| && PathOf(hs[|hs| - 1])[..k] in m
    ensures m[PathOf(hs[|hs| - 1])[..k]].isDir
  {
    hide PathOf;
    var n := |hs| - 1;
    var q := PathOf(hs[n])[..k];
    if q != [] && HasHeader(hs[..n], q) {
      var i :| 0 <= i < n && PathOf(hs[..n][i]) == q;
      assert hs[..n][i] == hs[i];
      assert PathOf(hs[i]) <= PathOf(hs[n]);
    }
  }

  lemma LastHeader(hs: seq<Header>, p: Segs)
    requires hs != []
    ensures var before, last := hs[..|hs| - 1], hs[|hs| - 1];
      && (OnTheWay(hs, p) <==> OnTheWay(before, p) || p <= PathOf(last))
      && (HasHeader(hs, p) <==> HasHeader(before, p) || PathOf(last) == p)
  {
    hide PathOf;
    var n := |hs| - 1;
    assert hs == hs[..n] + [hs[n]];
    if OnTheWay(hs[..n], p) {
      var i :| 0 <= i < n && p <= PathOf(hs[..n][i]);
      assert p <= PathOf(hs[i]);
    }
    if HasHeader(hs[..n], p) {
      var i :| 0 <= i < n && PathOf(hs[..n][i]) == p;
      assert PathOf(hs[i]) == p;
    }
    if OnTheWay(hs, p) {
      var i :| 0 <= i < |hs| && p <= PathOf(hs[i]);
      assert i < n ==> p <= PathOf(hs[..n][i]);
    }
    if HasHeader(hs, p) {
      var i :| 0 <= i < |hs| && PathOf(hs[i]) == p;
      assert i < n ==> PathOf(hs[..n][i]) == p;
    }
  }

  lemma {:induction false} BuiltIs(hs: seq<Header>)
    requires Acceptable(hs)
    ensures IsTreeOf(Built(hs), hs)
    decreases |hs|, 1
  {
    if hs != [] {
      hide PathOf, Insert, IsTreeOf, Acceptable, HasRoom;
      var before := hs[..|hs| - 1];
      AcceptableBefore(hs, |hs| - 1);
      BuiltIs(before);
      RoomForLast(hs, Built(before));
      InsertKeepsTree(hs, Built(before));
    }
  }

  lemma {:induction false} InsertKeepsTree(hs: seq<Header>, m: Contents)
    requires Acceptable(hs) && hs != [] && [] in m && IsTreeOf(m, hs[..|hs| - 1])
    requires HasRoom(m, PathOf(hs[|hs| - 1]), hs[|hs| - 1].isDir)
    ensures IsTreeOf(Insert(m, hs[|hs| - 1]), hs)
  {
    hide PathOf, Insert, OnTheWay, HasHeader, HasRoom, WellNamed;
    var n := |hs| - 1;
    var before, last := hs[..n], hs[n];
    var r := Insert(m, last);
    forall p
      ensures p in r <==> p == [] || OnTheWay(hs, p)
      ensures p in r && (p == [] || !HasHeader(hs, p)) ==> IsPlaceholder(r[p])
    {
      InsertAt(m, last, p);
      LastHeader(hs, p);
    }
    forall i | 0 <= i <= n && PathOf(hs[i]) != []
      ensures PathOf(hs[i]) in r && Carries(r[PathOf(hs[i])], hs[i])
    {
      InsertAt(m, last, PathOf(hs[i]));
      if i < n {
        assert before[i] == hs[i];
      }
    }
  }

  /** The order of the headers changes nothing but the order of names within directories. */
  lemma {:induction false} OrderForgotten(hs: seq<Header>, ks: seq<Header>)
    requires Acceptable(hs) && Acceptable(ks) && forall h :: h in hs <==> h in ks
    ensures Built(hs).Keys == Built(ks).Keys
    ensures forall p :: p in Built(hs) ==> SameData(Built(hs)[p], Built(ks)[p])
  {
    hide Built, PathOf, WellNamed, Acceptable, IsTreeOf;
    BuiltIs(hs);
    BuiltIs(ks);
    forall p
      ensures p in Built(hs) <==> p in Built(ks)
      ensures p in Built(hs) ==> SameData(Built(hs)[p], Built(ks)[p])
    {
      OneTree(hs, ks, Built(hs), Built(ks), p);
    }
  }

  /** The headers determine what the tree holds at a path. */
  lemma {:induction false} OneTree(hs: seq<Header>, ks: seq<Header>, m: Contents, n: Contents, p: Segs)
    requires IsTreeOf(m, hs) && IsTreeOf(n, ks) && forall h :: h in hs <==> h in ks
    ensures (p in m <==> p in n) && (p in m ==> SameData(m[p], n[p]))
  {
    hide PathOf, OnTheWay;
    SameWay(hs, ks, p);
    SameWay(ks, hs, p);
    if p in m && p != [] && HasHeader(hs, p) {
      var i :| 0 <= i < |hs| && PathOf(hs[i]) == p;
      assert hs[i] in ks;
      var j :| 0 <= j < |ks| && ks[j] == hs[i];
      assert Carries(m[p], hs[i]) && Carries(n[p], ks[j]);
    }
  }

  lemma SameWay(hs: seq<Header>, ks: seq<Header>, p: Segs)
    requires forall h :: h in hs ==> h in ks
    ensures OnTheWay(hs, p) ==> OnTheWay(ks, p)
    ensures HasHeader(hs, p) ==> HasHeader(ks, p)
  {
    hide PathOf;
    if OnTheWay(hs, p) {
      var i :| 0 <= i < |hs| && p <= PathOf(hs[i]);
      assert hs[i] in ks;
      var j :| 0 <= j < |ks| && ks[j] == hs[i];
    }
    if HasHeader(hs, p) {
      var i :| 0 <= i < |hs| && PathOf(hs[i]) == p;
      assert hs[i] in ks;
      var j :| 0 <= j < |ks| && ks[j] == hs[i];
    }
  }

  /** A header for "." is lost: the root stays the placeholder it was made as. */
  lemma RootHeaderLost(h: Header)
    requires h.isDir && PathOf(h) == [] && !Paths.IsAbs(h.name)
    ensures Acceptable([h]) && Built([h]) == Built([]) == EMPTY_TREE
  {
    assert [h][..0] == [];
    NoDirs(EMPTY_TREE, []);
  }

  // ---------- the stream ----------

  /** One header of the archive: its entry is made and put in the tree. */
  method AddHeader(t: Tree, h: Header)
    requires t.Valid() && WellNamed(h) && HasRoom(t.contents, PathOf(h), h.isDir)
    modifies t, t.repr
    ensures t.Valid() && fresh(t.repr - old(t.repr)) && [] in old(t.contents)
    ensures t.contents == Insert(old(t.contents), h)
  {
    hide Encode, Encoded, FileBase, Inserted, HasRoom, Paths.AllPlain, t.Valid;
    t.RootStays();
    EncodedIs(FileBase(h.name));
    var encoded := Vis(FileBase(h.name), DEFAULT_VIS_FLAGS);
    var e := new Node(encoded.value, false, "", null, h.keywords, h.base, PathOf(h));
    t.PopulateTree(e, h.name, h.isDir);
  }

  /** The loop over the archive's headers, which grows the tree. */
  method BuildTree(hs: seq<Header>) returns (t: Tree)
    requires Acceptable(hs)
    ensures t.Valid() && t.contents == Built(hs) && fresh(t) && fresh(t.repr)
  {
    hide PathOf, Insert, HasRoom, Built, WellNamed, Acceptable, t.Valid;
    NoHeaders();
    t := new Tree();
    assert hs[..0] == [];
    for i := 0 to |hs|
      invariant t.Valid() && fresh(t) && fresh(t.repr)
      invariant Acceptable(hs[..i]) && t.contents == Built(hs[..i])
    {
      BuiltSnoc(hs, i);
      AddHeader(t, hs[i]);
    }
    assert hs[..|hs|] == hs;
  }

  lemma NoHeaders()
    ensures Acceptable([]) && Built([]) == EMPTY_TREE
  {
  }

  lemma AcceptableBefore(hs: seq<Header>, n: nat)
    requires Acceptable(hs) && n <= |hs|
    ensures Acceptable(hs[..n])
  {
    hide PathOf, WellNamed;
  }

  lemma EachNamed(hs: seq<Header>, i: nat)
    requires Acceptable(hs) && i < |hs|
    ensures WellNamed(hs[i])
  {
  }

  lemma {:induction false} BuiltSnoc(hs: seq<Header>, i: nat)
    requires Acceptable(hs) && i < |hs|
    ensures Acceptable(hs[..i]) && Acceptable(hs[..i + 1])
    ensures WellNamed(hs[i]) && HasRoom(Built(hs[..i]), PathOf(hs[i]), hs[i].isDir)
    ensures Built(hs[..i + 1]) == Insert(Built(hs[..i]), hs[i])
  {
    hide PathOf, Insert, WellNamed, Acceptable, HasRoom, IsTreeOf;
    assert hs[..i + 1][..i] == hs[..i];
    EachNamed(hs, i);
    AcceptableBefore(hs, i);
    AcceptableBefore(hs, i + 1);
    BuiltIs(hs[..i]);
    RoomForLast(hs[..i + 1], Built(hs[..i]));
  }
}
