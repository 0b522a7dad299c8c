/** In which order a tar archive's manifest lists what a directory holds: files before directories, files in the
    reverse order of their headers, directories in the order in which headers first mention them. */
module TarOrder {
  import opened GoBytes
  import opened Keywords
  import opened Manifest
  import opened TarTree
  import opened TarLaws
  import opened TarFlatten
  import opened TarPrint
  import opened TarNesting
  import opened TarArchive
  import Walk
  import Paths

  /** A header mentions the first directory before any mentions the second. */
  predicate MentionedFirst(hs: seq<Header>, p: Segs, q: Segs) {
    exists i :: 0 <= i < |hs| && p <= PathOf(hs[i]) && forall j :: 0 <= j <= i ==> !(q <= PathOf(hs[j]))
  }

  /** The first file's header comes after that of the second. */
  predicate HeaderLater(hs: seq<Header>, p: Segs, q: Segs) {
    exists i, j :: 0 <= j < i < |hs| && PathOf(hs[i]) == p && PathOf(hs[j]) == q
  }

  /** What stands first in a directory and what stands later. */
  predicate InListing(hs: seq<Header>, p: Segs, pIsDir: bool, q: Segs, qIsDir: bool) {
    if qIsDir then pIsDir ==> MentionedFirst(hs, p, q) else !pIsDir && HeaderLater(hs, p, q)
  }

  /** The names in a directory are nodes, in that order. */
  predicate KidsOrderedAt(m: Contents, hs: seq<Header>, p: Segs)
    requires p in m
  {
    && (forall a :: 0 <= a < |m[p].kids| ==> p + [m[p].kids[a]] in m)
    && (forall a, b :: 0 <= a < b < |m[p].kids| ==>
          var x, y := p + [m[p].kids[a]], p + [m[p].kids[b]];
          InListing(hs, x, m[x].isDir, y, m[y].isDir))
  }

  predicate KidsOrdered(m: Contents, hs: seq<Header>) {
    forall p :: p in m ==> KidsOrderedAt(m, hs, p)
  }

  // ---------- one header ----------

  function KidsOf(m: Contents, p: Segs): seq<Bytes> {
    if p in m then m[p].kids else []
  }

  /** The name a directory gains when the first n directories on the way are made up: the next one, unless it is there. */
  function Gained(m: Contents, dirs: Segs, n: nat, p: Segs): seq<Bytes>
    requires n <= |dirs|
  {
    if |p| < n && p == dirs[..|p|] && dirs[..|p| + 1] !in m then [dirs[|p|]] else []
  }

  lemma GainedNext(m: Contents, dirs: Segs, n: nat, p: Segs)
    requires 0 < n <= |dirs|
    ensures Gained(m, dirs, n, p) == Gained(m, dirs, n - 1, p) + if p == dirs[..n - 1] && dirs[..n] !in m then [dirs[n - 1]] else []
  {
    if |p| == n - 1 {
      assert dirs[..|p| + 1] == dirs[..n];
    } else {
      assert p != dirs[..n - 1];
    }
  }

  /** Making up directories adds to each directory on the way the name of the next, last, unless it is there. */
  lemma {:induction false} WithDirsKids(m: Contents, dirs: Segs, n: nat, p: Segs)
    requires n <= |dirs| && [] in m
    ensures KidsOf(WithDirs(m, dirs, n), p) == KidsOf(m, p) + Gained(m, dirs, n, p)
  {
    hide Gained, KidsOf;
    if n > 0 {
      hide WithDirs;
      WithDirsKids(m, dirs, n - 1, p);
      WithDirsAt(m, dirs, n - 1, dirs[..n]);
      NotShorter(dirs, n);
      OneDirMore(m, dirs, n, p);
      GainedNext(m, dirs, n, p);
    } else {
      NoDirs(m, dirs);
      NothingGained(m, dirs, p);
    }
  }

  lemma NothingGained(m: Contents, dirs: Segs, p: Segs)
    ensures KidsOf(m, p) + Gained(m, dirs, 0, p) == KidsOf(m, p)
  {
    hide KidsOf;
  }

  lemma NotShorter(dirs: Segs, n: nat)
    requires 0 < n <= |dirs|
    ensures !(dirs[..n] <= dirs[..n - 1])
  {
    assert |dirs[..n]| == n && |dirs[..n - 1]| == n - 1;
  }

  lemma OneDirMore(m: Contents, dirs: Segs, n: nat, p: Segs)
    requires 0 < n <= |dirs| && [] in m
    requires dirs[..n] in WithDirs(m, dirs, n - 1) <==> dirs[..n] in m
    ensures KidsOf(WithDirs(m, dirs, n), p) ==
      KidsOf(WithDirs(m, dirs, n - 1), p) + if p == dirs[..n - 1] && dirs[..n] !in m then [dirs[n - 1]] else []
  {
    var before, q := WithDirs(m, dirs, n - 1), dirs[..n];
    assert Front(q) == dirs[..n - 1] && Walk.BaseName(q) == dirs[n - 1];
    if q !in before {
      GrownDir(before, q, Info(true, PLACEHOLDER, None, []), false);
    }
  }

  /** What a header does to the names in a directory: a new directory is last, a new file first. */
  lemma {:induction false} InsertKids(m: Contents, h: Header, p: Segs)
    requires [] in m && HasRoom(m, PathOf(h), h.isDir)
    ensures var path := PathOf(h);
      KidsOf(Insert(m, h), p) ==
        if !(|p| < |path| && p == path[..|p|] && path[..|p| + 1] !in m) then KidsOf(m, p)
        else if !h.isDir && |p| + 1 == |path| then [path[|p|]] + KidsOf(m, p)
        else KidsOf(m, p) + [path[|p|]]
  {
    hide WithDirs, PathOf, Grown;
    var path := PathOf(h);
    RoomPath(m, path, h.isDir);
    var dirs := Above(path, h.isDir);
    assert dirs[..|dirs|] == dirs;
    WithDirsKids(m, dirs, |dirs|, p);
    RoomAbove(m, path, h.isDir);
    if h.isDir {
      FilledKids(WithDirs(m, dirs, |dirs|), path, h, p);
    } else {
      FileFirst(m, h, dirs, p);
    }
  }

  lemma FilledKids(made: Contents, path: Segs, h: Header, p: Segs)
    requires path in made
    ensures KidsOf(if path == [] then made else made[path := made[path].(keywords := h.keywords, base := h.base)], p) == KidsOf(made, p)
  {
  }

  lemma InsertedFile(m: Contents, h: Header, dirs: Segs)
    requires [] in m && HasRoom(m, PathOf(h), h.isDir) && !h.isDir && PathOf(h) != [] && dirs == Front(PathOf(h))
    requires PathOf(h) !in WithDirs(m, dirs, |dirs|) && dirs in WithDirs(m, dirs, |dirs|)
    ensures Insert(m, h) == Grown(WithDirs(m, dirs, |dirs|), PathOf(h), Info(false, h.keywords, h.base, []), true)
  {
    hide WithDirs, PathOf, HasRoom, Grown;
  }

  lemma FileFirst(m: Contents, h: Header, dirs: Segs, p: Segs)
    requires [] in m && HasRoom(m, PathOf(h), h.isDir) && !h.isDir && PathOf(h) != [] && dirs == Front(PathOf(h))
    requires KidsOf(WithDirs(m, dirs, |dirs|), p) == KidsOf(m, p) + Gained(m, dirs, |dirs|, p)
    requires PathOf(h) !in WithDirs(m, dirs, |dirs|) && dirs in WithDirs(m, dirs, |dirs|) && PathOf(h) !in m
    ensures var path := PathOf(h);
      KidsOf(Insert(m, h), p) ==
        if !(|p| < |path| && p == path[..|p|] && path[..|p| + 1] !in m) then KidsOf(m, p)
        else if |p| + 1 == |path| then [path[|p|]] + KidsOf(m, p)
        else KidsOf(m, p) + [path[|p|]]
  {
    hide WithDirs, PathOf, HasRoom, Insert;
    var path := PathOf(h);
    assert dirs == path[..|path| - 1] && Walk.BaseName(path) == path[|path| - 1];
    assert path[..|path|] == path;
    assert KidsOf(m, p) + [] == KidsOf(m, p);
    InsertedFile(m, h, dirs);
    FileKids(WithDirs(m, dirs, |dirs|), path, Info(false, h.keywords, h.base, []), p);
    OnTheWayUp(path, dirs, p);
  }

  lemma OnTheWayUp(path: Segs, dirs: Segs, p: Segs)
    requires path != [] && dirs == path[..|path| - 1]
    ensures |p| < |dirs| && p == dirs[..|p|] <==> |p| + 1 < |path| && p == path[..|p|]
    ensures |p| < |dirs| ==> dirs[..|p| + 1] == path[..|p| + 1] && dirs[|p|] == path[|p|]
    ensures |p| + 1 == |path| ==> (p == path[..|p|] <==> p == dirs)
  {
  }

  lemma FileKids(made: Contents, path: Segs, info: Info, p: Segs)
    requires path != [] && Front(path) in made && path !in made && info.kids == []
    ensures KidsOf(Grown(made, path, info, true), p) ==
      if p == Front(path) then [Walk.BaseName(path)] + KidsOf(made, p) else KidsOf(made, p)
  {
  }

  // ---------- all headers ----------

  lemma MoreHeaders(before: seq<Header>, h: Header, p: Segs, pIsDir: bool, q: Segs, qIsDir: bool)
    requires InListing(before, p, pIsDir, q, qIsDir)
    ensures InListing(before + [h], p, pIsDir, q, qIsDir)
  {
    hide PathOf;
    var hs := before + [h];
    if qIsDir && pIsDir {
      var i :| 0 <= i < |before| && p <= PathOf(before[i]) && forall j :: 0 <= j <= i ==> !(q <= PathOf(before[j]));
      assert p <= PathOf(hs[i]) && forall j :: 0 <= j <= i ==> hs[j] == before[j];
    } else if !qIsDir {
      var i, j :| 0 <= j < i < |before| && PathOf(before[i]) == p && PathOf(before[j]) == q;
      assert PathOf(hs[i]) == p && PathOf(hs[j]) == q;
    }
  }

  /** A directory made up now was not mentioned before. */
  lemma NewDirectory(m: Contents, before: seq<Header>, h: Header, x: Segs, y: Segs)
    requires IsTreeOf(m, before) && x in m && x != [] && y !in m
    ensures MentionedFirst(before + [h], x, y)
  {
    hide PathOf;
    var hs := before + [h];
    assert OnTheWay(before, x) && !OnTheWay(before, y);
    var i :| 0 <= i < |before| && x <= PathOf(before[i]);
    forall j | 0 <= j <= i
      ensures !(y <= PathOf(hs[j]))
    {
      assert hs[j] == before[j];
    }
    assert x <= PathOf(hs[i]);
  }

  /** A file put first has the latest header. */
  lemma NewFile(m: Contents, before: seq<Header>, h: Header, y: Segs)
    requires IsTreeOf(m, before) && y in m && y != [] && !m[y].isDir
    ensures HeaderLater(before + [h], PathOf(h), y)
  {
    hide PathOf;
    var hs := before + [h];
    assert HasHeader(before, y);
    var j :| 0 <= j < |before| && PathOf(before[j]) == y;
    assert PathOf(hs[j]) == y && PathOf(hs[|before|]) == PathOf(h);
  }

  lemma {:induction false} InsertOrdered(m: Contents, before: seq<Header>, h: Header, p: Segs)
    requires IsTreeOf(m, before) && KidsOrdered(m, before) && [] in m && HasRoom(m, PathOf(h), h.isDir)
    requires p in Insert(m, h)
    ensures KidsOrderedAt(Insert(m, h), before + [h], p)
  {
    hide Insert, PathOf, IsTreeOf, HasRoom, InListing, SameData;
    var r, path, hs, old_ := Insert(m, h), PathOf(h), before + [h], KidsOf(m, p);
    InsertKids(m, h, p);
    forall a | 0 <= a < |old_|
      ensures p + [old_[a]] in m && p + [old_[a]] in r && r[p + [old_[a]]].isDir == m[p + [old_[a]]].isDir
    {
      assert KidsOrderedAt(m, before, p);
      KindKept(m, h, p + [old_[a]]);
    }
    forall a, b | 0 <= a < b < |old_|
      ensures var x, y := p + [old_[a]], p + [old_[b]]; InListing(hs, x, r[x].isDir, y, r[y].isDir)
    {
      assert KidsOrderedAt(m, before, p);
      var x, y := p + [old_[a]], p + [old_[b]];
      MoreHeaders(before, h, x, m[x].isDir, y, m[y].isDir);
    }
    if |p| < |path| && p == path[..|p|] && path[..|p| + 1] !in m {
      var new_ := path[..|p| + 1];
      assert new_ == p + [path[|p|]];
      NewNode(m, h, new_);
      forall a | 0 <= a < |old_|
        ensures var x := p + [old_[a]];
          if !h.isDir && |p| + 1 == |path| then InListing(hs, new_, r[new_].isDir, x, r[x].isDir)
          else InListing(hs, x, r[x].isDir, new_, r[new_].isDir)
      {
        NewAgainst(m, before, h, p, p + [old_[a]], new_);
      }
    }
  }

  lemma NewAgainst(m: Contents, before: seq<Header>, h: Header, p: Segs, x: Segs, new_: Segs)
    requires IsTreeOf(m, before) && [] in m && HasRoom(m, PathOf(h), h.isDir)
    requires |p| < |PathOf(h)| && new_ == PathOf(h)[..|p| + 1] && new_ !in m && x in m && x != []
    requires x in Insert(m, h) && Insert(m, h)[x].isDir == m[x].isDir
    requires new_ in Insert(m, h) && (Insert(m, h)[new_].isDir <==> h.isDir || |p| + 1 < |PathOf(h)|)
    ensures var r := Insert(m, h);
      if !h.isDir && |p| + 1 == |PathOf(h)| then InListing(before + [h], new_, r[new_].isDir, x, r[x].isDir)
      else InListing(before + [h], x, r[x].isDir, new_, r[new_].isDir)
  {
    hide Insert, PathOf, IsTreeOf, HasRoom, MentionedFirst, HeaderLater;
    assert PathOf(h)[..|PathOf(h)|] == PathOf(h);
    if !h.isDir && |p| + 1 == |PathOf(h)| {
      if !m[x].isDir {
        NewFile(m, before, h, x);
      }
    } else if m[x].isDir {
      NewDirectory(m, before, h, x, new_);
    }
  }

  /** Nodes stay what they were. */
  lemma {:induction false} KindKept(m: Contents, h: Header, q: Segs)
    requires [] in m && HasRoom(m, PathOf(h), h.isDir) && q in m
    ensures q in Insert(m, h) && Insert(m, h)[q].isDir == m[q].isDir
  {
    hide Insert, PathOf;
    InsertAt(m, h, q);
    assert PathOf(h)[..|PathOf(h)|] == PathOf(h);
  }

  lemma {:induction false} NewNode(m: Contents, h: Header, q: Segs)
    requires [] in m && HasRoom(m, PathOf(h), h.isDir) && q !in m && q <= PathOf(h) && q != []
    ensures q in Insert(m, h) && (Insert(m, h)[q].isDir <==> h.isDir || |q| < |PathOf(h)|)
  {
    hide Insert, PathOf, HasRoom;
    InsertAt(m, h, q);
  }

  lemma NoneOrdered()
    ensures KidsOrdered(Built([]), [])
  {
    NoHeaders();
  }

  /** In every directory of the tree that headers build files stand first, the last header's file foremost, then
      directories as headers mention them. */
  lemma {:induction false} BuiltOrdered(hs: seq<Header>)
    requires Acceptable(hs)
    ensures KidsOrdered(Built(hs), hs)
  {
    hide *;
    if hs == [] {
      NoneOrdered();
    } else {
      var n := |hs| - 1;
      var before, h := hs[..n], hs[n];
      AcceptableBefore(hs, n);
      BuiltOrdered(before);
      BuiltIs(before);
      SnocBuilt(hs);
      OrderedNext(Built(before), before, h);
    }
  }

  lemma SnocBuilt(hs: seq<Header>)
    requires Acceptable(hs) && hs != []
    ensures var n := |hs| - 1;
      && Acceptable(hs[..n]) && HasRoom(Built(hs[..n]), PathOf(hs[n]), hs[n].isDir)
      && Built(hs) == Insert(Built(hs[..n]), hs[n]) && hs == hs[..n] + [hs[n]]
  {
    hide *;
    BuiltSnoc(hs, |hs| - 1);
    assert hs[..|hs|] == hs;
  }

  lemma {:induction false} OrderedNext(m: Contents, before: seq<Header>, h: Header)
    requires IsTreeOf(m, before) && KidsOrdered(m, before) && [] in m && HasRoom(m, PathOf(h), h.isDir)
    ensures KidsOrdered(Insert(m, h), before + [h])
  {
    hide Insert, PathOf, KidsOrderedAt, HasRoom, IsTreeOf;
    forall p | p in Insert(m, h)
      ensures KidsOrderedAt(Insert(m, h), before + [h], p)
    {
      InsertOrdered(m, before, h, p);
    }
  }

  // ---------- in the manifest ----------

  /** The name stands before the other among these. */
  predicate Before(names: seq<Bytes>, x: Bytes, y: Bytes) {
    exists a, b :: 0 <= a < b < |names| && names[a] == x && names[b] == y
  }

  /** Nodes of one directory stand as their names in it. */
  predicate AsListed(m: Contents, stops: seq<Stop>) {
    forall i, j :: 0 <= i < j < |stops| && stops[i].path != [] && stops[j].path != [] && Front(stops[i].path) == Front(stops[j].path) ==>
      Front(stops[i].path) in m && Before(m[Front(stops[i].path)].kids, Walk.BaseName(stops[i].path), Walk.BaseName(stops[j].path))
  }

  lemma {:induction false} TreeAsListed(m: Contents, p: Segs, cur: Option<seq<KeyVal>>, keywords: seq<Keyword>)
    requires WellShaped(m) && p in m
    ensures AsListed(m, FlatTree(m, p, cur, keywords).stops)
    decreases Below(m, p), 1
  {
    PlainAt(m, p);
    KidsDiffer(m, p);
    hide FlatTree, FlatList, TarFlatten.Opening, StopsAt, WellShaped, Before;
    var opening := TarFlatten.Opening(p, m[p], cur, keywords);
    var kids := FlatList(m, p, m[p].kids, opening.cur, keywords).stops;
    OwnStop(m, p, cur, keywords);
    ListStops(m, p, m[p].kids, opening.cur, keywords);
    ListAsListed(m, p, m[p].kids, 0, opening.cur, keywords);
    StopsBelow(m, p, m[p].kids, kids);
    assert opening.stops == [opening.stops[0]];
    OwnIsNoSibling(m, p, opening.stops[0], kids);
  }

  lemma OwnIsNoSibling(m: Contents, p: Segs, own: Stop, below: seq<Stop>)
    requires own.path == p && AsListed(m, below) && forall i :: 0 <= i < |below| ==> |below[i].path| > |p|
    ensures AsListed(m, [own] + below)
  {
    hide Before;
    var s := [own] + below;
    forall i, j | 0 <= i < j < |s| && s[i].path != [] && s[j].path != [] && Front(s[i].path) == Front(s[j].path)
      ensures Front(s[i].path) in m && Before(m[Front(s[i].path)].kids, Walk.BaseName(s[i].path), Walk.BaseName(s[j].path))
    {
      assert s[j] == below[j - 1];
      if i > 0 {
        assert s[i] == below[i - 1];
      }
    }
  }

  lemma FirstName(m: Contents, p: Segs, names: seq<Bytes>, cur: Option<seq<KeyVal>>, keywords: seq<Keyword>)
    requires WellShaped(m) && p in m && names != [] && (forall i :: 0 <= i < |names| ==> p + [names[i]] in m)
    ensures var first := FlatTree(m, p + [names[0]], cur, keywords);
      FlatList(m, p, names, cur, keywords).stops == first.stops + FlatList(m, p, names[1..], first.cur, keywords).stops
  {
    hide WellShaped, FlatTree;
  }

  lemma {:induction false} ListAsListed(m: Contents, p: Segs, names: seq<Bytes>, n: nat, cur: Option<seq<KeyVal>>, keywords: seq<Keyword>)
    requires WellShaped(m) && p in m && (forall i :: 0 <= i < |names| ==> p + [names[i]] in m)
    requires forall i, j :: 0 <= i < j < |names| ==> names[i] != names[j]
    requires n <= |m[p].kids| && names == m[p].kids[n..]
    ensures AsListed(m, FlatList(m, p, names, cur, keywords).stops)
    decreases Below(m, p), 0, |names|
  {
    if names != [] {
      FirstName(m, p, names, cur, keywords);
      hide WellShaped, FlatTree, FlatList, StopsAt, AsListed, StopsThrough, StopsOnce, StopsOf;
      var k := names[0];
      var first := FlatTree(m, p + [k], cur, keywords);
      var rest := FlatList(m, p, names[1..], first.cur, keywords).stops;
      BelowShrinks(m, p, k);
      TreeAsListed(m, p + [k], cur, keywords);
      assert names[1..] == m[p].kids[n + 1..];
      ListAsListed(m, p, names[1..], n + 1, first.cur, keywords);
      TreeStops(m, p + [k], cur, keywords);
      ListStops(m, p, names[1..], first.cur, keywords);
      StopsBelow(m, p, names[1..], rest);
      StopsWithin(first.stops, p + [k]);
      ListedThen(m, p, n, names, first.stops, rest);
    }
  }

  lemma StopsWithin(stops: seq<Stop>, p: Segs)
    requires forall q :: StopsAt(stops, q) ==> p <= q
    ensures forall i :: 0 <= i < |stops| ==> p <= stops[i].path
  {
    forall i | 0 <= i < |stops|
      ensures p <= stops[i].path
    {
      assert StopsAt(stops, stops[i].path);
    }
  }

  lemma {:induction false} ListedThen(m: Contents, p: Segs, n: nat, names: seq<Bytes>, first: seq<Stop>, rest: seq<Stop>)
    requires p in m && n < |m[p].kids| && names == m[p].kids[n..] && AsListed(m, first) && AsListed(m, rest)
    requires forall i, j :: 0 <= i < j < |names| ==> names[i] != names[j]
    requires forall i :: 0 <= i < |first| ==> p + [names[0]] <= first[i].path
    requires forall i :: 0 <= i < |rest| ==> p <= rest[i].path && |rest[i].path| > |p| && rest[i].path[|p|] in names[1..]
    ensures AsListed(m, first + rest)
  {
    hide Before;
    var s := first + rest;
    forall i, j | 0 <= i < j < |s| && s[i].path != [] && s[j].path != [] && Front(s[i].path) == Front(s[j].path)
      ensures Front(s[i].path) in m && Before(m[Front(s[i].path)].kids, Walk.BaseName(s[i].path), Walk.BaseName(s[j].path))
    {
      if i < |first| <= j {
        ApartAsListed(m, p, n, names, s[i].path, s[j].path);
      } else if j < |first| {
        assert s[i] == first[i] && s[j] == first[j];
      } else {
        assert s[i] == rest[i - |first|] && s[j] == rest[j - |first|];
      }
    }
  }

  lemma ApartAsListed(m: Contents, p: Segs, n: nat, names: seq<Bytes>, x: Segs, y: Segs)
    requires p in m && n < |m[p].kids| && names == m[p].kids[n..] && p + [names[0]] <= x
    requires forall i, j :: 0 <= i < j < |names| ==> names[i] != names[j]
    requires p <= y && |y| > |p| && y[|p|] in names[1..] && x != [] && Front(x) == Front(y)
    ensures Front(x) in m && Before(m[Front(x)].kids, Walk.BaseName(x), Walk.BaseName(y))
  {
    var b :| 0 < b < |names| && names[b] == y[|p|];
    assert m[p].kids[n] == names[0] && m[p].kids[n + b] == names[b];
    assert x[|p|] == names[0] != names[b];
    FrontApart(x, y, |p|);
    assert Front(x) == p;
  }

  lemma FrontApart(x: Segs, y: Segs, n: nat)
    requires n < |x| && n < |y| && x[n] != y[n] && Front(x) == Front(y)
    ensures |x| == |y| == n + 1
  {
    assert Front(x) == x[..|x| - 1] && Front(y) == y[..|y| - 1];
    forall k | 0 <= k < |x| - 1
      ensures x[k] == y[k]
    {
      assert Front(x)[k] == Front(y)[k];
    }
  }

  /** In the manifest of an archive, of two entries of one directory: a file is before a directory, of two files the one
      with the later header is first, of two directories the one mentioned first. */
  lemma {:induction false} ArchiveInOrder(hs: seq<Header>, keywords: seq<Keyword>, i: nat, j: nat)
    requires Acceptable(hs)
    ensures WellShaped(Built(hs))
    ensures var nodes := Nodes(Built(hs), keywords);
      i < j < |nodes| && nodes[i].path != [] && nodes[j].path != [] && Front(nodes[i].path) == Front(nodes[j].path) ==>
        InListing(hs, nodes[i].path, nodes[i].isDir, nodes[j].path, nodes[j].isDir)
  {
    BuiltShaped(hs);
    BuiltOrdered(hs);
    hide Built, WellShaped, FlatTree, StopsAt, InListing, Acceptable, KidsOrdered, Before, StopsOnce;
    var m := Built(hs);
    var nodes := Nodes(m, keywords);
    TreeStops(m, [], None, keywords);
    TreeAsListed(m, [], None, keywords);
    if i < j < |nodes| && nodes[i].path != [] && nodes[j].path != [] && Front(nodes[i].path) == Front(nodes[j].path) {
      ListedInOrder(m, hs, nodes[i].path, nodes[j].path);
    }
  }

  lemma ListedInOrder(m: Contents, hs: seq<Header>, x: Segs, y: Segs)
    requires KidsOrdered(m, hs) && x != [] && y != [] && Front(x) == Front(y) && Front(x) in m
    requires Before(m[Front(x)].kids, Walk.BaseName(x), Walk.BaseName(y))
    ensures x in m && y in m && InListing(hs, x, m[x].isDir, y, m[y].isDir)
  {
    hide InListing;
    var p := Front(x);
    var a, b :| 0 <= a < b < |m[p].kids| && m[p].kids[a] == Walk.BaseName(x) && m[p].kids[b] == Walk.BaseName(y);
    assert KidsOrderedAt(m, hs, p);
    assert x == p + [m[p].kids[a]] && y == p + [m[p].kids[b]];
  }

  // ---------- the sets of directories ----------

  /** Among the names no file stands after a directory. */
  predicate FilesLead(m: Contents, p: Segs, names: seq<Bytes>)
    requires forall i :: 0 <= i < |names| ==> p + [names[i]] in m
  {
    forall i, j :: 0 <= i < j < |names| && !m[p + [names[j]]].isDir ==> !m[p + [names[i]]].isDir
  }

  /** The files directly in the directory are laid out under this set. */
  predicate FilesUnder(stops: seq<Stop>, p: Segs, cur: Option<seq<KeyVal>>) {
    forall i :: 0 <= i < |stops| && !stops[i].isDir && |stops[i].path| == |p| + 1 && p <= stops[i].path ==> stops[i].base == cur
  }

  lemma {:induction false} FilesShareSet(m: Contents, p: Segs, names: seq<Bytes>, cur: Option<seq<KeyVal>>, keywords: seq<Keyword>)
    requires WellShaped(m) && p in m && (forall i :: 0 <= i < |names| ==> p + [names[i]] in m)
    requires (forall i, j :: 0 <= i < j < |names| ==> names[i] != names[j]) && FilesLead(m, p, names)
    ensures FilesUnder(FlatList(m, p, names, cur, keywords).stops, p, cur)
    decreases |names|
  {
    if names != [] {
      FirstName(m, p, names, cur, keywords);
      hide WellShaped, FlatTree, FlatList, StopsAt, StopsOnce, StopsThrough, FilesUnder, FilesLead, StopsOf;
      LeadRest(m, p, names);
      var k := names[0];
      var first := FlatTree(m, p + [k], cur, keywords);
      var rest := FlatList(m, p, names[1..], first.cur, keywords).stops;
      BelowShrinks(m, p, k);
      TreeStops(m, p + [k], cur, keywords);
      ListStops(m, p, names[1..], first.cur, keywords);
      StopsBelow(m, p, names[1..], rest);
      StopsWithin(first.stops, p + [k]);
      assert StopsOf(m, rest) by {
        ThroughOf(m, p, names[1..], rest);
      }
      FilesShareSet(m, p, names[1..], first.cur, keywords);
      if m[p + [k]].isDir {
        OnlyDirs(m, p, names, first.stops, rest, cur);
      } else {
        FileAlone(m, p + [k], cur, keywords);
        FilesThen(first.stops, rest, p, cur);
      }
    }
  }

  lemma LeadRest(m: Contents, p: Segs, names: seq<Bytes>)
    requires names != [] && (forall i :: 0 <= i < |names| ==> p + [names[i]] in m) && FilesLead(m, p, names)
    ensures FilesLead(m, p, names[1..])
  {
  }

  lemma ThroughOf(m: Contents, p: Segs, names: seq<Bytes>, stops: seq<Stop>)
    requires StopsThrough(m, p, names, stops)
    ensures StopsOf(m, stops)
  {
    hide StopsOf, StopsOnce, StopsAt;
  }

  lemma FilesThen(a: seq<Stop>, b: seq<Stop>, p: Segs, cur: Option<seq<KeyVal>>)
    requires |a| == 1 && a[0].base == cur && FilesUnder(b, p, cur)
    ensures FilesUnder(a + b, p, cur)
  {
  }

  /** After a directory there are only directories. */
  lemma OnlyDirs(m: Contents, p: Segs, names: seq<Bytes>, first: seq<Stop>, rest: seq<Stop>, cur: Option<seq<KeyVal>>)
    requires names != [] && (forall i :: 0 <= i < |names| ==> p + [names[i]] in m) && FilesLead(m, p, names) && m[p + [names[0]]].isDir
    requires StopsOf(m, first) && StopsOf(m, rest) && forall i :: 0 <= i < |first| ==> p + [names[0]] <= first[i].path
    requires forall i :: 0 <= i < |rest| ==> p <= rest[i].path && |rest[i].path| > |p| && rest[i].path[|p|] in names[1..]
    ensures FilesUnder(first + rest, p, cur)
  {
    forall i | 0 <= i < |rest| && |rest[i].path| == |p| + 1
      ensures rest[i].isDir
    {
      var j :| 0 < j < |names| && names[j] == rest[i].path[|p|];
      assert rest[i].path == p + [names[j]];
    }
    forall i | 0 <= i < |first| && |first[i].path| == |p| + 1
      ensures first[i].isDir
    {
      assert first[i].path == p + [names[0]];
    }
  }

  lemma FileAlone(m: Contents, q: Segs, cur: Option<seq<KeyVal>>, keywords: seq<Keyword>)
    requires WellShaped(m) && q in m && !m[q].isDir
    ensures FlatTree(m, q, cur, keywords).stops == [Stop(q, false, m[q].keywords, cur)] && FlatTree(m, q, cur, keywords).cur == cur
  {
    assert ShapedAt(m, q);
    hide WellShaped;
  }

  predicate IsFileIn(s: Stop, p: Segs) {
    !s.isDir && s.path != [] && Front(s.path) == p
  }

  /** Every file is laid out under the set of its directory. */
  predicate SharesSet(stops: seq<Stop>) {
    forall i, j :: 0 <= i < |stops| && 0 <= j < |stops| && stops[i].isDir && IsFileIn(stops[j], stops[i].path) ==>
      stops[j].base == stops[i].base
  }

  /** In every directory files lead. */
  ghost predicate AllFilesLead(m: Contents) {
    forall p :: p in m ==> (forall i :: 0 <= i < |m[p].kids| ==> p + [m[p].kids[i]] in m) && FilesLead(m, p, m[p].kids)
  }

  lemma {:induction false} TreeSharesSet(m: Contents, p: Segs, cur: Option<seq<KeyVal>>, keywords: seq<Keyword>)
    requires WellShaped(m) && p in m && AllFilesLead(m)
    ensures SharesSet(FlatTree(m, p, cur, keywords).stops)
    decreases Below(m, p), 1
  {
    PlainAt(m, p);
    KidsDiffer(m, p);
    hide FlatTree, FlatList, TarFlatten.Opening, StopsAt, WellShaped;
    var opening := TarFlatten.Opening(p, m[p], cur, keywords);
    var kids := FlatList(m, p, m[p].kids, opening.cur, keywords).stops;
    OwnStop(m, p, cur, keywords);
    OwnBase(m, p, cur, keywords);
    ListStops(m, p, m[p].kids, opening.cur, keywords);
    FilesShareSet(m, p, m[p].kids, opening.cur, keywords);
    ListSharesSet(m, p, m[p].kids, opening.cur, keywords);
    StopsBelow(m, p, m[p].kids, kids);
    assert opening.stops == [opening.stops[0]];
    OwnShares(p, opening.stops[0], kids);
  }

  lemma OwnBase(m: Contents, p: Segs, cur: Option<seq<KeyVal>>, keywords: seq<Keyword>)
    requires p in m
    ensures var o := TarFlatten.Opening(p, m[p], cur, keywords); |o.stops| == 1 && o.stops[0].base == o.cur
  {
  }

  lemma OwnShares(p: Segs, own: Stop, below: seq<Stop>)
    requires own.path == p && SharesSet(below) && FilesUnder(below, p, own.base)
    requires forall i :: 0 <= i < |below| ==> p <= below[i].path && |below[i].path| > |p|
    ensures SharesSet([own] + below)
  {
    var s := [own] + below;
    assert forall i :: 0 < i < |s| ==> s[i] == below[i - 1] && |s[i].path| > |p|;
    forall i, j | 0 <= i < |s| && 0 <= j < |s| && s[i].isDir && IsFileIn(s[j], s[i].path)
      ensures s[j].base == s[i].base
    {
      if j > 0 {
        assert s[j] == below[j - 1];
        if i > 0 {
          assert s[i] == below[i - 1];
        }
      }
    }
  }

  lemma {:induction false} ListSharesSet(m: Contents, p: Segs, names: seq<Bytes>, cur: Option<seq<KeyVal>>, keywords: seq<Keyword>)
    requires WellShaped(m) && p in m && AllFilesLead(m) && (forall i :: 0 <= i < |names| ==> p + [names[i]] in m)
    requires forall i, j :: 0 <= i < j < |names| ==> names[i] != names[j]
    ensures SharesSet(FlatList(m, p, names, cur, keywords).stops)
    decreases Below(m, p), 0, |names|
  {
    if names != [] {
      FirstName(m, p, names, cur, keywords);
      hide WellShaped, FlatTree, FlatList, StopsAt, StopsThrough, StopsOnce, StopsOf, AllFilesLead, SharesSet, Outside;
      var k := names[0];
      var first := FlatTree(m, p + [k], cur, keywords);
      var rest := FlatList(m, p, names[1..], first.cur, keywords).stops;
      BelowShrinks(m, p, k);
      TreeSharesSet(m, p + [k], cur, keywords);
      ListSharesSet(m, p, names[1..], first.cur, keywords);
      TreeStops(m, p + [k], cur, keywords);
      ListStops(m, p, names[1..], first.cur, keywords);
      StopsBelow(m, p, names[1..], rest);
      TarNesting.Apart(p, k, names[1..], first.stops, rest);
      SharesThen(first.stops, rest);
    }
  }

  lemma SharesThen(a: seq<Stop>, b: seq<Stop>)
    requires SharesSet(a) && SharesSet(b) && Outside(a, b)
    ensures SharesSet(a + b)
  {
    var s := a + b;
    forall i, j | 0 <= i < |s| && 0 <= j < |s| && s[i].isDir && IsFileIn(s[j], s[i].path)
      ensures s[j].base == s[i].base
    {
      assert Inside(s[j].path, s[i].path);
      if i < |a| {
        assert j < |a|;
      } else {
        assert j >= |a| && s[i] == b[i - |a|] && s[j] == b[j - |a|];
      }
    }
  }

  /** In the manifest of an archive every file is under the set in force for its directory. */
  lemma {:induction false} ArchiveSharesSet(hs: seq<Header>, keywords: seq<Keyword>)
    requires Acceptable(hs)
    ensures WellShaped(Built(hs)) && SharesSet(Nodes(Built(hs), keywords))
  {
    BuiltShaped(hs);
    BuiltOrdered(hs);
    hide Built, WellShaped, FlatTree, Acceptable;
    var m := Built(hs);
    forall p | p in m
      ensures (forall i :: 0 <= i < |m[p].kids| ==> p + [m[p].kids[i]] in m) && FilesLead(m, p, m[p].kids)
    {
      assert KidsOrderedAt(m, hs, p);
    }
    TreeSharesSet(m, [], None, keywords);
  }

  // ---------- what is printed for a directory ----------

  predicate IsTarDefault(kv: KeyVal) {
    kv == "type=file" || kv == "flags=none" || kv == "mode=0664"
  }

  predicate IsAsked(keywords: seq<Keyword>, kv: KeyVal) {
    exists i :: 0 <= i < |keywords| && Prefix(keywords[i]) == Prefix(KeywordOf(kv))
  }

  /** A set line of an archive: the defaults and what the directory's header gives for it, as far as asked for. */
  ghost predicate IsTarSet(set_: seq<KeyVal>, base: seq<KeyVal>, keywords: seq<Keyword>) {
    forall kv :: kv in set_ <==> (IsTarDefault(kv) || kv in base) && IsAsked(keywords, kv)
  }

  predicate IsEntryOf(item: Item, p: Segs) {
    item.Named? && item.name == Encoded(if p == [] then "." else p[|p| - 1])
  }

  /** A directory opens with a blank, a comment with its path, a line that makes the set in force what its header gives for
      it, none for a directory without a header, and its entry; it closes with the comment and "..". */
  lemma {:induction false} TarDirectoryPrinted(m: Contents, p: Segs, cur: Option<seq<KeyVal>>, keywords: seq<Keyword>)
    requires WellShaped(m) && p in m && m[p].isDir
    ensures var items, set_ := FlatTree(m, p, cur, keywords).items, FlatTree(m, p, cur, keywords).stops[0].base;
      && |items| >= 5 && items[0] == Blank && items[1] == Comment("# " + Walk.PathText(p))
      && items[|items| - 2] == items[1] && items[|items| - 1] == DotDot("..")
      && match m[p].base
         case None => set_ == None && (if cur.None? then IsEntryOf(items[2], p) else items[2] == Special("/unset", []) && IsEntryOf(items[3], p))
         case Some(base) =>
           if cur.Some? && (forall kv :: kv in base ==> kv in cur.value) then set_ == cur && IsEntryOf(items[2], p)
           else set_.Some? && items[2] == Special("/set", set_.value) && IsTarSet(set_.value, base, keywords) && IsEntryOf(items[3], p)
  {
    TarDirectoryItems(m, p, cur, keywords);
    SetFacts(m[p].base, cur, keywords);
    ItemIsEntry(p, m[p], SetFor(m[p].base, cur, keywords));
    hide WellShaped, FlatTree, TarFlatten.SetItems, SetFor, NodeItem, Walk.PathText, IsTarSet, IsEntryOf;
  }

  lemma TarDirectoryItems(m: Contents, p: Segs, cur: Option<seq<KeyVal>>, keywords: seq<Keyword>)
    requires WellShaped(m) && p in m && m[p].isDir
    ensures var flat, heading := FlatTree(m, p, cur, keywords), Comment("# " + Walk.PathText(p));
      var head := [Blank, heading] + TarFlatten.SetItems(m[p].base, cur, keywords) + [NodeItem(p, m[p], SetFor(m[p].base, cur, keywords))];
      && head <= flat.items && |flat.items| >= |head| + 2
      && flat.items[|flat.items| - 2] == heading && flat.items[|flat.items| - 1] == DotDot("..")
      && flat.stops != [] && flat.stops[0].base == SetFor(m[p].base, cur, keywords)
  {
    PlainAt(m, p);
    hide WellShaped, FlatList, SetFor, TarFlatten.SetItems, NodeItem, Walk.PathText;
  }

  lemma ItemIsEntry(p: Segs, info: Info, cur: Option<seq<KeyVal>>)
    ensures IsEntryOf(NodeItem(p, info, cur), p)
  {
  }

  /** The set line of a directory, and the set it leaves in force. */
  lemma SetFacts(base: Option<seq<KeyVal>>, cur: Option<seq<KeyVal>>, keywords: seq<Keyword>)
    ensures var items, set_ := TarFlatten.SetItems(base, cur, keywords), SetFor(base, cur, keywords);
      match base
      case None => set_ == None && items == if cur.None? then [] else [Special("/unset", [])]
      case Some(b) =>
        if cur.Some? && (forall kv :: kv in b ==> kv in cur.value) then set_ == cur && items == []
        else set_.Some? && items == [Special("/set", set_.value)] && IsTarSet(set_.value, b, keywords)
  {
    hide Selected, IsTarSet;
    if base.Some? {
      var b := base.value;
      TarSetIs(b, keywords);
      if cur.Some? {
        forall kv | kv in b && kv !in cur.value
          ensures exists i :: 0 <= i < |b| && b[i] !in cur.value
        {
          var i :| 0 <= i < |b| && b[i] == kv;
        }
      }
    }
  }

  lemma TarSetIs(base: seq<KeyVal>, keywords: seq<Keyword>)
    ensures IsTarSet(Selected(TAR_DEFAULT_SET + base, keywords), base, keywords)
  {
    hide KeywordOf, Prefix, Selected;
    forall kv
      ensures kv in Selected(TAR_DEFAULT_SET + base, keywords) <==> (IsTarDefault(kv) || kv in base) && IsAsked(keywords, kv)
    {
      SelectedElements(TAR_DEFAULT_SET + base, keywords, kv);
      assert kv in TAR_DEFAULT_SET <==> IsTarDefault(kv);
    }
  }
}
