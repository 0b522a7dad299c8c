/** The tree a tar stream's headers grow into, tar.go:226-295, and how it is searched, entry.go:31-63.
    Nodes are linked and changed in place; what the tree holds is a map from paths. */
module TarTree {
  import opened GoBytes
  import opened GoStrings
  import opened Govis
  import opened GovisLaws
  import opened Keywords
  import Paths
  import opened Walk

  type Segs = seq<Bytes>

  const PLACEHOLDER: seq<KeyVal> := ["type=dir"]

  function Encoded(name: Bytes): Bytes {
    VisBytes(name, DEFAULT_VIS_FLAGS)
  }

  function Front(path: Segs): Segs
    requires path != []
  {
    path[..|path| - 1]
  }

  /** What the tree says of a path: whether it is a directory, its keywords and set keywords, and the
      names in it in the order they are kept. */
  datatype Info = Info(isDir: bool, keywords: seq<KeyVal>, base: Option<seq<KeyVal>>, kids: seq<Bytes>)

  type Contents = map<Segs, Info>

  // ---------- nodes ----------

  /** An Entry of the tree.  Only directories have a comment to print before and after them. */
  class Node {
    const name: Bytes
    const isDir: bool
    const comment: Bytes
    var parent: Node?
    var children: seq<Node>
    var keywords: seq<KeyVal>
    var base: Option<seq<KeyVal>>
    ghost const path: Segs

    constructor (name: Bytes, isDir: bool, comment: Bytes, parent: Node?, keywords: seq<KeyVal>, base: Option<seq<KeyVal>>,
                 ghost path: Segs)
      ensures this.name == name && this.isDir == isDir && this.comment == comment && this.parent == parent
      ensures this.keywords == keywords && this.base == base && this.path == path && children == []
    {
      this.name, this.isDir, this.comment, this.parent := name, isDir, comment, parent;
      this.keywords, this.base, this.path, children := keywords, base, path, [];
    }

    /** Searches the children from the back.  "." and "" give a copy of the node, because the
        receiver is one. */
    method Descend(filename: Bytes) returns (r: Node?)
      ensures r != null && filename != "." && filename != "" ==>
        exists i :: 0 <= i < |children| && children[i] == r && forall j :: i < j < |children| ==> children[j].name != filename
      ensures filename == "." || filename == "" ==>
        && r != null && fresh(r) && r.name == name && r.isDir == isDir && r.comment == comment && r.path == path
        && r.parent == parent && r.children == children && r.keywords == keywords && r.base == base
      ensures filename != "." && filename != "" ==>
        if r == null then forall i :: 0 <= i < |children| ==> children[i].name != filename
        else r in children && r.name == filename
    {
      if filename == "." || filename == "" {
        r := new Node(name, isDir, comment, parent, keywords, base, path);
        r.children := children;
        return r;
      }
      var numChildren := |children|;
      for i := 0 to numChildren
        invariant forall j :: numChildren - i <= j < numChildren ==> children[j].name != filename
      {
        var c := children[numChildren - 1 - i];
        if c.name == filename {
          return c;
        }
      }
      return null;
    }
  }

  ghost function LastNames(children: seq<Node>): (names: seq<Bytes>)
    ensures |names| == |children| && forall i :: 0 <= i < |names| ==> names[i] == BaseName(children[i].path)
  {
    seq(|children|, i requires 0 <= i < |children| => BaseName(children[i].path))
  }

  ghost predicate Different(children: seq<Node>) {
    forall i, j :: 0 <= i < j < |children| ==> children[i] != children[j]
  }

  lemma DistinctGrow(before: seq<Node>, c: Node, first: bool)
    requires Different(before) && c !in before
    ensures Different(if first then [c] + before else before + [c])
  {
  }

  // ---------- file names ----------

  function UpToSlash(path: Bytes): Bytes {
    if path == [] || path[|path| - 1] == '/' then path else UpToSlash(path[..|path| - 1])
  }

  function AfterSlash(path: Bytes): Bytes {
    if path == [] || path[|path| - 1] == '/' then [] else AfterSlash(path[..|path| - 1]) + [path[|path| - 1]]
  }

  function WithoutEndSlashes(path: Bytes): Bytes {
    if path != [] && path[|path| - 1] == '/' then WithoutEndSlashes(path[..|path| - 1]) else path
  }

  /** filepath.Dir */
  function FileDir(path: Bytes): Bytes {
    Paths.Clean(UpToSlash(path))
  }

  /** filepath.Base */
  function FileBase(path: Bytes): Bytes {
    if path == "" then "."
    else
      var base := AfterSlash(WithoutEndSlashes(path));
      if base == "" then "/" else base
  }

  lemma {:induction false} CutLast(above: Bytes, name: Bytes)
    requires '/' !in name
    ensures UpToSlash(above + ['/'] + name) == above + ['/'] && AfterSlash(above + ['/'] + name) == name
    ensures UpToSlash(name) == [] && AfterSlash(name) == name
  {
    if name == [] {
      assert above + ['/'] + name == above + ['/'];
    } else {
      var n := |name| - 1;
      CutLast(above, name[..n]);
      assert name[n] in name;
      assert name[..n] + [name[n]] == name;
      OneMore(above + ['/'] + name[..n], name[n]);
      OneMore(name[..n], name[n]);
      assert (above + ['/'] + name[..n]) + [name[n]] == above + ['/'] + name;
    }
  }

  lemma OneMore(path: Bytes, c: Byte)
    requires c != '/'
    ensures UpToSlash(path + [c]) == UpToSlash(path) && AfterSlash(path + [c]) == AfterSlash(path) + [c]
  {
    assert (path + [c])[..|path|] == path;
  }

  lemma TextIsCleaned(path: Segs)
    requires Paths.AllPlain(path)
    ensures Paths.Clean(PathText(path)) == PathText(path) && Paths.Segments(PathText(path)) == path && !Paths.IsAbs(PathText(path))
    ensures Split(PathText(path), '/') == if path == [] then ["."] else path
  {
    Paths.SegmentsOfRender(false, path);
    Paths.SplitRender(false, path);
  }

  lemma JoinedText(path: Segs)
    requires |path| > 1
    ensures PathText(path) == PathText(Front(path)) + ['/'] + BaseName(path)
  {
    JoinConcat(Front(path), [BaseName(path)], '/');
    assert path == Front(path) + [BaseName(path)];
  }

  lemma DirOfText(path: Segs)
    requires Paths.AllPlain(path) && path != []
    ensures FileDir(PathText(path)) == PathText(Front(path))
  {
    hide Paths.Clean;
    var name := BaseName(path);
    if |path| == 1 {
      CutLast([], name);
      TextIsCleaned([]);
      assert Split([], '/') == [[]];
      DotOfNothing();
    } else {
      var above := PathText(Front(path));
      CutLast(above, name);
      JoinedText(path);
      TextIsCleaned(Front(path));
      EndSlash(above, Front(path));
    }
  }

  lemma DotOfNothing()
    ensures Paths.Clean([]) == PathText([])
  {
    assert Split([], '/') == [[]];
  }

  lemma EndSlash(above: Bytes, path: Segs)
    requires above != [] && !Paths.IsAbs(above) && Split(above, '/') == path && Paths.AllPlain(path)
    ensures Paths.Clean(above + ['/']) == PathText(path)
  {
    SplitConcat(above, [], '/');
    assert above + ['/'] + [] == above + ['/'];
    assert Split([], '/') == [[]];
    Paths.CollapseConcat(path, [[]], false, []);
    Paths.CollapseKeepsClean(path, false, []);
    assert [] + path == path;
    assert Paths.Collapse([[]], false, path) == Paths.Collapse([[]][1..], false, path);
  }

  /** The elements of a path that name something. */
  function Named(parts: seq<Bytes>): Segs {
    if parts == [] then []
    else
      var last := parts[|parts| - 1];
      Named(parts[..|parts| - 1]) + if last == "." || last == "" then [] else [last]
  }

  lemma NamedSnoc(parts: seq<Bytes>, i: nat)
    requires i < |parts|
    ensures parts[i] == "." || parts[i] == "" ==> Named(parts[..i + 1]) == Named(parts[..i])
    ensures parts[i] != "." && parts[i] != "" ==>
      Named(parts[..i + 1]) == Named(parts[..i]) + [parts[i]] && Front(Named(parts[..i + 1])) == Named(parts[..i])
  {
    assert parts[..i + 1][..i] == parts[..i];
    assert Named(parts[..i]) + [] == Named(parts[..i]);
  }

  lemma {:induction false} NamedAll(parts: seq<Bytes>)
    ensures Paths.AllPlain(parts) ==> Named(parts) == parts
  {
    if parts != [] {
      NamedAll(parts[..|parts| - 1]);
      assert parts == parts[..|parts| - 1] + [parts[|parts| - 1]];
    }
  }

  lemma PlainHasName(name: Bytes)
    ensures Paths.IsPlain(name) ==> name != "." && name != ""
  {
  }

  // ---------- the tree ----------

  class Tree {
    const root: Node
    ghost var nodes: map<Segs, Node>
    ghost var repr: set<Node>
    ghost var contents: Contents

    /** The node at a path is the one linked there, and is as the contents say. */
    ghost predicate Placed(p: Segs)
      requires p in nodes
      reads this, repr
    {
      var n := nodes[p];
      && n in repr && n.path == p
      && p in contents && contents[p] == Info(n.isDir, n.keywords, n.base, LastNames(n.children))
      && Paths.AllPlain(p) && n.name == Encoded(BaseName(p))
      && (n.isDir ==> n.comment == "# " + PathText(p))
      && (if p == [] then n.parent == null
          else Front(p) in nodes && nodes[Front(p)] in repr && n.parent == nodes[Front(p)] && n in nodes[Front(p)].children)
      && (n.children != [] ==> n.isDir)
      && (forall i :: 0 <= i < |n.children| ==> Linked(p, n.children[i]))
      && Different(n.children)
    }

    ghost predicate Linked(p: Segs, child: Node)
      reads this
    {
      child in repr && child.path != [] && Front(child.path) == p && child.path in nodes && nodes[child.path] == child
    }

    ghost predicate Valid()
      reads this, repr
    {
      && [] in nodes && nodes[[]] == root && root.isDir && contents.Keys == nodes.Keys
      && (forall p {:trigger Placed(p)} :: p in nodes ==> Placed(p))
    }

    /** The root: the directory the archive is unpacked in. */
    constructor ()
      ensures Valid() && contents == EMPTY_TREE && fresh(repr)
    {
      hide Encoded, PathText;
      root := new Node(".", true, "# .", null, PLACEHOLDER, None, []);
      new;
      RootNames();
      nodes, repr, contents := map[[] := root], {root}, EMPTY_TREE;
      assert Placed([]);
    }

    /** The node stands for its path: it is the node of the tree there, or a copy of it. */
    ghost predicate Stands(n: Node)
      reads this, repr, n
    {
      n.path in nodes && nodes[n.path] in repr && n.children == nodes[n.path].children
    }

    /** Descend in the tree: a copy for "." and "", otherwise the child of the name, if there is one. */
    method Search(n: Node, encoded: Bytes, ghost x: Bytes) returns (r: Node?)
      requires Valid() && Stands(n) && encoded == Encoded(x)
      ensures x == "." || x == "" ==> r != null && fresh(r) && r.path == n.path && Stands(r) && r.keywords == n.keywords
      ensures x != "." && x != "" ==> r == if n.path + [x] in nodes then nodes[n.path + [x]] else null
    {
      hide Placed, Linked, Encoded, Valid;
      SearchedName(x);
      r := n.Descend(encoded);
      if x != "." && x != "" {
        if r == null {
          if n.path + [x] in nodes {
            ChildListed(n.path + [x]);
          }
        } else {
          var i :| 0 <= i < |n.children| && n.children[i] == r;
          ChildPlaced(n.path, i);
          EncodedInjective(BaseName(r.path), x);
          assert r.path == n.path + [x];
        }
      }
    }

    /** Where Find stands after some elements: at the node of the path they name if the last one is a
        name, and at a copy of it if it is "." or nothing. */
    ghost predicate FoundBy(parts: seq<Bytes>, n: Node)
      reads this, repr, n
    {
      && Stands(n) && n.path == Named(parts) && n.keywords == nodes[n.path].keywords
      && (if parts != [] && Paths.IsPlain(parts[|parts| - 1]) then n == nodes[n.path] else n !in repr)
    }

    /** One element more. */
    method FindNext(n: Node, parts: seq<Bytes>, i: nat) returns (r: Node?)
      requires Valid() && i < |parts| && FoundBy(parts[..i], n)
      ensures r == null ==> Named(parts[..i + 1]) !in nodes
      ensures r != null ==> FoundBy(parts[..i + 1], r) && (r in repr || fresh(r))
    {
      StandsThere(parts[..i], n);
      hide Placed, Linked, Encoded, Encode, Valid, Stands, Paths.IsPlain, Named, FoundBy;
      var encoded := Vis(parts[i], DEFAULT_VIS_FLAGS);
      EncodedIs(parts[i]);
      NamedSnoc(parts, i);
      assert parts[..i + 1][i] == parts[i];
      r := Search(n, encoded.value, parts[i]);
      PlainHasName(parts[i]);
      if r != null {
        StandsItself(n.path);
        if parts[i] != "." && parts[i] != "" {
          NamesArePlain(n.path + [parts[i]], parts[i]);
          StandsItself(n.path + [parts[i]]);
        }
        IsFound(parts[..i + 1], r);
      }
    }

    lemma StandsThere(parts: seq<Bytes>, n: Node)
      requires FoundBy(parts, n)
      ensures Stands(n) && n.path == Named(parts) && n.path in nodes && n.keywords == nodes[n.path].keywords
    {
    }

    lemma IsFound(parts: seq<Bytes>, n: Node)
      requires Stands(n) && n.path == Named(parts) && n.keywords == nodes[n.path].keywords && parts != []
      requires if Paths.IsPlain(parts[|parts| - 1]) then n == nodes[n.path] else n !in repr
      ensures FoundBy(parts, n)
    {
    }

    lemma NamesArePlain(p: Segs, name: Bytes)
      requires Valid() && p in nodes && p != [] && p[|p| - 1] == name
      ensures Paths.IsPlain(name)
    {
      hide Paths.IsPlain;
      NodeFacts(p);
    }

    /** Entry.Find from the root, whose receiver is a copy as well. */
    method Find(filepath: Bytes) returns (r: Node?)
      requires Valid()
      ensures r != null <==> Named(Split(filepath, '/')) in nodes
      ensures r != null ==> FoundBy(Split(filepath, '/'), r) && (r in repr || fresh(r))
      ensures r != null && Paths.AllPlain(Split(filepath, '/')) ==> r == nodes[Named(Split(filepath, '/'))]
    {
      hide Placed, Linked, Valid, FoundBy, Paths.IsPlain, Named;
      var parts := Split(filepath, '/');
      r := CopyOfRoot();
      assert parts[..0] == [];
      for i := 0 to |parts|
        invariant r != null && FoundBy(parts[..i], r) && (r in repr || fresh(r))
      {
        r := FindNext(r, parts, i);
        if r == null {
          Missing(parts, i);
          return;
        }
      }
      assert parts[..|parts|] == parts;
      FoundFacts(parts, r);
    }

    lemma FoundFacts(parts: seq<Bytes>, n: Node)
      requires FoundBy(parts, n) && parts != []
      ensures Named(parts) in nodes && n.path == Named(parts)
      ensures Paths.AllPlain(parts) ==> n == nodes[Named(parts)]
    {
    }

    method CopyOfRoot() returns (copy: Node)
      requires Valid()
      ensures fresh(copy) && FoundBy([], copy)
    {
      NodeFacts([]);
      copy := new Node(root.name, root.isDir, root.comment, root.parent, root.keywords, root.base, root.path);
      copy.children := root.children;
    }

    lemma StandsItself(p: Segs)
      requires Valid() && p in nodes
      ensures nodes[p].path == p && Stands(nodes[p])
    {
      NodeFacts(p);
    }

    /** Nothing lies below what is not there. */
    lemma {:induction false} Missing(parts: seq<Bytes>, i: nat)
      requires Valid() && i < |parts| && Named(parts[..i + 1]) !in nodes
      ensures Named(parts) !in nodes
      decreases |parts| - i
    {
      hide Placed, Valid;
      if i + 1 == |parts| {
        assert parts[..i + 1] == parts;
      } else {
        NamedSnoc(parts, i + 1);
        if Named(parts[..i + 2]) in nodes {
          NodeFacts(Named(parts[..i + 2]));
        }
        Missing(parts, i + 1);
      }
    }

    /** Links a new node below a directory of the tree. */
    method LinkChild(dir: Node, c: Node, first: bool)
      requires Valid() && dir.path in nodes && dir == nodes[dir.path] && dir.isDir
      requires c !in repr && c.path != [] && Front(c.path) == dir.path && c.path !in nodes
      requires Paths.AllPlain(c.path) && c.name == Encoded(BaseName(c.path)) && c.children == []
      requires c.isDir ==> c.comment == "# " + PathText(c.path)
      modifies this`nodes, this`repr, this`contents, dir`children, c`parent
      ensures nodes == old(nodes)[c.path := c] && repr == old(repr) + {c} && Valid()
      ensures contents == Grown(old(contents), c.path, Info(c.isDir, c.keywords, c.base, []), first)
    {
      hide Valid, Placed, Kept, HasGrown, Encoded, PathText, Grown, Front, BaseName, Paths.AllPlain, LastNames;
      RootStays();
      dir.children := if first then [c] + dir.children else dir.children + [c];
      c.parent := dir;
      nodes, repr := nodes[c.path := c], repr + {c};
      contents := Grown(contents, c.path, Info(c.isDir, c.keywords, c.base, []), first);
      forall p | p in old(nodes)
        ensures Kept(p, c, first)
      {
        StaysButDir(p, c, first);
      }
      Grew(c, first);
      GrownValid(c, first);
    }

    /** The node at p is as it was, but for the new child when it is the one above c. */
    twostate predicate Kept(new p: Segs, new c: Node, new first: bool)
      requires p in old(nodes) && p in nodes && c.path != []
      reads this, nodes[p]
    {
      var n := nodes[p];
      && n == old(nodes)[p] && n in old(repr)
      && n.parent == old(n.parent) && n.keywords == old(n.keywords) && n.base == old(n.base)
      && n.children == if p != Front(c.path) then old(n.children) else if first then [c] + old(n.children) else old(n.children) + [c]
    }

    /** There is a new node c, and nothing else has changed. */
    twostate predicate HasGrown(new c: Node, new first: bool)
      reads this, repr, c
    {
      && old(contents).Keys == old(nodes).Keys
      && c !in old(repr) && c.path != [] && c.path !in old(nodes) && c.children == []
      && Front(c.path) in old(nodes) && old(nodes)[Front(c.path)].isDir && c.parent == old(nodes)[Front(c.path)]
      && Paths.AllPlain(c.path) && c.name == Encoded(BaseName(c.path)) && (c.isDir ==> c.comment == "# " + PathText(c.path))
      && nodes == old(nodes)[c.path := c] && repr == old(repr) + {c}
      && contents == Grown(old(contents), c.path, Info(c.isDir, c.keywords, c.base, []), first)
      && (forall p :: p in old(nodes) ==> nodes[p] in repr && Kept(p, c, first))
    }

    twostate lemma StaysButDir(new p: Segs, new c: Node, new first: bool)
      requires p in old(nodes) && p in nodes && c.path != [] && nodes[p] == old(nodes)[p] && nodes[p] in old(repr)
      requires nodes[p].parent == old(nodes[p].parent) && nodes[p].keywords == old(nodes[p].keywords) && nodes[p].base == old(nodes[p].base)
      requires p != Front(c.path) ==> nodes[p].children == old(nodes[p].children)
      requires p == Front(c.path) ==>
        nodes[p].children == if first then [c] + old(nodes[p].children) else old(nodes[p].children) + [c]
      ensures Kept(p, c, first)
    {
    }

    twostate lemma Grew(new c: Node, new first: bool)
      requires old(contents).Keys == old(nodes).Keys
      requires c !in old(repr) && c.path != [] && c.path !in old(nodes) && c.children == []
      requires Front(c.path) in old(nodes) && old(nodes)[Front(c.path)].isDir && c.parent == old(nodes)[Front(c.path)]
      requires Paths.AllPlain(c.path) && c.name == Encoded(BaseName(c.path)) && (c.isDir ==> c.comment == "# " + PathText(c.path))
      requires nodes == old(nodes)[c.path := c] && repr == old(repr) + {c}
      requires contents == Grown(old(contents), c.path, Info(c.isDir, c.keywords, c.base, []), first)
      requires forall p :: p in old(nodes) ==> Kept(p, c, first)
      ensures HasGrown(c, first)
    {
    }

    twostate lemma GrownValid(new c: Node, new first: bool)
      requires old(Valid()) && HasGrown(c, first)
      ensures Valid()
    {
      hide Placed, Kept, HasGrown, Encoded, PathText, Grown, Front, BaseName, Paths.AllPlain, LastNames;
      GrownKeys(c, first);
      forall p | p in nodes
        ensures Placed(p)
      {
        if p == c.path {
          NewPlaced(c, first);
        } else if p == Front(c.path) {
          DirPlaced(c, first);
        } else {
          OtherPlaced(c, first, p);
        }
      }
    }

    twostate lemma GrownKeys(new c: Node, new first: bool)
      requires HasGrown(c, first)
      ensures nodes == old(nodes)[c.path := c] && c.path != [] && contents.Keys == nodes.Keys && Front(c.path) in old(nodes)
    {
    }

    twostate lemma NewPlaced(new c: Node, new first: bool)
      requires HasGrown(c, first)
      ensures Placed(c.path)
    {
      hide Encoded, PathText;
      var d := Front(c.path);
      assert Kept(d, c, first);
      assert c in nodes[d].children by { assert c == nodes[d].children[if first then 0 else |nodes[d].children| - 1]; }
      assert d != c.path;
    }

    twostate lemma DirPlaced(new c: Node, new first: bool)
      requires HasGrown(c, first) && var d := Front(c.path); old(Placed(d))
      ensures Placed(Front(c.path))
    {
      hide Encoded, PathText, LastNames, Grown, Linked;
      var p := Front(c.path);
      assert Kept(p, c, first);
      DirView(c, first);
      DirLinks(c, first);
      if p != [] {
        assert Front(p) != p;
        assert Kept(Front(p), c, first);
      }
    }

    twostate lemma DirView(new c: Node, new first: bool)
      requires HasGrown(c, first) && var d := Front(c.path); old(Placed(d))
      ensures var p := Front(c.path);
        contents[p] == Info(nodes[p].isDir, nodes[p].keywords, nodes[p].base, LastNames(nodes[p].children))
    {
      hide Encoded, PathText, Linked, LastNames, BaseName, Paths.AllPlain, Grown;
      var p := Front(c.path);
      assert Kept(p, c, first);
      NamesGrow(old(nodes[p].children), c, first);
      GrownDir(old(contents), c.path, Info(c.isDir, c.keywords, c.base, []), first);
    }

    twostate lemma DirLinks(new c: Node, new first: bool)
      requires nodes == old(nodes)[c.path := c] && repr == old(repr) + {c} && c !in old(repr)
      requires c.path != [] && Front(c.path) in old(nodes) && c.path !in old(nodes) && Kept(Front(c.path), c, first)
      requires var d := Front(c.path); old(Placed(d))
      ensures var dir := nodes[Front(c.path)];
        && (forall i :: 0 <= i < |dir.children| ==> Linked(Front(c.path), dir.children[i]))
        && Different(dir.children)
    {
      hide Encoded, PathText, LastNames, Front, Placed, Linked;
      var p := Front(c.path);
      var dir := nodes[p];
      NotChild(p, c);
      OldDistinct(p);
      DistinctGrow(old(nodes[p].children), c, first);
      assert Linked(p, c) by { IsLinked(p, c); }
      forall i | 0 <= i < |dir.children|
        ensures Linked(p, dir.children[i])
      {
        var at := if first then i - 1 else i;
        if 0 <= at < |old(dir.children)| {
          StillLinked(p, at, c);
        }
      }
    }

    lemma IsLinked(p: Segs, child: Node)
      requires child in repr && child.path != [] && Front(child.path) == p && child.path in nodes && nodes[child.path] == child
      ensures Linked(p, child)
    {
    }

    twostate lemma OldDistinct(new p: Segs)
      requires p in old(nodes) && old(Placed(p))
      ensures Different(old(nodes[p].children))
    {
    }

    twostate lemma StillLinked(new p: Segs, new i: nat, new c: Node)
      requires nodes == old(nodes)[c.path := c] && repr == old(repr) + {c} && c.path !in old(nodes)
      requires p in old(nodes) && old(Placed(p)) && i < |old(nodes[p].children)|
      ensures Linked(p, old(nodes[p].children)[i])
    {
      assert old(Linked(p, nodes[p].children[i]));
    }

    twostate lemma NotChild(new p: Segs, new c: Node)
      requires p in old(nodes) && old(Placed(p)) && c !in old(repr)
      ensures c !in old(nodes[p].children)
    {
      forall i | 0 <= i < |old(nodes[p].children)|
        ensures old(nodes[p].children)[i] != c
      {
        assert old(Linked(p, nodes[p].children[i]));
      }
    }

    twostate lemma OtherPlaced(new c: Node, new first: bool, new p: Segs)
      requires HasGrown(c, first) && p in old(nodes) && p != Front(c.path) && old(Placed(p))
      ensures Placed(p)
    {
      hide Encoded, PathText;
      var n := nodes[p];
      assert Kept(p, c, first);
      forall i | 0 <= i < |n.children|
        ensures Linked(p, n.children[i])
      {
        assert old(Linked(p, n.children[i]));
      }
      if p != [] {
        assert Kept(Front(p), c, first);
      }
    }

    lemma RootStays()
      requires Valid()
      ensures [] in nodes && nodes[[]] == root && root.isDir && contents.Keys == nodes.Keys
      ensures forall p :: p in nodes ==> nodes[p] in repr && nodes[p].path == p
    {
      forall p | p in nodes
        ensures nodes[p] in repr && nodes[p].path == p
      {
        assert Placed(p);
      }
    }

    /** Entry.Path of an entry with this name and parent; the names in a tree always decode. */
    method EntryPath(encoded: Bytes, parent: Node?, ghost p: Segs) returns (path: Bytes)
      requires Valid() && Paths.AllPlain(p) && encoded == Encoded(BaseName(p))
      requires if p == [] then parent == null else Front(p) in nodes && parent == nodes[Front(p)]
      ensures path == PathText(p)
      decreases |p|
    {
      hide Valid, Placed, Encoded, PathText, Paths.CleanPath, Paths.JoinPath;
      PathSteps(p);
      var decoded := Unvis(encoded, DEFAULT_VIS_FLAGS);
      var name := Paths.CleanPath(decoded.value);
      if parent == null {
        return name;
      }
      NodeFacts(Front(p));
      var above := EntryPath(parent.name, parent.parent, Front(p));
      path := Paths.CleanPath(Paths.JoinPath(above, name));
    }

    lemma NodeFacts(p: Segs)
      requires Valid() && p in nodes
      ensures var n := nodes[p];
        && n in repr && n.path == p && Paths.AllPlain(p) && n.name == Encoded(BaseName(p))
        && (if p == [] then n.parent == null else Front(p) in nodes && n.parent == nodes[Front(p)])
        && p in contents && contents[p].isDir == n.isDir && contents[p].keywords == n.keywords && contents[p].base == n.base
    {
      assert Placed(p);
    }

    /** Fills in the data of a directory, of the tree or not. */
    method Fill(n: Node, keywords: seq<KeyVal>, base: Option<seq<KeyVal>>)
      requires Valid() && (n in repr ==> n.path in nodes && nodes[n.path] == n)
      modifies this`contents, n`keywords, n`base
      ensures Valid() && n.keywords == keywords && n.base == base
      ensures contents == if n !in repr then old(contents)
                          else old(contents)[n.path := old(contents)[n.path].(keywords := keywords, base := base)]
    {
      hide Placed, Encoded, PathText, Paths.AllPlain, LastNames;
      RootStays();
      n.keywords, n.base := keywords, base;
      if n in repr {
        contents := contents[n.path := contents[n.path].(keywords := keywords, base := base)];
      }
      forall p | p in nodes
        ensures Placed(p)
      {
        StillPlaced(p);
      }
    }

    /** The node keeps its place when only data change. */
    twostate lemma StillPlaced(new p: Segs)
      requires old(Valid()) && p in nodes && nodes == old(nodes) && repr == old(repr) && contents.Keys == old(contents).Keys
      requires forall q :: q in nodes ==> nodes[q].parent == old(nodes[q].parent) && nodes[q].children == old(nodes[q].children)
      requires
        || contents[p] == old(contents)[p].(keywords := nodes[p].keywords, base := nodes[p].base)
        || (contents[p] == old(contents)[p] && nodes[p].keywords == old(nodes[p].keywords) && nodes[p].base == old(nodes[p].base))
      ensures Placed(p)
    {
      hide Encoded, PathText, LastNames, Linked, Paths.AllPlain;
      assert old(Placed(p));
      forall i | 0 <= i < |nodes[p].children|
        ensures Linked(p, nodes[p].children[i])
      {
        LinkedStill(p, i);
      }
    }

    twostate lemma LinkedStill(new p: Segs, new i: nat)
      requires nodes == old(nodes) && repr == old(repr) && p in nodes && old(Placed(p)) && i < |old(nodes[p].children)|
      ensures Linked(p, old(nodes[p].children)[i])
    {
      assert old(Linked(p, nodes[p].children[i]));
    }

    /** A directory no header has been seen for: it gets a placeholder. */
    method MakeDir(parent: Node, encoded: Bytes, ghost p: Segs) returns (made: Node)
      requires Valid() && p != [] && Paths.AllPlain(p) && encoded == Encoded(BaseName(p))
      requires Front(p) in nodes && parent == nodes[Front(p)] && parent.isDir && p !in nodes
      modifies this`nodes, this`repr, this`contents, parent`children
      ensures Valid() && fresh(made) && nodes == old(nodes)[p := made] && repr == old(repr) + {made}
      ensures contents == Grown(old(contents), p, Info(true, PLACEHOLDER, None, []), false)
    {
      hide Valid, Placed, Encoded, PathText, Grown, Paths.AllPlain;
      NodeFacts(Front(p));
      RootStays();
      var pathname := EntryPath(encoded, parent, p);
      made := new Node(encoded, true, "# " + pathname, parent, PLACEHOLDER, None, p);
      LinkChild(parent, made, false);
    }

    /** One directory name: the node below this one is found or made; for "." it is a copy of this one. */
    method Enter(parent: Node, name: Bytes, ghost p: Segs) returns (next: Node)
      requires Valid() && p in nodes && parent == nodes[p] && contents[p].isDir && Paths.AllPlain(p)
      requires Paths.IsPlain(name) || name == "."
      modifies this`nodes, this`repr, this`contents, parent`children
      ensures Valid() && fresh(repr - old(repr)) && old(repr) <= repr
      ensures name == "." ==> fresh(next) && repr == old(repr) && contents == old(contents)
      ensures name != "." ==>
        && p + [name] in nodes && next == nodes[p + [name]]
        && contents == if p + [name] in old(contents) then old(contents)
                       else Grown(old(contents), p + [name], Info(true, PLACEHOLDER, None, []), false)
    {
      hide Valid, Placed, Encoded, Encode, PathText, Grown, Paths.IsPlain;
      RootStays();
      NodeFacts(p);
      assert Front(p + [name]) == p && BaseName(p + [name]) == name;
      var encoded := Vis(name, DEFAULT_VIS_FLAGS);
      EncodedIs(name);
      PlainHasName(name);
      var node := Search(parent, encoded.value, name);
      if node == null {
        next := MakeDir(parent, encoded.value, p + [name]);
      } else {
        next := node;
      }
    }

    /** Where the loop stands after i names: at the node for the first i directories, or, past ".",
        at a copy of the root. */
    ghost predicate Reached(m: Contents, dirs: Segs, i: nat, parent: Node)
      requires i <= |dirs| || (dirs == [] && i <= 1)
      reads this
    {
      if dirs == [] then contents == m && (if i == 0 then parent == root else parent !in repr)
      else [] in m && contents == WithDirs(m, dirs, i) && dirs[..i] in nodes && parent == nodes[dirs[..i]]
    }

    method Step(parent: Node, name: Bytes, ghost m: Contents, ghost dirs: Segs, ghost i: nat) returns (next: Node)
      requires Valid() && Paths.AllPlain(dirs) && [] in m && i < |if dirs == [] then ["."] else dirs|
      requires name == (if dirs == [] then ["."] else dirs)[i]
      requires forall n :: 0 <= n <= |dirs| && dirs[..n] in m ==> m[dirs[..n]].isDir
      requires Reached(m, dirs, i, parent) && parent in repr
      modifies this`nodes, this`repr, this`contents, parent`children
      ensures Valid() && fresh(repr - old(repr)) && old(repr) <= repr && Reached(m, dirs, i + 1, next)
      ensures next in repr || fresh(next)
    {
      hide Valid, Placed, WithDirs, Grown, Paths.AllPlain, Paths.IsPlain, Front, BaseName;
      RootStays();
      ghost var p := if dirs == [] then [] else dirs[..i];
      if dirs == [] {
        NoneIsPlain();
      } else {
        DirStep(m, dirs, i);
        DotIsNotPlain(name);
      }
      NodeFacts(p);
      next := Enter(parent, name, p);
      RootStays();
    }

    /** The loop over the directory names. */
    method FindOrMake(dirNames: seq<Bytes>, ghost dirs: Segs) returns (parent: Node)
      requires Valid() && Paths.AllPlain(dirs) && dirNames == (if dirs == [] then ["."] else dirs)
      requires forall n :: 0 <= n <= |dirs| && dirs[..n] in contents ==> contents[dirs[..n]].isDir
      modifies this`nodes, this`repr, this`contents, repr
      ensures Valid() && fresh(repr - old(repr)) && old(repr) <= repr
      ensures Reached(old(contents), dirs, |dirNames|, parent) && (parent in repr || fresh(parent))
    {
      hide Valid, Placed, Paths.AllPlain, Reached;
      RootStays();
      ReachedRoot(dirs);
      parent := root;
      for i := 0 to |dirNames|
        invariant Valid() && fresh(repr - old(repr)) && old(repr) <= repr
        invariant Reached(old(contents), dirs, i, parent) && (parent in repr || (fresh(parent) && i > 0))
      {
        InTree(old(contents), dirs, i, parent);
        parent := Step(parent, dirNames[i], old(contents), dirs, i);
      }
    }

    lemma ReachedRoot(dirs: Segs)
      requires Valid()
      ensures Reached(contents, dirs, 0, root) && root in repr
    {
      NodeFacts([]);
      assert dirs[..0] == [];
    }

    lemma InTree(m: Contents, dirs: Segs, i: nat, parent: Node)
      requires Valid() && i < |if dirs == [] then ["."] else dirs| && Reached(m, dirs, i, parent)
      ensures parent in repr
    {
      NodeFacts(if dirs == [] then [] else dirs[..i]);
    }

    /** What is done once the directory is there. */
    method Place(parent: Node, e: Node, isDir: bool, ghost m: Contents)
      requires Valid() && e !in repr && Paths.AllPlain(e.path) && [] in m && HasRoom(m, e.path, isDir)
      requires !isDir ==> !e.isDir && e.name == Encoded(BaseName(e.path)) && e.children == []
      requires isDir || e.path != []
      requires var dirs := Above(e.path, isDir);
        && contents == WithDirs(m, dirs, |dirs|)
        && if isDir && dirs == [] then parent !in repr else dirs in nodes && parent == nodes[dirs]
      modifies this`nodes, this`repr, this`contents, parent, e`parent
      ensures Valid() && repr == (if isDir then old(repr) else old(repr) + {e})
      ensures contents == Inserted(m, e.path, isDir, e.keywords, e.base)
    {
      hide Valid, Placed, Encoded, PathText, WithDirs, Grown, Paths.AllPlain, HasRoom;
      RootStays();
      ghost var dirs := Above(e.path, isDir);
      RoomAbove(m, e.path, isDir);
      if parent in repr {
        NodeFacts(dirs);
      }
      if !isDir {
        LinkChild(parent, e, true);
      } else {
        Fill(parent, e.keywords, e.base);
      }
    }

    /** populateTree: a file is linked first in its directory, a directory filled in.  A header for "."
        reaches only a copy of the root. */
    method PopulateTree(e: Node, name: Bytes, isDir: bool)
      requires Valid() && e !in repr && e.path == Paths.Segments(name)
      requires !Paths.IsAbs(name) && Paths.AllPlain(e.path) && HasRoom(contents, e.path, isDir)
      requires !isDir ==> !e.isDir && e.name == Encoded(BaseName(e.path)) && e.children == []
      modifies this`nodes, this`repr, this`contents, repr, e`parent
      ensures Valid() && fresh(repr - old(repr) - {e}) && old(repr) <= repr
      ensures contents == Inserted(old(contents), e.path, isDir, e.keywords, e.base)
    {
      hide Valid, Placed, Encoded, PathText, WithDirs, Inserted, FileDir, Paths.Clean, Paths.AllPlain, HasRoom, Reached;
      RootStays();
      RoomPath(contents, e.path, isDir);
      ghost var dirs := Above(e.path, isDir);
      WorkingDir(name, isDir);
      RoomAbove(contents, e.path, isDir);
      NoDirs(contents, dirs);
      var wd := Paths.Clean(name);
      if !isDir {
        wd := FileDir(wd);
        if wd == "." {
          Place(root, e, isDir, contents);
          return;
        }
      }
      var dirNames := Split(wd, '/');
      var parent := FindOrMake(dirNames, dirs);
      ReachedAll(old(contents), dirs, parent);
      Place(parent, e, isDir, old(contents));
    }

    lemma ReachedAll(m: Contents, dirs: Segs, parent: Node)
      requires [] in m && Reached(m, dirs, |if dirs == [] then ["."] else dirs|, parent)
      ensures contents == WithDirs(m, dirs, |dirs|)
      ensures if dirs == [] then parent !in repr else dirs in nodes && parent == nodes[dirs]
    {
      assert dirs[..|dirs|] == dirs;
    }

    lemma ChildListed(p: Segs)
      requires Valid() && p in nodes && p != []
      ensures Front(p) in nodes && nodes[p].name == Encoded(BaseName(p)) && nodes[p] in nodes[Front(p)].children
    {
      assert Placed(p);
    }

    lemma ChildPlaced(p: Segs, i: nat)
      requires Valid() && p in nodes && i < |nodes[p].children|
      ensures var c := nodes[p].children[i];
        c.path != [] && Front(c.path) == p && c.path in nodes && nodes[c.path] == c && c.name == Encoded(BaseName(c.path))
    {
      assert Placed(p) && Linked(p, nodes[p].children[i]);
      assert Placed(nodes[p].children[i].path);
    }
  }

  lemma {:induction false} PathSteps(path: Segs)
    requires Paths.AllPlain(path)
    ensures Decode(Encoded(BaseName(path)), DEFAULT_VIS_FLAGS) == Ok(BaseName(path))
    ensures Paths.CleanPath(BaseName(path)) == BaseName(path) && PathText([]) == "."
    ensures path != [] ==> Paths.CleanPath(Paths.JoinPath(PathText(Front(path)), BaseName(path))) == PathText(path)
  {
    hide Decode, VisBytes, Paths.CleanPath, Paths.JoinPath;
    DefaultFlags();
    RoundTrip(BaseName(path), DEFAULT_VIS_FLAGS);
    DotPath();
    if path != [] {
      PlainPath([BaseName(path)]);
      PlainPath(path);
      JoinBelow(Front(path), BaseName(path));
      assert path == Front(path) + [BaseName(path)];
    }
  }

  /** The same but for the names in it. */
  predicate SameData(a: Info, b: Info) {
    a == b.(kids := a.kids)
  }

  /** A node more, first or last in its directory. */
  function Grown(m: Contents, p: Segs, info: Info, first: bool): (grown: Contents)
    requires p != [] && Front(p) in m && p !in m
    ensures grown.Keys == m.Keys + {p} && grown[p] == info
    ensures forall q :: q in m ==> SameData(grown[q], m[q])
  {
    var dir := m[Front(p)];
    m[Front(p) := dir.(kids := if first then [BaseName(p)] + dir.kids else dir.kids + [BaseName(p)])][p := info]
  }

  /** The first n directories on the way to dirs, made up where they are missing. */
  function WithDirs(m: Contents, dirs: Segs, n: nat): (r: Contents)
    requires n <= |dirs| && [] in m
    ensures m.Keys <= r.Keys && dirs[..n] in r && forall q :: q in r ==> q in m || |q| <= n
  {
    if n == 0 then m
    else
      var before := WithDirs(m, dirs, n - 1);
      assert Front(dirs[..n]) == dirs[..n - 1];
      if dirs[..n] in before then before
      else Grown(before, dirs[..n], Info(true, PLACEHOLDER, None, []), false)
  }

  function Above(path: Segs, isDir: bool): Segs
    requires isDir || path != []
  {
    if isDir then path else Front(path)
  }

  /** No file is in the way: nothing on the path but directories, and no second file of the name. */
  predicate HasRoom(m: Contents, path: Segs, isDir: bool) {
    && (isDir || (path != [] && path !in m))
    && forall n :: 0 <= n <= |path| && path[..n] in m ==> m[path[..n]].isDir
  }

  /** What a header adds.  The data of a header for "." are lost. */
  function Inserted(m: Contents, path: Segs, isDir: bool, keywords: seq<KeyVal>, base: Option<seq<KeyVal>>): Contents
    requires [] in m && HasRoom(m, path, isDir)
  {
    var made := WithDirs(m, Above(path, isDir), |Above(path, isDir)|);
    assert Above(path, isDir)[..|Above(path, isDir)|] == Above(path, isDir);
    if !isDir then Grown(made, path, Info(false, keywords, base, []), true)
    else if path == [] then made
    else made[path := made[path].(keywords := keywords, base := base)]
  }

  lemma {:induction false} DirsAreDirs(m: Contents, path: Segs, dirs: Segs, n: nat)
    requires n <= |dirs| && [] in m && dirs <= path
    requires forall n :: 0 <= n <= |path| && path[..n] in m ==> m[path[..n]].isDir
    ensures WithDirs(m, dirs, n)[dirs[..n]].isDir
    ensures forall q :: q in m ==> WithDirs(m, dirs, n)[q].isDir == m[q].isDir
  {
    hide Grown, Front;
    assert dirs[..n] == path[..n];
    if n > 0 {
      DirsAreDirs(m, path, dirs, n - 1);
    }
  }

  lemma NoDirs(m: Contents, dirs: Segs)
    requires [] in m
    ensures WithDirs(m, dirs, 0) == m
  {
  }

  /** One directory more. */
  lemma {:induction false} DirStep(m: Contents, dirs: Segs, i: nat)
    requires i < |dirs| && [] in m && Paths.AllPlain(dirs)
    requires forall n :: 0 <= n <= |dirs| && dirs[..n] in m ==> m[dirs[..n]].isDir
    ensures var before, next := WithDirs(m, dirs, i), dirs[..i + 1];
      && next == dirs[..i] + [dirs[i]] && Front(next) == dirs[..i] && BaseName(next) == dirs[i]
      && Paths.IsPlain(dirs[i]) && Paths.AllPlain(next)
      && dirs[..i] in before && before[dirs[..i]].isDir
      && WithDirs(m, dirs, i + 1) == if next in before then before else Grown(before, next, Info(true, PLACEHOLDER, None, []), false)
  {
    hide Grown, Front, BaseName, Paths.AllPlain, Paths.IsPlain;
    DirsAreDirs(m, dirs, dirs, i);
    NextDir(dirs, i);
  }

  lemma NextDir(dirs: Segs, i: nat)
    requires i < |dirs| && Paths.AllPlain(dirs)
    ensures var next := dirs[..i + 1];
      && next == dirs[..i] + [dirs[i]] && Front(next) == dirs[..i] && BaseName(next) == dirs[i]
      && Paths.IsPlain(dirs[i]) && Paths.AllPlain(next)
  {
    hide Paths.IsPlain;
  }

  /** The directory the loop works through. */
  lemma {:induction false} WorkingDir(name: Bytes, isDir: bool)
    requires !Paths.IsAbs(name) && Paths.AllPlain(Paths.Segments(name)) && (isDir || Paths.Segments(name) != [])
    ensures var path := Paths.Segments(name); var dirs := Above(path, isDir);
      && Paths.AllPlain(dirs)
      && (if isDir then Paths.Clean(name) else FileDir(Paths.Clean(name))) == PathText(dirs)
      && (PathText(dirs) == "." <==> dirs == [])
      && Split(PathText(dirs), '/') == if dirs == [] then ["."] else dirs
  {
    var path := Paths.Segments(name);
    var dirs := Above(path, isDir);
    TextIsCleaned(dirs);
    if !isDir {
      DirOfText(path);
    }
    SplitWithout(".", '/');
  }

  lemma RoomPath(m: Contents, path: Segs, isDir: bool)
    requires HasRoom(m, path, isDir)
    ensures isDir || path != []
  {
  }

  lemma NoneIsPlain()
    ensures Paths.AllPlain([]) && !Paths.IsPlain(".")
  {
  }

  lemma DotIsNotPlain(name: Bytes)
    requires Paths.IsPlain(name)
    ensures name != "."
  {
  }

  lemma {:induction false} RoomAbove(m: Contents, path: Segs, isDir: bool)
    requires HasRoom(m, path, isDir) && [] in m
    ensures var dirs := Above(path, isDir);
      && (forall n :: 0 <= n <= |dirs| && dirs[..n] in m ==> m[dirs[..n]].isDir)
      && dirs in WithDirs(m, dirs, |dirs|) && WithDirs(m, dirs, |dirs|)[dirs].isDir
      && (!isDir ==> path !in WithDirs(m, dirs, |dirs|))
  {
    hide WithDirs;
    var dirs := Above(path, isDir);
    assert dirs[..|dirs|] == dirs;
    forall n | 0 <= n <= |dirs|
      ensures dirs[..n] == path[..n]
    {
    }
    DirsAreDirs(m, path, dirs, |dirs|);
  }

  lemma GrownDir(m: Contents, p: Segs, info: Info, first: bool)
    requires p != [] && Front(p) in m && p !in m
    ensures var d := Front(p);
      Grown(m, p, info, first)[d]
        == m[d].(kids := if first then [BaseName(p)] + m[d].kids else m[d].kids + [BaseName(p)])
  {
  }

  lemma NamesGrow(before: seq<Node>, c: Node, first: bool)
    ensures LastNames(if first then [c] + before else before + [c])
      == if first then [BaseName(c.path)] + LastNames(before) else LastNames(before) + [BaseName(c.path)]
  {
  }

  const EMPTY_TREE: Contents := map[[] := Info(true, PLACEHOLDER, None, [])]

  lemma RootNames()
    ensures Encoded(".") == "." && PathText([]) == "." && "# " + "." == "# ."
  {
    EncodedDots(".");
    DotPath();
  }

  lemma SearchedName(x: Bytes)
    ensures Encoded(x) == "." <==> x == "."
    ensures Encoded(x) == "" <==> x == ""
  {
    EncodedDots(x);
    DefaultFlags();
    RoundTrip(x, DEFAULT_VIS_FLAGS);
    RoundTrip([], DEFAULT_VIS_FLAGS);
  }

  lemma EncodedIs(x: Bytes)
    ensures Encode(x, DEFAULT_VIS_FLAGS) == Ok(Encoded(x))
  {
    DefaultFlags();
  }

  lemma EncodedInjective(x: Bytes, y: Bytes)
    ensures Encoded(x) == Encoded(y) <==> x == y
  {
    DefaultFlags();
    Injective(x, y, DEFAULT_VIS_FLAGS);
  }
}