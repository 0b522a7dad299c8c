/** filepath.Clean, Join and Rel on Unix paths, and CleanPath of entry.go. */
module Paths {
  import opened GoBytes
  import opened GoStrings

  predicate IsAbs(path: Bytes) {
    path != [] && path[0] == '/'
  }

  /** One path element against the elements kept so far. */
  function Push(kept: seq<Bytes>, c: Bytes, rooted: bool): seq<Bytes> {
    if c == "" || c == "." then kept
    else if c != ".." then kept + [c]
    else if kept != [] && kept[|kept| - 1] != ".." then kept[..|kept| - 1]
    else if rooted then kept
    else kept + [c]
  }

  function Collapse(elements: seq<Bytes>, rooted: bool, kept: seq<Bytes>): seq<Bytes>
    decreases elements
  {
    if elements == [] then kept else Collapse(elements[1..], rooted, Push(kept, elements[0], rooted))
  }

  /** The elements of the cleaned path. */
  function Segments(path: Bytes): seq<Bytes> {
    Collapse(Split(path, '/'), IsAbs(path), [])
  }

  function Render(rooted: bool, elements: seq<Bytes>): Bytes {
    if rooted then ['/'] + Join(elements, '/')
    else if elements == [] then "."
    else Join(elements, '/')
  }

  /** filepath.Clean */
  function Clean(path: Bytes): Bytes {
    Render(IsAbs(path), Segments(path))
  }

  /** filepath.Join of two elements */
  function JoinPath(a: Bytes, b: Bytes): Bytes {
    if a != [] then Clean(a + ['/'] + b)
    else if b != [] then Clean(b)
    else []
  }

  /** filepath.Rel("/", path) for an absolute clean path */
  function RelToSlash(path: Bytes): Bytes {
    if |path| <= 1 then "." else path[1..]
  }

  function CleanPath(path: Bytes): Bytes {
    if path == "" then ""
    else
      var cleaned := Clean(path);
      if IsAbs(cleaned) then Clean(cleaned)
      else
        var rooted := Clean(['/'] + cleaned);
        assert rooted == ['/'] + rooted[1..];
        Clean(RelToSlash(rooted))
  }

  // ---------- collapsing ----------

  /** An element that names something below its directory. */
  predicate IsPlain(c: Bytes) {
    c != "" && c != "." && c != ".." && '/' !in c
  }

  predicate AllPlain(elements: seq<Bytes>) {
    forall i :: 0 <= i < |elements| ==> IsPlain(elements[i])
  }

  /** The form of cleaned elements: leading ".." only, and none below a root. */
  predicate IsCleanList(elements: seq<Bytes>, rooted: bool) {
    && (forall i :: 0 <= i < |elements| ==> IsPlain(elements[i]) || (!rooted && elements[i] == ".."))
    && (forall i :: 0 < i < |elements| && elements[i] == ".." ==> elements[i - 1] == "..")
  }

  lemma {:induction false} CollapseConcat(a: seq<Bytes>, b: seq<Bytes>, rooted: bool, kept: seq<Bytes>)
    ensures Collapse(a + b, rooted, kept) == Collapse(b, rooted, Collapse(a, rooted, kept))
    decreases a
  {
    if a == [] {
      assert a + b == b;
    } else {
      assert (a + b)[1..] == a[1..] + b;
      CollapseConcat(a[1..], b, rooted, Push(kept, a[0], rooted));
    }
  }

  lemma {:induction false} CollapseIsClean(elements: seq<Bytes>, rooted: bool, kept: seq<Bytes>)
    requires IsCleanList(kept, rooted) && forall i :: 0 <= i < |elements| ==> '/' !in elements[i]
    ensures IsCleanList(Collapse(elements, rooted, kept), rooted)
    decreases elements
  {
    if elements != [] {
      CollapseIsClean(elements[1..], rooted, Push(kept, elements[0], rooted));
    }
  }

  lemma {:induction false} CollapseKeepsClean(elements: seq<Bytes>, rooted: bool, kept: seq<Bytes>)
    requires IsCleanList(kept + elements, rooted)
    ensures Collapse(elements, rooted, kept) == kept + elements
    decreases elements
  {
    if elements == [] {
      assert kept + elements == kept;
    } else {
      assert (kept + elements)[|kept|] == elements[0];
      assert kept != [] ==> (kept + elements)[|kept| - 1] == kept[|kept| - 1];
      assert kept + [elements[0]] + elements[1..] == kept + elements;
      CollapseKeepsClean(elements[1..], rooted, kept + [elements[0]]);
    }
  }

  lemma SegmentsClean(path: Bytes)
    ensures IsCleanList(Segments(path), IsAbs(path))
  {
    CollapseIsClean(Split(path, '/'), IsAbs(path), []);
  }

  /** Rendering a clean list and reading it back gives the list. */
  lemma SegmentsOfRender(rooted: bool, elements: seq<Bytes>)
    requires IsCleanList(elements, rooted)
    ensures Segments(Render(rooted, elements)) == elements
    ensures IsAbs(Render(rooted, elements)) == rooted
    ensures Clean(Render(rooted, elements)) == Render(rooted, elements)
  {
    SplitRender(rooted, elements);
    if elements != [] {
      assert [] + elements == elements;
      CollapseKeepsClean(elements, rooted, []);
      assert ([[]] + elements)[1..] == elements;
    }
  }

  /** What splitting a rendered path gives: its elements, and empty or "." ones that count for nothing. */
  lemma SplitRender(rooted: bool, elements: seq<Bytes>)
    requires forall i :: 0 <= i < |elements| ==> elements[i] != "" && '/' !in elements[i]
    ensures IsAbs(Render(rooted, elements)) == rooted
    ensures Split(Render(rooted, elements), '/') ==
            if elements == [] then (if rooted then [[], []] else ["."])
            else if rooted then [[]] + elements else elements
  {
    assert Split([], '/') == [[]];
    if elements == [] {
      SplitWithout(".", '/');
      SplitConcat([], [], '/');
      assert "/" == [] + ['/'] + [];
    } else {
      var joined := Join(elements, '/');
      SplitJoin(elements, '/');
      SplitConcat([], joined, '/');
      assert ['/'] + joined == [] + ['/'] + joined;
      assert joined[0] == elements[0][0];
      assert elements[0][0] in elements[0];
    }
  }

  lemma {:induction false} CleanIdempotent(path: Bytes)
    ensures Clean(Clean(path)) == Clean(path)
    ensures Segments(Clean(path)) == Segments(path) && IsAbs(Clean(path)) == IsAbs(path)
  {
    SegmentsClean(path);
    SegmentsOfRender(IsAbs(path), Segments(path));
  }

  // ---------- CleanPath ----------

  /** What is left of clean elements below a root: leading ".." have nowhere to go. */
  function DropUps(elements: seq<Bytes>): seq<Bytes> {
    if elements != [] && elements[0] == ".." then DropUps(elements[1..]) else elements
  }

  /** The elements of CleanPath: those of the path read as rooted. */
  function SafeSegments(path: Bytes): seq<Bytes> {
    Collapse(Split(path, '/'), true, [])
  }

  lemma {:induction false} DropUpsPush(kept: seq<Bytes>, c: Bytes)
    requires IsCleanList(kept, false) && '/' !in c
    ensures DropUps(Push(kept, c, false)) == Push(DropUps(kept), c, true)
  {
    if kept != [] && kept[0] == ".." {
      assert IsCleanList(kept[1..], false);
      DropUpsPush(kept[1..], c);
      if |kept| == 1 {
        assert kept[1..] == [];
      } else {
        assert kept[1..][|kept| - 2] == kept[|kept| - 1];
      }
      var next := Push(kept, c, false);
      assert next != [] && next[0] == ".." && next[1..] == Push(kept[1..], c, false);
    } else if kept != [] {
      NoUps(kept, 0, |kept|);
    }
  }

  lemma {:induction false} NoUps(kept: seq<Bytes>, from: nat, to: nat)
    requires IsCleanList(kept, false) && from < to <= |kept| && kept[from] != ".."
    ensures forall i :: from <= i < to ==> kept[i] != ".."
  {
    if to - from > 1 {
      NoUps(kept, from, to - 1);
      NoUpAfterName(kept, to - 1);
    }
  }

  lemma NoUpAfterName(kept: seq<Bytes>, i: nat)
    requires IsCleanList(kept, false) && 0 < i < |kept| && kept[i - 1] != ".."
    ensures kept[i] != ".."
  {
  }

  lemma {:induction false} DropUpsCollapse(elements: seq<Bytes>, kept: seq<Bytes>)
    requires IsCleanList(kept, false) && forall i :: 0 <= i < |elements| ==> '/' !in elements[i]
    ensures DropUps(Collapse(elements, false, kept)) == Collapse(elements, true, DropUps(kept))
    decreases elements
  {
    if elements != [] {
      DropUpsPush(kept, elements[0]);
      CollapseIsClean([elements[0]], false, kept);
      DropUpsCollapse(elements[1..], Push(kept, elements[0], false));
    }
  }

  /** Reading a cleaned relative path as rooted drops exactly its leading "..". */
  lemma {:induction false} CollapseRooted(elements: seq<Bytes>)
    requires IsCleanList(elements, false)
    ensures Collapse(elements, true, []) == DropUps(elements) && AllPlain(DropUps(elements))
    decreases elements
  {
    if elements != [] && elements[0] == ".." {
      assert IsCleanList(elements[1..], false);
      CollapseRooted(elements[1..]);
    } else {
      if elements != [] {
        NoUps(elements, 0, |elements|);
      }
      assert [] + elements == elements;
      CollapseKeepsClean(elements, true, []);
    }
  }

  /** CleanPath, said at once: the path's elements read as below a root, absolute or not as it was. */
  lemma CleanPathIs(path: Bytes)
    requires path != ""
    ensures AllPlain(SafeSegments(path))
    ensures CleanPath(path) == Render(IsAbs(path), SafeSegments(path))
    ensures Segments(CleanPath(path)) == SafeSegments(path) && IsAbs(CleanPath(path)) == IsAbs(path)
  {
    var safe := SafeSegments(path);
    SegmentsClean(path);
    CleanIdempotent(path);
    CollapseIsClean(Split(path, '/'), true, []);
    if !IsAbs(path) {
      var below := ['/'] + Clean(path);
      SplitConcat([], Clean(path), '/');
      assert below == [] + ['/'] + Clean(path);
      assert Split(below, '/') == [[]] + Split(Clean(path), '/');
      assert ([[]] + Split(Clean(path), '/'))[1..] == Split(Clean(path), '/');
      DropUpsCollapse(Split(Clean(path), '/'), []);
      DropUpsCollapse(Split(path, '/'), []);
      CollapseIsClean(Split(Clean(path), '/'), true, []);
      assert Segments(below) == safe;
      var rooted := Clean(below);
      assert rooted == Render(true, safe);
      if safe == [] {
        assert rooted == "/";
        SegmentsOfRender(false, []);
      } else {
        assert Join(safe, '/') != [] by { assert Join(safe, '/')[0] == safe[0][0]; }
        assert RelToSlash(rooted) == Join(safe, '/') == Render(false, safe);
        assert IsCleanList(safe, false);
      }
    }
    assert IsCleanList(safe, IsAbs(path));
    SegmentsOfRender(IsAbs(path), safe);
  }

  lemma CleanPathIdempotent(path: Bytes)
    ensures CleanPath(CleanPath(path)) == CleanPath(path)
  {
    if path != "" {
      CleanPathIs(path);
      var safe := SafeSegments(path);
      SegmentsOfRender(IsAbs(path), safe);
      CleanPathIs(CleanPath(path));
      CollapseKeepsSafe(CleanPath(path));
    }
  }

  /** On a path whose elements are plain, reading it as rooted changes nothing. */
  lemma CollapseKeepsSafe(path: Bytes)
    requires AllPlain(Segments(path))
    ensures SafeSegments(path) == Segments(path)
  {
    if !IsAbs(path) {
      DropUpsCollapse(Split(path, '/'), []);
    }
  }

  lemma CleanPathNeverUp(path: Bytes)
    ensures ".." !in Split(CleanPath(path), '/')
  {
    if path == "" {
      assert Split([], '/') == [[]];
    } else {
      CleanPathIs(path);
      SplitRender(IsAbs(path), SafeSegments(path));
    }
  }

  /** path is root or lies below it: its elements start with root's and never climb. */
  predicate Under(path: Bytes, root: Bytes) {
    && IsAbs(path) == IsAbs(root)
    && |Segments(path)| >= |Segments(root)|
    && Segments(path)[..|Segments(root)|] == Segments(root)
    && AllPlain(Segments(path)[|Segments(root)|..])
  }

  lemma CollapseRendered(rooted: bool, plain: seq<Bytes>, before: seq<Bytes>, wasRooted: bool)
    requires AllPlain(plain) && IsCleanList(before, wasRooted)
    ensures Collapse(Split(Render(rooted, plain), '/'), wasRooted, before) == before + plain
  {
    SplitRender(rooted, plain);
    CollapseKeepsClean(plain, wasRooted, before);
    if plain == [] {
      assert before + plain == before;
    } else if rooted {
      assert ([[]] + plain)[1..] == plain;
    }
  }

  lemma SegmentsOfJoin(root: Bytes, rooted: bool, plain: seq<Bytes>)
    requires root != "" && AllPlain(plain)
    ensures Segments(JoinPath(root, Render(rooted, plain))) == Segments(root) + plain
    ensures IsAbs(JoinPath(root, Render(rooted, plain))) == IsAbs(root)
    ensures JoinPath(root, Render(rooted, plain)) == Render(IsAbs(root), Segments(root) + plain)
  {
    var path := Render(rooted, plain);
    SplitConcat(root, path, '/');
    CollapseConcat(Split(root, '/'), Split(path, '/'), IsAbs(root), []);
    SegmentsClean(root);
    CollapseRendered(rooted, plain, Segments(root), IsAbs(root));
    CleanIdempotent(root + ['/'] + path);
  }

  /** Joining a cleaned path onto a root stays below the cleaned root, whatever the path;
      only the empty root, which is no directory, lets an absolute path through. */
  lemma {:induction false} CleanPathConfined(root: Bytes, path: Bytes)
    ensures Under(JoinPath(root, CleanPath(path)), root) <==> root != "" || !IsAbs(path)
    ensures root != "" && path != "" ==> Segments(JoinPath(root, CleanPath(path))) == Segments(root) + SafeSegments(path)
  {
    assert Split([], '/') == [[]];
    if path == "" {
      assert Segments([]) == [];
      if root != "" {
        SegmentsOfJoinEmpty(root);
      }
    } else {
      CleanPathIs(path);
      if root != "" {
        SegmentsOfJoin(root, IsAbs(path), SafeSegments(path));
      } else {
        CleanIdempotent(CleanPath(path));
      }
    }
  }

  /** The same once more cleaned, below a directory that is itself a cleaned path. */
  lemma {:induction false} CleanBelow(above: Bytes, name: Bytes)
    requires above != "" && CleanPath(above) == above
    ensures var below := CleanPath(JoinPath(above, CleanPath(name)));
      && Under(below, above)
      && Segments(below) == Segments(above) + if name == "" then [] else SafeSegments(name)
  {
    var joined := JoinPath(above, CleanPath(name));
    CleanPathIs(above);
    CleanPathConfined(above, name);
    CleanNotEmpty(above + ['/'] + CleanPath(name));
    var more := if name == "" then [] else SafeSegments(name);
    assert Segments(joined) == Segments(above) + more by {
      if name == "" {
        assert Segments(joined)[..|Segments(above)|] == Segments(above);
        SegmentsOfJoinEmpty(above);
        assert Segments(above) + [] == Segments(above);
      }
    }
    CleanPathIs(joined);
    if name != "" {
      CleanPathIs(name);
    }
    assert AllPlain(Segments(above) + more);
    CollapseKeepsSafe(joined);
    assert (Segments(above) + more)[|Segments(above)|..] == more;
  }

  lemma SegmentsOfJoinEmpty(root: Bytes)
    requires root != ""
    ensures Segments(JoinPath(root, "")) == Segments(root) && IsAbs(JoinPath(root, "")) == IsAbs(root)
  {
    assert Split([], '/') == [[]];
    SplitConcat(root, [], '/');
    CollapseConcat(Split(root, '/'), [[]], IsAbs(root), []);
    CleanIdempotent(root + ['/'] + []);
  }

  lemma CleanNotEmpty(path: Bytes)
    ensures Clean(path) != ""
  {
    SegmentsClean(path);
    if Segments(path) != [] {
      assert Join(Segments(path), '/')[0] == Segments(path)[0][0];
    }
  }

  // ---------- ".." takes back a name ----------

  lemma PartsOf(a: Bytes, b: Bytes)
    ensures Split(a + "/" + b, '/') == Split(a, '/') + Split(b, '/')
    ensures IsAbs(a + "/" + b) <==> a == [] || a[0] == '/'
  {
    SplitConcat(a, b, '/');
    assert a + "/" + b == a + ['/'] + b;
  }

  /** Text between slashes whose elements leave those before them as they were. */
  lemma {:induction false} MiddleVanishes(a: Bytes, middle: Bytes, b: Bytes)
    requires forall rooted, kept :: Collapse(Split(middle, '/'), rooted, kept) == kept
    ensures Clean(a + "/" + middle + "/" + b) == Clean(a + "/" + b)
  {
    hide Collapse, Split, Render;
    var elements, rooted := Split(middle, '/'), a == [] || a[0] == '/';
    PartsOf(a, b);
    PartsOf(a + "/" + middle, b);
    PartsOf(a, middle);
    assert IsAbs(a + "/" + middle + "/" + b) == rooted;
    var before := Collapse(Split(a, '/'), rooted, []);
    CollapseConcat(Split(a, '/') + elements, Split(b, '/'), rooted, []);
    CollapseConcat(Split(a, '/'), elements, rooted, []);
    CollapseConcat(Split(a, '/'), Split(b, '/'), rooted, []);
  }

  lemma NameAndBack(c: Bytes, rooted: bool, kept: seq<Bytes>)
    requires IsPlain(c)
    ensures Split(c + "/..", '/') == [c, ".."]
    ensures Collapse([c, ".."], rooted, kept) == kept
  {
    PartsOf(c, "..");
    assert c + "/" + ".." == c + "/..";
    SplitWithout(c, '/');
    SplitWithout("..", '/');
    var next := Push(kept, c, rooted);
    assert next == kept + [c] && next[..|next| - 1] == kept;
    assert [c, ".."][1..] == [".."] && [".."][1..] == [];
    assert Collapse([".."], rooted, next) == Collapse([], rooted, Push(next, "..", rooted));
  }

  lemma Nothing(c: Bytes, rooted: bool, kept: seq<Bytes>)
    requires c == "" || c == "."
    ensures Split(c, '/') == [c] && Collapse([c], rooted, kept) == kept
  {
    SplitWithout(c, '/');
    assert [c][1..] == [];
  }

  /** Cleaning drops empty elements and ".", and a name with the ".." after it, wherever they stand. */
  lemma {:induction false} BackAndForth(a: Bytes, c: Bytes, b: Bytes)
    requires IsPlain(c)
    ensures Clean(a + "/" + c + "/../" + b) == Clean(a + "/" + b)
    ensures Clean(a + "/./" + b) == Clean(a + "/" + b) && Clean(a + "//" + b) == Clean(a + "/" + b)
  {
    hide Clean, Collapse, Split;
    forall rooted, kept
      ensures Collapse(Split(c + "/..", '/'), rooted, kept) == kept
      ensures Collapse(Split(".", '/'), rooted, kept) == kept && Collapse(Split("", '/'), rooted, kept) == kept
    {
      NameAndBack(c, rooted, kept);
      Nothing(".", rooted, kept);
      Nothing("", rooted, kept);
    }
    MiddleVanishes(a, c + "/..", b);
    assert a + "/" + (c + "/..") + "/" + b == a + "/" + c + "/../" + b;
    MiddleVanishes(a, ".", b);
    assert a + "/" + "." + "/" + b == a + "/./" + b;
    MiddleVanishes(a, "", b);
    assert a + "/" + "" + "/" + b == a + "//" + b;
  }

  /** ".." goes nowhere from a root. */
  lemma {:induction false} UpFromTop(b: Bytes)
    ensures Clean("/../" + b) == Clean("/" + b)
  {
    hide Split, Collapse;
    var up, top: seq<Bytes> := ["", ".."], [""];
    TopParts(b);
    CollapseConcat(up, Split(b, '/'), true, []);
    CollapseConcat(top, Split(b, '/'), true, []);
    UpIsTop();
  }

  lemma TopParts(b: Bytes)
    ensures Split("/../" + b, '/') == ["", ".."] + Split(b, '/') && Split("/" + b, '/') == [""] + Split(b, '/')
  {
    hide Split;
    PartsOf("/..", b);
    assert "/.." + "/" + b == "/../" + b;
    PartsOf("", b);
    assert "" + "/" + b == "/" + b;
    PartsOf("", "..");
    assert "" + "/" + ".." == "/..";
    SplitWithout("", '/');
    SplitWithout("..", '/');
  }

  lemma UpIsTop()
    ensures Collapse(["", ".."], true, []) == [] && Collapse([""], true, []) == []
  {
    var up: seq<Bytes> := ["", ".."];
    assert up[1..] == [".."] && [".."][1..] == [] && [""][1..] == [];
    assert Collapse([".."], true, []) == Collapse([], true, Push([], "..", true));
    assert Collapse(up, true, []) == Collapse([".."], true, Push([], "", true));
  }
}
