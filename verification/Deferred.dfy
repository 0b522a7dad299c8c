/** The queue of deferred directory times, update.go:130-160: a binary heap ordered by the length of
    the path, longest first, kept in a slice by container/heap's sifting. */
module Deferred {
  import opened GoBytes
  import opened GoStrings
  import opened Keywords
  import opened Entries
  import opened Paths

  datatype PathUpdate = PathUpdate(path: Bytes, entry: Entry, kv: KeyVal)

  type Queue = seq<PathUpdate>

  predicate Less(a: PathUpdate, b: PathUpdate) {
    |a.path| > |b.path|
  }

  function Swap(h: Queue, i: nat, j: nat): (s: Queue)
    requires i < |h| && j < |h|
    ensures |s| == |h| && multiset(s) == multiset(h)
  {
    h[i := h[j]][j := h[i]]
  }

  /** The place above k. */
  function Above(k: nat): nat
    requires k > 0
  {
    (k - 1) / 2
  }

  function SiftUp(h: Queue, j: nat): (s: Queue)
    requires j < |h|
    ensures |s| == |h| && multiset(s) == multiset(h)
    decreases j
  {
    if j == 0 || !Less(h[j], h[Above(j)]) then h else SiftUp(Swap(h, Above(j), j), Above(j))
  }

  /** The child that should come first, when both count. */
  function FirstChild(h: Queue, i: nat, n: nat): nat
    requires 2 * i + 1 < n <= |h|
  {
    if 2 * i + 2 < n && Less(h[2 * i + 2], h[2 * i + 1]) then 2 * i + 2 else 2 * i + 1
  }

  function SiftDown(h: Queue, i: nat, n: nat): (s: Queue)
    requires n <= |h|
    ensures |s| == |h| && multiset(s) == multiset(h) && s[n..] == h[n..]
    decreases n - i
  {
    if 2 * i + 1 >= n then h
    else
      var j := FirstChild(h, i, n);
      if !Less(h[j], h[i]) then h else SiftDown(Swap(h, i, j), j, n)
  }

  function Pushed(h: Queue, x: PathUpdate): Queue {
    SiftUp(h + [x], |h|)
  }

  /** What is left when the first item is popped. */
  function Popped(h: Queue): (rest: Queue)
    requires h != []
    ensures |rest| == |h| - 1
  {
    var n := |h| - 1;
    SiftDown(Swap(h, 0, n), 0, n)[..n]
  }

  function Drained(h: Queue): Queue
    decreases |h|
  {
    if h == [] then [] else [h[0]] + Drained(Popped(h))
  }

  lemma SiftDownStep(h: Queue, i: nat, n: nat)
    requires n <= |h|
    ensures SiftDown(h, i, n) ==
      if 2 * i + 1 >= n || !Less(h[FirstChild(h, i, n)], h[i]) then h
      else SiftDown(Swap(h, i, FirstChild(h, i, n)), FirstChild(h, i, n), n)
  {
  }

  // ---------- the slice ----------

  class PathUpdateHeap {
    var items: Queue

    constructor ()
      ensures items == []
    {
      items := [];
    }

    method Up(j0: nat)
      requires j0 < |items|
      modifies this
      ensures items == SiftUp(old(items), j0)
    {
      var j: nat := j0;
      while true
        invariant j < |items| == |old(items)|
        invariant SiftUp(items, j) == SiftUp(old(items), j0)
        decreases j
      {
        if j == 0 {
          break;
        }
        var i: nat := (j - 1) / 2;
        if !Less(items[j], items[i]) {
          break;
        }
        items := items[i := items[j]][j := items[i]];
        j := i;
      }
    }

    method Down(i0: nat, n: nat)
      requires n <= |items|
      modifies this
      ensures items == SiftDown(old(items), i0, n)
    {
      hide SiftDown;
      var i: nat := i0;
      while true
        invariant n <= |items| == |old(items)|
        invariant SiftDown(items, i, n) == SiftDown(old(items), i0, n)
        decreases n - i
      {
        SiftDownStep(items, i, n);
        var j1 := 2 * i + 1;
        if j1 >= n {
          break;
        }
        var j := j1;
        var j2 := j1 + 1;
        if j2 < n && Less(items[j2], items[j1]) {
          j := j2;
        }
        assert j == FirstChild(items, i, n);
        if !Less(items[j], items[i]) {
          break;
        }
        items := items[i := items[j]][j := items[i]];
        i := j;
      }
    }

    method Push(x: PathUpdate)
      modifies this
      ensures items == Pushed(old(items), x)
    {
      items := items + [x];
      Up(|items| - 1);
    }

    method Pop() returns (x: PathUpdate)
      requires items != []
      modifies this
      ensures x == old(items)[0] && items == Popped(old(items))
    {
      hide SiftDown;
      var n := |items| - 1;
      items := items[0 := items[n]][n := items[0]];
      Down(0, n);
      x := items[n];
      assert x == items[n..][0] == old(items)[0];
      items := items[..n];
    }
  }

  // ---------- the heap order ----------

  predicate Ordered(h: Queue, k: nat)
    requires 0 < k < |h|
  {
    !Less(h[k], h[Above(k)])
  }

  /** No item should come before the one above it. */
  predicate IsHeap(h: Queue) {
    forall k :: 0 < k < |h| ==> Ordered(h, k)
  }

  /** A heap but for the item at j, which may be too long for its place. */
  predicate HeapButUp(h: Queue, j: nat) {
    && (forall k :: 0 < k < |h| && k != j ==> Ordered(h, k))
    && (forall k :: 0 < k < |h| && Above(k) == j && j > 0 ==> !Less(h[k], h[Above(j)]))
  }

  /** A heap up to n but for the item at i, which may be too short for its place. */
  predicate HeapButDown(h: Queue, i: nat, n: nat) {
    && i < n <= |h|
    && (forall k :: 0 < k < n && Above(k) != i ==> Ordered(h, k))
    && (forall k :: 0 < k < n && Above(k) == i && i > 0 ==> !Less(h[k], h[Above(i)]))
  }

  lemma {:induction false} SiftUpHeaps(h: Queue, j: nat)
    requires j < |h| && HeapButUp(h, j)
    ensures IsHeap(SiftUp(h, j))
    decreases j
  {
    if j > 0 && Less(h[j], h[Above(j)]) {
      var i := Above(j);
      var s := Swap(h, i, j);
      forall k | 0 < k < |s| && k != i
        ensures Ordered(s, k)
      {
        assert k != j ==> Ordered(h, k);
      }
      forall k | 0 < k < |s| && Above(k) == i && i > 0
        ensures !Less(s[k], s[Above(i)])
      {
        assert Ordered(h, i);
        assert k != j ==> Ordered(h, k);
      }
      SiftUpHeaps(s, i);
    } else {
      assert j > 0 ==> Ordered(h, j);
    }
  }

  lemma {:induction false} SiftDownHeaps(h: Queue, i: nat, n: nat)
    requires HeapButDown(h, i, n)
    ensures IsHeap(SiftDown(h, i, n)[..n])
    decreases n - i
  {
    if 2 * i + 1 < n && Less(h[FirstChild(h, i, n)], h[i]) {
      var j := FirstChild(h, i, n);
      OneDown(h, i, n);
      SiftDownHeaps(Swap(h, i, j), j, n);
    } else {
      StaysDown(h, i, n);
    }
  }

  lemma StaysDown(h: Queue, i: nat, n: nat)
    requires HeapButDown(h, i, n) && (2 * i + 1 < n ==> !Less(h[FirstChild(h, i, n)], h[i]))
    ensures IsHeap(h[..n])
  {
    forall k | 0 < k < n
      ensures Ordered(h[..n], k)
    {
      assert Above(k) != i ==> Ordered(h, k);
      assert Above(k) == i ==> k == 2 * i + 1 || k == 2 * i + 2;
    }
  }

  lemma {:induction false} OneDown(h: Queue, i: nat, n: nat)
    requires HeapButDown(h, i, n) && 2 * i + 1 < n && Less(h[FirstChild(h, i, n)], h[i])
    ensures HeapButDown(Swap(h, i, FirstChild(h, i, n)), FirstChild(h, i, n), n)
  {
    var j := FirstChild(h, i, n);
    var s := Swap(h, i, j);
    forall k | 0 < k < n && Above(k) != j
      ensures Ordered(s, k)
    {
      assert Above(k) != i ==> Ordered(h, k);
      assert Above(k) == i ==> k == 2 * i + 1 || k == 2 * i + 2;
    }
    forall k | 0 < k < n && Above(k) == j
      ensures !Less(s[k], s[Above(j)])
    {
      assert Ordered(h, k);
    }
  }

  lemma PushKeepsHeap(h: Queue, x: PathUpdate)
    requires IsHeap(h)
    ensures IsHeap(Pushed(h, x)) && multiset(Pushed(h, x)) == multiset(h) + multiset{x}
  {
    var next := h + [x];
    forall k | 0 < k < |h|
      ensures Ordered(next, k)
    {
      assert Ordered(h, k);
    }
    SiftUpHeaps(next, |h|);
  }

  lemma {:induction false} PopKeepsHeap(h: Queue)
    requires h != [] && IsHeap(h)
    ensures IsHeap(Popped(h)) && multiset(Popped(h)) + multiset{h[0]} == multiset(h)
  {
    hide SiftDown, IsHeap;
    var n := |h| - 1;
    var s := Swap(h, 0, n);
    LastToFront(h);
    if n > 0 {
      SiftDownHeaps(s, 0, n);
    }
    var sunk := SiftDown(s, 0, n);
    assert sunk[n..] == [h[0]];
    assert sunk == sunk[..n] + [h[0]];
  }

  lemma LastToFront(h: Queue)
    requires h != [] && IsHeap(h)
    ensures var n := |h| - 1; if n > 0 then HeapButDown(Swap(h, 0, n), 0, n) else IsHeap(SiftDown(Swap(h, 0, n), 0, n)[..n])
  {
    var n := |h| - 1;
    forall k | 0 < k < n && Above(k) != 0
      ensures Ordered(Swap(h, 0, n), k)
    {
      assert Ordered(h, k);
    }
  }

  lemma {:induction false} TopIsFirst(h: Queue, k: nat)
    requires IsHeap(h) && k < |h|
    ensures |h[k].path| <= |h[0].path|
  {
    if k > 0 {
      assert Ordered(h, k);
      TopIsFirst(h, Above(k));
    }
  }

  // ---------- draining ----------

  predicate LongestFirst(order: seq<PathUpdate>) {
    forall i, j :: 0 <= i < j < |order| ==> |order[i].path| >= |order[j].path|
  }

  /** Every pushed item is popped exactly once, longer paths before shorter ones. */
  lemma {:induction false} DrainedSorts(h: Queue)
    requires IsHeap(h)
    ensures multiset(Drained(h)) == multiset(h) && LongestFirst(Drained(h))
    decreases |h|
  {
    if h != [] {
      hide IsHeap, Popped, LongestFirst;
      PopKeepsHeap(h);
      DrainedSorts(Popped(h));
      FirstThenRest(h, Drained(Popped(h)));
    }
  }

  lemma FirstThenRest(h: Queue, rest: Queue)
    requires h != [] && IsHeap(h) && LongestFirst(rest)
    requires multiset(rest) + multiset{h[0]} == multiset(h)
    ensures LongestFirst([h[0]] + rest) && multiset([h[0]] + rest) == multiset(h)
  {
    forall j | 0 <= j < |rest|
      ensures |h[0].path| >= |rest[j].path|
    {
      assert rest[j] in multiset(rest);
      TopOfAll(h, rest[j]);
    }
  }

  lemma TopOfAll(h: Queue, x: PathUpdate)
    requires IsHeap(h) && x in multiset(h)
    ensures h != [] && |x.path| <= |h[0].path|
  {
    assert x in h;
    var k :| 0 <= k < |h| && h[k] == x;
    TopIsFirst(h, k);
  }

  // ---------- descendants first ----------

  /** below is in the directory above, at some depth; both are cleaned paths. */
  predicate ProperlyBelow(below: Bytes, above: Bytes) {
    Under(below, above) && Segments(below) != Segments(above)
  }

  lemma {:induction false} JoinLonger(a: seq<Bytes>, b: seq<Bytes>)
    requires b != [] && forall i :: 0 <= i < |b| ==> b[i] != ""
    ensures |Join(a + b, '/')| > |Join(a, '/')| + if a == [] then 0 else 1
  {
    if a == [] {
      assert a + b == b;
    } else {
      JoinConcat(a, b, '/');
      assert |Join(b, '/')| > 0 by {
        if |b| > 1 {
          assert |b[0]| > 0;
        }
      }
    }
  }

  /** A cleaned path is longer than that of any directory above it, but for one case: "." is as long
      as a path of one character. */
  lemma BelowIsLonger(below: Bytes, above: Bytes)
    requires Clean(below) == below && Clean(above) == above && ProperlyBelow(below, above)
    ensures |below| > |above| || (above == "." && |below| == 1 && !IsAbs(below))
  {
    var n := |Segments(above)|;
    var more := Segments(below)[n..];
    assert Segments(below) == Segments(above) + more;
    JoinLonger(Segments(above), more);
    JoinLonger([], more);
    assert [] + more == more;
    if Segments(above) == [] {
      assert [] + more == more;
    }
  }

  /** A directory's time is restored before that of something below it only if the directory is "."
      and the other path has one character. */
  lemma {:induction false} DescendantsFirst(h: Queue, i: nat, j: nat)
    requires IsHeap(h) && i < j < |Drained(h)|
    requires Clean(Drained(h)[i].path) == Drained(h)[i].path && Clean(Drained(h)[j].path) == Drained(h)[j].path
    requires ProperlyBelow(Drained(h)[j].path, Drained(h)[i].path)
    ensures Drained(h)[i].path == "." && |Drained(h)[j].path| == 1
  {
    DrainedSorts(h);
    BelowIsLonger(Drained(h)[j].path, Drained(h)[i].path);
  }

  /** The tie does happen: of "." and then "a", "." is popped first. */
  lemma {:induction false} DotBeforeChild(dot: PathUpdate, child: PathUpdate)
    requires dot.path == "." && child.path == "a"
    ensures Drained(Pushed(Pushed([], dot), child)) == [dot, child] && ProperlyBelow("a", ".")
  {
    SplitWithout("a", '/');
    SplitWithout(".", '/');
    assert Collapse(["a"], false, []) == Collapse(["a"][1..], false, Push([], "a", false));
    assert Collapse(["."], false, []) == Collapse(["."][1..], false, Push([], ".", false));
    assert Pushed([], dot) == [dot];
    assert Pushed([dot], child) == [dot, child];
    assert Swap([dot, child], 0, 1) == [child, dot];
    assert Popped([dot, child]) == [child];
    assert Popped([child]) == [];
    assert Drained([]) == [];
    assert Drained([child]) == [child] + [];
  }

  // ---------- the order of the pushes ----------

  /** The queue after these pushes. */
  function PushedAll(h: Queue, xs: seq<PathUpdate>): Queue
    decreases |xs|
  {
    if xs == [] then h else PushedAll(Pushed(h, xs[0]), xs[1..])
  }

  lemma {:induction false} PushedAllHeaps(h: Queue, xs: seq<PathUpdate>)
    requires IsHeap(h)
    ensures IsHeap(PushedAll(h, xs)) && multiset(PushedAll(h, xs)) == multiset(h) + multiset(xs)
    decreases |xs|
  {
    if xs != [] {
      hide IsHeap, Pushed;
      PushKeepsHeap(h, xs[0]);
      PushedAllHeaps(Pushed(h, xs[0]), xs[1..]);
      assert xs == [xs[0]] + xs[1..];
    }
  }

  type Relabel = PathUpdate -> PathUpdate

  ghost predicate KeepsLength(f: Relabel) {
    forall x: PathUpdate :: |f(x).path| == |x.path|
  }

  function Relabelled(f: Relabel, h: Queue): (r: Queue)
    ensures |r| == |h| && forall i :: 0 <= i < |h| ==> r[i] == f(h[i])
  {
    seq(|h|, i requires 0 <= i < |h| => f(h[i]))
  }

  // Sifting looks at nothing but lengths: other items of the same lengths end up in the same places.

  lemma {:induction false} SiftUpRelabels(f: Relabel, h: Queue, j: nat)
    requires KeepsLength(f) && j < |h|
    ensures SiftUp(Relabelled(f, h), j) == Relabelled(f, SiftUp(h, j))
    decreases j
  {
    if j > 0 && Less(h[j], h[Above(j)]) {
      assert Swap(Relabelled(f, h), Above(j), j) == Relabelled(f, Swap(h, Above(j), j));
      SiftUpRelabels(f, Swap(h, Above(j), j), Above(j));
    }
  }

  lemma {:induction false} SiftDownRelabels(f: Relabel, h: Queue, i: nat, n: nat)
    requires KeepsLength(f) && n <= |h|
    ensures SiftDown(Relabelled(f, h), i, n) == Relabelled(f, SiftDown(h, i, n))
    decreases n - i
  {
    if 2 * i + 1 < n {
      var j := FirstChild(h, i, n);
      assert FirstChild(Relabelled(f, h), i, n) == j;
      if Less(h[j], h[i]) {
        assert Swap(Relabelled(f, h), i, j) == Relabelled(f, Swap(h, i, j));
        SiftDownRelabels(f, Swap(h, i, j), j, n);
      }
    }
  }

  lemma PopRelabels(f: Relabel, h: Queue)
    requires KeepsLength(f) && h != []
    ensures Popped(Relabelled(f, h)) == Relabelled(f, Popped(h))
  {
    hide SiftDown, KeepsLength;
    var n := |h| - 1;
    assert Swap(Relabelled(f, h), 0, n) == Relabelled(f, Swap(h, 0, n));
    SiftDownRelabels(f, Swap(h, 0, n), 0, n);
  }

  lemma {:induction false} DrainRelabels(f: Relabel, h: Queue)
    requires KeepsLength(f)
    ensures Drained(Relabelled(f, h)) == Relabelled(f, Drained(h))
    decreases |h|
  {
    hide Popped, KeepsLength;
    if h != [] {
      PopRelabels(f, h);
      DrainRelabels(f, Popped(h));
      assert Relabelled(f, [h[0]] + Drained(Popped(h))) == [f(h[0])] + Relabelled(f, Drained(Popped(h)));
    }
  }

  lemma {:induction false} PushesRelabel(f: Relabel, h: Queue, xs: seq<PathUpdate>)
    requires KeepsLength(f)
    ensures PushedAll(Relabelled(f, h), Relabelled(f, xs)) == Relabelled(f, PushedAll(h, xs))
    decreases |xs|
  {
    hide SiftUp;
    if xs != [] {
      assert Relabelled(f, h) + [f(xs[0])] == Relabelled(f, h + [xs[0]]);
      SiftUpRelabels(f, h + [xs[0]], |h|);
      assert Relabelled(f, xs)[1..] == Relabelled(f, xs[1..]);
      PushesRelabel(f, Pushed(h, xs[0]), xs[1..]);
    }
  }

  /** The order in which the pushed items are popped. */
  function Order(xs: seq<PathUpdate>): Queue {
    Drained(PushedAll([], xs))
  }

  lemma {:induction false} OrderRelabels(f: Relabel, xs: seq<PathUpdate>)
    requires KeepsLength(f)
    ensures Order(Relabelled(f, xs)) == Relabelled(f, Order(xs))
  {
    hide PushedAll, Drained;
    PushesRelabel(f, [], xs);
    assert Relabelled(f, []) == [];
    DrainRelabels(f, PushedAll([], xs));
  }

  lemma {:induction false} OrderIsAll(xs: seq<PathUpdate>)
    ensures multiset(Order(xs)) == multiset(xs) && |Order(xs)| == |xs| && LongestFirst(Order(xs))
  {
    hide PushedAll, Drained, LongestFirst, Ordered;
    PushedAllHeaps([], xs);
    DrainedSorts(PushedAll([], xs));
    assert |multiset(Order(xs))| == |multiset(xs)|;
  }

  // Items told apart by a mark, so that those of the same length can trade places.

  function Mark(i: nat): (m: KeyVal)
    ensures |m| == i
  {
    seq(i, _ => 'x')
  }

  function Marked(xs: seq<PathUpdate>): (ms: seq<PathUpdate>)
    ensures |ms| == |xs| && forall i :: 0 <= i < |xs| ==> ms[i].path == xs[i].path && |ms[i].kv| == i
  {
    seq(|xs|, i requires 0 <= i < |xs| => xs[i].(kv := Mark(i)))
  }

  /** The item a marked one stands for. */
  function Unmark(ys: seq<PathUpdate>): Relabel {
    (m: PathUpdate) => if |m.kv| < |ys| && |ys[|m.kv|].path| == |m.path| then ys[|m.kv|] else m
  }

  lemma UnmarkMarked(xs: seq<PathUpdate>, ys: seq<PathUpdate>)
    requires |ys| == |xs| && forall i :: 0 <= i < |xs| ==> |ys[i].path| == |xs[i].path|
    ensures KeepsLength(Unmark(ys)) && Relabelled(Unmark(ys), Marked(xs)) == ys
  {
  }

  /** The items popped at two places, when the pushed ones are replaced by others of their lengths. */
  lemma {:induction false} PoppedAt(xs: seq<PathUpdate>, ys: seq<PathUpdate>, p: nat)
    requires |ys| == |xs| && forall i :: 0 <= i < |xs| ==> |ys[i].path| == |xs[i].path|
    requires p < |Order(Marked(xs))| && |Order(Marked(xs))[p].kv| < |xs| && Order(Marked(xs))[p] in Marked(xs)
    ensures |Order(ys)| == |Order(Marked(xs))| && Order(ys)[p] == ys[|Order(Marked(xs))[p].kv|]
  {
    hide Order;
    UnmarkMarked(xs, ys);
    OrderRelabels(Unmark(ys), Marked(xs));
  }

  lemma {:induction false} MarkPopped(xs: seq<PathUpdate>, i: nat) returns (p: nat)
    requires i < |xs|
    ensures p < |Order(Marked(xs))| && Order(Marked(xs))[p] == Marked(xs)[i] && Marked(xs)[i] in Marked(xs)
  {
    hide Order;
    OrderIsAll(Marked(xs));
    assert Marked(xs)[i] in multiset(Order(Marked(xs)));
    p :| 0 <= p < |Order(Marked(xs))| && Order(Marked(xs))[p] == Marked(xs)[i];
  }

  /** Of two pushed items of one length either can be popped first: by the pushes as they are, or with
      the two exchanged. */
  lemma {:induction false} EitherFirst(xs: seq<PathUpdate>, i: nat, j: nat) returns (order: seq<PathUpdate>, p: nat, q: nat)
    requires i < |xs| && j < |xs| && i != j && |xs[i].path| == |xs[j].path|
    ensures multiset(order) == multiset(xs) && p < q < |Order(order)| && Order(order)[p] == xs[i] && Order(order)[q] == xs[j]
  {
    hide Order;
    p := MarkPopped(xs, i);
    q := MarkPopped(xs, j);
    if p < q {
      order := xs;
    } else {
      order := xs[i := xs[j]][j := xs[i]];
    }
    PoppedAt(xs, order, p);
    PoppedAt(xs, order, q);
    if p > q {
      p, q := q, p;
    }
  }

  predicate ChildrenFirst(order: seq<PathUpdate>) {
    forall i, j :: 0 <= i < j < |order| ==> !ProperlyBelow(order[j].path, order[i].path)
  }

  predicate Reorders(order: seq<PathUpdate>, xs: seq<PathUpdate>) {
    multiset(order) == multiset(xs)
  }

  /** "." and a relative path of one character are both there. */
  predicate DotTies(xs: seq<PathUpdate>) {
    exists i, j :: 0 <= i < |xs| && 0 <= j < |xs| && xs[i].path == "." && xs[j].path != "." && |xs[j].path| == 1 && !IsAbs(xs[j].path)
  }

  lemma DotIsClean()
    ensures Segments(".") == [] && !IsAbs(".")
  {
    SplitWithout(".", '/');
    assert Collapse(["."], false, []) == Collapse(["."][1..], false, Push([], ".", false));
  }

  lemma BelowDot(path: Bytes)
    requires |path| == 1 && path != "." && !IsAbs(path)
    ensures ProperlyBelow(path, ".")
  {
    DotIsClean();
    assert path == [path[0]];
    SplitWithout(path, '/');
    assert Collapse([path], false, []) == Collapse([path][1..], false, Push([], path, false));
  }

  /** However the items are pushed, descendants are popped before their directories, exactly when "."
      does not come together with a relative path of one character. */
  lemma {:induction false} AnyPushOrder(xs: seq<PathUpdate>)
    requires forall i :: 0 <= i < |xs| ==> Clean(xs[i].path) == xs[i].path
    ensures (forall order: seq<PathUpdate> :: Reorders(order, xs) ==> ChildrenFirst(Order(order))) <==> !DotTies(xs)
  {
    hide Order, ProperlyBelow, Clean;
    if i: nat, j: nat :| i < |xs| && j < |xs| && xs[i].path == "." && xs[j].path != "." && |xs[j].path| == 1 && !IsAbs(xs[j].path) {
      var order, p, q := EitherFirst(xs, i, j);
      BelowDot(xs[j].path);
      assert Reorders(order, xs) && !ChildrenFirst(Order(order));
    } else {
      forall order: seq<PathUpdate> | Reorders(order, xs)
        ensures ChildrenFirst(Order(order))
      {
        NoTies(xs, order);
      }
    }
  }

  lemma {:induction false} NoTies(xs: seq<PathUpdate>, order: seq<PathUpdate>)
    requires forall i :: 0 <= i < |xs| ==> Clean(xs[i].path) == xs[i].path
    requires Reorders(order, xs) && !DotTies(xs)
    ensures ChildrenFirst(Order(order))
  {
    hide Order, ProperlyBelow, Clean;
    OrderIsAll(order);
    var popped := Order(order);
    forall i, j | 0 <= i < j < |popped|
      ensures !ProperlyBelow(popped[j].path, popped[i].path)
    {
      assert popped[i] in multiset(popped) && popped[j] in multiset(popped);
      assert popped[i] in xs && popped[j] in xs;
      if ProperlyBelow(popped[j].path, popped[i].path) {
        BelowIsLonger(popped[j].path, popped[i].path);
        NotItself(popped[j].path);
      }
    }
  }

  lemma NotItself(path: Bytes)
    ensures !ProperlyBelow(path, path)
  {
  }
}
