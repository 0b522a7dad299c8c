/** What an update without errors leaves on the disk. */
module UpdateLaws {
  import opened GoBytes
  import opened GoStrings
  import opened Govis
  import opened Keywords
  import opened Entries
  import opened Times
  import opened Deferred
  import opened Update
  import Paths

  predicate IsTime(kv: KeyVal) {
    Prefix(KeywordOf(kv)) == "time"
  }

  predicate OneTime(kvs: seq<KeyVal>) {
    forall a, b :: 0 <= a < b < |kvs| && IsTime(kvs[a]) ==> !IsTime(kvs[b])
  }

  /** No two entries have the same path. */
  predicate PathsDistinct(entries: seq<Entry>) {
    forall i, j :: 0 <= i < j < |entries| && IsNamed(entries[i]) && IsNamed(entries[j]) ==> Path(entries[i]) != Path(entries[j])
  }

  /** No entry has two times. */
  predicate OneTimeEach(entries: seq<Entry>, keywords: seq<Keyword>) {
    forall i :: 0 <= i < |entries| ==> OneTime(Selected(AllKeys(Current(entries, i)), keywords))
  }

  predicate OncePerPath(m: multiset<PathUpdate>) {
    && (forall x :: x in m ==> m[x] == 1)
    && (forall x, y :: x in m && y in m && x.path == y.path ==> x == y)
  }

  lemma {:induction false} WaitingConcat(a: seq<PathUpdate>, b: seq<PathUpdate>)
    ensures Waiting(a + b) == Waiting(a) + Waiting(b)
  {
    hide Waits;
    if b == [] {
      assert a + b == a;
    } else {
      assert (a + b)[..|a + b| - 1] == a + b[..|b| - 1];
      WaitingConcat(a, b[..|b| - 1]);
    }
  }

  lemma CallsSnoc(path: Bytes, e: Entry, kvs: seq<KeyVal>)
    requires kvs != []
    ensures var before, last := kvs[..|kvs| - 1], PathUpdate(path, e, kvs[|kvs| - 1]);
      Waiting(CallsFor(path, e, kvs)) == Waiting(CallsFor(path, e, before))
        + if HasFunc(Key(last)) && Waits(last) then [last] else []
  {
    hide HasFunc, IsDir, Prefix, KeywordOf;
    var before, last := kvs[..|kvs| - 1], PathUpdate(path, e, kvs[|kvs| - 1]);
    WaitingConcat(CallsFor(path, e, before), [last]);
    assert CallsFor(path, e, before) + [] == CallsFor(path, e, before);
    assert [last][..0] == [];
    assert Key(last) == Prefix(KeywordOf(kvs[|kvs| - 1]));
  }

  /** Of key-values without a time no call waits, and of others with one time one. */
  lemma {:induction false} AtMostOneWaits(path: Bytes, e: Entry, kvs: seq<KeyVal>)
    requires OneTime(kvs)
    ensures |Waiting(CallsFor(path, e, kvs))| <= 1
    ensures (forall a :: 0 <= a < |kvs| ==> !IsTime(kvs[a])) ==> Waiting(CallsFor(path, e, kvs)) == []
  {
    hide HasFunc, Prefix, KeywordOf, IsDir, CallsFor;
    if kvs == [] {
      NoneWait(path, e);
    } else {
      var n := |kvs| - 1;
      var before := kvs[..n];
      AtMostOneWaits(path, e, before);
      CallsSnoc(path, e, kvs);
      assert forall a :: 0 <= a < n ==> before[a] == kvs[a];
    }
  }

  lemma NoneWait(path: Bytes, e: Entry)
    ensures Waiting([]) == [] && CallsFor(path, e, []) == []
  {
  }

  lemma PathIgnoresSet(e: Entry, s: Option<Entry>)
    ensures Path(e.(setLine := s)) == Path(e)
  {
  }

  lemma {:induction false} PlannedPaths(entries: seq<Entry>, keywords: seq<Keyword>, x: PathUpdate)
    returns (i: nat)
    requires Plan(entries, keywords).Ok? && x in Plan(entries, keywords).value
    ensures i < |entries| && IsNamed(entries[i]) && Path(entries[i]) == Ok(x.path)
  {
    hide Path, CallsAt;
    var n := |entries| - 1;
    var e := Current(entries, n);
    if x in Plan(entries[..n], keywords).value {
      i := PlannedPaths(entries[..n], keywords, x);
    } else {
      CallsAtPath(e, keywords, x);
      PathIgnoresSet(entries[n], CurSet(entries[..n]));
      i := n;
    }
  }

  lemma {:induction false} CallsAtPath(e: Entry, keywords: seq<Keyword>, x: PathUpdate)
    requires CallsAt(e, keywords).Ok? && x in CallsAt(e, keywords).value
    ensures IsNamed(e) && Path(e) == Ok(x.path)
  {
    hide Path;
    CallsForAre(Path(e).value, e, Selected(AllKeys(e), keywords), x);
  }

  lemma {:induction false} WaitingOnce(entries: seq<Entry>, keywords: seq<Keyword>)
    requires Plan(entries, keywords).Ok? && PathsDistinct(entries) && OneTimeEach(entries, keywords)
    ensures OncePerPath(multiset(Waiting(Plan(entries, keywords).value)))
  {
    if entries != [] {
      hide Path, CallsAt, Waiting, Selected, AllKeys, CurSet;
      var n := |entries| - 1;
      var before := Plan(entries[..n], keywords).value;
      var calls := CallsAt(Current(entries, n), keywords).value;
      FewerEntries(entries, keywords);
      WaitingOnce(entries[..n], keywords);
      WaitingConcat(before, calls);
      LastWaits(entries, keywords);
      AddsOnce(Waiting(before), Waiting(calls));
    } else {
      assert Waiting([]) == [];
    }
  }

  lemma FewerEntries(entries: seq<Entry>, keywords: seq<Keyword>)
    requires entries != [] && PathsDistinct(entries) && OneTimeEach(entries, keywords)
    ensures PathsDistinct(entries[..|entries| - 1]) && OneTimeEach(entries[..|entries| - 1], keywords)
  {
    hide Path, Selected, AllKeys, OneTime;
    var before := entries[..|entries| - 1];
    forall i | 0 <= i < |before|
      ensures OneTime(Selected(AllKeys(Current(before, i)), keywords))
    {
      assert before[..i] == entries[..i];
      assert Current(before, i) == Current(entries, i);
      assert OneTime(Selected(AllKeys(Current(entries, i)), keywords));
    }
  }

  /** At most one call of the last entry waits, and no earlier one is for its path. */
  lemma {:induction false} LastWaits(entries: seq<Entry>, keywords: seq<Keyword>)
    requires entries != [] && Plan(entries, keywords).Ok? && PathsDistinct(entries) && OneTimeEach(entries, keywords)
    ensures var n := |entries| - 1;
      var before, calls := Plan(entries[..n], keywords).value, CallsAt(Current(entries, n), keywords).value;
      && |Waiting(calls)| <= 1
      && forall x, y :: x in Waiting(before) && y in Waiting(calls) ==> x.path != y.path
  {
    hide Path, Waiting, Selected, AllKeys, OneTime, CurSet;
    var n := |entries| - 1;
    var e := Current(entries, n);
    var before, calls := Plan(entries[..n], keywords).value, CallsAt(e, keywords).value;
    if IsNamed(e) {
      AtMostOneWaits(Path(e).value, e, Selected(AllKeys(e), keywords));
    } else {
      NoneWait([], e);
    }
    forall x, y | x in Waiting(before) && y in Waiting(calls)
      ensures x.path != y.path
    {
      WaitingAre(before, x);
      WaitingAre(calls, y);
      var at := PlannedPaths(entries[..n], keywords, x);
      assert entries[..n][at] == entries[at];
      CallsAtPath(e, keywords, y);
      PathIgnoresSet(entries[n], CurSet(entries[..n]));
      OkDiffers(Path(entries[at]), Path(entries[n]), x.path, y.path);
    }
  }

  lemma OkDiffers(a: Result<Bytes, VisError>, b: Result<Bytes, VisError>, x: Bytes, y: Bytes)
    requires a == Ok(x) && b == Ok(y) && a != b
    ensures x != y
  {
  }

  lemma AddsOnce(a: seq<PathUpdate>, b: seq<PathUpdate>)
    requires OncePerPath(multiset(a)) && |b| <= 1
    requires forall x, y :: x in a && y in b ==> x.path != y.path
    ensures OncePerPath(multiset(a + b))
  {
    if b == [] {
      assert a + b == a;
    } else {
      assert b == [b[0]];
      assert multiset(a + b) == multiset(a) + multiset{b[0]};
      assert b[0] !in multiset(a);
    }
  }

  lemma Twice(order: seq<PathUpdate>, i: nat, j: nat)
    requires i < j < |order| && order[i] == order[j]
    ensures multiset(order)[order[j]] >= 2
  {
    assert order == order[..j] + [order[j]] + order[j + 1..];
    assert order[..j][i] == order[j];
    assert multiset(order) == multiset(order[..j]) + multiset{order[j]} + multiset(order[j + 1..]);
  }

  lemma OnceInOrder(order: seq<PathUpdate>, i: nat, j: nat)
    requires OncePerPath(multiset(order)) && i < j < |order|
    ensures order[i].path != order[j].path
  {
    assert order[i] in multiset(order) && order[j] in multiset(order);
    if order[i] == order[j] {
      Twice(order, i, j);
    }
  }

  lemma {:induction false} PlannedCall(entries: seq<Entry>, keywords: seq<Keyword>, i: nat, kv: KeyVal)
    requires Plan(entries, keywords).Ok? && i < |entries| && IsNamed(entries[i])
    requires kv in Selected(AllKeys(Current(entries, i)), keywords) && HasFunc(Prefix(KeywordOf(kv)))
    ensures Path(entries[i]).Ok?
    ensures PathUpdate(Path(entries[i]).value, Current(entries, i), kv) in Plan(entries, keywords).value
  {
    hide Path, Selected, AllKeys, HasFunc, KeywordOf, Prefix, CallsFor, CurSet;
    var n := |entries| - 1;
    PathIgnoresSet(entries[i], CurSet(entries[..i]));
    if i < n {
      assert entries[..n][..i] == entries[..i];
      PlannedCall(entries[..n], keywords, i, kv);
    } else {
      var e := Current(entries, n);
      CallsForAre(Path(e).value, e, Selected(AllKeys(e), keywords), PathUpdate(Path(e).value, e, kv));
    }
  }

  // ---------- runs without an error ----------

  lemma {:induction false} ReplayedConcat(nodes: Nodes, a: seq<Done>, b: seq<Done>)
    ensures Replayed(nodes, a + b) == match Replayed(nodes, a) case None => None case Some(m) => Replayed(m, b)
  {
    hide Applied;
    if b == [] {
      assert a + b == a;
    } else {
      var n := |b| - 1;
      assert (a + b)[..|a + b| - 1] == a + b[..n];
      ReplayedConcat(nodes, a, b[..n]);
    }
  }

  /** The first call of a run, and the rest of it. */
  lemma {:induction false} ReplayedFirst(nodes: Nodes, run: seq<Done>)
    requires run != []
    ensures Replayed(nodes, run) == match Applied(nodes, run[0].call, run[0].now)
                                    case None => None case Some(m) => Replayed(m, run[1..])
  {
    hide Applied;
    var first := run[..1];
    assert run == first + run[1..];
    ReplayedConcat(nodes, first, run[1..]);
    assert first[..0] == [] && Replayed(nodes, []) == Some(nodes);
    assert Replayed(nodes, first) == Applied(nodes, run[0].call, run[0].now);
  }

  function AttrOf(node: Inode, k: Keyword): Option<Bytes> {
    if k in node.attrs then Some(node.attrs[k]) else None
  }

  /** The call is for a link at the path, and the target is another. */
  predicate Renews(call: PathUpdate, path: Bytes, target: Bytes) {
    && call.path == path && Prefix(KeywordOf(call.kv)) == "link"
    && Decode(ValueOf(call.kv), DEFAULT_VIS_FLAGS) != Ok(target)
  }

  /** The call sets the time of the node at the path by making a link anew, there or directly below. */
  predicate Moves(call: PathUpdate, nodes: Nodes, path: Bytes) {
    && (call.path == path || ParentPath(call.path) == path)
    && call.path in nodes && Renews(call, call.path, nodes[call.path].target)
  }

  predicate SetsTime(call: PathUpdate, path: Bytes) {
    call.path == path && (Prefix(KeywordOf(call.kv)) == "time" || Prefix(KeywordOf(call.kv)) == "tar_time")
  }

  predicate SetsAttr(call: PathUpdate, path: Bytes, k: Keyword) {
    call.path == path && KeywordOf(call.kv) == k
  }

  predicate IsAttrKeyword(k: Keyword) {
    Prefix(k) == "uid" || Prefix(k) == "gid" || Prefix(k) == "mode" || Prefix(k) == "xattr"
  }

  /** One call, seen from the node at a path. */
  lemma StepAt(nodes: Nodes, call: PathUpdate, now: int, after: Nodes, path: Bytes)
    requires Applied(nodes, call, now) == Some(after)
    ensures call.path in nodes && after.Keys == nodes.Keys
    ensures path in nodes ==>
      var old_, new_ := nodes[path], after[path];
      && new_.isLink == old_.isLink
      && (call.path == path ==> Some(new_) == Changed(old_, call.kv, now))
      && (call.path != path ==> new_ == if Moves(call, nodes, path) then old_.(mtime := now) else old_)
  {
    hide Prefix, KeywordOf, ValueOf, DecodeTime, TarSeconds, Decode, ParentPath;
  }

  lemma {:induction false} NodesStay(nodes: Nodes, run: seq<Done>, after: Nodes)
    requires Replayed(nodes, run) == Some(after)
    ensures after.Keys == nodes.Keys
    ensures forall p :: p in nodes ==> after[p].isLink == nodes[p].isLink
    ensures forall k :: 0 <= k < |run| ==> run[k].call.path in nodes
    decreases |run|
  {
    hide Applied;
    if run != [] {
      ReplayedFirst(nodes, run);
      var next := Applied(nodes, run[0].call, run[0].now).value;
      StepAt(nodes, run[0].call, run[0].now, next, run[0].call.path);
      NodesStay(next, run[1..], after);
      forall p | p in nodes
        ensures after[p].isLink == nodes[p].isLink
      {
        StepAt(nodes, run[0].call, run[0].now, next, p);
      }
      forall k | 0 <= k < |run|
        ensures run[k].call.path in nodes
      {
        if k > 0 {
          assert run[1..][k - 1] == run[k];
        }
      }
    }
  }

  predicate SetsLink(call: PathUpdate, path: Bytes) {
    call.path == path && Prefix(KeywordOf(call.kv)) == "link"
  }

  /** The target of the link at the path once the calls are done: what the last link said. */
  function TargetAfter(target: Bytes, calls: seq<PathUpdate>, path: Bytes): Bytes {
    if calls == [] then target
    else
      var last := calls[|calls| - 1];
      if SetsLink(last, path) then DecodedOr(ValueOf(last.kv), target)
      else TargetAfter(target, calls[..|calls| - 1], path)
  }

  function DecodedOr(value: Bytes, target: Bytes): Bytes {
    match Decode(value, DEFAULT_VIS_FLAGS) case Ok(t) => t case Err(_) => target
  }

  lemma {:induction false} TargetFollows(nodes: Nodes, run: seq<Done>, after: Nodes, path: Bytes)
    requires Replayed(nodes, run) == Some(after) && path in nodes
    ensures path in after && after[path].target == TargetAfter(nodes[path].target, CallsOf(run), path)
  {
    hide Applied, ParentPath, DecodeTime, TarSeconds, Decode, Prefix, KeywordOf, ValueOf;
    if run != [] {
      var n := |run| - 1;
      var last, before := run[n], Replayed(nodes, run[..n]).value;
      TargetFollows(nodes, run[..n], before, path);
      StepAt(before, last.call, last.now, after, path);
      assert CallsOf(run)[..n] == CallsOf(run[..n]);
    }
  }

  /** The attribute, when no call of the run sets it: it stays unless a link was made anew. */
  lemma {:induction false} AttrsFollow(nodes: Nodes, run: seq<Done>, after: Nodes, path: Bytes, k: Keyword)
    requires Replayed(nodes, run) == Some(after) && path in nodes && IsAttrKeyword(k)
    requires forall m :: 0 <= m < |run| && SetsAttr(run[m].call, path, k) ==> Prefix(k) == "mode" && nodes[path].isLink
    ensures path in after
    ensures AttrOf(after[path], k) ==
      if exists m :: 0 <= m < |run| && Renews(run[m].call, path, nodes[path].target) then None else AttrOf(nodes[path], k)
    decreases |run|
  {
    hide Applied, Replayed, ParentPath, DecodeTime, TarSeconds, Decode, Prefix, KeywordOf, ValueOf, Renews, Moves, SetsAttr, Changed;
    if run == [] {
      NothingReplayed(nodes);
    } else {
      ReplayedFirst(nodes, run);
      var call, now, rest := run[0].call, run[0].now, run[1..];
      var next := Applied(nodes, call, now).value;
      StepAt(nodes, call, now, next, path);
      forall m | 0 <= m < |rest| && SetsAttr(rest[m].call, path, k)
        ensures Prefix(k) == "mode" && nodes[path].isLink
      {
        assert SetsAttr(run[m + 1].call, path, k);
      }
      AttrsFollow(next, rest, after, path, k);
      AttrStep(nodes[path], call, now, next[path], path, k);
      SomeLater(run, path, nodes[path].target);
    }
  }

  lemma NothingReplayed(nodes: Nodes)
    ensures Replayed(nodes, []) == Some(nodes)
  {
  }

  lemma SomeLater(run: seq<Done>, path: Bytes, target: Bytes)
    requires run != []
    ensures (exists m :: 0 <= m < |run| && Renews(run[m].call, path, target)) <==>
            Renews(run[0].call, path, target) || exists m :: 0 <= m < |run[1..]| && Renews(run[1..][m].call, path, target)
  {
    hide Renews;
    forall m | 0 <= m < |run| && Renews(run[m].call, path, target)
      ensures Renews(run[0].call, path, target) || exists m :: 0 <= m < |run[1..]| && Renews(run[1..][m].call, path, target)
    {
      if m > 0 {
        assert Renews(run[1..][m - 1].call, path, target);
      }
    }
    forall m | 0 <= m < |run[1..]| && Renews(run[1..][m].call, path, target)
      ensures exists m :: 0 <= m < |run| && Renews(run[m].call, path, target)
    {
      assert Renews(run[m + 1].call, path, target);
    }
  }

  /** One call leaves an attribute it does not set, or makes the link anew, with no attributes at all. */
  lemma AttrStep(before: Inode, call: PathUpdate, now: int, after: Inode, path: Bytes, k: Keyword)
    requires after.isLink == before.isLink && IsAttrKeyword(k)
    requires call.path == path ==> Some(after) == Changed(before, call.kv, now)
    requires call.path != path ==> after == before.(mtime := after.mtime)
    requires SetsAttr(call, path, k) ==> Prefix(k) == "mode" && before.isLink
    ensures Renews(call, path, before.target) ==> after.attrs == map[]
    ensures !Renews(call, path, before.target) ==> after.target == before.target && AttrOf(after, k) == AttrOf(before, k)
  {
    hide ParentPath, DecodeTime, TarSeconds, Decode, Prefix, KeywordOf, ValueOf;
  }
  /** The time, when no call of the run sets it: it stays unless a link was made anew there or directly below,
      and is then when the last of these was made. */
  lemma {:induction false} TimesFollow(nodes: Nodes, run: seq<Done>, after: Nodes, path: Bytes)
    requires Replayed(nodes, run) == Some(after) && path in nodes
    requires forall m :: 0 <= m < |run| ==> !SetsTime(run[m].call, path)
    ensures path in after
    ensures if exists m :: 0 <= m < |run| && Moves(run[m].call, nodes, path) then IsSomeNow(run, after[path].mtime)
            else after[path].mtime == nodes[path].mtime
    decreases |run|
  {
    hide Applied, Replayed, ParentPath, DecodeTime, TarSeconds, Decode, Prefix, KeywordOf, ValueOf, Renews, Moves, SetsTime, Changed;
    if run == [] {
      NothingReplayed(nodes);
    } else {
      ReplayedFirst(nodes, run);
      var call, now, rest := run[0].call, run[0].now, run[1..];
      var next := Applied(nodes, call, now).value;
      StepAt(nodes, call, now, next, path);
      forall m | 0 <= m < |rest|
        ensures !SetsTime(rest[m].call, path)
      {
        assert rest[m] == run[m + 1];
      }
      TimesFollow(next, rest, after, path);
      assert !SetsTime(run[0].call, path);
      TimeStep(nodes, call, now, next, path);
      if !Moves(call, nodes, path) {
        forall m | 0 < m < |run|
          ensures Moves(run[m].call, nodes, path) <==> Moves(rest[m - 1].call, next, path)
        {
          MovesStay(nodes, call, now, next, path, run[m].call);
        }
        if m :| 0 <= m < |rest| && Moves(rest[m].call, next, path) {
          assert Moves(run[m + 1].call, nodes, path);
        }
      }
      NowLater(run, after[path].mtime);
    }
  }

  ghost predicate IsSomeNow(run: seq<Done>, t: int) {
    exists m :: 0 <= m < |run| && run[m].now == t
  }

  lemma NowLater(run: seq<Done>, t: int)
    requires run != []
    ensures IsSomeNow(run, t) <==> run[0].now == t || IsSomeNow(run[1..], t)
  {
    forall m | 0 < m < |run| && run[m].now == t
      ensures IsSomeNow(run[1..], t)
    {
      assert run[1..][m - 1].now == t;
    }
    forall m | 0 <= m < |run| - 1 && run[1..][m].now == t
      ensures IsSomeNow(run, t)
    {
      assert run[m + 1].now == t;
    }
  }

  lemma TimeStep(nodes: Nodes, call: PathUpdate, now: int, after: Nodes, path: Bytes)
    requires Applied(nodes, call, now) == Some(after) && path in nodes && !SetsTime(call, path)
    ensures path in after && after[path].mtime == if Moves(call, nodes, path) then now else nodes[path].mtime
  {
    hide Prefix, KeywordOf, ValueOf, DecodeTime, TarSeconds, Decode, ParentPath;
  }

  lemma MovesStay(nodes: Nodes, call: PathUpdate, now: int, after: Nodes, path: Bytes, other: PathUpdate)
    requires Applied(nodes, call, now) == Some(after) && !Moves(call, nodes, path)
    ensures Moves(other, after, path) <==> Moves(other, nodes, path)
  {
    hide Prefix, KeywordOf, ValueOf, DecodeTime, TarSeconds, Decode, ParentPath;
  }

  // ---------- what the manifest asks for ----------

  /** The selected key-values in force for an entry. */
  function Wanted(entries: seq<Entry>, keywords: seq<Keyword>, i: nat): seq<KeyVal>
    requires i < |entries|
  {
    Selected(AllKeys(Current(entries, i)), keywords)
  }

  /** The call is one of those for the entry at i. */
  predicate AskedBy(entries: seq<Entry>, keywords: seq<Keyword>, i: nat, call: PathUpdate) {
    && i < |entries| && IsNamed(entries[i]) && Path(entries[i]) == Ok(call.path)
    && call.entry == Current(entries, i) && call.kv in Wanted(entries, keywords, i) && HasFunc(Key(call))
  }

  lemma CallsAtAre(entries: seq<Entry>, keywords: seq<Keyword>, i: nat, call: PathUpdate)
    requires i < |entries| && CallsAt(Current(entries, i), keywords).Ok?
    ensures call in CallsAt(Current(entries, i), keywords).value <==> AskedBy(entries, keywords, i, call)
  {
    hide Path, HasFunc, Key, Selected, AllKeys, CallsFor;
    var e := Current(entries, i);
    PathIgnoresSet(entries[i], CurSet(entries[..i]));
    if IsNamed(e) {
      CallsForAre(Path(e).value, e, Wanted(entries, keywords, i), call);
    }
  }

  lemma AskedByFewer(entries: seq<Entry>, n: nat, keywords: seq<Keyword>, j: nat, call: PathUpdate)
    requires n <= |entries|
    ensures AskedBy(entries[..n], keywords, j, call) <==> j < n && AskedBy(entries, keywords, j, call)
  {
    hide Path, HasFunc, Key, Selected, AllKeys, CurSet;
    if j < n {
      assert entries[..n][..j] == entries[..j];
    }
  }

  lemma {:induction false} PlanIs(entries: seq<Entry>, keywords: seq<Keyword>, call: PathUpdate)
    requires Plan(entries, keywords).Ok?
    ensures call in Plan(entries, keywords).value <==> exists j :: 0 <= j < |entries| && AskedBy(entries, keywords, j, call)
  {
    hide CallsAt, AskedBy, Current;
    if entries != [] {
      var n := |entries| - 1;
      PlanIs(entries[..n], keywords, call);
      CallsAtAre(entries, keywords, n, call);
      forall j | 0 <= j < n
        ensures AskedBy(entries[..n], keywords, j, call) <==> AskedBy(entries, keywords, j, call)
      {
        AskedByFewer(entries, n, keywords, j, call);
      }
    }
  }

  /** The plan around the calls of one entry. */
  lemma {:induction false} PlanSplit(entries: seq<Entry>, keywords: seq<Keyword>, i: nat) returns (later: seq<PathUpdate>)
    requires Plan(entries, keywords).Ok? && i < |entries|
    ensures Plan(entries[..i], keywords).Ok? && CallsAt(Current(entries, i), keywords).Ok?
    ensures Plan(entries, keywords).value == Plan(entries[..i], keywords).value + CallsAt(Current(entries, i), keywords).value + later
    ensures forall call :: call in later <==> exists j :: i < j < |entries| && AskedBy(entries, keywords, j, call)
  {
    hide CallsAt, AskedBy, Current;
    var n := |entries| - 1;
    if i == n {
      later := [];
    } else {
      var before := PlanSplit(entries[..n], keywords, i);
      assert entries[..n][..i] == entries[..i];
      CurrentFewer(entries, n, i);
      var calls := CallsAt(Current(entries, n), keywords).value;
      later := before + calls;
      var early := Plan(entries[..i], keywords).value + CallsAt(Current(entries, i), keywords).value;
      assert early + before + calls == early + later;
      forall call
        ensures call in later <==> exists j :: i < j < |entries| && AskedBy(entries, keywords, j, call)
      {
        CallsAtAre(entries, keywords, n, call);
        forall j | i < j < n
          ensures AskedBy(entries[..n], keywords, j, call) <==> AskedBy(entries, keywords, j, call)
        {
          AskedByFewer(entries, n, keywords, j, call);
        }
      }
    }
  }

  lemma CurrentFewer(entries: seq<Entry>, n: nat, i: nat)
    requires i < n <= |entries|
    ensures Current(entries[..n], i) == Current(entries, i)
  {
    assert entries[..n][..i] == entries[..i];
  }

  lemma {:induction false} CallsForConcat(path: Bytes, e: Entry, a: seq<KeyVal>, b: seq<KeyVal>)
    ensures CallsFor(path, e, a + b) == CallsFor(path, e, a) + CallsFor(path, e, b)
  {
    hide HasFunc, Prefix, KeywordOf;
    if b == [] {
      assert a + b == a;
    } else {
      var n := |b| - 1;
      assert (a + b)[..|a + b| - 1] == a + b[..n];
      CallsForConcat(path, e, a, b[..n]);
    }
  }

  lemma {:induction false} ImmediateConcat(a: seq<PathUpdate>, b: seq<PathUpdate>)
    ensures Immediate(a + b) == Immediate(a) + Immediate(b)
  {
    hide Waits;
    if b == [] {
      assert a + b == a;
    } else {
      assert (a + b)[..|a + b| - 1] == a + b[..|b| - 1];
      ImmediateConcat(a, b[..|b| - 1]);
    }
  }

  lemma {:induction false} ImmediateAre(calls: seq<PathUpdate>, x: PathUpdate)
    ensures x in Immediate(calls) <==> x in calls && !Waits(x)
  {
    hide Waits;
    if calls != [] {
      ImmediateAre(calls[..|calls| - 1], x);
      assert calls == calls[..|calls| - 1] + [calls[|calls| - 1]];
    }
  }

  lemma DrainedAre(plan: seq<PathUpdate>, x: PathUpdate)
    ensures x in Drained(Enqueued(plan)) <==> x in plan && Waits(x)
  {
    hide Waits, Enqueued, Drained, IsHeap, LongestFirst;
    EnqueuedIsHeap(plan);
    DrainedSorts(Enqueued(plan));
    WaitingAre(plan, x);
    assert x in Drained(Enqueued(plan)) <==> x in multiset(Drained(Enqueued(plan)));
  }

  lemma ScheduleAre(plan: seq<PathUpdate>, x: PathUpdate)
    ensures x in Schedule(plan) <==> x in plan
  {
    hide Waits, Enqueued, Drained;
    ImmediateAre(plan, x);
    DrainedAre(plan, x);
  }

  // ---------- one call among the others ----------

  /** The call for the key-value at a of the entry at i. */
  function CallOf(entries: seq<Entry>, keywords: seq<Keyword>, i: nat, a: nat): PathUpdate
    requires i < |entries| && a < |Wanted(entries, keywords, i)| && Path(entries[i]).Ok?
  {
    PathUpdate(Path(entries[i]).value, Current(entries, i), Wanted(entries, keywords, i)[a])
  }

  /** The calls that follow it: for the later key-values of the entry, for later entries, and those that wait. */
  predicate Follows(entries: seq<Entry>, keywords: seq<Keyword>, i: nat, a: nat, call: PathUpdate)
    requires i < |entries| && a < |Wanted(entries, keywords, i)|
  {
    if Waits(call) then exists j :: 0 <= j < |entries| && AskedBy(entries, keywords, j, call)
    else
      || (AskedBy(entries, keywords, i, call) && call.kv in Wanted(entries, keywords, i)[a + 1..])
      || exists j :: i < j < |entries| && AskedBy(entries, keywords, j, call)
  }

  lemma {:induction false} ImmediateOne(x: PathUpdate)
    requires !Waits(x)
    ensures Immediate([x]) == [x]
  {
    assert [x][..0] == [];
    assert Immediate([]) == [];
  }

  lemma {:induction false} AroundInPlan(entries: seq<Entry>, keywords: seq<Keyword>, i: nat, a: nat) returns (rest: seq<PathUpdate>)
    requires Plan(entries, keywords).Ok? && i < |entries| && IsNamed(entries[i]) && a < |Wanted(entries, keywords, i)|
    requires HasFunc(Prefix(KeywordOf(Wanted(entries, keywords, i)[a])))
    ensures Path(entries[i]).Ok? && Plan(entries[..i], keywords).Ok?
    ensures var kvs, p := Wanted(entries, keywords, i), Path(entries[i]).value;
      Plan(entries, keywords).value
      == Plan(entries[..i], keywords).value + CallsFor(p, Current(entries, i), kvs[..a]) + [CallOf(entries, keywords, i, a)] + rest
    ensures forall c :: c in rest <==>
      || (AskedBy(entries, keywords, i, c) && c.kv in Wanted(entries, keywords, i)[a + 1..])
      || exists j :: i < j < |entries| && AskedBy(entries, keywords, j, c)
  {
    hide Path, HasFunc, Prefix, KeywordOf, Selected, AllKeys, CurSet, CallsFor;
    var later := PlanSplit(entries, keywords, i);
    PathIgnoresSet(entries[i], CurSet(entries[..i]));
    var kvs, e, p := Wanted(entries, keywords, i), Current(entries, i), Path(entries[i]).value;
    var x := CallOf(entries, keywords, i, a);
    OneCall(p, e, kvs[a]);
    CallsForConcat(p, e, kvs[..a], [kvs[a]]);
    CallsForConcat(p, e, kvs[..a] + [kvs[a]], kvs[a + 1..]);
    assert kvs == kvs[..a] + [kvs[a]] + kvs[a + 1..];
    var after := CallsFor(p, e, kvs[a + 1..]);
    rest := after + later;
    var early := Plan(entries[..i], keywords).value;
    assert early + (CallsFor(p, e, kvs[..a]) + [x] + after) + later == early + CallsFor(p, e, kvs[..a]) + [x] + rest;
    forall c
      ensures c in after <==> AskedBy(entries, keywords, i, c) && c.kv in kvs[a + 1..]
    {
      CallsForAre(p, e, kvs[a + 1..], c);
    }
  }

  lemma OneCall(path: Bytes, e: Entry, kv: KeyVal)
    requires HasFunc(Prefix(KeywordOf(kv)))
    ensures CallsFor(path, e, [kv]) == [PathUpdate(path, e, kv)]
  {
    hide HasFunc, Prefix, KeywordOf;
    assert [kv][..0] == [];
    assert CallsFor(path, e, []) == [];
  }

  /** Where the call is made in the run, and what follows. */
  lemma {:induction false} AroundInRun(entries: seq<Entry>, keywords: seq<Keyword>, before: Nodes, run: seq<Done>, after: Nodes, i: nat, a: nat)
    returns (k: nat)
    requires Ran(entries, keywords, before, run, after)
    requires i < |entries| && IsNamed(entries[i]) && a < |Wanted(entries, keywords, i)|
    requires HasFunc(Prefix(KeywordOf(Wanted(entries, keywords, i)[a])))
    requires Path(entries[i]).Ok? ==> !Waits(CallOf(entries, keywords, i, a))
    ensures Path(entries[i]).Ok? && Plan(entries[..i], keywords).Ok?
    ensures k < |run| && run[k].call == CallOf(entries, keywords, i, a)
    ensures CallsOf(run[..k]) == Immediate(Plan(entries[..i], keywords).value)
      + Immediate(CallsFor(Path(entries[i]).value, Current(entries, i), Wanted(entries, keywords, i)[..a]))
    ensures forall c :: c in CallsOf(run[k + 1..]) <==> Follows(entries, keywords, i, a, c)
  {
    hide Path, HasFunc, Prefix, KeywordOf, Selected, AllKeys, CurSet, CallsFor, Waits, Plan, Immediate, Enqueued, Drained, AskedBy, Current, Replayed;
    var rest := AroundInPlan(entries, keywords, i, a);
    var plan, x := Plan(entries, keywords).value, CallOf(entries, keywords, i, a);
    var b, c := Plan(entries[..i], keywords).value, CallsFor(Path(entries[i]).value, Current(entries, i), Wanted(entries, keywords, i)[..a]);
    ImmediateConcat(b, c);
    ImmediateOne(x);
    ImmediateConcat(b + c, [x]);
    ImmediateConcat(b + c + [x], rest);
    var early, late := Immediate(b) + Immediate(c), Immediate(rest) + Drained(Enqueued(plan));
    assert CallsOf(run) == early + [x] + late;
    k := |early|;
    assert CallsOf(run)[k] == x;
    assert CallsOf(run[..k]) == CallsOf(run)[..k] == early;
    assert CallsOf(run[k + 1..]) == CallsOf(run)[k + 1..] == late;
    forall call
      ensures call in late <==> Follows(entries, keywords, i, a, call)
    {
      ImmediateAre(rest, call);
      DrainedAre(plan, call);
      PlanIs(entries, keywords, call);
    }
  }

  /** The disk before and after the call at k of a run. */
  lemma {:induction false} RunSplit(before: Nodes, run: seq<Done>, after: Nodes, k: nat) returns (mid: Nodes, next: Nodes)
    requires Replayed(before, run) == Some(after) && k < |run|
    ensures Replayed(before, run[..k]) == Some(mid) && Applied(mid, run[k].call, run[k].now) == Some(next)
    ensures Replayed(next, run[k + 1..]) == Some(after)
  {
    hide Applied, Replayed;
    assert run == run[..k] + run[k..];
    ReplayedConcat(before, run[..k], run[k..]);
    mid := Replayed(before, run[..k]).value;
    ReplayedFirst(mid, run[k..]);
    next := Applied(mid, run[k].call, run[k].now).value;
    assert run[k..][1..] == run[k + 1..];
  }

  /** The target said by the last link of the key-values. */
  function LinkAfter(target: Bytes, kvs: seq<KeyVal>): Bytes {
    if kvs == [] then target
    else
      var last := kvs[|kvs| - 1];
      if Prefix(KeywordOf(last)) == "link" then DecodedOr(ValueOf(last), target) else LinkAfter(target, kvs[..|kvs| - 1])
  }

  lemma {:induction false} NoLinkAt(target: Bytes, calls: seq<PathUpdate>, path: Bytes)
    requires forall c :: c in calls ==> !SetsLink(c, path)
    ensures TargetAfter(target, calls, path) == target
  {
    hide Prefix, KeywordOf, Decode, ValueOf;
    if calls != [] {
      assert calls[|calls| - 1] in calls;
      NoLinkAt(target, calls[..|calls| - 1], path);
    }
  }

  lemma {:induction false} TargetConcat(target: Bytes, a: seq<PathUpdate>, b: seq<PathUpdate>, path: Bytes)
    requires forall c :: c in a ==> c.path != path
    ensures TargetAfter(target, a + b, path) == TargetAfter(target, b, path)
  {
    hide Prefix, KeywordOf, Decode, ValueOf;
    if b == [] {
      assert a + b == a;
      NoLinkAt(target, a, path);
    } else {
      assert (a + b)[..|a + b| - 1] == a + b[..|b| - 1];
      TargetConcat(target, a, b[..|b| - 1], path);
    }
  }

  lemma {:induction false} LinkOfCalls(target: Bytes, path: Bytes, e: Entry, kvs: seq<KeyVal>)
    ensures TargetAfter(target, Immediate(CallsFor(path, e, kvs)), path) == LinkAfter(target, kvs)
  {
    hide Prefix, KeywordOf, Decode, ValueOf, IsDir;
    if kvs == [] {
      assert Immediate([]) == [];
    } else {
      var n := |kvs| - 1;
      var call, calls := PathUpdate(path, e, kvs[n]), CallsFor(path, e, kvs[..n]);
      LinkOfCalls(target, path, e, kvs[..n]);
      if HasFunc(Key(call)) {
        assert CallsFor(path, e, kvs) == calls + [call];
        ImmediateConcat(calls, [call]);
        if !Waits(call) {
          ImmediateOne(call);
          assert (Immediate(calls) + [call])[..|Immediate(calls)|] == Immediate(calls);
        } else {
          assert [call][..0] == [] && Immediate([]) == [] && Immediate([call]) == [];
          assert Immediate(calls) + [] == Immediate(calls);
        }
      } else {
        assert CallsFor(path, e, kvs) == calls;
      }
    }
  }

  // ---------- what is restored ----------

  lemma OtherPath(entries: seq<Entry>, keywords: seq<Keyword>, i: nat, j: nat, call: PathUpdate)
    requires PathsDistinct(entries) && i < |entries| && IsNamed(entries[i]) && AskedBy(entries, keywords, j, call) && i != j
    ensures Path(entries[i]) != Ok(call.path)
  {
    hide Path, Selected, AllKeys, HasFunc, Key, Current;
    if i < j {
      assert Path(entries[i]) != Path(entries[j]);
    } else {
      assert Path(entries[j]) != Path(entries[i]);
    }
  }

  /** The target of the link of an entry just before its key-value at a is set. */
  lemma {:induction false} TargetBefore(entries: seq<Entry>, keywords: seq<Keyword>, before: Nodes, early: seq<Done>, mid: Nodes,
                                        i: nat, a: nat)
    requires PathsDistinct(entries) && Replayed(before, early) == Some(mid)
    requires i < |entries| && IsNamed(entries[i]) && a < |Wanted(entries, keywords, i)| && Path(entries[i]).Ok?
    requires Path(entries[i]).value in before && Plan(entries[..i], keywords).Ok?
    requires CallsOf(early) == Immediate(Plan(entries[..i], keywords).value)
      + Immediate(CallsFor(Path(entries[i]).value, Current(entries, i), Wanted(entries, keywords, i)[..a]))
    ensures var p := Path(entries[i]).value;
      p in mid && mid[p].target == LinkAfter(before[p].target, Wanted(entries, keywords, i)[..a]) && mid[p].isLink == before[p].isLink
  {
    hide Path, Selected, AllKeys, Plan, Immediate, CallsFor, Replayed, Applied, TargetAfter, PathsDistinct, AskedBy, LinkAfter;
    var p, kvs := Path(entries[i]).value, Wanted(entries, keywords, i)[..a];
    var plan := Plan(entries[..i], keywords).value;
    NodesStay(before, early, mid);
    TargetFollows(before, early, mid, p);
    forall c | c in Immediate(plan)
      ensures c.path != p
    {
      ImmediateAre(plan, c);
      PlanIs(entries[..i], keywords, c);
      var j :| 0 <= j < |entries[..i]| && AskedBy(entries[..i], keywords, j, c);
      AskedByFewer(entries, i, keywords, j, c);
      OtherPath(entries, keywords, i, j, c);
    }
    TargetConcat(before[p].target, Immediate(plan), Immediate(CallsFor(p, Current(entries, i), kvs)), p);
    LinkOfCalls(before[p].target, p, Current(entries, i), kvs);
  }

  /** Some link of the key-values has another target, and is made anew. */
  predicate Renewed(target: Bytes, kvs: seq<KeyVal>) {
    exists b :: 0 <= b < |kvs| && IsOtherLink(kvs[b], target)
  }

  predicate IsOtherLink(kv: KeyVal, target: Bytes) {
    Prefix(KeywordOf(kv)) == "link" && Decode(ValueOf(kv), DEFAULT_VIS_FLAGS) != Ok(target)
  }

  /** What follows a call makes the link of the entry anew exactly when one of its later key-values does. */
  lemma {:induction false} RenewedLater(entries: seq<Entry>, keywords: seq<Keyword>, i: nat, a: nat, late: seq<Done>, target: Bytes)
    requires PathsDistinct(entries) && i < |entries| && IsNamed(entries[i]) && a < |Wanted(entries, keywords, i)| && Path(entries[i]).Ok?
    requires forall c :: c in CallsOf(late) <==> Follows(entries, keywords, i, a, c)
    ensures (exists m :: 0 <= m < |late| && Renews(late[m].call, Path(entries[i]).value, target))
            <==> Renewed(target, Wanted(entries, keywords, i)[a + 1..])
  {
    hide Path, Selected, AllKeys, CurSet, PathsDistinct, IsDir, Prefix, KeywordOf, ValueOf, Decode;
    var p, kvs := Path(entries[i]).value, Wanted(entries, keywords, i);
    var later := kvs[a + 1..];
    forall m | 0 <= m < |late| && Renews(late[m].call, p, target)
      ensures Renewed(target, later)
    {
      var c := late[m].call;
      assert c in CallsOf(late) by {
        assert CallsOf(late)[m] == c;
      }
      OnlyOwn(entries, keywords, i, a, c);
      assert IsOtherLink(c.kv, target);
    }
    forall b | 0 <= b < |later| && IsOtherLink(later[b], target)
      ensures exists m :: 0 <= m < |late| && Renews(late[m].call, p, target)
    {
      var c := CallOf(entries, keywords, i, a + 1 + b);
      assert c.kv == later[b];
      assert AskedBy(entries, keywords, i, c);
      assert Follows(entries, keywords, i, a, c);
      var m :| 0 <= m < |CallsOf(late)| && CallsOf(late)[m] == c;
      assert Renews(late[m].call, p, target);
    }
  }

  /** Among what follows, what is for the same path and does not wait is for a later key-value of the entry. */
  lemma OnlyOwn(entries: seq<Entry>, keywords: seq<Keyword>, i: nat, a: nat, call: PathUpdate)
    requires PathsDistinct(entries) && i < |entries| && IsNamed(entries[i]) && a < |Wanted(entries, keywords, i)|
    requires Follows(entries, keywords, i, a, call) && Path(entries[i]) == Ok(call.path)
    ensures AskedBy(entries, keywords, i, call)
    ensures !Waits(call) ==> call.kv in Wanted(entries, keywords, i)[a + 1..]
  {
    hide Path, Selected, AllKeys, Current, PathsDistinct, AskedBy, Waits;
    forall j | 0 <= j < |entries| && AskedBy(entries, keywords, j, call)
      ensures j == i
    {
      if j != i {
        OtherPath(entries, keywords, i, j, call);
      }
    }
  }

  /** The key-value at a is the last for its keyword. */
  predicate IsLast(kvs: seq<KeyVal>, a: nat)
    requires a < |kvs|
  {
    forall b :: a < b < |kvs| ==> KeywordOf(kvs[b]) != KeywordOf(kvs[a])
  }

  /** After an update without errors over distinct paths every selected uid, gid, mode and xattr is as the
      manifest has it, unless a later link of the same entry was made anew, and then it is not there at all.
      A mode sets nothing on a link. */
  lemma {:induction false} AttrsRestored(entries: seq<Entry>, keywords: seq<Keyword>, before: Nodes, run: seq<Done>, after: Nodes,
                                         i: nat, a: nat)
    requires Ran(entries, keywords, before, run, after) && PathsDistinct(entries)
    requires i < |entries| && IsNamed(entries[i]) && a < |Wanted(entries, keywords, i)| && IsLast(Wanted(entries, keywords, i), a)
    requires IsAttrKeyword(KeywordOf(Wanted(entries, keywords, i)[a]))
    ensures Path(entries[i]).Ok? && Path(entries[i]).value in before && Path(entries[i]).value in after
    ensures var p, kvs := Path(entries[i]).value, Wanted(entries, keywords, i);
      var k := KeywordOf(kvs[a]);
      !(Prefix(k) == "mode" && before[p].isLink) ==>
        AttrOf(after[p], k) == if Renewed(LinkAfter(before[p].target, kvs[..a]), kvs[a + 1..]) then None else Some(ValueOf(kvs[a]))
  {
    hide Path, Selected, AllKeys, Replayed, Applied, PathsDistinct, Plan, AskedBy, Current, LinkAfter, Renewed, Renews, Follows, Changed;
    hide Prefix, KeywordOf, ValueOf, Immediate, CallsFor, Schedule, Ran, SetsAttr;
    var k := AroundInRun(entries, keywords, before, run, after, i, a);
    var p, kvs := Path(entries[i]).value, Wanted(entries, keywords, i);
    var word := KeywordOf(kvs[a]);
    RunOf(entries, keywords, before, run, after);
    NodesStay(before, run, after);
    var mid, next := RunSplit(before, run, after, k);
    TargetBefore(entries, keywords, before, run[..k], mid, i, a);
    StepAt(mid, run[k].call, run[k].now, next, p);
    if !(Prefix(word) == "mode" && before[p].isLink) {
      SetsIt(mid[p], kvs[a], run[k].now, next[p]);
      var late := run[k + 1..];
      forall m | 0 <= m < |late|
        ensures !SetsAttr(late[m].call, p, word)
      {
        assert CallsOf(late)[m] in CallsOf(late);
        LastAttr(entries, keywords, i, a, late[m].call);
      }
      AttrsFollow(next, late, after, p, word);
      RenewedLater(entries, keywords, i, a, late, next[p].target);
    }
  }

  lemma RunOf(entries: seq<Entry>, keywords: seq<Keyword>, before: Nodes, run: seq<Done>, after: Nodes)
    requires Ran(entries, keywords, before, run, after)
    ensures Plan(entries, keywords).Ok? && CallsOf(run) == Schedule(Plan(entries, keywords).value) && Replayed(before, run) == Some(after)
  {
  }

  lemma SetsIt(node: Inode, kv: KeyVal, now: int, next: Inode)
    requires IsAttrKeyword(KeywordOf(kv)) && !(Prefix(KeywordOf(kv)) == "mode" && node.isLink)
    requires Changed(node, kv, now) == Some(next)
    ensures AttrOf(next, KeywordOf(kv)) == Some(ValueOf(kv)) && next.target == node.target
  {
    hide Prefix, KeywordOf, ValueOf;
  }

  lemma LastAttr(entries: seq<Entry>, keywords: seq<Keyword>, i: nat, a: nat, call: PathUpdate)
    requires PathsDistinct(entries) && i < |entries| && IsNamed(entries[i]) && a < |Wanted(entries, keywords, i)|
    requires Follows(entries, keywords, i, a, call)
    requires IsLast(Wanted(entries, keywords, i), a) && IsAttrKeyword(KeywordOf(Wanted(entries, keywords, i)[a]))
    ensures Path(entries[i]).Ok? ==> !SetsAttr(call, Path(entries[i]).value, KeywordOf(Wanted(entries, keywords, i)[a]))
  {
    hide Path, Selected, AllKeys, Current, PathsDistinct, AskedBy, Prefix, KeywordOf, Follows, IsDir;
    if Path(entries[i]) == Ok(call.path) {
      OnlyOwn(entries, keywords, i, a, call);
    }
  }

  /** A link of the manifest has its target on the disk: that of the last link of its entry. */
  lemma {:induction false} LinkRestored(entries: seq<Entry>, keywords: seq<Keyword>, before: Nodes, run: seq<Done>, after: Nodes,
                                        i: nat, a: nat)
    requires Ran(entries, keywords, before, run, after) && PathsDistinct(entries)
    requires i < |entries| && IsNamed(entries[i]) && a < |Wanted(entries, keywords, i)|
    requires Prefix(KeywordOf(Wanted(entries, keywords, i)[a])) == "link"
    requires forall b :: a < b < |Wanted(entries, keywords, i)| ==> Prefix(KeywordOf(Wanted(entries, keywords, i)[b])) != "link"
    ensures Path(entries[i]).Ok? && Path(entries[i]).value in after && after[Path(entries[i]).value].isLink
    ensures Decode(ValueOf(Wanted(entries, keywords, i)[a]), DEFAULT_VIS_FLAGS) == Ok(after[Path(entries[i]).value].target)
  {
    hide Path, Selected, AllKeys, Replayed, Applied, PathsDistinct, Plan, AskedBy, Current, LinkAfter, Renews, Follows, Changed;
    hide Prefix, KeywordOf, ValueOf, Immediate, CallsFor, Schedule, Ran, TargetAfter, Decode;
    var k := AroundInRun(entries, keywords, before, run, after, i, a);
    var p, kvs := Path(entries[i]).value, Wanted(entries, keywords, i);
    RunOf(entries, keywords, before, run, after);
    NodesStay(before, run, after);
    var mid, next := RunSplit(before, run, after, k);
    var late := run[k + 1..];
    NodesStay(before, run[..k], mid);
    NodesStay(next, late, after);
    StepAt(mid, run[k].call, run[k].now, next, p);
    LinksIt(mid[p], kvs[a], run[k].now, next[p]);
    forall c | c in CallsOf(late)
      ensures !SetsLink(c, p)
    {
      NoLaterLink(entries, keywords, i, a, c);
    }
    TargetFollows(next, late, after, p);
    NoLinkAt(next[p].target, CallsOf(late), p);
  }

  lemma LinksIt(node: Inode, kv: KeyVal, now: int, next: Inode)
    requires Prefix(KeywordOf(kv)) == "link" && Changed(node, kv, now) == Some(next)
    ensures next.isLink && Decode(ValueOf(kv), DEFAULT_VIS_FLAGS) == Ok(next.target)
  {
    hide Prefix, KeywordOf, ValueOf, Decode;
  }

  lemma NoLaterLink(entries: seq<Entry>, keywords: seq<Keyword>, i: nat, a: nat, call: PathUpdate)
    requires PathsDistinct(entries) && i < |entries| && IsNamed(entries[i]) && a < |Wanted(entries, keywords, i)|
    requires Follows(entries, keywords, i, a, call)
    requires forall b :: a < b < |Wanted(entries, keywords, i)| ==> Prefix(KeywordOf(Wanted(entries, keywords, i)[b])) != "link"
    ensures Path(entries[i]).Ok? ==> !SetsLink(call, Path(entries[i]).value)
  {
    hide Path, Selected, AllKeys, Current, PathsDistinct, AskedBy, Prefix, KeywordOf, Follows, IsDir;
    if Path(entries[i]) == Ok(call.path) {
      OnlyOwn(entries, keywords, i, a, call);
    }
  }

  /** An attribute that no selected key-value of the entry sets stays, as a mode does on a link, unless a link of
      the entry was made anew. */
  lemma {:induction false} AttrsKept(entries: seq<Entry>, keywords: seq<Keyword>, before: Nodes, run: seq<Done>, after: Nodes,
                                     i: nat, k: Keyword)
    requires Ran(entries, keywords, before, run, after) && PathsDistinct(entries) && IsAttrKeyword(k)
    requires i < |entries| && IsNamed(entries[i]) && Path(entries[i]).Ok? && Path(entries[i]).value in before
    requires (Prefix(k) == "mode" && before[Path(entries[i]).value].isLink)
      || forall b :: 0 <= b < |Wanted(entries, keywords, i)| ==> KeywordOf(Wanted(entries, keywords, i)[b]) != k
    ensures Path(entries[i]).value in after
    ensures var p := Path(entries[i]).value;
      AttrOf(after[p], k) == if Renewed(before[p].target, Wanted(entries, keywords, i)) then None else AttrOf(before[p], k)
  {
    hide Path, Selected, AllKeys, Replayed, Applied, PathsDistinct, Plan, CurSet, AskedBy, Changed;
    hide Prefix, KeywordOf, ValueOf, Schedule, Ran, Decode, IsDir;
    var p, kvs := Path(entries[i]).value, Wanted(entries, keywords, i);
    RunOf(entries, keywords, before, run, after);
    forall m | 0 <= m < |run| && run[m].call.path == p
      ensures run[m].call.kv in kvs
    {
      assert CallsOf(run)[m] in CallsOf(run);
      OwnCall(entries, keywords, run[m].call, i);
      assert AskedBy(entries, keywords, i, run[m].call) ==> run[m].call.kv in kvs by {
        IsWanted(entries, keywords, i, run[m].call);
      }
    }
    AttrsFollow(before, run, after, p, k);
    var target := before[p].target;
    if m :| 0 <= m < |run| && Renews(run[m].call, p, target) {
      assert IsOtherLink(run[m].call.kv, target);
    }
    if b :| 0 <= b < |kvs| && IsOtherLink(kvs[b], target) {
      var c := CallOf(entries, keywords, i, b);
      LinkAsked(entries, keywords, i, b);
      PlanIs(entries, keywords, c);
      ScheduleAre(Plan(entries, keywords).value, c);
      var m :| 0 <= m < |CallsOf(run)| && CallsOf(run)[m] == c;
      assert Renews(run[m].call, p, target);
    }
  }

  lemma IsWanted(entries: seq<Entry>, keywords: seq<Keyword>, i: nat, call: PathUpdate)
    ensures AskedBy(entries, keywords, i, call) ==> call.kv in Wanted(entries, keywords, i)
  {
    hide Path, Selected, AllKeys, HasFunc, Key, Current;
  }

  lemma LinkAsked(entries: seq<Entry>, keywords: seq<Keyword>, j: nat, b: nat)
    requires j < |entries| && b < |Wanted(entries, keywords, j)| && IsNamed(entries[j]) && Path(entries[j]).Ok?
    requires Prefix(KeywordOf(Wanted(entries, keywords, j)[b])) == "link"
    ensures AskedBy(entries, keywords, j, CallOf(entries, keywords, j, b)) && !Waits(CallOf(entries, keywords, j, b))
  {
    hide Path, Selected, AllKeys, CurSet, Prefix, KeywordOf, IsDir;
  }

  lemma OwnCall(entries: seq<Entry>, keywords: seq<Keyword>, call: PathUpdate, i: nat)
    requires Plan(entries, keywords).Ok? && call in Schedule(Plan(entries, keywords).value) && PathsDistinct(entries)
    requires i < |entries| && IsNamed(entries[i]) && Path(entries[i]) == Ok(call.path)
    ensures AskedBy(entries, keywords, i, call)
  {
    hide Path, Selected, AllKeys, Current, PathsDistinct, AskedBy, Schedule, Plan;
    var plan := Plan(entries, keywords).value;
    ScheduleAre(plan, call);
    PlanIs(entries, keywords, call);
    var j :| 0 <= j < |entries| && AskedBy(entries, keywords, j, call);
    if j != i {
      OtherPath(entries, keywords, i, j, call);
    }
  }

  /** A node that no entry is for keeps everything but its time. */
  lemma {:induction false} OthersKept(entries: seq<Entry>, keywords: seq<Keyword>, before: Nodes, run: seq<Done>, after: Nodes, p: Bytes)
    requires Ran(entries, keywords, before, run, after) && p in before
    requires forall j :: 0 <= j < |entries| && IsNamed(entries[j]) ==> Path(entries[j]) != Ok(p)
    ensures p in after && after[p] == before[p].(mtime := after[p].mtime)
  {
    hide Schedule, Plan, Path, AskedBy, Replayed, Ran;
    RunOf(entries, keywords, before, run, after);
    forall m | 0 <= m < |run|
      ensures run[m].call.path != p
    {
      assert CallsOf(run)[m] in CallsOf(run);
      ScheduleAre(Plan(entries, keywords).value, run[m].call);
      PlanIs(entries, keywords, run[m].call);
      var j :| 0 <= j < |entries| && AskedBy(entries, keywords, j, run[m].call);
      AskedPath(entries, keywords, j, run[m].call);
    }
    OthersStay(before, run, after, p);
  }

  lemma AskedPath(entries: seq<Entry>, keywords: seq<Keyword>, j: nat, call: PathUpdate)
    requires AskedBy(entries, keywords, j, call)
    ensures j < |entries| && IsNamed(entries[j]) && Path(entries[j]) == Ok(call.path)
  {
    hide Path, Selected, AllKeys, HasFunc, Key, Current;
  }

  lemma {:induction false} OthersStay(before: Nodes, run: seq<Done>, after: Nodes, p: Bytes)
    requires Replayed(before, run) == Some(after) && p in before
    requires forall m :: 0 <= m < |run| ==> run[m].call.path != p
    ensures p in after && after[p] == before[p].(mtime := after[p].mtime)
  {
    hide Applied, Moves;
    if run != [] {
      var n := |run| - 1;
      var mid := Replayed(before, run[..n]).value;
      OthersStay(before, run[..n], mid, p);
      StepAt(mid, run[n].call, run[n].now, after, p);
    }
  }

  // ---------- times ----------

  /** The time is as the key-value says. */
  predicate TimeIs(kv: KeyVal, mtime: int) {
    if Prefix(KeywordOf(kv)) == "time" then DecodeTime(ValueOf(kv)) == Some(mtime)
    else TarSeconds(ValueOf(kv)) == Some(mtime / BILLION)
  }

  predicate SaysTime(kv: KeyVal) {
    Prefix(KeywordOf(kv)) == "time" || Prefix(KeywordOf(kv)) == "tar_time"
  }

  /** The entry at j is for a link directly below the path that is made anew. */
  predicate MadeBelow(entries: seq<Entry>, keywords: seq<Keyword>, before: Nodes, j: nat, path: Bytes) {
    && j < |entries| && IsNamed(entries[j]) && Path(entries[j]).Ok?
    && var q := Path(entries[j]).value;
      ParentPath(q) == path && q in before && Renewed(before[q].target, Wanted(entries, keywords, j))
  }

  /** A link of the entry at i is made anew after its key-value at a, or a link directly below it is by a later entry. */
  predicate MovedLater(entries: seq<Entry>, keywords: seq<Keyword>, before: Nodes, i: nat, a: nat)
    requires i < |entries| && a < |Wanted(entries, keywords, i)|
    requires Path(entries[i]).Ok? && Path(entries[i]).value in before
  {
    var p, kvs := Path(entries[i]).value, Wanted(entries, keywords, i);
    || Renewed(LinkAfter(before[p].target, kvs[..a]), kvs[a + 1..])
    || exists j :: i < j < |entries| && MadeBelow(entries, keywords, before, j, p)
  }

  /** The first type among the key-values in force says dir. */
  predicate SaysDir(kvs: seq<KeyVal>) {
    exists n :: 0 <= n < |kvs| && IsType(kvs[n]) && ValueOf(kvs[n]) == "dir" && forall m :: 0 <= m < n ==> !IsType(kvs[m])
  }

  predicate IsType(kv: KeyVal) {
    Prefix(KeywordOf(kv)) == "type"
  }

  lemma {:induction false} FirstTypeIs(kvs: seq<KeyVal>)
    ensures SaysDir(kvs) <==> FirstOfType(kvs).Some? && ValueOf(FirstOfType(kvs).value) == "dir"
  {
    hide Prefix, KeywordOf, ValueOf;
    if kvs != [] && !IsType(kvs[0]) {
      var rest := kvs[1..];
      FirstTypeIs(rest);
      if n :| 0 <= n < |kvs| && IsType(kvs[n]) && ValueOf(kvs[n]) == "dir" && forall m :: 0 <= m < n ==> !IsType(kvs[m]) {
        assert IsType(rest[n - 1]);
        assert forall m :: 0 <= m < n - 1 ==> rest[m] == kvs[m + 1];
      }
      if n :| 0 <= n < |rest| && IsType(rest[n]) && ValueOf(rest[n]) == "dir" && forall m :: 0 <= m < n ==> !IsType(rest[m]) {
        assert IsType(kvs[n + 1]);
        assert forall m :: 0 < m < n + 1 ==> kvs[m] == rest[m - 1];
      }
    }
  }

  lemma IsDirIs(e: Entry)
    ensures IsDir(e) <==> SaysDir(AllKeys(e))
  {
    FirstTypeIs(AllKeys(e));
  }

  /** With one type in force, an entry is a directory exactly when the key in force for "type" says dir. */
  lemma {:induction false} IsDirByMap(e: Entry)
    requires forall m :: 0 <= m < |AllKeys(e)| && IsType(AllKeys(e)[m]) ==> KeywordOf(AllKeys(e)[m]) == "type"
    requires forall m, n :: 0 <= m < n < |AllKeys(e)| && IsType(AllKeys(e)[m]) ==> !IsType(AllKeys(e)[n])
    ensures IsDir(e) <==> "type" in KeysMap(e) && ValueOf(KeysMap(e)["type"]) == "dir"
    ensures "type" in KeysMap(e) && KeysMap(e)["type"] == "type=dir" ==> IsDir(e)
  {
    hide AllKeys, KeywordOf, ValueOf, Prefix, Lookup, FirstOfType, SaysDir;
    var kvs := AllKeys(e);
    IsDirIs(e);
    MapOfIsLookup(kvs, "type");
    LookupFacts(kvs, "type");
    TypeWord();
    if "type" in KeysMap(e) {
      var n :| 0 <= n < |kvs| && kvs[n] == KeysMap(e)["type"];
      OneSays(kvs, n);
    } else {
      NoneSays(kvs);
    }
  }

  lemma TypeWord()
    ensures Prefix("type") == "type" && ValueOf("type=dir") == "dir"
  {
    hide Prefix, KeywordOf, ValueOf, IsWord;
    PrefixIsWhole("type");
    AsciiWord("type=dir");
    assert MakeKeyVal("type", "dir") == "type=dir";
    MadeKeyVal("type", "dir");
  }

  lemma OneSays(kvs: seq<KeyVal>, n: nat)
    requires n < |kvs| && IsType(kvs[n])
    requires forall l, m :: 0 <= l < m < |kvs| && IsType(kvs[l]) ==> !IsType(kvs[m])
    ensures SaysDir(kvs) <==> ValueOf(kvs[n]) == "dir"
  {
    hide Prefix, KeywordOf, ValueOf;
  }

  lemma NoneSays(kvs: seq<KeyVal>)
    requires forall m :: 0 <= m < |kvs| ==> !IsType(kvs[m])
    ensures !SaysDir(kvs)
  {
    hide Prefix, KeywordOf, ValueOf;
  }

  /** After an update without errors a selected time or tar_time that was set at once holds unless a link was made
      anew later, its own or directly below; then the time is when a link was made. */
  lemma {:induction false} TimesRestored(entries: seq<Entry>, keywords: seq<Keyword>, before: Nodes, run: seq<Done>, after: Nodes,
                                         i: nat, a: nat)
    requires Ran(entries, keywords, before, run, after) && PathsDistinct(entries)
    requires i < |entries| && IsNamed(entries[i]) && a < |Wanted(entries, keywords, i)|
    requires SaysTime(Wanted(entries, keywords, i)[a])
    requires forall b :: a < b < |Wanted(entries, keywords, i)| ==> !SaysTime(Wanted(entries, keywords, i)[b])
    requires SaysDir(AllKeys(Current(entries, i))) ==>
      forall b :: 0 <= b < |Wanted(entries, keywords, i)| ==> !IsTime(Wanted(entries, keywords, i)[b])
    ensures Path(entries[i]).Ok? && Path(entries[i]).value in before && Path(entries[i]).value in after
    ensures var mtime := after[Path(entries[i]).value].mtime;
      if MovedLater(entries, keywords, before, i, a) then IsSomeNow(run, mtime) else TimeIs(Wanted(entries, keywords, i)[a], mtime)
  {
    hide Path, Selected, AllKeys, Replayed, Applied, PathsDistinct, Plan, AskedBy, Current, LinkAfter, Renewed, Renews, Follows, Changed;
    hide Prefix, KeywordOf, ValueOf, Immediate, CallsFor, Schedule, Ran, DecodeTime, TarSeconds, Decode, SaysDir, TimeIs, MovedLater;
    IsDirIs(Current(entries, i));
    var k := AroundInRun(entries, keywords, before, run, after, i, a);
    var p, kvs := Path(entries[i]).value, Wanted(entries, keywords, i);
    RunOf(entries, keywords, before, run, after);
    NodesStay(before, run, after);
    var mid, next := RunSplit(before, run, after, k);
    var late := run[k + 1..];
    NodesStay(before, run[..k], mid);
    StepAt(mid, run[k].call, run[k].now, next, p);
    TimesIt(mid[p], kvs[a], run[k].now, next[p]);
    forall m | 0 <= m < |late|
      ensures !SetsTime(late[m].call, p)
    {
      assert CallsOf(late)[m] in CallsOf(late);
      NoLaterTime(entries, keywords, i, a, late[m].call);
    }
    TimesFollow(next, late, after, p);
    MovesLater(entries, keywords, before, run, after, i, a, k, mid, next, late);
    if IsSomeNow(late, after[p].mtime) {
      SomeNowOf(run, k + 1, after[p].mtime);
    }
  }

  /** What is done before the call is for other paths than those of later entries. */
  lemma {:induction false} EarlyElsewhere(entries: seq<Entry>, keywords: seq<Keyword>, i: nat, a: nat, j: nat, call: PathUpdate)
    requires PathsDistinct(entries) && i < j < |entries| && IsNamed(entries[i]) && IsNamed(entries[j]) && Path(entries[i]).Ok?
    requires a < |Wanted(entries, keywords, i)| && Plan(entries[..i], keywords).Ok?
    requires || call in Immediate(Plan(entries[..i], keywords).value)
             || call in Immediate(CallsFor(Path(entries[i]).value, Current(entries, i), Wanted(entries, keywords, i)[..a]))
    ensures Path(entries[j]) != Ok(call.path)
  {
    hide Path, Selected, AllKeys, Current, PathsDistinct, AskedBy, Prefix, KeywordOf, IsDir, Plan, CallsFor, Immediate, HasFunc, Key;
    var plan, own := Plan(entries[..i], keywords).value, CallsFor(Path(entries[i]).value, Current(entries, i), Wanted(entries, keywords, i)[..a]);
    ImmediateAre(plan, call);
    ImmediateAre(own, call);
    if call in plan {
      PlanIs(entries[..i], keywords, call);
      var h :| 0 <= h < |entries[..i]| && AskedBy(entries[..i], keywords, h, call);
      AskedByFewer(entries, i, keywords, h, call);
      OtherPath(entries, keywords, j, h, call);
    } else {
      CallsForAre(Path(entries[i]).value, Current(entries, i), Wanted(entries, keywords, i)[..a], call);
      EntriesApart(entries, i, j);
    }
  }

  lemma EntriesApart(entries: seq<Entry>, i: nat, j: nat)
    requires PathsDistinct(entries) && i < j < |entries| && IsNamed(entries[i]) && IsNamed(entries[j])
    ensures Path(entries[i]) != Path(entries[j])
  {
    hide Path;
  }

  /** The target of a later entry's link is still what it was. */
  lemma {:induction false} LaterTarget(entries: seq<Entry>, keywords: seq<Keyword>, before: Nodes, run: seq<Done>,
                                       i: nat, a: nat, k: nat, next: Nodes, j: nat)
    requires PathsDistinct(entries) && i < j < |entries| && IsNamed(entries[i]) && IsNamed(entries[j])
    requires Path(entries[i]).Ok? && Path(entries[j]).Ok? && Path(entries[j]).value in before
    requires a < |Wanted(entries, keywords, i)| && Plan(entries[..i], keywords).Ok?
    requires k < |run| && run[k].call == CallOf(entries, keywords, i, a) && Replayed(before, run[..k + 1]) == Some(next)
    requires CallsOf(run[..k]) == Immediate(Plan(entries[..i], keywords).value)
      + Immediate(CallsFor(Path(entries[i]).value, Current(entries, i), Wanted(entries, keywords, i)[..a]))
    ensures Path(entries[j]).value in next && next[Path(entries[j]).value].target == before[Path(entries[j]).value].target
  {
    hide Path, Selected, AllKeys, Current, PathsDistinct, IsDir, Plan, CallsFor, Immediate, Replayed, TargetAfter, Prefix, KeywordOf;
    var q := Path(entries[j]).value;
    TargetFollows(before, run[..k + 1], next, q);
    EntriesApart(entries, i, j);
    assert CallsOf(run[..k + 1]) == CallsOf(run[..k]) + [run[k].call];
    forall c | c in CallsOf(run[..k + 1])
      ensures !SetsLink(c, q)
    {
      if c in CallsOf(run[..k]) {
        EarlyElsewhere(entries, keywords, i, a, j, c);
      }
    }
    NoLinkAt(before[q].target, CallsOf(run[..k + 1]), q);
  }

  lemma {:induction false} MovesLater(entries: seq<Entry>, keywords: seq<Keyword>, before: Nodes, run: seq<Done>, after: Nodes,
                                      i: nat, a: nat, k: nat, mid: Nodes, next: Nodes, late: seq<Done>)
    requires PathsDistinct(entries) && i < |entries| && IsNamed(entries[i]) && Path(entries[i]).Ok? && Path(entries[i]).value in before
    requires a < |Wanted(entries, keywords, i)| && Plan(entries[..i], keywords).Ok? && SaysTime(Wanted(entries, keywords, i)[a])
    requires k < |run| && run[k].call == CallOf(entries, keywords, i, a)
    requires Replayed(before, run[..k]) == Some(mid) && Applied(mid, run[k].call, run[k].now) == Some(next)
    requires late == run[k + 1..] && Replayed(next, late) == Some(after)
    requires CallsOf(run[..k]) == Immediate(Plan(entries[..i], keywords).value)
      + Immediate(CallsFor(Path(entries[i]).value, Current(entries, i), Wanted(entries, keywords, i)[..a]))
    requires forall c :: c in CallsOf(late) <==> Follows(entries, keywords, i, a, c)
    ensures (exists m :: 0 <= m < |late| && Moves(late[m].call, next, Path(entries[i]).value))
            <==> MovedLater(entries, keywords, before, i, a)
  {
    hide Path, Selected, AllKeys, Current, PathsDistinct, IsDir, Plan, CallsFor, Immediate, Replayed, TargetAfter, Prefix, KeywordOf, ValueOf, Decode;
    hide Applied, AskedBy, Follows, ParentPath, LinkAfter, Changed, Renewed, Waits;
    var p := Path(entries[i]).value;
    NodesStay(next, late, after);
    TargetBefore(entries, keywords, before, run[..k], mid, i, a);
    StepAt(mid, run[k].call, run[k].now, next, p);
    TimesIt(mid[p], Wanted(entries, keywords, i)[a], run[k].now, next[p]);
    RenewedLater(entries, keywords, i, a, late, next[p].target);
    assert Replayed(before, run[..k + 1]) == Some(next) by {
      ReplayedNext(before, run, k, mid);
    }
    NodesStay(before, run[..k + 1], next);
    if m :| 0 <= m < |late| && Moves(late[m].call, next, p) {
      var c := late[m].call;
      assert CallsOf(late)[m] in CallsOf(late);
      if c.path == p {
        assert Renews(late[m].call, p, next[p].target);
      } else {
        var j := FollowsLater(entries, keywords, i, a, c);
        LaterTarget(entries, keywords, before, run, i, a, k, next, j);
        RenewedBy(before[c.path].target, Wanted(entries, keywords, j), c.kv);
        assert MadeBelow(entries, keywords, before, j, p);
      }
    }
    if m :| 0 <= m < |late| && Renews(late[m].call, p, next[p].target) {
      assert Moves(late[m].call, next, p);
    }
    if j :| i < j < |entries| && MadeBelow(entries, keywords, before, j, p) {
      LaterTarget(entries, keywords, before, run, i, a, k, next, j);
      var c := RenewedCall(entries, keywords, before, i, a, j, p);
      assert c in CallsOf(late);
      var m :| 0 <= m < |CallsOf(late)| && CallsOf(late)[m] == c;
      assert Moves(late[m].call, next, p);
    }
  }

  lemma ReplayedNext(before: Nodes, run: seq<Done>, k: nat, mid: Nodes)
    requires k < |run| && Replayed(before, run[..k]) == Some(mid)
    ensures Replayed(before, run[..k + 1]) == Applied(mid, run[k].call, run[k].now)
  {
    hide Applied;
    assert run[..k + 1][..k] == run[..k];
  }

  lemma RenewedBy(target: Bytes, kvs: seq<KeyVal>, kv: KeyVal)
    requires kv in kvs && IsOtherLink(kv, target)
    ensures Renewed(target, kvs)
  {
    hide IsOtherLink;
    var b :| 0 <= b < |kvs| && kvs[b] == kv;
    assert IsOtherLink(kvs[b], target);
  }

  /** A link that follows, for another path, is for a later entry. */
  lemma FollowsLater(entries: seq<Entry>, keywords: seq<Keyword>, i: nat, a: nat, call: PathUpdate) returns (j: nat)
    requires i < |entries| && a < |Wanted(entries, keywords, i)| && Follows(entries, keywords, i, a, call)
    requires Prefix(KeywordOf(call.kv)) == "link" && Path(entries[i]) != Ok(call.path)
    ensures i < j < |entries| && IsNamed(entries[j]) && Path(entries[j]) == Ok(call.path) && call.kv in Wanted(entries, keywords, j)
  {
    hide Path, Selected, AllKeys, Current, IsDir, Prefix, KeywordOf;
    assert !AskedBy(entries, keywords, i, call);
    j :| i < j < |entries| && AskedBy(entries, keywords, j, call);
  }

  lemma RenewedCall(entries: seq<Entry>, keywords: seq<Keyword>, before: Nodes, i: nat, a: nat, j: nat, p: Bytes) returns (call: PathUpdate)
    requires i < j < |entries| && a < |Wanted(entries, keywords, i)| && MadeBelow(entries, keywords, before, j, p)
    ensures Follows(entries, keywords, i, a, call) && Path(entries[j]) == Ok(call.path) && ParentPath(call.path) == p
    ensures Renews(call, call.path, before[call.path].target)
  {
    hide Path, Selected, AllKeys, Current, IsDir, Prefix, KeywordOf, ValueOf, Decode, ParentPath, AskedBy, Waits;
    var q, kvs := Path(entries[j]).value, Wanted(entries, keywords, j);
    var b :| 0 <= b < |kvs| && IsOtherLink(kvs[b], before[q].target);
    call := CallOf(entries, keywords, j, b);
    LinkAsked(entries, keywords, j, b);
  }

  lemma SomeNowOf(run: seq<Done>, k: nat, t: int)
    requires k <= |run| && IsSomeNow(run[k..], t)
    ensures IsSomeNow(run, t)
  {
    var m :| 0 <= m < |run[k..]| && run[k..][m].now == t;
    assert run[k + m].now == t;
  }

  lemma TimesIt(node: Inode, kv: KeyVal, now: int, next: Inode)
    requires SaysTime(kv) && Changed(node, kv, now) == Some(next)
    ensures TimeIs(kv, next.mtime) && next.target == node.target
  {
    hide Prefix, KeywordOf, ValueOf, DecodeTime, TarSeconds;
  }

  lemma NoLaterTime(entries: seq<Entry>, keywords: seq<Keyword>, i: nat, a: nat, call: PathUpdate)
    requires PathsDistinct(entries) && i < |entries| && IsNamed(entries[i]) && a < |Wanted(entries, keywords, i)|
    requires Follows(entries, keywords, i, a, call)
    requires forall b :: a < b < |Wanted(entries, keywords, i)| ==> !SaysTime(Wanted(entries, keywords, i)[b])
    requires IsDir(Current(entries, i)) ==>
      forall b :: 0 <= b < |Wanted(entries, keywords, i)| ==> !IsTime(Wanted(entries, keywords, i)[b])
    ensures Path(entries[i]).Ok? ==> !SetsTime(call, Path(entries[i]).value)
  {
    hide Path, Selected, AllKeys, CurSet, PathsDistinct, Prefix, KeywordOf, Follows, IsDir;
    if Path(entries[i]) == Ok(call.path) {
      OnlyOwn(entries, keywords, i, a, call);
    }
  }
  /** The /set line the loop has is the last one before the entry with no /unset in between. */
  lemma {:induction false} CurSetIs(entries: seq<Entry>, s: Entry)
    ensures CurSet(entries) == Some(s) <==> exists k: nat :: LastSet(entries, s, k)
  {
    if entries != [] {
      var n := |entries| - 1;
      CurSetIs(entries[..n], s);
      LastSetNext(entries[..n], entries[n], s);
      assert entries[..n] + [entries[n]] == entries;
      assert "/set" != "/unset" by {
        assert |"/set"| != |"/unset"|;
      }
    }
  }

  /** The entry is such a line and none follows. */
  predicate LastSet(entries: seq<Entry>, s: Entry, k: nat) {
    && k < |entries| && entries[k] == s && s.kind == SpecialType && s.name == "/set"
    && forall m :: k < m < |entries| ==> !SetsOrUnsets(entries[m])
  }

  predicate SetsOrUnsets(e: Entry) {
    e.kind == SpecialType && (e.name == "/set" || e.name == "/unset")
  }

  lemma LastSetNext(before: seq<Entry>, last: Entry, s: Entry)
    ensures (exists k: nat :: LastSet(before + [last], s, k)) <==>
      if SetsOrUnsets(last) then last == s && s.name == "/set" else exists k: nat :: LastSet(before, s, k)
  {
    hide SetsOrUnsets;
    var entries, n := before + [last], |before|;
    assert forall m :: 0 <= m < n ==> entries[m] == before[m];
    assert entries[n] == last;
    if k: nat :| LastSet(before, s, k) && !SetsOrUnsets(last) {
      assert LastSet(entries, s, k);
    }
    if k: nat :| LastSet(entries, s, k) {
      LastIsSet(entries, s, k);
      if k < n {
        assert LastSet(before, s, k) && !SetsOrUnsets(entries[n]);
      }
    }
    if SetsOrUnsets(last) && last == s && s.name == "/set" {
      IsSpecial(last);
      assert LastSet(entries, s, n);
    }
  }

  lemma LastIsSet(entries: seq<Entry>, s: Entry, k: nat)
    requires LastSet(entries, s, k)
    ensures SetsOrUnsets(entries[k])
  {
  }

  lemma IsSpecial(e: Entry)
    requires SetsOrUnsets(e)
    ensures e.kind == SpecialType
  {
  }

  /** The calls reported are those that failed. */
  lemma {:induction false} FailuresAre(run: seq<Done>, call: PathUpdate)
    ensures call in Failures(run) <==> exists k :: 0 <= k < |run| && run[k].call == call && !run[k].ok
  {
    if run != [] {
      FailuresAre(run[..|run| - 1], call);
    }
  }

  /** Directories' times are set last: after an update without errors they hold, though links were made anew in them. */
  lemma {:induction false} DirectoryTimesRestored(entries: seq<Entry>, keywords: seq<Keyword>, before: Nodes, run: seq<Done>, after: Nodes,
                                                  i: nat, a: nat)
    requires Ran(entries, keywords, before, run, after) && PathsDistinct(entries) && OneTimeEach(entries, keywords)
    requires i < |entries| && IsNamed(entries[i]) && SaysDir(AllKeys(Current(entries, i)))
    requires a < |Wanted(entries, keywords, i)| && Prefix(KeywordOf(Wanted(entries, keywords, i)[a])) == "time"
    ensures Path(entries[i]).Ok? && Path(entries[i]).value in after
    ensures DecodeTime(ValueOf(Wanted(entries, keywords, i)[a])) == Some(after[Path(entries[i]).value].mtime)
  {
    hide Path, Selected, AllKeys, Current, PathsDistinct, OneTimeEach, Plan, Replayed, Applied, Changed, DecodeTime, TarSeconds, Decode, SaysDir;
    hide Prefix, KeywordOf, ValueOf, Immediate, Drained, Enqueued, Ran, Waits, OncePerPath, ParentPath;
    RunOf(entries, keywords, before, run, after);
    var plan := Plan(entries, keywords).value;
    PlannedCall(entries, keywords, i, Wanted(entries, keywords, i)[a]);
    var x, p := CallOf(entries, keywords, i, a), Path(entries[i]).value;
    IsDirIs(Current(entries, i));
    TimeWaits(x);
    DrainedAre(plan, x);
    var order := Drained(Enqueued(plan));
    var n :| 0 <= n < |order| && order[n] == x;
    var k := |Immediate(plan)| + n;
    assert CallsOf(run)[k] == x;
    var mid, next := RunSplit(before, run, after, k);
    NodesStay(before, run, after);
    NodesStay(before, run[..k], mid);
    StepAt(mid, x, run[k].now, next, p);
    TimesIt(mid[p], x.kv, run[k].now, next[p]);
    WaitingOnce(entries, keywords);
    var late := run[k + 1..];
    forall m | 0 <= m < |late|
      ensures !SetsTime(late[m].call, p) && !Moves(late[m].call, next, p)
    {
      assert late[m].call == CallsOf(run)[k + 1 + m] == order[n + 1 + m];
      WaitingApart(plan, n, n + 1 + m);
    }
    TimesFollow(next, late, after, p);
  }

  lemma TimeWaits(x: PathUpdate)
    requires Prefix(KeywordOf(x.kv)) == "time" && IsDir(x.entry)
    ensures Waits(x)
  {
    hide IsDir;
  }

  /** Of two calls that wait the later is for another path, and makes no link. */
  lemma {:induction false} WaitingApart(plan: seq<PathUpdate>, n: nat, m: nat)
    requires OncePerPath(multiset(Waiting(plan))) && n < m < |Drained(Enqueued(plan))|
    ensures Drained(Enqueued(plan))[m].path != Drained(Enqueued(plan))[n].path
    ensures Prefix(KeywordOf(Drained(Enqueued(plan))[m].kv)) == "time"
  {
    hide Prefix, KeywordOf, IsDir, Waiting, Enqueued, Drained, OncePerPath, IsHeap, LongestFirst;
    var order := Drained(Enqueued(plan));
    EnqueuedIsHeap(plan);
    DrainedSorts(Enqueued(plan));
    DrainedAre(plan, order[m]);
    OnceInOrder(order, n, m);
  }

  /** The directory of a path is the path without its last name. */
  lemma {:induction false} ParentPathIs(rooted: bool, dir: seq<Bytes>, name: Bytes)
    requires Paths.AllPlain(dir) && Paths.IsPlain(name)
    ensures ParentPath(Paths.Render(rooted, dir + [name])) == Paths.Render(rooted, dir)
  {
    var all := dir + [name];
    assert Paths.IsCleanList(all, rooted);
    Paths.SegmentsOfRender(rooted, all);
    assert all[..|all| - 1] == dir;
  }

  // ---------- the queue ----------

  /** Among the calls that wait, one for a directory comes before one for something below it only in
      the case of "." and a path of one character. */
  lemma {:induction false} ScheduledDescendantsFirst(entries: seq<Entry>, keywords: seq<Keyword>, i: nat, j: nat)
    requires Plan(entries, keywords).Ok?
    requires var order := Drained(Enqueued(Plan(entries, keywords).value));
      i < j < |order| && order[i].path != "" && order[j].path != "" && ProperlyBelow(order[j].path, order[i].path)
    ensures var order := Drained(Enqueued(Plan(entries, keywords).value));
      order[i].path == "." && |order[j].path| == 1
  {
    hide Plan, Path, Enqueued, Drained, IsHeap, LongestFirst, ProperlyBelow;
    var plan := Plan(entries, keywords).value;
    var order := Drained(Enqueued(plan));
    EnqueuedIsHeap(plan);
    DrainedSorts(Enqueued(plan));
    forall x | x in order && x.path != ""
      ensures Paths.Clean(x.path) == x.path
    {
      assert x in multiset(order);
      WaitingAre(plan, x);
      var at := PlannedPaths(entries, keywords, x);
      PathNeverUp(entries[at]);
      CleanedIsClean(x.path);
    }
    assert order[i] in order && order[j] in order;
    DescendantsFirst(Enqueued(plan), i, j);
  }

  lemma CleanedIsClean(path: Bytes)
    requires path != "" && Paths.CleanPath(path) == path
    ensures Paths.Clean(path) == path
  {
    Paths.CleanPathIs(path);
    Paths.SegmentsOfRender(Paths.IsAbs(path), Paths.SafeSegments(path));
  }
}
