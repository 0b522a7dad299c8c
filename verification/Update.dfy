/** Update, update.go, over a disk that may refuse any request: attributes and links are set entry by
    entry, the times of directories last, longest paths first. */
module Update {
  import opened GoBytes
  import opened Govis
  import opened Keywords
  import opened Entries
  import opened Times
  import opened Printing
  import opened Deferred
  import Paths

  // ---------- the disk ----------

  datatype Inode = Inode(isLink: bool, target: Bytes, mtime: int, attrs: map<Keyword, Bytes>)

  type Nodes = map<Bytes, Inode>

  /** A call made: whether it reported no error, whether a request of it was refused, and when it made a link. */
  datatype Done = Done(call: PathUpdate, ok: bool, refused: bool, now: int)

  function ParentPath(path: Bytes): Bytes {
    var s := Paths.Segments(path);
    if s == [] then path else Paths.Render(Paths.IsAbs(path), s[..|s| - 1])
  }

  /** Adding or removing a name sets the time of its directory. */
  function Bumped(nodes: Nodes, dir: Bytes, now: int): (n: Nodes)
    ensures n.Keys == nodes.Keys
  {
    if dir in nodes then nodes[dir := nodes[dir].(mtime := now)] else nodes
  }

  /** The requests Update makes.  Which ones are refused, and what time it is, is arbitrary. */
  class Disk {
    var nodes: Nodes
    var tick: nat
    const clock: nat -> int
    const refuses: nat -> bool
    ghost var log: seq<Done>

    constructor (nodes: Nodes, clock: nat -> int, refuses: nat -> bool)
      ensures this.nodes == nodes && log == []
    {
      this.nodes, tick, this.clock, this.refuses, log := nodes, 0, clock, refuses, [];
    }

    method Lstat(path: Bytes) returns (info: Option<Inode>)
      modifies this`tick
      ensures tick == old(tick) + 1
      ensures info == if path in nodes && !refuses(old(tick)) then Some(nodes[path]) else None
    {
      info := if path in nodes && !refuses(tick) then Some(nodes[path]) else None;
      tick := tick + 1;
    }

    method Readlink(path: Bytes) returns (target: Option<Bytes>)
      modifies this`tick
      ensures tick == old(tick) + 1
      ensures target == if path in nodes && nodes[path].isLink && !refuses(old(tick)) then Some(nodes[path].target) else None
    {
      target := if path in nodes && nodes[path].isLink && !refuses(tick) then Some(nodes[path].target) else None;
      tick := tick + 1;
    }

    /** os.Chtimes, or lchtimes for a link: the time of the very node at the path. */
    method Chtimes(path: Bytes, mtime: int) returns (ok: bool)
      modifies this`tick, this`nodes
      ensures tick == old(tick) + 1
      ensures ok == (path in old(nodes) && !refuses(old(tick)))
      ensures nodes == if ok then old(nodes)[path := old(nodes)[path].(mtime := mtime)] else old(nodes)
    {
      ok := path in nodes && !refuses(tick);
      if ok {
        nodes := nodes[path := nodes[path].(mtime := mtime)];
      }
      tick := tick + 1;
    }

    /** os.Lchown, os.Chmod and xattr.Set */
    method Chattr(path: Bytes, keyword: Keyword, value: Bytes) returns (ok: bool)
      modifies this`tick, this`nodes
      ensures tick == old(tick) + 1
      ensures ok == (path in old(nodes) && !refuses(old(tick)))
      ensures nodes == if ok then old(nodes)[path := old(nodes)[path].(attrs := old(nodes)[path].attrs[keyword := value])]
                       else old(nodes)
    {
      ok := path in nodes && !refuses(tick);
      if ok {
        nodes := nodes[path := nodes[path].(attrs := nodes[path].attrs[keyword := value])];
      }
      tick := tick + 1;
    }

    method Remove(path: Bytes) returns (ok: bool)
      modifies this`tick, this`nodes
      ensures tick == old(tick) + 1
      ensures ok == (path in old(nodes) && !refuses(old(tick)))
      ensures nodes == if ok then Bumped(old(nodes) - {path}, ParentPath(path), clock(old(tick))) else old(nodes)
    {
      ok := path in nodes && !refuses(tick);
      if ok {
        nodes := Bumped(nodes - {path}, ParentPath(path), clock(tick));
      }
      tick := tick + 1;
    }

    method Symlink(target: Bytes, path: Bytes) returns (ok: bool)
      modifies this`tick, this`nodes
      ensures tick == old(tick) + 1
      ensures ok == (path !in old(nodes) && !refuses(old(tick)))
      ensures nodes == if ok then Bumped(old(nodes), ParentPath(path), clock(old(tick)))
                                  [path := Inode(true, target, clock(old(tick)), map[])]
                       else old(nodes)
    {
      ok := path !in nodes && !refuses(tick);
      if ok {
        nodes := Bumped(nodes, ParentPath(path), clock(tick))[path := Inode(true, target, clock(tick), map[])];
      }
      tick := tick + 1;
    }
  }

  // ---------- what one call does ----------

  function Key(call: PathUpdate): Keyword {
    Prefix(KeywordOf(call.kv))
  }

  predicate IsAttr(k: Keyword) {
    k == "mode" || k == "uid" || k == "gid" || k == "xattr"
  }

  /** The keywords with an update function. */
  predicate HasFunc(k: Keyword) {
    IsAttr(k) || k == "time" || k == "tar_time" || k == "link"
  }

  /** The link is to be removed and made anew, since its target is another. */
  predicate MadeAnew(node: Inode, kv: KeyVal) {
    Prefix(KeywordOf(kv)) == "link" && Decode(ValueOf(kv), DEFAULT_VIS_FLAGS) != Ok(node.target)
  }

  /** The node once the key-value has been set, a link made anew at the time now; none if that is impossible. */
  function Changed(node: Inode, kv: KeyVal, now: int): Option<Inode> {
    var k, value := Prefix(KeywordOf(kv)), ValueOf(kv);
    if k == "time" then
      match DecodeTime(value) case Some(t) => Some(node.(mtime := t)) case None => None
    else if k == "tar_time" then
      match TarSeconds(value)
      case Some(sec) => Some(if node.mtime / BILLION == sec then node else node.(mtime := sec * BILLION))
      case None => None
    else if k == "link" then
      match Decode(value, DEFAULT_VIS_FLAGS)
      case Ok(target) =>
        if !node.isLink then None else Some(if node.target == target then node else Inode(true, target, now, map[]))
      case Err(_) => None
    else if k == "mode" && node.isLink then Some(node)
    else Some(node.(attrs := node.attrs[KeywordOf(kv) := value]))
  }

  /** The disk after a call without an error. */
  function Applied(nodes: Nodes, call: PathUpdate, now: int): Option<Nodes> {
    if call.path !in nodes then None
    else
      match Changed(nodes[call.path], call.kv, now)
      case None => None
      case Some(node) =>
        Some((if MadeAnew(nodes[call.path], call.kv) then Bumped(nodes, ParentPath(call.path), now) else nodes)[call.path := node])
  }

  lemma AppliedAnyTime(nodes: Nodes, call: PathUpdate, s: int, t: int)
    ensures Applied(nodes, call, s).Some? <==> Applied(nodes, call, t).Some?
    ensures !(call.path in nodes && MadeAnew(nodes[call.path], call.kv)) ==> Applied(nodes, call, s) == Applied(nodes, call, t)
  {
  }

  /** The requests since then were all granted. */
  ghost predicate Granted(d: Disk, since: nat)
    reads d`tick
  {
    forall t :: since <= t < d.tick ==> !d.refuses(t)
  }

  lemma SameNode(nodes: Nodes, path: Bytes)
    ensures path in nodes ==> nodes[path := nodes[path]] == nodes
  {
  }

  ghost predicate IsReading(d: Disk, now: int) {
    exists t: nat :: now == d.clock(t)
  }

  /** uidUpdateKeywordFunc, gidUpdateKeywordFunc, modeUpdateKeywordFunc and xattrUpdateKeywordFunc */
  method AttrUpdate(d: Disk, call: PathUpdate) returns (ok: bool)
    requires IsAttr(Key(call))
    modifies d`tick, d`nodes
    ensures ok <==> Applied(old(d.nodes), call, 0).Some? && Granted(d, old(d.tick))
    ensures ok ==> Some(d.nodes) == Applied(old(d.nodes), call, 0)
    ensures ok ==> var node := old(d.nodes)[call.path];
      d.nodes == if Prefix(KeywordOf(call.kv)) == "mode" && node.isLink then old(d.nodes)
                 else old(d.nodes)[call.path := node.(attrs := node.attrs[KeywordOf(call.kv) := ValueOf(call.kv)])]
  {
    hide Prefix, KeywordOf, ValueOf, DecodeTime, TarSeconds, Decode;
    var info := d.Lstat(call.path);
    if info.None? {
      return false;
    }
    if Key(call) == "mode" && info.value.isLink {
      SameNode(d.nodes, call.path);
      return true;
    }
    if KeywordOf(call.kv) in info.value.attrs && info.value.attrs[KeywordOf(call.kv)] == ValueOf(call.kv) {
      assert info.value.attrs[KeywordOf(call.kv) := ValueOf(call.kv)] == info.value.attrs;
      SameNode(d.nodes, call.path);
      return true;
    }
    ok := d.Chattr(call.path, KeywordOf(call.kv), ValueOf(call.kv));
    if ok {
      info := d.Lstat(call.path);
      ok := info.Some?;
    }
  }

  method TimeUpdate(d: Disk, call: PathUpdate) returns (ok: bool)
    requires Key(call) == "time"
    modifies d`tick, d`nodes
    ensures ok <==> Applied(old(d.nodes), call, 0).Some? && Granted(d, old(d.tick))
    ensures ok ==> Some(d.nodes) == Applied(old(d.nodes), call, 0)
    ensures ok ==> d.nodes == old(d.nodes)[call.path := old(d.nodes)[call.path].(mtime := DecodeTime(ValueOf(call.kv)).value)]
  {
    hide Prefix, KeywordOf, ValueOf, DecodeTime;
    var info := d.Lstat(call.path);
    if info.None? {
      return false;
    }
    var nsec := DecodeTime(ValueOf(call.kv));
    if nsec.None? {
      return false;
    }
    if info.value.mtime == nsec.value {
      SameNode(d.nodes, call.path);
      return true;
    }
    ok := d.Chtimes(call.path, nsec.value);
    if ok {
      info := d.Lstat(call.path);
      ok := info.Some?;
    }
  }

  method TarTimeUpdate(d: Disk, call: PathUpdate) returns (ok: bool)
    requires Key(call) == "tar_time"
    modifies d`tick, d`nodes
    ensures ok <==> Applied(old(d.nodes), call, 0).Some? && Granted(d, old(d.tick))
    ensures ok ==> Some(d.nodes) == Applied(old(d.nodes), call, 0)
    ensures ok ==> var node, sec := old(d.nodes)[call.path], TarSeconds(ValueOf(call.kv)).value;
      d.nodes == if node.mtime / BILLION == sec then old(d.nodes) else old(d.nodes)[call.path := node.(mtime := sec * BILLION)]
  {
    hide Prefix, KeywordOf, ValueOf, TarSeconds;
    var info := d.Lstat(call.path);
    if info.None? {
      return false;
    }
    var sec := TarSeconds(ValueOf(call.kv));
    if sec.None? {
      return false;
    }
    if info.value.mtime / BILLION == sec.value {
      SameNode(d.nodes, call.path);
      return true;
    }
    ok := d.Chtimes(call.path, sec.value * BILLION);
    if ok {
      info := d.Lstat(call.path);
      ok := info.Some?;
    }
  }

  /** Removing a link and making it anew: it has the target and nothing else, and its directory the time. */
  lemma Relinked(before: Nodes, call: PathUpdate, target: Bytes, removed: int, linked: int)
    requires Key(call) == "link" && call.path in before && before[call.path].isLink && before[call.path].target != target
    requires Decode(ValueOf(call.kv), DEFAULT_VIS_FLAGS) == Ok(target)
    ensures Applied(before, call, linked) ==
      Some(Bumped(Bumped(before - {call.path}, ParentPath(call.path), removed), ParentPath(call.path), linked)
           [call.path := Inode(true, target, linked, map[])])
  {
    hide ParentPath, ValueOf, KeywordOf, Prefix, Decode;
    var link, dir := Inode(true, target, linked, map[]), ParentPath(call.path);
    assert Bumped(Bumped(before - {call.path}, dir, removed), dir, linked)[call.path := link]
        == Bumped(before, dir, linked)[call.path := link];
  }

  method LinkUpdate(d: Disk, call: PathUpdate) returns (ok: bool, ghost now: int)
    requires Key(call) == "link"
    modifies d`tick, d`nodes
    ensures ok <==> Applied(old(d.nodes), call, now).Some? && Granted(d, old(d.tick))
    ensures ok ==> Some(d.nodes) == Applied(old(d.nodes), call, now)
    ensures IsReading(d, now)
    ensures ok ==> d.nodes[call.path].isLink && Ok(d.nodes[call.path].target) == Decode(ValueOf(call.kv), DEFAULT_VIS_FLAGS)
  {
    hide Prefix, KeywordOf, ValueOf, Decode, ParentPath, Bumped;
    now := d.clock(d.tick);
    var linkname := Unvis(ValueOf(call.kv), DEFAULT_VIS_FLAGS);
    if linkname.Err? {
      return false, now;
    }
    var got := d.Readlink(call.path);
    if got.None? {
      return false, now;
    }
    var info;
    if got.value == linkname.value {
      SameNode(d.nodes, call.path);
      info := d.Lstat(call.path);
      return info.Some?, now;
    }
    ghost var removed := d.tick;
    ok := d.Remove(call.path);
    now := d.clock(d.tick);
    Relinked(old(d.nodes), call, linkname.value, d.clock(removed), now);
    if ok {
      ok := d.Symlink(linkname.value, call.path);
    }
    if ok {
      info := d.Lstat(call.path);
      ok := info.Some?;
    }
  }

  /** Looks up the update function for the keyword and calls it. */
  method Apply(d: Disk, call: PathUpdate) returns (ok: bool)
    requires HasFunc(Key(call))
    modifies d`tick, d`nodes, d`log
    ensures |d.log| == |old(d.log)| + 1 && d.log[..|old(d.log)|] == old(d.log)
    ensures var done := d.log[|old(d.log)|];
      && done.call == call && done.ok == ok
      && (ok <==> !done.refused && Applied(old(d.nodes), call, done.now).Some?)
      && (ok ==> Some(d.nodes) == Applied(old(d.nodes), call, done.now))
      && (done.refused <==> exists t :: old(d.tick) <= t < d.tick && d.refuses(t))
      && IsReading(d, done.now)
  {
    hide Key, Applied;
    ghost var now := d.clock(d.tick);
    if Key(call) == "time" {
      ok := TimeUpdate(d, call);
    } else if Key(call) == "tar_time" {
      ok := TarTimeUpdate(d, call);
    } else if Key(call) == "link" {
      ok, now := LinkUpdate(d, call);
    } else {
      ok := AttrUpdate(d, call);
    }
    if Key(call) != "link" {
      NotAnew(old(d.nodes), call, now);
    }
    d.log := d.log + [Done(call, ok, !Granted(d, old(d.tick)), now)];
  }

  lemma NotAnew(nodes: Nodes, call: PathUpdate, now: int)
    requires Key(call) != "link"
    ensures Applied(nodes, call, now) == Applied(nodes, call, 0)
  {
    hide KeywordOf, Prefix, Changed;
    AppliedAnyTime(nodes, call, now, 0);
  }

  // ---------- what is to be done ----------

  /** The /set line in force after the entries. */
  function CurSet(entries: seq<Entry>): Option<Entry> {
    if entries == [] then None
    else
      var last := entries[|entries| - 1];
      if last.kind == SpecialType && last.name == "/set" then Some(last)
      else if last.kind == SpecialType && last.name == "/unset" then None
      else CurSet(entries[..|entries| - 1])
  }

  predicate IsNamed(e: Entry) {
    e.kind == RelativeType || e.kind == FullType
  }

  /** The entry at i with the /set line the loop has by then. */
  function Current(entries: seq<Entry>, i: nat): Entry
    requires i < |entries|
  {
    entries[i].(setLine := CurSet(entries[..i]))
  }

  function CallsFor(path: Bytes, e: Entry, kvs: seq<KeyVal>): seq<PathUpdate> {
    if kvs == [] then []
    else
      var last := kvs[|kvs| - 1];
      CallsFor(path, e, kvs[..|kvs| - 1])
        + if HasFunc(Prefix(KeywordOf(last))) then [PathUpdate(path, e, last)] else []
  }

  function CallsAt(e: Entry, keywords: seq<Keyword>): Result<seq<PathUpdate>, VisError> {
    if !IsNamed(e) then Ok([])
    else
      var path :- Path(e);
      Ok(CallsFor(path, e, Selected(AllKeys(e), keywords)))
  }

  /** Every call the manifest asks for, in its order. */
  function Plan(entries: seq<Entry>, keywords: seq<Keyword>): Result<seq<PathUpdate>, VisError> {
    if entries == [] then Ok([])
    else
      var n := |entries| - 1;
      var before :- Plan(entries[..n], keywords);
      var calls :- CallsAt(Current(entries, n), keywords);
      Ok(before + calls)
  }

  /** The time of a directory waits until everything else is done. */
  predicate Waits(call: PathUpdate) {
    Key(call) == "time" && IsDir(call.entry)
  }

  function Immediate(calls: seq<PathUpdate>): seq<PathUpdate> {
    if calls == [] then []
    else
      var last := calls[|calls| - 1];
      Immediate(calls[..|calls| - 1]) + if Waits(last) then [] else [last]
  }

  function Waiting(calls: seq<PathUpdate>): seq<PathUpdate> {
    if calls == [] then []
    else
      var last := calls[|calls| - 1];
      Waiting(calls[..|calls| - 1]) + if Waits(last) then [last] else []
  }

  function Enqueued(calls: seq<PathUpdate>): Queue {
    if calls == [] then []
    else
      var before := Enqueued(calls[..|calls| - 1]);
      if Waits(calls[|calls| - 1]) then Pushed(before, calls[|calls| - 1]) else before
  }

  /** The order of the calls: the immediate ones as the manifest has them, then the queue. */
  function Schedule(calls: seq<PathUpdate>): seq<PathUpdate> {
    Immediate(calls) + Drained(Enqueued(calls))
  }

  function CallsOf(run: seq<Done>): (calls: seq<PathUpdate>)
    ensures |calls| == |run| && forall i :: 0 <= i < |run| ==> calls[i] == run[i].call
  {
    seq(|run|, i requires 0 <= i < |run| => run[i].call)
  }

  /** The calls that reported an error. */
  function Failures(run: seq<Done>): seq<PathUpdate> {
    if run == [] then []
    else
      var last := run[|run| - 1];
      Failures(run[..|run| - 1]) + if last.ok then [] else [last.call]
  }

  /** The disk after calls that all reported no error. */
  function Replayed(nodes: Nodes, run: seq<Done>): Option<Nodes> {
    if run == [] then Some(nodes)
    else
      var last := run[|run| - 1];
      match Replayed(nodes, run[..|run| - 1])
      case None => None
      case Some(before) => Applied(before, last.call, last.now)
  }

  predicate AllFuncs(calls: seq<PathUpdate>) {
    forall i :: 0 <= i < |calls| ==> HasFunc(Key(calls[i]))
  }

  // ---------- Update ----------

  /** No request was refused and no call was impossible. */
  ghost predicate Unhindered(before: Nodes, run: seq<Done>) {
    Replayed(before, run).Some? && forall k :: 0 <= k < |run| ==> !run[k].refused
  }

  /** What a run has done: the calls so far, their failures, and, when there are none, what is on the disk. */
  ghost predicate RanSo(d: Disk, start: seq<Done>, before: Nodes, calls: seq<PathUpdate>, results: seq<PathUpdate>)
    reads d
  {
    && |start| <= |d.log| && d.log[..|start|] == start
    && var run := d.log[|start|..];
      && CallsOf(run) == calls && AllFuncs(calls)
      && results == Failures(run)
      && (results == [] <==> Unhindered(before, run))
      && (results == [] ==> Some(d.nodes) == Replayed(before, run))
      && forall k :: 0 <= k < |run| ==> IsReading(d, run[k].now)
  }

  lemma RanOne(before: Nodes, run: seq<Done>, done: Done)
    ensures CallsOf(run + [done]) == CallsOf(run) + [done.call]
    ensures Failures(run + [done]) == Failures(run) + if done.ok then [] else [done.call]
    ensures Replayed(before, run + [done]) == match Replayed(before, run) case None => None case Some(m) => Applied(m, done.call, done.now)
    ensures Unhindered(before, run + [done]) <==>
      Unhindered(before, run) && !done.refused && Applied(Replayed(before, run).value, done.call, done.now).Some?
  {
    hide Applied;
    var next := run + [done];
    assert next[..|next| - 1] == run;
    assert forall k :: 0 <= k < |run| ==> next[k] == run[k];
    assert next[|run|] == done;
  }

  /** One more call, with an error delta when it fails. */
  method RunOne(d: Disk, call: PathUpdate, results: seq<PathUpdate>, ghost start: seq<Done>, ghost before: Nodes,
                ghost calls: seq<PathUpdate>)
    returns (more: seq<PathUpdate>)
    requires HasFunc(Key(call)) && RanSo(d, start, before, calls, results)
    modifies d`tick, d`nodes, d`log
    ensures RanSo(d, start, before, calls + [call], more)
  {
    hide HasFunc, Key, Applied, Replayed, Failures, Unhindered;
    ghost var run := d.log[|start|..];
    ghost var log := d.log;
    var ok := Apply(d, call);
    more := if ok then results else results + [call];
    ghost var done := d.log[|log|];
    assert d.log == log + [done];
    assert d.log[|start|..] == run + [done];
    RanOne(before, run, done);
  }

  /** The calls of one entry: directory times go to the queue, the rest is done at once. */
  method UpdateEntry(d: Disk, h: PathUpdateHeap, e: Entry, path: Bytes, kvs: seq<KeyVal>, results: seq<PathUpdate>,
                     ghost start: seq<Done>, ghost before: Nodes,
                     ghost calls: seq<PathUpdate>)
    returns (more: seq<PathUpdate>)
    requires RanSo(d, start, before, Immediate(calls), results) && h.items == Enqueued(calls)
    modifies d`tick, d`nodes, d`log, h
    ensures RanSo(d, start, before, Immediate(calls + CallsFor(path, e, kvs)), more)
    ensures h.items == Enqueued(calls + CallsFor(path, e, kvs))
  {
    hide Prefix, KeywordOf, RanSo, HasFunc, IsDir, Enqueued, Immediate, Pushed, CallsFor;
    more := results;
    NoCalls(calls, path, e);
    for i := 0 to |kvs|
      invariant RanSo(d, start, before, Immediate(calls + CallsFor(path, e, kvs[..i])), more)
      invariant h.items == Enqueued(calls + CallsFor(path, e, kvs[..i]))
    {
      var kv := kvs[i];
      ghost var so := calls + CallsFor(path, e, kvs[..i]);
      NextCall(calls, path, e, kvs, i);
      if !HasFunc(Prefix(KeywordOf(kv))) {
        continue;
      }
      var call := PathUpdate(path, e, kv);
      if Prefix(KeywordOf(kv)) == "time" && IsDir(e) {
        h.Push(call);
        continue;
      }
      more := RunOne(d, call, more, start, before, Immediate(so));
    }
    assert kvs[..|kvs|] == kvs;
  }

  lemma NoCalls(calls: seq<PathUpdate>, path: Bytes, e: Entry)
    ensures calls + CallsFor(path, e, []) == calls
  {
    assert calls + [] == calls;
  }

  lemma {:induction false} NextCall(calls: seq<PathUpdate>, path: Bytes, e: Entry, kvs: seq<KeyVal>, i: nat)
    requires i < |kvs|
    ensures var call, so, next := PathUpdate(path, e, kvs[i]), calls + CallsFor(path, e, kvs[..i]), calls + CallsFor(path, e, kvs[..i + 1]);
      if !HasFunc(Prefix(KeywordOf(kvs[i]))) then next == so
      else
        && Immediate(next) == (if Waits(call) then Immediate(so) else Immediate(so) + [call])
        && Enqueued(next) == if Waits(call) then Pushed(Enqueued(so), call) else Enqueued(so)
  {
    hide Prefix, KeywordOf, HasFunc, IsDir, Waits;
    assert kvs[..i + 1][..i] == kvs[..i];
    var so := calls + CallsFor(path, e, kvs[..i]);
    var call := PathUpdate(path, e, kvs[i]);
    assert CallsFor(path, e, kvs[..i]) + [] == CallsFor(path, e, kvs[..i]);
    assert calls + (CallsFor(path, e, kvs[..i]) + [call]) == so + [call];
    assert (so + [call])[..|so|] == so;
    assert Immediate(so) + [] == Immediate(so);
  }

  /** Pops and runs what waits. */
  method UpdateWaiting(d: Disk, h: PathUpdateHeap, results: seq<PathUpdate>, ghost start: seq<Done>, ghost before: Nodes,
                     ghost calls: seq<PathUpdate>)
    returns (more: seq<PathUpdate>)
    requires RanSo(d, start, before, calls, results) && IsHeap(h.items) && AllFuncs(h.items)
    modifies d`tick, d`nodes, d`log, h
    ensures RanSo(d, start, before, calls + Drained(old(h.items)), more) && h.items == []
  {
    hide RanSo, IsHeap, AllFuncs, HasFunc, Key, Popped, Drained;
    more := results;
    ghost var done := calls;
    while h.items != []
      invariant RanSo(d, start, before, done, more) && IsHeap(h.items) && AllFuncs(h.items)
      invariant done + Drained(h.items) == calls + Drained(old(h.items))
      decreases |h.items|
    {
      PopKeepsHeap(h.items);
      FuncsKept(h.items);
      DrainedNext(done, h.items);
      var call := h.Pop();
      more := RunOne(d, call, more, start, before, done);
      done := done + [call];
    }
    DrainedEnd(done);
  }

  lemma DrainedNext(done: seq<PathUpdate>, h: Queue)
    requires h != []
    ensures done + Drained(h) == (done + [h[0]]) + Drained(Popped(h))
  {
    hide Popped;
    assert done + ([h[0]] + Drained(Popped(h))) == (done + [h[0]]) + Drained(Popped(h));
  }

  lemma DrainedEnd(done: seq<PathUpdate>)
    ensures done + Drained([]) == done
  {
    assert done + [] == done;
  }

  lemma {:induction false} FuncsKept(h: Queue)
    requires h != [] && AllFuncs(h) && multiset(Popped(h)) + multiset{h[0]} == multiset(h)
    ensures HasFunc(Key(h[0])) && AllFuncs(Popped(h))
  {
    hide HasFunc, Key, Popped;
    forall i | 0 <= i < |Popped(h)|
      ensures HasFunc(Key(Popped(h)[i]))
    {
      assert Popped(h)[i] in multiset(h);
    }
  }

  /** The run made the calls the manifest asks for, all without an error. */
  ghost predicate Ran(entries: seq<Entry>, keywords: seq<Keyword>, before: Nodes, run: seq<Done>, after: Nodes) {
    && Plan(entries, keywords).Ok? && CallsOf(run) == Schedule(Plan(entries, keywords).value)
    && Replayed(before, run) == Some(after)
  }

  /** The whole update.  It stops at a name that does not decode; otherwise it makes exactly the
      scheduled calls and reports exactly those that failed. */
  method UpdateAll(d: Disk, dh: DirectoryHierarchy, keywords: seq<Keyword>) returns (r: Result<seq<PathUpdate>, VisError>)
    modifies d`tick, d`nodes, d`log, dh
    ensures dh.entries == SortByPos(old(dh.entries))
    ensures match Plan(dh.entries, keywords)
      case Err(e) => r == Err(e)
      case Ok(plan) => r.Ok? && RanSo(d, old(d.log), old(d.nodes), Schedule(plan), r.value)
    ensures r == Ok([]) ==> Ran(dh.entries, keywords, old(d.nodes), d.log[|old(d.log)|..], d.nodes)
  {
    hide SortByPos, Plan, RanSo, IsHeap, Pushed, Drained, Selected, AllKeys, Path;
    dh.entries := SortByPos(dh.entries);
    var h := new PathUpdateHeap();
    var curSet: Option<Entry> := None;
    var results: seq<PathUpdate> := [];
    ghost var calls: seq<PathUpdate> := [];
    NothingPlanned(keywords);
    NothingRun(d);
    for i := 0 to |dh.entries|
      invariant dh.entries == SortByPos(old(dh.entries))
      invariant curSet == CurSet(dh.entries[..i])
      invariant Plan(dh.entries[..i], keywords) == Ok(calls)
      invariant RanSo(d, old(d.log), old(d.nodes), Immediate(calls), results) && h.items == Enqueued(calls)
    {
      var e := dh.entries[i];
      PlanSnoc(dh.entries, i, keywords);
      PlanFails(dh.entries, i + 1, keywords);
      if e.kind == SpecialType {
        if e.name == "/set" {
          curSet := Some(e);
        } else if e.name == "/unset" {
          curSet := None;
        }
      } else if e.kind == RelativeType || e.kind == FullType {
        e := e.(setLine := curSet);
        var path := Path(e);
        if path.Err? {
          return Err(path.error);
        }
        var kvToUpdate := KeyvalSelector(AllKeys(e), keywords);
        results := UpdateEntry(d, h, e, path.value, kvToUpdate, results, old(d.log), old(d.nodes), calls);
        calls := calls + CallsFor(path.value, e, kvToUpdate);
      }
    }
    assert dh.entries[..|dh.entries|] == dh.entries;
    EnqueuedIsHeap(calls);
    PlanFuncs(dh.entries, keywords);
    EnqueuedFuncs(calls);
    results := UpdateWaiting(d, h, results, old(d.log), old(d.nodes), Immediate(calls));
    if results == [] {
      Finished(d, old(d.log), old(d.nodes), Schedule(calls), results);
    }
    return Ok(results);
  }

  lemma NothingPlanned(keywords: seq<Keyword>)
    ensures Plan([], keywords) == Ok([])
  {
  }

  lemma NothingRun(d: Disk)
    ensures RanSo(d, d.log, d.nodes, [], [])
  {
    assert d.log[|d.log|..] == [];
  }

  lemma Finished(d: Disk, start: seq<Done>, before: Nodes, calls: seq<PathUpdate>, results: seq<PathUpdate>)
    requires RanSo(d, start, before, calls, results) && results == []
    ensures |start| <= |d.log| && CallsOf(d.log[|start|..]) == calls && Replayed(before, d.log[|start|..]) == Some(d.nodes)
  {
  }

  lemma PlanSnoc(entries: seq<Entry>, i: nat, keywords: seq<Keyword>)
    requires i < |entries|
    ensures CurSet(entries[..i + 1]) ==
      (if entries[i].kind == SpecialType && entries[i].name == "/set" then Some(entries[i])
       else if entries[i].kind == SpecialType && entries[i].name == "/unset" then None
       else CurSet(entries[..i]))
    ensures Plan(entries[..i], keywords).Ok? ==>
      var before, calls := Plan(entries[..i], keywords).value, CallsAt(Current(entries, i), keywords);
      Plan(entries[..i + 1], keywords) == match calls case Ok(c) => Ok(before + c) case Err(e) => Err(e)
    ensures Plan(entries[..i], keywords).Ok? && !IsNamed(entries[i]) ==> Plan(entries[..i + 1], keywords) == Plan(entries[..i], keywords)
  {
    hide CallsAt;
    assert entries[..i + 1][..i] == entries[..i];
    assert Current(entries[..i + 1], i) == Current(entries, i);
    if !IsNamed(entries[i]) {
      NotNamed(Current(entries, i), keywords);
    }
    if Plan(entries[..i], keywords).Ok? {
      assert Plan(entries[..i], keywords).value + [] == Plan(entries[..i], keywords).value;
    }
  }

  lemma NotNamed(e: Entry, keywords: seq<Keyword>)
    requires !IsNamed(e)
    ensures CallsAt(e, keywords) == Ok([])
  {
  }

  lemma {:induction false} PlanFails(entries: seq<Entry>, n: nat, keywords: seq<Keyword>)
    requires n <= |entries|
    ensures Plan(entries[..n], keywords).Err? ==> Plan(entries, keywords) == Plan(entries[..n], keywords)
    decreases |entries|
  {
    hide CallsAt;
    if n < |entries| {
      assert entries[..|entries| - 1][..n] == entries[..n];
      PlanFails(entries[..|entries| - 1], n, keywords);
    } else {
      assert entries[..n] == entries;
    }
  }

  lemma {:induction false} EnqueuedIsHeap(calls: seq<PathUpdate>)
    ensures IsHeap(Enqueued(calls)) && multiset(Enqueued(calls)) == multiset(Waiting(calls))
  {
    hide Waits, Pushed;
    if calls != [] {
      var before := calls[..|calls| - 1];
      EnqueuedIsHeap(before);
      PushKeepsHeap(Enqueued(before), calls[|calls| - 1]);
      assert Waiting(before) + [] == Waiting(before);
    }
  }

  lemma {:induction false} WaitingAre(calls: seq<PathUpdate>, x: PathUpdate)
    ensures x in Waiting(calls) <==> x in calls && Waits(x)
  {
    hide Waits;
    if calls != [] {
      WaitingAre(calls[..|calls| - 1], x);
      assert calls == calls[..|calls| - 1] + [calls[|calls| - 1]];
    }
  }

  lemma {:induction false} EnqueuedFuncs(calls: seq<PathUpdate>)
    requires AllFuncs(calls)
    ensures AllFuncs(Enqueued(calls))
  {
    hide HasFunc, Key, Waits;
    EnqueuedIsHeap(calls);
    forall i | 0 <= i < |Enqueued(calls)|
      ensures HasFunc(Key(Enqueued(calls)[i]))
    {
      var x := Enqueued(calls)[i];
      assert x in multiset(Enqueued(calls));
      assert x in Waiting(calls);
      WaitingAre(calls, x);
      var k :| 0 <= k < |calls| && calls[k] == x;
    }
  }

  lemma {:induction false} CallsForAre(path: Bytes, e: Entry, kvs: seq<KeyVal>, x: PathUpdate)
    ensures x in CallsFor(path, e, kvs) <==> x.path == path && x.entry == e && x.kv in kvs && HasFunc(Key(x))
  {
    hide HasFunc, Prefix, KeywordOf;
    if kvs != [] {
      CallsForAre(path, e, kvs[..|kvs| - 1], x);
      assert kvs == kvs[..|kvs| - 1] + [kvs[|kvs| - 1]];
    }
  }

  lemma {:induction false} PlanFuncs(entries: seq<Entry>, keywords: seq<Keyword>)
    requires Plan(entries, keywords).Ok?
    ensures AllFuncs(Plan(entries, keywords).value)
  {
    hide HasFunc, Key, Selected, AllKeys, Path;
    if entries != [] {
      var n := |entries| - 1;
      PlanFuncs(entries[..n], keywords);
      var e := Current(entries, n);
      var calls := CallsAt(e, keywords).value;
      forall i | 0 <= i < |calls|
        ensures HasFunc(Key(calls[i]))
      {
        CallsForAre(Path(e).value, e, Selected(AllKeys(e), keywords), calls[i]);
      }
    }
  }
}
