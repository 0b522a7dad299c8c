/** A manifest as a list of statements, and what the statements mean: an explicit stack of open
    directories and the /set line in force give every entry its parent and its set.  Walk, ParseSpec
    and mutate are all proved against this one reading. */
module Manifest {
  import opened GoBytes
  import opened Keywords
  import opened Entries

  datatype Item =
    | Signature(raw: Bytes)
    | Blank
    | Comment(raw: Bytes)
    | Special(name: Bytes, keywords: seq<KeyVal>)
    | DotDot(raw: Bytes)
    | Named(full: bool, name: Bytes, keywords: seq<KeyVal>, isDir: bool)
  {
    /** The statement opens a directory for those that follow. */
    predicate Opens() {
      Named? && !full && isDir
    }
  }

  datatype Cursor = Cursor(entries: seq<Entry>, stack: seq<Entry>, setLine: Option<Entry>)

  const START := Cursor([], [], None)

  function Top(stack: seq<Entry>): Option<Entry> {
    if stack == [] then None else Some(stack[|stack| - 1])
  }

  function Pop(stack: seq<Entry>): seq<Entry> {
    if stack == [] then [] else stack[..|stack| - 1]
  }

  /** The key-values of the set in force. */
  function SetKeyVals(curSet: Option<Entry>): Option<seq<KeyVal>> {
    match curSet case Some(e) => Some(e.keywords) case None => None
  }

  /** The entry a statement becomes at a cursor. */
  function EntryAt(c: Cursor, item: Item): Entry {
    var pos := |c.entries|;
    match item
    case Signature(raw) => Entry(None, None, pos, raw, "", [], SignatureType)
    case Blank => Entry(None, None, pos, "", "", [], BlankType)
    case Comment(raw) => Entry(None, None, pos, raw, "", [], CommentType)
    case Special(name, keywords) => Entry(None, None, pos, "", name, keywords, SpecialType)
    case DotDot(raw) => Entry(Top(c.stack), None, pos, raw, "", [], DotDotType)
    case Named(full, name, keywords, _) =>
      Entry(if full then None else Top(c.stack), c.setLine, pos, "", name, keywords,
            if full then FullType else RelativeType)
  }

  function Place(c: Cursor, item: Item): Cursor {
    var e := EntryAt(c, item);
    Cursor(c.entries + [e],
           if item.DotDot? then Pop(c.stack) else if item.Opens() then c.stack + [e] else c.stack,
           if item.Special? && item.name == "/set" then Some(e)
           else if item.Special? && item.name == "/unset" then None
           else c.setLine)
  }

  function LinkFrom(c: Cursor, items: seq<Item>): Cursor
    decreases items
  {
    if items == [] then c else LinkFrom(Place(c, items[0]), items[1..])
  }

  function Link(items: seq<Item>): Cursor {
    LinkFrom(START, items)
  }

  lemma {:induction false} LinkConcat(c: Cursor, a: seq<Item>, b: seq<Item>)
    ensures LinkFrom(c, a + b) == LinkFrom(LinkFrom(c, a), b)
    ensures |LinkFrom(c, a).entries| == |c.entries| + |a|
    ensures LinkFrom(c, a).entries[..|c.entries|] == c.entries
    decreases a
  {
    if a == [] {
      assert a + b == b;
    } else {
      assert (a + b)[1..] == a[1..] + b;
      var next := Place(c, a[0]);
      LinkConcat(next, a[1..], b);
      assert LinkFrom(c, a).entries[..|c.entries|] == LinkFrom(c, a).entries[..|next.entries|][..|c.entries|];
    }
  }

  lemma LinkSnoc(items: seq<Item>, item: Item)
    ensures Link(items + [item]) == Place(Link(items), item)
    ensures |Link(items).entries| == |items|
  {
    LinkConcat(START, items, [item]);
    assert LinkFrom(Link(items), [item]) == LinkFrom(Place(Link(items), item), [item][1..]);
  }

  /** The entry at i is the one its statement becomes after those before it. */
  lemma LinkAt(items: seq<Item>, i: nat)
    requires i < |items|
    ensures |Link(items).entries| == |items|
    ensures Link(items).entries[i] == EntryAt(Link(items[..i]), items[i])
    ensures |Link(items[..i]).entries| == i
  {
    assert items == items[..i] + items[i..] && items[i..] == [items[i]] + items[i + 1..];
    LinkConcat(START, items[..i], items[i..]);
    LinkConcat(START, items, []);
    LinkConcat(Place(Link(items[..i]), items[i]), items[i + 1..], []);
    assert items[i..][1..] == items[i + 1..];
  }

  // ---------- what linking gives ----------

  /** The latest /set with no /set or /unset after it, among the first n statements. */
  function SetInForce(items: seq<Item>): Option<nat> {
    if items == [] then None
    else
      var n := |items| - 1;
      if items[n].Special? && items[n].name == "/set" then Some(n)
      else if items[n].Special? && items[n].name == "/unset" then None
      else SetInForce(items[..n])
  }

  lemma NothingLinked()
    ensures Link([]) == START
  {
  }

  lemma {:induction false} SetIsInForce(items: seq<Item>)
    ensures |Link(items).entries| == |items|
    ensures match SetInForce(items)
      case None => Link(items).setLine == None
      case Some(j) => j < |items| && Link(items).setLine == Some(Link(items).entries[j])
  {
    hide LinkFrom;
    LinkConcat(START, items, []);
    if items == [] {
      NothingLinked();
    } else {
      var n := |items| - 1;
      assert items == items[..n] + [items[n]];
      LinkSnoc(items[..n], items[n]);
      SetIsInForce(items[..n]);
    }
  }

  /** How many directories are open after the statements; an unmatched ".." closes none. */
  function Height(items: seq<Item>): nat {
    if items == [] then 0
    else
      var h := Height(items[..|items| - 1]);
      var last := items[|items| - 1];
      if last.DotDot? then (if h == 0 then 0 else h - 1) else if last.Opens() then h + 1 else h
  }

  /** Statement j opens a directory that is still open after the first i statements. */
  predicate Encloses(items: seq<Item>, j: nat, i: nat) {
    && j < i <= |items| && items[j].Opens()
    && forall k :: j < k <= i ==> Height(items[..k]) > Height(items[..j])
  }

  /** e is the entry of a directory still open after the statements, with d others around it. */
  predicate OpenAt(items: seq<Item>, e: Entry, d: nat) {
    && |Link(items).entries| == |items|
    && e.pos < |items| && Link(items).entries[e.pos] == e
    && Encloses(items, e.pos, |items|) && Height(items[..e.pos]) == d
  }

  lemma StackSnoc(before: seq<Item>, item: Item)
    ensures var c, e, next := Link(before), EntryAt(Link(before), item), Link(before + [item]);
      && |c.entries| == |before| && e.pos == |before|
      && next.entries == c.entries + [e]
      && next.stack == (if item.DotDot? then Pop(c.stack) else if item.Opens() then c.stack + [e] else c.stack)
      && (item.Opens() ==> e.parent == Top(c.stack))
  {
    LinkSnoc(before, item);
  }

  /** A directory that a statement opens is open after it. */
  lemma {:induction false} NowOpen(before: seq<Item>, item: Item)
    requires item.Opens() && |Link(before).stack| == Height(before)
    ensures OpenAt(before + [item], EntryAt(Link(before), item), Height(before))
  {
    hide Link, EntryAt;
    var items := before + [item];
    StackSnoc(before, item);
    assert items[..|before|] == before;
    assert Height(items) == Height(before) + 1;
    assert forall k :: |before| < k <= |items| ==> items[..k] == items;
  }

  /** The stack holds, outermost first, exactly the directories that are still open. */
  lemma {:induction false} StackIsOpen(items: seq<Item>, d: nat)
    requires d < |Link(items).stack|
    ensures OpenAt(items, Link(items).stack[d], d)
    ensures Link(items).stack[d].parent == (if d == 0 then None else Some(Link(items).stack[d - 1]))
  {
    hide Link, EntryAt, LinkFrom;
    if items == [] {
      NothingLinked();
    } else {
      var n := |items| - 1;
      var before, item := items[..n], items[n];
      assert items == before + [item];
      StackSnoc(before, item);
      StackHeight(items);
      StackHeight(before);
      if d < |Link(before).stack| {
        StackIsOpen(before, d);
        StillOpen(before, item, Link(items).stack[d].pos);
      } else {
        hide OpenAt, Height;
        NowOpen(before, item);
      }
    }
  }

  /** A directory open before a statement is open after it while the height stays above its own. */
  lemma {:induction false} StillOpen(before: seq<Item>, item: Item, j: nat)
    requires Encloses(before, j, |before|) && Height(before + [item]) > Height(before[..j])
    ensures Encloses(before + [item], j, |before| + 1)
    ensures Height((before + [item])[..j]) == Height(before[..j])
  {
    var items := before + [item];
    assert items[..j] == before[..j];
    forall k | j < k <= |items|
      ensures Height(items[..k]) > Height(items[..j])
    {
      if k <= |before| {
        assert items[..k] == before[..k];
      } else {
        assert items[..k] == items;
      }
    }
  }

  lemma {:induction false} StackHeight(items: seq<Item>)
    ensures |Link(items).stack| == Height(items)
  {
    if items != [] {
      var n := |items| - 1;
      assert items == items[..n] + [items[n]];
      LinkSnoc(items[..n], items[n]);
      StackHeight(items[..n]);
    }
  }

  /** The innermost open directory is unique: later openers enclose at greater heights. */
  predicate Innermost(items: seq<Item>, j: nat, i: nat) {
    Encloses(items, j, i) && Height(items[..j]) + 1 == Height(items[..i])
  }

  lemma InnermostUnique(items: seq<Item>, j: nat, k: nat, i: nat)
    requires Innermost(items, j, i) && Innermost(items, k, i)
    ensures j == k
  {
  }

  /** Entries placed early stay where they are. */
  lemma EntriesKept(items: seq<Item>, i: nat)
    requires i <= |items|
    ensures |Link(items).entries| == |items| && |Link(items[..i]).entries| == i
    ensures Link(items).entries[..i] == Link(items[..i]).entries
  {
    assert items == items[..i] + items[i..];
    LinkConcat(START, items[..i], items[i..]);
    LinkConcat(Link(items[..i]), items[i..], []);
    LinkConcat(START, items, []);
  }

  lemma EnclosesPrefix(items: seq<Item>, i: nat, j: nat)
    requires i <= |items| && Encloses(items[..i], j, i)
    ensures Encloses(items, j, i) && Height(items[..j]) == Height(items[..i][..j])
  {
    assert items[..j] == items[..i][..j];
    forall k | j < k <= i
      ensures Height(items[..k]) > Height(items[..j])
    {
      assert items[..k] == items[..i][..k];
    }
  }

  /** The parent of a relative entry or of a "..": none at the top, otherwise the innermost
      directory still open at its line, which is earlier in the manifest. */
  lemma ParentIsInnermost(items: seq<Item>, i: nat)
    requires i < |items| && ((items[i].Named? && !items[i].full) || items[i].DotDot?)
    ensures |Link(items).entries| == |items| && Link(items).entries[i].pos == i
    ensures match Link(items).entries[i].parent
      case None => Height(items[..i]) == 0
      case Some(p) =>
        && p.pos < i && Link(items).entries[p.pos] == p
        && forall j: nat :: Innermost(items, j, i) <==> j == p.pos
  {
    LinkAt(items, i);
    EntriesKept(items, i);
    StackHeight(items[..i]);
    var stack := Link(items[..i]).stack;
    if stack != [] {
      var d := |stack| - 1;
      StackIsOpen(items[..i], d);
      EnclosesPrefix(items, i, stack[d].pos);
      assert Link(items).entries[stack[d].pos] == Link(items).entries[..i][stack[d].pos];
      forall j: nat | Innermost(items, j, i)
        ensures j == stack[d].pos
      {
        InnermostUnique(items, j, stack[d].pos, i);
      }
    }
  }

  /** The set of an entry is the latest /set line before it, unless an /unset came after that. */
  lemma SetIsLatest(items: seq<Item>, i: nat)
    requires i < |items| && items[i].Named?
    ensures |Link(items).entries| == |items|
    ensures match SetInForce(items[..i])
      case None => Link(items).entries[i].setLine == None
      case Some(j) => j < i && Link(items).entries[i].setLine == Some(Link(items).entries[j])
  {
    LinkAt(items, i);
    EntriesKept(items, i);
    SetIsInForce(items[..i]);
    match SetInForce(items[..i])
    case None =>
    case Some(j) => assert Link(items).entries[j] == Link(items).entries[..i][j];
  }

  /** Following parents always goes up the manifest, so every path is found in finitely many steps. */
  lemma {:induction false} ParentsBefore(items: seq<Item>, i: nat)
    requires i < |items|
    ensures |Link(items).entries| == |items| && Link(items).entries[i].pos == i
    ensures Link(items).entries[i].parent.Some? ==> Link(items).entries[i].parent.value.pos < i
  {
    LinkAt(items, i);
    if (items[i].Named? && !items[i].full) || items[i].DotDot? {
      ParentIsInnermost(items, i);
    }
  }

  // ---------- the pointer cursor ----------

  /** The directories from the top down to d, found by following Parent. */
  function Chain(d: Option<Entry>): seq<Entry> {
    match d case None => [] case Some(e) => Chain(e.parent) + [e]
  }

  /** A curDir and a curSet stand for the stack and the set in force after the statements. */
  predicate Tracks(items: seq<Item>, curDir: Option<Entry>, curSet: Option<Entry>) {
    && Link(items).stack == Chain(curDir)
    && Link(items).setLine == curSet
  }

  lemma TracksStart()
    ensures Link([]).entries == [] && Tracks([], None, None)
  {
  }

  /** dhCreator: the entries so far, the directory that is open and the set in force. */
  class Creator {
    var entries: seq<Entry>
    var curSet: Option<Entry>
    var curDir: Option<Entry>

    constructor ()
      ensures entries == [] && curSet == None && curDir == None
    {
      entries, curSet, curDir := [], None, None;
    }
  }

  /** The open directory after a statement and its entry, by following Parent. */
  function NextOpen(e: Entry, item: Item, dir: Option<Entry>): Option<Entry> {
    if item.DotDot? then (if dir.None? then None else dir.value.parent)
    else if item.Opens() then Some(e) else dir
  }

  /** No statement has a full path. */
  predicate AllRelative(items: seq<Item>) {
    forall i :: 0 <= i < |items| ==> !(items[i].Named? && items[i].full)
  }

  /** Placing a statement with the pointer cursor: the parent is curDir, and what curDir and curSet become. */
  lemma TracksNext(items: seq<Item>, curDir: Option<Entry>, curSet: Option<Entry>, item: Item)
    requires Tracks(items, curDir, curSet)
    ensures Top(Link(items).stack) == curDir && Link(items).setLine == curSet
    ensures |Link(items).entries| == |items|
    ensures var e := EntryAt(Link(items), item);
      && Link(items + [item]).entries == Link(items).entries + [e]
      && Tracks(items + [item],
           NextOpen(e, item, curDir),
           if item.Special? && item.name == "/set" then Some(e)
           else if item.Special? && item.name == "/unset" then None
           else curSet)
  {
    LinkSnoc(items, item);
    if curDir.Some? {
      assert Chain(curDir)[..|Chain(curDir)| - 1] == Chain(curDir.value.parent);
    }
  }
}
