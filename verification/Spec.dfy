/** The text of a manifest: ParseSpec reads it, WriteTo prints it. */
module Spec {
  import opened GoBytes
  import opened GoStrings
  import opened Keywords
  import opened Entries
  import opened Manifest
  import Paths

  /** ParseSpec indexes the first field of a joined line without checking that there is one. */
  datatype ParseError = IndexOutOfRange

  // ---------- lines ----------

  function DropCR(line: Bytes): Bytes {
    if line != [] && line[|line| - 1] == '\r' then line[..|line| - 1] else line
  }

  /** bufio.ScanLines: lines end in "\n" or "\r\n", and only a non-empty last line needs no end. */
  function ScanLines(text: Bytes): seq<Bytes>
    decreases |text|
  {
    if text == [] then []
    else if '\n' !in text then [DropCR(text)]
    else [DropCR(Before(text, '\n'))] + ScanRest(text)
  }

  function ScanRest(text: Bytes): seq<Bytes>
    requires '\n' in text
    decreases |text|, 0
  {
    AfterShorter(text);
    ScanLines(After(text, '\n'))
  }

  lemma AfterShorter(text: Bytes)
    requires '\n' in text
    ensures |After(text, '\n')| < |text|
  {
    BeforeAfter(text, '\n');
  }

  /** A line the scanner gives back as it is. */
  predicate IsLine(line: Bytes) {
    '\n' !in line && (line == [] || line[|line| - 1] != '\r')
  }

  function Text(lines: seq<Bytes>): Bytes {
    if lines == [] then [] else lines[0] + ['\n'] + Text(lines[1..])
  }

  lemma {:induction false} ScanText(lines: seq<Bytes>)
    requires forall i :: 0 <= i < |lines| ==> IsLine(lines[i])
    ensures ScanLines(Text(lines)) == lines
  {
    if lines != [] {
      var rest := Text(lines[1..]);
      CutAt(lines[0], rest, '\n');
      assert Text(lines)[|lines[0]|] == '\n';
      ScanText(lines[1..]);
    }
  }

  // ---------- reading ----------

  function TrimBlanks(s: Bytes): Bytes {
    if s != [] && (s[0] == ' ' || s[0] == '\t') then TrimBlanks(s[1..]) else s
  }

  /** Joins a line ending in a backslash with the next, again and again; past the end lines are empty. */
  function Unfold(str: Bytes, rest: seq<Bytes>): (r: (Bytes, seq<Bytes>))
    ensures |r.1| <= |rest|
    decreases |rest|, |str|
  {
    if !HasSuffix(str, "\\") then (str, rest)
    else if rest == [] then Unfold(str[..|str| - 1], [])
    else Unfold(str[..|str| - 1] + rest[0], rest[1..])
  }

  /** The last "type" among an entry's own keywords says whether it opens a directory. */
  predicate SaysDir(kvs: seq<KeyVal>) {
    var t := Lookup(kvs, "type");
    t.Some? && ValueOf(t.value) == "dir"
  }

  datatype Reading =
    | Skipped(rest: seq<Bytes>)
    | Crash
    | Read(item: Item, rest: seq<Bytes>)

  function NamedItem(name: Bytes, keywords: seq<KeyVal>): Item {
    Named('/' in name, Paths.Clean(name), keywords, SaysDir(keywords))
  }

  /** One pass of the scanner loop. */
  function ReadOne(lines: seq<Bytes>): (r: Reading)
    requires lines != []
    ensures !r.Crash? ==> |r.rest| < |lines|
  {
    var str, rest := lines[0], lines[1..];
    var trimmed := TrimBlanks(str);
    if HasPrefix(trimmed, "#") then
      Read(if HasPrefix(trimmed, "#mtree") then Signature(str) else Comment(str), rest)
    else if str == "" then Read(Blank, rest)
    else if HasPrefix(str, "/") then
      var (joined, more) := Unfold(str, rest);
      var f := Fields(joined);
      if f == [] then Crash else Read(Special(f[0], f[1..]), more)
    else if Fields(str) != [] && Fields(str)[0] == ".." then Read(DotDot(str), rest)
    else if Fields(str) != [] then
      var (joined, more) := Unfold(str, rest);
      var f := Fields(joined);
      if f == [] then Crash else Read(NamedItem(f[0], f[1..]), more)
    else Skipped(rest)
  }

  function Statements(lines: seq<Bytes>): Result<seq<Item>, ParseError>
    decreases |lines|
  {
    if lines == [] then Ok([])
    else
      match ReadOne(lines)
      case Skipped(rest) => Statements(rest)
      case Crash => Err(IndexOutOfRange)
      case Read(item, rest) => Prepend([item], Statements(rest))
  }

  function Prepend(items: seq<Item>, r: Result<seq<Item>, ParseError>): Result<seq<Item>, ParseError> {
    match r case Ok(more) => Ok(items + more) case Err(_) => r
  }

  lemma PrependTwice(a: seq<Item>, b: seq<Item>, r: Result<seq<Item>, ParseError>)
    ensures Prepend(a, Prepend(b, r)) == Prepend(a + b, r)
    ensures Prepend([], r) == r
  {
    if r.Ok? {
      assert a + (b + r.value) == (a + b) + r.value;
      assert [] + r.value == r.value;
    }
  }

  /** What ParseSpec answers: its statements, linked. */
  function Parse(text: Bytes): Result<seq<Entry>, ParseError> {
    var items :- Statements(ScanLines(text));
    Ok(Link(items).entries)
  }

  class Scanner {
    var lines: seq<Bytes>
    var next: nat
    var text: Bytes

    constructor (input: Bytes)
      ensures lines == ScanLines(input) && next == 0 && text == ""
    {
      lines, next, text := ScanLines(input), 0, "";
    }

    ghost predicate Valid()
      reads this
    {
      next <= |lines|
    }

    ghost function Pending(): seq<Bytes>
      reads this
      requires Valid()
    {
      lines[next..]
    }

    /** Advances to the next line; past the last one the text is empty. */
    method Scan() returns (ok: bool)
      requires Valid()
      modifies this
      ensures Valid() && lines == old(lines) && ok == (old(Pending()) != [])
      ensures ok ==> text == old(Pending())[0] && Pending() == old(Pending())[1..]
      ensures !ok ==> text == "" && Pending() == []
    {
      ok := next < |lines|;
      if ok {
        text := lines[next];
        next := next + 1;
      } else {
        text := "";
      }
    }

    /** Collapses escaped newlines. */
    method Collapse(line: Bytes) returns (str: Bytes)
      requires Valid()
      modifies this
      ensures Valid() && lines == old(lines)
      ensures (str, Pending()) == Unfold(line, old(Pending()))
    {
      str := line;
      while HasSuffix(str, "\\")
        invariant Valid() && lines == old(lines)
        invariant Unfold(str, Pending()) == Unfold(line, old(Pending()))
        decreases |lines| - next, |str|
      {
        ghost var pending := Pending();
        str := str[..|str| - 1];
        var ok := Scan();
        assert pending == [] ==> str + text == str;
        str := str + text;
      }
    }
  }

  method ParseSpec(input: Bytes) returns (r: Result<seq<Entry>, ParseError>)
    ensures r == Parse(input)
  {
    hide Link, ReadOne, Tracks, Statements, ScanLines;
    var s := new Scanner(input);
    var creator := new Creator();
    ghost var items: seq<Item> := [];
    PrependTwice([], [], Statements(s.lines));
    assert s.Pending() == s.lines;
    TracksStart();
    while true
      invariant s.Valid() && s.lines == ScanLines(input)
      invariant Statements(s.lines) == Prepend(items, Statements(s.Pending()))
      invariant creator.entries == Link(items).entries && Tracks(items, creator.curDir, creator.curSet)
      decreases |s.Pending()|
    {
      ghost var pending := s.Pending();
      var ok := s.Scan();
      if !ok {
        break;
      }
      ghost var read;
      ok, read := ParseLine(s, creator, items, pending);
      StatementsStep(pending, items);
      if !ok {
        return Err(IndexOutOfRange);
      }
      if read.Read? {
        items := items + [read.item];
      }
    }
    StatementsEnd(items);
    return Ok(creator.entries);
  }

  lemma {:induction false} StatementsStep(pending: seq<Bytes>, items: seq<Item>)
    requires pending != []
    ensures match ReadOne(pending)
      case Skipped(rest) => Statements(pending) == Statements(rest)
      case Crash => Statements(pending) == Err(IndexOutOfRange)
      case Read(item, rest) => Prepend(items, Statements(pending)) == Prepend(items + [item], Statements(rest))
  {
    if ReadOne(pending).Read? {
      PrependTwice(items, [ReadOne(pending).item], Statements(ReadOne(pending).rest));
    }
  }

  lemma StatementsEnd(items: seq<Item>)
    ensures Prepend(items, Statements([])) == Ok(items)
  {
    assert items + [] == items;
  }

  /** The body of the scanner loop; it fails where the source would index past the last field. */
  method ParseLine(s: Scanner, creator: Creator, ghost items: seq<Item>, ghost pending: seq<Bytes>)
    returns (ok: bool, ghost read: Reading)
    requires s.Valid() && pending != [] && s.text == pending[0] && s.Pending() == pending[1..]
    requires creator.entries == Link(items).entries && Tracks(items, creator.curDir, creator.curSet)
    modifies s, creator
    ensures s.Valid() && s.lines == old(s.lines)
    ensures read == ReadOne(pending) && ok == !read.Crash?
    ensures ok ==> s.Pending() == read.rest
    ensures ok ==> var now := if read.Read? then items + [read.item] else items;
      creator.entries == Link(now).entries && Tracks(now, creator.curDir, creator.curSet)
  {
    hide Link, Tracks, Unfold, Fields, SaysDir, Paths.Clean, TrimBlanks;
    var str := s.text;
    var trimmed := TrimBlanks(str);
    var i := |creator.entries|;
    var e := Entry(None, None, i, "", "", [], BlankType);
    ghost var dir, inForce := creator.curDir, creator.curSet;
    ok := true;
    if HasPrefix(trimmed, "#") {
      e := e.(raw := str, kind := if HasPrefix(trimmed, "#mtree") then SignatureType else CommentType);
      read := Read(if HasPrefix(trimmed, "#mtree") then Signature(str) else Comment(str), s.Pending());
    } else if str == "" {
      e := e.(kind := BlankType);
      read := Read(Blank, s.Pending());
    } else if HasPrefix(str, "/") {
      str := s.Collapse(str);
      var f := Fields(str);
      if f == [] {
        return false, Crash;
      }
      e := e.(kind := SpecialType, name := f[0], keywords := f[1..]);
      read := Read(Special(f[0], f[1..]), s.Pending());
      if e.name == "/set" {
        creator.curSet := Some(e);
      } else if e.name == "/unset" {
        creator.curSet := None;
      }
    } else if Fields(str) != [] && Fields(str)[0] == ".." {
      e := e.(kind := DotDotType, raw := str);
      read := Read(DotDot(str), s.Pending());
      if creator.curDir.Some? {
        e := e.(parent := creator.curDir);
        creator.curDir := creator.curDir.value.parent;
      }
    } else if Fields(str) != [] {
      str := s.Collapse(str);
      var f := Fields(str);
      if f == [] {
        return false, Crash;
      }
      e := e.(name := f[0], keywords := f[1..]);
      read := Read(NamedItem(f[0], f[1..]), s.Pending());
      var isDir := LastTypeIsDir(e.keywords);
      if '/' in e.name {
        e := e.(kind := FullType);
      } else {
        e := e.(kind := RelativeType, parent := creator.curDir);
      }
      e := e.(setLine := creator.curSet, name := Paths.Clean(e.name));
      if e.kind == RelativeType && isDir {
        creator.curDir := Some(e);
      }
    } else {
      return true, Skipped(s.Pending());
    }
    TracksNext(items, dir, inForce, read.item);
    assert e == EntryAt(Link(items), read.item);
    creator.entries := creator.entries + [e];
  }

  /** The loop over the keywords of a parsed line. */
  method LastTypeIsDir(kvs: seq<KeyVal>) returns (isDir: bool)
    ensures isDir == SaysDir(kvs)
  {
    hide KeywordOf, ValueOf;
    isDir := false;
    for i := 0 to |kvs|
      invariant isDir == SaysDir(kvs[..i])
    {
      assert kvs[..i + 1] == kvs[..i] + [kvs[i]];
      LookupSnoc(kvs[..i], kvs[i], "type");
      if KeywordOf(kvs[i]) == "type" {
        isDir := ValueOf(kvs[i]) == "dir";
      }
    }
    assert kvs[..|kvs|] == kvs;
  }
}
