/** Exactly which manifests survive being printed and parsed. */
module PrintingLaws {
  import opened GoBytes
  import opened GoStrings
  import opened Keywords
  import opened Entries
  import opened Manifest
  import opened Spec
  import opened Printing
  import Paths
  import SpecLaws

  // ---------- bytes that are no white space ----------

  function Ink(s: Bytes): nat {
    if s == [] then 0
    else if SpaceLength(s) > 0 then Ink(s[SpaceLength(s)..])
    else 1 + Ink(s[1..])
  }

  function Size(words: seq<Bytes>): nat {
    if words == [] then 0 else |words[0]| + Size(words[1..])
  }

  lemma {:induction false} InkOfWord(s: Bytes)
    ensures Ink(s) == WordLength(s) + Ink(s[WordLength(s)..])
    decreases |s|
  {
    hide SpaceLength;
    if s != [] && SpaceLength(s) == 0 {
      InkOfWord(s[1..]);
      assert s[WordLength(s)..] == s[1..][WordLength(s[1..])..];
    } else {
      assert s[0..] == s;
    }
  }

  /** Cutting into fields loses white space only. */
  lemma {:induction false} FieldsKeepInk(s: Bytes)
    ensures Size(Fields(s)) == Ink(s)
    decreases |s|
  {
    hide SpaceLength;
    if s != [] && SpaceLength(s) > 0 {
      FieldsKeepInk(s[SpaceLength(s)..]);
    } else if s != [] {
      var n := WordLength(s);
      InkOfWord(s);
      FieldsKeepInk(s[n..]);
      assert ([s[..n]] + Fields(s[n..]))[1..] == Fields(s[n..]);
    }
  }

  /** A last byte that is ASCII and no white space counts, and completes no character. */
  lemma {:induction false} InkSnoc(s: Bytes, c: Byte)
    requires c as int < 128 && !IsSpace(c)
    ensures Ink(s + [c]) == Ink(s) + 1
    decreases |s|
  {
    var t := s + [c];
    if s == [] {
      assert t[1..] == [];
    } else {
      SpaceBefore(s, c, []);
      assert t + [] == t;
      var n := if SpaceLength(s) > 0 then SpaceLength(s) else 1;
      hide SpaceLength;
      assert t[n..] == s[n..] + [c];
      InkSnoc(s[n..], c);
    }
  }

  lemma LastInk(str: Bytes)
    requires HasSuffix(str, "\\")
    ensures Ink(str) == Ink(str[..|str| - 1]) + 1
  {
    var n := |str| - 1;
    assert str == str[..n] + [str[n]] && str[n] == str[n..][0];
    InkSnoc(str[..n], str[n]);
  }

  /** Past the end of the text, folding takes backslashes off the end, and stops at a blank. */
  lemma {:induction false} UnfoldSheds(head: Bytes, tail: Bytes) returns (t: Bytes)
    requires head != [] && head[|head| - 1] == ' '
    ensures Unfold(head + tail, []).0 == head + t
    ensures Ink(t) <= Ink(tail) && (HasSuffix(tail, "\\") ==> Ink(t) < Ink(tail))
    decreases |tail|
  {
    var str := head + tail;
    if HasSuffix(tail, "\\") {
      assert str[|str| - 1] == tail[|tail| - 1];
      assert str[..|str| - 1] == head + tail[..|tail| - 1];
      LastInk(tail);
      t := UnfoldSheds(head, tail[..|tail| - 1]);
    } else {
      t := tail;
      assert str[|str| - 1..] == [str[|str| - 1]];
      assert tail != [] ==> tail[|tail| - 1..] == [tail[|tail| - 1]];
    }
  }

  lemma LineEnd(indent: Bytes, name: Bytes, keywords: seq<KeyVal>)
    requires AllWords(keywords) && !EndsLine(keywords)
    ensures var tail := Join(keywords, ' '); HasSuffix(tail, "\\") && HasSuffix(indent + Body(name, keywords), "\\")
  {
    JoinEnd(keywords);
    var tail, line := Join(keywords, ' '), indent + Body(name, keywords);
    assert line[|line| - 1] == tail[|tail| - 1];
  }

  /** A line that ends in a backslash takes the next line with it, or, past the end, loses key-values. */
  lemma {:induction false} FoldLoses(indent: Bytes, name: Bytes, keywords: seq<KeyVal>, rest: seq<Bytes>)
    requires IsWord(name) && AllWords(keywords) && !EndsLine(keywords) && (indent == "" || indent == "    ")
    ensures var (joined, more) := Unfold(indent + Body(name, keywords), rest);
      more == rest ==> Fields(joined) != [] && Fields(joined)[1..] != keywords
  {
    hide Fields, Ink, Size, HasSuffix, Join, EndsLine;
    var line, tail := indent + Body(name, keywords), Join(keywords, ' ');
    LineEnd(indent, name, keywords);
    if rest == [] {
      var head := indent + (name + [' ']);
      assert line == head + tail;
      var t := UnfoldSheds(head, tail);
      assert head + t == indent + (name + [' '] + t);
      Indented(name + [' '] + t);
      assert indent == "" ==> head + t == name + [' '] + t;
      FieldsOfWordThen(name, t);
      FieldsOfJoin(keywords);
      FieldsKeepInk(t);
      FieldsKeepInk(tail);
      assert ([name] + Fields(t))[1..] == Fields(t);
    } else {
      assert |Unfold(line[..|line| - 1] + rest[0], rest[1..]).1| <= |rest[1..]|;
    }
  }

  // ---------- one line ----------

  /** What a named or special statement read from one line says of the line. */
  lemma {:induction false} ReadWords(line: Bytes, rest: seq<Bytes>, read: Item)
    requires ReadOne([line] + rest) == Read(read, rest) && (read.Named? || read.Special?)
    ensures var (joined, more) := Unfold(line, rest);
      && more == rest && Fields(joined) != [] && Fields(joined)[1..] == read.keywords
      && !HasPrefix(TrimBlanks(line), "#") && (read.Named? && Fields(line) != [] ==> Fields(line)[0] != "..")
  {
    hide Fields, Unfold, SaysDir, Paths.Clean, TrimBlanks, HasPrefix;
    assert ([line] + rest)[0] == line && ([line] + rest)[1..] == rest;
  }

  lemma {:induction false} ReadRaw(line: Bytes, rest: seq<Bytes>, read: Item)
    requires ReadOne([line] + rest) == Read(read, rest) && (read.Signature? || read.Comment? || read.DotDot?)
    ensures read.raw == line
  {
    hide Fields, Unfold, SaysDir, Paths.Clean, TrimBlanks, HasPrefix;
    assert ([line] + rest)[0] == line && ([line] + rest)[1..] == rest;
  }

  lemma LineIs(e: Entry, item: Item) returns (indent: Bytes)
    requires Prints(e, item) && (item.Named? || item.Special?)
    ensures (indent == "" || indent == "    ") && Line(e) == indent + Body(item.name, item.keywords)
  {
    hide Join;
    var body := Body(item.name, item.keywords);
    assert "" + body == body;
    indent := if Line(e) == body then "" else "    ";
  }

  lemma IndentKeeps(indent: Bytes, body: Bytes)
    requires body != [] && !IsSpace(body[0]) && body[|body| - 1] != '\r' && '\n' !in body
    requires indent == "" || indent == "    "
    ensures var line := indent + body;
      && DropCR(line) == line && '\n' !in line && Fields(line) == Fields(body)
      && TrimBlanks(line) == body
  {
    NoTrim(body);
    var line := indent + body;
    hide Fields, TrimBlanks, IsSpace;
    assert line[|line| - 1] == body[|body| - 1];
    Indented(body);
    if indent == "" {
      assert line == body;
    }
  }

  lemma NoTrim(body: Bytes)
    requires body != [] && !IsSpace(body[0])
    ensures TrimBlanks(body) == body
  {
  }

  lemma {:induction false} NamedLine(e: Entry, item: Item) returns (indent: Bytes)
    requires Prints(e, item) && Wordy(item) && (item.Named? || item.Special?)
    ensures (indent == "" || indent == "    ") && Line(e) == indent + Body(item.name, item.keywords)
    ensures DropCR(Line(e)) == Line(e) && '\n' !in Line(e)
    ensures item.name != [] && TrimBlanks(Line(e)) != [] && TrimBlanks(Line(e))[0] == item.name[0]
    ensures Fields(Line(e)) == [item.name] + item.keywords
  {
    hide Fields, SaysDir, Paths.Clean, TrimBlanks, Line, DropCR, Prints, Body, AllWords;
    indent := LineIs(e, item);
    BodyIsLine(item.name, item.keywords);
    FieldsOfBody(item.name, item.keywords);
    IndentKeeps(indent, Body(item.name, item.keywords));
  }

  /** If the line of an entry is read as one statement that gives an entry alike, nothing was lost. */
  lemma {:induction false} ReadAlike(e: Entry, item: Item, c: Cursor, read: Item, d: Cursor, rest: seq<Bytes>)
    requires Prints(e, item) && Wordy(item) && EntryAt(c, item) == EntryAt(d, read)
    requires ReadOne([DropCR(Line(e))] + rest) == Read(read, rest) && SpecLaws.NoNewlineKept(item)
    ensures Reprintable(item)
  {
    hide ReadOne, Fields, SaysDir, Paths.Clean, TrimBlanks, Unfold, Body, Line, DropCR;
    match item
    case Blank =>
    case Named(_, _, _, _) =>
      NamedAlike(e, item, c, read, d, rest);
    case Special(name, keywords) =>
      var indent := NamedLine(e, item);
      ReadWords(Line(e), rest, read);
      if !EndsLine(keywords) {
        FoldLoses(indent, name, keywords, rest);
      }
    case _ =>
      RawAlike(e, item, c, read, d, rest);
  }

  lemma {:induction false} NamedAlike(e: Entry, item: Item, c: Cursor, read: Item, d: Cursor, rest: seq<Bytes>)
    requires item.Named? && Prints(e, item) && Wordy(item) && EntryAt(c, item) == EntryAt(d, read)
    requires ReadOne([DropCR(Line(e))] + rest) == Read(read, rest) && SpecLaws.NoNewlineKept(item)
    ensures Reprintable(item)
  {
    hide ReadOne, Fields, SaysDir, Paths.Clean, TrimBlanks, Unfold, Body;
    var indent := NamedLine(e, item);
    ReadWords(Line(e), rest, read);
    FirstByte(TrimBlanks(Line(e)), '#');
    if !EndsLine(item.keywords) {
      FoldLoses(indent, item.name, item.keywords, rest);
    }
  }

  lemma {:induction false} RawAlike(e: Entry, item: Item, c: Cursor, read: Item, d: Cursor, rest: seq<Bytes>)
    requires (item.Signature? || item.Comment? || item.DotDot?) && Prints(e, item) && Wordy(item) && EntryAt(c, item) == EntryAt(d, read)
    requires ReadOne([DropCR(Line(e))] + rest) == Read(read, rest) && SpecLaws.NoNewlineKept(item)
    ensures Reprintable(item)
  {
    hide ReadOne, Fields, SaysDir, Paths.Clean, TrimBlanks, Unfold, Body;
    ReadRaw(DropCR(Line(e)), rest, read);
  }

  // ---------- all lines ----------

  function Chomped(lines: seq<Bytes>): (chomped: seq<Bytes>)
    ensures |chomped| == |lines| && forall i :: 0 <= i < |lines| ==> chomped[i] == DropCR(lines[i])
  {
    if lines == [] then [] else [DropCR(lines[0])] + Chomped(lines[1..])
  }

  lemma {:induction false} ScanChomps(lines: seq<Bytes>)
    requires forall i :: 0 <= i < |lines| ==> '\n' !in lines[i]
    ensures ScanLines(Text(lines)) == Chomped(lines)
  {
    if lines != [] {
      CutAt(lines[0], Text(lines[1..]), '\n');
      assert Text(lines)[|lines[0]|] == '\n';
      ScanChomps(lines[1..]);
    }
  }

  /** As many statements as lines: each line is a statement. */
  lemma {:induction false} OneEach(lines: seq<Bytes>, i: nat)
    requires Statements(lines).Ok?
    ensures |Statements(lines).value| <= |lines|
    ensures |Statements(lines).value| == |lines| && i < |lines| ==>
      ReadOne([lines[i]] + lines[i + 1..]) == Read(Statements(lines).value[i], lines[i + 1..])
    decreases |lines|
  {
    hide ReadOne;
    if lines != [] {
      var r := ReadOne(lines);
      var items, more := Statements(lines).value, Statements(r.rest).value;
      OneEach(r.rest, if i == 0 then 0 else i - 1);
      if r.Read? && |items| == |lines| && i < |lines| {
        assert items == [r.item] + more;
        SpecLaws.TakenOff(lines);
        assert lines == [lines[0]] + lines[1..];
        if i > 0 {
          assert lines[1..][i - 1] == lines[i] && lines[1..][i..] == lines[i + 1..];
        }
      }
    }
  }

  lemma LinesAt(entries: seq<Entry>, i: nat)
    requires i < |entries|
    ensures |Lines(entries)| == |entries| && Lines(entries)[i] == Line(entries[i])
  {
    assert entries == entries[..i] + ([entries[i]] + entries[i + 1..]);
    LinesConcat(entries[..i], [entries[i]] + entries[i + 1..]);
    LinesConcat([entries[i]], entries[i + 1..]);
    LinesLength(entries[..i]);
    LinesLength(entries);
    assert Lines([entries[i]]) == [Line(entries[i])] + Lines([]);
  }

  lemma {:induction false} LinesLength(entries: seq<Entry>)
    ensures |Lines(entries)| == |entries|
  {
    if entries != [] {
      LinesLength(entries[1..]);
    }
  }

  lemma {:induction false} NoNewlineIn(e: Entry, item: Item)
    requires Prints(e, item) && Wordy(item) && SpecLaws.NoNewlineKept(item)
    ensures '\n' !in Line(e)
  {
    hide Fields, SaysDir, Paths.Clean, TrimBlanks, Body;
    if item.Named? || item.Special? {
      var _ := NamedLine(e, item);
    }
  }

  predicate AllReprintable(items: seq<Item>) {
    forall i :: 0 <= i < |items| ==> Reprintable(items[i])
  }

  predicate AllWordy(items: seq<Item>) {
    forall i :: 0 <= i < |items| ==> Wordy(items[i])
  }

  lemma {:induction false} ScanEntries(items: seq<Item>, entries: seq<Entry>)
    requires AllWordy(items) && AllPrint(entries, items)
    requires forall i :: 0 <= i < |items| ==> SpecLaws.NoNewlineKept(items[i])
    ensures |Lines(entries)| == |entries|
    ensures ScanLines(Text(Lines(entries))) == Chomped(Lines(entries))
  {
    hide Wordy, Prints, Text, Lines, Line, SpecLaws.NoNewlineKept;
    LinesLength(entries);
    forall i | 0 <= i < |entries|
      ensures '\n' !in Lines(entries)[i]
    {
      LinesAt(entries, i);
      NoNewlineIn(entries[i], items[i]);
    }
    ScanChomps(Lines(entries));
  }

  /** Printed statements parse back to themselves, linked, exactly when each survives in its line. */
  lemma {:induction false} PrintParseExactly(items: seq<Item>, entries: seq<Entry>)
    requires AllWordy(items) && AllPrint(entries, items)
    ensures Parse(Text(Lines(entries))) == Ok(Link(items).entries) <==> AllReprintable(items)
  {
    hide Wordy, Reprintable, Prints, Text, Lines, Line, ScanLines, Statements, ReadOne, Link, EntryAt, SpecLaws.NoNewlineKept;
    if AllReprintable(items) {
      AllPrintableToo(items);
      PrintParse(items, entries);
    }
    if Parse(Text(Lines(entries))) == Ok(Link(items).entries) {
      KeptAsRead(Text(Lines(entries)), items);
      ScanEntries(items, entries);
      var lines := Chomped(Lines(entries));
      var read := Statements(lines).value;
      LinkLength(items);
      LinkLength(read);
      forall i | 0 <= i < |items|
        ensures Reprintable(items[i])
      {
        LinkAt(items, i);
        LinkAt(read, i);
        OneEach(lines, i);
        LinesAt(entries, i);
        ReadAlike(entries[i], items[i], Link(items[..i]), read[i], Link(read[..i]), lines[i + 1..]);
      }
    }
  }

  /** Statements that stand for what was read are of one line where they are kept as they stand. */
  lemma {:induction false} KeptAsRead(text: Bytes, items: seq<Item>)
    requires Parse(text) == Ok(Link(items).entries)
    ensures forall i :: 0 <= i < |items| ==> SpecLaws.NoNewlineKept(items[i])
  {
    hide Link, Statements, ScanLines, EntryAt, SpecLaws.NoNewlineKept;
    var read := Statements(ScanLines(text)).value;
    SpecLaws.LinesHaveNoNewlines(text);
    SpecLaws.ReadNoNewlines(ScanLines(text));
    LinkLength(items);
    LinkLength(read);
    forall i | 0 <= i < |items|
      ensures SpecLaws.NoNewlineKept(items[i])
    {
      LinkAt(items, i);
      LinkAt(read, i);
      SameText(Link(items[..i]), items[i], Link(read[..i]), read[i]);
    }
  }

  lemma SameText(c: Cursor, item: Item, d: Cursor, read: Item)
    requires EntryAt(c, item) == EntryAt(d, read) && SpecLaws.NoNewlineKept(read)
    ensures SpecLaws.NoNewlineKept(item)
  {
  }

  lemma LinkLength(items: seq<Item>)
    ensures |Link(items).entries| == |items|
  {
    LinkConcat(START, items, []);
  }

  lemma AllPrintableToo(items: seq<Item>)
    requires AllWordy(items) && AllReprintable(items)
    ensures AllPrintable(items)
  {
    hide Wordy, Reprintable;
  }
}
