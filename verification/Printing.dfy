/** WriteTo, and why what it prints reads back as what was printed. */
module Printing {
  import opened GoBytes
  import opened GoStrings
  import opened Keywords
  import opened Entries
  import opened Manifest
  import opened Spec
  import Paths

  // ---------- sorting by position ----------

  function Insert(e: Entry, sorted: seq<Entry>): seq<Entry> {
    if sorted == [] || e.pos <= sorted[0].pos then [e] + sorted else [sorted[0]] + Insert(e, sorted[1..])
  }

  /** sort.Sort(byPos(entries)) */
  function SortByPos(entries: seq<Entry>): seq<Entry> {
    if entries == [] then [] else Insert(entries[0], SortByPos(entries[1..]))
  }

  predicate Ascending(entries: seq<Entry>) {
    forall i, j :: 0 <= i < j < |entries| ==> entries[i].pos <= entries[j].pos
  }

  lemma {:induction false} InsertSorts(e: Entry, sorted: seq<Entry>)
    requires Ascending(sorted)
    ensures Ascending(Insert(e, sorted))
    ensures multiset(Insert(e, sorted)) == multiset{e} + multiset(sorted)
  {
    if sorted != [] && e.pos > sorted[0].pos {
      hide Ascending;
      var rest := Insert(e, sorted[1..]);
      TailAscends(sorted);
      InsertSorts(e, sorted[1..]);
      assert sorted == [sorted[0]] + sorted[1..];
      LeastFirst(sorted[0], e, sorted[1..], rest);
    }
  }

  lemma TailAscends(sorted: seq<Entry>)
    requires Ascending(sorted) && sorted != []
    ensures Ascending(sorted[1..]) && forall i :: 0 <= i < |sorted[1..]| ==> sorted[0].pos <= sorted[1..][i].pos
  {
  }

  lemma LeastFirst(least: Entry, e: Entry, tail: seq<Entry>, rest: seq<Entry>)
    requires Ascending(rest) && multiset(rest) == multiset{e} + multiset(tail)
    requires least.pos <= e.pos && forall i :: 0 <= i < |tail| ==> least.pos <= tail[i].pos
    ensures Ascending([least] + rest)
  {
    forall j | 0 <= j < |rest|
      ensures least.pos <= rest[j].pos
    {
      assert rest[j] in multiset(rest);
      assert rest[j] == e || rest[j] in tail;
    }
  }

  lemma {:induction false} SortByPosSorts(entries: seq<Entry>)
    ensures Ascending(SortByPos(entries)) && multiset(SortByPos(entries)) == multiset(entries)
  {
    if entries != [] {
      SortByPosSorts(entries[1..]);
      InsertSorts(entries[0], SortByPos(entries[1..]));
      assert entries == [entries[0]] + entries[1..];
    }
  }

  /** Entries already in order stay as they are. */
  lemma {:induction false} SortedAlready(entries: seq<Entry>)
    requires Ascending(entries)
    ensures SortByPos(entries) == entries
  {
    if entries != [] {
      SortedAlready(entries[1..]);
      assert entries == [entries[0]] + entries[1..];
    }
  }

  function Lines(entries: seq<Entry>): seq<Bytes> {
    if entries == [] then [] else [Line(entries[0])] + Lines(entries[1..])
  }

  lemma {:induction false} LinesConcat(a: seq<Entry>, b: seq<Entry>)
    ensures Lines(a + b) == Lines(a) + Lines(b)
  {
    if a == [] {
      assert a + b == b;
    } else {
      assert (a + b)[1..] == a[1..] + b;
      LinesConcat(a[1..], b);
    }
  }

  lemma {:induction false} TextConcat(a: seq<Bytes>, b: seq<Bytes>)
    ensures Text(a + b) == Text(a) + Text(b)
  {
    if a == [] {
      assert a + b == b;
    } else {
      assert (a + b)[1..] == a[1..] + b;
      TextConcat(a[1..], b);
    }
  }

  lemma TextOfOne(e: Entry)
    ensures Text(Lines([e])) == Line(e) + ['\n']
  {
    assert Lines([e]) == [Line(e)] + Lines([]);
    assert [Line(e)][1..] == [];
  }

  class DirectoryHierarchy {
    var entries: seq<Entry>

    constructor (entries: seq<Entry>)
      ensures this.entries == entries
    {
      this.entries := entries;
    }

    /** Sorts the entries in place and prints them to a writer that accepts everything. */
    method WriteTo() returns (written: Bytes, sum: nat)
      modifies this
      ensures entries == SortByPos(old(entries))
      ensures written == Text(Lines(entries)) && sum == |written|
    {
      entries := SortByPos(entries);
      written, sum := [], 0;
      for i := 0 to |entries|
        invariant entries == SortByPos(old(entries))
        invariant written == Text(Lines(entries[..i])) && sum == |written|
      {
        var line := Line(entries[i]) + ['\n'];
        assert entries[..i + 1] == entries[..i] + [entries[i]];
        LinesConcat(entries[..i], [entries[i]]);
        TextConcat(Lines(entries[..i]), Lines([entries[i]]));
        TextOfOne(entries[i]);
        written := written + line;
        sum := sum + |line|;
      }
      assert entries[..|entries|] == entries;
    }
  }

  // ---------- statements that read back ----------

  /** The last key-value does not fold the line onto the next. */
  predicate EndsLine(keywords: seq<KeyVal>) {
    keywords == [] || !HasSuffix(keywords[|keywords| - 1], "\\")
  }

  predicate AllWords(keywords: seq<KeyVal>) {
    forall i :: 0 <= i < |keywords| ==> IsWord(keywords[i])
  }

  /** Statements of the form the parser makes: words where it cuts words, cleaned names, texts of their kind. */
  predicate Wordy(item: Item) {
    match item
    case Signature(raw) => HasPrefix(TrimBlanks(raw), "#mtree")
    case Blank => true
    case Comment(raw) => HasPrefix(TrimBlanks(raw), "#") && !HasPrefix(TrimBlanks(raw), "#mtree")
    case Special(name, keywords) => IsWord(name) && name[0] == '/' && AllWords(keywords)
    case DotDot(raw) => raw != "" && Fields(raw) != [] && Fields(raw)[0] == ".."
                        && !HasPrefix(raw, "/") && !HasPrefix(TrimBlanks(raw), "#")
    case Named(full, name, keywords, isDir) =>
      && IsWord(name) && name[0] != '/' && full == ('/' in name) && Paths.Clean(name) == name
      && isDir == SaysDir(keywords) && AllWords(keywords)
  }

  /** The printed line ends in a backslash, and is taken with the next. */
  predicate Folds(item: Item) {
    (item.Special? || item.Named?) && !EndsLine(item.keywords)
  }

  /** The printed text is more than a line, or ends in a carriage return, which is taken off. */
  predicate Breaks(item: Item) {
    (item.Signature? || item.Comment? || item.DotDot?) && !IsLine(item.raw)
  }

  /** Nothing about the statement is lost in its line: it does not fold, its name does not look like a
      comment or a "..", and it is one line. */
  predicate Reprintable(item: Item) {
    match item
    case Named(_, name, keywords, _) => name != ".." && !HasPrefix(name, "#") && EndsLine(keywords)
    case Special(_, keywords) => EndsLine(keywords)
    case Blank => true
    case _ => IsLine(item.raw)
  }

  /** The statements whose printed line is read back as the same statement. */
  predicate Printable(item: Item) {
    Wordy(item) && Reprintable(item)
  }

  /** Printable, but that the line may fold or break. */
  predicate Steady(item: Item) {
    Wordy(item) && (Folds(item) || Breaks(item) || Reprintable(item))
  }

  /** The printed name and key-values. */
  function Body(name: Bytes, keywords: seq<KeyVal>): Bytes {
    name + [' '] + Join(keywords, ' ')
  }

  lemma FieldsOfBody(name: Bytes, keywords: seq<KeyVal>)
    requires IsWord(name) && AllWords(keywords)
    ensures Fields(Body(name, keywords)) == [name] + keywords
  {
    FieldsOfWordThen(name, Join(keywords, ' '));
    FieldsOfJoin(keywords);
  }

  lemma BlankSkipped(s: Bytes)
    ensures Fields(" " + s) == Fields(s)
    ensures TrimBlanks(" " + s) == TrimBlanks(s)
  {
    assert (" " + s)[1..] == s;
  }

  lemma Indented(s: Bytes)
    ensures Fields("    " + s) == Fields(s) && TrimBlanks("    " + s) == TrimBlanks(s)
  {
    assert " " + (" " + (" " + (" " + s))) == "    " + s;
    BlankSkipped(s);
    BlankSkipped(" " + s);
    BlankSkipped(" " + (" " + s));
    BlankSkipped(" " + (" " + (" " + s)));
  }

  lemma {:induction false} JoinEnd(keywords: seq<KeyVal>)
    requires keywords != [] && AllWords(keywords)
    ensures Join(keywords, ' ') != []
    ensures var joined, last := Join(keywords, ' '), keywords[|keywords| - 1];
      joined[|joined| - 1] == last[|last| - 1]
  {
    if |keywords| > 1 {
      JoinEnd(keywords[1..]);
    }
  }

  lemma NotEmpty(w: Bytes)
    requires IsWord(w)
    ensures w != []
  {
  }

  /** The printed text is one line, and only its last key-value folds it onto the next. */
  lemma BodyIsLine(name: Bytes, keywords: seq<KeyVal>)
    requires IsWord(name) && AllWords(keywords)
    ensures var text := Body(name, keywords);
      && text != [] && text[0] == name[0] && text[|text| - 1] != '\r' && '\n' !in text
      && (text[|text| - 1] == '\\' <==> !EndsLine(keywords))
  {
    hide IsWord;
    var joined := Join(keywords, ' ');
    WordBytes(name);
    forall i | 0 <= i < |keywords|
      ensures keywords[i] != [] && forall j :: 0 <= j < |keywords[i]| ==> !IsSpace(keywords[i][j])
    {
      NotEmpty(keywords[i]);
      WordBytes(keywords[i]);
    }
    NotEmpty(name);
    if keywords != [] {
      JoinEnd(keywords);
    }
    if '\n' in joined {
      JoinBytes(keywords, ' ', '\n');
    }
  }

  lemma IndentKeepsLine(indent: Bytes, text: Bytes)
    requires text != [] && text[|text| - 1] != '\r' && text[|text| - 1] != '\\' && '\n' !in text
    requires indent == "" || indent == "    "
    ensures IsLine(indent + text) && !HasSuffix(indent + text, "\\") && indent + text != ""
    ensures Fields(indent + text) == Fields(text) && TrimBlanks(indent + text) == TrimBlanks(text)
    ensures (indent + text)[0] == if indent == "" then text[0] else ' '
  {
    Indented(text);
    if indent == "" {
      assert indent + text == text;
    }
    assert (indent + text)[|indent + text| - 1] == text[|text| - 1];
  }

  /** A special line reads back. */
  lemma SpecialReadsBack(name: Bytes, keywords: seq<KeyVal>, rest: seq<Bytes>)
    requires Printable(Special(name, keywords))
    ensures IsLine(Body(name, keywords))
    ensures ReadOne([Body(name, keywords)] + rest) == Read(Special(name, keywords), rest)
  {
    hide Fields, SaysDir;
    var line := Body(name, keywords);
    BodyIsLine(name, keywords);
    FieldsOfBody(name, keywords);
    assert ([line] + rest)[1..] == rest;
    assert TrimBlanks(line) == line;
    assert ([name] + keywords)[1..] == keywords;
  }

  /** A named line, indented or not, reads back. */
  lemma {:induction false} NamedReadsBack(item: Item, indent: Bytes, rest: seq<Bytes>)
    requires item.Named? && Printable(item)
    requires indent == "" || indent == "    "
    ensures var line := indent + Body(item.name, item.keywords);
      IsLine(line) && ReadOne([line] + rest) == Read(item, rest)
  {
    hide Fields, SaysDir, Paths.Clean, Body, IsLine, AllWords, ReadOne;
    var text := Body(item.name, item.keywords);
    BodyIsLine(item.name, item.keywords);
    FieldsOfBody(item.name, item.keywords);
    IndentKeepsLine(indent, text);
    assert TrimBlanks(text) == text && text[0] == item.name[0];
    ReadOneNamed(indent + text, rest, item);
  }

  /** A line of words, folded onto nothing, that is no comment, special or ".." line, is a named one. */
  lemma {:induction false} ReadOneNamed(line: Bytes, rest: seq<Bytes>, item: Item)
    requires item.Named? && item.name != ".." && item == NamedItem(item.name, item.keywords)
    requires line != "" && line[0] != '/' && !HasSuffix(line, "\\")
    requires TrimBlanks(line) != "" && TrimBlanks(line)[0] != '#'
    requires Fields(line) == [item.name] + item.keywords
    ensures ReadOne([line] + rest) == Read(item, rest)
  {
    FirstByte(TrimBlanks(line), '#');
    FirstByte(line, '/');
    hide Fields, SaysDir, Paths.Clean, TrimBlanks, HasPrefix, HasSuffix;
    assert ([line] + rest)[0] == line && ([line] + rest)[1..] == rest;
    assert ([item.name] + item.keywords)[0] == item.name && ([item.name] + item.keywords)[1..] == item.keywords;
  }

  lemma FirstByte(s: Bytes, c: Byte)
    requires s != ""
    ensures HasPrefix(s, [c]) <==> s[0] == c
  {
  }

  lemma RawReadsBack(item: Item, rest: seq<Bytes>)
    requires Printable(item) && (item.Signature? || item.Comment? || item.DotDot?)
    ensures item.raw != "" && IsLine(item.raw) && ReadOne([item.raw] + rest) == Read(item, rest)
  {
    assert TrimBlanks([]) == [];
    hide Fields, TrimBlanks, IsLine, Unfold, SaysDir, Paths.Clean;
    assert ([item.raw] + rest)[1..] == rest;
  }

  /** Every printable statement reads back from the line its entry prints. */
  lemma ReadsBack(c: Cursor, item: Item, rest: seq<Bytes>)
    requires Printable(item)
    ensures IsLine(Line(EntryAt(c, item)))
    ensures ReadOne([Line(EntryAt(c, item))] + rest) == Read(item, rest)
  {
    hide ReadOne, Printable;
    match item
    case Blank =>
      BlankReadsBack(rest);
    case Special(name, keywords) =>
      SpecialReadsBack(name, keywords, rest);
    case Named(_, name, keywords, _) =>
      NamedReadsBack(item, "", rest);
      NamedReadsBack(item, "    ", rest);
      assert "" + Body(name, keywords) == Body(name, keywords);
    case _ =>
      RawReadsBack(item, rest);
  }

  lemma BlankReadsBack(rest: seq<Bytes>)
    ensures ReadOne([""] + rest) == Read(Blank, rest)
  {
    assert ([""] + rest)[1..] == rest;
  }

  predicate AllPrintable(items: seq<Item>) {
    forall i :: 0 <= i < |items| ==> Printable(items[i])
  }

  /** The entry prints the statement, indented or not as its own parent says. */
  predicate Prints(e: Entry, item: Item) {
    Line(e) == Line(EntryAt(Cursor([], if e.parent.Some? then [e.parent.value] else [], None), item))
  }

  predicate AllPrint(entries: seq<Entry>, items: seq<Item>) {
    |entries| == |items| && forall i :: 0 <= i < |items| ==> Prints(entries[i], items[i])
  }

  lemma {:induction false} AllReadBack(entries: seq<Entry>, items: seq<Item>)
    requires AllPrintable(items) && AllPrint(entries, items)
    ensures Statements(Lines(entries)) == Ok(items)
    ensures forall i :: 0 <= i < |Lines(entries)| ==> IsLine(Lines(entries)[i])
  {
    hide ReadOne, EntryAt, Printable, IsLine;
    if items != [] {
      var e := entries[0];
      AllReadBack(entries[1..], items[1..]);
      ReadsBack(Cursor([], if e.parent.Some? then [e.parent.value] else [], None), items[0], Lines(entries[1..]));
      assert [items[0]] + items[1..] == items;
    }
  }

  /** Entries that print some printable statements read back as those statements, linked: the parser
      looks at nothing but the lines, so positions, parents and sets all come from the statements. */
  lemma PrintParse(items: seq<Item>, entries: seq<Entry>)
    requires AllPrintable(items) && AllPrint(entries, items)
    ensures Parse(Text(Lines(entries))) == Ok(Link(items).entries)
  {
    AllReadBack(entries, items);
    ScanText(Lines(entries));
  }
}
