/** The third-party notices file and its inventory reader
    (`render` and `noticeNames` of packages/third-party-notices/src/generate.ts). */
module Notices {
  import opened Wrappers
  import opened Text
  import opened Seqs

  datatype LicenceText = LicenceText(name: string, body: string)

  datatype Entry = Entry(
    title: string, license: string, source: Option<string>, note: Option<string>, texts: seq<LicenceText>)

  const TITLE := "THIRD-PARTY NOTICES"

  // The two sentences are phrases joined, because a literal much longer than a phrase is more than
  // the verifier scans for line breaks.
  const INTRO_1 := "Nulo includes the open-source software" + " listed below." + " Each entry names the component, the"
  const INTRO_2 := "licence it is distributed under," + " and reproduces the licence text" + " that comes with it."

  const HEADER_LINES: seq<string> := [TITLE, "", INTRO_1, INTRO_2]

  const NL := ['\n']

  const STATED_PREFIX := "COMPONENTS ("

  function CountLine(n: nat): string { STATED_PREFIX + Decimal(n) + ")" }

  function Header(): string { Join(HEADER_LINES, NL) }

  function Rule(c: char): string { seq(80, _ => c) }

  // ----- rendering -----

  function Insert(e: Entry, sorted: seq<Entry>): (r: seq<Entry>)
    ensures |r| == |sorted| + 1
    ensures forall x :: x in r <==> x == e || x in sorted
  {
    if sorted == [] then [e]
    else
      var k := |sorted| - 1;
      assert sorted == sorted[..k] + [sorted[k]];
      if Leq(sorted[k].title, e.title) then sorted + [e]
      else Insert(e, sorted[..k]) + [sorted[k]]
  }

  /** A stable sort by title, in code-point order. */
  function SortByTitle(entries: seq<Entry>): (r: seq<Entry>)
    ensures |r| == |entries|
    ensures forall x :: x in r <==> x in entries
  {
    if entries == [] then []
    else
      var k := |entries| - 1;
      assert entries == entries[..k] + [entries[k]];
      Insert(entries[k], SortByTitle(entries[..k]))
  }

  function Row(e: Entry): string { e.title + ['\t'] + e.license }

  function Inventory(sorted: seq<Entry>): (lines: seq<string>)
    ensures |lines| == |sorted| + 1
    ensures lines[0] == CountLine(|sorted|)
    ensures forall i | 0 <= i < |sorted| :: lines[i + 1] == Row(sorted[i])
  {
    [CountLine(|sorted|)] + seq(|sorted|, i requires 0 <= i < |sorted| => Row(sorted[i]))
  }

  function Optional(prefix: string, v: Option<string>): seq<string>
  {
    if v.Some? && v.value != "" then [prefix + v.value] else []
  }

  /** The lines that open a block. */
  function BlockHead(e: Entry): seq<string>
  {
    [Rule('='), e.title, "Licence: " + e.license] + Optional("Source: ", e.source) + Optional("Note: ", e.note)
  }

  function BlockTexts(e: Entry): (r: seq<string>)
    ensures |r| == |e.texts|
    ensures forall i | 0 <= i < |r| :: r[i] == Rule('-') + NL + "[" + e.texts[i].name + "]" + NL + NL + e.texts[i].body
  {
    seq(|e.texts|, i requires 0 <= i < |e.texts| =>
      Rule('-') + NL + "[" + e.texts[i].name + "]" + NL + NL + e.texts[i].body)
  }

  function Block(e: Entry): string { Join(BlockHead(e) + BlockTexts(e), NL) }

  function Blocks(sorted: seq<Entry>): (r: seq<string>)
    ensures |r| == |sorted|
  {
    seq(|sorted|, i requires 0 <= i < |sorted| => Block(sorted[i]))
  }

  function Render(entries: seq<Entry>): string
  {
    var sorted := SortByTitle(entries);
    Join([Header(), Join(Inventory(sorted), NL)] + Blocks(sorted), NL + NL) + NL
  }

  // ----- reading the inventory back -----

  /** The index of the first empty line at or after `from`. */
  function EmptyLine(lines: seq<string>, from: nat): (r: Option<nat>)
    ensures r.Some? ==> from <= r.value < |lines|
    decreases |lines| - from
  {
    if from >= |lines| then None
    else if lines[from] == "" then Some(from)
    else EmptyLine(lines, from + 1)
  }

  /** The count a line of the form `COMPONENTS (n)` states. */
  function StatedCount(line: string): Option<nat>
  {
    var n := |STATED_PREFIX|;
    if |line| >= n + 2 && line[..n] == STATED_PREFIX && line[|line| - 1] == ')' && AllDigits(line[n..|line| - 1])
    then Some(NatOf(line[n..|line| - 1])) else None
  }

  function LastAt(s: string): (r: int)
    ensures -1 <= r < |s|
    ensures r >= 0 ==> s[r] == '@' && '@' !in s[r + 1..]
    ensures r == -1 ==> '@' !in s
  {
    if s == "" then -1
    else if s[|s| - 1] == '@' then |s| - 1
    else
      var init, c := s[..|s| - 1], s[|s| - 1];
      var r := LastAt(init);
      assert s == init + [c];
      assert r >= 0 ==> s[r + 1..] == init[r + 1..] + [c];
      r
  }

  /** Drops a trailing `@version`; an `@` that opens the name stays. */
  function StripVersion(title: string): string
  {
    var at := LastAt(title);
    if at > 0 then title[..at] else title
  }

  function RowName(row: string): string { StripVersion(Split(row, '\t')[0]) }

  /** The names of an inventory whose count line is at `start`. */
  function NamesAt(lines: seq<string>, start: nat): Option<set<string>>
  {
    var stated := if start < |lines| then StatedCount(lines[start]) else None;
    if stated.None? then None
    else
      var end := EmptyLine(lines, start);
      var rows := if end.Some? && end.value > start then lines[start + 1..end.value] else lines[start + 1..];
      if |rows| != stated.value then None
      else Some(set row | row in rows :: RowName(row))
  }

  /** `noticeNames`; None is either of its two errors. */
  function NoticeNames(notices: string): Option<set<string>>
  {
    if !(Header() + NL + NL <= notices) then None
    else NamesAt(Split(notices, '\n'), |HEADER_LINES| + 1)
  }

  // ----- the round trip -----

  predicate OneLine(s: string) { '\n' !in s }

  lemma {:induction false} JoinAppend(a: seq<string>, b: seq<string>, sep: string)
    requires a != [] && b != []
    ensures Join(a + b, sep) == Join(a, sep) + sep + Join(b, sep)
  {
    if |a| == 1 {
      assert (a + b)[1..] == b;
    } else {
      assert (a + b)[1..] == a[1..] + b;
      JoinAppend(a[1..], b, sep);
    }
  }

  /** What follows the inventory in a rendered file: one line break, then the blocks if any. */
  function Tail(blocks: seq<string>): (r: string)
    ensures r == "" || r[0] == '\n'
  {
    if blocks == [] then "" else NL + Join(blocks, NL + NL) + NL
  }

  /** A rendered file is its header, an empty line, the inventory lines, and the tail. */
  lemma RenderShape(header: seq<string>, inventory: seq<string>, blocks: seq<string>)
    requires header != [] && inventory != []
    ensures Join([Join(header, NL), Join(inventory, NL)] + blocks, NL + NL) + NL ==
            Join(header + [""] + inventory, NL) + NL + Tail(blocks)
  {
    var h, i := Join(header, NL), Join(inventory, NL);
    assert header + [""] + inventory == header + ([""] + inventory);
    JoinAppend(header, [""] + inventory, NL);
    JoinAppend([""], inventory, NL);
    assert Join([""], NL) == "";
    assert Join(header + [""] + inventory, NL) == h + NL + ("" + NL + i) == h + (NL + NL) + i;
    if blocks == [] {
      assert [h, i] + blocks == [h] + [i];
      JoinAppend([h], [i], NL + NL);
    } else {
      assert [h, i] + blocks == [h] + ([i] + blocks);
      JoinAppend([h], [i] + blocks, NL + NL);
      JoinAppend([i], blocks, NL + NL);
      var rest := Join(blocks, NL + NL);
      assert h + (NL + NL) + (i + (NL + NL) + rest) + NL == (h + (NL + NL) + i) + NL + (NL + rest + NL);
    }
  }

  lemma TailLines(blocks: seq<string>)
    ensures Split(Tail(blocks), '\n')[0] == ""
  {
  }

  lemma {:induction false} FirstEmptyLine(lines: seq<string>, from: nat, end: nat)
    requires from <= end < |lines| && lines[end] == ""
    requires forall i | from <= i < end :: lines[i] != ""
    ensures EmptyLine(lines, from) == Some(end)
    decreases end - from
  {
    if from < end { FirstEmptyLine(lines, from + 1, end); }
  }

  lemma StatedCountOf(n: nat)
    ensures StatedCount(CountLine(n)) == Some(n)
  {
    var line := CountLine(n);
    assert line[|STATED_PREFIX|..|line| - 1] == Decimal(n);
    assert line[..|STATED_PREFIX|] == STATED_PREFIX;
  }

  lemma RowNameOf(e: Entry)
    requires '\t' !in e.title
    ensures RowName(Row(e)) == StripVersion(e.title)
  {
    SplitHead(e.title, '\t', e.license);
  }

  lemma TitleIsOneLine() ensures OneLine(TITLE) {}

  lemma Intro1IsOneLine() ensures OneLine(INTRO_1) {}

  lemma Intro2IsOneLine() ensures OneLine(INTRO_2) {}

  lemma HeaderIsOneLineEach()
    ensures forall l | l in HEADER_LINES :: OneLine(l)
  {
    TitleIsOneLine();
    Intro1IsOneLine();
    Intro2IsOneLine();
  }

  lemma InventoryLines(sorted: seq<Entry>)
    requires forall e | e in sorted :: OneLine(e.title) && OneLine(e.license)
    ensures forall l | l in Inventory(sorted) :: OneLine(l) && l != ""
  {
    var inv := Inventory(sorted);
    forall l | l in inv ensures OneLine(l) && l != "" {
      var i :| 0 <= i < |inv| && inv[i] == l;
      if i == 0 {
        assert OneLine(Decimal(|sorted|)) && OneLine(STATED_PREFIX) && OneLine(")");
      } else {
        assert l == Row(sorted[i - 1]) && sorted[i - 1] in sorted;
      }
    }
  }

  lemma LinesThenTail(top: seq<string>, blocks: seq<string>) returns (rest: seq<string>)
    requires top != [] && forall l | l in top :: OneLine(l)
    ensures Split(Join(top, NL) + NL + Tail(blocks), '\n') == top + [""] + rest
  {
    forall i | 0 <= i < |top| ensures '\n' !in top[i] {
      assert top[i] in top;
    }
    SplitLines(top, '\n', Tail(blocks));
    TailLines(blocks);
    var tail := Split(Tail(blocks), '\n');
    rest := tail[1..];
    assert tail == [""] + rest;
    assert top + tail == top + [""] + rest;
  }

  /** The lines of a rendered file. */
  lemma {:induction false} RenderedLines(entries: seq<Entry>) returns (rest: seq<string>)
    requires forall e | e in entries :: OneLine(e.title) && OneLine(e.license)
    ensures Split(Render(entries), '\n') == HEADER_LINES + [""] + Inventory(SortByTitle(entries)) + [""] + rest
    ensures Header() + NL + NL <= Render(entries)
  {
    var sorted := SortByTitle(entries);
    var inv, blocks := Inventory(sorted), Blocks(sorted);
    RenderShape(HEADER_LINES, inv, blocks);
    TopLines(HEADER_LINES, inv, sorted);
    rest := LinesThenTail(HEADER_LINES + [""] + inv, blocks);
    OpensWithHeader(Header(), Join(inv, NL), blocks);
  }

  lemma TopLines(header: seq<string>, inv: seq<string>, sorted: seq<Entry>)
    requires header == HEADER_LINES && inv == Inventory(sorted)
    requires forall e | e in sorted :: OneLine(e.title) && OneLine(e.license)
    ensures forall l | l in header + [""] + inv :: OneLine(l)
  {
    HeaderIsOneLineEach();
    InventoryLines(sorted);
  }

  lemma {:induction false} OpensWithHeader(header: string, inventory: string, blocks: seq<string>)
    ensures header + NL + NL <= Join([header, inventory] + blocks, NL + NL) + NL
  {
    var parts := [inventory] + blocks;
    assert [header, inventory] + blocks == [header] + parts;
    JoinAppend([header], parts, NL + NL);
    assert header + (NL + NL) + Join(parts, NL + NL) + NL == (header + NL + NL) + (Join(parts, NL + NL) + NL);
  }

  /** Reading the inventory out of lines laid out this way yields its entries' names. */
  lemma {:induction false} ReadsBack(header: seq<string>, sorted: seq<Entry>, rest: seq<string>)
    requires forall i | 0 <= i < |sorted| ::
      OneLine(sorted[i].title) && OneLine(sorted[i].license) && '\t' !in sorted[i].title
    ensures NamesAt(header + [""] + Inventory(sorted) + [""] + rest, |header| + 1) ==
            Some(set e | e in sorted :: StripVersion(e.title))
  {
    var inv := Inventory(sorted);
    InventoryLines(sorted);
    StatedCountOf(|sorted|);
    ReadInventory(header, inv, rest);
    RowNames(sorted, inv[1..]);
  }

  /** Reading a rendered file back yields exactly the version-stripped names of its entries, for
      every list of entries whose titles are single-line and tab-free and whose licences are
      single-line, whatever the licence texts contain. */
  lemma {:induction false} NamesRoundTrip(entries: seq<Entry>)
    requires forall e | e in entries :: OneLine(e.title) && OneLine(e.license) && '\t' !in e.title
    ensures NoticeNames(Render(entries)) == Some(set e | e in entries :: StripVersion(e.title))
  {
    var sorted := SortByTitle(entries);
    var rest := RenderedLines(entries);
    forall i | 0 <= i < |sorted| ensures sorted[i] in entries {
      assert sorted[i] in sorted;
    }
    ReadsBack(HEADER_LINES, sorted, rest);
    SameNames(sorted, entries);
  }

  lemma SameNames(a: seq<Entry>, b: seq<Entry>)
    requires forall e :: e in a <==> e in b
    ensures (set e | e in a :: StripVersion(e.title)) == (set e | e in b :: StripVersion(e.title))
  {
  }

  /** Where the reader finds the inventory in such lines. */
  lemma {:induction false} ReadInventory(header: seq<string>, inv: seq<string>, rest: seq<string>)
    requires inv != [] && forall l | l in inv :: l != ""
    requires StatedCount(inv[0]) == Some(|inv| - 1)
    ensures NamesAt(header + [""] + inv + [""] + rest, |header| + 1) == Some(set row | row in inv[1..] :: RowName(row))
  {
    var lines := header + [""] + inv + [""] + rest;
    var start, end := |header| + 1, |header| + 1 + |inv|;
    assert lines[end] == "";
    forall i | start <= i < end ensures lines[i] != "" && lines[i] == inv[i - start] {
      assert inv[i - start] in inv;
    }
    FirstEmptyLine(lines, start, end);
    assert lines[start + 1..end] == inv[1..];
  }

  /** Two lists whose elements have the same names, position by position. */
  lemma {:induction false} ImageWithin<A(!new), B(!new)>(xs: seq<A>, ys: seq<B>, f: A -> string, g: B -> string)
    requires |xs| == |ys| && forall i | 0 <= i < |xs| :: f(xs[i]) == g(ys[i])
    ensures (set x | x in xs :: f(x)) <= (set y | y in ys :: g(y))
  {
    forall x | x in xs ensures f(x) in (set y | y in ys :: g(y)) {
      var i :| 0 <= i < |xs| && xs[i] == x;
      assert ys[i] in ys;
    }
  }

  lemma {:induction false} RowNames(sorted: seq<Entry>, rows: seq<string>)
    requires |rows| == |sorted| && forall i | 0 <= i < |sorted| :: rows[i] == Row(sorted[i]) && '\t' !in sorted[i].title
    ensures (set row | row in rows :: RowName(row)) == (set e | e in sorted :: StripVersion(e.title))
  {
    var name := (e: Entry) => StripVersion(e.title);
    forall i | 0 <= i < |sorted| ensures RowName(rows[i]) == name(sorted[i]) { RowNameOf(sorted[i]); }
    ImageWithin(rows, sorted, RowName, name);
    ImageWithin(sorted, rows, name, RowName);
  }

  // ----- the order of the entries -----

  ghost predicate InTitleOrder(es: seq<Entry>)
  {
    forall i, j | 0 <= i < j < |es| :: Leq(es[i].title, es[j].title)
  }

  function Titled(title: string): Entry -> bool { (e: Entry) => e.title == title }

  lemma {:induction false} InsertSorts(e: Entry, sorted: seq<Entry>)
    requires InTitleOrder(sorted)
    ensures InTitleOrder(Insert(e, sorted))
  {
    if sorted != [] {
      var k := |sorted| - 1;
      var init := sorted[..k];
      if Leq(sorted[k].title, e.title) {
        forall i | 0 <= i < |sorted| ensures Leq(sorted[i].title, e.title) {
          if i < k { LeqTransitive(sorted[i].title, sorted[k].title, e.title); }
        }
      } else {
        LeqTotal(sorted[k].title, e.title);
        InsertSorts(e, init);
        var r := Insert(e, init);
        forall i | 0 <= i < |r| ensures Leq(r[i].title, sorted[k].title) {
          assert r[i] in r;
          if r[i] != e {
            var j :| 0 <= j < |init| && init[j] == r[i];
            assert sorted[j] == r[i];
          }
        }
      }
    }
  }

  lemma {:induction false} InsertStable(e: Entry, sorted: seq<Entry>, title: string)
    requires InTitleOrder(sorted)
    ensures Filter(Insert(e, sorted), Titled(title)) == Filter(sorted + [e], Titled(title))
  {
    if sorted != [] && !Leq(sorted[|sorted| - 1].title, e.title) {
      var k := |sorted| - 1;
      var init, last, keep := sorted[..k], sorted[k], Titled(title);
      InsertStable(e, init, title);
      FilterSnoc(Insert(e, init), last, keep);
      FilterSnoc(init, e, keep);
      assert sorted == init + [last];
      FilterSnoc(init, last, keep);
      FilterSnoc(sorted, e, keep);
      LeqReflexive(title);
    }
  }

  lemma LeqReflexive(a: string)
    ensures Leq(a, a)
  {
    LeqTotal(a, a);
  }

  /** The entries come in title order, and those of one title in the order given: nothing is added,
      dropped or repeated. */
  lemma {:induction false} SortedStably(entries: seq<Entry>, title: string)
    ensures InTitleOrder(SortByTitle(entries))
    ensures Filter(SortByTitle(entries), Titled(title)) == Filter(entries, Titled(title))
  {
    if entries != [] {
      var k := |entries| - 1;
      var sorted := SortByTitle(entries[..k]);
      SortedStably(entries[..k], title);
      InsertSorts(entries[k], sorted);
      InsertStable(entries[k], sorted, title);
      FilterSnoc(sorted, entries[k], Titled(title));
      FilterSnoc(entries[..k], entries[k], Titled(title));
      assert entries == entries[..k] + [entries[k]];
    }
  }

  // ----- every licence text is in the file -----

  /** The text stands in the file, uninterrupted. */
  ghost predicate Shows(file: string, text: string)
  {
    exists before, after :: file == before + text + after
  }

  lemma ShowsWithin(file: string, part: string, text: string)
    requires Shows(file, part) && Shows(part, text)
    ensures Shows(file, text)
  {
    var a, b :| file == a + part + b;
    var c, d :| part == c + text + d;
    assert file == (a + c) + text + (d + b);
  }

  lemma {:induction false} JoinShows(parts: seq<string>, sep: string, i: nat)
    requires i < |parts|
    ensures Shows(Join(parts, sep), parts[i])
  {
    if |parts| == 1 {
      assert Join(parts, sep) == "" + parts[0] + "";
    } else if i == 0 {
      assert Join(parts, sep) == "" + parts[0] + (sep + Join(parts[1..], sep));
    } else {
      JoinShows(parts[1..], sep, i - 1);
      var a, b :| Join(parts[1..], sep) == a + parts[i] + b;
      assert Join(parts, sep) == (parts[0] + sep + a) + parts[i] + b;
    }
  }

  /** What a block shows of one licence text: its name in brackets, an empty line, and its body. */
  function Attached(t: LicenceText): string { "[" + t.name + "]" + "\n\n" + t.body }

  lemma {:induction false} FileShowsPart(header: string, inventory: string, blocks: seq<string>, i: nat)
    requires i < |blocks|
    ensures Shows(Join([header, inventory] + blocks, NL + NL) + NL, blocks[i])
  {
    var parts := [header, inventory] + blocks;
    JoinShows(parts, NL + NL, i + 2);
    var a, b :| Join(parts, NL + NL) == a + blocks[i] + b;
    assert Join(parts, NL + NL) + NL == a + blocks[i] + (b + NL);
  }

  lemma {:induction false} FileShowsBlock(entries: seq<Entry>, e: Entry)
    requires e in entries
    ensures Shows(Render(entries), Block(e))
  {
    var sorted := SortByTitle(entries);
    assert e in sorted;
    var i :| 0 <= i < |sorted| && sorted[i] == e;
    FileShowsPart(Header(), Join(Inventory(sorted), NL), Blocks(sorted), i);
  }

  lemma {:induction false} BlockShowsTexts(e: Entry, i: nat)
    requires i < |e.texts|
    ensures Shows(Block(e), Attached(e.texts[i]))
  {
    var parts, k := BlockHead(e) + BlockTexts(e), |BlockHead(e)| + i;
    JoinShows(parts, NL, k);
    assert parts[k] == (Rule('-') + NL) + Attached(e.texts[i]) + "";
    ShowsWithin(Block(e), parts[k], Attached(e.texts[i]));
  }

  lemma {:induction false} BlockShowsHead(e: Entry)
    ensures Shows(Block(e), "\n" + e.title + "\nLicence: " + e.license)
    ensures e.source.Some? && e.source.value != "" ==> Shows(Block(e), "Source: " + e.source.value)
    ensures e.note.Some? && e.note.value != "" ==> Shows(Block(e), "Note: " + e.note.value)
  {
    var parts := BlockHead(e) + BlockTexts(e);
    var top, more := [Rule('='), e.title, "Licence: " + e.license], parts[3..];
    assert parts == top + more;
    BlockTop(e, more);
    var after := 3 + |Optional("Source: ", e.source)|;
    if e.source.Some? && e.source.value != "" {
      assert parts[3] == "Source: " + e.source.value;
      JoinShows(parts, NL, 3);
    }
    if e.note.Some? && e.note.value != "" {
      assert parts[after] == "Note: " + e.note.value;
      JoinShows(parts, NL, after);
    }
  }

  lemma {:induction false} BlockTop(e: Entry, more: seq<string>)
    ensures Shows(Join([Rule('='), e.title, "Licence: " + e.license] + more, NL),
                  "\n" + e.title + "\nLicence: " + e.license)
  {
    var rule, licence := Rule('='), "Licence: " + e.license;
    var text := "\n" + e.title + "\nLicence: " + e.license;
    var top := [rule, e.title, licence];
    assert top == [rule] + ([e.title] + [licence]);
    JoinAppend([rule], [e.title] + [licence], NL);
    JoinAppend([e.title], [licence], NL);
    assert Join(top, NL) == rule + NL + (e.title + NL + licence) == rule + text + "";
    if more == [] {
      assert top + more == top;
    } else {
      JoinAppend(top, more, NL);
      assert Join(top + more, NL) == rule + text + (NL + Join(more, NL));
    }
  }

  /** Every component is in the rendered file with its licence, source and note, and with every one of
      its licence texts whole. */
  lemma {:induction false} FileShowsEntry(entries: seq<Entry>, e: Entry)
    requires e in entries
    ensures Shows(Render(entries), "\n" + e.title + "\nLicence: " + e.license)
    ensures e.source.Some? && e.source.value != "" ==> Shows(Render(entries), "Source: " + e.source.value)
    ensures e.note.Some? && e.note.value != "" ==> Shows(Render(entries), "Note: " + e.note.value)
    ensures forall t | t in e.texts :: Shows(Render(entries), "[" + t.name + "]" + "\n\n" + t.body)
  {
    FileShowsBlock(entries, e);
    BlockShowsHead(e);
    ShowsWithin(Render(entries), Block(e), "\n" + e.title + "\nLicence: " + e.license);
    if e.source.Some? && e.source.value != "" {
      ShowsWithin(Render(entries), Block(e), "Source: " + e.source.value);
    }
    if e.note.Some? && e.note.value != "" {
      ShowsWithin(Render(entries), Block(e), "Note: " + e.note.value);
    }
    FileShowsTexts(Render(entries), e);
  }

  lemma {:induction false} FileShowsTexts(file: string, e: Entry)
    requires Shows(file, Block(e))
    ensures forall t | t in e.texts :: Shows(file, Attached(t))
  {
    forall t | t in e.texts ensures Shows(file, Attached(t)) {
      var i :| 0 <= i < |e.texts| && e.texts[i] == t;
      BlockShowsTexts(e, i);
      ShowsWithin(file, Block(e), Attached(t));
    }
  }

  // ----- names without versions -----

  /** A version after the last `@` is dropped, unless that `@` opens the name. */
  lemma {:induction false} VersionStripped(name: string, version: string)
    requires '@' !in version
    ensures StripVersion(name + "@" + version) == if name == "" then "@" + version else name
  {
    var title := name + "@" + version;
    assert title[|name|] == '@' && title[|name| + 1..] == version && title[..|name|] == name;
    LastAtIs(title, |name|);
  }

  lemma {:induction false} NoneAfter(s: string, k: int)
    requires -1 <= k < |s| && '@' !in s[k + 1..]
    ensures forall i | k < i < |s| :: s[i] != '@'
  {
    forall i | k < i < |s| ensures s[i] != '@' { assert s[i] == s[k + 1..][i - k - 1]; }
  }

  lemma {:induction false} LastAtIs(s: string, k: nat)
    requires k < |s| && s[k] == '@' && '@' !in s[k + 1..]
    ensures LastAt(s) == k
  {
    var r := LastAt(s);
    NoneAfter(s, k);
    if r >= 0 { NoneAfter(s, r); }
  }

  lemma {:induction false} PlainNameKept(title: string)
    requires '@' !in title
    ensures StripVersion(title) == title
  {
  }
}
