/**
 The comparison as one text: how it is assembled, and the way through the page and back.

 The lines of the table are joined, some with newlines of their own inside, and split again by the
 page; a query, a link or an error text that spans several lines is followed through both. Which of
 the resulting lines are rows decides which cards the page shows.
 */
module PriceReport {
  import opened Prelude
  import opened PriceText
  import opened PriceCards
  import opened PriceTable

  // ----- Lines and text -----

  /** `"\n".join(lines)` */
  function Join(lines: seq<string>): string {
    if lines == [] then ""
    else if |lines| == 1 then lines[0]
    else Join(lines[..|lines| - 1]) + "\n" + lines[|lines| - 1]
  }

  /** `text.split('\n')` */
  function Split(text: string): (lines: seq<string>)
    ensures lines != []
  {
    if text == "" then [""]
    else
      var rest := Split(text[1..]);
      if text[0] == '\n' then [""] + rest else [[text[0]] + rest[0]] + rest[1..]
  }

  lemma {:induction false} SplitSingle(line: string)
    requires Lacks('\n', line)
    ensures Split(line) == [line]
  {
    if line != "" {
      assert Lacks('\n', line[1..]);
      SplitSingle(line[1..]);
      assert line[0] in line;
      assert [line[0]] + line[1..] == line;
    }
  }

  /** Text on both sides of a newline is split on its own. */
  lemma {:induction false} SplitConcat(text: string, more: string)
    ensures Split(text + "\n" + more) == Split(text) + Split(more)
  {
    var all := text + "\n" + more;
    if text == "" {
      assert all[1..] == more;
    } else {
      assert all[1..] == text[1..] + "\n" + more;
      SplitConcat(text[1..], more);
    }
  }

  /** The lines of a text after its first. */
  function Stray(text: string): seq<string> {
    Split(text)[1..]
  }

  /** A newline-free text before another one only lengthens its first line. */
  lemma {:induction false} SplitPrefix(prefix: string, text: string)
    requires Lacks('\n', prefix)
    ensures Split(prefix + text) == [prefix + Split(text)[0]] + Stray(text)
  {
    if prefix == "" {
      assert prefix + text == text && prefix + Split(text)[0] == Split(text)[0];
    } else {
      assert (prefix + text)[1..] == prefix[1..] + text;
      assert Lacks('\n', prefix[1..]) && prefix[0] in prefix;
      SplitPrefix(prefix[1..], text);
      assert [prefix[0]] + (prefix[1..] + Split(text)[0]) == prefix + Split(text)[0];
    }
  }

  /** What a split makes of lines that may have newlines of their own. */
  function Flat(lines: seq<string>): seq<string> {
    if lines == [] then [] else Flat(lines[..|lines| - 1]) + Split(lines[|lines| - 1])
  }

  lemma {:induction false} SplitOfJoin(lines: seq<string>)
    requires lines != []
    ensures Split(Join(lines)) == Flat(lines)
  {
    if |lines| == 1 {
      assert Flat(lines) == [] + Split(lines[0]);
    } else {
      SplitOfJoin(lines[..|lines| - 1]);
      SplitConcat(Join(lines[..|lines| - 1]), lines[|lines| - 1]);
    }
  }

  lemma {:induction false} FlatConcat(a: seq<string>, b: seq<string>)
    ensures Flat(a + b) == Flat(a) + Flat(b)
  {
    if b == [] {
      assert a + b == a;
    } else {
      assert a + b == a + b[..|b| - 1] + [b[|b| - 1]];
      FlatConcat(a, b[..|b| - 1]);
    }
  }

  lemma FlatSingle(line: string)
    ensures Flat([line]) == Split(line)
  {
    assert [line][..0] == [] && [] + Split(line) == Split(line);
  }

  /** An empty line stays one. */
  lemma FlatAfterBlank(lines: seq<string>)
    ensures Flat([""] + lines) == [""] + Flat(lines)
  {
    FlatConcat([""], lines);
    FlatSingle("");
  }

  ghost predicate Unbroken(lines: seq<string>) {
    forall i :: 0 <= i < |lines| ==> Lacks('\n', lines[i])
  }

  lemma {:induction false} FlatUnbroken(lines: seq<string>)
    requires Unbroken(lines)
    ensures Flat(lines) == lines
  {
    if lines != [] {
      FlatUnbroken(lines[..|lines| - 1]);
      SplitSingle(lines[|lines| - 1]);
    }
  }

  /** Lines without newlines come back from the joined text. */
  lemma SplitUndoesJoin(lines: seq<string>)
    requires lines != [] && Unbroken(lines)
    ensures Split(Join(lines)) == lines
  {
    SplitOfJoin(lines);
    FlatUnbroken(lines);
  }

  lemma JoinSnoc(lines: seq<string>, line: string)
    requires lines != []
    ensures Join(lines + [line]) == Join(lines) + "\n" + line
  {
    assert (lines + [line])[..|lines|] == lines;
  }

  lemma {:induction false} JoinConcat(a: seq<string>, b: seq<string>)
    requires a != [] && b != []
    ensures Join(a + b) == Join(a) + "\n" + Join(b)
  {
    var front, last := b[..|b| - 1], b[|b| - 1];
    if front == [] {
      assert b == [last];
      JoinSnoc(a, last);
    } else {
      assert a + b == (a + front) + [last];
      JoinConcat(a, front);
      JoinSnoc(a + front, last);
    }
  }

  // ----- The report -----

  function StoreList(errors: seq<StoreResult>): string {
    if errors == [] then ""
    else (if |errors| == 1 then "" else StoreList(errors[..|errors| - 1]) + ", ") + errors[|errors| - 1].store
  }

  function StoresDown(errors: seq<StoreResult>): string {
    if errors == [] then "all stores" else StoreList(errors)
  }

  const SORRY := "I couldn't"
  const SORRY_QUERY := " fetch live prices for '"
  const SORRY_STORES := "' right now. Stores unavailable: "
  const SORRY_END := ". Please try again in a moment."

  function Unavailable(query: string, errors: seq<StoreResult>): string {
    SORRY + ApologyTail(query, errors)
  }

  /** What follows the first words of the apology. */
  function ApologyTail(query: string, errors: seq<StoreResult>): string {
    SORRY_QUERY + query + SORRY_STORES + StoresDown(errors) + SORRY_END
  }

  lemma {:induction false} InsertMembers(sorted: seq<StoreResult>, r: StoreResult)
    ensures forall x :: x in Insert(sorted, r) <==> x in sorted || x == r
  {
    if sorted != [] && sorted[|sorted| - 1].price > r.price {
      var front, last := sorted[..|sorted| - 1], sorted[|sorted| - 1];
      InsertMembers(front, r);
      assert sorted == front + [last];
    }
  }

  lemma {:induction false} SortMembers(rs: seq<StoreResult>)
    ensures forall x :: x in SortByPrice(rs) <==> x in rs
  {
    if rs != [] {
      SortMembers(rs[..|rs| - 1]);
      InsertMembers(SortByPrice(rs[..|rs| - 1]), rs[|rs| - 1]);
      assert rs == rs[..|rs| - 1] + [rs[|rs| - 1]];
    }
  }

  lemma {:induction false} ValidMembers(results: seq<StoreResult>)
    ensures forall x :: x in ValidOnes(results) <==> x in results && IsValid(x)
    ensures forall x :: x in Errors(results) <==> x in results && x.error.Some?
  {
    if results != [] {
      ValidMembers(results[1..]);
      assert results == [results[0]] + results[1..];
    }
  }

  function Sorted(results: seq<StoreResult>): (sorted: seq<StoreResult>)
    ensures forall r :: r in sorted <==> r in results && r.error.None? && r.price > 0
  {
    ValidMembers(results);
    SortMembers(ValidOnes(results));
    SortByPrice(ValidOnes(results))
  }

  function Report(query: string, results: seq<StoreResult>): string {
    ValidMembers(results);
    if Sorted(results) == [] then Unavailable(query, Errors(results))
    else Join(ReportLines(query, Sorted(results), Errors(results)))
  }

  lemma {:induction false} ValidSnoc(results: seq<StoreResult>, r: StoreResult)
    ensures ValidOnes(results + [r]) == ValidOnes(results) + (if r.error.None? && r.price > 0 then [r] else [])
    ensures Errors(results + [r]) == Errors(results) + (if r.error.Some? then [r] else [])
  {
    if results == [] {
      assert results + [r] == [r];
    } else {
      assert (results + [r])[1..] == results[1..] + [r];
      ValidSnoc(results[1..], r);
    }
  }

  /** The two list comprehensions at the top of `format_comparison`. */
  method Partition(results: seq<StoreResult>) returns (valid: seq<StoreResult>, errors: seq<StoreResult>)
    ensures valid == ValidOnes(results) && errors == Errors(results)
  {
    valid, errors := [], [];
    for i := 0 to |results|
      invariant valid == ValidOnes(results[..i]) && errors == Errors(results[..i])
    {
      ValidSnoc(results[..i], results[i]);
      assert results[..i + 1] == results[..i] + [results[i]];
      if results[i].error.None? && results[i].price > 0 {
        valid := valid + [results[i]];
      }
      if results[i].error.Some? {
        errors := errors + [results[i]];
      }
    }
    assert results[..|results|] == results;
  }

  lemma RowsSnoc(sorted: seq<StoreResult>, i: nat)
    requires i < |sorted|
    ensures Rows(sorted[..i + 1]) == Rows(sorted[..i]) + [Row(sorted[i])]
  {
    assert sorted[..i + 1][..i] == sorted[..i];
  }

  method AppendRows(lines: seq<string>, sorted: seq<StoreResult>) returns (lines': seq<string>)
    ensures lines' == lines + Rows(sorted)
  {
    lines' := lines;
    for i := 0 to |sorted|
      invariant lines' == lines + Rows(sorted[..i])
    {
      RowsSnoc(sorted, i);
      lines' := lines' + [Row(sorted[i])];
    }
    assert sorted[..|sorted|] == sorted;
  }

  method CollectLinks(sorted: seq<StoreResult>) returns (parts: seq<string>)
    ensures parts == LinkParts(sorted)
  {
    parts := [];
    for i := 0 to |sorted|
      invariant parts == LinkParts(sorted[..i])
    {
      assert sorted[..i + 1][..i] == sorted[..i];
      if sorted[i].link != "" {
        parts := parts + [sorted[i].store + ": " + sorted[i].link];
      }
    }
    assert sorted[..|sorted|] == sorted;
  }

  function SavingsNote(sorted: seq<StoreResult>): string
    requires |sorted| >= 2 && sorted[|sorted| - 1].price > sorted[0].price
  {
    "\U{1F4A1} You save " + [RUPEE] + Commas(WholeRupees(sorted[|sorted| - 1].price - sorted[0].price)) +
      " by buying on " + sorted[0].store + " vs " + sorted[|sorted| - 1].store + "."
  }

  method AppendSavings(lines: seq<string>, sorted: seq<StoreResult>, ghost flat: seq<string>) returns (lines': seq<string>)
    requires lines != [] && flat != [] && Join(lines) == Join(flat)
    ensures lines' != [] && Join(lines') == Join(flat + SavingsLines(sorted))
  {
    lines' := lines;
    if |sorted| >= 2 {
      var savings := sorted[|sorted| - 1].price - sorted[0].price;
      if savings > 0 {
        Embedded(lines, flat, [SavingsNote(sorted)]);
        lines' := lines + ["\n" + SavingsNote(sorted)];
        assert SavingsLines(sorted) == [""] + [SavingsNote(sorted)];
        return;
      }
    }
    assert flat + [] == flat;
  }

  method AppendLinks(lines: seq<string>, sorted: seq<StoreResult>, ghost flat: seq<string>) returns (lines': seq<string>)
    requires lines != [] && flat != [] && Join(lines) == Join(flat)
    ensures lines' != [] && Join(lines') == Join(flat + LinkLines(sorted))
  {
    var parts := CollectLinks(sorted);
    if parts == [] {
      assert flat + [] == flat;
      return lines;
    }
    LinkBlock(parts);
    Embedded(lines, flat, [LINKS] + parts);
    lines' := lines + ["\n" + LINKS + "\n" + Join(parts)];
    assert "\n" + LINKS + "\n" + Join(parts) == "\n" + (LINKS + "\n" + Join(parts));
  }

  lemma LinkBlock(parts: seq<string>)
    requires parts != []
    ensures Join([LINKS] + parts) == LINKS + "\n" + Join(parts)
    ensures ["", LINKS] + parts == [""] + ([LINKS] + parts)
  {
    JoinConcat([LINKS], parts);
  }

  method AppendNotes(lines: seq<string>, errors: seq<StoreResult>, ghost flat: seq<string>) returns (lines': seq<string>)
    requires lines != [] && flat != [] && Join(lines) == Join(flat)
    requires forall r :: r in errors ==> r.error.Some?
    ensures lines' != [] && Join(lines') == Join(flat + NoteLines(errors))
  {
    if errors == [] {
      assert flat + [] == flat;
      return lines;
    }
    var note := WARNING + Notes(errors);
    Embedded(lines, flat, [note]);
    lines' := lines + ["\n" + note];
    assert NoteLines(errors) == [""] + [note];
  }

  /** `lines` is built with embedded newlines, as in the source; the joined text is the report. */
  method FormatComparison(query: string, results: seq<StoreResult>) returns (text: string)
    ensures text == Report(query, results)
  {
    ValidMembers(results);
    var valid, errors := Partition(results);
    var sorted := SortByPrice(valid);
    assert sorted == Sorted(results);
    if sorted == [] {
      text := Unavailable(query, errors);
      return;
    }
    text := FormatTable(query, sorted, errors);
  }

  method FormatTable(query: string, sorted: seq<StoreResult>, errors: seq<StoreResult>) returns (text: string)
    requires sorted != [] && (forall r :: r in errors ==> r.error.Some?)
    ensures text == Join(ReportLines(query, sorted, errors))
  {
    assert sorted[0] in sorted;
    var lines := AppendRows(Heading(query, sorted[0]), sorted);
    ghost var flat := lines;
    lines := AppendSavings(lines, sorted, flat);
    lines := AppendLinks(lines, sorted, flat + SavingsLines(sorted));
    lines := AppendNotes(lines, errors, flat + SavingsLines(sorted) + LinkLines(sorted));
    text := Join(lines);
    Regrouped(flat, SavingsLines(sorted), LinkLines(sorted), NoteLines(errors));
  }

  lemma Regrouped(a: seq<string>, b: seq<string>, c: seq<string>, d: seq<string>)
    ensures a + b + c + d == a + (b + c + d)
  {
  }

  /** One appended line that starts with a newline is an empty line and what follows it. */
  lemma Embedded(lines: seq<string>, flat: seq<string>, more: seq<string>)
    requires lines != [] && flat != [] && more != [] && Join(lines) == Join(flat)
    ensures Join(lines + ["\n" + Join(more)]) == Join(flat + ([""] + more))
  {
    JoinSnoc(lines, "\n" + Join(more));
    JoinConcat(flat, [""] + more);
    JoinConcat([""], more);
  }

  /** The parsing half of `renderPriceCards`; None stands for the null returned without cards. */
  method RenderPriceCards(text: string) returns (entries: Option<seq<Card>>)
    ensures entries == if ReadLines(Split(text)).1 == [] then None else Some(ReadLines(Split(text)).1)
  {
    var cards := RenderEntries(Split(text));
    entries := if cards == [] then None else Some(cards);
  }

  // ----- The round trip -----

  lemma TableHeadUnbroken(best: StoreResult)
    requires Printable(best)
    ensures Unbroken(TableHead(best))
  {
    HeaderLacks('\n');
    RepeatAt('\U{2501}', 40);
    RepeatAt('-', 65);
    BestTailUnbroken(best);
    LacksConcat('\n', "\U{1F3C6} BEST DEAL: ", best.store);
    LacksConcat('\n', "\U{1F3C6} BEST DEAL: " + best.store, BestTail(best));
  }

  lemma BestTailUnbroken(best: StoreResult)
    ensures Lacks('\n', BestTail(best))
  {
    CommasShape(WholeRupees(best.price));
    if best.discount.Some? && best.discount.value != 0 {
      DigitsDigits(WholePercent(best.discount.value));
    }
  }

  lemma {:induction false} RowsUnbroken(sorted: seq<StoreResult>)
    requires forall r :: r in sorted ==> Printable(r)
    ensures Unbroken(Rows(sorted))
  {
    if sorted != [] {
      RowsUnbroken(sorted[..|sorted| - 1]);
      assert sorted[|sorted| - 1] in sorted;
      RowLacks('\n', sorted[|sorted| - 1]);
    }
  }

  lemma SavingsUnbroken(sorted: seq<StoreResult>)
    requires forall r :: r in sorted ==> Printable(r)
    ensures Unbroken(SavingsLines(sorted))
  {
    if |sorted| >= 2 && sorted[|sorted| - 1].price - sorted[0].price > 0 {
      assert sorted[0] in sorted && sorted[|sorted| - 1] in sorted;
      CommasShape(WholeRupees(sorted[|sorted| - 1].price - sorted[0].price));
    }
  }

  lemma InertBoth(a: seq<string>, b: seq<string>)
    ensures Inert(a + b) <==> Inert(a) && Inert(b)
  {
    assert forall i :: 0 <= i < |a| ==> (a + b)[i] == a[i];
    assert forall i :: 0 <= i < |b| ==> (a + b)[|a| + i] == b[i];
  }

  /** A text whose first line is no row is inert if and only if the lines after it are. */
  lemma InertAfterFirst(prefix: string, text: string)
    requires Lacks('\n', prefix) && ParseRow(prefix + Split(text)[0]).None?
    ensures Inert(Split(prefix + text)) <==> Inert(Stray(text))
  {
    SplitPrefix(prefix, text);
    InertBoth([prefix + Split(text)[0]], Stray(text));
  }

  lemma TitleInertIff(query: string)
    ensures Inert(Split(TITLE + query)) <==> Inert(Stray(query))
  {
    TitleIsNoRow(Split(query)[0]);
    InertAfterFirst(TITLE, query);
  }

  lemma LinkInertIff(r: StoreResult)
    requires WordName(r.store)
    ensures Inert(Split(r.store + ": " + r.link)) <==> Inert(Stray(r.link))
  {
    LinkIsNoRow(r.store, Split(r.link)[0]);
    InertAfterFirst(r.store + ": ", r.link);
  }

  lemma LinkPartsSnoc(sorted: seq<StoreResult>, r: StoreResult)
    ensures LinkParts(sorted + [r]) == LinkParts(sorted) + (if r.link != "" then [r.store + ": " + r.link] else [])
  {
    assert (sorted + [r])[..|sorted|] == sorted;
  }

  /** One more result adds at most one link, which is inert if its stray lines are. */
  lemma OneMoreLink(sorted: seq<StoreResult>, r: StoreResult)
    requires WordName(r.store)
    ensures Inert(Flat(LinkParts(sorted + [r]))) <==> Inert(Flat(LinkParts(sorted))) && Inert(Stray(r.link))
  {
    LinkPartsSnoc(sorted, r);
    if r.link != "" {
      LinkInertIff(r);
      FlatConcat(LinkParts(sorted), [r.store + ": " + r.link]);
      FlatSingle(r.store + ": " + r.link);
      InertBoth(Flat(LinkParts(sorted)), Split(r.store + ": " + r.link));
    } else {
      assert LinkParts(sorted) + [] == LinkParts(sorted) && Stray("") == [];
    }
  }

  lemma {:induction false} LinkPartsInertIff(sorted: seq<StoreResult>)
    requires forall r :: r in sorted ==> WordName(r.store)
    ensures Inert(Flat(LinkParts(sorted))) <==> forall r :: r in sorted ==> Inert(Stray(r.link))
  {
    if sorted != [] {
      var front, last := sorted[..|sorted| - 1], sorted[|sorted| - 1];
      LinkPartsInertIff(front);
      OneMoreLink(front, last);
      assert sorted == front + [last] && last in sorted;
      assert forall r :: r in sorted <==> r in front || r == last;
    }
  }

  lemma BlankThen(lines: seq<string>)
    ensures Inert(Flat([""] + lines)) <==> Inert(Flat(lines))
  {
    FlatAfterBlank(lines);
    EmptyLineIsOther();
    InertBoth([""], Flat(lines));
  }

  lemma LinkLinesInertIff(sorted: seq<StoreResult>)
    requires forall r :: r in sorted ==> WordName(r.store)
    ensures Inert(Flat(LinkLines(sorted))) <==> forall r :: r in sorted ==> Inert(Stray(r.link))
  {
    LinkPartsInertIff(sorted);
    var parts := LinkParts(sorted);
    if parts != [] {
      LinksMarkUnbroken();
      LinksMarkIsNoRow();
      SplitSingle(LINKS);
      FlatSingle(LINKS);
      FlatConcat([LINKS], parts);
      InertBoth([LINKS], Flat(parts));
      BlankThen([LINKS] + parts);
      BlankMark(LINKS, parts);
    }
  }

  lemma BlankMark<T>(mark: seq<T>, parts: seq<seq<T>>)
    ensures [[], mark] + parts == [[]] + ([mark] + parts)
  {
  }

  lemma LinksMarkUnbroken()
    ensures Lacks('\n', LINKS)
  {
  }

  lemma LinksMarkIsNoRow()
    ensures ParseRow(LINKS).None?
  {
    var mark := LINKS;
    assert mark[0] == '\U{1F517}' && mark[..0] == "";
    OddCharBeforeBar(mark, 0);
  }

  lemma WarningIsNoRow(rest: string)
    ensures ParseRow(WARNING + rest).None?
  {
    var line := WARNING + rest;
    assert line[0] == WARNING[0] == '\U{26A0}' && line[..0] == "";
    OddCharBeforeBar(line, 0);
  }

  lemma WarningUnbroken()
    ensures Lacks('\n', WARNING)
  {
  }

  lemma NoteLinesInertIff(errors: seq<StoreResult>)
    requires forall r :: r in errors ==> r.error.Some?
    ensures Inert(Flat(NoteLines(errors))) <==> Inert(Stray(Notes(errors)))
  {
    if errors != [] {
      var notes := Notes(errors);
      WarningIsNoRow(Split(notes)[0]);
      WarningUnbroken();
      InertAfterFirst(WARNING, notes);
      FlatSingle(WARNING + notes);
      BlankThen([WARNING + notes]);
      BlankMark(WARNING + notes, []);
      assert NoteLines(errors) == [""] + ([WARNING + notes] + []);
    }
  }

  /** No line of the query after its first, of a link or of the error texts looks like a row. */
  ghost predicate NoStrayRow(query: string, sorted: seq<StoreResult>, errors: seq<StoreResult>)
    requires forall r :: r in errors ==> r.error.Some?
  {
    Inert(Stray(query)) && (forall r :: r in sorted ==> Inert(Stray(r.link))) && Inert(Stray(Notes(errors)))
  }

  /** What stands after the rows. */
  function AfterRows(sorted: seq<StoreResult>, errors: seq<StoreResult>): seq<string>
    requires forall r :: r in errors ==> r.error.Some?
  {
    SavingsLines(sorted) + Flat(LinkLines(sorted)) + Flat(NoteLines(errors))
  }

  lemma AfterRowsInertIff(sorted: seq<StoreResult>, errors: seq<StoreResult>)
    requires forall r :: r in sorted ==> Printable(r)
    requires forall r :: r in errors ==> r.error.Some?
    ensures Inert(AfterRows(sorted, errors)) <==>
              (forall r :: r in sorted ==> Inert(Stray(r.link))) && Inert(Stray(Notes(errors)))
  {
    SavingsInert(sorted);
    LinkLinesInertIff(sorted);
    NoteLinesInertIff(errors);
    InertBoth(SavingsLines(sorted), Flat(LinkLines(sorted)));
    InertBoth(SavingsLines(sorted) + Flat(LinkLines(sorted)), Flat(NoteLines(errors)));
  }

  /** The lines the page sees. */
  lemma ReportSplit(query: string, sorted: seq<StoreResult>, errors: seq<StoreResult>)
    requires sorted != [] && (forall r :: r in sorted ==> Printable(r)) && forall r :: r in errors ==> r.error.Some?
    ensures Split(Join(ReportLines(query, sorted, errors))) ==
              Split(TITLE + query) + TableHead(sorted[0]) + Rows(sorted) + AfterRows(sorted, errors)
  {
    assert sorted[0] in sorted;
    TableHeadUnbroken(sorted[0]);
    RowsUnbroken(sorted);
    SavingsUnbroken(sorted);
    FlatUnbroken(TableHead(sorted[0]));
    FlatUnbroken(Rows(sorted));
    FlatUnbroken(SavingsLines(sorted));
    SplitOfJoin(ReportLines(query, sorted, errors));
    FlatSingle(TITLE + query);
    FlatOfParts([TITLE + query], TableHead(sorted[0]), Rows(sorted), SavingsLines(sorted), LinkLines(sorted), NoteLines(errors));
  }

  lemma FlatOfParts(a: seq<string>, b: seq<string>, c: seq<string>, d: seq<string>, e: seq<string>, f: seq<string>)
    ensures Flat(a + b + c + (d + e + f)) == Flat(a) + Flat(b) + Flat(c) + (Flat(d) + Flat(e) + Flat(f))
  {
    FlatConcat(a, b);
    FlatConcat(a + b, c);
    FlatConcat(d, e);
    FlatConcat(d + e, f);
    FlatConcat(a + b + c, d + e + f);
  }

  lemma OnlyTheMiddle<T>(a: seq<T>, b: seq<T>, all: seq<T>)
    requires a + b <= all
    ensures all == b <==> a == [] && all == a + b
  {
  }

  /** A table read between any lines shows its rows, and nothing else iff those lines are no rows. */
  lemma TableBetween(lines: seq<string>, sorted: seq<StoreResult>, rest: seq<string>)
    requires sorted != [] && forall r :: r in sorted ==> Printable(r)
    ensures var cards := ReadLines(lines + TableHead(sorted[0]) + Rows(sorted) + rest).1;
            var expected := ExpectedCards(sorted, sorted[0].store);
            ReadLines(lines).1 + expected <= cards && (cards == expected <==> Inert(lines) && Inert(rest))
  {
    TableRead(lines, sorted);
    NoCardsIff(lines);
    var table := lines + TableHead(sorted[0]) + Rows(sorted);
    CardsGrow(table, rest);
    OnlyTheMiddle(ReadLines(lines).1, ExpectedCards(sorted, sorted[0].store), ReadLines(table + rest).1);
  }

  lemma NoCardsIff(lines: seq<string>)
    ensures ReadLines(lines).1 == [] <==> Inert(lines)
  {
    CardsGrow([], lines);
    assert [] + lines == lines;
  }

  /** With a valid result, the page shows the printed rows and no other card iff there is no stray row. */
  lemma TableRoundTrip(query: string, sorted: seq<StoreResult>, errors: seq<StoreResult>)
    requires sorted != [] && (forall r :: r in sorted ==> Printable(r)) && forall r :: r in errors ==> r.error.Some?
    ensures var cards := ReadLines(Split(Join(ReportLines(query, sorted, errors)))).1;
            var expected := ExpectedCards(sorted, sorted[0].store);
            && (exists before :: before + expected <= cards)
            && (cards == expected <==> NoStrayRow(query, sorted, errors))
  {
    ReportSplit(query, sorted, errors);
    TitleInertIff(query);
    AfterRowsInertIff(sorted, errors);
    TableBetween(Split(TITLE + query), sorted, AfterRows(sorted, errors));
  }

  /** An apostrophe comes before any bar. */
  lemma ApologyIsNoRow(rest: string)
    ensures ParseRow(SORRY + rest).None?
  {
    var text := SORRY + rest;
    assert text[8] == SORRY[8] == '\'' && text[..8] == "I couldn";
    OddCharBeforeBar(text, 8);
  }

  lemma ApologyHasNoCardsIff(query: string, errors: seq<StoreResult>)
    ensures ReadLines(Split(SORRY + ApologyTail(query, errors))).1 == [] <==> Inert(Stray(ApologyTail(query, errors)))
  {
    var rest := ApologyTail(query, errors);
    ApologyIsNoRow(Split(rest)[0]);
    SorryUnbroken();
    InertAfterFirst(SORRY, rest);
    NoCardsIff(Split(SORRY + rest));
  }

  lemma SorryUnbroken()
    ensures Lacks('\n', SORRY)
  {
  }

  /**
   What the chat page reads from the text of a comparison, for any query, links and error texts. The
   cards contain one per valid result, cheapest first, equal prices in listing order, each with the
   printed cells, the cheapest store marked. There is no other card if and only if no later line of the
   query, of a link or of the error texts is itself a table row; without a valid result, if and only if
   no later line of the apology is.
   */
  lemma ChatRoundTrip(query: string, results: seq<StoreResult>)
    requires forall r :: r in results ==> Printable(r)
    ensures forall r :: r in Errors(results) ==> r.error.Some?
    ensures var (sorted, errors) := (Sorted(results), Errors(results));
            var cards := ReadLines(Split(Report(query, results))).1;
            if sorted == [] then cards == [] <==> Inert(Stray(ApologyTail(query, errors)))
            else
              var expected := ExpectedCards(sorted, sorted[0].store);
              && (exists before :: before + expected <= cards)
              && (cards == expected <==> NoStrayRow(query, sorted, errors))
  {
    var sorted, errors := Sorted(results), Errors(results);
    ValidMembers(results);
    if sorted == [] {
      ApologyHasNoCardsIff(query, errors);
    } else {
      TableRoundTrip(query, sorted, errors);
    }
  }

  // ----- Texts without newlines -----

  lemma {:induction false} NotesLackNewline(errors: seq<StoreResult>)
    requires forall r :: r in errors ==> r.error.Some? && Lacks('\n', r.error.value) && WordName(r.store)
    ensures Lacks('\n', Notes(errors))
  {
    if errors != [] {
      NotesLackNewline(errors[..|errors| - 1]);
      assert errors[|errors| - 1] in errors;
    }
  }

  /** Where queries, links and error texts are single lines, the page shows exactly the printed rows. */
  lemma SingleLinesRoundTrip(query: string, results: seq<StoreResult>)
    requires Lacks('\n', query) && Sorted(results) != []
    requires forall r :: r in results ==>
               Printable(r) && Lacks('\n', r.link) && (r.error.Some? ==> Lacks('\n', r.error.value))
    ensures ReadLines(Split(Report(query, results))).1 == ExpectedCards(Sorted(results), Sorted(results)[0].store)
  {
    ValidMembers(results);
    SplitSingle(query);
    forall r | r in Sorted(results) ensures Inert(Stray(r.link)) {
      SplitSingle(r.link);
    }
    NotesLackNewline(Errors(results));
    SplitSingle(Notes(Errors(results)));
    ChatRoundTrip(query, results);
  }
}
