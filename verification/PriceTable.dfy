/**
 The comparison table printed for the chat, and what the card parser makes of it.

 Prices are in paise and discounts in tenths of a percent, so that `:.0f` is rounding half to
 even. A row is spelled out cell by cell and read back by the parser of `PriceCards`; every other
 line of a report is shown to be no row, by a character that cannot stand before the first bar.
 */
module PriceTable {
  import opened Prelude
  import opened Decimal
  import opened PriceText
  import opened PriceCards

  /** `rating` is the text of the number; `link` is the URL with the affiliate parameters. */
  datatype StoreResult = StoreResult(store: string, price: nat, mrp: Option<nat>, discount: Option<nat>,
                                     rating: Option<string>, reviewCount: Option<nat>, link: string,
                                     error: Option<string>)

  // ----- Cells -----

  function WholeRupees(paise: nat): nat {
    RoundNonNegative(paise, 100);
    Round(paise, 100)
  }

  function WholePercent(tenths: nat): nat {
    RoundNonNegative(tenths, 10);
    Round(tenths, 10)
  }

  function PriceCell(r: StoreResult): string {
    Commas(WholeRupees(r.price))
  }

  function MrpCell(r: StoreResult): string {
    if r.mrp.Some? && r.mrp.value != 0 then [RUPEE] + Commas(WholeRupees(r.mrp.value)) else "N/A"
  }

  function DiscountCell(r: StoreResult): string {
    if r.discount.Some? && r.discount.value != 0 then Digits(WholePercent(r.discount.value)) + "%" else "N/A"
  }

  function RatingCell(r: StoreResult): string {
    (if r.rating.Some? && r.rating.value != "0.0" then r.rating.value + "\U{2605}" else "N/A") +
      (if r.reviewCount.Some? && r.reviewCount.value != 0 then " (" + Commas(r.reviewCount.value) + ")" else "")
  }

  function Spaces(n: nat): string {
    if n == 0 then "" else Spaces(n - 1) + " "
  }

  /** `{s:<width}` */
  function PadRight(s: string, width: nat): string {
    s + (if |s| < width then Spaces(width - |s|) else "")
  }

  function Row(r: StoreResult): string {
    PadRight(r.store, 12) + " | " + [RUPEE] + PadRight(PriceCell(r), 9) + " | " + PadRight(MrpCell(r), 10) + " | " +
      PadRight(DiscountCell(r), 10) + " | " + RatingCell(r)
  }

  // ----- Sorting -----

  predicate IsValid(r: StoreResult) {
    r.error.None? && r.price > 0
  }

  function ValidOnes(results: seq<StoreResult>): seq<StoreResult> {
    if results == [] then []
    else if IsValid(results[0]) then [results[0]] + ValidOnes(results[1..])
    else ValidOnes(results[1..])
  }

  function Errors(results: seq<StoreResult>): seq<StoreResult> {
    if results == [] then []
    else if results[0].error.Some? then [results[0]] + Errors(results[1..])
    else Errors(results[1..])
  }

  /** Insert after everything that is not dearer. */
  function Insert(sorted: seq<StoreResult>, r: StoreResult): seq<StoreResult> {
    if sorted == [] then [r]
    else if sorted[|sorted| - 1].price <= r.price then sorted + [r]
    else Insert(sorted[..|sorted| - 1], r) + [sorted[|sorted| - 1]]
  }

  /** `sort(key=price)`, which is stable */
  function SortByPrice(rs: seq<StoreResult>): seq<StoreResult> {
    if rs == [] then [] else Insert(SortByPrice(rs[..|rs| - 1]), rs[|rs| - 1])
  }

  ghost predicate Ascending(rs: seq<StoreResult>) {
    forall i, j :: 0 <= i < j < |rs| ==> rs[i].price <= rs[j].price
  }

  function AtPrice(rs: seq<StoreResult>, price: int): seq<StoreResult> {
    if rs == [] then []
    else AtPrice(rs[..|rs| - 1], price) + (if rs[|rs| - 1].price == price then [rs[|rs| - 1]] else [])
  }

  lemma {:induction false} InsertPermutes(sorted: seq<StoreResult>, r: StoreResult)
    ensures multiset(Insert(sorted, r)) == multiset(sorted) + multiset{r}
  {
    if sorted != [] && sorted[|sorted| - 1].price > r.price {
      var front, last := sorted[..|sorted| - 1], sorted[|sorted| - 1];
      InsertPermutes(front, r);
      assert sorted == front + [last];
    }
  }

  lemma {:induction false} InsertSorts(sorted: seq<StoreResult>, r: StoreResult)
    requires Ascending(sorted)
    ensures Ascending(Insert(sorted, r))
    ensures forall i :: 0 <= i < |Insert(sorted, r)| ==>
              Insert(sorted, r)[i].price <= (if sorted == [] then r.price else Max(r.price, sorted[|sorted| - 1].price))
  {
    if sorted != [] && sorted[|sorted| - 1].price > r.price {
      InsertSorts(sorted[..|sorted| - 1], r);
    }
  }

  lemma AtPriceSnoc(rs: seq<StoreResult>, r: StoreResult, price: int)
    ensures AtPrice(rs + [r], price) == AtPrice(rs, price) + (if r.price == price then [r] else [])
  {
    assert (rs + [r])[..|rs|] == rs;
  }

  lemma {:induction false} InsertIsStable(sorted: seq<StoreResult>, r: StoreResult, price: int)
    ensures AtPrice(Insert(sorted, r), price) == AtPrice(sorted + [r], price)
  {
    AtPriceSnoc(sorted, r, price);
    if sorted == [] {
      assert sorted + [r] == [r];
    } else if sorted[|sorted| - 1].price > r.price {
      var front, last := sorted[..|sorted| - 1], sorted[|sorted| - 1];
      assert Insert(sorted, r) == Insert(front, r) + [last];
      InsertIsStable(front, r, price);
      AtPriceSnoc(front, r, price);
      AtPriceSnoc(Insert(front, r), last, price);
      assert AtPrice(sorted, price) == AtPrice(front, price) + (if last.price == price then [last] else []);
    }
  }

  /** The sort rearranges, ascends, and keeps the order of equally priced results. */
  lemma {:induction false} SortIsStableSort(rs: seq<StoreResult>, price: int)
    ensures Ascending(SortByPrice(rs)) && multiset(SortByPrice(rs)) == multiset(rs)
    ensures AtPrice(SortByPrice(rs), price) == AtPrice(rs, price)
  {
    if rs != [] {
      var front, last := rs[..|rs| - 1], rs[|rs| - 1];
      assert rs == front + [last];
      SortIsStableSort(front, price);
      InsertSorts(SortByPrice(front), last);
      InsertPermutes(SortByPrice(front), last);
      InsertIsStable(SortByPrice(front), last, price);
      AtPriceSnoc(SortByPrice(front), last, price);
      AtPriceSnoc(front, last, price);
    }
  }

  // ----- The report -----

  function Rows(rs: seq<StoreResult>): seq<string> {
    if rs == [] then [] else Rows(rs[..|rs| - 1]) + [Row(rs[|rs| - 1])]
  }

  function Repeat(c: char, n: nat): string {
    if n == 0 then "" else Repeat(c, n - 1) + [c]
  }

  function BestTail(best: StoreResult): string {
    " \U{2014} " + [RUPEE] + Commas(WholeRupees(best.price)) +
      (if best.discount.Some? && best.discount.value != 0
       then " (" + Digits(WholePercent(best.discount.value)) + "% off)" else "")
  }

  function BestLine(best: StoreResult): string {
    "\U{1F3C6} BEST DEAL: " + best.store + BestTail(best)
  }

  function HeaderLine(): string {
    PadRight("Store", 12) + " | " + PadRight("Price", 10) + " | " + PadRight("MRP", 10) + " | " +
      PadRight("Discount", 10) + " | " + "Rating"
  }

  const TITLE := "PRICE COMPARISON: "

  /** What stands between the title and the rows. */
  function TableHead(best: StoreResult): seq<string> {
    [Repeat('\U{2501}', 40), BestLine(best), "", HeaderLine(), Repeat('-', 65)]
  }

  function Heading(query: string, best: StoreResult): seq<string> {
    [TITLE + query] + TableHead(best)
  }

  /** The saving is printed after an empty line. */
  function SavingsLines(sorted: seq<StoreResult>): seq<string> {
    if |sorted| >= 2 && sorted[|sorted| - 1].price - sorted[0].price > 0 then
      ["", "\U{1F4A1} You save " + [RUPEE] + Commas(WholeRupees(sorted[|sorted| - 1].price - sorted[0].price)) +
           " by buying on " + sorted[0].store + " vs " + sorted[|sorted| - 1].store + "."]
    else []
  }

  function LinkParts(sorted: seq<StoreResult>): seq<string> {
    if sorted == [] then []
    else LinkParts(sorted[..|sorted| - 1]) +
         (if sorted[|sorted| - 1].link != "" then [sorted[|sorted| - 1].store + ": " + sorted[|sorted| - 1].link] else [])
  }

  const LINKS := "\U{1F517} Links:"

  function LinkLines(sorted: seq<StoreResult>): seq<string> {
    if LinkParts(sorted) == [] then [] else ["", LINKS] + LinkParts(sorted)
  }

  function Notes(errors: seq<StoreResult>): string
    requires forall r :: r in errors ==> r.error.Some?
  {
    if errors == [] then ""
    else
      var last := errors[|errors| - 1];
      (if |errors| == 1 then "" else Notes(errors[..|errors| - 1]) + ", ") + last.store + " (" + last.error.value + ")"
  }

  const WARNING := "\U{26A0}\U{FE0F} Some stores unavailable: "

  function NoteLines(errors: seq<StoreResult>): seq<string>
    requires forall r :: r in errors ==> r.error.Some?
  {
    if errors == [] then [] else ["", WARNING + Notes(errors)]
  }

  /** The lines of the table for a sorted, non-empty list of valid results. */
  function ReportLines(query: string, sorted: seq<StoreResult>, errors: seq<StoreResult>): seq<string>
    requires sorted != [] && (forall r :: r in errors ==> r.error.Some?)
  {
    Heading(query, sorted[0]) + Rows(sorted) + (SavingsLines(sorted) + LinkLines(sorted) + NoteLines(errors))
  }

  // ----- A row is parsed back -----

  ghost predicate WordName(s: string) {
    s != "" && forall i :: 0 <= i < |s| ==> IsWord(s[i])
  }

  /** The text of a float rating is made of digits and points. */
  ghost predicate PlainNumber(s: string) {
    s != "" && forall i :: 0 <= i < |s| ==> IsDigit(s[i]) || s[i] == '.'
  }

  ghost predicate Lacks(c: char, s: string) {
    c !in s
  }

  /** What the table takes for granted about a result. */
  ghost predicate Printable(r: StoreResult) {
    WordName(r.store) && (r.rating.Some? ==> PlainNumber(r.rating.value))
  }

  function Expected(r: StoreResult): Captures {
    Captures(r.store, PriceCell(r), MrpCell(r), DiscountCell(r), RatingCell(r))
  }

  lemma {:induction false} SpacesAreSpace(n: nat)
    ensures AllSpace(Spaces(n)) && forall i :: 0 <= i < |Spaces(n)| ==> Spaces(n)[i] == ' '
  {
    if n > 0 {
      SpacesAreSpace(n - 1);
    }
  }

  function Filler(s: string, width: nat): string {
    if |s| < width then Spaces(width - |s|) else ""
  }

  lemma FillerIsSpace(s: string, width: nat)
    ensures AllSpace(Filler(s, width) + " ")
  {
    if |s| < width {
      SpacesAreSpace(width - |s|);
    }
  }

  lemma {:induction false} CommasShape(n: nat)
    ensures AmountShape(Commas(n))
  {
    if n < 1000 {
      DigitsDigits(n);
    } else {
      CommasShape(n / 1000);
      PadDigits(n % 1000, 3);
    }
  }

  lemma MrpCellShape(r: StoreResult)
    ensures MrpShape(MrpCell(r))
  {
    if r.mrp.Some? && r.mrp.value != 0 {
      CommasShape(WholeRupees(r.mrp.value));
      assert MrpCell(r)[1..] == Commas(WholeRupees(r.mrp.value));
    }
  }

  lemma DiscountCellShape(r: StoreResult)
    ensures DiscountShape(DiscountCell(r))
  {
    if r.discount.Some? && r.discount.value != 0 {
      DigitsDigits(WholePercent(r.discount.value));
    }
  }

  /** Rating text: no colon, no line terminator, no white space at either end. */
  predicate RatingChar(c: char) {
    IsDigit(c) || c == '.' || c == '\U{2605}' || c == 'N' || c == '/' || c == 'A' || c == ' ' || c == '(' || c == ')' || c == ','
  }

  lemma RatingCellShape(r: StoreResult)
    requires Printable(r)
    ensures Tight(RatingCell(r)) && forall i :: 0 <= i < |RatingCell(r)| ==> RatingChar(RatingCell(r)[i])
  {
    if r.reviewCount.Some? && r.reviewCount.value != 0 {
      CommasShape(r.reviewCount.value);
    }
  }

  function RowGaps(r: StoreResult): Gaps {
    Gaps(Filler(r.store, 12) + " ", " ", Filler(PriceCell(r), 9) + " ", " ", Filler(MrpCell(r), 10) + " ", " ",
         Filler(DiscountCell(r), 10) + " ", " ")
  }

  lemma RowSpelled(r: StoreResult)
    ensures Row(r) == Spell(Expected(r), RowGaps(r))
  {
    var a, b, c, d, e := r.store, PriceCell(r), MrpCell(r), DiscountCell(r), RatingCell(r);
    SpellOut(a, Filler(a, 12), b, Filler(b, 9), c, Filler(c, 10), d, Filler(d, 10), e);
  }

  lemma SpellOut(a: string, fa: string, b: string, fb: string, c: string, fc: string, d: string, fd: string, e: string)
    ensures (a + fa) + " | " + [RUPEE] + (b + fb) + " | " + (c + fc) + " | " + (d + fd) + " | " + e
            == Spell(Captures(a, b, c, d, e), Gaps(fa + " ", " ", fb + " ", " ", fc + " ", " ", fd + " ", " "))
  {
    var t4 := " " + e;
    var t3 := (" " + d + (fd + " ")) + ([BAR] + t4);
    var t2 := (" " + c + (fc + " ")) + ([BAR] + t3);
    var t1 := (" " + ([RUPEE] + b) + (fb + " ")) + ([BAR] + t2);
    assert (d + fd) + " | " + e == d + fd + " " + ([BAR] + t4);
    assert " " + ((d + fd) + " | " + e) == t3;
    assert " " + ((c + fc) + " | " + ((d + fd) + " | " + e)) == t2;
    assert " " + ([RUPEE] + (b + fb) + " | " + ((c + fc) + " | " + ((d + fd) + " | " + e))) == t1;
  }

  /** The parser reads back exactly what a row was printed from. */
  lemma RowRoundTrip(r: StoreResult)
    requires Printable(r)
    ensures ParseRow(Row(r)) == Some(Expected(r))
  {
    var c, g := Expected(r), RowGaps(r);
    FillerIsSpace(r.store, 12);
    FillerIsSpace(PriceCell(r), 9);
    FillerIsSpace(MrpCell(r), 10);
    FillerIsSpace(DiscountCell(r), 10);
    CommasShape(WholeRupees(r.price));
    MrpCellShape(r);
    DiscountCellShape(r);
    RatingCellShape(r);
    RowSpelled(r);
    MatchIsParsed(Row(r), c, g);
    ExpectedIsTrimmed(r);
  }

  lemma ExpectedIsTrimmed(r: StoreResult)
    requires Printable(r)
    ensures Trimmed(Expected(r)) == Expected(r)
  {
    CommasShape(WholeRupees(r.price));
    MrpCellShape(r);
    DiscountCellShape(r);
    RatingCellShape(r);
    TrimOfTight("", r.store, "");
    AmountIsTight(PriceCell(r));
    TrimOfTight("", PriceCell(r), "");
    MrpIsTight(MrpCell(r));
    TrimOfTight("", MrpCell(r), "");
    DiscountIsTight(DiscountCell(r));
    TrimOfTight("", DiscountCell(r), "");
    TrimOfTight("", RatingCell(r), "");
  }

  // ----- No other line is taken for a row -----

  /** A line whose part before the first bar is not a store name is not a row. */
  lemma {:induction false} OddCharBeforeBar(line: string, k: nat)
    requires k < |line| && !IsWord(line[k]) && !IsSpace(line[k]) && line[k] != BAR && BAR !in line[..k]
    ensures ParseRow(line).None?
  {
    if CutAtBar(line).At? {
      var before := CutAtBar(line).before;
      CutSpells(line);
      CutBeforeFirst(line, k);
      assert before[k] == line[k];
    }
  }

  lemma {:induction false} CutBeforeFirst(s: string, k: nat)
    requires k < |s| && BAR !in s[..k] && s[k] != BAR
    ensures CutAtBar(s).At? ==> |CutAtBar(s).before| > k
  {
    if k > 0 {
      assert s[0] == s[..k][0];
      assert s[1..][..k - 1] == s[..k][1..];
      CutBeforeFirst(s[1..], k - 1);
    }
  }

  lemma EmptyLineIsOther()
    ensures ParseRow("").None? && BestIn("").None?
  {
  }

  lemma {:induction false} RepeatAt(c: char, n: nat)
    ensures |Repeat(c, n)| == n && forall i :: 0 <= i < n ==> Repeat(c, n)[i] == c
  {
    if n > 0 {
      RepeatAt(c, n - 1);
    }
  }

  lemma RowHasRupee(line: string)
    ensures ParseRow(line).Some? ==> RUPEE in line
  {
    if ParseRow(line).Some? {
      var c, g := ParsedIsMatch(line);
      var before := (c.store + g.afterStore) + ([BAR] + g.beforePrice);
      assert Spell(c, g)[|before|] == RUPEE;
    }
  }

  lemma LinkIsNoRow(store: string, link: string)
    requires WordName(store)
    ensures ParseRow(store + ": " + link).None?
  {
    var line := store + ": " + link;
    assert line[|store|] == ':' && line[..|store|] == store;
    OddCharBeforeBar(line, |store|);
  }

  lemma TitleIsNoRow(query: string)
    ensures ParseRow(TITLE + query).None?
  {
    var line := TITLE + query;
    assert line[16] == TITLE[16] == ':' && line[..16] == "PRICE COMPARISON";
    OddCharBeforeBar(line, 16);
  }

  // ----- What the loop makes of the whole report -----

  /** Lines that are no rows. */
  ghost predicate Inert(lines: seq<string>) {
    forall i :: 0 <= i < |lines| ==> ParseRow(lines[i]).None?
  }

  lemma ReadStep(lines: seq<string>, line: string)
    ensures ReadLines(lines).1 <= ReadLines(lines + [line]).1
    ensures ReadLines(lines + [line]).1 == ReadLines(lines).1 <==> ParseRow(line).None?
  {
    assert (lines + [line])[..|lines|] == lines;
  }

  lemma InertSnoc(lines: seq<string>, line: string)
    ensures Inert(lines + [line]) <==> Inert(lines) && ParseRow(line).None?
  {
    assert forall i :: 0 <= i < |lines| ==> (lines + [line])[i] == lines[i];
    assert (lines + [line])[|lines|] == line;
  }

  lemma GrowthAdds<T>(a: seq<T>, b: seq<T>, c: seq<T>)
    requires a <= b <= c
    ensures a <= c && (a == c <==> a == b && b == c)
  {
  }

  ghost predicate Grows(lines: seq<string>, more: seq<string>) {
    && ReadLines(lines).1 <= ReadLines(lines + more).1
    && (ReadLines(lines + more).1 == ReadLines(lines).1 <==> Inert(more))
  }

  lemma GrowsSnoc(lines: seq<string>, more: seq<string>, line: string)
    requires Grows(lines, more)
    ensures Grows(lines, more + [line])
  {
    OneByOne(lines, more, line);
    InertSnoc(more, line);
    ReadStep(lines + more, line);
    GrowthAdds(ReadLines(lines).1, ReadLines(lines + more).1, ReadLines(lines + more + [line]).1);
  }

  lemma GrowsByNothing(lines: seq<string>)
    ensures Grows(lines, [])
  {
    assert lines + [] == lines;
  }

  /** Reading on only adds cards, and adds none if and only if there is no row. */
  lemma {:induction false} CardsGrow(lines: seq<string>, more: seq<string>)
    ensures Grows(lines, more)
  {
    if |more| == 0 {
      GrowsByNothing(lines);
    } else {
      var front, last := more[..|more| - 1], more[|more| - 1];
      CardsGrow(lines, front);
      GrowsSnoc(lines, front, last);
      assert front + [last] == more;
    }
  }

  lemma MarkerHasColon(line: string)
    ensures MARKER <= line ==> ':' in line
  {
    if MARKER <= line {
      assert line[9] == MARKER[9];
    }
  }

  lemma LacksConcat(c: char, a: string, b: string)
    ensures Lacks(c, a + b) <==> Lacks(c, a) && Lacks(c, b)
  {
  }

  lemma LacksPadded(c: char, s: string, width: nat)
    requires Lacks(c, s) && c != ' '
    ensures Lacks(c, PadRight(s, width))
  {
    SpacesOnly(s, width);
    LacksConcat(c, s, Filler(s, width));
  }

  /** Cells between bars: a character found in no cell is not in the line. */
  lemma LacksLine(c: char, a: string, b: string, d: string, e: string, f: string)
    requires c != ' ' && c != BAR && Lacks(c, a) && Lacks(c, b) && Lacks(c, d) && Lacks(c, e) && Lacks(c, f)
    ensures Lacks(c, a + " | " + b + " | " + d + " | " + e + " | " + f)
  {
    var bar := " | ";
    assert Lacks(c, bar);
    LacksConcat(c, a, bar);
    LacksConcat(c, a + bar, b);
    LacksConcat(c, a + bar + b, bar);
    LacksConcat(c, a + bar + b + bar, d);
    LacksConcat(c, a + bar + b + bar + d, bar);
    LacksConcat(c, a + bar + b + bar + d + bar, e);
    LacksConcat(c, a + bar + b + bar + d + bar + e, bar);
    LacksConcat(c, a + bar + b + bar + d + bar + e + bar, f);
  }

  lemma HeaderLacks(c: char)
    requires c == ':' || c == RUPEE || c == '\n'
    ensures Lacks(c, HeaderLine())
  {
    LacksPadded(c, "Store", 12);
    LacksPadded(c, "Price", 10);
    LacksPadded(c, "MRP", 10);
    LacksPadded(c, "Discount", 10);
    LacksLine(c, PadRight("Store", 12), PadRight("Price", 10), PadRight("MRP", 10), PadRight("Discount", 10), "Rating");
  }

  /** A best-deal marker needs a colon. */
  lemma {:induction false} NoColonNoMarker(line: string)
    requires ':' !in line
    ensures BestIn(line).None?
  {
    MarkerHasColon(line);
    if line != "" {
      NoColonNoMarker(line[1..]);
    }
  }

  lemma {:induction false} TakeWholeWord(s: string, rest: string)
    requires (forall i :: 0 <= i < |s| ==> IsWord(s[i])) && (rest == "" || !IsWord(rest[0]))
    ensures TakeWord(s + rest) == s
  {
    if s == "" {
      assert s + rest == rest;
    } else {
      assert (s + rest)[1..] == s[1..] + rest;
      TakeWholeWord(s[1..], rest);
    }
  }

  lemma PrefixHead(p: string, s: string)
    requires p != "" && s != ""
    ensures p <= s ==> p[0] == s[0]
  {
  }

  lemma SkipsOtherChar(c: char, rest: string)
    requires c != 'B'
    ensures BestIn([c] + rest) == BestIn(rest)
  {
    var line := [c] + rest;
    assert line[1..] == rest;
    assert MARKER[0] == 'B';
    PrefixHead(MARKER, line);
  }

  lemma MarkerNames(store: string, tail: string)
    requires WordName(store) && (tail == "" || !IsWord(tail[0]))
    ensures BestIn(MARKER + ([' '] + (store + tail))) == Some(store)
  {
    var word := store + tail;
    var line := MARKER + ([' '] + word);
    TakeWholeWord(store, tail);
    assert word[0] == store[0] && !IsSpace(store[0]);
    assert ([' '] + word)[1..] == word;
    assert TrimLeft(word) == word;
    assert TrimLeft([' '] + word) == word;
    assert line[|MARKER|..] == [' '] + word;
    assert line[..|MARKER|] == MARKER;
  }

  lemma BestLineSpelled(best: StoreResult)
    ensures BestLine(best) == ['\U{1F3C6}'] + ([' '] + (MARKER + ([' '] + (best.store + BestTail(best)))))
  {
    assert "\U{1F3C6} BEST DEAL: " == ['\U{1F3C6}'] + ([' '] + (MARKER + [' ']));
  }

  lemma BestLineNamesBest(best: StoreResult)
    requires WordName(best.store)
    ensures BestIn(BestLine(best)) == Some(best.store) && ParseRow(BestLine(best)).None?
  {
    var line := BestLine(best);
    var body := MARKER + ([' '] + (best.store + BestTail(best)));
    BestLineSpelled(best);
    SkipsOtherChar('\U{1F3C6}', [' '] + body);
    SkipsOtherChar(' ', body);
    TailIsNoWord(best);
    MarkerNames(best.store, BestTail(best));
    assert line[..0] == "";
    OddCharBeforeBar(line, 0);
  }

  lemma TailIsNoWord(best: StoreResult)
    ensures BestTail(best) != "" && !IsWord(BestTail(best)[0])
  {
    assert BestTail(best)[0] == ' ';
  }

  lemma ReadOther(lines: seq<string>, line: string)
    requires ParseRow(line).None?
    ensures ReadLines(lines + [line]).1 == ReadLines(lines).1
    ensures ReadLines(lines + [line]).0 == if BestIn(line).Some? then BestIn(line).value else ReadLines(lines).0
  {
    assert (lines + [line])[..|lines|] == lines;
  }

  /** A ruling line is neither a row nor a marker. */
  lemma RulingIsOther(c: char, n: nat)
    requires n > 0 && !IsWord(c) && !IsSpace(c) && c != BAR && c != ':'
    ensures ParseRow(Repeat(c, n)).None? && BestIn(Repeat(c, n)).None?
  {
    RepeatAt(c, n);
    assert Repeat(c, n)[..0] == "";
    OddCharBeforeBar(Repeat(c, n), 0);
    NoColonNoMarker(Repeat(c, n));
  }

  lemma PlainIsOther(line: string)
    requires Lacks(':', line) && Lacks(RUPEE, line)
    ensures ParseRow(line).None? && BestIn(line).None?
  {
    RowHasRupee(line);
    NoColonNoMarker(line);
  }

  /** The table's head yields no card and names the best store, whatever was read before. */
  lemma TableHeadRead(lines: seq<string>, best: StoreResult)
    requires WordName(best.store)
    ensures ReadLines(lines + TableHead(best)) == (best.store, ReadLines(lines).1)
  {
    HeaderLacks(':');
    HeaderLacks(RUPEE);
    BestLineNamesBest(best);
    RulingIsOther('\U{2501}', 40);
    RulingIsOther('-', 65);
    FiveLinesRead(lines, Repeat('\U{2501}', 40), BestLine(best), HeaderLine(), Repeat('-', 65), best.store);
  }

  lemma FiveLinesRead(lines: seq<string>, rule1: string, bestLine: string, header: string, rule2: string, best: string)
    requires ParseRow(rule1).None? && ParseRow(rule2).None? && BestIn(rule2).None?
    requires ParseRow(bestLine).None? && BestIn(bestLine) == Some(best)
    requires Lacks(':', header) && Lacks(RUPEE, header)
    ensures ReadLines(lines + [rule1, bestLine, "", header, rule2]) == (best, ReadLines(lines).1)
  {
    EmptyLineIsOther();
    PlainIsOther(header);
    OneByOne(lines, [rule1], bestLine);
    ReadOther(lines, rule1);
    ReadOther(lines + [rule1], bestLine);
    ThreeLinesRead(lines + [rule1, bestLine], "", header, rule2);
    TwoAndThree(lines, rule1, bestLine, "", header, rule2);
  }

  lemma TwoAndThree<T>(s: seq<T>, a: T, b: T, c: T, d: T, e: T)
    ensures s + [a, b] + [c, d, e] == s + [a, b, c, d, e]
  {
  }

  lemma TwoLinesRead(lines: seq<string>, a: string, b: string)
    requires ParseRow(a).None? && ParseRow(b).None? && BestIn(a).None? && BestIn(b).None?
    ensures ReadLines(lines + [a, b]) == ReadLines(lines)
  {
    OneByOne(lines, [a], b);
    ReadOther(lines, a);
    ReadOther(lines + [a], b);
  }

  lemma ThreeLinesRead(lines: seq<string>, a: string, b: string, c: string)
    requires ParseRow(a).None? && ParseRow(b).None? && ParseRow(c).None?
    requires BestIn(a).None? && BestIn(b).None? && BestIn(c).None?
    ensures ReadLines(lines + [a, b, c]) == ReadLines(lines)
  {
    TwoLinesRead(lines, a, b);
    OneByOne(lines, [a, b], c);
    ReadOther(lines + [a, b], c);
  }

  lemma OneByOne<T>(s: seq<T>, t: seq<T>, x: T)
    ensures s + (t + [x]) == s + t + [x]
    ensures forall a, b :: t == [a, b] ==> t + [x] == [a, b, x]
    ensures forall a :: t == [a] ==> t + [x] == [a, x]
  {
  }

  /** The cards the page should show, in table order. */
  function ExpectedCards(sorted: seq<StoreResult>, best: string): seq<Card> {
    if sorted == [] then []
    else
      var last := sorted[|sorted| - 1];
      ExpectedCards(sorted[..|sorted| - 1], best) + [Card(Expected(last), last.store == best)]
  }

  lemma CellsLack(c: char, r: StoreResult)
    requires Printable(r) && (c == ':' || c == '\n')
    ensures Lacks(c, r.store) && Lacks(c, PriceCell(r)) && Lacks(c, MrpCell(r)) && Lacks(c, DiscountCell(r)) && Lacks(c, RatingCell(r))
  {
    CommasShape(WholeRupees(r.price));
    MrpCellShape(r);
    DiscountCellShape(r);
    RatingCellShape(r);
  }

  lemma RowLacks(c: char, r: StoreResult)
    requires Printable(r) && (c == ':' || c == '\n')
    ensures Lacks(c, Row(r))
  {
    CellsLack(c, r);
    LacksPadded(c, r.store, 12);
    LacksPadded(c, PriceCell(r), 9);
    LacksPadded(c, MrpCell(r), 10);
    LacksPadded(c, DiscountCell(r), 10);
    LacksConcat(c, [RUPEE], PadRight(PriceCell(r), 9));
    LacksLine(c, PadRight(r.store, 12), [RUPEE] + PadRight(PriceCell(r), 9), PadRight(MrpCell(r), 10),
              PadRight(DiscountCell(r), 10), RatingCell(r));
    assert PadRight(r.store, 12) + " | " + [RUPEE] + PadRight(PriceCell(r), 9)
        == PadRight(r.store, 12) + " | " + ([RUPEE] + PadRight(PriceCell(r), 9));
  }

  lemma SpacesOnly(s: string, width: nat)
    ensures forall c :: c in Filler(s, width) ==> c == ' '
  {
    if |s| < width {
      SpacesAreSpace(width - |s|);
    }
  }

  lemma ReadRow(lines: seq<string>, row: string, best: string, cards: seq<Card>)
    requires ParseRow(row).Some? && BestIn(row).None? && ReadLines(lines) == (best, cards)
    ensures ReadLines(lines + [row]) == (best, cards + [Card(ParseRow(row).value, ParseRow(row).value.store == best)])
  {
    assert (lines + [row])[..|lines|] == lines;
  }

  lemma RowIsCard(lines: seq<string>, r: StoreResult, best: string, cards: seq<Card>)
    requires Printable(r) && ReadLines(lines) == (best, cards)
    ensures ReadLines(lines + [Row(r)]) == (best, cards + [Card(Expected(r), r.store == best)])
  {
    RowRoundTrip(r);
    RowLacks(':', r);
    NoColonNoMarker(Row(r));
    ReadRow(lines, Row(r), best, cards);
  }

  lemma {:induction false} RowsRead(lines: seq<string>, sorted: seq<StoreResult>, best: string, cards: seq<Card>)
    requires forall r :: r in sorted ==> Printable(r)
    requires ReadLines(lines) == (best, cards)
    ensures ReadLines(lines + Rows(sorted)) == (best, cards + ExpectedCards(sorted, best))
  {
    if sorted == [] {
      assert lines + Rows(sorted) == lines && cards + ExpectedCards(sorted, best) == cards;
    } else {
      var front, last := sorted[..|sorted| - 1], sorted[|sorted| - 1];
      RowsRead(lines, front, best, cards);
      assert last in sorted;
      RowIsCard(lines + Rows(front), last, best, cards + ExpectedCards(front, best));
      OneByOne(lines, Rows(front), Row(last));
      OneByOne(cards, ExpectedCards(front, best), Card(Expected(last), last.store == best));
    }
  }

  /** The head and the rows after any lines: their cards, then one card per row. */
  lemma TableRead(lines: seq<string>, sorted: seq<StoreResult>)
    requires sorted != [] && forall r :: r in sorted ==> Printable(r)
    ensures ReadLines(lines + TableHead(sorted[0]) + Rows(sorted)).1 ==
              ReadLines(lines).1 + ExpectedCards(sorted, sorted[0].store)
  {
    assert sorted[0] in sorted;
    TableHeadRead(lines, sorted[0]);
    RowsRead(lines + TableHead(sorted[0]), sorted, sorted[0].store, ReadLines(lines).1);
  }

  lemma {:induction false} LinkPartsInert(sorted: seq<StoreResult>)
    requires forall r :: r in sorted ==> WordName(r.store)
    ensures Inert(LinkParts(sorted))
  {
    if sorted != [] {
      var front, last := sorted[..|sorted| - 1], sorted[|sorted| - 1];
      LinkPartsInert(front);
      assert last in sorted;
      LinkIsNoRow(last.store, last.link);
    }
  }

  lemma SavingsInert(sorted: seq<StoreResult>)
    ensures Inert(SavingsLines(sorted))
  {
    var lines := SavingsLines(sorted);
    if lines != [] {
      assert lines[1][0] == '\U{1F4A1}' && lines[1][..0] == "";
      OddCharBeforeBar(lines[1], 0);
    }
  }

  lemma NotesInert(errors: seq<StoreResult>)
    requires forall r :: r in errors ==> r.error.Some?
    ensures Inert(NoteLines(errors))
  {
    var lines := NoteLines(errors);
    if lines != [] {
      assert lines[1][0] == WARNING[0] == '\U{26A0}' && lines[1][..0] == "";
      OddCharBeforeBar(lines[1], 0);
    }
  }

  lemma InertConcat(a: seq<string>, b: seq<string>)
    requires Inert(a) && Inert(b)
    ensures Inert(a + b)
  {
  }

  lemma LinksInert(sorted: seq<StoreResult>)
    requires forall r :: r in sorted ==> WordName(r.store)
    ensures Inert(LinkLines(sorted))
  {
    var mark := LINKS;
    assert mark[0] == '\U{1F517}' && mark[..0] == "";
    OddCharBeforeBar(mark, 0);
    EmptyLineIsOther();
    assert Inert(["", mark]);
    LinkPartsInert(sorted);
    InertConcat(["", mark], LinkParts(sorted));
  }

  /**
   One card per printed row, in the same order, with the same store, price, MRP, discount and rating
   text; no other line of the report yields a card; and exactly the rows of the cheapest result's
   store are marked as best.
   */
  lemma ReportRoundTrip(query: string, sorted: seq<StoreResult>, errors: seq<StoreResult>)
    requires sorted != []
    requires forall r :: r in sorted ==> Printable(r)
    requires forall r :: r in errors ==> r.error.Some?
    ensures ReadLines(ReportLines(query, sorted, errors)).1 == ExpectedCards(sorted, sorted[0].store)
  {
    var rest := SavingsLines(sorted) + LinkLines(sorted) + NoteLines(errors);
    TitleIsNoRow(query);
    CardsGrow([], [TITLE + query]);
    assert [] + [TITLE + query] == [TITLE + query];
    TableRead([TITLE + query], sorted);
    SavingsInert(sorted);
    LinksInert(sorted);
    NotesInert(errors);
    InertConcat(SavingsLines(sorted), LinkLines(sorted));
    InertConcat(SavingsLines(sorted) + LinkLines(sorted), NoteLines(errors));
    CardsGrow(Heading(query, sorted[0]) + Rows(sorted), rest);
  }
}
