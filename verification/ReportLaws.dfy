/** What the printed report and the cards read from it say, in the fields of the results. */
module ReportLaws {
  import opened Prelude
  import opened Decimal
  import opened PriceText
  import opened PriceCards
  import opened PriceTable
  import opened PriceReport

  // ----- Amounts -----

  /** The number in the text is the whole number nearest to value / unit; of two, the even one. */
  ghost predicate Shows(text: string, value: int, unit: int) {
    var n := CleanPrice(text).Floor;
    && CleanPrice(text) == n as real && n >= 0
    && -unit <= 2 * (n * unit - value) <= unit
    && (2 * (n * unit - value) == unit || 2 * (n * unit - value) == -unit ==> n % 2 == 0)
  }

  lemma FloorOfWhole(x: real, n: int)
    requires x == n as real
    ensures x.Floor == n
  {
  }

  /** A text that keeps the digits of the rounded value shows it. */
  lemma ShowsRounded(text: string, value: nat, unit: nat)
    requires unit > 0 && Round(value, unit) >= 0 && Keep(text) == Digits(Round(value, unit))
    ensures Shows(text, value, unit)
  {
    CleanOf(text, Round(value, unit));
    FloorOfWhole(CleanPrice(text), Round(value, unit));
    RoundIsNearest(value, unit);
  }

  /** A comma before every third digit from the right, and none in front. */
  ghost predicate Grouped(text: string) {
    text != "" && text[0] != ',' && forall i :: 0 <= i < |text| ==> (text[i] == ',' <==> (|text| - i) % 4 == 0)
  }

  /** A grouped amount in rupees, from paise. */
  ghost predicate Rupees(text: string, paise: int) {
    Shows(text, paise, 100) && Grouped(text)
  }

  /** A whole number and a percent sign, from tenths of a percent. */
  ghost predicate Percent(text: string, tenths: int) {
    Shows(text, tenths, 10) && text != "" && AllDigits(text[..|text| - 1]) && text[|text| - 1] == '%'
  }

  lemma CommasShow(paise: nat)
    ensures Rupees(Commas(WholeRupees(paise)), paise)
  {
    CommasGroupThrees(WholeRupees(paise));
    KeepOfCommas(WholeRupees(paise));
    ShowsRounded(Commas(WholeRupees(paise)), paise, 100);
  }

  lemma PercentShows(tenths: nat)
    ensures Percent(Digits(WholePercent(tenths)) + "%", tenths)
  {
    var digits := Digits(WholePercent(tenths));
    DigitsDigits(WholePercent(tenths));
    KeepOfDigits(digits);
    KeepConcat(digits, "%");
    assert "%"[1..] == "" && Keep("%") == "";
    assert digits + "" == digits;
    ShowsRounded(digits + "%", tenths, 10);
  }

  lemma CountShows(count: nat)
    ensures CleanPrice(Commas(count)) == count as real && Grouped(Commas(count))
  {
    CommasGroupThrees(count);
    KeepOfCommas(count);
    CleanOf(Commas(count), count);
  }

  // ----- The cards -----

  /** An MRP that is absent or zero is printed as "N/A". */
  ghost predicate MrpSays(text: string, mrp: Option<nat>) {
    if mrp.Some? && mrp.value > 0 then text != "" && text[0] == RUPEE && Rupees(text[1..], mrp.value) else text == "N/A"
  }

  /** And so is a discount. */
  ghost predicate DiscountSays(text: string, discount: Option<nat>) {
    if discount.Some? && discount.value > 0 then Percent(text, discount.value) else text == "N/A"
  }

  ghost predicate RatingSays(text: string, r: StoreResult) {
    var stars := if r.rating.Some? && r.rating.value != "0.0" then r.rating.value + "\U{2605}" else "N/A";
    if r.reviewCount.Some? && r.reviewCount.value > 0 then
      exists count :: text == stars + " (" + count + ")" && CleanPrice(count) == r.reviewCount.value as real && Grouped(count)
    else text == stars
  }

  /** What the card of a result says when `best` is the cheapest store. */
  ghost predicate CardSays(card: Card, r: StoreResult, best: string) {
    && card.fields.store == r.store
    && (card.isBest <==> r.store == best)
    && Rupees(card.fields.price, r.price)
    && MrpSays(card.fields.mrp, r.mrp)
    && DiscountSays(card.fields.discount, r.discount)
    && RatingSays(card.fields.rating, r)
  }

  lemma CardOf(r: StoreResult, best: string)
    ensures CardSays(Card(Expected(r), r.store == best), r, best)
  {
    CommasShow(r.price);
    if r.mrp.Some? {
      CommasShow(r.mrp.value);
      assert r.mrp.value > 0 ==> MrpCell(r)[1..] == Commas(WholeRupees(r.mrp.value));
    }
    if r.discount.Some? {
      PercentShows(r.discount.value);
    }
    RatingOf(r);
  }

  lemma RatingOf(r: StoreResult)
    ensures RatingSays(RatingCell(r), r)
  {
    if r.reviewCount.Some? && r.reviewCount.value > 0 {
      var stars := if r.rating.Some? && r.rating.value != "0.0" then r.rating.value + "\U{2605}" else "N/A";
      var count := Commas(r.reviewCount.value);
      CountShows(r.reviewCount.value);
      assert RatingCell(r) == stars + (" (" + count + ")") == stars + " (" + count + ")";
    }
  }

  /** The cards from `first` on are those of the sorted results. */
  ghost predicate AllSay(cards: seq<Card>, first: nat, sorted: seq<StoreResult>, best: string) {
    first + |sorted| <= |cards| && forall k :: 0 <= k < |sorted| ==> CardSays(cards[first + k], sorted[k], best)
  }

  /** The k-th expected card is that of the k-th result. */
  lemma {:induction false} ExpectedAt(sorted: seq<StoreResult>, best: string, k: nat)
    requires k < |sorted|
    ensures |ExpectedCards(sorted, best)| == |sorted|
    ensures ExpectedCards(sorted, best)[k] == Card(Expected(sorted[k]), sorted[k].store == best)
  {
    if |sorted| > 1 {
      ExpectedAt(sorted[..|sorted| - 1], best, if k < |sorted| - 1 then k else 0);
    }
  }

  lemma ExpectedSays(sorted: seq<StoreResult>, best: string)
    ensures |ExpectedCards(sorted, best)| == |sorted| && AllSay(ExpectedCards(sorted, best), 0, sorted, best)
  {
    if sorted != [] {
      ExpectedAt(sorted, best, 0);
    }
    var cards := ExpectedCards(sorted, best);
    forall k | 0 <= k < |sorted| ensures CardSays(cards[0 + k], sorted[k], best) {
      ExpectedAt(sorted, best, k);
      CardOf(sorted[k], best);
    }
  }

  /** Cards that are part of a longer list say the same there. */
  lemma AllSayWithin(before: seq<Card>, cards: seq<Card>, all: seq<Card>, sorted: seq<StoreResult>, best: string)
    requires before + cards <= all && AllSay(cards, 0, sorted, best)
    ensures AllSay(all, |before|, sorted, best)
  {
    forall k | 0 <= k < |sorted| ensures CardSays(all[|before| + k], sorted[k], best) {
      assert all[|before| + k] == (before + cards)[|before| + k] == cards[0 + k];
    }
  }

  lemma WholeIsPart<T>(before: seq<T>, part: seq<T>, all: seq<T>)
    requires before + part <= all
    ensures |before| == 0 && |all| == |part| <==> all == part
  {
  }

  /**
   Every listing without an error and with a price above zero gets one card, cheapest first: its store,
   its price, MRP and discount to the nearest whole number, its rating and reviews; the cheapest
   store is marked. These cards stand together, and are all the page shows if and only if no other line
   of the report is a row.
   */
  lemma ChatShowsResults(query: string, results: seq<StoreResult>) returns (first: nat)
    requires forall r :: r in results ==> Printable(r)
    requires Sorted(results) != []
    ensures forall r :: r in Errors(results) ==> r.error.Some?
    ensures var (sorted, cards) := (Sorted(results), ReadLines(Split(Report(query, results))).1);
            && AllSay(cards, first, sorted, sorted[0].store)
            && (first == 0 && |cards| == |sorted| <==> NoStrayRow(query, sorted, Errors(results)))
  {
    ChatRoundTrip(query, results);
    var sorted := Sorted(results);
    first := Locate(ReadLines(Split(Report(query, results))).1, sorted, sorted[0].store);
  }

  lemma Locate(cards: seq<Card>, sorted: seq<StoreResult>, best: string) returns (first: nat)
    requires exists before :: before + ExpectedCards(sorted, best) <= cards
    ensures AllSay(cards, first, sorted, best)
    ensures first == 0 && |cards| == |sorted| <==> cards == ExpectedCards(sorted, best)
  {
    var expected := ExpectedCards(sorted, best);
    var before :| before + expected <= cards;
    first := |before|;
    ExpectedSays(sorted, best);
    AllSayWithin(before, expected, cards, sorted, best);
    WholeIsPart(before, expected, cards);
  }

  /** The same for listings of single lines: the page shows these cards and no other. */
  lemma SingleLinesShowResults(query: string, results: seq<StoreResult>)
    requires Lacks('\n', query) && Sorted(results) != []
    requires forall r :: r in results ==>
               Printable(r) && Lacks('\n', r.link) && (r.error.Some? ==> Lacks('\n', r.error.value))
    ensures var (sorted, cards) := (Sorted(results), ReadLines(Split(Report(query, results))).1);
            |cards| == |sorted| && AllSay(cards, 0, sorted, sorted[0].store)
  {
    SingleLinesRoundTrip(query, results);
    ExpectedSays(Sorted(results), Sorted(results)[0].store);
  }

  // ----- The order -----

  /** Which results get a card, and in which order. */
  lemma SortedInOrder(results: seq<StoreResult>, price: int)
    ensures forall r :: r in Sorted(results) <==> r in results && r.error.None? && r.price > 0
    ensures forall i, j :: 0 <= i < j < |Sorted(results)| ==> Sorted(results)[i].price <= Sorted(results)[j].price
    ensures AtPrice(Sorted(results), price) == AtPrice(ValidOnes(results), price)
  {
    SortIsStableSort(ValidOnes(results), price);
  }

  // ----- The other lines -----

  /** The best line names the cheapest result with its price and its discount, if it has one. */
  lemma BestLineSays(best: StoreResult) returns (price: string, off: string)
    ensures BestLine(best) == "\U{1F3C6} BEST DEAL: " + best.store + (" \U{2014} \U{20B9}" + price + off)
    ensures Rupees(price, best.price) && OffSays(off, best.discount)
  {
    price := Commas(WholeRupees(best.price));
    CommasShow(best.price);
    off := OffText(best.discount);
    assert " \U{2014} " + [RUPEE] == " \U{2014} \U{20B9}";
    assert BestTail(best) == " \U{2014} " + [RUPEE] + price + off;
  }

  ghost predicate OffSays(off: string, discount: Option<nat>) {
    if discount.Some? && discount.value > 0
    then |off| > 7 && off == " (" + off[2..|off| - 5] + " off)" && Percent(off[2..|off| - 5], discount.value)
    else off == ""
  }

  lemma OffText(discount: Option<nat>) returns (off: string)
    ensures off == if discount.Some? && discount.value != 0 then " (" + Digits(WholePercent(discount.value)) + "% off)" else ""
    ensures OffSays(off, discount)
  {
    off := "";
    if discount.Some? && discount.value != 0 {
      var percent := Digits(WholePercent(discount.value)) + "%";
      PercentShows(discount.value);
      off := " (" + percent + " off)";
      assert off[2..|off| - 5] == percent;
      assert off == " (" + Digits(WholePercent(discount.value)) + "% off)";
    }
  }

  /** A saving is printed iff the last result is dearer than the first: their difference and the two stores. */
  lemma SavingsSay(sorted: seq<StoreResult>) returns (amount: string)
    requires sorted != []
    ensures var (first, last) := (sorted[0], sorted[|sorted| - 1]);
            if last.price > first.price then
              && SavingsLines(sorted) ==
                   ["", "\U{1F4A1} You save \U{20B9}" + amount + " by buying on " + first.store + " vs " + last.store + "."]
              && Rupees(amount, last.price - first.price)
            else SavingsLines(sorted) == []
  {
    var saved := sorted[|sorted| - 1].price - sorted[0].price;
    amount := "";
    if saved > 0 {
      amount := Commas(WholeRupees(saved));
      CommasShow(saved);
      assert "\U{1F4A1} You save " + [RUPEE] == "\U{1F4A1} You save \U{20B9}";
    }
  }

  /** Each result with a link is listed under the table, one after the other. */
  lemma LinksSnoc(sorted: seq<StoreResult>, r: StoreResult)
    ensures LinkParts([]) == []
    ensures LinkParts(sorted + [r]) == LinkParts(sorted) + (if r.link != "" then [r.store + ": " + r.link] else [])
    ensures LinkLines(sorted + [r]) ==
              if LinkParts(sorted) == [] && r.link == "" then [] else ["", "\U{1F517} Links:"] + LinkParts(sorted + [r])
  {
    assert (sorted + [r])[..|sorted|] == sorted;
  }

  /** Each failed store is noted with its error text, separated by commas. */
  lemma NotesSnoc(errors: seq<StoreResult>, r: StoreResult)
    requires forall e :: e in errors ==> e.error.Some?
    requires r.error.Some?
    ensures NoteLines([]) == []
    ensures NoteLines(errors + [r]) == ["", "\U{26A0}\U{FE0F} Some stores unavailable: " + Notes(errors + [r])]
    ensures Notes(errors + [r]) == (if errors == [] then "" else Notes(errors) + ", ") + (r.store + " (" + r.error.value + ")")
    ensures StoreList(errors + [r]) == (if errors == [] then "" else StoreList(errors) + ", ") + r.store
  {
    assert (errors + [r])[..|errors|] == errors;
  }

  /** Without a valid result the text is the apology. */
  lemma ApologyText(query: string, results: seq<StoreResult>)
    requires forall r :: r in results ==> r.error.Some? || r.price == 0
    ensures Report(query, results) ==
              "I couldn't" + (" fetch live prices for '" + query + "' right now. Stores unavailable: " +
                (if Errors(results) == [] then "all stores" else StoreList(Errors(results))) + ". Please try again in a moment.")
  {
    HeadIsMember(Sorted(results));
  }

  /** With one, it is made of the title, the head, the rows, the saving, the links and the notes. */
  lemma ReportText(query: string, results: seq<StoreResult>)
    requires Sorted(results) != []
    ensures forall r :: r in Errors(results) ==> r.error.Some?
    ensures Report(query, results) ==
              Join(["PRICE COMPARISON: " + query] + TableHead(Sorted(results)[0]) + Rows(Sorted(results)) +
                   (SavingsLines(Sorted(results)) + LinkLines(Sorted(results)) + NoteLines(Errors(results))))
  {
    ValidMembers(results);
  }

  /** The best line and the headings, between rulings. */
  lemma HeadText(best: StoreResult)
    ensures |TableHead(best)| == 5 && TableHead(best)[1] == BestLine(best) && TableHead(best)[2] == ""
    ensures TableHead(best)[0] == seq(40, _ => '\U{2501}') && TableHead(best)[4] == seq(65, _ => '-')
    ensures TableHead(best)[3] == PadRight("Store", 12) + " | " + PadRight("Price", 10) + " | " + PadRight("MRP", 10) + " | " +
                                  PadRight("Discount", 10) + " | " + "Rating"
  {
    RepeatAt('\U{2501}', 40);
    RepeatAt('-', 65);
  }

  // ----- The columns -----

  /** Text, then blanks up to the width; text that is too long is not cut. */
  lemma PaddedCell(s: string, width: nat)
    ensures |PadRight(s, width)| == Max(|s|, width) && s <= PadRight(s, width)
    ensures forall i :: |s| <= i < |PadRight(s, width)| ==> PadRight(s, width)[i] == ' '
  {
    if |s| < width {
      SpacesCount(width - |s|);
      SpacesAreSpace(width - |s|);
    }
  }

  lemma {:induction false} SpacesCount(n: nat)
    ensures |Spaces(n)| == n
  {
    if n > 0 {
      SpacesCount(n - 1);
    }
  }

  /** The bars of a table line stand at 13, 26, 39 and 52. */
  ghost predicate BarsAligned(line: string) {
    |line| > 53 && line[13] == BAR && line[26] == BAR && line[39] == BAR && line[52] == BAR
  }

  lemma BarsOf(a: string, b: string, c: string, d: string, e: string)
    requires |a| == 12 && |b| == |c| == |d| == 10 && e != ""
    ensures BarsAligned(a + " | " + b + " | " + c + " | " + d + " | " + e)
  {
    var bar := " | ";
    assert bar[1] == BAR;
    var l1 := a + bar;
    var l2 := l1 + b + bar;
    var l3 := l2 + c + bar;
    var l4 := l3 + d + bar;
    assert l1[13] == BAR && l2[26] == BAR && l3[39] == BAR && l4[52] == BAR;
    assert l1 <= l2 <= l3 <= l4;
  }

  /** Rows whose cells fit stand under the headings. */
  lemma ColumnsAlign(r: StoreResult)
    ensures BarsAligned(HeaderLine())
    ensures |r.store| <= 12 && |PriceCell(r)| <= 9 && |MrpCell(r)| <= 10 && |DiscountCell(r)| <= 10 ==> BarsAligned(Row(r))
  {
    PaddedCell("Store", 12);
    PaddedCell("Price", 10);
    PaddedCell("MRP", 10);
    PaddedCell("Discount", 10);
    BarsOf(PadRight("Store", 12), PadRight("Price", 10), PadRight("MRP", 10), PadRight("Discount", 10), "Rating");
    PaddedCell(r.store, 12);
    PaddedCell(PriceCell(r), 9);
    PaddedCell(MrpCell(r), 10);
    PaddedCell(DiscountCell(r), 10);
    if |r.store| <= 12 && |PriceCell(r)| <= 9 && |MrpCell(r)| <= 10 && |DiscountCell(r)| <= 10 {
      BarsOf(PadRight(r.store, 12), [RUPEE] + PadRight(PriceCell(r), 9), PadRight(MrpCell(r), 10),
             PadRight(DiscountCell(r), 10), RatingCell(r));
      assert PadRight(r.store, 12) + " | " + [RUPEE] + PadRight(PriceCell(r), 9)
          == PadRight(r.store, 12) + " | " + ([RUPEE] + PadRight(PriceCell(r), 9));
    }
  }
}
