/**
 The line parser of the price cards.

 `Matches` is the regular expression, written as the ways a line can be cut into its captures and
 the white space between them; `ParseRow` finds the cut, and the two are proved to agree. The loop
 over the lines keeps the best store named so far and collects the rows it finds.
 */
module PriceCards {
  import opened Prelude
  import opened PriceText

  const BAR := '|'

  // ----- Character classes -----

  predicate IsWord(c: char) {
    'a' <= c <= 'z' || 'A' <= c <= 'Z' || IsDigit(c) || c == '_'
  }

  predicate IsTerminator(c: char) {
    c == '\n' || c == '\r' || c == '\U{2028}' || c == '\U{2029}'
  }

  /** \s, which is also what trim() strips */
  predicate IsSpace(c: char) {
    || IsTerminator(c) || c == ' ' || c == '\t' || c == '\U{0B}' || c == '\U{0C}' || c == '\U{A0}' || c == '\U{1680}'
    || '\U{2000}' <= c <= '\U{200A}' || c == '\U{202F}' || c == '\U{205F}' || c == '\U{3000}' || c == '\U{FEFF}'
  }

  predicate AllSpace(s: string) {
    forall i :: 0 <= i < |s| ==> IsSpace(s[i])
  }

  // ----- The captures -----

  predicate StoreShape(s: string) {
    s != "" && IsWord(s[0]) && forall i :: 0 <= i < |s| ==> IsWord(s[i]) || IsSpace(s[i])
  }

  predicate AmountShape(s: string) {
    s != "" && forall i :: 0 <= i < |s| ==> IsDigit(s[i]) || s[i] == ','
  }

  predicate MrpShape(s: string) {
    s == "N/A" || AmountShape(s) || (s != "" && s[0] == RUPEE && AmountShape(s[1..]))
  }

  predicate DiscountShape(s: string) {
    || s == "N/A"
    || (|s| >= 2 && s[|s| - 1] == '%' && forall i :: 0 <= i < |s| - 1 ==> IsDigit(s[i]) || s[i] == '.')
  }

  predicate RestShape(s: string) {
    s != "" && forall i :: 0 <= i < |s| ==> !IsTerminator(s[i])
  }

  datatype Captures = Captures(store: string, price: string, mrp: string, discount: string, rating: string)

  /** The eight runs of white space around the captures. */
  datatype Gaps = Gaps(afterStore: string, beforePrice: string, afterPrice: string, beforeMrp: string,
                       afterMrp: string, beforeDiscount: string, afterDiscount: string, beforeRating: string)

  predicate GapsAreSpace(g: Gaps) {
    && AllSpace(g.afterStore) && AllSpace(g.beforePrice) && AllSpace(g.afterPrice) && AllSpace(g.beforeMrp)
    && AllSpace(g.afterMrp) && AllSpace(g.beforeDiscount) && AllSpace(g.afterDiscount) && AllSpace(g.beforeRating)
  }

  predicate Shapely(c: Captures) {
    StoreShape(c.store) && AmountShape(c.price) && MrpShape(c.mrp) && DiscountShape(c.discount) && RestShape(c.rating)
  }

  /** The text that the captures and gaps spell. */
  function Spell(c: Captures, g: Gaps): string {
    (c.store + g.afterStore) + ([BAR] + ((g.beforePrice + ([RUPEE] + c.price) + g.afterPrice) + ([BAR] +
      ((g.beforeMrp + c.mrp + g.afterMrp) + ([BAR] + ((g.beforeDiscount + c.discount + g.afterDiscount) + ([BAR] +
        (g.beforeRating + c.rating))))))))
  }

  ghost predicate Matches(line: string, c: Captures, g: Gaps) {
    GapsAreSpace(g) && Shapely(c) && line == Spell(c, g)
  }

  const SPACE_CHARS := "\t\n\U{0B}\U{0C}\r \U{A0}\U{1680}\U{2000}\U{2001}\U{2002}\U{2003}\U{2004}\U{2005}\U{2006}\U{2007}\U{2008}\U{2009}\U{200A}\U{2028}\U{2029}\U{202F}\U{205F}\U{3000}\U{FEFF}"

  /** The characters that \w, \s and \d match, by code and one by one. */
  lemma CharacterClasses(c: char)
    ensures var code := c as int;
            && (IsWord(c) <==> 97 <= code <= 122 || 65 <= code <= 90 || 48 <= code <= 57 || code == 95)
            && (IsSpace(c) <==> c in SPACE_CHARS)
            && (IsDigit(c) <==> 48 <= code <= 57)
  {
  }

  /** Texts that the captures accept and texts that they do not. */
  lemma CapturesByExample()
    ensures StoreShape("Tata Cliq") && StoreShape("_1") && !StoreShape("") && !StoreShape(" Croma") && !StoreShape("A-B")
    ensures AmountShape("1,299") && AmountShape("5") && !AmountShape("") && !AmountShape("1.5") && !AmountShape("\U{20B9}5")
    ensures MrpShape("N/A") && MrpShape("2,499") && MrpShape("\U{20B9}2,499") && !MrpShape("\U{20B9}") && !MrpShape("none")
    ensures DiscountShape("N/A") && DiscountShape("30%") && DiscountShape("29.5%") && !DiscountShape("%") && !DiscountShape("30")
    ensures RestShape("4.2\U{2605} (123)") && !RestShape("") && !RestShape("4.2\n")
  {
    var mrp := "\U{20B9}2,499";
    assert mrp[1..] == "2,499";
    assert "\U{20B9}"[1..] == "";
    assert " Croma"[0] == ' ' && "A-B"[1] == '-' && "1.5"[1] == '.' && "\U{20B9}5"[0] == RUPEE;
    assert "none"[0] == 'n' && "4.2\n"[3] == '\n' && "30"[1] == '0';
  }

  // ----- Trimming -----

  function TrimLeft(s: string): string {
    if s != "" && IsSpace(s[0]) then TrimLeft(s[1..]) else s
  }

  function TrimRight(s: string): string {
    if s != "" && IsSpace(s[|s| - 1]) then TrimRight(s[..|s| - 1]) else s
  }

  function Trim(s: string): string {
    TrimRight(TrimLeft(s))
  }

  function Trimmed(c: Captures): Captures {
    Captures(Trim(c.store), Trim(c.price), Trim(c.mrp), Trim(c.discount), Trim(c.rating))
  }

  lemma {:induction false} TrimLeftGap(gap: string, s: string)
    requires AllSpace(gap)
    ensures TrimLeft(gap + s) == TrimLeft(s)
  {
    if gap == "" {
      assert gap + s == s;
    } else {
      assert (gap + s)[1..] == gap[1..] + s;
      TrimLeftGap(gap[1..], s);
    }
  }

  lemma {:induction false} TrimRightGap(s: string, gap: string)
    requires AllSpace(gap)
    ensures TrimRight(s + gap) == TrimRight(s)
  {
    if gap == "" {
      assert s + gap == s;
    } else {
      assert (s + gap)[..|s + gap| - 1] == s + gap[..|gap| - 1];
      TrimRightGap(s, gap[..|gap| - 1]);
    }
  }

  /** Does not start or end with white space. */
  predicate Tight(s: string) {
    s != "" && !IsSpace(s[0]) && !IsSpace(s[|s| - 1])
  }

  lemma TrimOfTight(before: string, s: string, after: string)
    requires AllSpace(before) && AllSpace(after) && Tight(s)
    ensures Trim(before + s + after) == s && Trim(s) == s
  {
    assert before + s + after == before + (s + after);
    TrimLeftGap(before, s + after);
    TrimRightGap(s, after);
  }

  lemma {:induction false} TrimLeftCut(s: string) returns (gap: string)
    ensures AllSpace(gap) && s == gap + TrimLeft(s)
    ensures TrimLeft(s) != "" ==> !IsSpace(TrimLeft(s)[0])
  {
    if s != "" && IsSpace(s[0]) {
      var rest := TrimLeftCut(s[1..]);
      gap := [s[0]] + rest;
      assert s == [s[0]] + s[1..];
    } else {
      gap := "";
    }
  }

  lemma {:induction false} TrimRightCut(s: string) returns (gap: string)
    ensures AllSpace(gap) && s == TrimRight(s) + gap
    ensures TrimRight(s) != "" ==> !IsSpace(TrimRight(s)[|TrimRight(s)| - 1])
  {
    if s != "" && IsSpace(s[|s| - 1]) {
      var rest := TrimRightCut(s[..|s| - 1]);
      gap := rest + [s[|s| - 1]];
      assert s == s[..|s| - 1] + [s[|s| - 1]];
    } else {
      gap := "";
    }
  }

  /** A text is its trimmed core between two runs of white space. */
  lemma TrimCut(s: string) returns (before: string, after: string)
    ensures AllSpace(before) && AllSpace(after) && s == before + Trim(s) + after
  {
    before := TrimLeftCut(s);
    after := TrimRightCut(TrimLeft(s));
    assert before + (Trim(s) + after) == before + Trim(s) + after;
  }

  // ----- Cutting at the bars -----

  datatype Cut = NoBar | At(before: string, after: string)

  function CutAtBar(s: string): Cut {
    if s == "" then NoBar
    else if s[0] == BAR then At("", s[1..])
    else
      match CutAtBar(s[1..])
      case NoBar => NoBar
      case At(before, after) => At([s[0]] + before, after)
  }

  lemma {:induction false} CutAtFirst(a: string, b: string)
    requires BAR !in a
    ensures CutAtBar(a + ([BAR] + b)) == At(a, b)
  {
    var s := a + ([BAR] + b);
    if a == "" {
      assert s[1..] == b;
    } else {
      assert s[1..] == a[1..] + ([BAR] + b);
      CutAtFirst(a[1..], b);
      assert [a[0]] + a[1..] == a;
    }
  }

  lemma {:induction false} CutSpells(s: string)
    ensures CutAtBar(s).At? ==> s == CutAtBar(s).before + ([BAR] + CutAtBar(s).after)
  {
    if s != "" {
      assert s == [s[0]] + s[1..];
      CutSpells(s[1..]);
    }
  }

  // ----- The parser -----

  predicate PriceField(s: string) {
    var t := Trim(s);
    t != "" && t[0] == RUPEE && AmountShape(t[1..])
  }

  predicate RestField(s: string) {
    if TrimLeft(s) != "" then RestShape(TrimLeft(s)) else s != "" && !IsTerminator(s[|s| - 1])
  }

  function ParseFields(store: string, price: string, mrp: string, discount: string, rest: string): Option<Captures> {
    if StoreShape(store) && PriceField(price) && MrpShape(Trim(mrp)) && DiscountShape(Trim(discount)) && RestField(rest)
    then Some(Captures(Trim(store), Trim(price)[1..], Trim(mrp), Trim(discount), Trim(rest)))
    else None
  }

  function ParseRow(line: string): Option<Captures> {
    match CutAtBar(line)
    case NoBar => None
    case At(store, r1) =>
      match CutAtBar(r1)
      case NoBar => None
      case At(price, r2) =>
        match CutAtBar(r2)
        case NoBar => None
        case At(mrp, r3) =>
          match CutAtBar(r3)
          case NoBar => None
          case At(discount, rest) => ParseFields(store, price, mrp, discount, rest)
  }

  // ----- Parser and expression agree -----

  lemma MrpIsTight(s: string)
    requires MrpShape(s)
    ensures Tight(s) && BAR !in s
  {
  }

  lemma DiscountIsTight(s: string)
    requires DiscountShape(s)
    ensures Tight(s) && BAR !in s
  {
  }

  lemma AmountIsTight(s: string)
    requires AmountShape(s)
    ensures Tight(s) && Tight([RUPEE] + s) && BAR !in s
  {
  }

  lemma RestAgrees(gap: string, s: string)
    requires AllSpace(gap) && RestShape(s)
    ensures RestField(gap + s) && Trim(gap + s) == Trim(s)
  {
    TrimLeftGap(gap, s);
    var cut := TrimLeftCut(s);
    var core := TrimLeft(s);
    forall i | 0 <= i < |core| ensures !IsTerminator(core[i]) {
      assert core[i] == s[|cut| + i];
    }
  }

  /** Whatever the expression captures, the parser returns, trimmed. */
  lemma MatchIsParsed(line: string, c: Captures, g: Gaps)
    requires Matches(line, c, g)
    ensures ParseRow(line) == Some(Trimmed(c))
  {
    AmountIsTight(c.price);
    MrpIsTight(c.mrp);
    DiscountIsTight(c.discount);
    var f1 := c.store + g.afterStore;
    var f2 := g.beforePrice + ([RUPEE] + c.price) + g.afterPrice;
    var f3 := g.beforeMrp + c.mrp + g.afterMrp;
    var f4 := g.beforeDiscount + c.discount + g.afterDiscount;
    var f5 := g.beforeRating + c.rating;
    CutAtFirst(f1, f2 + ([BAR] + (f3 + ([BAR] + (f4 + ([BAR] + f5))))));
    CutAtFirst(f2, f3 + ([BAR] + (f4 + ([BAR] + f5))));
    CutAtFirst(f3, f4 + ([BAR] + f5));
    CutAtFirst(f4, f5);
    assert ParseRow(line) == ParseFields(f1, f2, f3, f4, f5);
    FieldsParsed(c, g);
  }

  lemma FieldsParsed(c: Captures, g: Gaps)
    requires GapsAreSpace(g) && Shapely(c)
    ensures ParseFields(c.store + g.afterStore, g.beforePrice + ([RUPEE] + c.price) + g.afterPrice,
                        g.beforeMrp + c.mrp + g.afterMrp, g.beforeDiscount + c.discount + g.afterDiscount,
                        g.beforeRating + c.rating) == Some(Trimmed(c))
  {
    StoreTrim(c.store, g.afterStore);
    AmountIsTight(c.price);
    MrpIsTight(c.mrp);
    DiscountIsTight(c.discount);
    TrimOfTight(g.beforePrice, [RUPEE] + c.price, g.afterPrice);
    TrimOfTight("", c.price, "");
    TrimOfTight(g.beforeMrp, c.mrp, g.afterMrp);
    TrimOfTight(g.beforeDiscount, c.discount, g.afterDiscount);
    RestAgrees(g.beforeRating, c.rating);
  }

  lemma StoreTrim(store: string, gap: string)
    requires StoreShape(store) && AllSpace(gap)
    ensures StoreShape(store + gap) && Trim(store + gap) == Trim(store)
  {
    assert !IsSpace(store[0]);
    TrimRightGap(store, gap);
  }

  /** Whatever the parser returns is what some match of the expression captures, trimmed. */
  lemma ParsedIsMatch(line: string) returns (c: Captures, g: Gaps)
    requires ParseRow(line).Some?
    ensures Matches(line, c, g) && ParseRow(line) == Some(Trimmed(c))
  {
    var f1, r1 := CutAtBar(line).before, CutAtBar(line).after;
    var f2, r2 := CutAtBar(r1).before, CutAtBar(r1).after;
    var f3, r3 := CutAtBar(r2).before, CutAtBar(r2).after;
    var f4, f5 := CutAtBar(r3).before, CutAtBar(r3).after;
    CutSpells(line);
    CutSpells(r1);
    CutSpells(r2);
    CutSpells(r3);
    c, g := FieldsCut(f1, f2, f3, f4, f5);
    assert line == Spell(c, g);
    MatchIsParsed(line, c, g);
  }

  lemma FieldsCut(f1: string, f2: string, f3: string, f4: string, f5: string) returns (c: Captures, g: Gaps)
    requires ParseFields(f1, f2, f3, f4, f5).Some?
    ensures GapsAreSpace(g) && Shapely(c)
    ensures f1 == c.store + g.afterStore && f2 == g.beforePrice + ([RUPEE] + c.price) + g.afterPrice
    ensures f3 == g.beforeMrp + c.mrp + g.afterMrp && f4 == g.beforeDiscount + c.discount + g.afterDiscount
    ensures f5 == g.beforeRating + c.rating
  {
    var p0, p1 := TrimCut(f2);
    var m0, m1 := TrimCut(f3);
    var d0, d1 := TrimCut(f4);
    var r0, rest := RestCut(f5);
    c := Captures(f1, Trim(f2)[1..], Trim(f3), Trim(f4), rest);
    g := Gaps("", p0, p1, m0, m1, d0, d1, r0);
    assert Trim(f2) == [RUPEE] + Trim(f2)[1..];
    assert f1 == f1 + "";
  }

  lemma RestCut(s: string) returns (gap: string, rest: string)
    requires RestField(s)
    ensures AllSpace(gap) && RestShape(rest) && s == gap + rest
  {
    if TrimLeft(s) != "" {
      gap := TrimLeftCut(s);
      rest := TrimLeft(s);
    } else {
      var all := TrimLeftCut(s);
      assert s == all;
      gap, rest := s[..|s| - 1], [s[|s| - 1]];
    }
  }

  /** The parser finds a row exactly when the expression matches the line. */
  lemma ParserMeetsExpression(line: string)
    ensures ParseRow(line).Some? <==> exists c, g :: Matches(line, c, g)
    ensures forall c, g :: Matches(line, c, g) ==> ParseRow(line) == Some(Trimmed(c))
  {
    if ParseRow(line).Some? {
      var c, g := ParsedIsMatch(line);
    }
    forall c, g | Matches(line, c, g) ensures ParseRow(line) == Some(Trimmed(c)) {
      MatchIsParsed(line, c, g);
    }
  }

  // ----- The best-deal marker and the loop -----

  const MARKER := "BEST DEAL:"

  function TakeWord(s: string): string {
    if s != "" && IsWord(s[0]) then [s[0]] + TakeWord(s[1..]) else ""
  }

  /** `line.match(/BEST DEAL:\s*(\w+)/)`, leftmost match */
  function BestIn(line: string): Option<string> {
    if line == "" then None
    else if MARKER <= line && TakeWord(TrimLeft(line[|MARKER|..])) != "" then Some(TakeWord(TrimLeft(line[|MARKER|..])))
    else BestIn(line[1..])
  }

  datatype Card = Card(fields: Captures, isBest: bool)

  /** The best store known after a line, and the cards so far. */
  function ReadLines(lines: seq<string>): (string, seq<Card>) {
    if lines == [] then ("", [])
    else
      var (best, cards) := ReadLines(lines[..|lines| - 1]);
      var line := lines[|lines| - 1];
      var best' := match BestIn(line) case Some(store) => store case None => best;
      match ParseRow(line)
      case Some(fields) => (best', cards + [Card(fields, fields.store == best')])
      case None => (best', cards)
  }

  method RenderEntries(lines: seq<string>) returns (entries: seq<Card>)
    ensures entries == ReadLines(lines).1
  {
    entries := [];
    var bestStore := "";
    for i := 0 to |lines|
      invariant (bestStore, entries) == ReadLines(lines[..i])
    {
      assert lines[..i + 1][..i] == lines[..i];
      var bestMatch := BestIn(lines[i]);
      if bestMatch.Some? {
        bestStore := bestMatch.value;
      }
      var rowMatch := ParseRow(lines[i]);
      if rowMatch.Some? {
        entries := entries + [Card(rowMatch.value, rowMatch.value.store == bestStore)];
      }
    }
    assert lines[..|lines|] == lines;
  }
}
