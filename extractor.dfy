/** `parse_soup`: the page-to-record extractor. The parsed page is abstracted
    to a `Document`, which gives for each CSS selector the `.text` of every
    element `soup.select` returns for it, in document order. Each field takes
    the first of them; a selector that selects nothing raises `IndexError`,
    and so does a rating block in which the rating pattern finds no match. */
module Extractor {
  import opened Wrappers
  import opened Text
  import opened Rating

  /** The CSS selectors `parse_soup` uses, named by what they select; the
      numbers are the `nth-child` indices of the last step. `Css` gives the
      selector text. */
  datatype Selector =
    | Title | DescriptionBlock | MediaType | Status | Authors | Artists | Year
    | Publisher | UserRating | Licensed
    | Position(child: nat)
    | PercentCell(row: nat)

  /** For each selector, the `.text` of every element `soup.select` returns
      for it, in document order. The page is indexed by `Selector`, not by
      selector text: the text (`Css`) documents which query each selector
      stands for and enters the contracts only through `CssInjective`. */
  type Document = Selector -> seq<string>

  /** The only failure of `parse_soup`: indexing an empty list. */
  datatype ExtractError = IndexError

  const Info := "#main_content > div:nth-child(2) > div.row.no-gutters > "
  /** The left-hand column of the information panel. */
  const Left := Info + "div:nth-child(3) > "
  /** The right-hand column of the information panel. */
  const Right := Info + "div:nth-child(4) > "

  /** The selector text passed to `soup.select`, written out as the source
      writes it. */
  function Css(sel: Selector): string {
    match sel
    case Title => ".releasestitle.tabletitle"
    case DescriptionBlock => Left + "div:nth-child(2)"
    case MediaType => Left + "div:nth-child(5)"
    case Status => Left + "div:nth-child(20)"
    case Authors => Right + "div:nth-child(17)"
    case Artists => Right + "div:nth-child(20)"
    case Year => Right + "div:nth-child(23)"
    case Publisher => Right + "div:nth-child(26)"
    case UserRating => Left + "div:nth-child(35)"
    case Licensed => Right + "div:nth-child(32)"
    case Position(n) => Right + "div:nth-child(38) > b:nth-child(" + Decimal(n) + ")"
    case PercentCell(n) =>
      Left + "div:nth-child(35) > div:nth-child(" + Decimal(n) + ") > div.col-2.col-sm-2.text.text-right"
  }

  /** A text between a fixed prefix and a fixed suffix is determined by the
      whole. */
  lemma Infix(p: string, x: string, y: string, q: string)
    requires p + x + q == p + y + q
    ensures x == y
  {
    assert |x| == |y|;
    assert x == (p + x + q)[|p|..|p| + |x|];
    assert y == (p + y + q)[|p|..|p| + |y|];
  }

  /** Different rank positions, and different rows of the distribution, are
      different selector texts, so a `Document` indexed by `Selector` answers
      the same queries as one indexed by text. */
  lemma CssInjective(m: nat, n: nat)
    ensures Css(Position(m)) == Css(Position(n)) ==> m == n
    ensures Css(PercentCell(m)) == Css(PercentCell(n)) ==> m == n
  {
    if Css(Position(m)) == Css(Position(n)) {
      Infix(Right + "div:nth-child(38) > b:nth-child(", Decimal(m), Decimal(n), ")");
      DecimalInjective(m, n);
    }
    if Css(PercentCell(m)) == Css(PercentCell(n)) {
      Infix(Left + "div:nth-child(35) > div:nth-child(", Decimal(m), Decimal(n),
            ") > div.col-2.col-sm-2.text.text-right");
      DecimalInjective(m, n);
    }
  }

  /** The selectors `parse_soup` looks up before the rating pattern is
      applied, in the order it uses them. */
  const Head: seq<Selector> :=
    [Title, DescriptionBlock, MediaType, Status, Authors, Artists, Year, Publisher, UserRating]

  /** The five rank positions: the bold elements 2, 6, 10, 14 and 18 of the
      rank block (weekly, monthly, three-monthly, six-monthly, yearly). */
  const Positions: seq<Selector> := [Position(2), Position(6), Position(10), Position(14), Position(18)]

  /** The ten percentages: rows 5 to 14 of the rating block (votes of ten, of
      nine or more, ..., of one or more). */
  const Percents: seq<Selector> := [
    PercentCell(5), PercentCell(6), PercentCell(7), PercentCell(8), PercentCell(9),
    PercentCell(10), PercentCell(11), PercentCell(12), PercentCell(13), PercentCell(14)
  ]

  /** The selector selects at least one element. */
  predicate Present(doc: Document, sel: Selector) {
    |doc(sel)| > 0
  }

  /** The text of the first selected element. */
  function First(doc: Document, sel: Selector): string
    requires Present(doc, sel)
  {
    doc(sel)[0]
  }

  /** `soup.select(sel)[0].text`. */
  function SelectFirst(doc: Document, sel: Selector): (r: Result<string, ExtractError>)
    ensures r.Ok? <==> Present(doc, sel)
    ensures r.Ok? ==> r.value == First(doc, sel)
  {
    if |doc(sel)| > 0 then Ok(doc(sel)[0]) else Err(IndexError)
  }

  // ---------------------------------------------------------------------------
  // The record

  /** The dictionary `parse_soup` returns, one field per key. */
  datatype Record = Record(
    title: string, description: string, mediaType: string, status: string,
    authors: string, artists: string, year: string, originalPublisher: string,
    average: string, totalVotes: string, bayAverage: string, licensedEnglish: string,
    weeklyPosition: string, monthlyPosition: string, threeMonthPosition: string,
    sixMonthPosition: string, yearlyPosition: string,
    percentTen: string, percentNinePlus: string, percentEightPlus: string,
    percentSevenPlus: string, percentSixPlus: string, percentFivePlus: string,
    percentFourPlus: string, percentThreePlus: string, percentTwoPlus: string,
    percentOnePlus: string)

  /** The dictionary's items, in the order the keys are inserted. */
  function Entries(r: Record): seq<(string, string)> {
    [ ("title", r.title), ("description", r.description), ("media_type", r.mediaType),
      ("status", r.status), ("authors", r.authors), ("artists", r.artists), ("year", r.year),
      ("original_publisher", r.originalPublisher), ("average", r.average),
      ("total_votes", r.totalVotes), ("bay_average", r.bayAverage),
      ("licensed_english", r.licensedEnglish), ("weekly_position", r.weeklyPosition),
      ("monthly_position", r.monthlyPosition), ("three_month_position", r.threeMonthPosition),
      ("six_month_position", r.sixMonthPosition), ("yearly_position", r.yearlyPosition),
      ("percent_ten", r.percentTen), ("percent_nine_plus", r.percentNinePlus),
      ("percent_eight_plus", r.percentEightPlus), ("percent_seven_plus", r.percentSevenPlus),
      ("percent_six_plus", r.percentSixPlus), ("percent_five_plus", r.percentFivePlus),
      ("percent_four_plus", r.percentFourPlus), ("percent_three_plus", r.percentThreePlus),
      ("percent_two_plus", r.percentTwoPlus), ("percent_one_plus", r.percentOnePlus) ]
  }

  // ---------------------------------------------------------------------------
  // Description: re.search(r'.*[\.{3}]?', text.strip())[0]

  /** The characters of the class `[\.{3}]`. */
  predicate InDescriptionClass(c: char) {
    c == '.' || c == '{' || c == '3' || c == '}'
  }

  /** `r` is the longest prefix of `t` without a line feed. */
  predicate IsFirstLine(t: string, r: string) {
    |r| <= |t| && r == t[..|r|] && All(r, NotNewline) && (|r| == |t| || t[|r|] == '\n')
  }

  /** The search succeeds at index 0, since `.*` can match the empty string;
      greedy `.*` runs to the first line feed, and the optional class is then
      tried on the character there. */
  function SearchDescription(t: string): (r: string)
    ensures IsFirstLine(t, r)
  {
    var k := RunEnd(t, 0, NotNewline);
    var n := k + (if k < |t| && InDescriptionClass(t[k]) then 1 else 0);
    assert forall i :: 0 <= i < k ==> t[..k][i] == t[i];
    t[..n]
  }

  /** The first line of the whitespace-stripped text. */
  function Description(raw: string): (r: string)
    ensures IsFirstLine(StripWs(raw), r)
    ensures |r| > 0 ==> !IsSpace(r[0])
  {
    SearchDescription(StripWs(raw))
  }

  /** There is exactly one first line. */
  lemma FirstLineUnique(t: string, r: string, q: string)
    requires IsFirstLine(t, r) && IsFirstLine(t, q)
    ensures r == q
  {
  }

  // ---------------------------------------------------------------------------
  // Percentages: text.strip('%').strip()

  predicate IsPercent(c: char) {
    c == '%'
  }

  /** `v` is `raw` stripped of surrounding '%' and then of surrounding
      whitespace. */
  ghost predicate PercentOf(raw: string, v: string) {
    exists a: nat, b: nat, mid: string :: StrippedAt(raw, IsPercent, a, mid) && StrippedAt(mid, IsSpace, b, v)
  }

  function Percent(raw: string): (r: string)
    ensures Bare(r, IsSpace)
  {
    StripWs(Strip(raw, IsPercent))
  }

  /** A percentage is the cell text stripped of '%' and then of whitespace. */
  lemma PercentStrips(raw: string)
    ensures PercentOf(raw, Percent(raw))
  {
    var mid := Strip(raw, IsPercent);
    assert StrippedAt(raw, IsPercent, LeadLen(raw, IsPercent), mid);
    assert StrippedAt(mid, IsSpace, LeadLen(mid, IsSpace), StripWs(mid));
  }

  /** A percentage cell whose text contains no whitespace at all loses every
      surrounding '%'. */
  lemma PercentSignless(raw: string)
    requires All(raw, c => !IsSpace(c))
    ensures Bare(Percent(raw), IsPercent)
  {
    var a := LeadLen(raw, IsPercent);
    var mid := Strip(raw, IsPercent);
    assert forall i :: 0 <= i < |mid| ==> mid[i] == raw[a + i];
    StripIdentity(mid, IsSpace);
  }

  /** Whitespace after the sign shields it from `strip('%')`: the sign is
      kept. */
  lemma PercentKeepsSignBeforeNewline()
    ensures Percent("12.34%\n") == "12.34%"
  {
    var raw := "12.34%\n";
    StripIdentity(raw, IsPercent);
    assert StrippedAt(raw, IsSpace, 0, "12.34%");
    StripUnique(raw, IsSpace, 0, "12.34%", LeadLen(raw, IsSpace), StripWs(raw));
  }

  /** Embedded whitespace does the same even when the text has no
      surrounding whitespace. */
  lemma PercentKeepsInnerSign()
    ensures Percent("5% %") == "5%"
  {
    var raw := "5% %";
    assert StrippedAt(raw, IsPercent, 0, "5% ");
    StripUnique(raw, IsPercent, 0, "5% ", LeadLen(raw, IsPercent), Strip(raw, IsPercent));
    assert StrippedAt("5% ", IsSpace, 0, "5%");
    StripUnique("5% ", IsSpace, 0, "5%", LeadLen("5% ", IsSpace), StripWs("5% "));
  }

  // ---------------------------------------------------------------------------
  // parse_soup

  /** Every selector in `sels` selects at least one element. */
  predicate PresentAll(doc: Document, sels: seq<Selector>) {
    forall i :: 0 <= i < |sels| ==> Present(doc, sels[i])
  }

  /** Every selector `parse_soup` uses selects at least one element. */
  predicate AllPresent(doc: Document) {
    PresentAll(doc, Head) && Present(doc, Licensed) && PresentAll(doc, Positions) && PresentAll(doc, Percents)
  }

  /** The lookups `soup.select(sel)[0].text` for the selectors of `sels`, made
      one after the other; the first empty selection raises `IndexError`. */
  function SelectEach(doc: Document, sels: seq<Selector>): (r: Result<seq<string>, ExtractError>)
    ensures r.Ok? <==> PresentAll(doc, sels)
    ensures r.Ok? ==> |r.value| == |sels| && forall i :: 0 <= i < |sels| ==> r.value[i] == First(doc, sels[i])
    decreases |sels|
  {
    if sels == [] then Ok([])
    else
      var text :- SelectFirst(doc, sels[0]);
      var rest :- SelectEach(doc, sels[1..]);
      assert forall i :: 1 <= i < |sels| ==> sels[i] == sels[1..][i - 1];
      Ok([text] + rest)
  }

  /** `parse_soup`, step by step in the order of the source: the lookups up to
      the rating block, the rating pattern, then the remaining lookups. */
  function ParseSoup(doc: Document): Result<Record, ExtractError> {
    var head :- SelectEach(doc, Head);
    var rating :- ParseRating(head[8]).ToResult(IndexError);
    var licensed :- SelectFirst(doc, Licensed);
    var positions :- SelectEach(doc, Positions);
    var percents :- SelectEach(doc, Percents);
    Ok(Build(head, rating, licensed, positions, percents))
  }

  /** The dictionary, from the looked-up texts and the rating groups, each
      field with its own trimming rule. */
  function Build(head: seq<string>, rating: Scores, licensed: string, positions: seq<string>,
                 percents: seq<string>): Record
    requires |head| == |Head| && |positions| == |Positions| && |percents| == |Percents|
  {
    Record(
      head[0], Description(head[1]), StripWs(head[2]), StripWs(head[3]),
      StripWs(head[4]), StripWs(head[5]), StripWs(head[6]), StripWs(head[7]),
      rating.average, rating.totalVotes, rating.bayAverage, StripWs(licensed),
      positions[0], positions[1], positions[2], positions[3], positions[4],
      Percent(percents[0]), Percent(percents[1]), Percent(percents[2]), Percent(percents[3]),
      Percent(percents[4]), Percent(percents[5]), Percent(percents[6]), Percent(percents[7]),
      Percent(percents[8]), Percent(percents[9]))
  }

  /** A returned record is built from the looked-up texts. */
  lemma ParseSoupBuilds(doc: Document)
    returns (head: seq<string>, rating: Scores, licensed: string, positions: seq<string>, percents: seq<string>)
    requires ParseSoup(doc).Ok?
    ensures AllPresent(doc)
    ensures |head| == |Head| && |positions| == |Positions| && |percents| == |Percents|
    ensures forall i :: 0 <= i < |Head| ==> head[i] == First(doc, Head[i])
    ensures Present(doc, UserRating) && ParseRating(First(doc, UserRating)) == Some(rating)
    ensures Present(doc, Licensed) && licensed == First(doc, Licensed)
    ensures forall k :: 0 <= k < |Positions| ==> positions[k] == First(doc, Positions[k])
    ensures forall k :: 0 <= k < |Percents| ==> percents[k] == First(doc, Percents[k])
    ensures ParseSoup(doc).value == Build(head, rating, licensed, positions, percents)
  {
    ParseSoupDefined(doc);
    head := SelectEach(doc, Head).value;
    rating := ParseRating(head[8]).value;
    licensed := SelectFirst(doc, Licensed).value;
    positions, percents := SelectEach(doc, Positions).value, SelectEach(doc, Percents).value;
  }

  /** The rating block is there and the rating pattern matches its text. */
  predicate RatingFound(doc: Document) {
    Present(doc, UserRating) && ParseRating(First(doc, UserRating)).Some?
  }

  /** All or nothing: a record comes back exactly when every selector selects
      something and the rating pattern matches the rating block; otherwise
      the result is `IndexError`. */
  lemma ParseSoupDefined(doc: Document)
    ensures ParseSoup(doc).Ok? <==> AllPresent(doc) && RatingFound(doc)
    ensures ParseSoup(doc).Err? ==> ParseSoup(doc).error == IndexError
  {
    if AllPresent(doc) && RatingFound(doc) {
      ParseSoupComplete(doc);
    }
    if ParseSoup(doc).Ok? {
      ParseSoupNeeds(doc);
    }
  }

  /** Every selector selecting something and the pattern matching suffice. */
  lemma ParseSoupComplete(doc: Document)
    requires AllPresent(doc) && RatingFound(doc)
    ensures ParseSoup(doc).Ok?
  {
    assert Head[8] == UserRating;
  }

  /** A record needs every selector to select something and the pattern to
      match. */
  lemma ParseSoupNeeds(doc: Document)
    requires ParseSoup(doc).Ok?
    ensures AllPresent(doc) && RatingFound(doc)
  {
    assert Head[8] == UserRating;
  }

  /** Whitespace-stripping, as a characterisation. */
  ghost predicate Trimmed(raw: string, v: string) {
    exists a: nat :: StrippedAt(raw, IsSpace, a, v)
  }

  /** The title and the five rank positions are the element text as it is. */
  lemma ParseSoupVerbatim(doc: Document)
    requires ParseSoup(doc).Ok?
    ensures AllPresent(doc)
    ensures var r := ParseSoup(doc).value;
      && r.title == First(doc, Title)
      && r.weeklyPosition == First(doc, Positions[0])
      && r.monthlyPosition == First(doc, Positions[1])
      && r.threeMonthPosition == First(doc, Positions[2])
      && r.sixMonthPosition == First(doc, Positions[3])
      && r.yearlyPosition == First(doc, Positions[4])
  {
    var head, rating, licensed, positions, percents := ParseSoupBuilds(doc);
    assert Head[0] == Title;
  }

  /** The description is the first line of the whitespace-stripped text. */
  lemma ParseSoupDescription(doc: Document)
    requires ParseSoup(doc).Ok?
    ensures AllPresent(doc)
    ensures IsFirstLine(StripWs(First(doc, DescriptionBlock)), ParseSoup(doc).value.description)
  {
    var head, rating, licensed, positions, percents := ParseSoupBuilds(doc);
  }

  /** The other text fields are stripped of surrounding whitespace. */
  lemma ParseSoupTrimmed(doc: Document)
    requires ParseSoup(doc).Ok?
    ensures AllPresent(doc)
    ensures var r := ParseSoup(doc).value;
      && Trimmed(First(doc, MediaType), r.mediaType)
      && Trimmed(First(doc, Status), r.status)
      && Trimmed(First(doc, Authors), r.authors)
      && Trimmed(First(doc, Artists), r.artists)
      && Trimmed(First(doc, Year), r.year)
      && Trimmed(First(doc, Publisher), r.originalPublisher)
      && Trimmed(First(doc, Licensed), r.licensedEnglish)
  {
    var head, rating, licensed, positions, percents := ParseSoupBuilds(doc);
  }

  /** The ten percentages, of the votes of ten, of nine or more, ..., of one
      or more, are the texts of rows 5 to 14 of the rating block, stripped of
      '%' and then of whitespace (`Percent`). */
  lemma ParseSoupPercents(doc: Document)
    requires ParseSoup(doc).Ok?
    ensures AllPresent(doc)
    ensures var r := ParseSoup(doc).value;
      && r.percentTen == Percent(First(doc, Percents[0]))
      && r.percentNinePlus == Percent(First(doc, Percents[1]))
      && r.percentEightPlus == Percent(First(doc, Percents[2]))
      && r.percentSevenPlus == Percent(First(doc, Percents[3]))
      && r.percentSixPlus == Percent(First(doc, Percents[4]))
      && r.percentFivePlus == Percent(First(doc, Percents[5]))
      && r.percentFourPlus == Percent(First(doc, Percents[6]))
      && r.percentThreePlus == Percent(First(doc, Percents[7]))
      && r.percentTwoPlus == Percent(First(doc, Percents[8]))
      && r.percentOnePlus == Percent(First(doc, Percents[9]))
  {
    var head, rating, licensed, positions, percents := ParseSoupBuilds(doc);
  }

  /** The three rating values are the groups of a match of the rating
      pattern in the rating text with every "&nbsp;" removed. */
  lemma ParseSoupRating(doc: Document)
    requires ParseSoup(doc).Ok?
    ensures RatingFound(doc)
    ensures var r := ParseSoup(doc).value;
      exists pre, x, y, rest :: Decomposes(RemoveAll(First(doc, UserRating), Nbsp),
                                           Scores(r.average, r.totalVotes, r.bayAverage), pre, x, y, rest)
  {
    var head, rating, licensed, positions, percents := ParseSoupBuilds(doc);
    FindRatingSound(RemoveAll(First(doc, UserRating), Nbsp));
  }
}
