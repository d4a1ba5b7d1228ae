/** A worked instance of the rating search, on the rating text
    "Average: 7.23&nbsp;(1234 votes) ... Average: 7.10". Once "&nbsp;" is
    removed, a shorter first group ("7.2" or "7"), a shorter vote count ("1",
    "12" or "123") and a shorter second group ("7.1" or "7") each also give a
    match of the pattern from the same start. The lemmas show that the search
    reports the groups a backtracking engine reports: "7.23", "1234" and
    "7.10". The match is proved for every string with the characters it
    depends on, and those characters are checked on the literal one small
    group at a time. */
module RatingSample {
  import opened Wrappers
  import opened Rating
  import opened Text

  /** The pieces of the sample around the entity. */
  const SampleAverage: string := "Average: 7.23"
  const SampleRest: string := "(1234 votes) ... Average: 7.10"

  /** The rating text after "&nbsp;" is removed. */
  const Sample: string := SampleAverage + SampleRest

  /** The characters of `s` the sample match depends on. */
  predicate SampleShaped(s: string) {
    && |s| == 43 && LabelAt(s, 0) && LabelAt(s, 30)
    && s[9] == '7' && s[10] == '.' && s[11] == '2' && s[12] == '3' && s[13] == '('
    && s[14] == '1' && s[15] == '2' && s[16] == '3' && s[17] == '4' && s[18] == ' '
    && s[39] == '7' && s[40] == '.' && s[41] == '1' && s[42] == '0'
    && (forall t :: 0 <= t < |s| ==> s[t] != '\n')
    && (forall t :: 14 <= t < |s| ==> s[t] != '(')
    && (forall t :: 31 <= t < |s| ==> s[t] != 'A')
  }

  /** The sample has the characters the match depends on. */
  lemma ShapedSample()
    ensures SampleShaped(Sample)
  {
    SampleFirstLabel();
    SampleSecondLabel();
    SampleAverageText();
    SampleVotesText();
    SampleBayText();
    SampleAbsent();
  }

  /** The first group and the parenthesis. */
  lemma SampleAverageText()
    ensures |Sample| == 43
    ensures Sample[9] == '7' && Sample[10] == '.' && Sample[11] == '2' && Sample[12] == '3' && Sample[13] == '('
  {
  }

  /** The vote count and the character after it. */
  lemma SampleVotesText()
    ensures Sample[14] == '1' && Sample[15] == '2' && Sample[16] == '3' && Sample[17] == '4' && Sample[18] == ' '
  {
  }

  /** The second group. */
  lemma SampleBayText()
    ensures Sample[39] == '7' && Sample[40] == '.' && Sample[41] == '1' && Sample[42] == '0'
  {
  }

  /** The first label. */
  lemma SampleFirstLabel()
    ensures LabelAt(Sample, 0)
  {
    assert forall t :: 0 <= t < |Label| ==> Sample[t] == Label[t];
  }

  /** The second label. */
  lemma SampleSecondLabel()
    ensures LabelAt(Sample, 30)
  {
    assert forall t :: 0 <= t < |Label| ==> Sample[30 + t] == Label[t];
  }

  /** No line break, no parenthesis after the first, no label after the second. */
  lemma SampleAbsent()
    ensures forall t :: 0 <= t < |Sample| ==> Sample[t] != '\n'
    ensures forall t :: 14 <= t < |Sample| ==> Sample[t] != '('
    ensures forall t :: 31 <= t < |Sample| ==> Sample[t] != 'A'
  {
  }

  /** The text of the three groups. */
  lemma SampleGroups(s: string)
    requires SampleShaped(s)
    ensures s[9..13] == "7.23" && s[14..18] == "1234" && s[39..43] == "7.10"
  {
  }

  /** Both groups end where the engine ends them: every optional piece that can be taken is. */
  lemma SampleNumbers(s: string)
    requires SampleShaped(s)
    ensures FirstOf(s, 9, NumberPattern) == Some(13)
    ensures FirstOf(s, 39, NumberPattern) == Some(43)
  {
    assert FirstOf(s, 12, NumberPattern[4..]) == Some(13);
    assert FirstOf(s, 11, NumberPattern[3..]) == Some(13);
    assert FirstOf(s, 10, NumberPattern[2..]) == Some(13);
    assert FirstOf(s, 10, NumberPattern[1..]) == Some(13);
    assert FirstOf(s, 42, NumberPattern[4..]) == Some(43);
    assert FirstOf(s, 41, NumberPattern[3..]) == Some(43);
    assert FirstOf(s, 40, NumberPattern[2..]) == Some(43);
    assert FirstOf(s, 40, NumberPattern[1..]) == Some(43);
  }

  /** The preferred match is a match, and its first group is the first end the engine tries. */
  lemma SampleIsMatch(s: string)
    requires SampleShaped(s)
    ensures IsMatch(s, Match(0, 13, 13, 18, 30, 43))
    ensures AveragePreferred(s, Match(0, 13, 13, 18, 30, 43))
  {
    SampleNumbers(s);
    FirstOfEnds(s, 9, NumberPattern);
    FirstOfEnds(s, 39, NumberPattern);
  }

  /** No later parenthesis, no longer vote count and no later label admits a match. */
  lemma SampleParen(s: string)
    requires SampleShaped(s)
    ensures ParenPreferred(s, 13, 13, 18, 30, 43)
  {
    SampleNumbers(s);
    assert BayPreferred(s, 18, 30, 43);
    assert VotesPreferred(s, 13, 18, 30, 43);
  }

  /** On every string shaped like the sample, the search reports the greedy groups. */
  lemma SampleGreedy(s: string)
    requires SampleShaped(s)
    ensures FindRating(s) == Some(Scores("7.23", "1234", "7.10"))
  {
    var m := Match(0, 13, 13, 18, 30, 43);
    SampleIsMatch(s);
    SampleParen(s);
    assert Greedy(s, m);
    FindRatingGreedy(s, m);
    SampleGroups(s);
  }

  /** On the sample, the search reports "7.23", "1234" and "7.10". */
  lemma SampleRating()
    ensures FindRating(Sample) == Some(Scores("7.23", "1234", "7.10"))
  {
    ShapedSample();
    SampleGreedy(Sample);
  }

  /** Neither piece holds an '&'. */
  lemma SamplePiecesPlain()
    ensures forall t :: 0 <= t < |SampleAverage| ==> SampleAverage[t] != '&'
    ensures forall t :: 0 <= t < |SampleRest| ==> SampleRest[t] != '&'
  {
  }

  /** On the rating text as the page gives it, "Average: 7.23&nbsp;(1234
      votes) ... Average: 7.10", `ParseRating` yields "7.23", "1234" and
      "7.10". */
  lemma SampleParseRating()
    ensures ParseRating(SampleAverage + Nbsp + SampleRest) == Some(Scores("7.23", "1234", "7.10"))
  {
    SamplePiecesPlain();
    assert SampleAverage + Nbsp + SampleRest == SampleAverage + (Nbsp + SampleRest);
    RemoveAllKeeps(SampleAverage, Nbsp + SampleRest, Nbsp);
    RemoveAllDrops(SampleRest, Nbsp);
    RemoveAllKeeps(SampleRest, [], Nbsp);
    assert SampleRest + [] == SampleRest;
    SampleRating();
  }
}
