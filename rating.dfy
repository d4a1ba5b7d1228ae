/** The user-rating parser of `parse_soup`: the text of the rating block, with
    every "&nbsp;" removed, is searched for

        Average: (\d?\d?[.]?\d?\d).*\((\d+).*Average: (\d?\d?[.]?\d?\d)

    and the three groups of the first match become the average, the vote count
    and the Bayesian average. The matcher below is written for this one
    pattern and tries the alternatives in the order a backtracking engine
    does: an optional piece is taken before it is skipped, `.*` and `\d+` try
    their longest run first and then shorter ones, and the search starts at
    the leftmost possible index. Its contracts say that what it returns really
    is a match, that it is the leftmost one and, among the matches from that
    index, the one the engine's order picks (`Greedy`), that only one match
    is greedy, and that "no result" means that no match exists anywhere. */
module Rating {
  import opened Wrappers
  import opened Text

  /** The literal that precedes both averages. */
  const Label: string := "Average: "

  /** The HTML entity removed from the text before matching. */
  const Nbsp: string := "&nbsp;"

  // ---------------------------------------------------------------------------
  // The number group `\d?\d?[.]?\d?\d`

  datatype CharClass = Digit | Point
  datatype Piece = Opt(kind: CharClass) | One(kind: CharClass)

  /** `\d?\d?[.]?\d?\d`, the group of both averages. */
  const NumberPattern: seq<Piece> := [Opt(Digit), Opt(Digit), Opt(Point), Opt(Digit), One(Digit)]

  predicate InClass(c: char, k: CharClass) {
    match k
    case Digit => IsDigit(c)
    case Point => c == '.'
  }

  /** `pieces` can match exactly `s[i..e]`: the meaning of the pattern. */
  // The measure names `s` as well as `pieces`, so that the verifier unrolls
  // these definitions on the constant pattern only for a constant text.
  predicate Matches(s: string, i: nat, e: nat, pieces: seq<Piece>)
    decreases |s|, |pieces|
  {
    if |pieces| == 0 then e == i
    else
      var taken := i < |s| && InClass(s[i], pieces[0].kind) && Matches(s, i + 1, e, pieces[1..]);
      match pieces[0]
      case One(_) => taken
      case Opt(_) => taken || Matches(s, i, e, pieces[1..])
  }

  /** The ends of all matches of `pieces` from `i`, in backtracking order:
      for an optional piece, first the ends with the piece taken. */
  function Ends(s: string, i: nat, pieces: seq<Piece>): (r: seq<nat>)
    ensures forall e: nat :: e in r <==> Matches(s, i, e, pieces)
    ensures i <= |s| ==> forall n :: 0 <= n < |r| ==> i <= r[n] <= |s|
    decreases |s|, |pieces|
  {
    if |pieces| == 0 then [i]
    else
      var taken := if i < |s| && InClass(s[i], pieces[0].kind) then Ends(s, i + 1, pieces[1..]) else [];
      match pieces[0]
      case One(_) => taken
      case Opt(_) => taken + Ends(s, i, pieces[1..])
  }

  /** The end a backtracking engine settles on for `pieces` from `i` when
      nothing follows them: each optional piece is taken whenever the rest can
      still match after it. */
  function FirstOf(s: string, i: nat, pieces: seq<Piece>): Option<nat>
    decreases |s|, |pieces|
  {
    if |pieces| == 0 then Some(i)
    else
      var taken := if i < |s| && InClass(s[i], pieces[0].kind) then FirstOf(s, i + 1, pieces[1..]) else None;
      match pieces[0]
      case One(_) => taken
      case Opt(_) => if taken.Some? then taken else FirstOf(s, i, pieces[1..])
  }

  /** That end is the first one in backtracking order, and there is one
      exactly when the pieces match at all. */
  lemma {:induction false} FirstOfEnds(s: string, i: nat, pieces: seq<Piece>)
    ensures FirstOf(s, i, pieces).Some? <==> |Ends(s, i, pieces)| > 0
    ensures FirstOf(s, i, pieces).Some? ==> FirstOf(s, i, pieces).value == Ends(s, i, pieces)[0]
    decreases |pieces|
  {
    if |pieces| > 0 {
      if i < |s| && InClass(s[i], pieces[0].kind) {
        FirstOfEnds(s, i + 1, pieces[1..]);
      }
      if pieces[0].Opt? {
        FirstOfEnds(s, i, pieces[1..]);
      }
    }
  }

  /** A match of the number group stays inside the string. */
  lemma NumberBounds(s: string, i: nat, e: nat)
    requires i <= |s| && Matches(s, i, e, NumberPattern)
    ensures i <= e <= |s|
  {
    assert e in Ends(s, i, NumberPattern);
  }

  /** The syntax the group accepts, written without the pattern: one to four
      digits, or at most two digits, a point and one or two digits. */
  ghost predicate NumberText(s: string, i: nat, e: nat) {
    || (i + 1 <= e <= i + 4 && Span(s, i, e, IsDigit))
    || (exists d: nat :: PointAt(s, i, d, e))
  }

  /** `s[i..e]` is `s[i..d]` digits (at most two), a point at `d`, then one or
      two digits. */
  ghost predicate PointAt(s: string, i: nat, d: nat, e: nat) {
    i <= d <= i + 2 && d + 2 <= e <= d + 3 && e <= |s|
    && Span(s, i, d, IsDigit) && s[d] == '.' && Span(s, d + 1, e, IsDigit)
  }

  /** How one optional piece unfolds, for the proofs below. */
  lemma MatchesOpt(s: string, i: nat, e: nat, k: CharClass, rest: seq<Piece>)
    ensures Matches(s, i, e, [Opt(k)] + rest)
        <==> (i < |s| && InClass(s[i], k) && Matches(s, i + 1, e, rest)) || Matches(s, i, e, rest)
  {
    assert ([Opt(k)] + rest)[1..] == rest;
  }

  /** A single required piece matches one character of its class. */
  lemma MatchesOne(s: string, i: nat, e: nat, k: CharClass)
    ensures Matches(s, i, e, [One(k)]) <==> i < |s| && InClass(s[i], k) && e == i + 1
  {
    assert [One(k)][1..] == [];
    assert Matches(s, i + 1, e, []) <==> e == i + 1;
  }

  /** The tail `\d?\d` matches one or two digits. */
  lemma TwoDigits(s: string, i: nat, e: nat)
    ensures Matches(s, i, e, [Opt(Digit), One(Digit)])
        <==> i + 1 <= e <= i + 2 && Span(s, i, e, IsDigit)
  {
    MatchesOpt(s, i, e, Digit, [One(Digit)]);
    MatchesOne(s, i, e, Digit);
    MatchesOne(s, i + 1, e, Digit);
  }

  /** The tail `[.]?\d?\d`: a point is optional before one or two digits. */
  lemma PointTail(s: string, i: nat, e: nat)
    ensures Matches(s, i, e, [Opt(Point), Opt(Digit), One(Digit)])
        <==> ((i + 1 <= e <= i + 2 && Span(s, i, e, IsDigit))
              || (i < |s| && s[i] == '.' && i + 2 <= e <= i + 3 && Span(s, i + 1, e, IsDigit)))
  {
    MatchesOpt(s, i, e, Point, [Opt(Digit), One(Digit)]);
    TwoDigits(s, i, e);
    TwoDigits(s, i + 1, e);
  }

  /** The tail `\d?[.]?\d?\d`. */
  lemma OneDigitTail(s: string, i: nat, e: nat)
    ensures Matches(s, i, e, [Opt(Digit), Opt(Point), Opt(Digit), One(Digit)])
        <==> ((i + 1 <= e <= i + 3 && Span(s, i, e, IsDigit))
              || (exists d: nat :: i <= d <= i + 1 && PointAt(s, i, d, e)))
  {
    MatchesOpt(s, i, e, Digit, [Opt(Point), Opt(Digit), One(Digit)]);
    PointTail(s, i, e);
    PointTail(s, i + 1, e);
    if i < |s| && s[i] == '.' && i + 2 <= e <= i + 3 && Span(s, i + 1, e, IsDigit) {
      assert PointAt(s, i, i, e);
    }
    if i + 1 < |s| && IsDigit(s[i]) && s[i + 1] == '.' && i + 3 <= e <= i + 4 && Span(s, i + 2, e, IsDigit) {
      assert PointAt(s, i, i + 1, e);
    }
  }

  /** The group accepts exactly `NumberText`. */
  lemma NumberSyntax(s: string, i: nat, e: nat)
    ensures Matches(s, i, e, NumberPattern) <==> NumberText(s, i, e)
  {
    MatchesOpt(s, i, e, Digit, [Opt(Digit), Opt(Point), Opt(Digit), One(Digit)]);
    OneDigitTail(s, i, e);
    OneDigitTail(s, i + 1, e);
    var i' := i + 1;
    if i < |s| && IsDigit(s[i]) && exists d: nat :: i' <= d <= i' + 1 && PointAt(s, i', d, e) {
      var d: nat :| i' <= d <= i' + 1 && PointAt(s, i', d, e);
      assert PointAt(s, i, d, e);
    }
    if exists d: nat :: PointAt(s, i, d, e) {
      var d: nat :| PointAt(s, i, d, e);
      if d == i + 2 {
        assert PointAt(s, i + 1, d, e);
      }
    }
  }

  /** What the group allows, as a plain description: one to five characters,
      all digits but at most one point, the last one a digit. */
  lemma NumberShape(s: string, i: nat, e: nat)
    requires Matches(s, i, e, NumberPattern)
    ensures i + 1 <= e <= i + 5 && e <= |s|
    ensures forall t :: i <= t < e ==> IsDigit(s[t]) || s[t] == '.'
    ensures IsDigit(s[e - 1])
    ensures forall t, u :: i <= t < u < e && s[t] == '.' ==> s[u] != '.'
  {
    NumberSyntax(s, i, e);
  }

  // ---------------------------------------------------------------------------
  // The whole pattern

  /** The label "Average: " at `i`. */
  predicate LabelAt(s: string, i: nat) {
    i + |Label| <= |s| && s[i..i + |Label|] == Label
  }

  /** `.*` can match `s[i..j]`. */
  predicate OnLine(s: string, i: nat, j: nat) {
    i <= j <= |s| && forall t :: i <= t < j ==> s[t] != '\n'
  }

  /** `\d+` (or a part of it) can match `s[i..j]`. */
  predicate Digits(s: string, i: nat, j: nat) {
    i <= j <= |s| && forall t :: i <= t < j ==> IsDigit(s[t])
  }

  /** How far `.*` reaches from `i`: up to the first line feed. */
  function LineEnd(s: string, i: nat): (r: nat)
    requires i <= |s|
    ensures OnLine(s, i, r) && (r < |s| ==> s[r] == '\n')
    decreases |s| - i
  {
    if i == |s| || s[i] == '\n' then i else LineEnd(s, i + 1)
  }

  /** How far `\d+` reaches from `i`. */
  function DigitsEnd(s: string, i: nat): (r: nat)
    requires i <= |s|
    ensures Digits(s, i, r) && (r < |s| ==> !IsDigit(s[r]))
    decreases |s| - i
  {
    if i == |s| || !IsDigit(s[i]) then i else DigitsEnd(s, i + 1)
  }

  /** `.*Average: (\d?\d?[.]?\d?\d)` matched from `k`: the label at `l`, the
      group ending at `e`. */
  predicate BayTail(s: string, k: nat, l: nat, e: nat) {
    OnLine(s, k, l) && LabelAt(s, l) && Matches(s, l + |Label|, e, NumberPattern)
  }

  /** `\((\d+)` at `j`, the digits ending at `k`, then `BayTail`. */
  predicate VotesTail(s: string, j: nat, k: nat, l: nat, e: nat) {
    j < |s| && s[j] == '(' && j + 1 < k && Digits(s, j + 1, k) && BayTail(s, k, l, e)
  }

  /** `.*` from the end `a` of the first group up to the parenthesis at `j`. */
  predicate ParenTail(s: string, a: nat, j: nat, k: nat, l: nat, e: nat) {
    OnLine(s, a, j) && VotesTail(s, j, k, l, e)
  }

  /** The positions of one match: where it starts, where the first group
      ends, the parenthesis, where the vote count ends, the second label and
      where the second group ends. */
  datatype Match = Match(start: nat, averageEnd: nat, paren: nat, votesEnd: nat, secondLabel: nat, bayEnd: nat)

  /** `m` is a match of the whole pattern in `s`. */
  predicate IsMatch(s: string, m: Match) {
    && LabelAt(s, m.start)
    && Matches(s, m.start + |Label|, m.averageEnd, NumberPattern)
    && ParenTail(s, m.averageEnd, m.paren, m.votesEnd, m.secondLabel, m.bayEnd)
  }

  /** `m` is a match and no match starts further left. */
  ghost predicate IsLeftmost(s: string, m: Match) {
    IsMatch(s, m) && forall m' :: IsMatch(s, m') ==> m.start <= m'.start
  }

  /** Backtracking priority of the label and second group after `k`: no
      label further right (the greedy `.*`), and the group's first end. */
  ghost predicate BayPreferred(s: string, k: nat, l: nat, e: nat) {
    && (forall l': nat, e': nat :: l < l' ==> !BayTail(s, k, l', e'))
    && FirstOf(s, l + |Label|, NumberPattern) == Some(e)
  }

  /** Priority after the parenthesis at `j`: no longer digit run (the greedy
      `\d+`) admits a tail, then `BayPreferred`. */
  ghost predicate VotesPreferred(s: string, j: nat, k: nat, l: nat, e: nat) {
    && (forall k': nat, l': nat, e': nat :: k < k' ==> !VotesTail(s, j, k', l', e'))
    && BayPreferred(s, k, l, e)
  }

  /** Priority after the first group ends at `a`: no parenthesis further
      right admits a tail, then `VotesPreferred`. */
  ghost predicate ParenPreferred(s: string, a: nat, j: nat, k: nat, l: nat, e: nat) {
    && (forall j': nat, k': nat, l': nat, e': nat :: j < j' ==> !ParenTail(s, a, j', k', l', e'))
    && VotesPreferred(s, j, k, l, e)
  }

  /** The first group's end comes, in the order the engine tries them, before
      every other end that admits a tail. */
  ghost predicate AveragePreferred(s: string, m: Match) {
    var ends := Ends(s, m.start + |Label|, NumberPattern);
    exists n :: 0 <= n < |ends| && ends[n] == m.averageEnd
      && forall n': nat, j: nat, k: nat, l: nat, e: nat :: n' < n ==> !ParenTail(s, ends[n'], j, k, l, e)
  }

  /** `m` is the match a backtracking engine finds from `m.start`. */
  ghost predicate Preferred(s: string, m: Match) {
    && IsMatch(s, m)
    && AveragePreferred(s, m)
    && ParenPreferred(s, m.averageEnd, m.paren, m.votesEnd, m.secondLabel, m.bayEnd)
  }

  /** `m` is the match `re.findall` reports first: leftmost, then first in
      backtracking order. */
  ghost predicate Greedy(s: string, m: Match) {
    IsLeftmost(s, m) && Preferred(s, m)
  }

  /** The end of the number group at `i` that a match keeps, if any. */
  function FirstNumberEnd(s: string, i: nat): (r: Option<nat>)
    ensures r.Some? ==> Matches(s, i, r.value, NumberPattern)
    ensures r.None? ==> forall e: nat :: !Matches(s, i, e, NumberPattern)
  {
    FirstOfEnds(s, i, NumberPattern);
    assert FirstOf(s, i, NumberPattern).Some? ==> FirstOf(s, i, NumberPattern).value in Ends(s, i, NumberPattern);
    FirstOf(s, i, NumberPattern)
  }

  /** The label at `l` followed by the number group; its first end. */
  function BayAt(s: string, l: nat): (r: Option<nat>)
    ensures r.Some? ==> LabelAt(s, l) && Matches(s, l + |Label|, r.value, NumberPattern)
    ensures r.Some? ==> FirstOf(s, l + |Label|, NumberPattern) == r
    ensures r.None? ==> !LabelAt(s, l) || FirstNumberEnd(s, l + |Label|).None?
  {
    if LabelAt(s, l) then FirstNumberEnd(s, l + |Label|) else None
  }

  /** The label and second group, trying label positions from `hi` down to
      `k` (the greedy `.*`). */
  function ScanBay(s: string, k: nat, hi: nat): (r: Option<(nat, nat)>)
    requires OnLine(s, k, hi)
    ensures r.Some? ==> BayTail(s, k, r.value.0, r.value.1)
    ensures r.Some? ==> FirstOf(s, r.value.0 + |Label|, NumberPattern) == Some(r.value.1)
    ensures r.Some? ==> forall l: nat, e: nat :: r.value.0 < l <= hi ==> !BayTail(s, k, l, e)
    ensures r.None? ==> forall l: nat, e: nat :: l <= hi ==> !BayTail(s, k, l, e)
    decreases hi
  {
    match BayAt(s, hi)
    case Some(e) => Some((hi, e))
    case None =>
      NoBayAt(s, k, hi);
      if hi == k then None else ScanBay(s, k, hi - 1)
  }

  /** No label and group at `l`: no tail ends its `.*` there. */
  lemma NoBayAt(s: string, k: nat, l: nat)
    requires BayAt(s, l).None?
    ensures forall e: nat :: !BayTail(s, k, l, e)
  {
  }

  /** `.*` stops at the first line feed. */
  lemma {:induction false} OnLineWithin(s: string, i: nat, j: nat)
    requires OnLine(s, i, j)
    ensures j <= LineEnd(s, i)
    decreases j - i
  {
    if i < j {
      OnLineWithin(s, i + 1, j);
    }
  }

  /** The vote count after the parenthesis at `j`, trying digit runs that end
      at `hi`, `hi - 1`, ... (the greedy `\d+`), each with the rest. */
  function TryVotes(s: string, j: nat, hi: nat): (r: Option<(nat, nat, nat)>)
    requires j < |s| && s[j] == '(' && Digits(s, j + 1, hi)
    ensures r.Some? ==> VotesTail(s, j, r.value.0, r.value.1, r.value.2)
    ensures r.Some? ==> BayPreferred(s, r.value.0, r.value.1, r.value.2)
    ensures r.Some? ==> forall k: nat, l: nat, e: nat :: r.value.0 < k <= hi ==> !VotesTail(s, j, k, l, e)
    ensures r.None? ==> forall k: nat, l: nat, e: nat :: k <= hi ==> !VotesTail(s, j, k, l, e)
    decreases hi
  {
    if hi <= j + 1 then None
    else
      var bay := ScanBay(s, hi, LineEnd(s, hi));
      if bay.Some? then
        BayLift(s, hi, bay.value.0, bay.value.1);
        Some((hi, bay.value.0, bay.value.1))
      else
        NoBayBeyond(s, j, hi);
        TryVotes(s, j, hi - 1)
  }

  /** A label no further right than `.*` can reach, and none reachable beyond
      `l`: `l` is the greedy choice. */
  lemma BayLift(s: string, k: nat, l: nat, e: nat)
    requires k <= |s|
    requires FirstOf(s, l + |Label|, NumberPattern) == Some(e)
    requires forall l': nat, e': nat :: l < l' <= LineEnd(s, k) ==> !BayTail(s, k, l', e')
    ensures BayPreferred(s, k, l, e)
  {
    forall l': nat, e': nat | l < l' && BayTail(s, k, l', e')
      ensures false
    {
      OnLineWithin(s, k, l');
    }
  }

  /** No label as far as `.*` reaches from `k`: no vote count ends at `k`. */
  lemma NoBayBeyond(s: string, j: nat, k: nat)
    requires k <= |s|
    requires forall l: nat, e: nat :: l <= LineEnd(s, k) ==> !BayTail(s, k, l, e)
    ensures forall l: nat, e: nat :: !VotesTail(s, j, k, l, e)
  {
    forall l: nat, e: nat | VotesTail(s, j, k, l, e)
      ensures false
    {
      OnLineWithin(s, k, l);
    }
  }

  /** A digit run after `j + 1` ends no later than the longest one. */
  lemma VotesWithin(s: string, j: nat, k: nat, l: nat, e: nat)
    requires VotesTail(s, j, k, l, e)
    ensures k <= DigitsEnd(s, j + 1)
  {
    DigitsWithin(s, j + 1, k);
  }

  /** A run of digits from `i` never reaches past the longest one. */
  lemma {:induction false} DigitsWithin(s: string, i: nat, k: nat)
    requires Digits(s, i, k)
    ensures k <= DigitsEnd(s, i)
    decreases k - i
  {
    if i < k {
      DigitsWithin(s, i + 1, k);
    }
  }

  /** The parenthesis, trying positions from `hi` down to `a` (the greedy
      `.*` after the first group). */
  function ScanParen(s: string, a: nat, hi: nat): (r: Option<(nat, nat, nat, nat)>)
    requires OnLine(s, a, hi)
    ensures r.Some? ==> ParenTail(s, a, r.value.0, r.value.1, r.value.2, r.value.3)
    ensures r.Some? ==> VotesPreferred(s, r.value.0, r.value.1, r.value.2, r.value.3)
    ensures r.Some? ==> forall j: nat, k: nat, l: nat, e: nat :: r.value.0 < j <= hi ==> !ParenTail(s, a, j, k, l, e)
    ensures r.None? ==> forall j: nat, k: nat, l: nat, e: nat :: j <= hi ==> !ParenTail(s, a, j, k, l, e)
    decreases hi
  {
    var votes := if hi < |s| && s[hi] == '(' then TryVotes(s, hi, DigitsEnd(s, hi + 1)) else None;
    if votes.Some? then
      VotesLift(s, hi, votes.value.0, votes.value.1, votes.value.2);
      Some((hi, votes.value.0, votes.value.1, votes.value.2))
    else
      NoVotesBeyond(s, hi);
      if hi == a then None
      else ScanParen(s, a, hi - 1)
  }

  /** A vote count no longer than the longest digit run, and none longer
      than `k` with a tail: `k` is the greedy choice. */
  lemma VotesLift(s: string, j: nat, k: nat, l: nat, e: nat)
    requires j < |s|
    requires BayPreferred(s, k, l, e)
    requires forall k': nat, l': nat, e': nat :: k < k' <= DigitsEnd(s, j + 1) ==> !VotesTail(s, j, k', l', e')
    ensures VotesPreferred(s, j, k, l, e)
  {
    forall k': nat, l': nat, e': nat | k < k' && VotesTail(s, j, k', l', e')
      ensures false
    {
      VotesWithin(s, j, k', l', e');
    }
  }

  /** No vote count with a tail at `j`, when none within the digit run (if
      the parenthesis is there) has one. */
  lemma NoVotesBeyond(s: string, j: nat)
    requires j < |s| && s[j] == '(' ==> forall k: nat, l: nat, e: nat :: k <= DigitsEnd(s, j + 1) ==> !VotesTail(s, j, k, l, e)
    ensures forall k: nat, l: nat, e: nat :: !VotesTail(s, j, k, l, e)
  {
    forall k: nat, l: nat, e: nat | VotesTail(s, j, k, l, e)
      ensures false
    {
      VotesWithin(s, j, k, l, e);
    }
  }

  /** The rest of the pattern after each candidate end of the first group,
      in backtracking order; the index of the first candidate that admits a
      tail, and that tail. */
  function TryAverages(s: string, ends: seq<nat>): (r: Option<(nat, nat, nat, nat, nat)>)
    requires forall n :: 0 <= n < |ends| ==> ends[n] <= |s|
    ensures r.Some? ==> r.value.0 < |ends| && ParenTail(s, ends[r.value.0], r.value.1, r.value.2, r.value.3, r.value.4)
    ensures r.Some? ==> ParenPreferred(s, ends[r.value.0], r.value.1, r.value.2, r.value.3, r.value.4)
    ensures r.Some? ==> forall n: nat, j: nat, k: nat, l: nat, e: nat :: n < r.value.0 ==> !ParenTail(s, ends[n], j, k, l, e)
    ensures r.None? ==> forall a: nat, j: nat, k: nat, l: nat, e: nat :: a in ends ==> !ParenTail(s, a, j, k, l, e)
  {
    if |ends| == 0 then None
    else
      match ScanParen(s, ends[0], LineEnd(s, ends[0]))
      case Some((j, k, l, e)) =>
        ParenLift(s, ends[0], j, k, l, e);
        Some((0, j, k, l, e))
      case None =>
        NoParenBeyond(s, ends[0]);
        match TryAverages(s, ends[1..])
        case Some((n, j, k, l, e)) =>
          Later(s, ends, n);
          Some((n + 1, j, k, l, e))
        case None => None
  }

  /** A parenthesis no further right than `.*` reaches from `a`, and none
      further right than `j` with a tail: `j` is the greedy choice. */
  lemma ParenLift(s: string, a: nat, j: nat, k: nat, l: nat, e: nat)
    requires a <= |s|
    requires VotesPreferred(s, j, k, l, e)
    requires forall j': nat, k': nat, l': nat, e': nat :: j < j' <= LineEnd(s, a) ==> !ParenTail(s, a, j', k', l', e')
    ensures ParenPreferred(s, a, j, k, l, e)
  {
    forall j': nat, k': nat, l': nat, e': nat | j < j' && ParenTail(s, a, j', k', l', e')
      ensures false
    {
      OnLineWithin(s, a, j');
    }
  }

  /** No parenthesis with a tail as far as `.*` reaches from `a`: none at all. */
  lemma NoParenBeyond(s: string, a: nat)
    requires a <= |s|
    requires forall j: nat, k: nat, l: nat, e: nat :: j <= LineEnd(s, a) ==> !ParenTail(s, a, j, k, l, e)
    ensures forall j: nat, k: nat, l: nat, e: nat :: !ParenTail(s, a, j, k, l, e)
  {
    forall j: nat, k: nat, l: nat, e: nat | ParenTail(s, a, j, k, l, e)
      ensures false
    {
      OnLineWithin(s, a, j);
    }
  }

  /** Candidates before index `n + 1` of `ends`: the first, and those before
      index `n` of the rest. */
  lemma Later(s: string, ends: seq<nat>, n: nat)
    requires n < |ends| - 1
    requires forall j: nat, k: nat, l: nat, e: nat :: !ParenTail(s, ends[0], j, k, l, e)
    requires forall n': nat, j: nat, k: nat, l: nat, e: nat :: n' < n ==> !ParenTail(s, ends[1..][n'], j, k, l, e)
    ensures forall n': nat, j: nat, k: nat, l: nat, e: nat :: n' < n + 1 ==> !ParenTail(s, ends[n'], j, k, l, e)
  {
    forall n': nat, j: nat, k: nat, l: nat, e: nat | 0 < n' < n + 1
      ensures !ParenTail(s, ends[n'], j, k, l, e)
    {
      assert ends[n'] == ends[1..][n' - 1];
    }
  }

  /** The pattern anchored at `p`: the match the engine finds there. */
  function MatchAt(s: string, p: nat): (r: Option<Match>)
    ensures r.Some? ==> Preferred(s, r.value) && r.value.start == p
    ensures r.None? ==> forall m :: IsMatch(s, m) ==> m.start != p
  {
    if !LabelAt(s, p) then None
    else
      var ends := Ends(s, p + |Label|, NumberPattern);
      match TryAverages(s, ends)
      case Some((n, j, k, l, e)) =>
        assert AveragePreferred(s, Match(p, ends[n], j, k, l, e));
        Some(Match(p, ends[n], j, k, l, e))
      case None => None
  }

  /** The search from `p` rightwards; at `p == 0` this is `re.findall(...)[0]`
      before the groups are taken. */
  function FirstMatch(s: string, p: nat): (r: Option<Match>)
    requires p <= |s|
    ensures r.Some? ==> Preferred(s, r.value) && p <= r.value.start
    ensures r.Some? ==> forall m :: IsMatch(s, m) && p <= m.start ==> r.value.start <= m.start
    ensures r.None? ==> forall m :: IsMatch(s, m) ==> m.start < p
    decreases |s| - p
  {
    match MatchAt(s, p)
    case Some(m) => Some(m)
    case None => if p == |s| then None else FirstMatch(s, p + 1)
  }

  /** The backtracking order leaves no choice: two greedy matches are the
      same match. */
  lemma GreedyUnique(s: string, m1: Match, m2: Match)
    requires Greedy(s, m1) && Greedy(s, m2)
    ensures m1 == m2
  {
    assert m1.start == m2.start;
    PreferredUnique(s, m1, m2);
  }

  /** From the same start, the engine's order picks one match. */
  lemma PreferredUnique(s: string, m1: Match, m2: Match)
    requires Preferred(s, m1) && Preferred(s, m2) && m1.start == m2.start
    ensures m1 == m2
  {
    AverageUnique(s, m1, m2);
    ParenUnique(s, m1.averageEnd, m1.paren, m1.votesEnd, m1.secondLabel, m1.bayEnd,
                m2.paren, m2.votesEnd, m2.secondLabel, m2.bayEnd);
  }

  /** From the same start, one first group admits a preferred tail. */
  lemma AverageUnique(s: string, m1: Match, m2: Match)
    requires m1.start == m2.start
    requires ParenTail(s, m1.averageEnd, m1.paren, m1.votesEnd, m1.secondLabel, m1.bayEnd)
    requires ParenTail(s, m2.averageEnd, m2.paren, m2.votesEnd, m2.secondLabel, m2.bayEnd)
    requires AveragePreferred(s, m1) && AveragePreferred(s, m2)
    ensures m1.averageEnd == m2.averageEnd
  {
    var ends := Ends(s, m1.start + |Label|, NumberPattern);
    var n1 :| 0 <= n1 < |ends| && ends[n1] == m1.averageEnd
      && forall n': nat, j: nat, k: nat, l: nat, e: nat :: n' < n1 ==> !ParenTail(s, ends[n'], j, k, l, e);
    var n2 :| 0 <= n2 < |ends| && ends[n2] == m2.averageEnd
      && forall n': nat, j: nat, k: nat, l: nat, e: nat :: n' < n2 ==> !ParenTail(s, ends[n'], j, k, l, e);
    FirstViableUnique(s, ends, n1, m1.paren, m1.votesEnd, m1.secondLabel, m1.bayEnd,
                      n2, m2.paren, m2.votesEnd, m2.secondLabel, m2.bayEnd);
  }

  /** Two candidate ends of the first group, each the first with a tail, are
      the same candidate. */
  lemma FirstViableUnique(s: string, ends: seq<nat>, n1: nat, j1: nat, k1: nat, l1: nat, e1: nat,
                          n2: nat, j2: nat, k2: nat, l2: nat, e2: nat)
    requires n1 < |ends| && ParenTail(s, ends[n1], j1, k1, l1, e1)
    requires n2 < |ends| && ParenTail(s, ends[n2], j2, k2, l2, e2)
    requires forall n': nat, j: nat, k: nat, l: nat, e: nat :: n' < n1 ==> !ParenTail(s, ends[n'], j, k, l, e)
    requires forall n': nat, j: nat, k: nat, l: nat, e: nat :: n' < n2 ==> !ParenTail(s, ends[n'], j, k, l, e)
    ensures n1 == n2
  {
    if n1 < n2 {
      assert false;
    }
    if n2 < n1 {
      assert false;
    }
  }

  /** After the same first group, one preferred tail. */
  lemma ParenUnique(s: string, a: nat, j1: nat, k1: nat, l1: nat, e1: nat, j2: nat, k2: nat, l2: nat, e2: nat)
    requires ParenTail(s, a, j1, k1, l1, e1) && ParenPreferred(s, a, j1, k1, l1, e1)
    requires ParenTail(s, a, j2, k2, l2, e2) && ParenPreferred(s, a, j2, k2, l2, e2)
    ensures j1 == j2 && k1 == k2 && l1 == l2 && e1 == e2
  {
    if j1 < j2 {
      assert false;
    }
    if j2 < j1 {
      assert false;
    }
    VotesUnique(s, j1, k1, l1, e1, k2, l2, e2);
  }

  /** After the same parenthesis, one preferred tail. */
  lemma VotesUnique(s: string, j: nat, k1: nat, l1: nat, e1: nat, k2: nat, l2: nat, e2: nat)
    requires VotesTail(s, j, k1, l1, e1) && VotesPreferred(s, j, k1, l1, e1)
    requires VotesTail(s, j, k2, l2, e2) && VotesPreferred(s, j, k2, l2, e2)
    ensures k1 == k2 && l1 == l2 && e1 == e2
  {
    if k1 < k2 {
      assert false;
    }
    if k2 < k1 {
      assert false;
    }
    BayUnique(s, k1, l1, e1, l2, e2);
  }

  /** After the same vote count, one preferred label and second group. */
  lemma BayUnique(s: string, k: nat, l1: nat, e1: nat, l2: nat, e2: nat)
    requires BayTail(s, k, l1, e1) && BayPreferred(s, k, l1, e1)
    requires BayTail(s, k, l2, e2) && BayPreferred(s, k, l2, e2)
    ensures l1 == l2 && e1 == e2
  {
    if l1 < l2 {
      assert false;
    }
    if l2 < l1 {
      assert false;
    }
  }

  /** The three groups of the parsed rating. */
  datatype Scores = Scores(average: string, totalVotes: string, bayAverage: string)

  /** The text of the three groups of a match. */
  function Groups(s: string, m: Match): Scores
    requires IsMatch(s, m)
  {
    NumberBounds(s, m.start + |Label|, m.averageEnd);
    NumberBounds(s, m.secondLabel + |Label|, m.bayEnd);
    Scores(s[m.start + |Label|..m.averageEnd], s[m.paren + 1..m.votesEnd], s[m.secondLabel + |Label|..m.bayEnd])
  }

  /** `re.findall(pattern, s)[0]`: the groups of the first match, or `None`
      for the `IndexError` of indexing an empty list. */
  function FindRating(s: string): (r: Option<Scores>)
    ensures r.None? <==> forall m :: !IsMatch(s, m)
    ensures r.Some? ==> exists m :: Greedy(s, m) && r.value == Groups(s, m)
  {
    match FirstMatch(s, 0)
    case Some(m) =>
      assert Greedy(s, m);
      Some(Groups(s, m))
    case None => None
  }

  /** `FindRating` returns the groups of a text's greedy match whenever it
      has one: with `GreedyUnique`, its result is determined by the pattern. */
  lemma FindRatingGreedy(s: string, m: Match)
    requires Greedy(s, m)
    ensures FindRating(s) == Some(Groups(s, m))
  {
    var m' :| Greedy(s, m') && FindRating(s).value == Groups(s, m');
    GreedyUnique(s, m, m');
  }

  /** The rating parser of `parse_soup`: remove every "&nbsp;", then search. */
  function ParseRating(raw: string): Option<Scores> {
    FindRating(RemoveAll(raw, Nbsp))
  }

  /** `s` splits as `pre`, the label, the average, `x`, "(", the vote count,
      `y`, the label, the Bayesian average and `rest`, with `x` and `y` on one
      line and each group in its own syntax. */
  ghost predicate Decomposes(s: string, g: Scores, pre: string, x: string, y: string, rest: string) {
    && s == pre + Label + g.average + x + "(" + g.totalVotes + y + Label + g.bayAverage + rest
    && All(x, NotNewline) && All(y, NotNewline)
    && NumberText(g.average, 0, |g.average|)
    && |g.totalVotes| > 0 && All(g.totalVotes, IsDigit)
    && NumberText(g.bayAverage, 0, |g.bayAverage|)
  }

  /** What a successful parse returns really decomposes the text. */
  lemma FindRatingSound(s: string)
    requires FindRating(s).Some?
    ensures exists pre, x, y, rest :: Decomposes(s, FindRating(s).value, pre, x, y, rest)
  {
    var m :| Greedy(s, m) && FindRating(s).value == Groups(s, m);
    var g, pre, x, y, rest := MatchDecomposes(s, m);
  }

  /** The groups of a match, and the pieces between and around them. */
  lemma MatchDecomposes(s: string, m: Match) returns (g: Scores, pre: string, x: string, y: string, rest: string)
    requires IsMatch(s, m)
    ensures g == Groups(s, m) && Decomposes(s, g, pre, x, y, rest)
  {
    MatchFacts(s, m);
    Decompose(s, m.start, m.averageEnd, m.paren, m.votesEnd, m.secondLabel, m.bayEnd);
    g := Scores(s[m.start + |Label|..m.averageEnd], s[m.paren + 1..m.votesEnd], s[m.secondLabel + |Label|..m.bayEnd]);
    pre, x, y, rest := s[..m.start], s[m.averageEnd..m.paren], s[m.votesEnd..m.secondLabel], s[m.bayEnd..];
  }

  /** Positions `start <= avEnd <= j < k <= l <= e` that delimit a match: the
      labels at `start` and `l`, the groups in their syntax, the parenthesis at
      `j` followed by digits up to `k`, and one line from `avEnd` to `j` and
      from `k` to `l`. */
  ghost predicate Delimits(s: string, start: nat, avEnd: nat, j: nat, k: nat, l: nat, e: nat) {
    && LabelAt(s, start) && LabelAt(s, l)
    && start + |Label| <= avEnd <= j && j + 1 < k <= l && l + |Label| <= e <= |s|
    && OnLine(s, avEnd, j) && OnLine(s, k, l)
    && s[j] == '(' && Digits(s, j + 1, k)
    && NumberText(s[start + |Label|..avEnd], 0, |s[start + |Label|..avEnd]|)
    && NumberText(s[l + |Label|..e], 0, |s[l + |Label|..e]|)
  }

  /** The positions of a match delimit it. */
  lemma MatchFacts(s: string, m: Match)
    requires IsMatch(s, m)
    ensures Delimits(s, m.start, m.averageEnd, m.paren, m.votesEnd, m.secondLabel, m.bayEnd)
  {
    GroupSyntax(s, m.start + |Label|, m.averageEnd);
    GroupSyntax(s, m.secondLabel + |Label|, m.bayEnd);
  }

  /** A match given by its positions, cut into its pieces. */
  lemma Decompose(s: string, start: nat, avEnd: nat, j: nat, k: nat, l: nat, e: nat)
    requires Delimits(s, start, avEnd, j, k, l, e)
    ensures Decomposes(s, Scores(s[start + |Label|..avEnd], s[j + 1..k], s[l + |Label|..e]), s[..start], s[avEnd..j], s[k..l], s[e..])
  {
    var avStart, bayStart := start + |Label|, l + |Label|;
    Reassemble(s, start, avStart, avEnd, j, k, l, bayStart, e);
    assert s[j..j + 1] == "(";
    LineSlice(s, avEnd, j);
    LineSlice(s, k, l);
    DigitsSlice(s, j + 1, k);
    var g := Scores(s[avStart..avEnd], s[j + 1..k], s[bayStart..e]);
    Assemble(s, g, s[..start], s[start..avStart], s[avStart..avEnd], s[avEnd..j], s[j..j + 1], s[j + 1..k], s[k..l], s[l..bayStart], s[bayStart..e], s[e..]);
  }

  /** A piece of one line, cut out. */
  lemma LineSlice(s: string, i: nat, j: nat)
    requires OnLine(s, i, j)
    ensures All(s[i..j], NotNewline)
  {
    assert forall t :: 0 <= t < j - i ==> s[i..j][t] == s[i + t];
  }

  /** A run of digits, cut out. */
  lemma DigitsSlice(s: string, i: nat, j: nat)
    requires Digits(s, i, j)
    ensures All(s[i..j], IsDigit)
  {
    assert forall t :: 0 <= t < j - i ==> s[i..j][t] == s[i + t];
  }

  /** The decomposition, from its pieces. */
  lemma Assemble(s: string, g: Scores, pre: string, lab: string, av: string, x: string, par: string, v: string,
                 y: string, lab2: string, bay: string, rest: string)
    requires g.average == av && g.totalVotes == v && g.bayAverage == bay
    requires s == pre + lab + av + x + par + v + y + lab2 + bay + rest
    requires lab == Label && lab2 == Label && par == "("
    requires All(x, NotNewline) && All(y, NotNewline)
    requires NumberText(av, 0, |av|) && NumberText(bay, 0, |bay|)
    requires |v| > 0 && All(v, IsDigit)
    ensures Decomposes(s, g, pre, x, y, rest)
  {
  }

  /** Cutting `s` at eight ordered points and joining the pieces gives `s`. */
  lemma Reassemble(s: string, start: nat, avStart: nat, avEnd: nat, j: nat, k: nat, l: nat, bayStart: nat, e: nat)
    requires start <= avStart <= avEnd <= j < k <= l <= bayStart <= e <= |s|
    ensures s == s[..start] + s[start..avStart] + s[avStart..avEnd] + s[avEnd..j] + s[j..j + 1] + s[j + 1..k]
              + s[k..l] + s[l..bayStart] + s[bayStart..e] + s[e..]
  {
    assert s[..avStart] == s[..start] + s[start..avStart];
    assert s[..avEnd] == s[..avStart] + s[avStart..avEnd];
    assert s[..j] == s[..avEnd] + s[avEnd..j];
    assert s[..j + 1] == s[..j] + s[j..j + 1];
    assert s[..k] == s[..j + 1] + s[j + 1..k];
    assert s[..l] == s[..k] + s[k..l];
    assert s[..bayStart] == s[..l] + s[l..bayStart];
    assert s[..e] == s[..bayStart] + s[bayStart..e];
    assert s == s[..e] + s[e..];
  }

  /** A group's text, cut out of `s`, has the group's syntax. */
  lemma GroupSyntax(s: string, i: nat, e: nat)
    requires i <= |s| && Matches(s, i, e, NumberPattern)
    ensures i <= e <= |s| && NumberText(s[i..e], 0, |s[i..e]|)
  {
    NumberBounds(s, i, e);
    NumberSyntax(s, i, e);
    NumberTextShift(s, i, e);
  }

  /** `NumberText` depends only on the characters it covers. */
  lemma NumberTextShift(s: string, i: nat, e: nat)
    requires i <= e <= |s| && NumberText(s, i, e)
    ensures NumberText(s[i..e], 0, e - i)
  {
    var t := s[i..e];
    if exists d: nat :: PointAt(s, i, d, e) {
      var d: nat :| PointAt(s, i, d, e);
      assert PointAt(t, 0, d - i, e - i);
    }
  }
}
