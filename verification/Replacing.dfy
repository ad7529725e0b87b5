/**
 What splitting and replacing give, from left to right (internal/vtl/string_methods.go:79-96, 197-454), and that
 no match is missed.
 */
module Replacing {
  import opened Common
  import opened Matching
  import opened StringMethods
  import opened Texts
  import Patterns

  // ---- All matches

  /** Matches that start on a character end on one, or at the end of the text. */
  ghost predicate EndsOnCharacters(e: Engine)
    requires Valid(e)
  {
    forall q :: 0 <= q <= |e.width| && e.at[q].Some? && StepsTo(e, 0, q) ==> StepsTo(e, 0, e.at[q].value)
  }

  /** A match that could start at q is this one, or overlaps it, or is empty and stands where this one ends. */
  predicate Taken(e: Engine, l: Loc, q: nat)
    requires q < |e.at|
  {
    l.start == q || l.start < q < l.end || (l.start < q == l.end && e.at[q] == Some(q))
  }

  /** The same for one of some matches. */
  predicate TakenByOne(e: Engine, locs: seq<Loc>, q: nat)
    requires q < |e.at|
  {
    exists l <- locs :: Taken(e, l, q)
  }

  lemma TakenLater(e: Engine, l: Loc, locs: seq<Loc>, q: nat)
    requires q < |e.at| && (Taken(e, l, q) || TakenByOne(e, locs, q))
    ensures TakenByOne(e, [l] + locs, q)
  {
    assert l in [l] + locs;
    if x :| x in locs && Taken(e, x, q) { assert x in [l] + locs; }
  }

  /** One round of the scan. */
  lemma {:induction false} OneRound(e: Engine, pos: nat, prevEnd: int)
    requires Valid(e) && pos <= |e.width| && Find(e, pos).Some?
    ensures var l := Find(e, pos).value;
      var next := if l.end != pos then l.end else if pos < |e.width| then pos + e.width[pos] else |e.width| + 1;
      Scan(e, pos, prevEnd) == (if l.end == pos && l.start == prevEnd then [] else [l]) + Scan(e, next, l.end)
  {
    hide Find;
  }

  lemma StepOn(e: Engine, pos: nat, q: nat)
    requires Valid(e) && pos < q <= |e.width| && StepsTo(e, 0, pos) && StepsTo(e, 0, q)
    ensures StepsTo(e, pos, q) && pos + e.width[pos] <= q && StepsTo(e, 0, pos + e.width[pos])
  {
    Patterns.StepsOn(e, 0, pos, q);
    Further(e, 0, pos);
  }

  lemma {:induction false} Further(e: Engine, a: nat, pos: nat)
    requires Valid(e) && a <= pos < |e.width| && StepsTo(e, a, pos)
    ensures StepsTo(e, a, pos + e.width[pos])
    decreases pos - a
  {
    if a != pos { Further(e, a + e.width[a], pos); }
  }

  lemma {:induction false} StepsAdd(e: Engine, a: nat, b: nat, c: nat)
    requires Valid(e) && a <= b && StepsTo(e, a, b) && StepsTo(e, b, c)
    ensures StepsTo(e, a, c)
    decreases b - a
  {
    if a != b { StepsAdd(e, a + e.width[a], b, c); }
  }

  lemma {:induction false} FoundOnCharacter(e: Engine, pos: nat)
    requires Valid(e) && pos <= |e.width| && Find(e, pos).Some?
    ensures StepsTo(e, pos, Find(e, pos).value.start)
    decreases |e.width| - pos
  {
    if e.at[pos].None? { FoundOnCharacter(e, pos + e.width[pos]); }
  }

  lemma {:induction false} FoundNext(e: Engine, pos: nat, q: nat)
    requires Valid(e) && EndsOnCharacters(e) && pos <= q <= |e.width|
    requires StepsTo(e, 0, pos) && StepsTo(e, 0, q) && e.at[q].Some?
    ensures Find(e, pos).Some?
    ensures var l := Find(e, pos).value;
      pos <= l.start <= q && l.start <= l.end <= |e.width| && e.at[l.start] == Some(l.end) && StepsTo(e, 0, l.end)
  {
    hide Find, StepsTo;
    Patterns.StepsOn(e, 0, pos, q);
    FindIsLeftmost(e, pos, q);
    FoundOnCharacter(e, pos);
    StepsAdd(e, 0, pos, Find(e, pos).value.start);
  }

  lemma {:induction false} NoneMissed(e: Engine, pos: nat, prevEnd: int, q: nat)
    requires Valid(e) && EndsOnCharacters(e) && prevEnd <= pos <= q <= |e.width|
    requires StepsTo(e, 0, pos) && StepsTo(e, 0, q) && e.at[q].Some?
    ensures (q == prevEnd && e.at[q] == Some(q)) || TakenByOne(e, Scan(e, pos, prevEnd), q)
    decreases |e.width| + 1 - pos
  {
    FoundNext(e, pos, q);
    OneRound(e, pos, prevEnd);
    var l := Find(e, pos).value;
    hide Find, Scan, StepsTo, EndsOnCharacters, Valid, TakenByOne;
    if l.end != pos {
      if l.start != q && q >= l.end { NoneMissed(e, l.end, l.end, q); }
      TakenLater(e, l, Scan(e, l.end, l.end), q);
    } else if q > pos {
      StepOn(e, pos, q);
      var next := pos + e.width[pos];
      NoneMissed(e, next, l.end, q);
      TakenLater(e, l, Scan(e, next, l.end), q);
      assert [] + Scan(e, next, l.end) == Scan(e, next, l.end);
    } else if l.start != prevEnd {
      TakenLater(e, l, Scan(e, if pos < |e.width| then pos + e.width[pos] else |e.width| + 1, l.end), q);
    }
  }

  /**
   Every match there could be, on a character of the text, is among those found, or overlaps one of them, or is
   empty and stands where one of them ends.
   */
  lemma {:induction false} NothingIsMissed(e: Engine, q: nat)
    requires Valid(e) && EndsOnCharacters(e) && q <= |e.width| && StepsTo(e, 0, q) && e.at[q].Some?
    ensures TakenByOne(e, FindAll(e, -1), q)
  {
    hide Scan, StepsTo, EndsOnCharacters, TakenByOne;
    assert StepsTo(e, 0, 0) by { StepsNowhere(e); }
    NoneMissed(e, 0, -1, q);
  }

  lemma StepsNowhere(e: Engine)
    requires Valid(e)
    ensures StepsTo(e, 0, 0)
  {
  }

  /** The first match is the first of all. */
  lemma FirstOfAll(e: Engine)
    requires Valid(e)
    ensures FindAll(e, 1) == if FindAll(e, -1) == [] then [] else [FindAll(e, -1)[0]]
  {
    hide Scan;
  }

  // ---- Between the matches

  /** What is in front of match k, from the end of the one before it, and what is behind the last. */
  function Gap(s: string, locs: seq<Loc>, k: nat): string
    requires Apart(locs, |s|) && k <= |locs|
  {
    var from := if k == 0 then 0 else locs[k - 1].end;
    s[from..if k < |locs| then locs[k].start else |s|]
  }

  function Gaps(s: string, locs: seq<Loc>): seq<string>
    requires Apart(locs, |s|)
  {
    seq(|locs| + 1, k requires 0 <= k <= |locs| => Gap(s, locs, k))
  }

  /** The pieces, with one of the other texts between each two of them. */
  function Alternating(pieces: seq<string>, between: seq<string>): string
    requires |pieces| == |between| + 1
  {
    if between == [] then pieces[0] else pieces[0] + between[0] + Alternating(pieces[1..], between[1..])
  }

  function Replacements(locs: seq<Loc>, expand: Loc -> string): seq<string> {
    seq(|locs|, k requires 0 <= k < |locs| => expand(locs[k]))
  }

  lemma {:induction false} AlternatingMore(pieces: seq<string>, between: seq<string>, b: string, p: string)
    requires |pieces| == |between| + 1
    ensures Alternating(pieces + [p], between + [b]) == Alternating(pieces, between) + b + p
  {
    if between == [] {
      assert ([] + [b])[1..] == [] && (pieces + [p])[1..] == [p];
      assert between + [b] == [b];
    } else {
      assert (pieces + [p])[1..] == pieces[1..] + [p] && (between + [b])[1..] == between[1..] + [b];
      AlternatingMore(pieces[1..], between[1..], b, p);
    }
  }

  /** The gaps in front of the matches. */
  function Fronts(s: string, locs: seq<Loc>): seq<string>
    requires Apart(locs, |s|)
  {
    Gaps(s, locs)[..|locs|]
  }

  lemma FrontsMore(s: string, locs: seq<Loc>)
    requires Apart(locs, |s|) && locs != []
    ensures var init := locs[..|locs| - 1];
      Apart(init, |s|) && Fronts(s, locs) == Fronts(s, init) + [s[LastEnd(init)..locs[|locs| - 1].start]]
  {
    var n := |locs| - 1;
    var init := locs[..n];
    forall k | 0 <= k < n ensures Fronts(s, locs)[k] == Fronts(s, init)[k] {
      assert Gap(s, locs, k) == Gap(s, init, k);
    }
    assert Fronts(s, locs)[n] == Gap(s, locs, n);
  }

  lemma GapsAreFronts(s: string, locs: seq<Loc>)
    requires Apart(locs, |s|)
    ensures Gaps(s, locs) == Fronts(s, locs) + [s[LastEnd(locs)..]]
  {
    assert Gaps(s, locs)[|locs|] == Gap(s, locs, |locs|) == s[LastEnd(locs)..];
  }

  lemma {:induction false} BetweenIsFronts(s: string, locs: seq<Loc>)
    requires Apart(locs, |s|)
    ensures Between(s, locs) == Fronts(s, locs)
  {
    if locs != [] {
      FrontsMore(s, locs);
      BetweenIsFronts(s, locs[..|locs| - 1]);
    }
    hide Gap;
  }

  lemma {:induction false} BuiltAlternates(s: string, locs: seq<Loc>, expand: Loc -> string, p: string)
    requires Apart(locs, |s|)
    ensures Alternating(Fronts(s, locs) + [p], Replacements(locs, expand)) == Built(s, locs, expand) + p
  {
    hide Alternating;
    if locs != [] {
      var init, l := locs[..|locs| - 1], locs[|locs| - 1];
      FrontsMore(s, locs);
      var front := s[LastEnd(init)..l.start];
      BuiltAlternates(s, init, expand, front);
      assert Replacements(locs, expand) == Replacements(init, expand) + [expand(l)];
      AlternatingMore(Fronts(s, init) + [front], Replacements(init, expand), expand(l), p);
    } else {
      AlternatingOne(p);
      assert Fronts(s, locs) + [p] == [p];
      assert "" + p == p;
    }
    hide Fronts;
  }

  lemma AlternatingOne(p: string)
    ensures Alternating([p], []) == p
  {
  }

  /** What has been replaced is the text between the matches, each match giving way to its replacement. */
  lemma {:induction false} ReplacedMatches(e: Engine, s: string, all: bool, expand: Loc -> string)
    requires Valid(e) && |e.width| == |s|
    ensures var locs := FindAll(e, if all then -1 else 1);
      Apart(locs, |s|) &&
      RegexReplaced(e, s, all, expand) == Alternating(Gaps(s, locs), Replacements(locs, expand))
  {
    hide FindAll, Built, Gaps, Fronts, Alternating;
    var locs := FindAll(e, if all then -1 else 1);
    FindAllApart(e, if all then -1 else 1);
    BuiltAlternates(s, locs, expand, s[LastEnd(locs)..]);
    GapsAreFronts(s, locs);
  }

  /** A split gives the text between the matches; an empty one at the start does not count. */
  lemma {:induction false} PiecesBetweenMatches(e: Engine, s: string)
    requires Valid(e) && |e.width| == |s|
    ensures var locs := FindAll(e, -1);
      var cuts := if locs != [] && locs[0].end == 0 then locs[1..] else locs;
      Apart(cuts, |s|) && RegexPieces(e, s) == Gaps(s, cuts)
  {
    var locs := FindAll(e, -1);
    FindAllApart(e, -1);
    if |locs| > 1 { MatchesAreApart(e, 0, -1, 1); }
    hide FindAll;
    CutsAre(locs, |s|);
    PiecesOfMatches(e, s, locs);
    BetweenIsFronts(s, Cuts(locs));
    GapsAreFronts(s, Cuts(locs));
  }

  lemma CutsLast(locs: seq<Loc>)
    requires locs != []
    ensures var n := |locs| - 1; Cuts(locs) == Cuts(locs[..n]) + if locs[n].end == 0 then [] else [locs[n]]
    ensures Cuts([]) == []
  {
  }

  lemma {:induction false} CutsAre(locs: seq<Loc>, len: nat)
    requires Apart(locs, len)
    requires |locs| > 1 ==> locs[0].end < locs[1].end
    ensures Cuts(locs) == if locs != [] && locs[0].end == 0 then locs[1..] else locs
  {
    hide Cuts;
    if locs == [] {
      CutsLast([Loc(0, 0)]);
    } else {
      var n := |locs| - 1;
      var init, l := locs[..n], locs[n];
      CutsLast(locs);
      CutsAre(init, len);
      assert locs == init + [l];
      if n > 0 {
        LaterEnds(locs, len, n);
        hide Apart;
        assert init[0] == locs[0];
        assert locs[1..] == init[1..] + [l];
      } else {
        assert init == [] && locs[1..] == [];
      }
    }
  }

  lemma {:induction false} LaterEnds(locs: seq<Loc>, len: nat, k: nat)
    requires Apart(locs, len) && |locs| > 1 && locs[0].end < locs[1].end && 0 < k < |locs|
    ensures locs[k].end > 0
  {
    if k > 1 { LaterEnds(locs, len, k - 1); }
  }

  // ---- Literal texts

  /** a does not contain a text, not even together with the start of the one behind it. */
  predicate FirstBehind(a: string, sub: string) { forall i :: 0 <= i < |a| ==> !At(a + sub, sub, i) }

  lemma FoundBehind(a: string, sub: string, b: string)
    requires sub != "" && FirstBehind(a, sub)
    ensures IndexFrom(a + sub + b, sub, 0) == |a|
  {
    var s := a + sub + b;
    assert s[|a|..|a| + |sub|] == sub && At(s, sub, |a|);
    forall i | 0 <= i < |a| ensures !At(s, sub, i) {
      assert !At(a + sub, sub, i);
      assert s[i..i + |sub|] == (a + sub)[i..i + |sub|];
    }
  }

  lemma {:induction false} IndexShifted(s: string, sub: string, k: nat, i: nat)
    requires k <= |s| && i <= |s| - k
    ensures IndexFrom(s, sub, k + i) == k + IndexFrom(s[k..], sub, i)
    decreases |s| - k - i
  {
    if k + i + |sub| <= |s| { assert s[k..][i..i + |sub|] == s[k + i..k + i + |sub|]; }
    if k + i < |s| { IndexShifted(s, sub, k, i + 1); }
  }

  lemma {:induction false} PiecesShifted(s: string, sub: string, k: nat, i: nat)
    requires sub != "" && k <= |s| && i <= |s| - k
    ensures Pieces(s, sub, k + i) == Pieces(s[k..], sub, i)
    decreases |s| - k - i
  {
    hide IndexFrom;
    IndexShifted(s, sub, k, i);
    var j := IndexFrom(s[k..], sub, i);
    if j <= |s| - k {
      PiecesShifted(s, sub, k, j + |sub|);
      assert s[k + i..k + j] == s[k..][i..j];
    } else {
      assert s[k + i..] == s[k..][i..];
    }
  }

  lemma {:induction false} PiecesFromLeft(a: string, sub: string, b: string)
    requires sub != "" && FirstBehind(a, sub)
    ensures Pieces(a + sub + b, sub, 0) == [a] + Pieces(b, sub, 0)
  {
    hide IndexFrom;
    FoundBehind(a, sub, b);
    var s := a + sub + b;
    PiecesShifted(s, sub, |a| + |sub|, 0);
    assert s[|a| + |sub|..] == b && s[0..|a|] == a;
    hide FirstBehind;
  }

  /** A text that stands nowhere leaves one piece, and nothing is replaced. */
  lemma {:induction false} NothingToReplace(s: string, sub: string, to: string, width: seq<nat>)
    requires sub != "" && Widths(s, width) && forall i :: 0 <= i <= |s| ==> !At(s, sub, i)
    ensures Pieces(s, sub, 0) == [s]
    ensures Replaced(s, width, sub, to, true) == s && Replaced(s, width, sub, to, false) == s
  {
    assert IndexFrom(s, sub, 0) > |s|;
    assert s[0..] == s;
    JoinOne(s, to);
    hide IndexFrom, Join;
  }

  /** The first place is cut at or replaced, and then all in what is behind it or nothing more. */
  lemma {:induction false} ReplacedFromLeft(a: string, sub: string, b: string, to: string, width: seq<nat>,
                                            rest: seq<nat>)
    requires sub != "" && FirstBehind(a, sub) && Widths(a + sub + b, width) && Widths(b, rest)
    ensures Pieces(a + sub + b, sub, 0) == [a] + Pieces(b, sub, 0)
    ensures Replaced(a + sub + b, width, sub, to, true) == a + to + Replaced(b, rest, sub, to, true)
    ensures Replaced(a + sub + b, width, sub, to, false) == a + to + b
  {
    hide IndexFrom, Join, Pieces, FirstBehind;
    PiecesFromLeft(a, sub, b);
    FoundBehind(a, sub, b);
    JoinMore(a, Pieces(b, sub, 0), to);
    var s := a + sub + b;
    assert s[..|a|] == a && s[|a| + |sub|..] == b;
  }

  /** Nothing is found in front of every character and at the end, and first at the start. */
  lemma {:induction false} NothingReplaced(s: string, width: seq<nat>, to: string)
    requires Widths(s, width)
    ensures Replaced(s, width, "", to, false) == to + s
    ensures Replaced(s, width, "", to, true) ==
      if s == "" then to
      else assert Widths(s[width[0]..], width[width[0]..]);
           to + s[..width[0]] + Replaced(s[width[0]..], width[width[0]..], "", to, true)
  {
    assert IndexFrom(s, "", 0) == 0 && s[..0] == "" && s[0..] == s && "" + to + s == to + s;
    if s == "" {
      assert Runes(s, width, 0) + [""] == [""];
      JoinOne("", to);
    } else {
      RunesShifted(s, width, width[0], 0);
      var rest := Runes(s[width[0]..], width[width[0]..], 0) + [""];
      assert Runes(s, width, 0) + [""] == [s[..width[0]]] + rest;
      JoinMore(s[..width[0]], rest, to);
    }
    hide IndexFrom, Join, Runes;
  }

  lemma WidthsShifted(s: string, width: seq<nat>, k: nat)
    requires Widths(s, width) && k <= |s|
    ensures Widths(s[k..], width[k..])
    ensures forall i :: 0 <= i < |s| - k ==> width[k..][i] == width[k + i]
  {
    forall q | 0 <= q < |s| - k ensures 1 <= width[k..][q] <= |s| - k - q { assert width[k..][q] == width[k + q]; }
  }

  lemma NextRune(s: string, width: seq<nat>, i: nat)
    requires Widths(s, width) && i < |s|
    ensures 1 <= width[i] <= |s| - i && Runes(s, width, i) == [s[i..i + width[i]]] + Runes(s, width, i + width[i])
  {
  }

  lemma {:induction false} RunesShifted(s: string, width: seq<nat>, k: nat, i: nat)
    requires Widths(s, width) && k <= |s| && i <= |s| - k
    ensures Widths(s[k..], width[k..]) && Runes(s, width, k + i) == Runes(s[k..], width[k..], i)
    decreases |s| - k - i
  {
    WidthsShifted(s, width, k);
    if i < |s| - k {
      hide Widths, Runes;
      NextRune(s, width, k + i);
      NextRune(s[k..], width[k..], i);
      RunesShifted(s, width, k, i + width[k + i]);
      assert s[k + i..k + i + width[k + i]] == s[k..][i..i + width[k + i]];
    }
  }
}
