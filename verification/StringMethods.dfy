/**
 Splitting and replacing (internal/vtl/string_methods.go:79-96, 327-454): what is built from the matches
 of an expression or of a literal text.
 */
module StringMethods {
  import opened Common
  import opened Budgets
  import opened Limits
  import opened Matching
  import opened Texts

  // ---- Literal texts

  /** The pieces of s from i on between the occurrences of sep, found from left to right. */
  function Pieces(s: string, sep: string, i: nat): (ps: seq<string>)
    requires sep != "" && i <= |s|
    ensures ps != []
    decreases |s| - i
  {
    var k := IndexFrom(s, sep, i);
    if k > |s| then [s[i..]] else [s[i..k]] + Pieces(s, sep, k + |sep|)
  }

  function Join(ps: seq<string>, sep: string): string
    requires ps != []
  {
    if |ps| == 1 then ps[0] else ps[0] + sep + Join(ps[1..], sep)
  }

  /** Joining the pieces with the separator gives the text back. */
  lemma {:induction false} JoinUndoesSplit(s: string, sep: string, i: nat)
    requires sep != "" && i <= |s|
    ensures Join(Pieces(s, sep, i), sep) == s[i..]
    decreases |s| - i
  {
    hide IndexFrom, Join, At;
    var k := IndexFrom(s, sep, i);
    if k <= |s| {
      var rest := Pieces(s, sep, k + |sep|);
      assert Pieces(s, sep, i) == [s[i..k]] + rest;
      hide Pieces;
      JoinUndoesSplit(s, sep, k + |sep|);
      JoinMore(s[i..k], rest, sep);
      AroundSeparator(s, i, k, sep);
    } else {
      JoinOne(s[i..], sep);
    }
  }

  lemma JoinOne(p: string, sep: string)
    ensures Join([p], sep) == p
  {
  }

  lemma JoinMore(p: string, ps: seq<string>, sep: string)
    requires ps != []
    ensures Join([p] + ps, sep) == p + sep + Join(ps, sep)
  {
    assert ([p] + ps)[1..] == ps;
  }

  lemma AroundSeparator(s: string, i: nat, k: nat, sep: string)
    requires i <= k && At(s, sep, k)
    ensures s[i..] == s[i..k] + sep + s[k + |sep|..]
  {
    assert s[i..] == s[i..k] + s[k..k + |sep|] + s[k + |sep|..];
  }

  /** No piece has the separator in it: every occurrence that could be cut was. */
  lemma {:induction false} PiecesHaveNoSeparator(s: string, sep: string, i: nat, n: nat, at: nat)
    requires sep != "" && i <= |s| && n < |Pieces(s, sep, i)|
    ensures !At(Pieces(s, sep, i)[n], sep, at)
    decreases |s| - i
  {
    hide IndexFrom, At;
    var k := IndexFrom(s, sep, i);
    if n > 0 {
      assert Pieces(s, sep, i) == [s[i..k]] + Pieces(s, sep, k + |sep|);
      hide Pieces;
      PiecesHaveNoSeparator(s, sep, k + |sep|, n - 1, at);
    } else {
      var end := if k > |s| then |s| else k;
      assert Pieces(s, sep, i)[0] == s[i..end];
      hide Pieces;
      if At(s[i..end], sep, at) {
        AtInSlice(s, i, end, sep, at);
        assert false;
      }
    }
  }

  lemma AtInSlice(s: string, i: nat, end: nat, sep: string, at: nat)
    requires i <= end <= |s| && At(s[i..end], sep, at)
    ensures i + at + |sep| <= end && At(s, sep, i + at)
  {
    var here, there := s[i..end][at..at + |sep|], s[i + at..i + at + |sep|];
    assert forall j :: 0 <= j < |sep| ==> here[j] == s[i + at + j] == there[j];
    assert here == there;
  }

  /** splitLiteral: cuts off one piece at a time, each charged before it is looked for. */
  method SplitLiteral(mem: Budget, text: string, sep: string) returns (items: Option<seq<string>>)
    requires sep != ""
    modifies mem`used, mem.pool
    ensures items.Some? ==> items.value == Pieces(text, sep, 0)
    ensures items.Some? ==> mem.used == old(mem.used) + |Pieces(text, sep, 0)| * SLOT_BYTES
    ensures items.None? ==> mem.Over(0)
  {
    hide IndexFrom, At;
    var ps: seq<string>, i: nat := [], 0;
    while true
      invariant i <= |text|
      invariant Pieces(text, sep, 0) == ps + Pieces(text, sep, i)
      invariant mem.used == old(mem.used) + |ps| * SLOT_BYTES
      decreases |text| - i
    {
      var ok := mem.Charge(SLOT_BYTES);
      if !ok { return None; }
      var k := IndexFrom(text, sep, i);
      if k > |text| { return Some(ps + [text[i..]]); }
      ps := ps + [text[i..k]];
      i := k + |sep|;
    }
  }

  // ---- Literal replacement

  predicate Widths(s: string, width: seq<nat>) {
    |width| == |s| && forall q :: 0 <= q < |s| ==> 1 <= width[q] <= |s| - q
  }

  /** The characters of s; width says how many bytes the one at a position has. */
  function Runes(s: string, width: seq<nat>, i: nat): seq<string>
    requires Widths(s, width) && i <= |s|
    decreases |s| - i
  {
    if i == |s| then [] else [s[i..i + width[i]]] + Runes(s, width, i + width[i])
  }

  /** strings.Count; the empty text stands before every character and at the end. */
  function Count(s: string, width: seq<nat>, from: string): nat
    requires Widths(s, width)
  {
    if from == "" then |Runes(s, width, 0)| + 1 else |Pieces(s, from, 0)| - 1
  }

  /** strings.Replace: every occurrence, or the first. */
  function Replaced(s: string, width: seq<nat>, from: string, to: string, all: bool): string
    requires Widths(s, width)
  {
    var k := IndexFrom(s, from, 0);
    if all then
      if from == "" then to + Join(Runes(s, width, 0) + [""], to) else Join(Pieces(s, from, 0), to)
    else if k > |s| then s
    else s[..k] + to + s[k + |from|..]
  }

  function TotalLength(ps: seq<string>): nat { if ps == [] then 0 else |ps[0]| + TotalLength(ps[1..]) }

  lemma {:induction false} JoinLength(ps: seq<string>, sep: string)
    requires ps != []
    ensures |Join(ps, sep)| == TotalLength(ps) + (|ps| - 1) * |sep|
  {
    if |ps| > 1 {
      JoinLength(ps[1..], sep);
      assert |ps[1..]| - 1 == |ps| - 2;
      MulStep(|ps| - 1, |sep|);
    } else {
      assert TotalLength(ps) == |ps[0]| + TotalLength([]);
    }
  }

  lemma MulStep(n: nat, k: int)
    requires n > 0
    ensures n * k == (n - 1) * k + k
  {
  }

  lemma {:induction false} RunesLength(s: string, width: seq<nat>, i: nat)
    requires Widths(s, width) && i <= |s|
    ensures TotalLength(Runes(s, width, i) + [""]) == |s| - i
    decreases |s| - i
  {
    var rs := Runes(s, width, i);
    if i < |s| {
      RunesLength(s, width, i + width[i]);
      assert (rs + [""])[1..] == Runes(s, width, i + width[i]) + [""];
    } else {
      assert rs + [""] == [""];
      assert TotalLength([""]) == 0 + TotalLength([]);
    }
  }

  /** What the replaced text measures: the length checked before it is built. */
  lemma ReplacedLength(s: string, width: seq<nat>, from: string, to: string, all: bool)
    requires Widths(s, width) && IndexFrom(s, from, 0) <= |s|
    ensures var n := if all then Count(s, width, from) else 1;
      |Replaced(s, width, from, to, all)| == |s| + n * (|to| - |from|)
  {
    hide IndexFrom, Join, Pieces, Runes;
    if all && from == "" {
      var rs := Runes(s, width, 0);
      JoinLength(rs + [""], to);
      RunesLength(s, width, 0);
      MulStep(|rs| + 1, |to|);
    } else if all {
      var ps := Pieces(s, from, 0);
      JoinLength(ps, to);
      JoinLength(ps, from);
      JoinUndoesSplit(s, from, 0);
      assert s[0..] == s;
      MulDistributes(|ps| - 1, |to|, |from|);
    }
  }

  lemma MulDistributes(n: int, a: int, b: int)
    ensures n * (a - b) == n * a - n * b
  {
  }

  /** literalReplace refuses exactly the results longer than the limit, before building them. */
  method LiteralReplace(s: string, width: seq<nat>, from: string, to: string, all: bool) returns (r: Option<string>)
    requires Widths(s, width)
    ensures r == if |Replaced(s, width, from, to, all)| > MAX_OUTPUT_BYTES && IndexFrom(s, from, 0) <= |s|
                 then None else Some(Replaced(s, width, from, to, all))
  {
    var n := if all then Count(s, width, from) else 1;
    if IndexFrom(s, from, 0) <= |s| {
      ReplacedLength(s, width, from, to, all);
      if |s| + n * (|to| - |from|) > MAX_OUTPUT_BYTES { return None; }
    }
    r := Some(Replaced(s, width, from, to, all));
  }

  // ---- Pieces between matches

  /** Matches of one text in order, without overlap. */
  predicate Apart(locs: seq<Loc>, len: nat) {
    && (forall k :: 0 <= k < |locs| ==> locs[k].start <= locs[k].end <= len)
    && (forall k :: 0 < k < |locs| ==> locs[k - 1].end <= locs[k].start)
  }

  lemma FindAllApart(e: Engine, n: int)
    requires Valid(e)
    ensures Apart(FindAll(e, n), |e.width|)
  {
    forall k | 0 <= k < |FindAll(e, n)|
      ensures FindAll(e, n)[k].start <= FindAll(e, n)[k].end <= |e.width|
      ensures k > 0 ==> FindAll(e, n)[k - 1].end <= FindAll(e, n)[k].start
    {
      MatchesAreApart(e, 0, -1, k);
    }
  }

  function LastEnd(locs: seq<Loc>): nat { if locs == [] then 0 else locs[|locs| - 1].end }

  /** The matches a split cuts at: Java makes no empty first piece for an empty match at the start. */
  function Cuts(locs: seq<Loc>): seq<Loc> {
    if locs == [] then []
    else Cuts(locs[..|locs| - 1]) + if LastEnd(locs) == 0 then [] else [locs[|locs| - 1]]
  }

  /** The pieces before each of the cuts. */
  function Between(s: string, cuts: seq<Loc>): seq<string>
    requires Apart(cuts, |s|)
  {
    if cuts == [] then []
    else
      var init := cuts[..|cuts| - 1];
      Between(s, init) + [s[LastEnd(init)..cuts[|cuts| - 1].start]]
  }

  /** Pieces and the matched texts after them, one after the other. */
  function Woven(s: string, cuts: seq<Loc>, pieces: seq<string>): string
    requires |pieces| == |cuts| && Apart(cuts, |s|)
  {
    if cuts == [] then ""
    else
      var n := |cuts| - 1;
      Woven(s, cuts[..n], pieces[..n]) + pieces[n] + s[cuts[n].start..cuts[n].end]
  }

  lemma ThreeParts(s: string, from: nat, a: nat, b: nat)
    requires from <= a <= b <= |s|
    ensures s[from..] == s[from..a] + s[a..b] + s[b..]
  {
  }

  /** The pieces and the texts between them are the whole text. */
  lemma {:induction false} PiecesWeaveBack(s: string, cuts: seq<Loc>)
    requires Apart(cuts, |s|)
    ensures |Between(s, cuts)| == |cuts|
    ensures Woven(s, cuts, Between(s, cuts)) + s[LastEnd(cuts)..] == s
  {
    if cuts != [] {
      var n := |cuts| - 1;
      var init, l := cuts[..n], cuts[n];
      PiecesWeaveBack(s, init);
      var pieces := Between(s, cuts);
      assert pieces[..n] == Between(s, init);
      ThreeParts(s, LastEnd(init), l.start, l.end);
      var before, piece, text := Woven(s, init, pieces[..n]), pieces[n], s[l.start..l.end];
      assert Woven(s, cuts, pieces) == before + piece + text;
      hide Woven, Between, Apart, LastEnd;
      assert before + piece + text + s[l.end..] == before + (piece + text + s[l.end..]);
    }
  }

  lemma {:induction false} CutsApart(locs: seq<Loc>, len: nat)
    requires Apart(locs, len)
    ensures Apart(Cuts(locs), len) && LastEnd(Cuts(locs)) == LastEnd(locs)
  {
    if locs != [] {
      var init, l := locs[..|locs| - 1], locs[|locs| - 1];
      CutsApart(init, len);
      assert LastEnd(init) <= l.start;
      if l.end != 0 { ApartMore(Cuts(init), l, len); }
    }
  }

  lemma ApartMore(locs: seq<Loc>, l: Loc, len: nat)
    requires Apart(locs, len) && LastEnd(locs) <= l.start <= l.end <= len
    ensures Apart(locs + [l], len) && LastEnd(locs + [l]) == l.end
  {
  }

  /** Java drops the trailing empty pieces of a split. */
  method DropTrailingEmpty(pieces: seq<string>) returns (items: seq<string>)
    ensures items <= pieces && (items != [] ==> items[|items| - 1] != "")
    ensures forall k :: |items| <= k < |pieces| ==> pieces[k] == ""
  {
    items := pieces;
    while items != [] && items[|items| - 1] == ""
      invariant items <= pieces
      invariant forall k :: |items| <= k < |pieces| ==> pieces[k] == ""
    {
      items := items[..|items| - 1];
    }
  }

  /** The matches whose piece is charged: those a split cuts at. */
  predicate CutsAt(l: Loc) { l.end != 0 }

  lemma {:induction false} CutsAreCharged(locs: seq<Loc>)
    ensures Slots(CutsAt, locs) == |Cuts(locs)|
  {
    if locs != [] { CutsAreCharged(locs[..|locs| - 1]); }
  }

  /** The pieces of s between the matches of an expression, as a split has them. */
  ghost function RegexPieces(e: Engine, s: string): (ps: seq<string>)
    requires Valid(e) && |e.width| == |s|
    ensures ps != []
  {
    FindAllApart(e, -1);
    CutsApart(FindAll(e, -1), |s|);
    var cuts := Cuts(FindAll(e, -1));
    Between(s, cuts) + [s[LastEnd(cuts)..]]
  }

  lemma PiecesOfMatches(e: Engine, s: string, locs: seq<Loc>)
    requires Valid(e) && |e.width| == |s| && locs == FindAll(e, -1)
    ensures Apart(Cuts(locs), |s|) && LastEnd(Cuts(locs)) <= |s|
    ensures Between(s, Cuts(locs)) + [s[LastEnd(Cuts(locs))..]] == RegexPieces(e, s)
    ensures |RegexPieces(e, s)| == Slots(CutsAt, locs) + 1
  {
    FindAllApart(e, -1);
    CutsApart(locs, |s|);
    CutsAreCharged(locs);
    PiecesWeaveBack(s, Cuts(locs));
  }

  /** What a split by an expression charges: its pieces, and the searches, one for each match or more. */
  ghost predicate SplitCharged(before: int, after: int, len: nat, matches: nat, pieces: nat) {
    before + matches * 256 + pieces * 64 <= after <= before + (len + 1) * 256 + pieces * 64
  }

  /** splitRegex: the piece before each cut, charged as it is added, and what is left. */
  method SplitRegex(mem: Budget, p: Pattern, needsContext: bool, s: string) returns (items: Option<seq<string>>)
    requires Covers(p, s) && (needsContext || ContextFree(p, s))
    modifies mem`used, mem.pool
    ensures items.Some? ==> items.value == RegexPieces(p(s), s)
    ensures items.Some? ==> SplitCharged(old(mem.used), mem.used, |s|, |FindAll(p(s), -1)|, |items.value|)
    ensures items.None? ==> mem.Over(Room(needsContext, p(s), -1))
  {
    PiecesOfMatches(p(s), s, FindAll(p(s), -1));
    hide ContextFree, FindAll, Cuts, Between, Apart, Slots, RegexPieces, LastEnd;
    var locs, ending := EachMatch(mem, p, needsContext, s, -1, CutsAt, _ => true);
    if ending != Done { return None; }
    var cuts := Cuts(locs);
    var pieces := Between(s, cuts) + [s[LastEnd(cuts)..]];
    var ok := mem.Charge(SLOT_BYTES);
    items := if ok then Some(pieces) else None;
  }

  // ---- Replacing matches

  datatype Replacement = Text(text: string) | OutputLimit | MemoryLimit

  /** What has been written after these matches; expand is the replacement of one. */
  function Built(s: string, locs: seq<Loc>, expand: Loc -> string): string
    requires Apart(locs, |s|)
  {
    if locs == [] then ""
    else
      var init, l := locs[..|locs| - 1], locs[|locs| - 1];
      Built(s, init, expand) + s[LastEnd(init)..l.start] + expand(l)
  }

  lemma {:induction false} BuiltGrows(s: string, locs: seq<Loc>, n: nat, expand: Loc -> string)
    requires Apart(locs, |s|) && n <= |locs|
    ensures Apart(locs[..n], |s|) && |Built(s, locs[..n], expand)| <= |Built(s, locs, expand)|
    decreases |locs|
  {
    if n < |locs| {
      var init := locs[..|locs| - 1];
      BuiltGrows(s, init, n, expand);
      assert init[..n] == locs[..n];
    } else {
      assert locs[..n] == locs;
    }
  }

  /** All matches replaced. */
  function WithAllReplaced(s: string, locs: seq<Loc>, expand: Loc -> string): string
    requires Apart(locs, |s|)
  {
    Built(s, locs, expand) + s[LastEnd(locs)..]
  }

  /** After the last of these matches what has been written is within the limit. */
  predicate Within(s: string, locs: seq<Loc>, expand: Loc -> string) {
    Apart(locs, |s|) && |Built(s, locs, expand)| <= MAX_OUTPUT_BYTES
  }

  /** A replacement charges no slot for a match. */
  predicate NoSlot(l: Loc) { false }

  lemma {:induction false} NoneCharged(locs: seq<Loc>)
    ensures Slots(NoSlot, locs) == 0
  {
    if locs != [] { NoneCharged(locs[..|locs| - 1]); }
  }

  /** The text with the matches of an expression replaced: all of them, or the first. */
  ghost function RegexReplaced(e: Engine, s: string, all: bool, expand: Loc -> string): string
    requires Valid(e) && |e.width| == |s|
  {
    FindAllApart(e, if all then -1 else 1);
    WithAllReplaced(s, FindAll(e, if all then -1 else 1), expand)
  }

  /**
   regexReplace with an expression: it stops at the first match past the limit, and yet refuses exactly
   the texts that are too long as a whole, unless the budget has no room.
   */
  method RegexReplace(mem: Budget, p: Pattern, needsContext: bool, s: string, all: bool, expand: Loc -> string)
    returns (r: Replacement)
    requires Covers(p, s) && (needsContext || ContextFree(p, s))
    modifies mem`used, mem.pool
    ensures var full := RegexReplaced(p(s), s, all, expand);
      && (r.Text? ==> r.text == full && |full| <= MAX_OUTPUT_BYTES)
      && (r.OutputLimit? ==> |full| > MAX_OUTPUT_BYTES)
    ensures r.MemoryLimit? ==> mem.Over(Room(needsContext, p(s), if all then -1 else 1))
    ensures !r.MemoryLimit? ==> mem.used <= old(mem.used) + (|s| + 1) * 256
    ensures r.Text? ==> mem.used >= old(mem.used) + |FindAll(p(s), if all then -1 else 1)| * 256
  {
    var n := if all then -1 else 1;
    FindAllApart(p(s), n);
    hide ContextFree, FindAll, Apart, Accepted, Slots;
    var locs, ending := EachMatch(mem, p, needsContext, s, n, NoSlot, ls => Within(s, ls, expand));
    NoneCharged(locs);
    if ending.NoMemory? { return MemoryLimit; }
    BuiltGrows(s, FindAll(p(s), n), |locs|, expand);
    assert locs == FindAll(p(s), n)[..|locs|];
    if ending.Refused? { return OutputLimit; }
    var out := Built(s, locs, expand) + s[LastEnd(locs)..];
    r := if |out| > MAX_OUTPUT_BYTES then OutputLimit else Text(out);
  }
}
