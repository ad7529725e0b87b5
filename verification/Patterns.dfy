/**
 split, replace, replaceAll and replaceFirst (internal/vtl/string_methods.go:69-96, 327-399) as templates call
 them (internal/vtl/methods.go:89-110): a pattern that stands for itself takes a shorter way, which gives what
 the matches of the expression would have given.
 */
module Patterns {
  import opened Budgets
  import opened Common
  import opened Limits
  import opened Matching
  import opened StringMethods
  import opened Texts

  /** The expression finds the text wherever it stands, and nothing else. */
  ghost predicate FindsText(e: Engine, s: string, sub: string) {
    && Valid(e) && |e.width| == |s|
    && (forall q :: 0 <= q <= |s| ==> e.at[q] == if At(s, sub, q) then Some(q + |sub|) else None)
  }

  /** The text stands in s only as whole characters, as a text of characters does in another one. */
  ghost predicate WholeCharacters(e: Engine, s: string, sub: string)
    requires Valid(e)
  {
    forall q :: 0 <= q && At(s, sub, q) ==> StepsTo(e, 0, q) && StepsTo(e, 0, q + |sub|)
  }

  lemma {:induction false} StepsOn(e: Engine, pos: nat, a: nat, b: nat)
    requires Valid(e) && StepsTo(e, pos, a) && StepsTo(e, pos, b) && pos <= a <= b
    ensures StepsTo(e, a, b)
    decreases a - pos
  {
    if pos != a { StepsOn(e, pos + e.width[pos], a, b); }
  }

  /** What a search for the text from i on finds. */
  function Occurrence(s: string, sub: string, i: nat): Option<Loc>
    requires i <= |s|
  {
    var k := IndexFrom(s, sub, i);
    if k > |s| then None else Some(Loc(k, k + |sub|))
  }

  lemma FindIsIndex(e: Engine, s: string, sub: string, i: nat)
    requires FindsText(e, s, sub) && WholeCharacters(e, s, sub)
    requires i <= |s| && StepsTo(e, 0, i)
    ensures Find(e, i) == Occurrence(s, sub, i)
  {
    var k, found := IndexFrom(s, sub, i), Find(e, i);
    hide Find, IndexFrom, Valid, StepsTo, At;
    if k <= |s| {
      StepsOn(e, 0, i, k);
      FindIsLeftmost(e, i, k);
    }
    if found.Some? {
      assert e.at[found.value.start].Some?;
      assert At(s, sub, found.value.start);
    }
  }

  /** The places of the text from i on, one after the other. */
  function Places(s: string, sub: string, i: nat): seq<Loc>
    requires sub != "" && i <= |s|
    decreases |s| - i
  {
    var l := Occurrence(s, sub, i);
    if l.None? then [] else [l.value] + Places(s, sub, l.value.end)
  }

  lemma {:induction false} ScanIsPlaces(e: Engine, s: string, sub: string, i: nat, prevEnd: int)
    requires FindsText(e, s, sub) && WholeCharacters(e, s, sub) && sub != ""
    requires i <= |s| && StepsTo(e, 0, i)
    ensures Scan(e, i, prevEnd) == Places(s, sub, i)
    decreases |s| - i
  {
    FindIsIndex(e, s, sub, i);
    var l := Occurrence(s, sub, i);
    if l.Some? {
      assert At(s, sub, l.value.start) && i <= l.value.start && l.value.end <= |s|;
      assert StepsTo(e, 0, l.value.start + |sub|);
      hide IndexFrom, At, StepsTo, Find, WholeCharacters, Occurrence, Valid;
      ScanIsPlaces(e, s, sub, l.value.end, l.value.end);
    }
  }

  // ---- From the left and from the right

  lemma BetweenMore(s: string, before: seq<Loc>, l: Loc)
    requires Apart(before, |s|) && LastEnd(before) <= l.start <= l.end <= |s|
    ensures Apart(before + [l], |s|) && LastEnd(before + [l]) == l.end
    ensures Between(s, before + [l]) == Between(s, before) + [s[LastEnd(before)..l.start]]
  {
    assert (before + [l])[..|before|] == before;
  }

  lemma BuiltMore(s: string, before: seq<Loc>, l: Loc, expand: Loc -> string)
    requires Apart(before, |s|) && LastEnd(before) <= l.start <= l.end <= |s|
    ensures Apart(before + [l], |s|) && LastEnd(before + [l]) == l.end
    ensures Built(s, before + [l], expand) == Built(s, before, expand) + s[LastEnd(before)..l.start] + expand(l)
  {
    assert (before + [l])[..|before|] == before;
  }

  /** All of the places end after the start of the text, and each of them is a cut. */
  lemma {:induction false} AllAreCuts(locs: seq<Loc>)
    requires forall l <- locs :: l.end != 0
    ensures Cuts(locs) == locs
  {
    if locs != [] {
      AllAreCuts(locs[..|locs| - 1]);
      assert locs[|locs| - 1] in locs;
    }
  }

  lemma {:induction false} PlacesEndLater(s: string, sub: string, i: nat, l: Loc)
    requires sub != "" && i <= |s| && l in Places(s, sub, i)
    ensures l.end != 0
    decreases |s| - i
  {
    var first := Occurrence(s, sub, i).value;
    hide Occurrence;
    if l != first { PlacesEndLater(s, sub, first.end, l); }
  }

  lemma MoveOne<T>(a: seq<T>, x: T, b: seq<T>)
    ensures a + ([x] + b) == (a + [x]) + b
  {
  }

  lemma NothingMore<T>(a: seq<T>)
    ensures a + [] == a
  {
  }

  /** One more place is cut at; nothing of what has to be cut changes. */
  lemma OnePlace(s: string, sub: string, i: nat, l: Loc)
    requires sub != "" && i <= |s| && Occurrence(s, sub, i) == Some(l)
    ensures i <= l.start <= l.end <= |s| && i < l.end
    ensures Places(s, sub, i) == [l] + Places(s, sub, l.end)
    ensures Pieces(s, sub, i) == [s[i..l.start]] + Pieces(s, sub, l.end)
  {
  }

  lemma NoPlace(s: string, sub: string, i: nat)
    requires sub != "" && i <= |s| && Occurrence(s, sub, i) == None
    ensures Places(s, sub, i) == [] && Pieces(s, sub, i) == [s[i..]]
  {
  }

  /** Cutting at the places from i on, with what was cut before, leaves the pieces from i on. */
  lemma {:induction false} PlacesCutPieces(s: string, sub: string, i: nat, before: seq<Loc>)
    requires sub != "" && i <= |s| && Apart(before, |s|) && LastEnd(before) == i
    ensures var cuts := before + Places(s, sub, i);
      && Apart(cuts, |s|)
      && Between(s, cuts) + [s[LastEnd(cuts)..]] == Between(s, before) + Pieces(s, sub, i)
    decreases |s| - i
  {
    hide Occurrence, IndexFrom, Between, Apart, LastEnd, Pieces, Places;
    if Occurrence(s, sub, i).Some? {
      var l := Occurrence(s, sub, i).value;
      OnePlace(s, sub, i, l);
      BetweenMore(s, before, l);
      PlacesCutPieces(s, sub, l.end, before + [l]);
      MoveOne(before, l, Places(s, sub, l.end));
      MoveOne(Between(s, before), s[i..l.start], Pieces(s, sub, l.end));
    } else {
      NoPlace(s, sub, i);
      NothingMore(before);
    }
  }

  lemma FourParts(b: string, piece: string, to: string, rest: string)
    ensures b + piece + to + rest == b + (piece + to + rest)
  {
  }

  /** The text a replacement writes for the places from i on joins the pieces from i on. */
  lemma {:induction false} PlacesReplaced(s: string, sub: string, to: string, i: nat, before: seq<Loc>,
                                          expand: Loc -> string)
    requires sub != "" && i <= |s| && Apart(before, |s|) && LastEnd(before) == i
    requires forall l :: expand(l) == to
    ensures var locs := before + Places(s, sub, i);
      && Apart(locs, |s|)
      && Built(s, locs, expand) + s[LastEnd(locs)..] == Built(s, before, expand) + Join(Pieces(s, sub, i), to)
    decreases |s| - i
  {
    hide Occurrence, IndexFrom, Built, Apart, LastEnd, Pieces, Places, Join;
    if Occurrence(s, sub, i).Some? {
      var l := Occurrence(s, sub, i).value;
      OnePlace(s, sub, i, l);
      BuiltMore(s, before, l, expand);
      assert expand(l) == to;
      PlacesReplaced(s, sub, to, l.end, before + [l], expand);
      MoveOne(before, l, Places(s, sub, l.end));
      JoinMore(s[i..l.start], Pieces(s, sub, l.end), to);
      FourParts(Built(s, before, expand), s[i..l.start], to, Join(Pieces(s, sub, l.end), to));
    } else {
      NoPlace(s, sub, i);
      NothingMore(before);
      JoinOne(s[i..], to);
    }
  }

  /**
   Splitting and replacing at the places of a text gives what an expression that finds just this text
   gives: the shorter way changes nothing.
   */
  lemma LiteralIsRegex(e: Engine, s: string, sub: string, to: string, expand: Loc -> string)
    requires FindsText(e, s, sub) && WholeCharacters(e, s, sub) && sub != ""
    requires forall l :: expand(l) == to
    ensures RegexPieces(e, s) == Pieces(s, sub, 0)
    ensures RegexReplaced(e, s, true, expand) == Replaced(s, e.width, sub, to, true)
    ensures RegexReplaced(e, s, false, expand) == Replaced(s, e.width, sub, to, false)
  {
    ScanIsPlaces(e, s, sub, 0, -1);
    AllPieces(e, s, sub);
    AllReplaced(e, s, sub, to, expand);
    FirstReplaced(e, s, sub, to, expand);
  }

  lemma AllPieces(e: Engine, s: string, sub: string)
    requires Valid(e) && |e.width| == |s| && sub != "" && Scan(e, 0, -1) == Places(s, sub, 0)
    ensures RegexPieces(e, s) == Pieces(s, sub, 0)
  {
    var places := Places(s, sub, 0);
    assert FindAll(e, -1) == places;
    PiecesOfMatches(e, s, places);
    PlacesCutPieces(s, sub, 0, []) by { assert LastEnd([]) == 0; }
    forall l | l in places ensures l.end != 0 { PlacesEndLater(s, sub, 0, l); }
    AllAreCuts(places);
    assert Between(s, []) == [];
    hide Places, Scan, FindAll, Pieces, RegexPieces, Cuts, Between, LastEnd, Apart;
    NothingBefore(places);
    NothingBefore(Pieces(s, sub, 0));
  }

  lemma NothingBefore<T>(a: seq<T>)
    ensures [] + a == a
  {
  }

  lemma AllReplaced(e: Engine, s: string, sub: string, to: string, expand: Loc -> string)
    requires Valid(e) && |e.width| == |s| && sub != "" && Scan(e, 0, -1) == Places(s, sub, 0)
    requires forall l :: expand(l) == to
    ensures RegexReplaced(e, s, true, expand) == Replaced(s, e.width, sub, to, true)
  {
    var places := Places(s, sub, 0);
    assert FindAll(e, -1) == places;
    PlacesReplaced(s, sub, to, 0, [], expand) by { assert LastEnd([]) == 0; }
    assert Built(s, [], expand) == "";
    assert Replaced(s, e.width, sub, to, true) == Join(Pieces(s, sub, 0), to);
    hide Places, Scan, FindAll, Pieces, Built, LastEnd, Join, Replaced, IndexFrom;
    NothingBefore(places);
    NothingBefore(Join(Pieces(s, sub, 0), to));
  }

  lemma FirstReplaced(e: Engine, s: string, sub: string, to: string, expand: Loc -> string)
    requires Valid(e) && |e.width| == |s| && sub != "" && Scan(e, 0, -1) == Places(s, sub, 0)
    requires forall l :: expand(l) == to
    ensures RegexReplaced(e, s, false, expand) == Replaced(s, e.width, sub, to, false)
  {
    var found := Occurrence(s, sub, 0);
    assert Replaced(s, e.width, sub, to, false) ==
           if found.None? then s else s[..found.value.start] + to + s[found.value.end..];
    assert FindAll(e, 1) == if found.None? then [] else [found.value] by {
      hide Occurrence, Scan;
    }
    hide Occurrence, IndexFrom, Scan, FindAll, Places, Replaced;
    if found.Some? {
      WithOne(s, found.value, expand);
      assert expand(found.value) == to;
    } else {
      assert s[0..] == s;
    }
  }

  lemma WithOne(s: string, l: Loc, expand: Loc -> string)
    requires l.start <= l.end <= |s|
    ensures Apart([l], |s|)
    ensures WithAllReplaced(s, [l], expand) == s[..l.start] + expand(l) + s[l.end..]
  {
    BuiltMore(s, [], l, expand);
    NothingBefore([l]);
    assert Built(s, [], expand) == "" && LastEnd([]) == 0;
    hide Built, LastEnd, Apart;
    NothingBefore(s[..l.start]);
  }

  // ---- The methods of strings

  const MAX_PATTERN_BYTES: nat := 64 * 1024

  /** No character of the pattern means anything in an expression (regexp.QuoteMeta). */
  predicate Plain(pattern: string) { forall c <- pattern :: c !in "\\.+*?()|[]{}^$" }

  /** No character of the replacement stands for a group. */
  predicate PlainText(repl: string) { '$' !in repl && '\\' !in repl }

  datatype Compiled = Compiled(p: Pattern, needsContext: bool)

  /** library is what the library makes of the pattern, None for one that is no expression. */
  function Compile(pattern: string, library: Option<Compiled>): Option<Compiled> {
    if |pattern| > MAX_PATTERN_BYTES then None else library
  }

  /** The library says something about every position of the text, and sees what it needs to. */
  ghost predicate Sound(library: Option<Compiled>, s: string) {
    library.Some? ==> Covers(library.value.p, s) && (library.value.needsContext || ContextFree(library.value.p, s))
  }

  datatype Failure = BadPattern | TooLong | OutOfMemory

  /** The pieces of a split, trailing empty ones included. */
  ghost function AllPiecesOf(s: string, pattern: string, library: Option<Compiled>): seq<string>
    requires Sound(library, s)
  {
    if Plain(pattern) && pattern != "" then Pieces(s, pattern, 0)
    else if Compile(pattern, library).None? then []
    else RegexPieces(library.value.p(s), s)
  }

  /** The room a budget must lack for the pattern's way through the text to fail for memory. */
  ghost function RoomFor(s: string, library: Option<Compiled>, shortcut: bool, n: int): nat
    requires Sound(library, s)
  {
    if shortcut || library.None? then 0 else Room(library.value.needsContext, library.value.p(s), n)
  }

  /** strSplit: the pieces up to the last one that is not empty. */
  method Split(mem: Budget, s: string, pattern: string, library: Option<Compiled>)
    returns (r: Result<seq<string>, Failure>)
    requires Sound(library, s)
    modifies mem`used, mem.pool
    ensures r == Err(BadPattern) <==> !(Plain(pattern) && pattern != "") && Compile(pattern, library).None?
    ensures r.Ok? ==> var all := AllPiecesOf(s, pattern, library);
      && r.value <= all && (r.value != [] ==> r.value[|r.value| - 1] != "")
      && (forall k :: |r.value| <= k < |all| ==> all[k] == "")
    ensures r != Err(TooLong)
    ensures r == Err(OutOfMemory) ==> mem.Over(RoomFor(s, library, Plain(pattern) && pattern != "", -1))
  {
    hide ContextFree, Covers, FindAll, Pieces, RegexPieces, Room;
    var items;
    if Plain(pattern) && pattern != "" {
      items := SplitLiteral(mem, s, pattern);
    } else {
      var c := Compile(pattern, library);
      if c.None? { return Err(BadPattern); }
      items := SplitRegex(mem, c.value.p, c.value.needsContext, s);
    }
    if items.None? { return Err(OutOfMemory); }
    var kept := DropTrailingEmpty(items.value);
    r := Ok(kept);
  }

  /** The whole replaced text. */
  ghost function FullText(s: string, width: seq<nat>, pattern: string, to: string, all: bool,
                          library: Option<Compiled>, expand: Loc -> string): string
    requires Sound(library, s) && Widths(s, width)
  {
    if Shortcut(pattern, to) then Replaced(s, width, pattern, to, all)
    else if Compile(pattern, library).None? then ""
    else RegexReplaced(library.value.p(s), s, all, expand)
  }

  predicate Shortcut(pattern: string, to: string) { Plain(pattern) && PlainText(to) && pattern != "" }

  /** The searches of the expression's way are charged, one for each match or more; the shorter way charges nothing. */
  ghost predicate SearchesCharged(before: int, after: int, s: string, library: Option<Compiled>, shortcut: bool, n: int)
    requires Sound(library, s)
  {
    if shortcut || library.None? then after == before
    else before + |FindAll(library.value.p(s), n)| * 256 <= after <= before + (|s| + 1) * 256
  }

  /**
   regexReplace: a text that is too long is refused, except by the shorter way when the pattern does not
   occur in it: then it is left to the caller to refuse it.
   */
  method ReplacePattern(mem: Budget, s: string, width: seq<nat>, pattern: string, to: string, all: bool,
                        library: Option<Compiled>, expand: Loc -> string)
    returns (r: Result<string, Failure>)
    requires Sound(library, s) && Widths(s, width)
    modifies mem`used, mem.pool
    ensures r == Err(BadPattern) <==> !Shortcut(pattern, to) && Compile(pattern, library).None?
    ensures r != Err(BadPattern) && r != Err(OutOfMemory) ==>
      var full := FullText(s, width, pattern, to, all, library, expand);
      r == if |full| > MAX_OUTPUT_BYTES && (Shortcut(pattern, to) ==> IndexFrom(s, pattern, 0) <= |s|)
           then Err(TooLong) else Ok(full)
    ensures r == Err(OutOfMemory) ==>
      !Shortcut(pattern, to) && mem.Over(RoomFor(s, library, false, if all then -1 else 1))
    ensures r.Ok? ==>
      SearchesCharged(old(mem.used), mem.used, s, library, Shortcut(pattern, to), if all then -1 else 1)
  {
    hide ContextFree, Covers, FindAll, Replaced, RegexReplaced, Room, IndexFrom, Plain, PlainText;
    if Shortcut(pattern, to) {
      var t := LiteralReplace(s, width, pattern, to, all);
      return if t.Some? then Ok(t.value) else Err(TooLong);
    }
    var c := Compile(pattern, library);
    if c.None? { return Err(BadPattern); }
    var t := RegexReplace(mem, c.value.p, c.value.needsContext, s, all, expand);
    match t {
      case Text(text) => r := Ok(text);
      case OutputLimit => r := Err(TooLong);
      case MemoryLimit => r := Err(OutOfMemory);
    }
  }

  // ---- What a call gives

  /** callString with the text a method has made: one too long is refused, and any other charged. */
  method TextResult(mem: Budget, text: string) returns (r: Result<string, Failure>)
    modifies mem`used, mem.pool
    ensures r == Err(TooLong) <==> |text| > MAX_OUTPUT_BYTES
    ensures r == Ok(text) || r == Err(TooLong) || (r == Err(OutOfMemory) && mem.Over(0))
    ensures mem.used == old(mem.used) + if r == Err(TooLong) then 0 else |text|
  {
    if |text| > MAX_OUTPUT_BYTES { return Err(TooLong); }
    var ok := mem.Charge(|text|);
    r := if ok then Ok(text) else Err(OutOfMemory);
  }

  /**
   A call of replaceAll or replaceFirst: by either way, and memory aside, the replaced text exactly when it
   is not too long. The text is charged beside the searches.
   */
  method CallReplace(mem: Budget, s: string, width: seq<nat>, pattern: string, to: string, all: bool,
                     library: Option<Compiled>, expand: Loc -> string)
    returns (r: Result<string, Failure>)
    requires Sound(library, s) && Widths(s, width)
    modifies mem`used, mem.pool
    ensures r == Err(BadPattern) <==> !Shortcut(pattern, to) && Compile(pattern, library).None?
    ensures r != Err(BadPattern) && r != Err(OutOfMemory) ==>
      var full := FullText(s, width, pattern, to, all, library, expand);
      r == if |full| > MAX_OUTPUT_BYTES then Err(TooLong) else Ok(full)
    ensures r == Err(OutOfMemory) ==>
      mem.Over(RoomFor(s, library, Shortcut(pattern, to), if all then -1 else 1))
    ensures r.Ok? ==> SearchesCharged(old(mem.used), mem.used - |r.value|, s, library, Shortcut(pattern, to),
                                      if all then -1 else 1)
  {
    hide ContextFree, Covers, FullText, Room, IndexFrom, Shortcut, SearchesCharged, Compile;
    var t := ReplacePattern(mem, s, width, pattern, to, all, library, expand);
    if t.Err? { return t; }
    r := TextResult(mem, t.value);
  }

  /** A call of replace, which takes both texts as they are: every occurrence, or a refusal when too long. */
  method CallReplaceText(mem: Budget, s: string, width: seq<nat>, from: string, to: string)
    returns (r: Result<string, Failure>)
    requires Widths(s, width)
    modifies mem`used, mem.pool
    ensures r != Err(BadPattern)
    ensures r != Err(OutOfMemory) ==>
      var full := Replaced(s, width, from, to, true);
      r == if |full| > MAX_OUTPUT_BYTES then Err(TooLong) else Ok(full)
    ensures r == Err(OutOfMemory) ==> mem.Over(0)
    ensures r.Ok? ==> mem.used == old(mem.used) + |r.value|
  {
    hide Replaced, IndexFrom;
    var t := LiteralReplace(s, width, from, to, true);
    if t.None? { return Err(TooLong); }
    r := TextResult(mem, t.value);
  }

  /**
   Two calls of replaceAll, or of replaceFirst, on one text, with a pattern that stands for itself taken the
   shorter way and by its expression: when memory fails neither, they give the same.
   */
  lemma WaysAgree(s: string, width: seq<nat>, pattern: string, to: string, all: bool, library: Option<Compiled>,
                  expand: Loc -> string)
    requires Sound(library, s) && Compile(pattern, library).Some? && width == library.value.p(s).width
    requires Widths(s, width) && Shortcut(pattern, to)
    requires FindsText(library.value.p(s), s, pattern) && WholeCharacters(library.value.p(s), s, pattern)
    requires forall l :: expand(l) == to
    ensures FullText(s, width, pattern, to, all, library, expand) == RegexReplaced(library.value.p(s), s, all, expand)
  {
    LiteralIsRegex(library.value.p(s), s, pattern, to, expand);
    hide Plain, PlainText, Replaced, RegexReplaced, FindsText, WholeCharacters, Sound, Widths;
  }
}
