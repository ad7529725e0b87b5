/**
 The nesting limit is exact (internal/vtl/parse.go:55-63, 709-1112): the text of a tree that needs more levels
 than there are left is refused as nested too deep, so that with RoundTrip it is read back exactly when it fits.
 */
module TooDeeply {
  import opened Common
  import opened Ast
  import opened Scan
  import opened Grammar
  import opened Printer
  import opened RoundTrip

  // ---- Failures go up

  lemma ExpressionFails(s: string, d: nat)
    requires d <= MAX_TEMPLATE_DEPTH && (d < MAX_TEMPLATE_DEPTH ==> Chain(0, s, d + 1) == Fail(TooDeep))
    ensures Expression(s, d) == Fail(TooDeep)
  {
    hide Chain;
  }

  lemma {:induction false} LiftFailure(level: nat, k: nat, s: string, d: nat)
    requires level <= k <= LEVELS && d <= MAX_TEMPLATE_DEPTH && Chain(k, s, d) == Fail(TooDeep)
    ensures Chain(level, s, d) == Fail(TooDeep)
    decreases k - level
  {
    hide UnaryExpr, ChainRest;
    if level < k { LiftFailure(level + 1, k, s, d); }
  }

  lemma RestFails(level: nat, l: Expr, s: string, op: BinOp, s1: string, d: nat, links: nat)
    requires level < LEVELS && d <= MAX_TEMPLATE_DEPTH && links < MAX_OPERATOR_CHAIN
    requires MatchOp(level, s) == Some((op, s1)) && Chain(level + 1, s1, d) == Fail(TooDeep)
    ensures ChainRest(level, l, s, d, links) == Fail(TooDeep)
  {
    hide Chain, MatchOp;
  }

  /** No level is left for an operand. */
  lemma NoLevelLeft(s: string)
    ensures Chain(LEVELS, s, MAX_TEMPLATE_DEPTH) == Fail(TooDeep)
  {
    LastLevel(s, MAX_TEMPLATE_DEPTH);
  }

  lemma UnaryFails(s: string, op: UnOp, s1: string, d: nat)
    requires d < MAX_TEMPLATE_DEPTH && SkipSpace(s) == s && UnaryOperator(s) == Some((op, s1))
    requires UnaryExpr(s1, d + 1) == Fail(TooDeep)
    ensures UnaryExpr(s, d) == Fail(TooDeep)
  {
    hide Primary, UnaryOperator;
  }

  lemma ParenthesesFail(s: string, d: nat)
    requires d <= MAX_TEMPLATE_DEPTH && Expression(s, d) == Fail(TooDeep)
    ensures Primary("(" + s, d) == Fail(TooDeep)
  {
    hide Expression, Reference, DoubleQuoted, ListOrRange, MapLiteral, Number, Keyword, Quoted, SkipSpace;
    assert ("(" + s)[1..] == s;
  }

  // ---- Trees that need too much

  lemma {:induction false} PrintDeep(level: nat, full: bool, e: Expr, t: string, d: nat)
    requires level <= LEVELS && Writable(e) && ChainsFit(full, e)
    requires d <= MAX_TEMPLATE_DEPTH < d + Need(level, full, e)
    ensures Chain(level, Print(level, full, e, t), d) == Fail(TooDeep)
    decreases e, 2
  {
    hide Chain, Bare, NeedBare, Writable, ChainsFit;
    if Parenthesised(level, full, e) {
      ParenthesesDeep(full, e, t, d);
      LiftFailure(level, LEVELS, Print(level, full, e, t), d);
    } else {
      BareDeep(level, full, e, t, d);
    }
  }

  lemma {:induction false} ParenthesesDeep(full: bool, e: Expr, t: string, d: nat)
    requires Writable(e) && ChainsFit(full, e) && d <= MAX_TEMPLATE_DEPTH < d + 2 + NeedBare(full, e)
    ensures Chain(LEVELS, "(" + Bare(full, e, ")" + t), d) == Fail(TooDeep)
    decreases e, 1, 2
  {
    hide Chain, Bare, NeedBare, Writable, ChainsFit, Expression, Primary, UnaryExpr, UnaryOperator, SkipSpace;
    var inner := Bare(full, e, ")" + t);
    if d == MAX_TEMPLATE_DEPTH {
      NoLevelLeft("(" + inner);
    } else {
      if d + 1 < MAX_TEMPLATE_DEPTH { BareDeep(0, full, e, ")" + t, d + 2); }
      ExpressionFails(inner, d + 1);
      ParenthesesFail(inner, d + 1);
      ParenthesisOpens(inner);
      PrimaryStep("(" + inner, d);
      LastLevel("(" + inner, d);
    }
  }

  lemma {:induction false} BareDeep(level: nat, full: bool, e: Expr, t: string, d: nat)
    requires level <= LEVELS && level <= Rank(e) && Writable(e) && ChainsFit(full, e)
    requires d <= MAX_TEMPLATE_DEPTH < d + NeedBare(full, e)
    ensures Chain(level, Bare(full, e, t), d) == Fail(TooDeep)
    decreases e, 1, 0
  {
    hide Chain, Bare, NeedBare, Writable, ChainsFit;
    if e.Binary? {
      BinaryDeep(full, e, t, d);
      LiftFailure(level, Level(e.op), Bare(full, e, t), d);
    } else {
      if e.Unary? { UnaryDeep(full, e, t, d); } else { OperandDeep(full, e, t, d); }
      LiftFailure(level, LEVELS, Bare(full, e, t), d);
    }
  }

  lemma {:induction false} UnaryDeep(full: bool, e: Expr, t: string, d: nat)
    requires e.Unary? && Writable(e) && ChainsFit(full, e)
    requires d <= MAX_TEMPLATE_DEPTH < d + NeedBare(full, e)
    ensures Chain(LEVELS, Bare(full, e, t), d) == Fail(TooDeep)
    decreases e, 0
  {
    hide Chain, UnaryExpr, Print, Bare, Need, NeedBare, Writable, ChainsFit, SkipSpace, UnaryOperator;
    UnaryParts(full, e, t);
    if d == MAX_TEMPLATE_DEPTH {
      NoLevelLeft(Bare(full, e, t));
    } else {
      var inner := Print(LEVELS, full, e.x, t);
      PrintDeep(LEVELS, full, e.x, t, d + 1);
      PrintOpens(LEVELS, full, e.x, t);
      UnaryReadFails(e.uop, inner, d);
    }
  }

  lemma UnaryReadFails(op: UnOp, inner: string, d: nat)
    requires d < MAX_TEMPLATE_DEPTH && Opens(inner) && Chain(LEVELS, inner, d + 1) == Fail(TooDeep)
    ensures Chain(LEVELS, (if op.Not? then "!" else "-") + (" " + inner), d) == Fail(TooDeep)
  {
    hide Chain, ChainRest, UnaryExpr, SkipSpace, UnaryOperator;
    var s := (if op.Not? then "!" else "-") + (" " + inner);
    OneSpace(inner);
    SpaceIrrelevant(LEVELS, " " + inner, d + 1);
    LastLevel(" " + inner, d + 1);
    UnaryText(op, inner);
    UnaryFails(s, op, " " + inner, d);
    LastLevel(s, d);
  }

  /** How much the sides of an operator need. */
  lemma BinaryNeed(full: bool, e: Expr)
    requires e.Binary?
    ensures NeedBare(full, e) == Max(Need(Level(e.op), full, e.l), Need(Level(e.op) + 1, full, e.r))
  {
  }

  lemma {:induction false} BinaryDeep(full: bool, e: Expr, t: string, d: nat)
    requires e.Binary? && Writable(e) && ChainsFit(full, e)
    requires d <= MAX_TEMPLATE_DEPTH < d + NeedBare(full, e)
    ensures Chain(Level(e.op), Bare(full, e, t), d) == Fail(TooDeep)
    decreases e, 0
  {
    hide Chain, ChainRest, Print, Bare, Need, NeedBare, Follows, NoTighter, Links, Tail, Writable, ChainsFit, MatchOp,
         SkipSpace;
    var (op, l, r) := (e.op, e.l, e.r);
    var right := Print(Level(op) + 1, full, r, t);
    BinaryParts(full, e, t);
    BinaryNeed(full, e);
    if d + Need(Level(op), full, l) > MAX_TEMPLATE_DEPTH {
      PrintDeep(Level(op), full, l, Tail(op, right), d);
    } else {
      SymbolAt(op, right);
      PrintBack(Level(op), full, l, Tail(op, right), d);
      PrintDeep(Level(op) + 1, full, r, t, d);
      PrintOpens(Level(op) + 1, full, r, t);
      OneSpace(right);
      SpaceIrrelevant(Level(op) + 1, " " + right, d);
      RestFails(Level(op), l, Tail(op, right), op, " " + right, d, Links(Level(op), full, l));
    }
  }

  lemma {:induction false} OperandDeep(full: bool, e: Expr, t: string, d: nat)
    requires Rank(e) > LEVELS && Writable(e) && ChainsFit(full, e)
    requires d <= MAX_TEMPLATE_DEPTH < d + NeedBare(full, e)
    ensures Chain(LEVELS, Bare(full, e, t), d) == Fail(TooDeep)
    decreases e, 0, 3
  {
    hide Chain, UnaryExpr, Primary, Bare, NeedBare, Writable, ChainsFit;
    if d == MAX_TEMPLATE_DEPTH {
      NoLevelLeft(Bare(full, e, t));
    } else {
      PrimaryDeep(full, e, t, d + 1);
      var s := Bare(full, e, t);
      OneSpace(s);
      PrimaryStep(s, d);
      LastLevel(s, d);
    }
  }

  lemma ReferenceFails(name: string, tail: string, d: nat)
    requires IsIdent(name) && EndsName(tail) && d <= MAX_TEMPLATE_DEPTH
    requires Accessors(tail, d, []) == Fail(TooDeep)
    ensures Primary("$" + (name + tail), d) == Fail(TooDeep)
  {
    hide Expression, Accessors, DoubleQuoted, ListOrRange, MapLiteral, Number, Keyword;
    var s := "$" + (name + tail);
    IdentBack(name, tail);
    assert s[1..] == name + tail;
  }

  lemma {:induction false} PrimaryDeep(full: bool, e: Expr, t: string, d: nat)
    requires Rank(e) > LEVELS && Writable(e) && ChainsFit(full, e)
    requires 1 <= d <= MAX_TEMPLATE_DEPTH && MAX_TEMPLATE_DEPTH + 1 < d + NeedBare(full, e)
    ensures Primary(Bare(full, e, t), d) == Fail(TooDeep)
    ensures OpensPrimary(Bare(full, e, t))
    decreases e, 0, 2
  {
    hide Expression, Accessors, DoubleQuoted, Reference, Arguments, ListOrRange, MapLiteral, Number, Keyword,
         PrintLit, Print, PrintItems, PrintEntries, PrintChain, Need, NeedItems, NeedEntries, NeedChain;
    var s := Bare(full, e, t);
    match e
    case Ref(ref) =>
      AccessorsDeep(full, ref.chain, t, d, []);
      ReferenceFails(ref.name, PrintChain(full, ref.chain, t), d);
    case ListExpr(items) =>
      assert s[1..] == PrintItems(full, items, "]" + t);
      ListDeep(full, items, t, d);
    case RangeExpr(from, to) =>
      var tail := Print(0, full, to, "]" + t);
      assert s[1..] == Print(0, full, from, ".." + tail);
      RangeDeep(full, e, t, d);
    case MapExpr(entries) =>
      assert s[1..] == PrintEntries(full, entries, "}" + t);
      MapDeep(full, entries, t, d);
  }

  /** One expression too deep, wherever it stands. */
  lemma {:induction false} ItemDeep(full: bool, e: Expr, t: string, d: nat)
    requires Writable(e) && ChainsFit(full, e) && d <= MAX_TEMPLATE_DEPTH < d + 1 + Need(0, full, e)
    ensures Expression(Print(0, full, e, t), d) == Fail(TooDeep)
    ensures Expression(" " + Print(0, full, e, t), d) == Fail(TooDeep)
    ensures Opens(Print(0, full, e, t))
    decreases e, 3
  {
    hide Chain, Print, Need, Writable, ChainsFit, SkipSpace;
    var s := Print(0, full, e, t);
    PrintOpens(0, full, e, t);
    if d < MAX_TEMPLATE_DEPTH {
      PrintDeep(0, full, e, t, d + 1);
      OneSpace(s);
      SpaceIrrelevant(0, " " + s, d + 1);
    }
    ExpressionFails(s, d);
    ExpressionFails(" " + s, d);
  }

  // ---- Ranges and lists

  lemma ListFails(s: string, d: nat)
    requires d <= MAX_TEMPLATE_DEPTH && Opens(s) && Expression(s, d) == Fail(TooDeep)
    ensures ListOrRange(s, d) == Fail(TooDeep)
  {
    hide Expression, Arguments, SkipSpace;
    OneSpace(s);
  }

  lemma RangeEndFails(s: string, from: Expr, tail: string, d: nat)
    requires d <= MAX_TEMPLATE_DEPTH && Opens(s)
    requires Expression(s, d) == Done(from, ".." + tail) && Expression(tail, d) == Fail(TooDeep)
    ensures ListOrRange(s, d) == Fail(TooDeep)
  {
    hide Expression, Arguments, SkipSpace;
    var dots := ".." + tail;
    OneSpace(s);
    OneSpace(dots);
    assert dots[2..] == tail && PairAt('.', '.', dots);
  }

  lemma {:induction false} RangeDeep(full: bool, e: Expr, t: string, d: nat)
    requires e.RangeExpr? && Writable(e) && ChainsFit(full, e)
    requires d <= MAX_TEMPLATE_DEPTH && MAX_TEMPLATE_DEPTH + 1 < d + NeedBare(full, e)
    ensures ListOrRange(Print(0, full, e.from, ".." + Print(0, full, e.to, "]" + t)), d) == Fail(TooDeep)
    ensures Opens(Print(0, full, e.from, ".." + Print(0, full, e.to, "]" + t)))
    decreases e, 0, 1
  {
    hide ListOrRange, Expression, Print, Need;
    var tail := Print(0, full, e.to, "]" + t);
    var s := Print(0, full, e.from, ".." + tail);
    if d + 1 + Need(0, full, e.from) > MAX_TEMPLATE_DEPTH {
      ItemDeep(full, e.from, ".." + tail, d);
      ListFails(s, d);
    } else {
      ItemBack(full, e.from, ".." + tail, d);
      ItemDeep(full, e.to, "]" + t, d);
      RangeEndFails(s, e.from, tail, d);
    }
  }

  lemma ListManyFails(s: string, a: Expr, rest: string, d: nat)
    requires d <= MAX_TEMPLATE_DEPTH && Opens(s) && Expression(s, d) == Done(a, ", " + rest)
    requires Arguments(']', " " + rest, d, []) == Fail(TooDeep)
    ensures ListOrRange(s, d) == Fail(TooDeep)
  {
    hide Expression, Arguments, SkipSpace;
    var tail := ", " + rest;
    OneSpace(s);
    OneSpace(tail);
    assert tail[1..] == " " + rest;
  }

  /** The first of several items, what is written behind it, and how much all of them need. */
  lemma ItemsNeed(full: bool, items: seq<Expr>, t: string)
    requires WritableItems(items) && (forall x <- items :: ChainsFit(full, x)) && items != []
    ensures Writable(items[0]) && ChainsFit(full, items[0])
    ensures WritableItems(items[1..]) && forall x <- items[1..] :: ChainsFit(full, x)
    ensures NeedItems(full, items) == Max(1 + Need(0, full, items[0]), NeedItems(full, items[1..]))
    ensures |items| == 1 ==> NeedItems(full, items[1..]) == 0
    ensures PrintItems(full, items, t)
         == Print(0, full, items[0], if |items| == 1 then t else ", " + PrintItems(full, items[1..], t))
  {
    hide Writable, ChainsFit, Need, Print;
  }

  lemma {:induction false} ListDeep(full: bool, items: seq<Expr>, t: string, d: nat)
    requires WritableItems(items) && (forall x <- items :: ChainsFit(full, x))
    requires d <= MAX_TEMPLATE_DEPTH < d + NeedItems(full, items)
    ensures ListOrRange(PrintItems(full, items, "]" + t), d) == Fail(TooDeep)
    decreases items, 5
  {
    assert items != [];
    hide ListOrRange, Expression, Arguments, Print, PrintItems, Need, NeedItems, Writable, WritableItems, ChainsFit;
    var close := "]" + t;
    ItemsNeed(full, items, close);
    var s := PrintItems(full, items, close);
    var rest := PrintItems(full, items[1..], close);
    if d + 1 + Need(0, full, items[0]) > MAX_TEMPLATE_DEPTH {
      ItemDeep(full, items[0], if |items| == 1 then close else ", " + rest, d);
      ListFails(s, d);
    } else {
      CommaSkip(rest);
      ItemBack(full, items[0], ", " + rest, d);
      ItemsDeep(full, items[1..], close, d, []);
      ListManyFails(s, items[0], rest, d);
    }
  }

  lemma ArgumentsFail(closer: char, s: string, d: nat, done: seq<Expr>)
    requires d <= MAX_TEMPLATE_DEPTH && Opens(SkipSpace(s)) && (closer == ')' || closer == ']')
    requires Expression(s, d) == Fail(TooDeep) && Expression(SkipSpace(s), d) == Fail(TooDeep)
    ensures Arguments(closer, s, d, done) == Fail(TooDeep)
  {
    hide Expression, SkipSpace;
  }

  lemma {:induction false} ItemsDeep(full: bool, items: seq<Expr>, close: string, d: nat, done: seq<Expr>)
    requires close != "" && (close[0] == ')' || close[0] == ']')
    requires WritableItems(items) && (forall x <- items :: ChainsFit(full, x))
    requires d <= MAX_TEMPLATE_DEPTH < d + NeedItems(full, items)
    ensures Arguments(close[0], PrintItems(full, items, close), d, done) == Fail(TooDeep)
    ensures Arguments(close[0], " " + PrintItems(full, items, close), d, done) == Fail(TooDeep)
    decreases items, 4
  {
    assert items != [];
    hide Arguments, Expression, Print, PrintItems, Need, NeedItems, Writable, WritableItems, ChainsFit, SkipSpace,
         Opens;
    ItemsNeed(full, items, close);
    var s := PrintItems(full, items, close);
    var rest := PrintItems(full, items[1..], close);
    if d + 1 + Need(0, full, items[0]) > MAX_TEMPLATE_DEPTH {
      ItemDeep(full, items[0], if |items| == 1 then close else ", " + rest, d);
      OpensSkip(s);
      ArgumentsFail(close[0], s, d, done);
      ArgumentsFail(close[0], " " + s, d, done);
    } else {
      CommaSkip(rest);
      ItemBack(full, items[0], ", " + rest, d);
      OpensSkip(s);
      ItemsDeep(full, items[1..], close, d, done + [items[0]]);
      ArgumentsComma(close[0], s, items[0], ", " + rest, d, done);
      ArgumentsComma(close[0], " " + s, items[0], ", " + rest, d, done);
    }
  }

  // ---- Maps

  lemma KeyFails(s: string, d: nat)
    requires d <= MAX_TEMPLATE_DEPTH && Expression(s, d) == Fail(TooDeep)
    ensures MapEntry(s, d) == Fail(TooDeep)
  {
    hide Expression;
  }

  lemma ValueFails(s: string, key: Expr, tail: string, d: nat)
    requires d <= MAX_TEMPLATE_DEPTH && Expression(s, d) == Done(key, ": " + tail)
    requires Expression(" " + tail, d) == Fail(TooDeep)
    ensures MapEntry(s, d) == Fail(TooDeep)
  {
    hide Expression, SkipSpace;
    OneSpace(": " + tail);
    assert (": " + tail)[1..] == " " + tail;
  }

  lemma {:induction false} EntryDeep(full: bool, entry: Entry, t: string, d: nat)
    requires WritableEntry(entry) && ChainsFitEntry(full, entry)
    requires d <= MAX_TEMPLATE_DEPTH < d + NeedEntry(full, entry)
    ensures MapEntry(PrintEntry(full, entry, t), d) == Fail(TooDeep)
    ensures MapEntry(" " + PrintEntry(full, entry, t), d) == Fail(TooDeep)
    ensures Opens(PrintEntry(full, entry, t))
    decreases entry, 0
  {
    hide Expression, MapEntry, Print, Need, Writable, ChainsFit, SkipSpace;
    var val := Print(0, full, entry.val, t);
    var s := Print(0, full, entry.key, ": " + val);
    if d + 1 + Need(0, full, entry.key) > MAX_TEMPLATE_DEPTH {
      ItemDeep(full, entry.key, ": " + val, d);
      KeyFails(s, d);
      KeyFails(" " + s, d);
    } else {
      ItemBack(full, entry.key, ": " + val, d);
      ItemDeep(full, entry.val, t, d);
      ValueFails(s, entry.key, val, d);
      ValueFails(" " + s, entry.key, val, d);
    }
  }

  lemma EntriesFail(s: string, d: nat, done: seq<Entry>)
    requires d <= MAX_TEMPLATE_DEPTH && MapEntry(s, d) == Fail(TooDeep)
    ensures MapEntries(s, d, done) == Fail(TooDeep)
  {
    hide MapEntry;
  }

  lemma EntriesNeed(full: bool, entries: seq<Entry>, t: string)
    requires entries != [] && WritableEntries(entries) && forall x <- entries :: ChainsFitEntry(full, x)
    ensures WritableEntry(entries[0]) && ChainsFitEntry(full, entries[0])
    ensures WritableEntries(entries[1..]) && forall x <- entries[1..] :: ChainsFitEntry(full, x)
    ensures NeedEntries(full, entries) == Max(NeedEntry(full, entries[0]), NeedEntries(full, entries[1..]))
    ensures |entries| == 1 ==> NeedEntries(full, entries[1..]) == 0
    ensures PrintEntries(full, entries, t)
         == PrintEntry(full, entries[0], if |entries| == 1 then t else ", " + PrintEntries(full, entries[1..], t))
  {
    hide WritableEntry, ChainsFitEntry, NeedEntry, PrintEntry;
  }

  lemma {:induction false} EntriesDeep(full: bool, entries: seq<Entry>, t: string, d: nat, done: seq<Entry>)
    requires WritableEntries(entries) && forall x <- entries :: ChainsFitEntry(full, x)
    requires d <= MAX_TEMPLATE_DEPTH < d + NeedEntries(full, entries)
    ensures MapEntries(PrintEntries(full, entries, "}" + t), d, done) == Fail(TooDeep)
    ensures MapEntries(" " + PrintEntries(full, entries, "}" + t), d, done) == Fail(TooDeep)
    ensures Opens(PrintEntries(full, entries, "}" + t))
    decreases entries, 4
  {
    assert entries != [];
    hide MapEntry, MapEntries, Print, PrintEntry, PrintEntries, NeedEntry, NeedEntries, WritableEntry, WritableEntries,
         ChainsFitEntry, Opens;
    var close := "}" + t;
    EntriesNeed(full, entries, close);
    var s := PrintEntries(full, entries, close);
    var s1 := if |entries| == 1 then close else ", " + PrintEntries(full, entries[1..], close);
    if d + NeedEntry(full, entries[0]) > MAX_TEMPLATE_DEPTH {
      EntryDeep(full, entries[0], s1, d);
      EntriesFail(s, d, done);
      EntriesFail(" " + s, d, done);
    } else {
      CommaSkip(PrintEntries(full, entries[1..], close));
      EntryBack(full, entries[0], s1, d);
      EntriesStep(s, entries[0], s1, d, done);
      EntriesStep(" " + s, entries[0], s1, d, done);
      EntriesDeep(full, entries[1..], t, d, done + [entries[0]]);
    }
  }

  lemma {:induction false} MapDeep(full: bool, entries: seq<Entry>, t: string, d: nat)
    requires WritableEntries(entries) && forall x <- entries :: ChainsFitEntry(full, x)
    requires d <= MAX_TEMPLATE_DEPTH < d + NeedEntries(full, entries)
    ensures MapLiteral(PrintEntries(full, entries, "}" + t), d) == Fail(TooDeep)
    decreases entries, 5
  {
    hide MapEntries, PrintEntries, WritableEntry, ChainsFitEntry, NeedEntries;
    EntriesDeep(full, entries, t, d, []);
    OneSpace(PrintEntries(full, entries, "}" + t));
  }

  // ---- References

  lemma MethodFails(name: string, inner: string, d: nat, done: seq<Accessor>)
    requires IsIdent(name) && d <= MAX_TEMPLATE_DEPTH && Arguments(')', inner, d, []) == Fail(TooDeep)
    ensures Accessors("." + (name + ("(" + inner)), d, done) == Fail(TooDeep)
  {
    hide Expression, Arguments;
    var tail := "(" + inner;
    var s := "." + (name + tail);
    IdentBack(name, tail);
    assert s[1..] == name + tail && s[1] == name[0];
    assert tail[1..] == inner;
  }

  lemma IndexFails(inner: string, d: nat, done: seq<Accessor>)
    requires d <= MAX_TEMPLATE_DEPTH && Expression(inner, d) == Fail(TooDeep)
    ensures Accessors("[" + inner, d, done) == Fail(TooDeep)
  {
    hide Expression, Arguments;
    assert ("[" + inner)[1..] == inner;
  }

  lemma {:induction false} AccessorDeep(full: bool, a: Accessor, t: string, d: nat, done: seq<Accessor>)
    requires WritableAccessor(a) && ChainsFitAccessor(full, a)
    requires d <= MAX_TEMPLATE_DEPTH < d + NeedAccessor(full, a)
    ensures Accessors(PrintAccessor(full, a, t), d, done) == Fail(TooDeep)
    decreases a, 0
  {
    hide Expression, Arguments, Accessors, Print, PrintItems, Need, NeedItems;
    match a
    case Method(name, args) =>
      ItemsDeep(full, args, ")" + t, d, []);
      MethodFails(name, PrintItems(full, args, ")" + t), d, done);
    case Index(index) =>
      ItemDeep(full, index, "]" + t, d);
      IndexFails(Print(0, full, index, "]" + t), d, done);
  }

  lemma AccessorEndsName(full: bool, a: Accessor, t: string)
    ensures EndsName(PrintAccessor(full, a, t))
  {
    hide Print, PrintItems;
  }

  lemma {:induction false} AccessorsDeep(full: bool, chain: seq<Accessor>, t: string, d: nat, done: seq<Accessor>)
    requires WritableChain(chain) && forall a <- chain :: ChainsFitAccessor(full, a)
    requires d <= MAX_TEMPLATE_DEPTH < d + NeedChain(full, chain)
    ensures Accessors(PrintChain(full, chain, t), d, done) == Fail(TooDeep)
    ensures EndsName(PrintChain(full, chain, t))
    decreases chain, 0
  {
    hide Accessors, PrintAccessor, WritableAccessor, ChainsFitAccessor, NeedAccessor, EndsName;
    var rest := PrintChain(full, chain[1..], t);
    AccessorEndsName(full, chain[0], rest);
    if d + NeedAccessor(full, chain[0]) > MAX_TEMPLATE_DEPTH {
      AccessorDeep(full, chain[0], rest, d, done);
    } else {
      AccessorsDeep(full, chain[1..], t, d, done + [chain[0]]);
      AccessorBack(full, chain[0], rest, d, done);
    }
  }

  // ---- The main result

  /**
   The text of an expression is read back, whole, exactly when its nesting fits in the levels there are
   left; otherwise it is refused for its depth.
   */
  lemma ReadBackExactly(full: bool, e: Expr, depth: nat)
    requires Writable(e) && ChainsFit(full, e) && depth <= MAX_TEMPLATE_DEPTH
    ensures Expression(Source(full, e), depth) ==
            if depth + 1 + Need(0, full, e) <= MAX_TEMPLATE_DEPTH then Done(e, "") else Fail(TooDeep)
  {
    if depth + 1 + Need(0, full, e) <= MAX_TEMPLATE_DEPTH {
      ParseUndoesPrint(full, e, depth);
    } else {
      ItemDeep(full, e, "", depth);
    }
  }
}
