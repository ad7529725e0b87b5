/**
 What the parser refuses (internal/vtl/parse.go:26-63, 97-587, 746-798, 920-1016), and with what fault.
 */
module Refusals {
  import opened Common
  import opened Ast
  import opened Scan
  import opened Grammar
  import opened Printer
  import opened RoundTrip
  import opened TemplateText
  import opened TemplateRoundTrip
  import opened Spellings

  // ---- Blocks without an end

  /** The levels a directive's block has left are enough for it. */
  predicate Fits(full: bool, nodes: seq<Node>, d: nat) { d + 1 + NeedNodes(full, nodes) <= MAX_TEMPLATE_DEPTH }

  lemma UnendedBody(src: string, full: bool, nodes: seq<Node>, d: nat)
    requires WritableNodes(full, nodes) && Apart(src, full, nodes, "") && Fits(full, nodes, d)
    ensures ParseBlock(src, PrintNodes(full, nodes, ""), d) == Done(Block(nodes, NoTerm, ""), "")
  {
    hide BlockNodes, ParseBlock, PrintNodes, WritableNodes, Apart, NeedNodes;
    BodyRead(src, full, nodes, "", d);
    NothingMore(src, d + 1, nodes);
  }

  /** The block of an #if goes on to the end of the text. */
  lemma {:induction false} IfNeedsEnd(src: string, full: bool, cond: Expr, body: seq<Node>, d: nat, done: seq<Node>)
    requires WritableExpr(full, cond) && d + 1 + Need(0, full, cond) <= MAX_TEMPLATE_DEPTH
    requires WritableNodes(full, body) && Apart(src, full, body, "") && Fits(full, body, d)
    requires !Alone(src, "#" + ("if" + ("(" + Print(0, full, cond, ")" + PrintNodes(full, body, "")))),
                    PrintNodes(full, body, ""))
    ensures BlockNodes(src, "#" + ("if" + ("(" + Print(0, full, cond, ")" + PrintNodes(full, body, "")))), d, done) ==
            Fail(MissingEnd("if"))
  {
    hide BlockNodes, ParseBlock, PrintNodes, Print, WritableNodes, WritableExpr, Apart, NeedNodes, Need, Alone, Hash,
         Condition, Gobble, Fits, Foreach, Return, Set;
    var s := PrintNodes(full, body, "");
    var s1 := "(" + Print(0, full, cond, ")" + s);
    var start := "#" + ("if" + s1);
    ConditionExactly(full, cond, s, d);
    UnendedBody(src, full, body, d);
    NotGobbled(src, start, done, s);
    NameRead(src, "if", s1, d, done);
    NoEndFound(src, cond, s, d, body);
    HashStep(src, start, d, done);
  }

  lemma {:induction false} NoEndFound(src: string, cond: Expr, s: string, d: nat, body: seq<Node>)
    requires d <= MAX_TEMPLATE_DEPTH && ParseBlock(src, s, d) == Done(Block(body, NoTerm, ""), "")
    ensures IfBranches(src, cond, s, d, []) == Fail(MissingEnd("if"))
  {
    hide ParseBlock, Condition, Gobble;
  }

  /** So does the block of an #else, or it has another #else. */
  lemma {:induction false} ElseNeedsEnd(src: string, cond: Expr, s: string, d: nat, done: seq<Branch>, body: seq<Node>,
                                        start: string, s1: string)
    requires d <= MAX_TEMPLATE_DEPTH && ParseBlock(src, s, d) == Done(Block(body, ElseTerm, start), s1) && |s1| <= |s|
    requires ParseBlock(src, s1, d).Done? && !ParseBlock(src, s1, d).value.term.EndTerm?
    ensures IfBranches(src, cond, s, d, done) == Fail(MissingEnd("else"))
  {
    hide ParseBlock, Condition, Gobble;
  }

  /** A #foreach is ended by nothing but its #end. */
  lemma {:induction false} ForeachNeedsEnd(src: string, start: string, full: bool, name: string, iter: Expr,
                                           s: string, d: nat, nodes: seq<Node>)
    requires IsIdent(name) && WritableExpr(full, iter) && d + 1 + Need(0, full, iter) <= MAX_TEMPLATE_DEPTH
    requires !Alone(src, start, s) && ParseBlock(src, s, d).Done? && !ParseBlock(src, s, d).value.term.EndTerm?
    ensures Foreach(src, start, "($" + (name + (" in " + Print(0, full, iter, ")" + s))), d, nodes) ==
            Fail(MissingEnd("foreach"))
  {
    hide ParseBlock, ForeachHead, Print, WritableExpr, Need, Alone, Gobble;
    HeadExactly(full, name, iter, s, d);
    NotGobbled(src, start, nodes, s);
  }

  /** A directive that ends a block is refused where no block is open, whatever is behind it. */
  lemma {:induction false} StrayTerminator(full: bool, nodes: seq<Node>, name: string, t: string)
    requires name in {"else", "end"} && WritableNodes(full, nodes) && Fits(full, nodes, 0)
    requires var src := PrintNodes(full, nodes, "#{" + (name + ("}" + t)));
      |src| <= MAX_TEMPLATE_BYTES && Apart(src, full, nodes, "#{" + (name + ("}" + t))) &&
      !Alone(src, "#{" + (name + ("}" + t)), t)
    ensures Template(PrintNodes(full, nodes, "#{" + (name + ("}" + t)))) ==
            Err(UnexpectedTerminator(if name == "else" then ElseTerm else EndTerm))
  {
    hide BlockNodes, ParseBlock, PrintNodes, WritableNodes, Apart, NeedNodes, Alone;
    var tail := "#{" + (name + ("}" + t));
    var src := PrintNodes(full, nodes, tail);
    BodyRead(src, full, nodes, tail, 0);
    TerminatorRead(src, name, t, 1, nodes);
  }

  /** A text that is too long is refused as it is. */
  lemma TooLongIsRefused(src: string)
    requires |src| > 300 * 1024
    ensures Template(src) == Err(TooLarge)
  {
  }

  // ---- Names after '#' and '$'

  lemma UnsupportedIsIdent(name: string)
    requires name in {"macro", "define", "parse", "include", "evaluate"}
    ensures IsIdent(name) && IsUnsupported(name) && name[0] != '{' && name[0] != '#' && name[0] != '*' && name[0] != '['
  {
  }

  /** Five directives of Velocity are refused by name. */
  lemma {:induction false} UnsupportedRefused(src: string, name: string, t: string, d: nat, done: seq<Node>)
    requires name in {"macro", "define", "parse", "include", "evaluate"} && (t == "" || !IsIdentChar(t[0]))
    requires d <= MAX_TEMPLATE_DEPTH
    ensures BlockNodes(src, "#" + (name + t), d, done) == Fail(Unsupported(name))
  {
    UnsupportedIsIdent(name);
    IdentBack(name, t);
    var s := "#" + (name + t);
    assert s[1..] == name + t && s[1] == name[0];
    assert DirectiveName(s) == (name, false, t);
    hide IsKnown, IsUnsupported, DirectiveName, Directive, Gobble, Scan.Index, IdentLen, AppendText, BlockNodes;
    HashStep(src, s, d, done);
  }

  /** Any name but that of a directive, and none where no comment, unparsed block or brace begins. */
  predicate NamesNothing(name: string, t: string) {
    && (name != "" ==> IsIdent(name))
    && name !in {"set", "if", "elseif", "else", "end", "foreach", "break", "stop", "return", "macro", "define",
                 "parse", "include", "evaluate"}
    && (t == "" || !IsIdentChar(t[0]))
    && (name == "" && t != "" ==> t[0] != '#' && t[0] != '*' && t[0] != '[' && t[0] != '{')
  }

  lemma {:induction false} NameAhead(name: string, t: string)
    requires NamesNothing(name, t)
    ensures DirectiveName("#" + (name + t)).0 == name
    ensures var s := "#" + (name + t); !PairAt('#', '#', s) && !PairAt('#', '*', s) && !PairAt('#', '[', s)
  {
    var s := "#" + (name + t);
    assert s[1..] == name + t;
    if name == "" {
      assert name + t == t;
      assert IdentLen(t) == 0 && t[..0] == "";
    } else {
      IdentBack(name, t);
      assert s[1] == name[0];
      hide IdentLen;
    }
  }

  lemma {:induction false} HashAlone(src: string, name: string, t: string, d: nat, done: seq<Node>)
    requires NamesNothing(name, t) && d <= MAX_TEMPLATE_DEPTH
    ensures Hash(src, "#" + (name + t), d, done) == Done(Block(AppendText(done, "#"), NoTerm, ""), name + t)
  {
    NameAhead(name, t);
    assert !IsUnsupported(name) && !IsKnown(name);
    assert ("#" + (name + t))[1..] == name + t;
    hide NamesNothing, DirectiveName, PairAt, IsKnown, IsUnsupported, Directive, Gobble, Scan.Index, AppendText;
  }

  /** Such a name leaves the '#' as plain text. */
  lemma {:induction false} UnknownIsText(src: string, name: string, t: string, d: nat, done: seq<Node>)
    requires NamesNothing(name, t) && d <= MAX_TEMPLATE_DEPTH
    ensures BlockNodes(src, "#" + (name + t), d, done) == BlockNodes(src, name + t, d, AppendText(done, "#"))
  {
    hide NamesNothing, Hash, AppendText, BlockNodes;
    HashAlone(src, name, t, d, done);
    HashStep(src, "#" + (name + t), d, done);
  }

  /** A '$' in front of no name is plain text. */
  lemma {:induction false} DollarIsText(src: string, t: string, d: nat, done: seq<Node>)
    requires d <= MAX_TEMPLATE_DEPTH && (t == "" || (!IsIdentStart(t[0]) && t[0] != '!' && t[0] != '{'))
    ensures BlockNodes(src, "$" + t, d, done) == BlockNodes(src, t, d, AppendText(done, "$"))
  {
    var s := "$" + t;
    assert s[1..] == t;
    assert ReferenceOpening(s) == (false, false, t);
    assert Reference(s, d) == Done(None, s);
    assert PlainLen(s) == 0 && s[0..] == s && s[..0] == "";
    assert AppendText(done, "") == done;
    hide Reference, PlainLen, AppendText;
  }

  /** A reference in braces that are not closed is plain text from its '$' on. */
  lemma {:induction false} UnclosedIsText(src: string, full: bool, ref: RefExpr, t: string, d: nat, done: seq<Node>)
    requires WritableRef(full, ref) && d + NeedChain(full, ref.chain) <= MAX_TEMPLATE_DEPTH
    requires t != "" && (t[0] == ' ' || t[0] == ')' || t[0] == ',')
    ensures var rest := "{" + (ref.name + PrintChain(full, ref.chain, t));
      BlockNodes(src, "$" + rest, d, done) == BlockNodes(src, rest, d, AppendText(done, "$"))
  {
    hide Accessors, WritableChain, NeedChain, PrintChain, ChainsFitAccessor, IdentLen, ReferenceOpening, BlockNodes;
    var tail := PrintChain(full, ref.chain, t);
    var rest := "{" + (ref.name + tail);
    var s := "$" + rest;
    ChainExactly(full, ref.chain, t, d);
    IdentBack(ref.name, tail);
    ReferenceOpen(false, ref.name + tail);
    assert s == "${" + (ref.name + tail);
    assert Reference(s, d) == Done(None, s);
    DollarAlone(src, rest, d, done);
  }

  lemma {:induction false} DollarAlone(src: string, t: string, d: nat, done: seq<Node>)
    requires d <= MAX_TEMPLATE_DEPTH && Reference("$" + t, d) == Done(None, "$" + t)
    ensures BlockNodes(src, "$" + t, d, done) == BlockNodes(src, t, d, AppendText(done, "$"))
  {
    var s := "$" + t;
    assert s[1..] == t;
    assert PlainLen(s) == 0 && s[0..] == s && s[..0] == "";
    assert AppendText(done, "") == done;
    hide Reference, PlainLen, AppendText;
  }

  // ---- Comments, blocks and strings without an end

  lemma {:induction false} IndexNowhere(c: string, sub: string)
    requires sub != "" && forall i :: 0 <= i < |c| ==> !(sub <= c[i..])
    ensures Scan.Index(c, sub).None?
    decreases |c|
  {
    if c != "" {
      assert c[0..] == c;
      forall i | 0 <= i < |c[1..]| ensures !(sub <= c[1..][i..]) { assert c[1..][i..] == c[i + 1..]; }
      IndexNowhere(c[1..], sub);
    }
  }

  /** A comment in stars, and an unparsed block, have to be closed. */
  lemma {:induction false} UnclosedRefused(src: string, c: string, d: nat, done: seq<Node>)
    requires d <= MAX_TEMPLATE_DEPTH
    ensures (forall i :: 0 <= i < |c| ==> !("*#" <= c[i..])) ==>
      BlockNodes(src, "#*" + c, d, done) == Fail(UnterminatedComment)
    ensures (forall i :: 0 <= i < |"#[[" + c| ==> !("]]#" <= ("#[[" + c)[i..])) ==>
      BlockNodes(src, "#[[" + c, d, done) == Fail(UnterminatedBlock)
  {
    assert ("#*" + c)[2..] == c && ("#[[" + c)[2..][0] == '[';
    if forall i :: 0 <= i < |c| ==> !("*#" <= c[i..]) { IndexNowhere(c, "*#"); }
    if forall i :: 0 <= i < |"#[[" + c| ==> !("]]#" <= ("#[[" + c)[i..]) { IndexNowhere("#[[" + c, "]]#"); }
    hide BlockNodes, Scan.Index, DirectiveName, Directive, Gobble, AppendText;
    HashStep(src, "#*" + c, d, done);
    HashStep(src, "#[[" + c, d, done);
  }

  lemma {:induction false} NeverClosed(q: char, s: string)
    requires q !in s
    ensures Quoted(q, s).None?
  {
    if s != "" { NeverClosed(q, s[1..]); }
  }

  /** So do strings. */
  lemma {:induction false} UnclosedStringRefused(s: string, d: nat)
    requires d <= MAX_TEMPLATE_DEPTH
    ensures '"' !in s ==> Primary("\"" + s, d) == Fail(UnterminatedString)
    ensures '\'' !in s ==> Primary("'" + s, d) == Fail(UnterminatedString)
  {
    assert ("\"" + s)[1..] == s && ("'" + s)[1..] == s;
    if '"' !in s { NeverClosed('"', s); }
    if '\'' !in s { NeverClosed('\'', s); }
    hide Quoted, Expression, Reference, ListOrRange, MapLiteral, Number, Keyword, ParseBlock;
  }

  /** A string is no place for a directive that ends a block. */
  lemma {:induction false} TerminatorInStringRefused(full: bool, nodes: seq<Node>, name: string, u: string, t: string,
                                                     d: nat)
    requires name in {"else", "end"} && WritableNodes(full, nodes) && Fits(full, nodes, d)
    requires t == "" || t[0] != '"'
    requires var tail := "#{" + (name + ("}" + u)); var src := PrintNodes(full, nodes, tail);
      Apart(src, full, nodes, tail) && !Alone(src, tail, u) && HasSign(src)
    ensures var src := PrintNodes(full, nodes, "#{" + (name + ("}" + u)));
      Primary("\"" + Doubled('"', src, "\"" + t), d) ==
      Fail(TerminatorInString(if name == "else" then ElseTerm else EndTerm))
  {
    hide Expression, Reference, ListOrRange, MapLiteral, Number, Keyword, ParseBlock, BlockNodes, Quoted, Doubled,
         NeedNodes, WritableNodes, Apart, PrintNodes, Alone;
    var tail := "#{" + (name + ("}" + u));
    var src := PrintNodes(full, nodes, tail);
    DoubledBack('"', src, t);
    var s := "\"" + Doubled('"', src, "\"" + t);
    assert s[1..] == Doubled('"', src, ['"'] + t);
    BodyRead(src, full, nodes, tail, d);
    TerminatorRead(src, name, u, d + 1, nodes);
  }

  // ---- Directives without what they need

  /** #set needs its equals sign. */
  lemma {:induction false} SetNeedsItsEquals(full: bool, target: RefExpr, t: string, d: nat)
    requires WritableRef(full, target) && d + NeedChain(full, target.chain) <= MAX_TEMPLATE_DEPTH
    requires t != "" && !IsSpace(t[0]) && t[0] != '='
    ensures Set("($" + (target.name + PrintChain(full, target.chain, " " + t)), d) == Fail(SetNeedsEquals)
  {
    hide Expect, Reference, Expression, SkipSpace, PrintChain, WritableRef, NeedChain;
    var s := "$" + (target.name + PrintChain(full, target.chain, " " + t));
    assert "($" + (target.name + PrintChain(full, target.chain, " " + t)) == "(" + s;
    OpeningRead(s);
    OneSpace(s);
    TargetExactly(full, target, " " + t, d);
    OneSpace(t);
  }

  /** A loop variable has no accessors. */
  lemma {:induction false} VariableIsPlain(full: bool, ref: RefExpr, t: string, d: nat)
    requires WritableRef(full, ref) && ref.chain != [] && d + NeedChain(full, ref.chain) <= MAX_TEMPLATE_DEPTH
    requires t != "" && t[0] == ' '
    ensures ForeachHead("($" + (ref.name + PrintChain(full, ref.chain, t)), d) == Fail(ForeachNeedsVariable)
  {
    hide Expect, Reference, Expression, SkipSpace, PrintChain, WritableRef, NeedChain;
    var s := "$" + (ref.name + PrintChain(full, ref.chain, t));
    assert "($" + (ref.name + PrintChain(full, ref.chain, t)) == "(" + s;
    OpeningRead(s);
    OneSpace(s);
    TargetExactly(full, ref, t, d);
  }

  /** The word in stands behind it. */
  lemma {:induction false} LoopNeedsIn(name: string, t: string, d: nat)
    requires IsIdent(name) && d <= MAX_TEMPLATE_DEPTH && t != "" && !IsSpace(t[0]) && !WordAt("in", t)
    ensures ForeachHead("($" + (name + (" " + t)), d) == Fail(ForeachNeedsIn)
  {
    hide Expression, Expect, LoopVariable, SkipSpace;
    VariableBack(name, " " + t, d);
    OneSpace(t);
  }

  /** A parenthesis that another closing character follows is not closed. */
  lemma {:induction false} ParenthesisNeedsClosing(full: bool, e: Expr, t: string, d: nat)
    requires WritableExpr(full, e) && d + 1 + Need(0, full, e) <= MAX_TEMPLATE_DEPTH
    requires Closes(t) && (t == "" || t[0] != ')')
    ensures Condition("(" + Print(0, full, e, t), d) == Fail(Expected(')'))
    ensures Primary("(" + Print(0, full, e, t), d) == Fail(Expected(')'))
  {
    hide Expression, Print, WritableExpr, Need, Reference, ListOrRange, MapLiteral, Number, Keyword, DoubleQuoted,
         Quoted;
    var s := Print(0, full, e, t);
    OpeningRead(s);
    assert ("(" + s)[1..] == s;
    ItemExactly(full, e, t, d);
    ClosesEndsChains(t);
    hide SkipSpace, Closes;
  }

  // ---- Numbers and chains

  /** Digits that are no 64-bit integer are no number. */
  lemma {:induction false} TooLargeNumber(s: string, t: string)
    requires s != "" && AllDigits(s) && DigitsValue(s) > MAX_INT64
    requires t == "" || (!IsDigit(t[0]) && t[0] != '.')
    ensures Number(s + t) == Fail(InvalidNumber(s))
  {
    DigitsBack(s, t);
    var u := s + t;
    assert u[0] == s[0] && SignLen(u) == 0 && u[0..] == u;
    assert IntLen(u) == |s|;
    if t != "" { assert u[|s|] == t[0]; }
    hide DigitLen, DigitsValue, FloatFits;
  }

  /** Digits of a decimal whose whole part is too large for a double. */
  lemma {:induction false} TooLargeDecimal(whole: string, fraction: string, t: string)
    requires whole != "" && AllDigits(whole) && fraction != "" && AllDigits(fraction)
    requires t == "" || !IsDigit(t[0])
    ensures Number(whole + ("." + (fraction + t))) ==
      if DigitsValue(whole) < FLOAT_BOUND then Done(Literal(LFloat(whole + ("." + fraction))), t)
      else Fail(InvalidNumber(whole + ("." + fraction)))
  {
    hide DigitLen, DigitsValue, IntLen;
    DecimalStarts(whole, fraction, t);
    DecimalStarts(whole, fraction, "");
    assert fraction + "" == fraction;
    var s, text := whole + ("." + (fraction + t)), whole + ("." + fraction);
    assert s[..|text|] == text && s[|text|..] == t;
    assert text[0..|whole|] == whole;
  }

  lemma {:induction false} DecimalStarts(whole: string, fraction: string, t: string)
    requires whole != "" && AllDigits(whole) && fraction != "" && AllDigits(fraction)
    requires t == "" || !IsDigit(t[0])
    ensures var s, n := whole + ("." + (fraction + t)), |whole|;
      SignLen(s) == 0 && IntLen(s) == n && IsFloatAt(n, s) && DigitLen(s[n + 1..]) == |fraction|
  {
    var s := whole + ("." + (fraction + t));
    DigitsBack(whole, "." + (fraction + t));
    DigitsBack(fraction, t);
    assert s[0] == whole[0] && s[0..] == s;
    assert s[|whole|] == '.' && s[|whole| + 1] == fraction[0] && s[|whole| + 1..] == fraction + t;
    hide DigitLen;
  }

  lemma {:induction false} LiftFault(level: nat, k: nat, s: string, d: nat, f: Fault)
    requires level <= k <= LEVELS && d <= MAX_TEMPLATE_DEPTH && Chain(k, s, d) == Fail(f)
    ensures Chain(level, s, d) == Fail(f)
    decreases k - level
  {
    hide UnaryExpr, ChainRest;
    if level < k { LiftFault(level + 1, k, s, d, f); }
  }

  lemma {:induction false} NoMoreLinks(level: nat, l: Expr, op: BinOp, t: string, d: nat)
    requires level == Level(op) && d <= MAX_TEMPLATE_DEPTH
    ensures ChainRest(level, l, Tail(op, t), d, MAX_OPERATOR_CHAIN) == Fail(TooManyOperators)
  {
    SymbolAt(op, t);
    hide Chain, MatchOp, Tail, NoTighter;
  }

  /** One operator more than a chain may have, behind one of the greatest length. */
  lemma {:induction false} LongChainRefused(full: bool, e: Expr, op: BinOp, t: string, depth: nat)
    requires Writable(e) && ChainsFit(full, e) && e.Binary? && Level(e.op) == Level(op)
    requires Links(Level(op), full, e) == MAX_OPERATOR_CHAIN
    requires depth + 1 + Need(Level(op), full, e) <= MAX_TEMPLATE_DEPTH
    ensures Expression(Print(Level(op), full, e, Tail(op, t)), depth) == Fail(TooManyOperators)
  {
    var level, s := Level(op), Print(Level(op), full, e, Tail(op, t));
    SymbolAt(op, t);
    TailFollows(op, t);
    hide Chain, Print, Need, Writable, ChainsFit, Links, Tail, NoTighter, Follows, MatchOp, ChainRest;
    PrintBack(level, full, e, Tail(op, t), depth + 1);
    NoMoreLinks(level, e, op, t, depth + 1);
    LiftFault(0, level, s, depth + 1, TooManyOperators);
    ExpressionStep(s, depth);
  }

  lemma TailFollows(op: BinOp, t: string)
    ensures Follows(Tail(op, t))
  {
  }
}
