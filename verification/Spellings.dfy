/**
 Other ways of writing the same (internal/vtl/parse.go:97-240, 719-982): operators as words, strings in double
 quotes, escapes, comments and unparsed blocks.
 */
module Spellings {
  import opened Common
  import opened Ast
  import opened Scan
  import opened Grammar
  import opened Printer
  import opened RoundTrip
  import opened TemplateText
  import opened TemplateRoundTrip

  // ---- Operators as words

  predicate HasWord(op: BinOp) { Level(op) < 4 }

  function Word(op: BinOp): string
    requires HasWord(op)
  {
    match op
    case Or => "or" case And => "and" case Eq => "eq" case Ne => "ne"
    case Le => "le" case Ge => "ge" case Lt => "lt" case _ => "gt"
  }

  /** Where the word stands among the operators of its level. */
  function WordPlace(op: BinOp): nat
    requires HasWord(op)
  {
    match op
    case Or => 1 case And => 0 case Eq => 2 case Ne => 3
    case Le => 2 case Ge => 3 case Lt => 4 case _ => 5
  }

  lemma WordOnly(op: BinOp, k: nat, s: string)
    requires HasWord(op) && k < |Operators(Level(op))| && TokenAt(Operators(Level(op))[k].0, Word(op) + (" " + s))
    ensures k == WordPlace(op)
  {
    var text, tok := Word(op) + (" " + s), Operators(Level(op))[k].0;
    assert tok[0] == text[0];
    assert |tok| > 1 ==> tok[1] == text[1];
    assert |tok| > 2 ==> tok[2] == text[2];
    assert text[0] == Word(op)[0] && text[1] == Word(op)[1] && text[|Word(op)|] == ' ';
  }

  /** An operator written as a word is the operator written as a symbol. */
  lemma WordsAreSymbols(op: BinOp, t: string)
    requires HasWord(op)
    ensures MatchOp(Level(op), " " + (Word(op) + (" " + t))) == Some((op, " " + t))
    ensures MatchOp(Level(op), " " + (Word(op) + (" " + t))) == MatchOp(Level(op), Tail(op, t))
  {
    var s := Word(op) + (" " + t);
    OneSpace(s);
    var toks, place := Operators(Level(op)), WordPlace(op);
    assert toks[place] == (Word(op), op);
    assert s[|Word(op)|] == ' ' && s[..|Word(op)|] == Word(op);
    assert TokenAt(toks[place].0, s);
    var r := FirstMatch(toks, s);
    var k :| 0 <= k < |toks| && toks[k] == r.value && forall j :: 0 <= j < k ==> !TokenAt(toks[j].0, s);
    WordOnly(op, k, t);
    assert s[|Word(op)|..] == " " + t;
    SymbolAt(op, t);
    hide SkipSpace, FirstMatch, Operators, NoTighter;
  }

  /** not is '!'. */
  lemma NotIsWord(t: string)
    ensures UnaryOperator("not " + t) == Some((Not, " " + t)) && UnaryOperator("! " + t) == Some((Not, " " + t))
  {
    var s := "not " + t;
    assert "not" <= s && s[3] == ' ' && s[3..] == " " + t;
    assert ("! " + t)[1..] == " " + t && ("! " + t)[1] == ' ';
  }

  // ---- Precedence

  /** How tightly an operator binds. */
  function Binding(op: BinOp): nat {
    match op
    case Or => 1 case And => 2
    case Eq => 3 case Ne => 3
    case Lt => 4 case Le => 4 case Gt => 4 case Ge => 4
    case Add => 5 case Sub => 5
    case Mul => 6 case Div => 6 case Mod => 6
  }

  predicate IsOperand(e: Expr, depth: nat) {
    && !e.Binary? && !e.Unary? && Writable(e) && ChainsFit(false, e)
    && depth + 1 + NeedBare(false, e) <= MAX_TEMPLATE_DEPTH
  }

  /** The text of two operators between three operands. */
  function BetweenThree(x: Expr, op: BinOp, y: Expr, op2: BinOp, z: Expr): string {
    Bare(false, x, " " + (Symbol(op) + (" " + Bare(false, y, " " + (Symbol(op2) + (" " + Bare(false, z, "")))))))
  }

  /** Of two operators the one that binds tighter takes the operand between them, and the first if neither does. */
  lemma {:induction false} TighterFirst(x: Expr, op: BinOp, y: Expr, op2: BinOp, z: Expr, depth: nat)
    requires IsOperand(x, depth) && IsOperand(y, depth) && IsOperand(z, depth)
    ensures Expression(BetweenThree(x, op, y, op2, z), depth) ==
      Done(if Binding(op) >= Binding(op2) then Binary(op2, Binary(op, x, y), z)
           else Binary(op, x, Binary(op2, y, z)), "")
  {
    hide Expression, Writable, ChainsFit, NeedBare, Bare, BetweenThree, IsOperand, Need, Print;
    LevelIsBinding(op, op2);
    if Binding(op) >= Binding(op2) {
      FirstIsTighter(x, op, y, op2, z, depth);
      ParseUndoesPrint(false, Binary(op2, Binary(op, x, y), z), depth);
    } else {
      SecondIsTighter(x, op, y, op2, z, depth);
      ParseUndoesPrint(false, Binary(op, x, Binary(op2, y, z)), depth);
    }
  }

  /** The tree e, written with the least parentheses, is the text s and can be read at depth. */
  predicate IsText(e: Expr, s: string, depth: nat) {
    && Writable(e) && ChainsFit(false, e) && depth + 1 + Need(0, false, e) <= MAX_TEMPLATE_DEPTH
    && Source(false, e) == s
  }

  lemma {:induction false} FirstIsTighter(x: Expr, op: BinOp, y: Expr, op2: BinOp, z: Expr, depth: nat)
    requires IsOperand(x, depth) && IsOperand(y, depth) && IsOperand(z, depth) && Level(op) >= Level(op2)
    ensures IsText(Binary(op2, Binary(op, x, y), z), BetweenThree(x, op, y, op2, z), depth)
  {
    hide Symbol, Level, Print, Bare, Writable, ChainsFit, Need, NeedBare, Links, Parenthesised;
    OnePrinted(x);
    OnePrinted(y);
    OnePrinted(z);
    BinaryIs(Level(op2), op, x, y, " " + (Symbol(op2) + (" " + Bare(false, z, ""))));
    BinaryIs(0, op2, Binary(op, x, y), z, "");
  }

  lemma {:induction false} SecondIsTighter(x: Expr, op: BinOp, y: Expr, op2: BinOp, z: Expr, depth: nat)
    requires IsOperand(x, depth) && IsOperand(y, depth) && IsOperand(z, depth) && Level(op) < Level(op2)
    ensures IsText(Binary(op, x, Binary(op2, y, z)), BetweenThree(x, op, y, op2, z), depth)
  {
    hide Symbol, Level, Print, Bare, Writable, ChainsFit, Need, NeedBare, Links, Parenthesised;
    OnePrinted(x);
    OnePrinted(y);
    OnePrinted(z);
    BinaryIs(Level(op) + 1, op2, y, z, "");
    BinaryIs(0, op, x, Binary(op2, y, z), "");
  }

  /** An operator that stands at its level is written without parentheses. */
  lemma {:induction false} BinaryIs(level: nat, op: BinOp, l: Expr, r: Expr, t: string)
    requires level <= Level(op)
    ensures var e := Binary(op, l, r);
      && Print(level, false, e, t) ==
         Print(Level(op), false, l, " " + (Symbol(op) + (" " + Print(Level(op) + 1, false, r, t))))
      && Need(level, false, e) == Max(Need(Level(op), false, l), Need(Level(op) + 1, false, r))
      && (Writable(e) <==> Writable(l) && Writable(r))
      && (ChainsFit(false, e) <==>
          Links(Level(op), false, l) < MAX_OPERATOR_CHAIN && ChainsFit(false, l) && ChainsFit(false, r))
      && Links(level, false, e) <= 1 + Links(level, false, l)
  {
    hide Bare, NeedBare, Writable, ChainsFit, Symbol, Level;
    assert !Parenthesised(level, false, Binary(op, l, r));
    PlainBinary(op, l, r, t);
  }

  lemma {:induction false} PlainBinary(op: BinOp, l: Expr, r: Expr, t: string)
    ensures var e := Binary(op, l, r);
      && Bare(false, e, t) ==
         Print(Level(op), false, l, " " + (Symbol(op) + (" " + Print(Level(op) + 1, false, r, t))))
      && NeedBare(false, e) == Max(Need(Level(op), false, l), Need(Level(op) + 1, false, r))
      && (Writable(e) <==> Writable(l) && Writable(r))
      && (ChainsFit(false, e) <==>
          Links(Level(op), false, l) < MAX_OPERATOR_CHAIN && ChainsFit(false, l) && ChainsFit(false, r))
  {
    hide Level, Symbol, Print, Need, Links;
  }

  lemma LevelIsBinding(op: BinOp, op2: BinOp)
    ensures Binding(op) >= Binding(op2) <==> Level(op) >= Level(op2)
  {
  }

  lemma {:induction false} OnePrinted(x: Expr)
    requires !x.Binary? && !x.Unary?
    ensures forall level, t {:trigger Print(level, false, x, t)} :: Print(level, false, x, t) == Bare(false, x, t)
    ensures forall level {:trigger Need(level, false, x)} :: Need(level, false, x) == NeedBare(false, x)
    ensures forall level :: Links(level, false, x) == 0
  {
    hide Bare, NeedBare;
  }

  /** A prefix operator takes the one operand behind it. */
  lemma {:induction false} PrefixFirst(prefix: UnOp, x: Expr, op: BinOp, y: Expr, depth: nat)
    requires IsOperand(x, depth + 1) && IsOperand(y, depth)
    ensures Expression((if prefix == Not then "! " else "- ") +
                       Bare(false, x, " " + (Symbol(op) + (" " + Bare(false, y, "")))), depth) ==
            Done(Binary(op, Unary(prefix, x), y), "")
  {
    hide Expression, Writable, ChainsFit, NeedBare, Bare;
    PrefixAndOperator(prefix, x, op, y, depth);
    ParseUndoesPrint(false, Binary(op, Unary(prefix, x), y), depth);
  }

  lemma {:induction false} PrefixAndOperator(prefix: UnOp, x: Expr, op: BinOp, y: Expr, depth: nat)
    requires IsOperand(x, depth + 1) && IsOperand(y, depth)
    ensures var e := Binary(op, Unary(prefix, x), y);
      Writable(e) && ChainsFit(false, e) && depth + 1 + Need(0, false, e) <= MAX_TEMPLATE_DEPTH &&
      Source(false, e) ==
      (if prefix == Not then "! " else "- ") + Bare(false, x, " " + (Symbol(op) + (" " + Bare(false, y, ""))))
  {
    hide Symbol, Level, Print, Bare, Writable, ChainsFit, Need, NeedBare, Links, Parenthesised;
    var t := " " + (Symbol(op) + (" " + Bare(false, y, "")));
    OnePrinted(y);
    PrefixIs(prefix, x, Level(op), t);
    BinaryIs(0, op, Unary(prefix, x), y, "");
    PrefixText(prefix, Bare(false, x, t));
  }

  lemma PrefixText(prefix: UnOp, t: string)
    ensures (if prefix.Not? then "!" else "-") + (" " + t) == (if prefix == Not then "! " else "- ") + t
  {
  }

  lemma {:induction false} PrefixIs(prefix: UnOp, x: Expr, level: nat, t: string)
    requires level < LEVELS && !x.Binary? && !x.Unary?
    ensures var e := Unary(prefix, x);
      && Print(level, false, e, t) == (if prefix.Not? then "!" else "-") + (" " + Bare(false, x, t))
      && Need(level, false, e) == 1 + NeedBare(false, x)
      && (Writable(e) <==> Writable(x)) && (ChainsFit(false, e) <==> ChainsFit(false, x))
      && Links(level, false, e) == 0
  {
    hide Bare, NeedBare, Writable, ChainsFit;
    assert !Parenthesised(level, false, Unary(prefix, x));
    OnePrinted(x);
    PlainPrefix(prefix, x, t);
  }

  lemma {:induction false} PlainPrefix(prefix: UnOp, x: Expr, t: string)
    ensures var e := Unary(prefix, x);
      && Bare(false, e, t) == (if prefix.Not? then "!" else "-") + (" " + Print(LEVELS, false, x, t))
      && NeedBare(false, e) == 1 + Need(LEVELS, false, x)
      && (Writable(e) <==> Writable(x)) && (ChainsFit(false, e) <==> ChainsFit(false, x))
  {
    hide Print, Need;
  }

  // ---- Strings in double quotes

  /** A string with its quotes doubled, in front of t. */
  function Doubled(q: char, s: string, t: string): string {
    if s == "" then t else (if s[0] == q then [q, q] else [s[0]]) + Doubled(q, s[1..], t)
  }

  lemma {:induction false} DoubledBack(q: char, s: string, t: string)
    requires t == "" || t[0] != q
    ensures Quoted(q, Doubled(q, s, [q] + t)) == Some((s, t))
  {
    var u := Doubled(q, s, [q] + t);
    if s == "" {
      assert u[1..] == t;
    } else {
      DoubledBack(q, s[1..], t);
      var rest := Doubled(q, s[1..], [q] + t);
      if s[0] == q { assert u[2..] == rest && u[0] == u[1] == q; } else { assert u[1..] == rest; }
      assert [s[0]] + s[1..] == s;
    }
  }

  predicate HasSign(s: string) { '$' in s || '#' in s }

  /** Without '$' and '#' a string in double quotes is the one in single quotes. */
  lemma DoubleQuotesBack(s: string, t: string, d: nat)
    requires !HasSign(s) && (t == "" || (t[0] != '"' && t[0] != '\'')) && d <= MAX_TEMPLATE_DEPTH
    ensures Primary("\"" + Doubled('"', s, "\"" + t), d) == Done(Literal(LStr(s)), t)
    ensures Primary("'" + Doubled('\'', s, "'" + t), d) == Done(Literal(LStr(s)), t)
  {
    DoubledBack('"', s, t);
    DoubledBack('\'', s, t);
    assert ("\"" + Doubled('"', s, "\"" + t))[1..] == Doubled('"', s, ['"'] + t);
    assert ("'" + Doubled('\'', s, "'" + t))[1..] == Doubled('\'', s, ['\''] + t);
    hide Expression, Reference, ListOrRange, MapLiteral, Number, Keyword, ParseBlock, Quoted, Doubled;
  }

  /**
   The text of a template in double quotes is a string rendered as that template, exactly when its nesting is
   within the levels left.
   */
  lemma StringsHoldTemplates(full: bool, nodes: seq<Node>, t: string, d: nat)
    requires WritableNodes(full, nodes) && HasSign(TemplateSource(full, nodes)) && d <= MAX_TEMPLATE_DEPTH
    requires Apart(TemplateSource(full, nodes), full, nodes, "") && (t == "" || t[0] != '"')
    ensures Primary("\"" + Doubled('"', TemplateSource(full, nodes), "\"" + t), d) ==
            Exactly(d + 1 + NeedNodes(full, nodes) <= MAX_TEMPLATE_DEPTH, Done(Interpolated(nodes), t))
  {
    hide Expression, Reference, ListOrRange, MapLiteral, Number, Keyword, ParseBlock, BlockNodes, Quoted, Doubled,
         NeedNodes, WritableNodes, Apart, PrintNodes;
    var src := TemplateSource(full, nodes);
    DoubledBack('"', src, t);
    var s := "\"" + Doubled('"', src, "\"" + t);
    assert s[1..] == Doubled('"', src, ['"'] + t);
    BodyRead(src, full, nodes, "", d);
    if d < MAX_TEMPLATE_DEPTH { NothingMore(src, d + 1, nodes); }
  }

  lemma NothingMore(src: string, d: nat, nodes: seq<Node>)
    requires d <= MAX_TEMPLATE_DEPTH
    ensures BlockNodes(src, "", d, nodes) == Done(Block(nodes, NoTerm, ""), "")
  {
  }

  // ---- Escapes, comments and unparsed blocks

  lemma {:induction false} AtSpecial(src: string, t: string, d: nat, done: seq<Node>)
    requires t != "" && t[0] == '\\' && d <= MAX_TEMPLATE_DEPTH
    ensures BlockNodes(src, t, d, done) == BlockNodes(src, Escape(t).1, d, AppendText(done, Escape(t).0))
  {
    assert PlainLen(t) == 0 && t[0..] == t && t[..0] == "";
    assert AppendText(done, "") == done;
    hide PlainLen, AppendText, Escape;
  }

  /** A backslash makes a '$' or '#' plain text, and is plain text itself in front of anything else. */
  lemma {:induction false} EscapesBack(src: string, t: string, d: nat, done: seq<Node>)
    requires d <= MAX_TEMPLATE_DEPTH
    ensures BlockNodes(src, "\\$" + t, d, done) == BlockNodes(src, t, d, AppendText(done, "$"))
    ensures BlockNodes(src, "\\#" + t, d, done) == BlockNodes(src, t, d, AppendText(done, "#"))
    ensures t == "" || (t[0] != '$' && t[0] != '#') ==>
      BlockNodes(src, "\\" + t, d, done) == BlockNodes(src, t, d, AppendText(done, "\\"))
  {
    assert ("\\$" + t)[1..2] == "$" && ("\\$" + t)[2..] == t;
    assert ("\\#" + t)[1..2] == "#" && ("\\#" + t)[2..] == t;
    assert ("\\" + t)[1..] == t;
    hide BlockNodes, AppendText;
    AtSpecial(src, "\\$" + t, d, done);
    AtSpecial(src, "\\#" + t, d, done);
    AtSpecial(src, "\\" + t, d, done);
  }

  /** c does not contain a text, not even together with the start of the one behind it. */
  predicate Without(c: string, sub: string) { forall i :: 0 <= i < |c| ==> !(sub <= (c + sub)[i..]) }

  lemma SamePrefix(sub: string, s: string, t: string)
    requires |sub| <= |s|
    ensures sub <= s + t <==> sub <= s
  {
    assert (s + t)[..|sub|] == s[..|sub|];
  }

  lemma {:induction false} IndexBehind(c: string, sub: string, t: string)
    requires sub != "" && Without(c, sub)
    ensures Scan.Index(c + (sub + t), sub) == Some(|c|)
    decreases |c|
  {
    var s := c + (sub + t);
    if c == "" {
      assert s == sub + t && sub <= s;
    } else {
      assert (c + sub)[0..] == c + sub && s == (c + sub) + t;
      SamePrefix(sub, c + sub, t);
      var rest := c[1..];
      assert s[1..] == rest + (sub + t);
      forall i | 0 <= i < |rest| ensures !(sub <= (rest + sub)[i..]) {
        assert (rest + sub)[i..] == (c + sub)[i + 1..];
      }
      IndexBehind(rest, sub, t);
    }
  }

  /** A comment to the end of the line is nothing, and the line end is part of it. */
  lemma {:induction false} LineCommentBack(src: string, c: string, t: string, d: nat, done: seq<Node>)
    requires '\n' !in c && d <= MAX_TEMPLATE_DEPTH
    ensures BlockNodes(src, "##" + (c + ("\n" + t)), d, done) == BlockNodes(src, t, d, done)
  {
    var s := "##" + (c + ("\n" + t));
    var front := "##" + c;
    assert s == front + ("\n" + t);
    forall i | 0 <= i < |front| ensures !("\n" <= (front + "\n")[i..]) { assert (front + "\n")[i..][0] == front[i]; }
    IndexBehind(front, "\n", t);
    assert s[|front| + 1..] == t;
    hide BlockNodes, Scan.Index, Without, DirectiveName, Directive, Gobble;
    HashStep(src, s, d, done);
  }

  /** So is a comment in stars that is not alone on its line. */
  lemma {:induction false} StarCommentBack(src: string, c: string, t: string, d: nat, done: seq<Node>)
    requires Without(c, "*#") && d <= MAX_TEMPLATE_DEPTH && !Alone(src, "#*" + (c + ("*#" + t)), t)
    ensures BlockNodes(src, "#*" + (c + ("*#" + t)), d, done) == BlockNodes(src, t, d, done)
  {
    var s := "#*" + (c + ("*#" + t));
    assert s[2..] == c + ("*#" + t);
    IndexBehind(c, "*#", t);
    assert s[|c| + 4..] == t;
    NotGobbled(src, s, done, t);
    hide BlockNodes, Scan.Index, Without, DirectiveName, Directive, Gobble, Alone;
    HashStep(src, s, d, done);
  }

  lemma UnparsedText(x: string, t: string)
    ensures var s := "#[[" + (x + ("]]#" + t)); var front := "#[[" + x;
      && s == front + ("]]#" + t) && s[3..|front|] == x && s[|front| + 3..] == t
      && s[0] == '#' && s[1] == '[' && s[2..] != "" && s[2..][0] == '['
  {
  }

  lemma UnparsedRead(src: string, s: string, n: nat, d: nat, done: seq<Node>)
    requires s != "" && PairAt('#', '[', s) && Peek(s[2..]) == '[' && d <= MAX_TEMPLATE_DEPTH
    requires Scan.Index(s, "]]#") == Some(n) && 3 <= n <= |s| - 3
    ensures Hash(src, s, d, done) == Done(Block(AppendText(done, s[3..n]), NoTerm, ""), s[n + 3..])
  {
    hide Scan.Index, DirectiveName, Directive, Gobble, AppendText;
  }

  /** What is in an unparsed block is text as it is. */
  lemma UnparsedBack(src: string, x: string, t: string, d: nat, done: seq<Node>)
    requires Without("#[[" + x, "]]#") && d <= MAX_TEMPLATE_DEPTH
    ensures BlockNodes(src, "#[[" + (x + ("]]#" + t)), d, done) == BlockNodes(src, t, d, AppendText(done, x))
  {
    hide BlockNodes, Scan.Index, Without, Hash, AppendText;
    var s, front := "#[[" + (x + ("]]#" + t)), "#[[" + x;
    UnparsedText(x, t);
    IndexBehind(front, "]]#", t);
    UnparsedRead(src, s, |front|, d, done);
    HashStep(src, s, d, done);
  }
}
