/**
 Directives alone on their line (internal/vtl/parse.go:327-390): which of them take the line with them, and what
 then goes.
 */
module WholeLines {
  import opened Common
  import opened Ast
  import opened Scan
  import opened Grammar
  import opened Printer
  import opened RoundTrip
  import opened TemplateText
  import opened TemplateRoundTrip
  import opened Lines
  import Spellings

  // ---- What goes

  /** The directive from start to s is alone on its line of src, n characters in front of the end of the line. */
  ghost predicate OnOwnLine(src: string, start: string, s: string, n: nat) {
    |start| <= |src| && EndsLine(s, n) && Indented(src, |src| - |start|)
  }

  /** Only blanks stand between i and the start of its line. */
  ghost predicate Indented(src: string, i: nat) { exists k :: 0 <= k <= i && IndentFrom(src, k, i) }

  predicate BlanksBehind(s: string, text: string, blanks: string) {
    s == text + blanks && AllBlank(blanks) && !EndsInBlank(text)
  }

  /** The nodes without the blanks at the end of the text that is the last of them. */
  ghost predicate Unindented(nodes: seq<Node>, kept: seq<Node>) {
    if nodes == [] || !nodes[|nodes| - 1].Text? then kept == nodes
    else
      var n := |nodes| - 1;
      exists text, blanks ::
        && BlanksBehind(Concat(nodes[n].parts), text, blanks)
        && if text == "" then kept == nodes[..n]
           else |kept| == n + 1 && kept[..n] == nodes[..n] && kept[n].Text? && Concat(kept[n].parts) == text
  }

  /** A directive alone on its line leaves the next line, and no indentation; any other leaves all as it is. */
  ghost predicate LineGone(src: string, start: string, nodes: seq<Node>, s: string, kept: seq<Node>, rest: string) {
    && (forall n: nat :: OnOwnLine(src, start, s, n) ==>
          Unindented(nodes, kept) && rest == if n < |s| then s[n + 1..] else "")
    && ((forall n: nat :: !OnOwnLine(src, start, s, n)) ==> kept == nodes && rest == s)
  }

  lemma {:induction false} BlanksAtEnd(s: string)
    ensures TrimBlanks(s) <= s && !EndsInBlank(TrimBlanks(s)) && AllBlank(s[|TrimBlanks(s)|..])
  {
    if s != "" && IsBlank(s[|s| - 1]) {
      var t := s[..|s| - 1];
      BlanksAtEnd(t);
      assert s[|TrimBlanks(t)|..] == t[|TrimBlanks(t)|..] + [s[|s| - 1]];
    } else {
      assert s[|s|..] == "";
    }
  }

  lemma {:induction false} NotBlank(parts: seq<string>)
    ensures TrimIndent(parts) == [] <==> TrimBlanks(Concat(parts)) == ""
  {
    PartsTrimTogether(parts);
    if TrimIndent(parts) != [] { LastIsText(parts); }
  }

  lemma {:induction false} LastIsText(parts: seq<string>)
    ensures var kept := TrimIndent(parts); kept != [] ==> kept[|kept| - 1] != "" && Concat(kept) != ""
  {
    if parts != [] && TrimBlanks(parts[|parts| - 1]) == "" { LastIsText(parts[..|parts| - 1]); }
  }

  lemma {:induction false} IndentTrimmed(nodes: seq<Node>)
    ensures Unindented(nodes, TrimLast(nodes))
  {
    if nodes != [] && nodes[|nodes| - 1].Text? {
      var n := |nodes| - 1;
      var parts := nodes[n].parts;
      var text := TrimBlanks(Concat(parts));
      BlanksAtEnd(Concat(parts));
      NotBlank(parts);
      PartsTrimTogether(parts);
      var blanks := Concat(parts)[|text|..];
      assert BlanksBehind(Concat(parts), text, blanks);
      hide BlanksBehind, TrimBlanks, TrimIndent, Concat, AllBlank, EndsInBlank;
      assert if text == "" then TrimLast(nodes) == nodes[..n]
             else TrimLast(nodes)[..n] == nodes[..n] && TrimLast(nodes)[n].Text? &&
                  Concat(TrimLast(nodes)[n].parts) == text;
    }
  }

  /** Which lines go, and how, for every template and place. */
  lemma {:induction false} GobbleExactly(src: string, start: string, nodes: seq<Node>, s: string)
    requires |start| <= |src|
    ensures var (kept, rest) := Gobble(src, start, nodes, s); LineGone(src, start, nodes, s, kept, rest)
  {
    hide LineRest, BlankBefore, TrimLast, IndentFrom, EndsLine, Unindented;
    BlankBeforeExactly(src, |src| - |start|);
    IndentTrimmed(nodes);
    LineRestExactly(s, 0);
    forall n: nat | OnOwnLine(src, start, s, n)
      ensures Alone(src, start, s) && LineRest(s).value == if n < |s| then s[n + 1..] else ""
    {
      EndsWithin(s, n);
      LineRestExactly(s, n);
    }
    if Alone(src, start, s) {
      var n :| 0 <= n <= |s| && EndsLine(s, n);
      assert OnOwnLine(src, start, s, n);
    }
  }

  lemma EndsWithin(s: string, n: nat)
    requires EndsLine(s, n)
    ensures n <= |s|
  {
  }

  // ---- The directives

  /** #{break} and #{stop}. */
  lemma {:induction false} WordLine(src: string, name: string, t: string, d: nat, done: seq<Node>)
    requires name in {"break", "stop"} && d <= MAX_TEMPLATE_DEPTH && |t| + |name| + 3 <= |src|
    ensures var start := "#{" + (name + ("}" + t));
      var (kept, rest) := Gobble(src, start, done, t);
      LineGone(src, start, done, t, kept, rest) &&
      BlockNodes(src, start, d, done) ==
      BlockNodes(src, rest, d, kept + [if name == "break" then BreakNode else StopNode])
  {
    var start := "#{" + (name + ("}" + t));
    hide BlockNodes, Hash, Gobble, LineGone, Set, If, Foreach, Return;
    GobbleExactly(src, start, done, t);
    BracedRead(src, name, t, d, done);
    TemplateRoundTrip.HashStep(src, start, d, done);
  }

  /** #set. */
  lemma {:induction false} SetLine(src: string, full: bool, n: Node, t: string, d: nat, done: seq<Node>)
    requires n.SetNode? && WritableNode(full, n) && d + NeedNode(full, n) <= MAX_TEMPLATE_DEPTH
    requires |PrintNode(full, n, t)| <= |src|
    ensures var start := PrintNode(full, n, t);
      var (kept, rest) := Gobble(src, start, done, t);
      LineGone(src, start, done, t, kept, rest) &&
      BlockNodes(src, start, d, done) == BlockNodes(src, rest, d, kept + [n])
  {
    var start := PrintNode(full, n, t);
    GobbleExactly(src, start, done, t);
    SetText(full, n, t);
    SetExactly(full, n.target, n.value, t, d);
    var s1 := "(" + SetArguments(full, n.target, n.value, t);
    hide PrintNode, SetArguments, WritableRef, WritableExpr, NeedNode, Set, BlockNodes, Hash, Directive, LineGone,
         Gobble;
    NameRead(src, "set", s1, d, done);
    SetGobbles(src, start, s1, d, done, n, t);
    TemplateRoundTrip.HashStep(src, start, d, done);
  }

  lemma {:induction false} SetGobbles(src: string, start: string, s: string, d: nat, done: seq<Node>, n: Node,
                                      t: string)
    requires d <= MAX_TEMPLATE_DEPTH && Set(s, d) == Done(n, t)
    ensures var (kept, rest) := Gobble(src, start, done, t);
      Directive(src, start, "set", s, d, done) == Done(Block(kept + [n], NoTerm, ""), rest)
  {
    hide Set, If, Foreach, Return, Gobble;
  }

  /** #return. */
  lemma {:induction false} ReturnLine(src: string, full: bool, n: Node, t: string, d: nat, done: seq<Node>)
    requires n.ReturnNode? && WritableNode(full, n) && d + NeedNode(full, n) <= MAX_TEMPLATE_DEPTH
    requires |PrintNode(full, n, t)| <= |src|
    ensures var start := PrintNode(full, n, t);
      var (kept, rest) := Gobble(src, start, done, t);
      LineGone(src, start, done, t, kept, rest) &&
      BlockNodes(src, start, d, done) == BlockNodes(src, rest, d, kept + [n])
  {
    var start := PrintNode(full, n, t);
    GobbleExactly(src, start, done, t);
    ReturnText(full, n, t);
    var s1 := "(" + ResultText(full, n.result, t);
    ReturnGobbles(src, start, full, n.result, t, d, done);
    hide PrintNode, ResultText, WritableExpr, NeedNode, Return, BlockNodes, Hash, Directive, Gobble, LineGone;
    NameRead(src, "return", s1, d, done);
    ReturnIsRead(src, start, s1, d, done);
    TemplateRoundTrip.HashStep(src, start, d, done);
  }

  lemma {:induction false} ReturnIsRead(src: string, start: string, s: string, d: nat, done: seq<Node>)
    requires d <= MAX_TEMPLATE_DEPTH
    ensures Directive(src, start, "return", s, d, done) == Return(src, start, s, d, done)
  {
    hide Return, If, Foreach, Simple, Gobble;
  }

  lemma {:induction false} ReturnGobbles(src: string, start: string, full: bool, result: Option<Expr>, t: string,
                                         d: nat, done: seq<Node>)
    requires result.Some? ==> WritableExpr(full, result.value)
    requires d + NeedNode(full, ReturnNode(result)) <= MAX_TEMPLATE_DEPTH
    ensures var (kept, rest) := Gobble(src, start, done, t);
      Return(src, start, "(" + ResultText(full, result, t), d, done) ==
      Done(Block(kept + [ReturnNode(result)], NoTerm, ""), rest)
  {
    var u := ResultText(full, result, t);
    OneSpace("(" + u);
    assert ("(" + u)[1..] == u;
    if result.Some? {
      ResultExactly(full, result.value, t, d);
      OneSpace(u);
    } else {
      ParenthesisRead(t);
      OneSpace(u);
    }
    hide SkipSpace, Gobble, Expression, Expect, Print, Need, Closes, WritableExpr;
  }

  /** #{else} and #{end}, which end their block. */
  lemma {:induction false} TerminatorLine(src: string, name: string, t: string, d: nat, nodes: seq<Node>)
    requires name in {"else", "end"} && d <= MAX_TEMPLATE_DEPTH && |t| + |name| + 3 <= |src|
    ensures var start := "#{" + (name + ("}" + t));
      var (kept, rest) := Gobble(src, start, nodes, t);
      LineGone(src, start, nodes, t, kept, rest) &&
      BlockNodes(src, start, d, nodes) == Done(Block(kept, if name == "else" then ElseTerm else EndTerm, start), rest)
  {
    var start := "#{" + (name + ("}" + t));
    hide BlockNodes, Hash, Gobble, LineGone, Set, If, Foreach, Return;
    GobbleExactly(src, start, nodes, t);
    BracedRead(src, name, t, d, nodes);
    TemplateRoundTrip.HashStep(src, start, d, nodes);
  }

  /** #if and its condition; the body of the first branch begins on the next line. */
  lemma {:induction false} IfLine(src: string, full: bool, cond: Expr, s: string, d: nat, done: seq<Node>)
    requires WritableExpr(full, cond) && d + 1 + Need(0, full, cond) <= MAX_TEMPLATE_DEPTH
    requires |"#" + ("if" + ("(" + Print(0, full, cond, ")" + s)))| <= |src|
    ensures var start := "#" + ("if" + ("(" + Print(0, full, cond, ")" + s)));
      var (kept, rest) := Gobble(src, start, done, s);
      LineGone(src, start, done, s, kept, rest) &&
      BlockNodes(src, start, d, done) ==
        match IfBranches(src, cond, rest, d, [])
        case Fail(f) => Fail(f)
        case Done(node, s1) => BlockNodes(src, s1, d, kept + [node])
  {
    var s1 := "(" + Print(0, full, cond, ")" + s);
    var start := "#" + ("if" + s1);
    GobbleExactly(src, start, done, s);
    ConditionExactly(full, cond, s, d);
    assert s1 != "" && s1[0] == '(';
    hide BlockNodes, Print, WritableExpr, Need, Hash, Condition, IfBranches, Gobble, LineGone, Foreach, Return, Set;
    NameRead(src, "if", s1, d, done);
    TemplateRoundTrip.HashStep(src, start, d, done);
  }

  /** #elseif and its condition. */
  lemma {:induction false} ElseIfLine(src: string, full: bool, cond: Expr, s: string, d: nat, done: seq<Branch>,
                                      block: Block, next: Expr, t: string)
    requires WritableExpr(full, next) && d + 1 + Need(0, full, next) <= MAX_TEMPLATE_DEPTH
    requires ParseBlock(src, s, d) == Done(block, "(" + Print(0, full, next, ")" + t)) && block.term.ElseIfTerm?
    requires |block.start| <= |src| && |"(" + Print(0, full, next, ")" + t)| <= |s|
    ensures var (body, rest) := Gobble(src, block.start, block.nodes, t);
      LineGone(src, block.start, block.nodes, t, body, rest) &&
      IfBranches(src, cond, s, d, done) == IfBranches(src, next, rest, d, done + [Branch(cond, body)])
  {
    GobbleExactly(src, block.start, block.nodes, t);
    ConditionExactly(full, next, t, d);
    hide ParseBlock, Condition, Gobble, LineGone, Print, WritableExpr, Need;
  }

  /** #foreach and its head; the body begins on the next line. */
  lemma {:induction false} ForeachLine(src: string, full: bool, name: string, iter: Expr, s: string, d: nat,
                                       done: seq<Node>, block: Block, s1: string)
    requires IsIdent(name) && WritableExpr(full, iter) && d + 1 + Need(0, full, iter) <= MAX_TEMPLATE_DEPTH
    requires |ForeachStart(full, name, iter, s)| <= |src|
    ensures var start := ForeachStart(full, name, iter, s);
      var (kept, rest) := Gobble(src, start, done, s);
      LineGone(src, start, done, s, kept, rest) &&
      (ParseBlock(src, rest, d) == Done(block, s1) && block.term.EndTerm? ==>
        BlockNodes(src, start, d, done) == BlockNodes(src, s1, d, kept + [ForeachNode(name, iter, block.nodes)]))
  {
    var head := "($" + (name + (" in " + Print(0, full, iter, ")" + s)));
    var start := ForeachStart(full, name, iter, s);
    GobbleExactly(src, start, done, s);
    HeadExactly(full, name, iter, s, d);
    assert head != "" && head[0] == '(';
    hide BlockNodes, ParseBlock, Print, WritableExpr, Need, Hash, ForeachHead, If, Gobble, LineGone, Return, Set;
    NameRead(src, "foreach", head, d, done);
    TemplateRoundTrip.HashStep(src, start, d, done);
  }

  function ForeachStart(full: bool, name: string, iter: Expr, s: string): string {
    "#" + ("foreach" + ("($" + (name + (" in " + Print(0, full, iter, ")" + s)))))
  }

  /** A comment in stars. */
  lemma {:induction false} CommentLine(src: string, c: string, t: string, d: nat, done: seq<Node>)
    requires Spellings.Without(c, "*#") && d <= MAX_TEMPLATE_DEPTH && |c| + |t| + 4 <= |src|
    ensures var start := "#*" + (c + ("*#" + t));
      var (kept, rest) := Gobble(src, start, done, t);
      LineGone(src, start, done, t, kept, rest) && BlockNodes(src, start, d, done) == BlockNodes(src, rest, d, kept)
  {
    var start := "#*" + (c + ("*#" + t));
    assert start[2..] == c + ("*#" + t);
    Spellings.IndexBehind(c, "*#", t);
    assert start[|c| + 4..] == t;
    GobbleExactly(src, start, done, t);
    hide BlockNodes, Scan.Index, Spellings.Without, DirectiveName, Directive, Gobble, LineGone;
    TemplateRoundTrip.HashStep(src, start, d, done);
  }
}
