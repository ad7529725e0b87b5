/**
 Parsing undoes writing for whole templates (internal/vtl/parse.go:26-587): texts, references and all directives,
 however nested.
 */
module TemplateRoundTrip {
  import opened Common
  import opened Ast
  import opened Scan
  import opened Grammar
  import opened Printer
  import opened RoundTrip
  import opened TemplateText
  import opened TooDeeply

  // ---- Single steps of a block

  /** The end of the text, or a '$' or '#', ends plain text. */
  predicate Stops(t: string) { t == "" || t[0] == '$' || t[0] == '#' }

  lemma {:induction false} PlainTextLen(x: string, t: string)
    requires PlainText(x) && Stops(t)
    ensures PlainLen(x + t) == |x| && (x + t)[..|x|] == x && (x + t)[|x|..] == t
  {
    var n := PlainLen(x + t);
    assert forall i :: 0 <= i < |x| ==> (x + t)[i] == x[i];
    if t != "" { assert (x + t)[|x|] == t[0]; }
    hide PlainLen;
  }

  /** Plain text becomes a text node, or joins the one before. */
  lemma {:induction false} TextStep(src: string, x: string, t: string, d: nat, done: seq<Node>)
    requires PlainText(x) && Stops(t) && d <= MAX_TEMPLATE_DEPTH
    ensures BlockNodes(src, x + t, d, done) == BlockNodes(src, t, d, AppendText(done, x))
  {
    PlainTextLen(x, t);
    var nodes := AppendText(done, x);
    assert nodes == AppendText(nodes, "");
    NothingPlain(t);
    assert t[..0] == "" && t[0..] == t;
    hide Hash, Reference, PlainLen, AppendText, Escape;
  }

  lemma {:induction false} NothingPlain(t: string)
    requires Stops(t)
    ensures PlainLen(t) == 0
  {
  }

  lemma {:induction false} HashStep(src: string, s: string, d: nat, done: seq<Node>)
    requires s != "" && s[0] == '#' && d <= MAX_TEMPLATE_DEPTH
    ensures BlockNodes(src, s, d, done) ==
      match Hash(src, s, d, done)
      case Fail(f) => Fail(f)
      case Done(block, t) => if block.term.NoTerm? then BlockNodes(src, t, d, block.nodes) else Done(block, t)
  {
    assert PlainLen(s) == 0;
    assert s[..0] == "" && s[0..] == s;
    assert AppendText(done, "") == done;
    hide Hash, PlainLen, AppendText;
  }

  lemma {:induction false} DollarStep(src: string, s: string, d: nat, done: seq<Node>, ref: RefExpr, quiet: bool,
                                      t: string)
    requires s != "" && s[0] == '$' && d <= MAX_TEMPLATE_DEPTH && Reference(s, d) == Done(Some((ref, quiet)), t)
    ensures BlockNodes(src, s, d, done) == BlockNodes(src, t, d, done + [RefNode(ref, quiet)])
  {
    assert PlainLen(s) == 0;
    assert s[..0] == "" && s[0..] == s;
    assert AppendText(done, "") == done;
    hide Reference, PlainLen, AppendText;
  }

  // ---- Names of directives

  predicate Named(name: string) { IsKnown(name) && !IsUnsupported(name) }

  lemma {:induction false} KnownIsIdent(name: string)
    requires Named(name)
    ensures IsIdent(name) && name[0] != '{' && name[0] != '#' && name[0] != '*' && name[0] != '['
  {
  }

  /** A name in front of something that no name goes on with. */
  lemma {:induction false} NameRead(src: string, name: string, s1: string, d: nat, nodes: seq<Node>)
    requires Named(name) && s1 != "" && !IsIdentChar(s1[0]) && d <= MAX_TEMPLATE_DEPTH
    ensures Hash(src, "#" + (name + s1), d, nodes) == Directive(src, "#" + (name + s1), name, s1, d, nodes)
  {
    KnownIsIdent(name);
    IdentBack(name, s1);
    var s := "#" + (name + s1);
    assert s[1..] == name + s1 && s[1] == name[0];
    assert DirectiveName(s) == (name, false, s1);
    hide IsKnown, IsUnsupported, DirectiveName, Directive, Gobble, Scan.Index, IdentLen, AppendText;
  }

  /** A name in braces. */
  lemma {:induction false} BracedRead(src: string, name: string, s1: string, d: nat, nodes: seq<Node>)
    requires Named(name) && d <= MAX_TEMPLATE_DEPTH
    ensures Hash(src, "#{" + (name + ("}" + s1)), d, nodes) ==
            Directive(src, "#{" + (name + ("}" + s1)), name, s1, d, nodes)
  {
    KnownIsIdent(name);
    IdentBack(name, "}" + s1);
    var s := "#{" + (name + ("}" + s1));
    assert s[1] == '{' && s[2..] == name + ("}" + s1) && s[1..][0] == '{';
    assert DirectiveName(s) == (name, true, "}" + s1);
    assert ("}" + s1)[1..] == s1;
    hide IsKnown, IsUnsupported, DirectiveName, Directive, Gobble, Scan.Index, IdentLen, AppendText;
  }

  lemma {:induction false} BracedText(name: string, t: string)
    ensures "#{" + (name + ("}" + t)) == "#{" + name + "}" + t
  {
  }

  lemma {:induction false} NotGobbled(src: string, start: string, nodes: seq<Node>, s: string)
    requires !Alone(src, start, s)
    ensures Gobble(src, start, nodes, s) == (nodes, s)
  {
    hide Alone;
  }

  // ---- Arguments

  lemma {:induction false} ParenthesisRead(t: string)
    ensures Expect(')', ")" + t) == Done((), t) && Closes(")" + t)
  {
    OneSpace(")" + t);
    assert (")" + t)[1..] == t;
    hide SkipSpace;
  }

  lemma {:induction false} OpeningRead(t: string)
    ensures Expect('(', "(" + t) == Done((), t)
  {
    OneSpace("(" + t);
    assert ("(" + t)[1..] == t;
    hide SkipSpace;
  }

  /** What has levels enough is read, and anything else is refused for its depth. */
  function Exactly<T>(fits: bool, r: Parsed<T>): Parsed<T> { if fits then r else Fail(TooDeep) }

  lemma {:induction false} ItemExactly(full: bool, e: Expr, t: string, d: nat)
    requires WritableExpr(full, e) && Closes(t) && d <= MAX_TEMPLATE_DEPTH
    ensures var r := Exactly(d + 1 + Need(0, full, e) <= MAX_TEMPLATE_DEPTH, Done(e, t));
      Expression(Print(0, full, e, t), d) == r && Expression(" " + Print(0, full, e, t), d) == r
    ensures Opens(Print(0, full, e, t))
  {
    hide Expression, Print, Writable, ChainsFit, Need, Closes;
    if d + 1 + Need(0, full, e) <= MAX_TEMPLATE_DEPTH { ItemBack(full, e, t, d); } else { ItemDeep(full, e, t, d); }
  }

  lemma {:induction false} ConditionExactly(full: bool, e: Expr, t: string, d: nat)
    requires WritableExpr(full, e) && d <= MAX_TEMPLATE_DEPTH
    ensures Condition("(" + Print(0, full, e, ")" + t), d) ==
            Exactly(d + 1 + Need(0, full, e) <= MAX_TEMPLATE_DEPTH, Done(e, t))
  {
    hide Expression, Expect, Print, WritableExpr, Need, Closes;
    ParenthesisRead(t);
    OpeningRead(Print(0, full, e, ")" + t));
    ItemExactly(full, e, ")" + t, d);
  }

  lemma {:induction false} ResultExactly(full: bool, e: Expr, t: string, d: nat)
    requires WritableExpr(full, e) && d <= MAX_TEMPLATE_DEPTH
    ensures ReturnValue(Print(0, full, e, ")" + t), d) ==
            Exactly(d + 1 + Need(0, full, e) <= MAX_TEMPLATE_DEPTH, Done(Some(e), t))
    ensures Opens(Print(0, full, e, ")" + t))
  {
    hide Expression, Expect, Print, WritableExpr, Need, Closes;
    ParenthesisRead(t);
    ItemExactly(full, e, ")" + t, d);
  }

  lemma {:induction false} ChainExactly(full: bool, chain: seq<Accessor>, t: string, d: nat)
    requires WritableChain(chain) && (forall a <- chain :: ChainsFitAccessor(full, a))
    requires Follows(t) && d <= MAX_TEMPLATE_DEPTH
    ensures Accessors(PrintChain(full, chain, t), d, []) ==
            Exactly(d + NeedChain(full, chain) <= MAX_TEMPLATE_DEPTH, Done(chain, t))
    ensures EndsName(PrintChain(full, chain, t))
  {
    hide Accessors, WritableChain, NeedChain, PrintChain, ChainsFitAccessor, Follows;
    if d + NeedChain(full, chain) <= MAX_TEMPLATE_DEPTH {
      AccessorsBack(full, chain, t, d, []);
      assert [] + chain == chain;
    } else {
      AccessorsDeep(full, chain, t, d, []);
    }
  }

  /** A plain reference in front of a space. */
  lemma {:induction false} TargetExactly(full: bool, ref: RefExpr, t: string, d: nat)
    requires WritableRef(full, ref) && d <= MAX_TEMPLATE_DEPTH && t != "" && t[0] == ' '
    ensures Reference("$" + (ref.name + PrintChain(full, ref.chain, t)), d) ==
            Exactly(d + NeedChain(full, ref.chain) <= MAX_TEMPLATE_DEPTH, Done(Some((ref, false)), t))
  {
    hide Accessors, WritableChain, NeedChain, PrintChain, ChainsFitAccessor, IdentLen;
    ChainExactly(full, ref.chain, t, d);
    var tail := PrintChain(full, ref.chain, t);
    IdentBack(ref.name, tail);
    var s := "$" + (ref.name + tail);
    assert s[1..] == ref.name + tail;
  }

  lemma {:induction false} ReferenceOpen(quiet: bool, u: string)
    requires u != ""
    ensures ReferenceOpening((if quiet then "$!{" else "${") + u) == (quiet, true, u)
  {
    var s := (if quiet then "$!{" else "${") + u;
    if quiet {
      assert s[1] == '!' && s[1..][1..] == "{" + u && ("{" + u)[1..] == u;
    } else {
      assert s[1] == '{' && s[1..] == "{" + u && ("{" + u)[1..] == u;
    }
  }

  /** A reference in braces. */
  lemma {:induction false} BracesExactly(full: bool, ref: RefExpr, quiet: bool, t: string, d: nat)
    requires WritableRef(full, ref) && d <= MAX_TEMPLATE_DEPTH
    ensures Reference(PrintNode(full, RefNode(ref, quiet), t), d) ==
            Exactly(d + NeedChain(full, ref.chain) <= MAX_TEMPLATE_DEPTH, Done(Some((ref, quiet)), t))
  {
    hide Accessors, WritableChain, NeedChain, PrintChain, ChainsFitAccessor, ReferenceOpening, IdentLen;
    var tail := PrintChain(full, ref.chain, "}" + t);
    ChainExactly(full, ref.chain, "}" + t, d);
    IdentBack(ref.name, tail);
    ReferenceOpen(quiet, ref.name + tail);
    assert ("}" + t)[1..] == t;
  }

  lemma {:induction false} SetExactly(full: bool, target: RefExpr, value: Expr, t: string, d: nat)
    requires WritableRef(full, target) && WritableExpr(full, value) && d <= MAX_TEMPLATE_DEPTH
    ensures var s := "$" + (target.name + PrintChain(full, target.chain, " = " + Print(0, full, value, ")" + t)));
      Set("(" + s, d) ==
      Exactly(d + NeedNode(full, SetNode(target, value)) <= MAX_TEMPLATE_DEPTH, Done(SetNode(target, value), t))
  {
    hide Expect, Reference, Expression, SkipSpace, Print, PrintChain, WritableRef, WritableExpr, Need, NeedChain,
         Closes;
    var u := Print(0, full, value, ")" + t);
    var s := "$" + (target.name + PrintChain(full, target.chain, " = " + u));
    OpeningRead(s);
    OneSpace(s);
    TargetExactly(full, target, " = " + u, d);
    OneSpace("= " + u);
    assert " = " + u == " " + ("= " + u) && ("= " + u)[1..] == " " + u;
    ParenthesisRead(t);
    ItemExactly(full, value, ")" + t, d);
  }

  lemma {:induction false} HeadExactly(full: bool, name: string, iter: Expr, t: string, d: nat)
    requires IsIdent(name) && WritableExpr(full, iter) && d <= MAX_TEMPLATE_DEPTH
    ensures ForeachHead("($" + (name + (" in " + Print(0, full, iter, ")" + t))), d) ==
            Exactly(d + 1 + Need(0, full, iter) <= MAX_TEMPLATE_DEPTH, Done((name, iter), t))
  {
    hide Expression, Expect, LoopVariable, SkipSpace, Print, WritableExpr, Need, Closes;
    var u := Print(0, full, iter, ")" + t);
    VariableBack(name, " in " + u, d);
    OneSpace("in " + u);
    assert " in " + u == " " + ("in " + u) && ("in " + u)[2..] == " " + u;
    assert "in" <= "in " + u && ("in " + u)[2] == ' ';
    ParenthesisRead(t);
    ItemExactly(full, iter, ")" + t, d);
  }

  lemma {:induction false} VariableBack(name: string, t: string, d: nat)
    requires IsIdent(name) && t != "" && t[0] == ' ' && d <= MAX_TEMPLATE_DEPTH
    ensures LoopVariable("($" + (name + t), d) == Done(name, t)
  {
    hide Expect, Reference, SkipSpace;
    var s := "$" + (name + t);
    assert "($" + (name + t) == "(" + s;
    OpeningRead(s);
    OneSpace(s);
    assert PrintChain(true, [], t) == t && NeedChain(true, []) == 0;
    TargetExactly(true, RefExpr(name, []), t, d);
  }

  // ---- Directives of one node

  lemma {:induction false} OneNode(src: string, start: string, nodes: seq<Node>, node: Node, t: string)
    requires !Alone(src, start, t)
    ensures WithNode(src, start, nodes, node, t) == Done(Block(nodes + [node], NoTerm, ""), t)
  {
    NotGobbled(src, start, nodes, t);
    hide Gobble;
  }

  /** What reading a node does at its place: it joins those in front, unless it nests too deep. */
  ghost predicate ReadAt(src: string, full: bool, n: Node, t: string, d: nat, done: seq<Node>)
    requires d <= MAX_TEMPLATE_DEPTH
  {
    BlockNodes(src, PrintNode(full, n, t), d, done) ==
    if d + NeedNode(full, n) <= MAX_TEMPLATE_DEPTH then BlockNodes(src, t, d, done + [n]) else Fail(TooDeep)
  }

  lemma {:induction false} SimpleDirective(src: string, start: string, name: string, s: string, d: nat, done: seq<Node>,
                        r: Parsed<Node>, t: string)
    requires d <= MAX_TEMPLATE_DEPTH && name in {"set", "break", "stop"} && r == Simple(name, s, d)
    requires r.Done? ==> r.rest == t
    requires !Alone(src, start, t)
    ensures Directive(src, start, name, s, d, done) ==
            if r.Fail? then Fail(r.fault) else Done(Block(done + [r.value], NoTerm, ""), t)
  {
    if r.Done? { OneNode(src, start, done, r.value, t); }
    hide Set, WithNode, If, Foreach, Return, Gobble, Alone;
  }

  function SetArguments(full: bool, target: RefExpr, value: Expr, t: string): string {
    "$" + (target.name + PrintChain(full, target.chain, " = " + Print(0, full, value, ")" + t)))
  }

  lemma {:induction false} SetText(full: bool, n: Node, t: string)
    requires n.SetNode?
    ensures PrintNode(full, n, t) == "#" + ("set" + ("(" + SetArguments(full, n.target, n.value, t)))
  {
    hide PrintChain, Print;
  }

  lemma {:induction false} SetRead(src: string, full: bool, n: Node, t: string, d: nat, done: seq<Node>)
    requires n.SetNode? && WritableNode(full, n) && ApartNode(src, full, n, t) && d <= MAX_TEMPLATE_DEPTH
    ensures ReadAt(src, full, n, t, d, done)
  {
    hide Set, Directive, Alone, BlockNodes, Hash, NeedNode, PrintChain, Print, WritableRef, WritableExpr, Need,
         NeedChain;
    SetText(full, n, t);
    SetExactly(full, n.target, n.value, t, d);
    var s1 := "(" + SetArguments(full, n.target, n.value, t);
    var s := PrintNode(full, n, t);
    hide PrintNode, SetArguments;
    NameRead(src, "set", s1, d, done);
    SimpleDirective(src, s, "set", s1, d, done, Set(s1, d), t);
    HashStep(src, s, d, done);
  }

  /** #{break} and #{stop}. */
  lemma {:induction false} WordRead(src: string, full: bool, n: Node, t: string, d: nat, done: seq<Node>)
    requires (n.BreakNode? || n.StopNode?) && ApartNode(src, full, n, t) && d <= MAX_TEMPLATE_DEPTH
    ensures ReadAt(src, full, n, t, d, done)
  {
    var name := if n.BreakNode? then "break" else "stop";
    var s := PrintNode(full, n, t);
    assert s == "#{" + (name + ("}" + t));
    BracedRead(src, name, t, d, done);
    SimpleDirective(src, s, name, t, d, done, Done(n, t), t);
    HashStep(src, s, d, done);
    hide Directive, Alone, BlockNodes, Hash, PrintNode;
  }

  lemma {:induction false} ReturnExactly(src: string, start: string, full: bool, result: Option<Expr>, t: string,
                                         d: nat, done: seq<Node>)
    requires (result.Some? ==> WritableExpr(full, result.value)) && !Alone(src, start, t) && d <= MAX_TEMPLATE_DEPTH
    ensures Return(src, start, "(" + ResultText(full, result, t), d, done) ==
            Exactly(d + NeedNode(full, ReturnNode(result)) <= MAX_TEMPLATE_DEPTH,
                    Done(Block(done + [ReturnNode(result)], NoTerm, ""), t))
  {
    var u := ResultText(full, result, t);
    OneSpace("(" + u);
    assert ("(" + u)[1..] == u;
    OneNode(src, start, done, ReturnNode(result), t);
    if result.Some? {
      ResultExactly(full, result.value, t, d);
      OneSpace(u);
    } else {
      ParenthesisRead(t);
      OneSpace(u);
    }
    hide SkipSpace, WithNode, Alone, Expression, Expect, Print, Need, Closes, WritableExpr;
  }

  function ResultText(full: bool, result: Option<Expr>, t: string): string {
    if result.Some? then Print(0, full, result.value, ")" + t) else ")" + t
  }

  lemma {:induction false} ReturnText(full: bool, n: Node, t: string)
    requires n.ReturnNode?
    ensures PrintNode(full, n, t) == "#" + ("return" + ("(" + ResultText(full, n.result, t)))
  {
    hide Print;
  }

  lemma {:induction false} ReturnRead(src: string, full: bool, n: Node, t: string, d: nat, done: seq<Node>)
    requires n.ReturnNode? && WritableNode(full, n) && ApartNode(src, full, n, t) && d <= MAX_TEMPLATE_DEPTH
    ensures ReadAt(src, full, n, t, d, done)
  {
    ReturnText(full, n, t);
    var s1 := "(" + ResultText(full, n.result, t);
    var s := PrintNode(full, n, t);
    ReturnExactly(src, s, full, n.result, t, d, done);
    hide PrintNode, ResultText, WritableExpr, NeedNode, Return, Set, If, Foreach, Alone, BlockNodes, Hash, Gobble;
    NameRead(src, "return", s1, d, done);
    HashStep(src, s, d, done);
  }

  lemma {:induction false} RefRead(src: string, full: bool, n: Node, t: string, d: nat, done: seq<Node>)
    requires n.RefNode? && WritableNode(full, n) && d <= MAX_TEMPLATE_DEPTH
    ensures ReadAt(src, full, n, t, d, done)
  {
    var s := PrintNode(full, n, t);
    assert s != "" && s[0] == '$';
    BracesExactly(full, n.ref, n.quiet, t, d);
    hide PrintNode, Reference, BlockNodes;
    if d + NeedNode(full, n) <= MAX_TEMPLATE_DEPTH {
      DollarStep(src, s, d, done, n.ref, n.quiet, t);
    } else {
      DollarFails(src, s, d, done);
    }
  }

  lemma {:induction false} DollarFails(src: string, s: string, d: nat, done: seq<Node>)
    requires s != "" && s[0] == '$' && d <= MAX_TEMPLATE_DEPTH && Reference(s, d) == Fail(TooDeep)
    ensures BlockNodes(src, s, d, done) == Fail(TooDeep)
  {
    assert PlainLen(s) == 0;
    assert s[0..] == s;
    hide Reference, PlainLen, AppendText;
  }

  predicate EndsInText(nodes: seq<Node>) { nodes != [] && nodes[|nodes| - 1].Text? }

  lemma {:induction false} TextRead(src: string, full: bool, n: Node, t: string, d: nat, done: seq<Node>)
    requires n.Text? && WritableNode(full, n) && Stops(t) && !EndsInText(done) && d <= MAX_TEMPLATE_DEPTH
    ensures ReadAt(src, full, n, t, d, done)
  {
    TextStep(src, n.parts[0], t, d, done);
    assert n.parts == [n.parts[0]];
    assert AppendText(done, n.parts[0]) == done + [n];
    hide BlockNodes;
  }

  // ---- Blocks and terminators

  /** The directive that ends a block. */
  lemma {:induction false} TerminatorRead(src: string, name: string, s: string, d: nat, nodes: seq<Node>)
    requires name in {"else", "end"} && d <= MAX_TEMPLATE_DEPTH && !Alone(src, "#{" + (name + ("}" + s)), s)
    ensures BlockNodes(src, "#{" + (name + ("}" + s)), d, nodes) ==
            Done(Block(nodes, if name == "else" then ElseTerm else EndTerm, "#{" + (name + ("}" + s))), s)
  {
    var start := "#{" + (name + ("}" + s));
    BracedRead(src, name, s, d, nodes);
    HashStep(src, start, d, nodes);
    NotGobbled(src, start, nodes, s);
    hide Hash, Gobble, BlockNodes, Alone, If, Foreach, Return, Set;
  }

  lemma {:induction false} EndRead(src: string, t: string, d: nat, nodes: seq<Node>)
    requires d <= MAX_TEMPLATE_DEPTH && !Alone(src, END + t, t)
    ensures BlockNodes(src, END + t, d, nodes) == Done(Block(nodes, EndTerm, END + t), t)
  {
    assert END + t == "#{" + ("end" + ("}" + t));
    hide BlockNodes, Alone;
    TerminatorRead(src, "end", t, d, nodes);
  }

  lemma {:induction false} ElseIfRead(src: string, s: string, d: nat, nodes: seq<Node>)
    requires d <= MAX_TEMPLATE_DEPTH && s != "" && s[0] == '('
    ensures BlockNodes(src, "#" + ("elseif" + s), d, nodes) ==
            Done(Block(nodes, ElseIfTerm, "#" + ("elseif" + s)), s)
  {
    NameRead(src, "elseif", s, d, nodes);
    HashStep(src, "#" + ("elseif" + s), d, nodes);
    hide Hash, Gobble, BlockNodes, If, Foreach, Return, Set;
  }

  /** What a block of nodes is read as, in front of the directive that ends it. */
  ghost predicate BodyAt(src: string, full: bool, nodes: seq<Node>, tail: string, d: nat)
    requires d <= MAX_TEMPLATE_DEPTH
  {
    ParseBlock(src, PrintNodes(full, nodes, tail), d) ==
    if d + 1 + NeedNodes(full, nodes) <= MAX_TEMPLATE_DEPTH then BlockNodes(src, tail, d + 1, nodes) else Fail(TooDeep)
  }

  lemma {:induction false} NodeStops(full: bool, n: Node, t: string)
    requires WritableNode(full, n) && !n.Text?
    ensures Stops(PrintNode(full, n, t))
  {
    hide PrintNodes, Print, PrintChain, PrintElse, PrintBodies;
  }

  lemma {:induction false} PrintedStops(full: bool, nodes: seq<Node>, t: string)
    requires WritableNodes(full, nodes) && (nodes != [] ==> !nodes[0].Text?) && Stops(t)
    ensures Stops(PrintNodes(full, nodes, t))
  {
    if nodes != [] { NodeStops(full, nodes[0], PrintNodes(full, nodes[1..], t)); }
    hide PrintNode, WritableNode;
  }

  // ---- All nodes

  ghost predicate NodesAt(src: string, full: bool, nodes: seq<Node>, t: string, d: nat, done: seq<Node>)
    requires d <= MAX_TEMPLATE_DEPTH
  {
    BlockNodes(src, PrintNodes(full, nodes, t), d, done) ==
    if d + NeedNodes(full, nodes) <= MAX_TEMPLATE_DEPTH then BlockNodes(src, t, d, done + nodes) else Fail(TooDeep)
  }

  lemma {:induction false} NodesRead(src: string, full: bool, nodes: seq<Node>, t: string, d: nat, done: seq<Node>)
    requires WritableNodes(full, nodes) && Apart(src, full, nodes, t) && Stops(t) && d <= MAX_TEMPLATE_DEPTH
    requires nodes != [] && nodes[0].Text? ==> !EndsInText(done)
    ensures NodesAt(src, full, nodes, t, d, done)
    decreases nodes, 0
  {
    hide BlockNodes, PrintNode, WritableNode, NeedNode, ApartNode;
    if nodes == [] {
      assert done + nodes == done;
    } else {
      var n, rest := nodes[0], nodes[1..];
      if n.Text? { PrintedStops(full, rest, t); }
      NodeRead(src, full, n, PrintNodes(full, rest, t), d, done);
      if d + NeedNode(full, n) <= MAX_TEMPLATE_DEPTH {
        NodesRead(src, full, rest, t, d, done + [n]);
        assert done + [n] + rest == done + nodes;
      }
    }
  }

  lemma {:induction false} NodeRead(src: string, full: bool, n: Node, t: string, d: nat, done: seq<Node>)
    requires WritableNode(full, n) && ApartNode(src, full, n, t) && d <= MAX_TEMPLATE_DEPTH
    requires n.Text? ==> Stops(t) && !EndsInText(done)
    ensures ReadAt(src, full, n, t, d, done)
    decreases n, 0
  {
    match n {
      case Text(_) => TextRead(src, full, n, t, d, done);
      case RefNode(_, _) => RefRead(src, full, n, t, d, done);
      case SetNode(_, _) => SetRead(src, full, n, t, d, done);
      case IfNode(branches, other) =>
        if other.Else? { ElseRead(src, full, other.body, t, d); }
        BranchesRead(src, full, "if", branches, other, t, d, []);
        IfRead(src, full, n, t, d, done);
      case ForeachNode(_, _, body) =>
        BodyRead(src, full, body, END + t, d);
        ForeachRead(src, full, n, t, d, done);
      case BreakNode => WordRead(src, full, n, t, d, done);
      case StopNode => WordRead(src, full, n, t, d, done);
      case ReturnNode(_) => ReturnRead(src, full, n, t, d, done);
    }
    hide BlockNodes, PrintNode, WritableNode, NeedNode, ApartNode, ReadAt, BodyAt, BranchesAt, ElseAt, WritableNodes,
         WritableBranches, ApartBranches, Apart;
  }

  lemma {:induction false} BodyRead(src: string, full: bool, nodes: seq<Node>, tail: string, d: nat)
    requires WritableNodes(full, nodes) && Apart(src, full, nodes, tail) && Stops(tail) && d <= MAX_TEMPLATE_DEPTH
    ensures BodyAt(src, full, nodes, tail, d)
    decreases nodes, 1
  {
    hide BlockNodes, PrintNodes, WritableNodes, NeedNodes, Apart;
    if d < MAX_TEMPLATE_DEPTH {
      NodesRead(src, full, nodes, tail, d + 1, []);
      assert [] + nodes == nodes;
    }
  }

  // ---- #foreach

  function ForeachArguments(full: bool, n: Node, t: string): string
    requires n.ForeachNode?
  {
    "($" + (n.varName + (" in " + Print(0, full, n.iter, ")" + PrintNodes(full, n.body, END + t))))
  }

  lemma {:induction false} ForeachText(full: bool, n: Node, t: string)
    requires n.ForeachNode?
    ensures PrintNode(full, n, t) == "#" + ("foreach" + ForeachArguments(full, n, t))
  {
    hide Print, PrintNodes;
  }

  lemma {:induction false} ForeachExactly(src: string, start: string, full: bool, n: Node, t: string, d: nat,
                                          done: seq<Node>)
    requires n.ForeachNode? && WritableNode(full, n) && d <= MAX_TEMPLATE_DEPTH
    requires !Alone(src, start, PrintNodes(full, n.body, END + t)) && !Alone(src, END + t, t)
    requires BodyAt(src, full, n.body, END + t, d)
    ensures Foreach(src, start, ForeachArguments(full, n, t), d, done) ==
            Exactly(d + NeedNode(full, n) <= MAX_TEMPLATE_DEPTH, Done(Block(done + [n], NoTerm, ""), t))
  {
    hide ForeachHead, ParseBlock, BlockNodes, Gobble, Print, PrintNodes, WritableNodes, WritableExpr, Need, NeedNodes,
         Alone;
    var body := PrintNodes(full, n.body, END + t);
    HeadExactly(full, n.varName, n.iter, body, d);
    NotGobbled(src, start, done, body);
    if d < MAX_TEMPLATE_DEPTH { EndRead(src, t, d + 1, n.body); }
  }

  lemma {:induction false} ForeachRead(src: string, full: bool, n: Node, t: string, d: nat, done: seq<Node>)
    requires n.ForeachNode? && WritableNode(full, n) && ApartNode(src, full, n, t) && d <= MAX_TEMPLATE_DEPTH
    requires BodyAt(src, full, n.body, END + t, d)
    ensures ReadAt(src, full, n, t, d, done)
  {
    var s, s1 := PrintNode(full, n, t), ForeachArguments(full, n, t);
    ForeachText(full, n, t);
    ForeachExactly(src, s, full, n, t, d, done);
    assert s1 != "" && s1[0] == '(';
    hide PrintNode, ForeachArguments, WritableNode, NeedNode, BodyAt, Apart, Foreach, Return, If, Set, Alone,
         BlockNodes, Hash, Gobble;
    NameRead(src, "foreach", s1, d, done);
    HashStep(src, s, d, done);
  }

  // ---- #if

  ghost predicate ElseAt(src: string, full: bool, other: ElsePart, t: string, d: nat)
    requires d <= MAX_TEMPLATE_DEPTH
  {
    other.Else? ==>
      ParseBlock(src, PrintNodes(full, other.body, END + t), d) ==
      Exactly(d + NeedElse(full, other) <= MAX_TEMPLATE_DEPTH, Done(Block(other.body, EndTerm, END + t), t))
  }

  lemma {:induction false} ElseRead(src: string, full: bool, body: seq<Node>, t: string, d: nat)
    requires WritableNodes(full, body) && Apart(src, full, body, END + t) && !Alone(src, END + t, t)
    requires d <= MAX_TEMPLATE_DEPTH
    ensures ElseAt(src, full, Else(body), t, d)
    decreases body, 2
  {
    hide BlockNodes, ParseBlock, PrintNodes, WritableNodes, NeedNodes, Apart, Alone;
    BodyRead(src, full, body, END + t, d);
    if d < MAX_TEMPLATE_DEPTH { EndRead(src, t, d + 1, body); }
  }

  /** Levels enough for branches from the body of the first on. */
  predicate BodiesFit(full: bool, branches: seq<Branch>, other: ElsePart, d: nat)
    requires branches != []
  {
    && d + 1 + NeedNodes(full, branches[0].body) <= MAX_TEMPLATE_DEPTH
    && d + NeedBranches(full, branches[1..]) <= MAX_TEMPLATE_DEPTH &&
            d + NeedElse(full, other) <= MAX_TEMPLATE_DEPTH
  }

  ghost predicate BranchesAt(src: string, full: bool, branches: seq<Branch>, other: ElsePart, t: string, d: nat,
                             done: seq<Branch>)
    requires branches != [] && d <= MAX_TEMPLATE_DEPTH
  {
    IfBranches(src, branches[0].cond, PrintBodies(full, branches, PrintElse(full, other, t)), d, done) ==
    Exactly(BodiesFit(full, branches, other, d), Done(IfNode(done + branches, other), t))
  }

  lemma {:induction false} BranchesRead(src: string, full: bool, name: string, branches: seq<Branch>, other: ElsePart,
                                        t: string, d: nat, done: seq<Branch>)
    requires branches != [] && WritableBranches(full, branches) && d <= MAX_TEMPLATE_DEPTH
    requires ApartBranches(src, full, name, branches, PrintElse(full, other, t)) && ApartElse(src, full, other, t)
    requires ElseAt(src, full, other, t, d)
    ensures BranchesAt(src, full, branches, other, t, d, done)
    decreases branches, 0
  {
    hide WritableNodes, WritableExpr, Apart, PrintElse, Alone, ElseAt, BranchesAt, BodyAt;
    var more := PrintBranches(full, "elseif", branches[1..], PrintElse(full, other, t));
    BranchStops(full, branches[1..], other, t);
    BodyRead(src, full, branches[0].body, more, d);
    if |branches| > 1 {
      BranchesRead(src, full, "elseif", branches[1..], other, t, d, done + [branches[0]]);
      NextBranch(src, full, branches, other, t, d, done);
    } else {
      LastBranch(src, full, branches, other, t, d, done);
    }
  }

  lemma {:induction false} BranchStops(full: bool, branches: seq<Branch>, other: ElsePart, t: string)
    ensures Stops(PrintBranches(full, "elseif", branches, PrintElse(full, other, t)))
  {
    hide Print, PrintNodes, PrintBodies;
  }

  /** One step of reading branches: the body has been read up to the directive that ends it. */
  lemma {:induction false} ElseIfStep(src: string, cond: Expr, s: string, d: nat, done: seq<Branch>, body: seq<Node>,
                                      start: string,
                   s1: string, next: Parsed<Expr>)
    requires d <= MAX_TEMPLATE_DEPTH && ParseBlock(src, s, d) == Done(Block(body, ElseIfTerm, start), s1)
    requires |s1| <= |s| && next == Condition(s1, d) && (next.Done? ==> !Alone(src, start, next.rest))
    ensures IfBranches(src, cond, s, d, done) ==
            if next.Fail? then Fail(next.fault)
            else IfBranches(src, next.value, next.rest, d, done + [Branch(cond, body)])
  {
    if next.Done? { NotGobbled(src, start, body, next.rest); }
    hide ParseBlock, Condition, Gobble, Alone;
  }

  lemma {:induction false} ElseStep(src: string, cond: Expr, s: string, d: nat, done: seq<Branch>, body: seq<Node>,
                                    start: string,
                 s1: string, other: Parsed<Block>)
    requires d <= MAX_TEMPLATE_DEPTH && ParseBlock(src, s, d) == Done(Block(body, ElseTerm, start), s1)
    requires |s1| <= |s| && other == ParseBlock(src, s1, d) && (other.Done? ==> other.value.term.EndTerm?)
    ensures IfBranches(src, cond, s, d, done) ==
            if other.Fail? then Fail(other.fault)
            else Done(IfNode(done + [Branch(cond, body)], Else(other.value.nodes)), other.rest)
  {
    hide ParseBlock, Condition, Gobble, Alone;
  }

  lemma {:induction false} EndStep(src: string, cond: Expr, s: string, d: nat, done: seq<Branch>, body: seq<Node>,
                                   start: string,
                s1: string)
    requires d <= MAX_TEMPLATE_DEPTH && ParseBlock(src, s, d) == Done(Block(body, EndTerm, start), s1)
    ensures IfBranches(src, cond, s, d, done) == Done(IfNode(done + [Branch(cond, body)], NoElse), s1)
  {
    hide ParseBlock, Condition, Gobble, Alone;
  }

  lemma {:induction false} BodyFails(src: string, cond: Expr, s: string, d: nat, done: seq<Branch>)
    requires d <= MAX_TEMPLATE_DEPTH && ParseBlock(src, s, d) == Fail(TooDeep)
    ensures IfBranches(src, cond, s, d, done) == Fail(TooDeep)
  {
    hide ParseBlock, Condition, Gobble, Alone;
  }

  lemma {:induction false} BranchText(full: bool, name: string, branches: seq<Branch>, tail: string)
    requires branches != []
    ensures PrintBranches(full, name, branches, tail) ==
            "#" + (name + ("(" + Print(0, full, branches[0].cond, ")" + PrintBodies(full, branches, tail))))
  {
    hide Print, PrintBodies;
  }

  lemma {:induction false} NextFits(full: bool, branches: seq<Branch>, other: ElsePart, d: nat)
    requires |branches| > 1
    ensures BodiesFit(full, branches, other, d) <==>
            d + 1 + NeedNodes(full, branches[0].body) <= MAX_TEMPLATE_DEPTH
            && d + 1 + Need(0, full, branches[1].cond) <= MAX_TEMPLATE_DEPTH && BodiesFit(full, branches[1..], other, d)
  {
    assert branches[1..][1..] == branches[2..];
    hide NeedNodes, Need, NeedElse;
  }

  /** An #elseif ends the body in front of it, and goes on with its own. */
  lemma {:induction false} NextBranch(src: string, full: bool, branches: seq<Branch>, other: ElsePart, t: string,
                                      d: nat,
                   done: seq<Branch>)
    requires |branches| > 1 && WritableExpr(full, branches[1].cond) && d <= MAX_TEMPLATE_DEPTH
    requires BodyAt(src, full, branches[0].body,
                    PrintBranches(full, "elseif", branches[1..], PrintElse(full, other, t)),
                    d)
    requires !Alone(src, PrintBranches(full, "elseif", branches[1..], PrintElse(full, other, t)),
                    PrintBodies(full, branches[1..], PrintElse(full, other, t)))
    requires BranchesAt(src, full, branches[1..], other, t, d, done + [branches[0]])
    ensures BranchesAt(src, full, branches, other, t, d, done)
  {
    hide BlockNodes, PrintNodes, Print, PrintBranches, PrintElse, NeedNodes, Need, NeedBranches, NeedElse, BodiesFit,
         Condition, Alone, WritableExpr, ParseBlock, IfBranches;
    var b, rest, tail := branches[0], branches[1..], PrintElse(full, other, t);
    var s, bodies := PrintBodies(full, branches, tail), PrintBodies(full, rest, tail);
    assert s == PrintNodes(full, b.body, PrintBranches(full, "elseif", rest, tail));
    hide PrintBodies;
    var s1 := "(" + Print(0, full, rest[0].cond, ")" + bodies);
    BranchText(full, "elseif", rest, tail);
    NextFits(full, branches, other, d);
    ConditionExactly(full, rest[0].cond, bodies, d);
    assert b == Branch(b.cond, b.body) && done + [b] + rest == done + branches;
    if d + 1 + NeedNodes(full, b.body) <= MAX_TEMPLATE_DEPTH {
      ElseIfRead(src, s1, d + 1, b.body);
      ElseIfStep(src, b.cond, s, d, done, b.body, "#" + ("elseif" + s1), s1, Condition(s1, d));
    } else {
      BodyFails(src, b.cond, s, d, done);
    }
  }

  lemma {:induction false} LastFits(full: bool, branches: seq<Branch>, other: ElsePart, d: nat)
    requires |branches| == 1 && d <= MAX_TEMPLATE_DEPTH
    ensures BodiesFit(full, branches, other, d) <==>
            d + 1 + NeedNodes(full, branches[0].body) <= MAX_TEMPLATE_DEPTH &&
            d + NeedElse(full, other) <= MAX_TEMPLATE_DEPTH
  {
    hide NeedNodes, NeedElse;
  }

  lemma {:induction false} LastText(full: bool, branches: seq<Branch>, tail: string)
    requires |branches| == 1
    ensures PrintBodies(full, branches, tail) == PrintNodes(full, branches[0].body, tail)
  {
    hide PrintNodes;
  }

  lemma {:induction false} ElseText(full: bool, body: seq<Node>, t: string)
    ensures PrintElse(full, Else(body), t) == "#{" + ("else" + ("}" + PrintNodes(full, body, END + t)))
  {
    hide PrintNodes;
  }

  /** The last branch is ended by #else or #end. */
  lemma {:induction false} LastBranch(src: string, full: bool, branches: seq<Branch>, other: ElsePart, t: string,
                                      d: nat,
                   done: seq<Branch>)
    requires |branches| == 1 && d <= MAX_TEMPLATE_DEPTH && ApartElse(src, full, other, t)
    requires BodyAt(src, full, branches[0].body, PrintElse(full, other, t), d) && ElseAt(src, full, other, t, d)
    ensures BranchesAt(src, full, branches, other, t, d, done)
  {
    hide BlockNodes, PrintNodes, PrintBodies, NeedNodes, NeedBranches, BodiesFit, Condition, Alone, ParseBlock,
         IfBranches, Apart;
    var b, tail := branches[0], PrintElse(full, other, t);
    var s := PrintBodies(full, branches, tail);
    LastText(full, branches, tail);
    LastFits(full, branches, other, d);
    assert b == Branch(b.cond, b.body) && branches == [b];
    if d + 1 + NeedNodes(full, b.body) > MAX_TEMPLATE_DEPTH {
      BodyFails(src, b.cond, s, d, done);
    } else if other.Else? {
      var s1 := PrintNodes(full, other.body, END + t);
      ElseText(full, other.body, t);
      hide PrintElse;
      TerminatorRead(src, "else", s1, d + 1, b.body);
      ElseStep(src, b.cond, s, d, done, b.body, tail, s1, ParseBlock(src, s1, d));
    } else {
      EndRead(src, t, d + 1, b.body);
      EndStep(src, b.cond, s, d, done, b.body, END + t, t);
    }
  }

  function IfArguments(full: bool, n: Node, t: string): string
    requires n.IfNode? && n.branches != []
  {
    "(" + Print(0, full, n.branches[0].cond, ")" + PrintBodies(full, n.branches, PrintElse(full, n.elsePart, t)))
  }

  lemma {:induction false} IfText(full: bool, n: Node, t: string)
    requires n.IfNode? && n.branches != []
    ensures PrintNode(full, n, t) == "#" + ("if" + IfArguments(full, n, t))
    ensures PrintNode(full, n, t) == PrintBranches(full, "if", n.branches, PrintElse(full, n.elsePart, t))
  {
    hide Print, PrintBodies, PrintElse;
  }

  lemma {:induction false} IfExactly(src: string, start: string, full: bool, n: Node, t: string, d: nat,
                                     done: seq<Node>)
    requires n.IfNode? && WritableNode(full, n) && d <= MAX_TEMPLATE_DEPTH
    requires !Alone(src, start, PrintBodies(full, n.branches, PrintElse(full, n.elsePart, t)))
    requires BranchesAt(src, full, n.branches, n.elsePart, t, d, [])
    ensures If(src, start, IfArguments(full, n, t), d, done) ==
            Exactly(d + NeedNode(full, n) <= MAX_TEMPLATE_DEPTH, Done(Block(done + [n], NoTerm, ""), t))
  {
    var branches := n.branches;
    var bodies := PrintBodies(full, branches, PrintElse(full, n.elsePart, t));
    assert WritableExpr(full, branches[0].cond);
    ConditionExactly(full, branches[0].cond, bodies, d);
    NotGobbled(src, start, done, bodies);
    assert d + NeedNode(full, n) <= MAX_TEMPLATE_DEPTH <==>
           d + 1 + Need(0, full, branches[0].cond) <= MAX_TEMPLATE_DEPTH && BodiesFit(full, branches, n.elsePart, d);
    assert [] + branches == branches;
    hide PrintBodies, PrintElse, Print, NeedNode, Need, BodiesFit, WritableBranches, WritableElse, Condition,
         IfBranches, Gobble, Alone;
  }

  lemma {:induction false} IfRead(src: string, full: bool, n: Node, t: string, d: nat, done: seq<Node>)
    requires n.IfNode? && WritableNode(full, n) && ApartNode(src, full, n, t) && d <= MAX_TEMPLATE_DEPTH
    requires BranchesAt(src, full, n.branches, n.elsePart, t, d, [])
    ensures ReadAt(src, full, n, t, d, done)
  {
    var s, s1 := PrintNode(full, n, t), IfArguments(full, n, t);
    IfText(full, n, t);
    assert !Alone(src, s, PrintBodies(full, n.branches, PrintElse(full, n.elsePart, t)));
    IfExactly(src, s, full, n, t, d, done);
    assert s1 != "" && s1[0] == '(';
    hide PrintNode, IfArguments, WritableNode, NeedNode, BranchesAt, Foreach, Return, If, Set, Alone, BlockNodes, Hash,
         Gobble, ApartNode;
    NameRead(src, "if", s1, d, done);
    HashStep(src, s, d, done);
  }

  // ---- The main results

  function TemplateSource(full: bool, nodes: seq<Node>): string { PrintNodes(full, nodes, "") }

  /**
   The text of a template is read back as the nodes it was written from, exactly when their nesting is within the
   limit; otherwise it is refused for its depth.
   */
  lemma {:induction false} TemplateReadBackExactly(full: bool, nodes: seq<Node>)
    requires WritableNodes(full, nodes) && |TemplateSource(full, nodes)| <= MAX_TEMPLATE_BYTES
    requires Apart(TemplateSource(full, nodes), full, nodes, "")
    ensures Template(TemplateSource(full, nodes)) ==
            if 1 + NeedNodes(full, nodes) <= MAX_TEMPLATE_DEPTH then Ok(nodes) else Err(TooDeep)
  {
    var src := TemplateSource(full, nodes);
    hide PrintNodes, NeedNodes, WritableNodes, Apart, ParseBlock;
    BodyRead(src, full, nodes, "", 0);
    assert BlockNodes(src, "", 1, nodes) == Done(Block(nodes, NoTerm, ""), "");
  }
}
