/**
 How deep a parsed template nests (internal/vtl/parse.go:55-63): blocks, expressions and the templates inside
 strings are counted together, and whatever Parse accepts stays within the limit.
 */
module Nesting {
  import opened Common
  import opened Ast
  import opened Scan
  import opened Grammar

  /** Levels of an expression below the one its operators are read at. */
  function Nest(e: Expr): nat
    decreases e, 0
  {
    match e
    case Literal(_) => 1
    case Interpolated(body) => 2 + NestNodes(body)
    case Ref(ref) => 1 + NestChain(ref.chain)
    case ListExpr(items) => 1 + NestItems(items)
    case RangeExpr(from, to) => 2 + Max(Nest(from), Nest(to))
    case MapExpr(entries) => 1 + NestEntries(entries)
    case Unary(_, x) => 1 + Nest(x)
    case Binary(_, l, r) => Max(Nest(l), Nest(r))
  }

  function NestItems(items: seq<Expr>): nat
    decreases items, 1
  {
    if items == [] then 0 else Max(NestItems(items[..|items| - 1]), 1 + Nest(items[|items| - 1]))
  }

  function NestEntries(entries: seq<Entry>): nat
    decreases entries, 1
  {
    if entries == [] then 0 else Max(NestEntries(entries[..|entries| - 1]), NestEntry(entries[|entries| - 1]))
  }

  function NestEntry(entry: Entry): nat
    decreases entry, 0
  {
    1 + Max(Nest(entry.key), Nest(entry.val))
  }

  function NestChain(chain: seq<Accessor>): nat
    decreases chain, 1
  {
    if chain == [] then 0 else Max(NestChain(chain[..|chain| - 1]), NestAccessor(chain[|chain| - 1]))
  }

  function NestAccessor(a: Accessor): nat
    decreases a, 0
  {
    match a
    case Property(_) => 0
    case Method(_, args) => NestItems(args)
    case Index(index) => 1 + Nest(index)
  }

  /** Levels of a block's nodes below the block. */
  function NestNodes(nodes: seq<Node>): nat
    decreases nodes, 1
  {
    if nodes == [] then 0 else Max(NestNodes(nodes[..|nodes| - 1]), NestNode(nodes[|nodes| - 1]))
  }

  function NestNode(n: Node): nat
    decreases n, 0
  {
    match n
    case Text(_) | BreakNode | StopNode => 0
    case RefNode(ref, _) => NestChain(ref.chain)
    case SetNode(target, value) => Max(NestChain(target.chain), 1 + Nest(value))
    case IfNode(branches, elsePart) => Max(NestBranches(branches), NestElse(elsePart))
    case ForeachNode(_, iter, body) => 1 + Max(Nest(iter), NestNodes(body))
    case ReturnNode(result) => (match result case None => 0 case Some(e) => 1 + Nest(e))
  }

  function NestBranches(branches: seq<Branch>): nat
    decreases branches, 1
  {
    if branches == [] then 0 else Max(NestBranches(branches[..|branches| - 1]), NestBranch(branches[|branches| - 1]))
  }

  function NestBranch(b: Branch): nat
    decreases b, 0
  {
    1 + Max(Nest(b.cond), NestNodes(b.body))
  }

  function NestElse(e: ElsePart): nat
    decreases e, 0
  {
    match e
    case NoElse => 0
    case Else(body) => 1 + NestNodes(body)
  }

  // ---- Adding at the end

  lemma MoreItems(items: seq<Expr>, e: Expr)
    ensures NestItems(items + [e]) == Max(NestItems(items), 1 + Nest(e))
  {
    assert (items + [e])[..|items|] == items;
  }

  lemma FirstItem(e: Expr, rest: seq<Expr>)
    ensures NestItems([e] + rest) == Max(1 + Nest(e), NestItems(rest))
    decreases |rest|
  {
    if rest == [] {
      assert [e] + rest == [] + [e];
      MoreItems([], e);
    } else {
      var n := |rest| - 1;
      FirstItem(e, rest[..n]);
      assert [e] + rest == ([e] + rest[..n]) + [rest[n]];
      MoreItems([e] + rest[..n], rest[n]);
    }
  }

  lemma MoreEntries(entries: seq<Entry>, entry: Entry)
    ensures NestEntries(entries + [entry]) == Max(NestEntries(entries), NestEntry(entry))
  {
    assert (entries + [entry])[..|entries|] == entries;
  }

  lemma MoreChain(chain: seq<Accessor>, a: Accessor)
    ensures NestChain(chain + [a]) == Max(NestChain(chain), NestAccessor(a))
  {
    assert (chain + [a])[..|chain|] == chain;
  }

  lemma MoreNodes(nodes: seq<Node>, n: Node)
    ensures NestNodes(nodes + [n]) == Max(NestNodes(nodes), NestNode(n))
  {
    assert (nodes + [n])[..|nodes|] == nodes;
  }

  lemma MoreText(nodes: seq<Node>, s: string)
    ensures NestNodes(AppendText(nodes, s)) == NestNodes(nodes)
  {
    if s != "" {
      if nodes != [] && nodes[|nodes| - 1].Text? {
        assert AppendText(nodes, s)[..|nodes| - 1] == nodes[..|nodes| - 1];
      } else {
        MoreNodes(nodes, Text([s]));
      }
    }
  }

  lemma MoreBranches(branches: seq<Branch>, b: Branch)
    ensures NestBranches(branches + [b]) == Max(NestBranches(branches), NestBranch(b))
  {
    assert (branches + [b])[..|branches|] == branches;
  }

  // ---- Expressions

  lemma {:induction false} ExpressionWithin(s: string, d: nat)
    requires d <= MAX_TEMPLATE_DEPTH
    ensures Expression(s, d).Done? ==> d + 1 + Nest(Expression(s, d).value) <= MAX_TEMPLATE_DEPTH
    decreases MAX_TEMPLATE_DEPTH - d, 0, |s|
  {
    hide Chain, Nest;
    if d < MAX_TEMPLATE_DEPTH { ChainWithin(0, s, d + 1); }
  }

  lemma {:induction false} ChainWithin(level: nat, s: string, d: nat)
    requires level <= LEVELS && d <= MAX_TEMPLATE_DEPTH
    ensures Chain(level, s, d).Done? ==> d + Nest(Chain(level, s, d).value) <= MAX_TEMPLATE_DEPTH
    decreases MAX_TEMPLATE_DEPTH - d, 10 + 2 * (LEVELS - level), |s|
  {
    hide UnaryExpr, ChainRest, Nest;
    if level == LEVELS {
      UnaryWithin(s, d);
    } else {
      ChainWithin(level + 1, s, d);
      var l := Chain(level + 1, s, d);
      if l.Done? { RestWithin(level, l.value, l.rest, d, 0); }
    }
  }

  lemma {:induction false} RestWithin(level: nat, l: Expr, s: string, d: nat, links: nat)
    requires level < LEVELS && d <= MAX_TEMPLATE_DEPTH && d + Nest(l) <= MAX_TEMPLATE_DEPTH
    ensures var r := ChainRest(level, l, s, d, links); r.Done? ==> d + Nest(r.value) <= MAX_TEMPLATE_DEPTH
    decreases MAX_TEMPLATE_DEPTH - d, 10 + 2 * (LEVELS - level) - 1, |s|
  {
    hide Chain, MatchOp;
    var op := MatchOp(level, s);
    if op.Some? && links < MAX_OPERATOR_CHAIN {
      ChainWithin(level + 1, op.value.1, d);
      var r := Chain(level + 1, op.value.1, d);
      if r.Done? { RestWithin(level, Binary(op.value.0, l, r.value), r.rest, d, links + 1); }
    }
  }

  lemma {:induction false} UnaryWithin(s: string, d: nat)
    requires d <= MAX_TEMPLATE_DEPTH
    ensures UnaryExpr(s, d).Done? ==> d + Nest(UnaryExpr(s, d).value) <= MAX_TEMPLATE_DEPTH
    decreases MAX_TEMPLATE_DEPTH - d, 0, |s|
  {
    hide Primary, UnaryOperator, SkipSpace;
    if d < MAX_TEMPLATE_DEPTH {
      var t := SkipSpace(s);
      var op := UnaryOperator(t);
      if op.None? { PrimaryWithin(t, d + 1); } else { UnaryWithin(op.value.1, d + 1); }
    }
  }

  /** A primary needs one level less than its expression: its own level has been entered. */
  lemma {:induction false} PrimaryWithin(s: string, d: nat)
    requires 0 < d <= MAX_TEMPLATE_DEPTH
    ensures Primary(s, d).Done? ==> d - 1 + Nest(Primary(s, d).value) <= MAX_TEMPLATE_DEPTH
    decreases MAX_TEMPLATE_DEPTH - d, 5, |s|
  {
    hide Reference, DoubleQuoted, ListOrRange, MapLiteral, Expression, Expect, Number, Keyword, Quoted, NestChain,
         NestNodes, NestItems, NestEntries;
    if s != "" {
      if s[0] == '$' {
        ReferenceWithin(s, d);
      } else if s[0] == '"' {
        QuotedWithin(s[1..], d);
      } else if s[0] == '[' {
        ListWithin(s[1..], d);
      } else if s[0] == '{' {
        MapWithin(s[1..], d);
      } else if s[0] == '(' {
        ExpressionWithin(s[1..], d);
      } else {
        LiteralsAreFlat(s);
      }
    }
  }

  lemma LiteralsAreFlat(s: string)
    ensures Number(s).Done? ==> Nest(Number(s).value) == 1
    ensures Keyword(s).Done? ==> Nest(Keyword(s).value) == 1
  {
  }

  lemma {:induction false} QuotedWithin(s: string, d: nat)
    requires 0 < d <= MAX_TEMPLATE_DEPTH
    ensures DoubleQuoted(s, d).Done? ==> d - 1 + Nest(DoubleQuoted(s, d).value) <= MAX_TEMPLATE_DEPTH
    decreases MAX_TEMPLATE_DEPTH - d, 1, |s|
  {
    hide ParseBlock, Quoted, NestNodes;
    var q := Quoted('"', s);
    if q.Some? { BlockWithin(q.value.0, q.value.0, d); }
  }

  lemma {:induction false} ListWithin(s: string, d: nat)
    requires 0 < d <= MAX_TEMPLATE_DEPTH
    ensures ListOrRange(s, d).Done? ==> d - 1 + Nest(ListOrRange(s, d).value) <= MAX_TEMPLATE_DEPTH
    decreases MAX_TEMPLATE_DEPTH - d, 2, |s|
  {
    hide Expression, Arguments, RangeEnd, SkipSpace;
    var t := SkipSpace(s);
    if Peek(t) != ']' {
      ExpressionWithin(t, d);
      var first := Expression(t, d);
      if first.Done? {
        var t1 := SkipSpace(first.rest);
        if PairAt('.', '.', t1) {
          RangeWithin(first.value, t1[2..], d);
        } else if Peek(t1) == ',' {
          ArgumentsWithin(']', t1[1..], d, []);
          var rest := Arguments(']', t1[1..], d, []);
          if rest.Done? { FirstItem(first.value, rest.value); }
        } else {
          FirstItem(first.value, []);
          assert [first.value] + [] == [first.value];
        }
      }
    }
  }

  lemma {:induction false} RangeWithin(from: Expr, s: string, d: nat)
    requires 0 < d <= MAX_TEMPLATE_DEPTH && d + 1 + Nest(from) <= MAX_TEMPLATE_DEPTH
    ensures RangeEnd(from, s, d).Done? ==> d - 1 + Nest(RangeEnd(from, s, d).value) <= MAX_TEMPLATE_DEPTH
    decreases MAX_TEMPLATE_DEPTH - d, 1, |s|
  {
    hide Expression, Expect;
    ExpressionWithin(s, d);
  }

  lemma {:induction false} ArgumentsWithin(closer: char, s: string, d: nat, done: seq<Expr>)
    requires d <= MAX_TEMPLATE_DEPTH && d + NestItems(done) <= MAX_TEMPLATE_DEPTH
    ensures var r := Arguments(closer, s, d, done); r.Done? ==> d + NestItems(r.value) <= MAX_TEMPLATE_DEPTH
    decreases MAX_TEMPLATE_DEPTH - d, 1, |s|
  {
    hide Expression, SkipSpace, Nest;
    var t := if done == [] then SkipSpace(s) else s;
    if !(done == [] && t != "" && t[0] == closer) {
      ExpressionWithin(t, d);
      var a := Expression(t, d);
      if a.Done? {
        MoreItems(done, a.value);
        hide NestItems;
        var t1 := SkipSpace(a.rest);
        if t1 != "" && t1[0] == ',' { ArgumentsWithin(closer, t1[1..], d, done + [a.value]); }
      }
    }
  }

  lemma {:induction false} MapWithin(s: string, d: nat)
    requires 0 < d <= MAX_TEMPLATE_DEPTH
    ensures MapLiteral(s, d).Done? ==> d - 1 + Nest(MapLiteral(s, d).value) <= MAX_TEMPLATE_DEPTH
    decreases MAX_TEMPLATE_DEPTH - d, 3, |s|
  {
    hide MapEntries, SkipSpace;
    EntriesWithin(SkipSpace(s), d, []);
  }

  lemma {:induction false} EntriesWithin(s: string, d: nat, done: seq<Entry>)
    requires 0 < d <= MAX_TEMPLATE_DEPTH && d + NestEntries(done) <= MAX_TEMPLATE_DEPTH
    ensures var r := MapEntries(s, d, done); r.Done? ==> d - 1 + Nest(r.value) <= MAX_TEMPLATE_DEPTH
    decreases MAX_TEMPLATE_DEPTH - d, 2, |s|
  {
    hide MapEntry, SkipSpace, NestEntry;
    EntryWithin(s, d);
    var entry := MapEntry(s, d);
    if entry.Done? {
      MoreEntries(done, entry.value);
      hide NestEntries;
      var t := SkipSpace(entry.rest);
      if Peek(t) == ',' { EntriesWithin(t[1..], d, done + [entry.value]); }
    }
  }

  lemma {:induction false} EntryWithin(s: string, d: nat)
    requires d <= MAX_TEMPLATE_DEPTH
    ensures MapEntry(s, d).Done? ==> d + NestEntry(MapEntry(s, d).value) <= MAX_TEMPLATE_DEPTH
    decreases MAX_TEMPLATE_DEPTH - d, 1, |s|
  {
    hide Expression, Expect, Nest;
    ExpressionWithin(s, d);
    var k := Expression(s, d);
    if k.Done? {
      var colon := Expect(':', k.rest);
      if colon.Done? { ExpressionWithin(colon.rest, d); }
    }
  }

  lemma {:induction false} ReferenceWithin(s: string, d: nat)
    requires d <= MAX_TEMPLATE_DEPTH
    ensures var r := Reference(s, d);
      r.Done? && r.value.Some? ==> d + NestChain(r.value.value.0.chain) <= MAX_TEMPLATE_DEPTH
    decreases MAX_TEMPLATE_DEPTH - d, 3, |s|
  {
    hide Accessors, ReferenceOpening, IdentLen, NestChain;
    var s2 := ReferenceOpening(s).2;
    if s2 != "" && IsIdentStart(s2[0]) {
      NoChain();
      AccessorsWithin(s2[IdentLen(s2)..], d, []);
    }
  }

  lemma NoChain()
    ensures NestChain([]) == 0
  {
  }

  lemma {:induction false} AccessorsWithin(s: string, d: nat, done: seq<Accessor>)
    requires d <= MAX_TEMPLATE_DEPTH && d + NestChain(done) <= MAX_TEMPLATE_DEPTH
    ensures var r := Accessors(s, d, done); r.Done? ==> d + NestChain(r.value) <= MAX_TEMPLATE_DEPTH
    decreases MAX_TEMPLATE_DEPTH - d, 2, |s|
  {
    hide Expression, Expect, Arguments, IdentLen, NestChain, Nest, NestItems;
    if |s| > 1 && s[0] == '.' && IsIdentStart(s[1]) {
      var n := IdentLen(s[1..]);
      var name, s1 := s[1..][..n], s[1..][n..];
      if Peek(s1) != '(' {
        MoreChain(done, Property(name));
        AccessorsWithin(s1, d, done + [Property(name)]);
      } else {
        NoItems();
        ArgumentsWithin(')', s1[1..], d, []);
        var args := Arguments(')', s1[1..], d, []);
        if args.Done? {
          MoreChain(done, Method(name, args.value));
          AccessorsWithin(args.rest, d, done + [Method(name, args.value)]);
        }
      }
    } else if s != "" && s[0] == '[' {
      IndexWithin(s, d, done);
    }
  }

  lemma NoItems()
    ensures NestItems([]) == 0
  {
  }

  lemma {:induction false} IndexWithin(s: string, d: nat, done: seq<Accessor>)
    requires s != "" && s[0] == '['
    requires d <= MAX_TEMPLATE_DEPTH && d + NestChain(done) <= MAX_TEMPLATE_DEPTH
    ensures var r := Accessors(s, d, done); r.Done? ==> d + NestChain(r.value) <= MAX_TEMPLATE_DEPTH
    decreases MAX_TEMPLATE_DEPTH - d, 2, |s|, 0
  {
    hide Expression, Expect, NestChain, Nest;
    ExpressionWithin(s[1..], d);
    var idx := Expression(s[1..], d);
    if idx.Done? {
      var close := Expect(']', idx.rest);
      if close.Done? {
        MoreChain(done, Accessor.Index(idx.value));
        AccessorsWithin(close.rest, d, done + [Accessor.Index(idx.value)]);
      }
    }
  }

  // ---- Blocks and directives

  /** Taking the indentation away changes no nesting. */
  lemma TrimmedNests(nodes: seq<Node>)
    ensures NestNodes(TrimLast(nodes)) == NestNodes(nodes)
  {
    if nodes != [] && nodes[|nodes| - 1].Text? {
      var n := |nodes| - 1;
      var parts := TrimIndent(nodes[n].parts);
      if parts != [] { assert nodes[n := Text(parts)][..n] == nodes[..n]; }
    }
  }

  lemma GobbledNests(src: string, start: string, nodes: seq<Node>, s: string)
    ensures NestNodes(Gobble(src, start, nodes, s).0) == NestNodes(nodes)
  {
    TrimmedNests(nodes);
    hide NestNodes, TrimLast;
  }

  lemma {:induction false} BlockWithin(src: string, s: string, d: nat)
    requires d <= MAX_TEMPLATE_DEPTH
    ensures var r := ParseBlock(src, s, d); r.Done? ==> d + 1 + NestNodes(r.value.nodes) <= MAX_TEMPLATE_DEPTH
    decreases MAX_TEMPLATE_DEPTH - d, 0, |s|
  {
    hide BlockNodes;
    if d < MAX_TEMPLATE_DEPTH { NodesWithin(src, s, d + 1, []); }
  }

  lemma {:induction false} NodesWithin(src: string, s: string, d: nat, done: seq<Node>)
    requires d <= MAX_TEMPLATE_DEPTH && d + NestNodes(done) <= MAX_TEMPLATE_DEPTH
    ensures var r := BlockNodes(src, s, d, done); r.Done? ==> d + NestNodes(r.value.nodes) <= MAX_TEMPLATE_DEPTH
    decreases MAX_TEMPLATE_DEPTH - d, 9, |s|
  {
    hide PlainLen, Reference, Hash, Escape, AppendText, NestNodes, NestChain;
    if s != "" {
      var n := PlainLen(s);
      var nodes, t := AppendText(done, s[..n]), s[n..];
      MoreText(done, s[..n]);
      if t != "" {
        if t[0] == '\\' {
          var (text, s1) := Escape(t);
          MoreText(nodes, text);
          NodesWithin(src, s1, d, AppendText(nodes, text));
        } else if t[0] == '$' {
          ReferenceWithin(t, d);
          var ref := Reference(t, d);
          if ref.Done? && ref.value.None? {
            MoreText(nodes, "$");
            NodesWithin(src, t[1..], d, AppendText(nodes, "$"));
          } else if ref.Done? {
            MoreNodes(nodes, RefNode(ref.value.value.0, ref.value.value.1));
            NodesWithin(src, ref.rest, d, nodes + [RefNode(ref.value.value.0, ref.value.value.1)]);
          }
        } else {
          HashWithin(src, t, d, nodes);
          var block := Hash(src, t, d, nodes);
          if block.Done? && block.value.term.NoTerm? { NodesWithin(src, block.rest, d, block.value.nodes); }
        }
      }
    }
  }

  lemma {:induction false} HashWithin(src: string, s: string, d: nat, nodes: seq<Node>)
    requires s != "" && s[0] == '#' && d <= MAX_TEMPLATE_DEPTH && d + NestNodes(nodes) <= MAX_TEMPLATE_DEPTH
    ensures var r := Hash(src, s, d, nodes); r.Done? ==> d + NestNodes(r.value.nodes) <= MAX_TEMPLATE_DEPTH
    decreases MAX_TEMPLATE_DEPTH - d, 8, |s|
  {
    hide Directive, DirectiveName, AppendText, NestNodes, Scan.Index, Gobble;
    if PairAt('#', '#', s) {
    } else if PairAt('#', '*', s) {
      var end := Scan.Index(s[2..], "*#");
      if end.Some? { GobbledNests(src, s, nodes, s[end.value + 4..]); }
    } else if PairAt('#', '[', s) && Peek(s[2..]) == '[' {
      var end := Scan.Index(s, "]]#");
      if end.Some? && end.value >= 3 { MoreText(nodes, s[3..end.value]); }
    } else {
      var (name, braced, s1) := DirectiveName(s);
      MoreText(nodes, "#");
      DirectiveWithin(src, s, name, s1, d, nodes);
      if Peek(s1) == '}' { DirectiveWithin(src, s, name, s1[1..], d, nodes); }
    }
  }

  lemma {:induction false} DirectiveWithin(src: string, start: string, name: string, s: string, d: nat,
                                           nodes: seq<Node>)
    requires d <= MAX_TEMPLATE_DEPTH && d + NestNodes(nodes) <= MAX_TEMPLATE_DEPTH
    ensures var r := Directive(src, start, name, s, d, nodes);
      r.Done? ==> d + NestNodes(r.value.nodes) <= MAX_TEMPLATE_DEPTH
    decreases MAX_TEMPLATE_DEPTH - d, 7, |s|
  {
    hide If, Foreach, Return, Simple, WithNode, Gobble, NestNodes, NestNode;
    GobbledNests(src, start, nodes, s);
    IfWithin(src, start, s, d, nodes);
    ForeachWithin(src, start, s, d, nodes);
    ReturnWithin(src, start, s, d, nodes);
    SimpleWithin(name, s, d);
    var simple := Simple(name, s, d);
    if simple.Done? { WithNodeNests(src, start, nodes, simple.value, simple.rest); }
  }

  lemma WithNodeNests(src: string, start: string, nodes: seq<Node>, node: Node, s: string)
    ensures NestNodes(WithNode(src, start, nodes, node, s).value.nodes) == Max(NestNodes(nodes), NestNode(node))
  {
    hide NestNode, NestNodes, Gobble;
    GobbledNests(src, start, nodes, s);
    MoreNodes(Gobble(src, start, nodes, s).0, node);
  }

  lemma {:induction false} SimpleWithin(name: string, s: string, d: nat)
    requires d <= MAX_TEMPLATE_DEPTH
    ensures Simple(name, s, d).Done? ==> d + NestNode(Simple(name, s, d).value) <= MAX_TEMPLATE_DEPTH
    decreases MAX_TEMPLATE_DEPTH - d, 6, |s|
  {
    hide Set;
    SetWithin(s, d);
  }

  lemma {:induction false} SetWithin(s: string, d: nat)
    requires d <= MAX_TEMPLATE_DEPTH
    ensures Set(s, d).Done? ==> d + NestNode(Set(s, d).value) <= MAX_TEMPLATE_DEPTH
    decreases MAX_TEMPLATE_DEPTH - d, 5, |s|
  {
    hide Expect, Reference, Expression, SkipSpace, Nest, NestChain;
    var open := Expect('(', s);
    if open.Done? {
      ReferenceWithin(SkipSpace(open.rest), d);
      var target := Reference(SkipSpace(open.rest), d);
      if target.Done? {
        var t := SkipSpace(target.rest);
        if Peek(t) == '=' { ExpressionWithin(t[1..], d); }
      }
    }
  }

  lemma {:induction false} ConditionWithin(s: string, d: nat)
    requires d <= MAX_TEMPLATE_DEPTH
    ensures Condition(s, d).Done? ==> d + 1 + Nest(Condition(s, d).value) <= MAX_TEMPLATE_DEPTH
    decreases MAX_TEMPLATE_DEPTH - d, 1, |s|
  {
    hide Expect, Expression, Nest;
    var open := Expect('(', s);
    if open.Done? { ExpressionWithin(open.rest, d); }
  }

  lemma {:induction false} IfWithin(src: string, start: string, s: string, d: nat, nodes: seq<Node>)
    requires d <= MAX_TEMPLATE_DEPTH && d + NestNodes(nodes) <= MAX_TEMPLATE_DEPTH
    ensures var r := If(src, start, s, d, nodes); r.Done? ==> d + NestNodes(r.value.nodes) <= MAX_TEMPLATE_DEPTH
    decreases MAX_TEMPLATE_DEPTH - d, 6, |s|
  {
    hide Condition, IfBranches, Gobble, Nest, NestNode, NestNodes;
    ConditionWithin(s, d);
    var cond := Condition(s, d);
    if cond.Done? {
      var (kept, s2) := Gobble(src, start, nodes, cond.rest);
      GobbledNests(src, start, nodes, cond.rest);
      NoBranches();
      BranchesWithin(src, cond.value, s2, d, []);
      var node := IfBranches(src, cond.value, s2, d, []);
      if node.Done? { MoreNodes(kept, node.value); }
    }
  }

  lemma NoBranches()
    ensures NestBranches([]) == 0
  {
  }

  lemma {:induction false} BranchesWithin(src: string, cond: Expr, s: string, d: nat, done: seq<Branch>)
    requires d <= MAX_TEMPLATE_DEPTH && d + 1 + Nest(cond) <= MAX_TEMPLATE_DEPTH
    requires d + NestBranches(done) <= MAX_TEMPLATE_DEPTH
    ensures var r := IfBranches(src, cond, s, d, done); r.Done? ==> d + NestNode(r.value) <= MAX_TEMPLATE_DEPTH
    decreases MAX_TEMPLATE_DEPTH - d, 5, |s|
  {
    hide ParseBlock, Condition, Gobble, Nest, NestNodes;
    BlockWithin(src, s, d);
    var block := ParseBlock(src, s, d);
    if block.Done? {
      if block.value.term.ElseIfTerm? {
        ConditionWithin(block.rest, d);
        var next := Condition(block.rest, d);
        if next.Done? {
          var (body, s3) := Gobble(src, block.value.start, block.value.nodes, next.rest);
          GobbledNests(src, block.value.start, block.value.nodes, next.rest);
          MoreBranches(done, Branch(cond, body));
          hide NestBranches;
          BranchesWithin(src, next.value, s3, d, done + [Branch(cond, body)]);
        }
      } else {
        MoreBranches(done, Branch(cond, block.value.nodes));
        hide NestBranches;
        if block.value.term.ElseTerm? { BlockWithin(src, block.rest, d); }
      }
    }
  }

  lemma {:induction false} ForeachWithin(src: string, start: string, s: string, d: nat, nodes: seq<Node>)
    requires d <= MAX_TEMPLATE_DEPTH && d + NestNodes(nodes) <= MAX_TEMPLATE_DEPTH
    ensures var r := Foreach(src, start, s, d, nodes); r.Done? ==> d + NestNodes(r.value.nodes) <= MAX_TEMPLATE_DEPTH
    decreases MAX_TEMPLATE_DEPTH - d, 6, |s|
  {
    hide ForeachHead, ParseBlock, Gobble, Nest, NestNodes;
    HeadWithin(s, d);
    var head := ForeachHead(s, d);
    if head.Done? {
      var (kept, s2) := Gobble(src, start, nodes, head.rest);
      GobbledNests(src, start, nodes, head.rest);
      BlockWithin(src, s2, d);
      var block := ParseBlock(src, s2, d);
      if block.Done? { MoreNodes(kept, ForeachNode(head.value.0, head.value.1, block.value.nodes)); }
    }
  }

  lemma {:induction false} HeadWithin(s: string, d: nat)
    requires d <= MAX_TEMPLATE_DEPTH
    ensures ForeachHead(s, d).Done? ==> d + 1 + Nest(ForeachHead(s, d).value.1) <= MAX_TEMPLATE_DEPTH
    decreases MAX_TEMPLATE_DEPTH - d, 5, |s|
  {
    hide LoopVariable, Expression, Expect, SkipSpace, Nest;
    var name := LoopVariable(s, d);
    if name.Done? {
      var t := SkipSpace(name.rest);
      if WordAt("in", t) { ExpressionWithin(t[2..], d); }
    }
  }

  lemma {:induction false} ReturnWithin(src: string, start: string, s: string, d: nat, nodes: seq<Node>)
    requires d <= MAX_TEMPLATE_DEPTH && d + NestNodes(nodes) <= MAX_TEMPLATE_DEPTH
    ensures var r := Return(src, start, s, d, nodes); r.Done? ==> d + NestNodes(r.value.nodes) <= MAX_TEMPLATE_DEPTH
    decreases MAX_TEMPLATE_DEPTH - d, 6, |s|
  {
    hide ReturnValue, WithNode, SkipSpace, Nest, NestNodes;
    var t := SkipSpace(s);
    if Peek(t) == '(' {
      ResultWithin(SkipSpace(t[1..]), d);
      var result := ReturnValue(SkipSpace(t[1..]), d);
      if result.Done? { WithNodeNests(src, start, nodes, ReturnNode(result.value), result.rest); }
    } else {
      WithNodeNests(src, start, nodes, ReturnNode(None), s);
    }
  }

  lemma {:induction false} ResultWithin(s: string, d: nat)
    requires d <= MAX_TEMPLATE_DEPTH
    ensures var r := ReturnValue(s, d); r.Done? ==> d + NestNode(ReturnNode(r.value)) <= MAX_TEMPLATE_DEPTH
    decreases MAX_TEMPLATE_DEPTH - d, 5, |s|
  {
    hide Expression, Expect, Nest;
    if Peek(s) != ')' { ExpressionWithin(s, d); }
  }

  /** Whatever Parse accepts nests within the limit, the template itself counted as the first level. */
  lemma ParsedWithinLimit(src: string)
    requires Template(src).Ok?
    ensures 1 + NestNodes(Template(src).value) <= MAX_TEMPLATE_DEPTH
  {
    hide ParseBlock, NestNodes;
    BlockWithin(src, src, 0);
  }
}
