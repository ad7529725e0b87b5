/**
 What goes with a directive alone on its line (internal/vtl/parse.go:97-390), for every place of a template at
 which a block looks for its next '#'.
 */
module Indents {
  import opened Common
  import opened Ast
  import opened Scan
  import opened Grammar
  import opened Lines
  import opened UnreadText

  // ---- The text nodes

  /** The text that is the last node. */
  function LastText(nodes: seq<Node>): string {
    if nodes != [] && nodes[|nodes| - 1].Text? then Concat(nodes[|nodes| - 1].parts) else ""
  }

  /** All text of a block, without that of its directives. */
  function AllText(nodes: seq<Node>): string {
    if nodes == [] then ""
    else
      var n := |nodes| - 1;
      AllText(nodes[..n]) + if nodes[n].Text? then Concat(nodes[n].parts) else ""
  }

  /** No text follows a text. */
  ghost predicate Joined(nodes: seq<Node>) {
    var n := |nodes| - 1;
    n > 0 ==> Joined(nodes[..n]) && !(nodes[n - 1].Text? && nodes[n].Text?)
  }

  lemma AppendedText(nodes: seq<Node>, x: string)
    ensures LastText(AppendText(nodes, x)) == LastText(nodes) + x
  {
    if x == "" {
      assert LastText(nodes) + x == LastText(nodes);
    } else if nodes != [] && nodes[|nodes| - 1].Text? {
      var parts := nodes[|nodes| - 1].parts;
      assert (parts + [x])[..|parts|] == parts;
      hide AppendText;
      assert Concat(parts + [x]) == Concat(parts) + x;
      LastIs(nodes, x);
    } else {
      assert [x][..0] == [];
      assert Concat([x]) == x;
    }
  }

  lemma LastIs(nodes: seq<Node>, x: string)
    requires x != "" && nodes != [] && nodes[|nodes| - 1].Text?
    ensures LastText(AppendText(nodes, x)) == Concat(nodes[|nodes| - 1].parts + [x])
  {
    hide Concat;
  }

  lemma OneMoreNode(nodes: seq<Node>, n: Node)
    requires Joined(nodes) && (nodes != [] && nodes[|nodes| - 1].Text? ==> !n.Text?)
    ensures Joined(nodes + [n])
  {
    assert (nodes + [n])[..|nodes|] == nodes;
  }

  lemma OtherText(nodes: seq<Node>, parts: seq<string>)
    requires Joined(nodes) && nodes != [] && nodes[|nodes| - 1].Text?
    ensures Joined(nodes[|nodes| - 1 := Text(parts)])
  {
    assert nodes[|nodes| - 1 := Text(parts)][..|nodes| - 1] == nodes[..|nodes| - 1];
  }

  lemma AppendedJoins(nodes: seq<Node>, x: string)
    requires Joined(nodes)
    ensures Joined(AppendText(nodes, x))
  {
    hide Joined;
    if nodes != [] && nodes[|nodes| - 1].Text? {
      OtherText(nodes, nodes[|nodes| - 1].parts + [x]);
    } else {
      OneMoreNode(nodes, Text([x]));
    }
  }

  /** The blanks at the end of the last text go, and nothing else. */
  lemma TrimmedText(nodes: seq<Node>)
    ensures exists front :: Splits(nodes, front)
  {
    if nodes == [] || !nodes[|nodes| - 1].Text? {
      assert AllText(nodes) + "" == AllText(nodes);
      assert TrimBlanks("") == "";
      assert Splits(nodes, AllText(nodes));
    } else {
      var n := |nodes| - 1;
      var front, parts := AllText(nodes[..n]), nodes[n].parts;
      PartsTrimTogether(parts);
      OneText(nodes);
      if TrimIndent(parts) == [] {
        assert Concat([]) == "";
        assert front + "" == front;
      } else {
        var kept := nodes[n := Text(TrimIndent(parts))];
        assert kept[..n] == nodes[..n];
        OneText(kept);
      }
      hide AllText, TrimIndent, Concat, TrimBlanks;
      assert Splits(nodes, front);
    }
  }

  lemma OneText(nodes: seq<Node>)
    requires nodes != [] && nodes[|nodes| - 1].Text?
    ensures AllText(nodes) == AllText(nodes[..|nodes| - 1]) + Concat(nodes[|nodes| - 1].parts)
  {
  }

  /** A block's text in front of its last text, which is trimmed. */
  ghost predicate Splits(nodes: seq<Node>, front: string) {
    AllText(nodes) == front + LastText(nodes) && AllText(TrimLast(nodes)) == front + TrimBlanks(LastText(nodes))
  }

  lemma {:induction false} TrimmedEnd(s: string)
    ensures !EndsInBlank(TrimBlanks(s))
  {
    if EndsInBlank(s) { TrimmedEnd(s[..|s| - 1]); }
  }

  lemma TrimmedLast(nodes: seq<Node>)
    requires Joined(nodes)
    ensures Joined(TrimLast(nodes)) && !EndsInBlank(LastText(TrimLast(nodes)))
  {
    if nodes != [] && nodes[|nodes| - 1].Text? {
      var parts := nodes[|nodes| - 1].parts;
      PartsTrimTogether(parts);
      TrimmedEnd(Concat(parts));
      OtherText(nodes, TrimIndent(parts));
    }
    hide TrimIndent, TrimBlanks, Concat;
  }

  // ---- The places a block comes to

  /** A place of a block: what is unread there, and the nodes before it. */
  datatype Place = Place(s: string, done: seq<Node>)

  /** The nodes in front of the next '$', '#' or backslash. */
  function Front(v: Place): seq<Node> { AppendText(v.done, v.s[..PlainLen(v.s)]) }

  /** What is left from there on. */
  function At(v: Place): string { v.s[PlainLen(v.s)..] }

  /** Where the block goes on behind what stands there. */
  function Next(src: string, d: nat, v: Place): Option<Place>
    requires d <= MAX_TEMPLATE_DEPTH
  {
    var nodes, t := Front(v), At(v);
    if t == "" then None
    else if t[0] == '\\' then Some(Place(Escape(t).1, AppendText(nodes, Escape(t).0)))
    else if t[0] == '$' then
      match Reference(t, d)
      case Fail(_) => None
      case Done(None, _) => Some(Place(t[1..], AppendText(nodes, "$")))
      case Done(Some((ref, quiet)), rest) => Some(Place(rest, nodes + [RefNode(ref, quiet)]))
    else
      match Hash(src, t, d, nodes)
      case Fail(_) => None
      case Done(block, rest) => if block.term.NoTerm? then Some(Place(rest, block.nodes)) else None
  }

  lemma NextIsCall(src: string, d: nat, v: Place)
    requires d <= MAX_TEMPLATE_DEPTH && Next(src, d, v).Some?
    ensures var w := Next(src, d, v).value;
      BlockNodes(src, v.s, d, v.done) == BlockNodes(src, w.s, d, w.done) && |w.s| < |v.s|
  {
    hide PlainLen, Hash, Reference, Escape, AppendText;
  }

  /** The places of a block, from its start on. */
  ghost predicate Places(src: string, d: nat, vs: seq<Place>)
    requires d <= MAX_TEMPLATE_DEPTH
    decreases |vs|
  {
    var n := |vs| - 1;
    n >= 0 && if n == 0 then vs[0].done == [] else Places(src, d, vs[..n]) && Next(src, d, vs[n - 1]) == Some(vs[n])
  }

  /** The block read from its start on is the block read from any of its places on. */
  lemma {:induction false} PlacesAreCalls(src: string, d: nat, vs: seq<Place>)
    requires d <= MAX_TEMPLATE_DEPTH && Places(src, d, vs)
    ensures var v := vs[|vs| - 1]; BlockNodes(src, vs[0].s, d, []) == BlockNodes(src, v.s, d, v.done)
    decreases |vs|
  {
    hide BlockNodes, Next;
    if |vs| > 1 {
      PlacesAreCalls(src, d, vs[..|vs| - 1]);
      NextIsCall(src, d, vs[|vs| - 2]);
    }
  }

  /** A place's unread text is behind no blank of the source, and its texts are joined. */
  ghost predicate Tidy(src: string, v: Place) { CleanEnd(v.s, src) && Joined(v.done) }

  lemma {:induction false} PlacesTidy(src: string, d: nat, vs: seq<Place>)
    requires d <= MAX_TEMPLATE_DEPTH && Places(src, d, vs) && CleanEnd(vs[0].s, src)
    ensures Tidy(src, vs[|vs| - 1])
    decreases |vs|
  {
    hide Next, CleanEnd;
    if |vs| > 1 {
      hide Tidy;
      PlacesTidy(src, d, vs[..|vs| - 1]);
      NextTidy(src, d, vs[|vs| - 2]);
    }
  }

  lemma NextTidy(src: string, d: nat, v: Place)
    requires d <= MAX_TEMPLATE_DEPTH && Tidy(src, v) && Next(src, d, v).Some?
    ensures Tidy(src, Next(src, d, v).value)
  {
    NextClean(src, d, v);
    NextJoined(src, d, v);
    hide Next, CleanEnd, Joined;
  }

  lemma NextClean(src: string, d: nat, v: Place)
    requires d <= MAX_TEMPLATE_DEPTH && CleanEnd(v.s, src) && Next(src, d, v).Some?
    ensures CleanEnd(Next(src, d, v).value.s, src)
  {
    hide PlainLen, Hash, Reference, Escape, AppendText, CleanEnd;
    PieceClean(src, v.s, PlainLen(v.s), d, Front(v));
    CleanTrans(Next(src, d, v).value.s, v.s, src);
  }

  lemma NextJoined(src: string, d: nat, v: Place)
    requires d <= MAX_TEMPLATE_DEPTH && Joined(v.done) && Next(src, d, v).Some?
    ensures Joined(Next(src, d, v).value.done)
  {
    hide PlainLen, Hash, Reference, Escape, AppendText, Joined;
    var nodes, t := Front(v), At(v);
    AppendedJoins(v.done, v.s[..PlainLen(v.s)]);
    if t[0] == '\\' {
      AppendedJoins(nodes, Escape(t).0);
    } else if t[0] == '$' {
      AppendedJoins(nodes, "$");
      var ref := Reference(t, d);
      if ref.value.Some? { OneMoreNode(nodes, RefNode(ref.value.value.0, ref.value.value.1)); }
    } else {
      HashJoined(src, t, d, nodes);
    }
  }

  lemma HashJoined(src: string, s: string, d: nat, nodes: seq<Node>)
    requires s != "" && s[0] == '#' && d <= MAX_TEMPLATE_DEPTH && Joined(nodes)
    ensures var r := Hash(src, s, d, nodes); r.Done? && r.value.term.NoTerm? ==> Joined(r.value.nodes)
  {
    hide AppendText, Directive, DirectiveName, Scan.Index, Alone, LineRest, TrimLast, Joined, LastText, IsKnown,
         IsUnsupported, Adds;
    if PairAt('#', '#', s) {
    } else if PairAt('#', '*', s) {
      TrimmedLast(nodes);
    } else if PairAt('#', '[', s) && Peek(s[2..]) == '[' {
      var end := Scan.Index(s, "]]#");
      if end.Some? && end.value >= 3 { AppendedJoins(nodes, s[3..end.value]); }
    } else {
      DirectivePart(src, s, d, nodes);
    }
  }

  /** A '#' of no comment: a terminator, a node of its own, or a text that is no blank. */
  lemma DirectivePart(src: string, s: string, d: nat, nodes: seq<Node>)
    requires s != "" && s[0] == '#' && d <= MAX_TEMPLATE_DEPTH && Joined(nodes)
    requires !PairAt('#', '#', s) && !PairAt('#', '*', s) && !(PairAt('#', '[', s) && Peek(s[2..]) == '[')
    ensures var r := Hash(src, s, d, nodes);
      r.Done? && r.value.term.NoTerm? ==> Joined(r.value.nodes) && !EndsInBlank(LastText(r.value.nodes))
  {
    hide AppendText, Directive, DirectiveName, Joined, LastText, IsKnown, IsUnsupported, Adds;
    AppendedJoins(nodes, "#");
    AppendedText(nodes, "#");
    var (name, braced, s1) := DirectiveName(s);
    DirectiveAdds(src, s, name, s1, d, nodes);
    AddsEnd(nodes, Directive(src, s, name, s1, d, nodes));
    if Peek(s1) == '}' {
      DirectiveAdds(src, s, name, s1[1..], d, nodes);
      AddsEnd(nodes, Directive(src, s, name, s1[1..], d, nodes));
    }
  }

  lemma AddsEnd(nodes: seq<Node>, r: Parsed<Block>)
    requires Adds(nodes, r)
    ensures r.Done? && r.value.term.NoTerm? && Joined(nodes) ==>
      Joined(r.value.nodes) && !EndsInBlank(LastText(r.value.nodes))
  {
    hide Joined;
  }

  /** A directive that ends no block adds a node of its own to what is in front of it. */
  ghost predicate Adds(nodes: seq<Node>, r: Parsed<Block>) {
    r.Done? && r.value.term.NoTerm? ==>
      var added := r.value.nodes;
      added != [] && !added[|added| - 1].Text? && (Joined(nodes) ==> Joined(added))
  }

  lemma DirectiveAdds(src: string, start: string, name: string, s: string, d: nat, nodes: seq<Node>)
    requires d <= MAX_TEMPLATE_DEPTH
    ensures Adds(nodes, Directive(src, start, name, s, d, nodes))
  {
    var simple := Simple(name, s, d);
    if simple.Done? {
      SimpleIsNoText(name, s, d);
      WithNodeAdds(src, start, nodes, simple.value, simple.rest);
    }
    IfAdds(src, start, s, d, nodes);
    ForeachAdds(src, start, s, d, nodes);
    ReturnAdds(src, start, s, d, nodes);
    TerminatorAdds(src, start, name, s, d, nodes);
    hide Gobble, WithNode, Simple, If, Foreach, Return, Adds;
  }

  lemma TerminatorAdds(src: string, start: string, name: string, s: string, d: nat, nodes: seq<Node>)
    requires d <= MAX_TEMPLATE_DEPTH
    ensures name == "else" || name == "end" || name == "elseif" ==>
      Adds(nodes, Directive(src, start, name, s, d, nodes))
  {
    hide Gobble, WithNode, Simple, If, Foreach, Return;
  }

  /** A node behind what is kept of those in front of its directive. */
  lemma NodeAdds(src: string, start: string, nodes: seq<Node>, s: string, node: Node, rest: string)
    requires !node.Text?
    ensures Adds(nodes, Done(Block(Gobble(src, start, nodes, s).0 + [node], NoTerm, ""), rest))
  {
    var kept := Gobble(src, start, nodes, s).0;
    if Joined(nodes) {
      TrimmedLast(nodes);
      OneMoreNode(kept, node);
    }
    hide TrimLast, Alone, LineRest, Joined;
  }

  lemma WithNodeAdds(src: string, start: string, nodes: seq<Node>, node: Node, s: string)
    requires !node.Text?
    ensures Adds(nodes, WithNode(src, start, nodes, node, s))
  {
    NodeAdds(src, start, nodes, s, node, Gobble(src, start, nodes, s).1);
    hide Gobble, Adds;
  }

  lemma SimpleIsNoText(name: string, s: string, d: nat)
    requires d <= MAX_TEMPLATE_DEPTH && Simple(name, s, d).Done?
    ensures !Simple(name, s, d).value.Text?
  {
    hide Expect, Reference, Expression;
  }

  lemma IfAdds(src: string, start: string, s: string, d: nat, nodes: seq<Node>)
    requires d <= MAX_TEMPLATE_DEPTH
    ensures Adds(nodes, If(src, start, s, d, nodes))
  {
    var cond := Condition(s, d);
    if cond.Done? {
      var s2 := Gobble(src, start, nodes, cond.rest).1;
      BranchesAreNoText(src, cond.value, s2, d, []);
      var node := IfBranches(src, cond.value, s2, d, []);
      if node.Done? { NodeAdds(src, start, nodes, cond.rest, node.value, node.rest); }
    }
    hide Gobble, Condition, IfBranches, Joined;
  }

  lemma {:induction false} BranchesAreNoText(src: string, cond: Expr, s: string, d: nat, done: seq<Branch>)
    requires d <= MAX_TEMPLATE_DEPTH
    ensures var r := IfBranches(src, cond, s, d, done); r.Done? ==> r.value.IfNode?
    decreases |s|
  {
    hide ParseBlock, Condition, Gobble;
    var block := ParseBlock(src, s, d);
    if block.Done? && block.value.term.ElseIfTerm? {
      var next := Condition(block.rest, d);
      if next.Done? {
        var (body, s3) := Gobble(src, block.value.start, block.value.nodes, next.rest);
        BranchesAreNoText(src, next.value, s3, d, done + [Branch(cond, body)]);
      }
    }
  }

  lemma ForeachAdds(src: string, start: string, s: string, d: nat, nodes: seq<Node>)
    requires d <= MAX_TEMPLATE_DEPTH
    ensures Adds(nodes, Foreach(src, start, s, d, nodes))
  {
    var head := ForeachHead(s, d);
    if head.Done? {
      var block := ParseBlock(src, Gobble(src, start, nodes, head.rest).1, d);
      if block.Done? {
        var node := ForeachNode(head.value.0, head.value.1, block.value.nodes);
        NodeAdds(src, start, nodes, head.rest, node, block.rest);
      }
    }
    hide Gobble, ForeachHead, ParseBlock, Joined;
  }

  lemma ReturnAdds(src: string, start: string, s: string, d: nat, nodes: seq<Node>)
    requires d <= MAX_TEMPLATE_DEPTH
    ensures Adds(nodes, Return(src, start, s, d, nodes))
  {
    var t := SkipSpace(s);
    var result := ReturnValue(SkipSpace(if t == "" then t else t[1..]), d);
    WithNodeAdds(src, start, nodes, ReturnNode(None), s);
    if result.Done? { WithNodeAdds(src, start, nodes, ReturnNode(result.value), result.rest); }
    hide WithNode, ReturnValue, SkipSpace, Adds;
  }

  // ---- What is taken with a directive

  /** No line ends between a place and what stands there. */
  predicate OneLine(v: Place) { '\n' !in v.s[..PlainLen(v.s)] }

  /** A comment to the end of the line stands here. */
  predicate AtComment(v: Place) { PairAt('#', '#', At(v)) }

  lemma EndNotBlank(s: string, x: string)
    requires x != "" && !IsBlank(x[|x| - 1])
    ensures !EndsInBlank(s + x)
  {
  }

  /** Comments and unparsed blocks end in a '#'. */
  lemma ClosersEnd(s: string)
    ensures |s| > 1 && Scan.Index(s[2..], "*#").Some? ==> s[Scan.Index(s[2..], "*#").value + 3] == '#'
    ensures Scan.Index(s, "]]#").Some? ==> s[Scan.Index(s, "]]#").value + 2] == '#'
  {
    if |s| > 1 && Scan.Index(s[2..], "*#").Some? {
      var i := Scan.Index(s[2..], "*#").value;
      assert s[2..][i..][1] == s[2..][i + 1];
    }
    if Scan.Index(s, "]]#").Some? { assert s[Scan.Index(s, "]]#").value..][2] == '#'; }
    hide Scan.Index;
  }

  /** A '#' behind which a new line begins leaves a blank in front of it only as a comment to the line's end. */
  lemma HashLeavesBlank(src: string, s: string, d: nat, nodes: seq<Node>)
    requires s != "" && s[0] == '#' && d <= MAX_TEMPLATE_DEPTH && Joined(nodes)
    requires Hash(src, s, d, nodes).Done? && Hash(src, s, d, nodes).value.term.NoTerm?
    requires s[|s| - |Hash(src, s, d, nodes).rest| - 1] == '\n' && Hash(src, s, d, nodes).rest != ""
    ensures EndsInBlank(LastText(Hash(src, s, d, nodes).value.nodes)) <==>
            PairAt('#', '#', s) && EndsInBlank(LastText(nodes))
  {
    hide AppendText, Directive, DirectiveName, Scan.Index, BlankBefore, LineRest, TrimLast, Joined, LastText, IsKnown,
         IsUnsupported, EndsInBlank;
    ClosersEnd(s);
    if PairAt('#', '#', s) {
    } else if PairAt('#', '*', s) {
      TrimmedLast(nodes);
    } else if PairAt('#', '[', s) && Peek(s[2..]) == '[' {
    } else {
      DirectivePart(src, s, d, nodes);
    }
  }

  /** Of the places from which a block goes on at a new line, a comment alone leaves a blank in front of it. */
  lemma NextLeavesBlank(src: string, d: nat, u: Place)
    requires d <= MAX_TEMPLATE_DEPTH && Joined(u.done) && Next(src, d, u).Some? && Next(src, d, u).value.s != ""
    requires |Next(src, d, u).value.s| < |u.s| && u.s[|u.s| - |Next(src, d, u).value.s| - 1] == '\n'
    ensures EndsInBlank(LastText(Next(src, d, u).value.done)) <==> AtComment(u) && EndsInBlank(LastText(Front(u)))
  {
    hide PlainLen, Hash, Reference, AppendText, Joined, LastText, EndsInBlank;
    var n, nodes, t := PlainLen(u.s), Front(u), At(u);
    AppendedJoins(u.done, u.s[..n]);
    if t[0] == '\\' {
      EscapedEnd(nodes, t);
    } else if t[0] == '$' {
      AppendedText(nodes, "$");
      EndNotBlank(LastText(nodes), "$");
      NoTextEnd(nodes, t, d);
    } else {
      assert u.s[n..][|t| - |Hash(src, t, d, nodes).rest| - 1] == '\n';
      HashLeavesBlank(src, t, d, nodes);
    }
  }

  lemma EscapedEnd(nodes: seq<Node>, t: string)
    requires t != "" && t[0] == '\\'
    ensures !EndsInBlank(LastText(AppendText(nodes, Escape(t).0)))
  {
    AppendedText(nodes, Escape(t).0);
    EndNotBlank(LastText(nodes), Escape(t).0);
    hide AppendText, LastText, EndsInBlank;
  }

  lemma NoTextEnd(nodes: seq<Node>, t: string, d: nat)
    requires d <= MAX_TEMPLATE_DEPTH
    ensures var r := Reference(t, d); r.Done? && r.value.Some? ==>
      !EndsInBlank(LastText(nodes + [RefNode(r.value.value.0, r.value.value.1)]))
  {
    hide Reference;
  }

  /** The next '$', '#' or backslash is at i of the source, with only blanks in front of it from k on. */
  ghost predicate IndentAt(src: string, v: Place, k: nat, i: nat) {
    At(v) != "" && i + |At(v)| == |src| && IndentFrom(src, k, i)
  }

  lemma AllAreBlank(src: string, k: nat, i: nat)
    requires IndentFrom(src, k, i)
    ensures forall j :: k <= j < i ==> IsBlank(src[j])
  {
    forall j | k <= j < i ensures IsBlank(src[j]) { assert src[k..i][j - k] == src[j]; }
  }

  /** The indentation starts at or behind the place. */
  lemma IndentBehind(src: string, v: Place, k: nat, i: nat)
    requires CleanEnd(v.s, src) && IndentAt(src, v, k, i)
    ensures |v.s| <= |src| && |src| - |v.s| <= k
  {
    hide PlainLen;
    AllAreBlank(src, k, i);
    hide AllBlank;
  }

  lemma SplitAt(src: string, p: nat, k: nat, i: nat)
    requires p <= k <= i <= |src|
    ensures src[p..][..i - p] == src[p..k] + src[k..i]
  {
  }

  /** It is the end of the text there. */
  lemma IndentInText(src: string, v: Place, k: nat, i: nat)
    requires CleanEnd(v.s, src) && IndentAt(src, v, k, i)
    ensures |v.s| <= |src| && |src| - |v.s| <= k
    ensures v.s[..PlainLen(v.s)] == src[|src| - |v.s|..k] + src[k..i]
  {
    IndentBehind(src, v, k, i);
    SplitAt(src, |src| - |v.s|, k, i);
    hide PlainLen, AllBlank;
  }

  /**
   The text in front of a directive's line ends in a blank exactly when it is that of a comment to the end of
   the line before.
   */
  ghost predicate AfterBlankComment(vs: seq<Place>)
    requires vs != []
  {
    var n := |vs| - 1;
    && n > 0
    && AtComment(vs[n - 1]) && EndsInBlank(LastText(Front(vs[n - 1])))
    && OneLine(vs[n])
  }

  /** The text in front of the indentation. */
  ghost function Before(src: string, v: Place, k: nat): string
    requires |v.s| <= |src| && |src| - |v.s| <= k <= |src|
  {
    LastText(v.done) + src[|src| - |v.s|..k]
  }

  lemma NotOneLine(vs: seq<Place>)
    requires vs != [] && !OneLine(vs[|vs| - 1])
    ensures !AfterBlankComment(vs)
  {
  }

  lemma BlankAtNewLine(src: string, d: nat, vs: seq<Place>)
    requires d <= MAX_TEMPLATE_DEPTH && Places(src, d, vs) && CleanEnd(vs[0].s, src) && OneLine(vs[|vs| - 1])
    requires vs[|vs| - 1].s != "" && |vs[|vs| - 1].s| <= |src|
    requires |vs[|vs| - 1].s| == |src| || src[|src| - |vs[|vs| - 1].s| - 1] == '\n'
    ensures EndsInBlank(LastText(vs[|vs| - 1].done)) <==> AfterBlankComment(vs)
  {
    assert |vs| > 0;
    hide Places, CleanEnd, EndsInBlank, OneLine, AtComment, LastText, Front;
    if |vs| > 1 { AtNewLine(src, d, vs); } else { FirstPlace(src, d, vs); }
  }

  lemma LineInText(src: string, v: Place, k: nat, i: nat)
    requires CleanEnd(v.s, src) && IndentAt(src, v, k, i) && |v.s| <= |src| && |src| - |v.s| < k
    ensures !OneLine(v) && !EndsInBlank(Before(src, v, k))
  {
    IndentInText(src, v, k, i);
    var p := |src| - |v.s|;
    assert src[p..k][k - 1 - p] == src[k - 1] == '\n';
    assert v.s[..PlainLen(v.s)][k - 1 - p] == '\n';
    EndNotBlank(LastText(v.done), src[p..k]);
    hide PlainLen, LastText, CleanEnd, AllBlank, EndsInBlank;
  }

  lemma TextIsIndent(src: string, v: Place, k: nat, i: nat)
    requires CleanEnd(v.s, src) && IndentAt(src, v, k, i) && |v.s| <= |src| && |src| - |v.s| == k
    ensures OneLine(v) && Before(src, v, k) == LastText(v.done)
    ensures v.s != "" && (k == 0 || src[k - 1] == '\n')
  {
    IndentInText(src, v, k, i);
    assert src[k..k] + src[k..i] == src[k..i];
    assert LastText(v.done) + src[k..k] == LastText(v.done);
    assert AllBlank(v.s[..PlainLen(v.s)]);
    hide PlainLen, LastText, CleanEnd;
  }

  lemma FirstPlace(src: string, d: nat, vs: seq<Place>)
    requires d <= MAX_TEMPLATE_DEPTH && Places(src, d, vs) && |vs| == 1
    ensures !EndsInBlank(LastText(vs[0].done))
  {
  }

  lemma CharBehind(src: string, s: string, t: string)
    requires CleanEnd(s, src) && |t| < |s|
    ensures s[|s| - |t| - 1] == src[|src| - |t| - 1]
  {
  }

  lemma AtNewLine(src: string, d: nat, vs: seq<Place>)
    requires d <= MAX_TEMPLATE_DEPTH && Places(src, d, vs) && CleanEnd(vs[0].s, src) && |vs| > 1
    requires vs[|vs| - 1].s != "" && |vs[|vs| - 1].s| <= |src|
    requires |vs[|vs| - 1].s| == |src| || src[|src| - |vs[|vs| - 1].s| - 1] == '\n'
    ensures EndsInBlank(LastText(vs[|vs| - 1].done)) <==>
            AtComment(vs[|vs| - 2]) && EndsInBlank(LastText(Front(vs[|vs| - 2])))
  {
    hide PlainLen, Next, LastText, BlockNodes, Joined, EndsInBlank, AtComment, Front, CleanEnd;
    var u := vs[|vs| - 2];
    PlacesTidy(src, d, vs[..|vs| - 1]);
    hide Places;
    NextIsCall(src, d, u);
    CharBehind(src, u.s, vs[|vs| - 1].s);
    CleanEnds(u.s, src);
    NextLeavesBlank(src, d, u);
  }

  /** Exactly the indentation goes unless the text in front of it ends in a blank. */
  lemma GoesUnlessBlank(src: string, v: Place, k: nat, i: nat, s: string)
    requires CleanEnd(v.s, src) && IndentAt(src, v, k, i) && Alone(src, At(v), s)
    ensures |v.s| <= |src| && |src| - |v.s| <= k
    ensures (AllText(Gobble(src, At(v), Front(v), s).0) + src[k..i] == AllText(Front(v))) <==>
            !EndsInBlank(Before(src, v, k))
  {
    hide PlainLen, Alone, LastText, AllText, TrimLast, TrimBlanks, EndsInBlank, CleanEnd;
    IndentInText(src, v, k, i);
    FrontText(src, v, k, i);
    TrimmedText(Front(v));
    var front :| Splits(Front(v), front);
    TakenExactly(front, Before(src, v, k), src[k..i]);
  }

  /**
   A directive alone on its line takes exactly the indentation of the line with it, at every place of a block,
   unless the line before ends in a comment with a blank in front of it and no other text follows: then that
   blank, of another line, goes as well.
   */
  lemma IndentGoes(src: string, d: nat, vs: seq<Place>, k: nat, i: nat, s: string)
    requires d <= MAX_TEMPLATE_DEPTH && Places(src, d, vs) && CleanEnd(vs[0].s, src)
    requires IndentAt(src, vs[|vs| - 1], k, i) && Alone(src, At(vs[|vs| - 1]), s)
    ensures var v := vs[|vs| - 1];
      (AllText(Gobble(src, At(v), Front(v), s).0) + src[k..i] == AllText(Front(v))) <==> !AfterBlankComment(vs)
  {
    hide Next, Gobble, Alone, LastText, AllText, AfterBlankComment, Tidy, EndsInBlank, Before, OneLine, Front, At,
         IndentAt, CleanEnd;
    PlacesTidy(src, d, vs);
    var v := vs[|vs| - 1];
    hide Places;
    TidyClean(src, v);
    GoesUnlessBlank(src, v, k, i, s);
    if |src| - |v.s| < k {
      LineInText(src, v, k, i);
      NotOneLine(vs);
    } else {
      TextIsIndent(src, v, k, i);
      BlankAtNewLine(src, d, vs);
    }
  }

  lemma JoinedAsOne(x: string, a: string, b: string)
    ensures x + (a + b) == x + a + b
  {
  }

  lemma FrontText(src: string, v: Place, k: nat, i: nat)
    requires CleanEnd(v.s, src) && IndentAt(src, v, k, i) && |v.s| <= |src| && |src| - |v.s| <= k
    ensures LastText(Front(v)) == Before(src, v, k) + src[k..i]
  {
    IndentInText(src, v, k, i);
    AppendedText(v.done, v.s[..PlainLen(v.s)]);
    JoinedAsOne(LastText(v.done), src[|src| - |v.s|..k], src[k..i]);
    hide PlainLen, LastText, AppendText, CleanEnd, IndentFrom, AllBlank, At;
  }

  lemma TidyClean(src: string, v: Place)
    requires Tidy(src, v)
    ensures CleanEnd(v.s, src)
  {
  }

  lemma TakenExactly(front: string, before: string, indent: string)
    requires AllBlank(indent)
    ensures front + TrimBlanks(before + indent) + indent == front + (before + indent) <==> !EndsInBlank(before)
  {
    IndentGoesExactly(before, indent);
    TrimShorter(before);
    JoinedAsOne(front, before, indent);
    hide AllBlank, EndsInBlank, TrimBlanks;
    if front + TrimBlanks(before + indent) + indent == front + (before + indent) {
      SameLength(front, TrimBlanks(before), before, indent);
    }
  }

  lemma SameLength(front: string, a: string, b: string, end: string)
    requires front + a + end == front + (b + end)
    ensures |a| == |b|
  {
    assert |front + a + end| == |front + (b + end)|;
  }

  /** The bodies of a directive start behind no blank, when the directive does. */
  lemma BodiesStartClean(src: string, start: string, s: string, d: nat, nodes: seq<Node>)
    requires d <= MAX_TEMPLATE_DEPTH && CleanEnd(s, src)
    ensures Condition(s, d).Done? ==> CleanEnd(Gobble(src, start, nodes, Condition(s, d).rest).1, src)
    ensures ForeachHead(s, d).Done? ==> CleanEnd(Gobble(src, start, nodes, ForeachHead(s, d).rest).1, src)
    ensures ParseBlock(src, s, d).Done? ==> CleanEnd(ParseBlock(src, s, d).rest, src)
  {
    hide Condition, ForeachHead, ParseBlock, Gobble, CleanEnd;
    ConditionClean(s, d);
    HeadClean(s, d);
    BlockClean(src, s, d);
    GoOn(ParseBlock(src, s, d), s, src);
    var cond, head := Condition(s, d), ForeachHead(s, d);
    if cond.Done? {
      CleanTrans(cond.rest, s, src);
      GobbleBehind(src, start, nodes, cond.rest, src);
    }
    if head.Done? {
      CleanTrans(head.rest, s, src);
      GobbleBehind(src, start, nodes, head.rest, src);
    }
  }
}
