/**
 Writing templates (internal/vtl/parse.go:97-587): the text of a tree of nodes, in front of a text t. Names of
 directives without an argument are braced, and so are references, so that nothing behind them joins them.
 */
module TemplateText {
  import opened Common
  import opened Ast
  import opened Scan
  import opened Grammar
  import opened Printer
  import opened RoundTrip

  const END := "#{end}"

  function PrintNodes(full: bool, nodes: seq<Node>, t: string): string
    decreases nodes, 0
  {
    if nodes == [] then t else PrintNode(full, nodes[0], PrintNodes(full, nodes[1..], t))
  }

  function PrintNode(full: bool, n: Node, t: string): string
    decreases n, 0
  {
    match n
    case Text(parts) => (if parts == [] then "" else parts[0]) + t
    case RefNode(ref, quiet) => (if quiet then "$!{" else "${") + (ref.name + PrintChain(full, ref.chain, "}" + t))
    case SetNode(target, value) =>
      "#set($" + (target.name + PrintChain(full, target.chain, " = " + Print(0, full, value, ")" + t)))
    case IfNode(branches, other) => PrintBranches(full, "if", branches, PrintElse(full, other, t))
    case ForeachNode(name, iter, body) =>
      "#foreach($" + (name + (" in " + Print(0, full, iter, ")" + PrintNodes(full, body, END + t))))
    case BreakNode => "#{break}" + t
    case StopNode => "#{stop}" + t
    case ReturnNode(None) => "#return()" + t
    case ReturnNode(Some(e)) => "#return(" + Print(0, full, e, ")" + t)
  }

  /** The branches of an #if in front of a tail; the first one starts with name. */
  function PrintBranches(full: bool, name: string, branches: seq<Branch>, tail: string): string
    decreases branches, 1
  {
    if branches == [] then tail
    else "#" + (name + ("(" + Print(0, full, branches[0].cond, ")" + PrintBodies(full, branches, tail))))
  }

  /** From the body of the first branch on. */
  function PrintBodies(full: bool, branches: seq<Branch>, tail: string): string
    requires branches != []
    decreases branches, 0
  {
    PrintNodes(full, branches[0].body, PrintBranches(full, "elseif", branches[1..], tail))
  }

  function PrintElse(full: bool, other: ElsePart, t: string): string
    decreases other, 0
  {
    match other
    case NoElse => END + t
    case Else(body) => "#{else}" + PrintNodes(full, body, END + t)
  }

  // ---- Which trees have a text

  /** Text without '$', '#' and backslash. */
  predicate PlainText(s: string) {
    s != "" && forall i :: 0 <= i < |s| ==> s[i] != '$' && s[i] != '#' && s[i] != '\\'
  }

  predicate WritableRef(full: bool, ref: RefExpr) {
    IsIdent(ref.name) && WritableChain(ref.chain) && forall a <- ref.chain :: ChainsFitAccessor(full, a)
  }

  predicate WritableExpr(full: bool, e: Expr) { Writable(e) && ChainsFit(full, e) }

  /** Expressions are writable, a text is one plain piece, and no text follows a text. */
  predicate WritableNodes(full: bool, nodes: seq<Node>)
    decreases nodes, 0
  {
    nodes != [] ==>
      && WritableNode(full, nodes[0]) && WritableNodes(full, nodes[1..])
      && (|nodes| > 1 && nodes[0].Text? ==> !nodes[1].Text?)
  }

  predicate WritableNode(full: bool, n: Node)
    decreases n, 0
  {
    match n
    case Text(parts) => |parts| == 1 && PlainText(parts[0])
    case RefNode(ref, _) => WritableRef(full, ref)
    case SetNode(target, value) => WritableRef(full, target) && WritableExpr(full, value)
    case IfNode(branches, other) => branches != [] && WritableBranches(full, branches) && WritableElse(full, other)
    case ForeachNode(name, iter, body) => IsIdent(name) && WritableExpr(full, iter) && WritableNodes(full, body)
    case BreakNode | StopNode => true
    case ReturnNode(result) => (match result case None => true case Some(e) => WritableExpr(full, e))
  }

  predicate WritableBranches(full: bool, branches: seq<Branch>)
    decreases branches, 0
  {
    branches != [] ==>
      && WritableExpr(full, branches[0].cond) && WritableNodes(full, branches[0].body)
      && WritableBranches(full, branches[1..])
  }

  predicate WritableElse(full: bool, other: ElsePart)
    decreases other, 0
  {
    other.Else? ==> WritableNodes(full, other.body)
  }

  // ---- How much nesting reading the text back takes

  /** Levels below that of the block the nodes are in. */
  function NeedNodes(full: bool, nodes: seq<Node>): nat
    decreases nodes, 0
  {
    if nodes == [] then 0 else Max(NeedNode(full, nodes[0]), NeedNodes(full, nodes[1..]))
  }

  function NeedNode(full: bool, n: Node): nat
    decreases n, 0
  {
    match n
    case Text(_) | BreakNode | StopNode => 0
    case RefNode(ref, _) => NeedChain(full, ref.chain)
    case SetNode(target, value) => Max(NeedChain(full, target.chain), 1 + Need(0, full, value))
    case IfNode(branches, other) => Max(NeedBranches(full, branches), NeedElse(full, other))
    case ForeachNode(_, iter, body) => 1 + Max(Need(0, full, iter), NeedNodes(full, body))
    case ReturnNode(result) => (match result case None => 0 case Some(e) => 1 + Need(0, full, e))
  }

  function NeedBranches(full: bool, branches: seq<Branch>): nat
    decreases branches, 0
  {
    if branches == [] then 0
    else Max(1 + Max(Need(0, full, branches[0].cond), NeedNodes(full, branches[0].body)),
             NeedBranches(full, branches[1..]))
  }

  function NeedElse(full: bool, other: ElsePart): nat
    decreases other, 0
  {
    if other.Else? then 1 + NeedNodes(full, other.body) else 0
  }

  // ---- Lines

  /** No directive of the nodes, written in front of t, is alone on its line of src. */
  ghost predicate Apart(src: string, full: bool, nodes: seq<Node>, t: string)
    decreases nodes, 0
  {
    nodes != [] ==>
      ApartNode(src, full, nodes[0], PrintNodes(full, nodes[1..], t)) && Apart(src, full, nodes[1..], t)
  }

  ghost predicate ApartNode(src: string, full: bool, n: Node, t: string)
    decreases n, 0
  {
    match n
    case Text(_) | RefNode(_, _) => true
    case IfNode(branches, other) =>
      ApartBranches(src, full, "if", branches, PrintElse(full, other, t)) && ApartElse(src, full, other, t)
    case ForeachNode(_, _, body) =>
      && !Alone(src, PrintNode(full, n, t), PrintNodes(full, body, END + t)) && Apart(src, full, body, END + t)
      && !Alone(src, END + t, t)
    case _ => !Alone(src, PrintNode(full, n, t), t)
  }

  ghost predicate ApartBranches(src: string, full: bool, name: string, branches: seq<Branch>, tail: string)
    decreases branches, 0
  {
    branches != [] ==>
      && !Alone(src, PrintBranches(full, name, branches, tail), PrintBodies(full, branches, tail))
      && Apart(src, full, branches[0].body, PrintBranches(full, "elseif", branches[1..], tail))
      && ApartBranches(src, full, "elseif", branches[1..], tail)
  }

  ghost predicate ApartElse(src: string, full: bool, other: ElsePart, t: string)
    decreases other, 0
  {
    && !Alone(src, END + t, t)
    && (other.Else? ==>
          && !Alone(src, PrintElse(full, other, t), PrintNodes(full, other.body, END + t))
          && Apart(src, full, other.body, END + t))
  }
}
