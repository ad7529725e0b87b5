/**
 Printing expression trees: every way of writing a tree that uses the symbol operators, single
 spaces around them, and parentheses where the precedence needs them (or, with full, around
 every operator). Each function writes its tree in front of the text t.
 */
module Printer {
  import opened Common
  import opened Ast
  import opened Scan
  import opened Grammar

  function Symbol(op: BinOp): string {
    match op
    case Or => "||" case And => "&&" case Eq => "==" case Ne => "!="
    case Le => "<=" case Ge => ">=" case Lt => "<" case Gt => ">"
    case Add => "+" case Sub => "-" case Mul => "*" case Div => "/" case Mod => "%"
  }

  /** The level an expression can stand at without parentheses. */
  function Rank(e: Expr): nat {
    match e
    case Binary(op, _, _) => Level(op)
    case Unary(_, _) => LEVELS
    case _ => LEVELS + 1
  }

  predicate Parenthesised(level: nat, full: bool, e: Expr) {
    Rank(e) <= LEVELS && (full || Rank(e) < level)
  }

  function Print(level: nat, full: bool, e: Expr, t: string): string
    decreases e, 1
  {
    if Parenthesised(level, full, e) then "(" + Bare(full, e, ")" + t) else Bare(full, e, t)
  }

  function Bare(full: bool, e: Expr, t: string): string
    decreases e, 0
  {
    match e
    case Literal(v) => PrintLit(v, t)
    case Interpolated(_) => t
    case Ref(ref) => "$" + (ref.name + PrintChain(full, ref.chain, t))
    case ListExpr(items) => "[" + PrintItems(full, items, "]" + t)
    case RangeExpr(from, to) => "[" + Print(0, full, from, ".." + Print(0, full, to, "]" + t))
    case MapExpr(entries) => "{" + PrintEntries(full, entries, "}" + t)
    case Unary(op, x) => (if op.Not? then "!" else "-") + (" " + Print(LEVELS, full, x, t))
    case Binary(op, l, r) =>
      Print(Level(op), full, l, " " + (Symbol(op) + (" " + Print(Level(op) + 1, full, r, t))))
  }

  function PrintLit(v: Lit, t: string): string {
    match v
    case LNull => "null" + t
    case LBool(b) => (if b then "true" else "false") + t
    case LInt(i) => FormatInt(i) + t
    case LFloat(text) => text + t
    case LStr(s) => "'" + PrintQuoted(s, "'" + t)
  }

  /** A string with its single quotes doubled. */
  function PrintQuoted(s: string, t: string): string {
    if s == "" then t
    else (if s[0] == '\'' then "''" else [s[0]]) + PrintQuoted(s[1..], t)
  }

  function PrintChain(full: bool, chain: seq<Accessor>, t: string): string
    decreases chain, 0
  {
    if chain == [] then t else PrintAccessor(full, chain[0], PrintChain(full, chain[1..], t))
  }

  function PrintAccessor(full: bool, a: Accessor, t: string): string
    decreases a, 0
  {
    match a
    case Property(name) => "." + (name + t)
    case Method(name, args) => "." + (name + ("(" + PrintItems(full, args, ")" + t)))
    case Index(index) => "[" + Print(0, full, index, "]" + t)
  }

  function PrintItems(full: bool, items: seq<Expr>, t: string): string
    decreases items, 0
  {
    if items == [] then t
    else if |items| == 1 then Print(0, full, items[0], t)
    else Print(0, full, items[0], ", " + PrintItems(full, items[1..], t))
  }

  function PrintEntries(full: bool, entries: seq<Entry>, t: string): string
    decreases entries, 0
  {
    if entries == [] then t
    else if |entries| == 1 then PrintEntry(full, entries[0], t)
    else PrintEntry(full, entries[0], ", " + PrintEntries(full, entries[1..], t))
  }

  function PrintEntry(full: bool, entry: Entry, t: string): string
    decreases entry, 0
  {
    Print(0, full, entry.key, ": " + Print(0, full, entry.val, t))
  }
}
