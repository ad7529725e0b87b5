/**
 The VTL grammar as functions on the unread suffix of the source (internal/vtl/parse.go):
 what each parse method returns and what it leaves unread. depth is the nesting counter the
 caller is at. That these functions are accepted is the proof that parsing terminates: the
 nesting left, then the place in the call order, then the unread text goes down at each call.
 */
module Grammar {
  import opened Common
  import opened Ast
  import opened Scan

  const MAX_TEMPLATE_DEPTH: nat := 100
  const MAX_TEMPLATE_BYTES: nat := 300 * 1024
  const MAX_OPERATOR_CHAIN: nat := 1000

  datatype Fault =
    | TooLarge | TooDeep | TooManyOperators
    | UnexpectedTerminator(term: Term) | TerminatorInString(term: Term)
    | UnterminatedComment | UnterminatedBlock | UnterminatedString
    | Unsupported(name: string) | MalformedDirective(name: string)
    | SetNeedsReference | SetNeedsEquals | ForeachNeedsVariable | ForeachNeedsIn
    | MissingEnd(name: string)
    | Expected(c: char) | UnexpectedEnd | UnexpectedInExpression(what: string)
    | InvalidReference | InvalidNumber(text: string)

  datatype Parsed<+T> = Done(value: T, rest: string) | Fail(fault: Fault) {
    predicate IsFailure() { Fail? }

    function PropagateFailure<U>(): Parsed<U>
      requires Fail?
    {
      Fail(fault)
    }

    function Extract(): (T, string)
      requires Done?
    {
      (value, rest)
    }
  }

  /** What ended a block: the end of the text or the directive closing it. */
  datatype Term = NoTerm | ElseTerm | ElseIfTerm | EndTerm

  /** The nodes of a block, what ended it, and the text from the directive on that did. */
  datatype Block = Block(nodes: seq<Node>, term: Term, start: string)

  // ---- Operators

  const LEVELS: nat := 6

  /** The precedence of an operator, loosest first. */
  function Level(op: BinOp): nat
    ensures Level(op) < LEVELS
  {
    match op
    case Or => 0
    case And => 1
    case Eq | Ne => 2
    case Le | Ge | Lt | Gt => 3
    case Add | Sub => 4
    case Mul | Div | Mod => 5
  }

  /** The spellings accepted at a precedence level, longer ones first. */
  function Operators(level: nat): seq<(string, BinOp)> {
    match level
    case 0 => [("||", Or), ("or", Or)]
    case 1 => [("and", And), ("&&", And)]
    case 2 => [("==", Eq), ("!=", Ne), ("eq", Eq), ("ne", Ne)]
    case 3 => [("<=", Le), (">=", Ge), ("le", Le), ("ge", Ge), ("lt", Lt), ("gt", Gt), ("<", Lt), (">", Gt)]
    case 4 => [("+", Add), ("-", Sub)]
    case 5 => [("*", Mul), ("/", Div), ("%", Mod)]
    case _ => []
  }

  /** tok stands at the cursor; a word operator is not followed by an identifier character. */
  predicate TokenAt(tok: string, s: string) {
    tok != "" && tok <= s && (IsIdentStart(tok[0]) && |tok| < |s| ==> !IsIdentChar(s[|tok|]))
  }

  function FirstMatch(toks: seq<(string, BinOp)>, s: string): (r: Option<(string, BinOp)>)
    ensures r.Some? ==> TokenAt(r.value.0, s)
    ensures r.Some? ==> exists i :: 0 <= i < |toks| && toks[i] == r.value
                                    && forall j :: 0 <= j < i ==> !TokenAt(toks[j].0, s)
    ensures r.None? ==> forall i :: 0 <= i < |toks| ==> !TokenAt(toks[i].0, s)
  {
    if toks == [] then None
    else if TokenAt(toks[0].0, s) then Some(toks[0])
    else FirstMatch(toks[1..], s)
  }

  /** The operator of a level after any white space: its tree form and the text behind it. */
  function MatchOp(level: nat, s: string): (r: Option<(BinOp, string)>)
    ensures r.Some? ==> |r.value.1| < |s|
  {
    var t := SkipSpace(s);
    match FirstMatch(Operators(level), t)
    case None => None
    case Some((tok, op)) => Some((op, t[|tok|..]))
  }

  // ---- Expressions

  function Expression(s: string, depth: nat): (r: Parsed<Expr>)
    requires depth <= MAX_TEMPLATE_DEPTH
    ensures r.Done? ==> |r.rest| <= |s|
    decreases MAX_TEMPLATE_DEPTH - depth, 0, |s|
  {
    if depth == MAX_TEMPLATE_DEPTH then Fail(TooDeep) else Chain(0, s, depth + 1)
  }

  /** A left-associative chain of one precedence level and everything that binds tighter. */
  function Chain(level: nat, s: string, depth: nat): (r: Parsed<Expr>)
    requires level <= LEVELS && depth <= MAX_TEMPLATE_DEPTH
    ensures r.Done? ==> |r.rest| <= |s|
    decreases MAX_TEMPLATE_DEPTH - depth, 10 + 2 * (LEVELS - level), |s|
  {
    if level == LEVELS then UnaryExpr(s, depth)
    else
      var (l, s1) :- Chain(level + 1, s, depth);
      ChainRest(level, l, s1, depth, 0)
  }

  /** The rest of a chain whose left operand so far is l, after links operators. */
  function ChainRest(level: nat, l: Expr, s: string, depth: nat, links: nat): (r: Parsed<Expr>)
    requires level < LEVELS && depth <= MAX_TEMPLATE_DEPTH
    ensures r.Done? ==> |r.rest| <= |s|
    decreases MAX_TEMPLATE_DEPTH - depth, 10 + 2 * (LEVELS - level) - 1, |s|
  {
    match MatchOp(level, s)
    case None => Done(l, SkipSpace(s))
    case Some((op, s1)) =>
      if links >= MAX_OPERATOR_CHAIN then Fail(TooManyOperators)
      else
        var (r, s2) :- Chain(level + 1, s1, depth);
        ChainRest(level, Binary(op, l, r), s2, depth, links + 1)
  }

  /** The prefix operator at the cursor and the text behind it. */
  function UnaryOperator(s: string): (r: Option<(UnOp, string)>)
    ensures r.Some? ==> |r.value.1| < |s|
  {
    if Peek(s) == '!' && !PairAt('!', '=', s) then Some((Not, s[1..]))
    else if WordAt("not", s) then Some((Not, s[3..]))
    else if |s| > 1 && s[0] == '-' && !IsDigit(s[1]) then Some((Neg, s[1..]))
    else None
  }

  /** word stands at the cursor and no identifier character follows it. */
  predicate WordAt(word: string, s: string) {
    word <= s && (|word| < |s| ==> !IsIdentChar(s[|word|]))
  }

  function UnaryExpr(s: string, depth: nat): (r: Parsed<Expr>)
    requires depth <= MAX_TEMPLATE_DEPTH
    ensures r.Done? ==> |r.rest| <= |s|
    decreases MAX_TEMPLATE_DEPTH - depth, 0, |s|
  {
    if depth == MAX_TEMPLATE_DEPTH then Fail(TooDeep)
    else
      var t := SkipSpace(s);
      match UnaryOperator(t)
      case None => Primary(t, depth + 1)
      case Some((op, s1)) =>
        var (x, s2) :- UnaryExpr(s1, depth + 1);
        Done(Unary(op, x), s2)
  }

  function Primary(s: string, depth: nat): (r: Parsed<Expr>)
    requires depth <= MAX_TEMPLATE_DEPTH
    ensures r.Done? ==> |r.rest| <= |s|
    decreases MAX_TEMPLATE_DEPTH - depth, 5, |s|
  {
    if s == "" then Fail(UnexpectedEnd)
    else if s[0] == '$' then
      var (ref, s1) :- Reference(s, depth);
      if ref.None? then Fail(InvalidReference) else Done(Ref(ref.value.0), s1)
    else if s[0] == '"' then DoubleQuoted(s[1..], depth)
    else if s[0] == '\'' then
      match Quoted('\'', s[1..]) {
        case None => Fail(UnterminatedString)
        case Some((body, rest)) => Done(Literal(LStr(body)), rest)
      }
    else if IsDigit(s[0]) || s[0] == '-' then Number(s)
    else if IsIdentStart(s[0]) then Keyword(s)
    else if s[0] == '[' then ListOrRange(s[1..], depth)
    else if s[0] == '{' then MapLiteral(s[1..], depth)
    else if s[0] == '(' then
      var (x, s1) :- Expression(s[1..], depth);
      var (_, s2) :- Expect(')', s1);
      Done(x, s2)
    else Fail(UnexpectedInExpression([s[0]]))
  }

  /** White space, then the character c. */
  function Expect(c: char, s: string): (r: Parsed<()>)
    ensures r.Done? ==> |r.rest| < |s|
  {
    var t := SkipSpace(s);
    if t != "" && t[0] == c then Done((), t[1..]) else Fail(Expected(c))
  }

  function Keyword(s: string): (r: Parsed<Expr>)
    ensures r.Done? ==> |r.rest| <= |s|
  {
    var n := IdentLen(s);
    match s[..n]
    case "true" => Done(Literal(LBool(true)), s[n..])
    case "false" => Done(Literal(LBool(false)), s[n..])
    case "null" => Done(Literal(LNull), s[n..])
    case _ => Fail(UnexpectedInExpression(s[..n]))
  }

  /** Length of the sign at the cursor. */
  function SignLen(s: string): nat { if Peek(s) == '-' then 1 else 0 }

  /** Length of the sign and the integer digits at the cursor. */
  function IntLen(s: string): (n: nat)
    ensures SignLen(s) <= n <= |s| && AllDigits(s[SignLen(s)..n])
  {
    SignLen(s) + DigitLen(s[SignLen(s)..])
  }

  /**
   The midpoint between the largest double and 2^1024, that is 2^1024 - 2^970: from here on
   strconv.ParseFloat rounds to infinity and fails.
   */
  const FLOAT_BOUND: nat :=
    0xFFFF_FFFF_FFFF_FC00_0000_0000_0000_0000_0000_0000_0000_0000_0000_0000_0000_0000_0000_0000_0000_0000_0000_0000_0000_0000_0000_0000_0000_0000_0000_0000_0000_0000_0000_0000_0000_0000_0000_0000_0000_0000_0000_0000_0000_0000_0000_0000_0000_0000_0000_0000_0000_0000_0000_0000_0000_0000_0000_0000_0000_0000_0000_0000_0000_0000

  /** Whether a decimal with a fraction rounds to a finite double: its integer part decides. */
  predicate FloatFits(text: string) { DigitsValue(text[SignLen(text)..IntLen(text)]) < FLOAT_BOUND }

  predicate IsFloatAt(n: nat, s: string) { n + 1 < |s| && s[n] == '.' && IsDigit(s[n + 1]) }

  function Number(s: string): (r: Parsed<Expr>)
    ensures r.Done? ==> |r.rest| <= |s|
  {
    var n := IntLen(s);
    if IsFloatAt(n, s) then
      var m := n + 1 + DigitLen(s[n + 1..]);
      if FloatFits(s[..m]) then Done(Literal(LFloat(s[..m])), s[m..])
      else Fail(InvalidNumber(s[..m]))
    else
      match ParseInt(s[..n])
      case None => Fail(InvalidNumber(s[..n]))
      case Some(i) => Done(Literal(LInt(i)), s[n..])
  }

  /** A double-quoted string whose opening quote has been read; with '$' or '#' a template. */
  function DoubleQuoted(s: string, depth: nat): (r: Parsed<Expr>)
    requires depth <= MAX_TEMPLATE_DEPTH
    ensures r.Done? ==> |r.rest| <= |s|
    decreases MAX_TEMPLATE_DEPTH - depth, 1, |s|
  {
    match Quoted('"', s)
    case None => Fail(UnterminatedString)
    case Some((body, rest)) =>
      if '$' !in body && '#' !in body then Done(Literal(LStr(body)), rest)
      else
        var (block, _) :- ParseBlock(body, body, depth);
        if block.term.NoTerm? then Done(Interpolated(block.nodes), rest)
        else Fail(TerminatorInString(block.term))
  }

  /** A list or range whose '[' has been read. */
  function ListOrRange(s: string, depth: nat): (r: Parsed<Expr>)
    requires depth <= MAX_TEMPLATE_DEPTH
    ensures r.Done? ==> |r.rest| <= |s|
    decreases MAX_TEMPLATE_DEPTH - depth, 2, |s|
  {
    var t := SkipSpace(s);
    if Peek(t) == ']' then Done(ListExpr([]), t[1..])
    else
      var (first, s1) :- Expression(t, depth);
      var t1 := SkipSpace(s1);
      if PairAt('.', '.', t1) then RangeEnd(first, t1[2..], depth)
      else if Peek(t1) == ']' then Done(ListExpr([first]), t1[1..])
      else if Peek(t1) == ',' then
        var (rest, s2) :- Arguments(']', t1[1..], depth, []);
        Done(ListExpr([first] + rest), s2)
      else Fail(Expected(']'))
  }

  /** The upper bound of a range whose dots have been read. */
  function RangeEnd(from: Expr, s: string, depth: nat): (r: Parsed<Expr>)
    requires depth <= MAX_TEMPLATE_DEPTH
    ensures r.Done? ==> |r.rest| <= |s|
    decreases MAX_TEMPLATE_DEPTH - depth, 1, |s|
  {
    var (to, s1) :- Expression(s, depth);
    var (_, s2) :- Expect(']', s1);
    Done(RangeExpr(from, to), s2)
  }

  /**
   A comma-separated expression list up to closer, after the items of done. An empty list is
   accepted at the start only; a list after its first comma starts afresh.
   */
  function Arguments(closer: char, s: string, depth: nat, done: seq<Expr>): (r: Parsed<seq<Expr>>)
    requires depth <= MAX_TEMPLATE_DEPTH
    ensures r.Done? ==> |r.rest| <= |s|
    decreases MAX_TEMPLATE_DEPTH - depth, 1, |s|
  {
    var t := if done == [] then SkipSpace(s) else s;
    if done == [] && t != "" && t[0] == closer then Done([], t[1..])
    else
      var (a, s1) :- Expression(t, depth);
      var t1 := SkipSpace(s1);
      if t1 == "" then Fail(Expected(closer))
      else if t1[0] == ',' then Arguments(closer, t1[1..], depth, done + [a])
      else if t1[0] == closer then Done(done + [a], t1[1..])
      else Fail(Expected(closer))
  }

  /** A map literal whose '{' has been read. */
  function MapLiteral(s: string, depth: nat): (r: Parsed<Expr>)
    requires depth <= MAX_TEMPLATE_DEPTH
    ensures r.Done? ==> |r.rest| <= |s|
    decreases MAX_TEMPLATE_DEPTH - depth, 3, |s|
  {
    var t := SkipSpace(s);
    if Peek(t) == '}' then Done(MapExpr([]), t[1..]) else MapEntries(t, depth, [])
  }

  function MapEntries(s: string, depth: nat, done: seq<Entry>): (r: Parsed<Expr>)
    requires depth <= MAX_TEMPLATE_DEPTH
    ensures r.Done? ==> |r.rest| <= |s|
    decreases MAX_TEMPLATE_DEPTH - depth, 2, |s|
  {
    var (entry, s1) :- MapEntry(s, depth);
    var t := SkipSpace(s1);
    if Peek(t) == ',' then MapEntries(t[1..], depth, done + [entry])
    else if Peek(t) == '}' then Done(MapExpr(done + [entry]), t[1..])
    else Fail(Expected('}'))
  }

  function MapEntry(s: string, depth: nat): (r: Parsed<Entry>)
    requires depth <= MAX_TEMPLATE_DEPTH
    ensures r.Done? ==> |r.rest| <= |s|
    decreases MAX_TEMPLATE_DEPTH - depth, 1, |s|
  {
    var (k, s1) :- Expression(s, depth);
    var (_, s2) :- Expect(':', s1);
    var (v, s3) :- Expression(s2, depth);
    Done(Entry(k, v), s3)
  }

  /**
   The opening of a reference: the first byte, skipped unread, then '!' and '{' when present.
   Whether it is quiet, whether it is braced, and what follows.
   */
  function ReferenceOpening(s: string): (r: (bool, bool, string))
    ensures |r.2| <= |s| && (s != "" ==> |r.2| < |s|)
  {
    var s0 := if s == "" then s else s[1..];
    var quiet := Peek(s0) == '!';
    var s1 := if quiet then s0[1..] else s0;
    var braced := Peek(s1) == '{';
    (quiet, braced, if braced then s1[1..] else s1)
  }

  /**
   $name, $!name, ${name} or $!{name} with its chain, and whether it is quiet. None, with
   nothing consumed, when no reference stands here.
   */
  function Reference(s: string, depth: nat): (r: Parsed<Option<(RefExpr, bool)>>)
    requires depth <= MAX_TEMPLATE_DEPTH
    ensures r.Done? ==> |r.rest| <= |s|
    ensures r.Done? && r.value.None? ==> r.rest == s
    ensures r.Done? && r.value.Some? && s != "" ==> |r.rest| < |s|
    decreases MAX_TEMPLATE_DEPTH - depth, 3, |s|
  {
    var (quiet, braced, s2) := ReferenceOpening(s);
    if s2 == "" || !IsIdentStart(s2[0]) then Done(None, s)
    else
      var n := IdentLen(s2);
      var (chain, s3) :- Accessors(s2[n..], depth, []);
      var ref := RefExpr(s2[..n], chain);
      if !braced then Done(Some((ref, quiet)), s3)
      else if Peek(s3) == '}' then Done(Some((ref, quiet)), s3[1..])
      else Done(None, s)
  }

  /** The .name, .name(args) and [index] steps at the cursor, after those of done. */
  function Accessors(s: string, depth: nat, done: seq<Accessor>): (r: Parsed<seq<Accessor>>)
    requires depth <= MAX_TEMPLATE_DEPTH
    ensures r.Done? ==> |r.rest| <= |s|
    decreases MAX_TEMPLATE_DEPTH - depth, 2, |s|
  {
    if |s| > 1 && s[0] == '.' && IsIdentStart(s[1]) then
      var n := IdentLen(s[1..]);
      var name := s[1..][..n];
      var s1 := s[1..][n..];
      if Peek(s1) != '(' then Accessors(s1, depth, done + [Property(name)])
      else
        var (args, s2) :- Arguments(')', s1[1..], depth, []);
        Accessors(s2, depth, done + [Method(name, args)])
    else if s != "" && s[0] == '[' then
      var (idx, s1) :- Expression(s[1..], depth);
      var (_, s2) :- Expect(']', s1);
      Accessors(s2, depth, done + [Accessor.Index(idx)])
    else Done(done, s)
  }

  // ---- Blocks and directives

  /** Nodes up to the end of the text or a terminator; src is the whole text. */
  function ParseBlock(src: string, s: string, depth: nat): (r: Parsed<Block>)
    requires depth <= MAX_TEMPLATE_DEPTH
    ensures r.Done? ==> |r.rest| <= |s|
    decreases MAX_TEMPLATE_DEPTH - depth, 0, |s|
  {
    if depth == MAX_TEMPLATE_DEPTH then Fail(TooDeep) else BlockNodes(src, s, depth + 1, [])
  }

  function BlockNodes(src: string, s: string, depth: nat, done: seq<Node>): (r: Parsed<Block>)
    requires depth <= MAX_TEMPLATE_DEPTH
    ensures r.Done? ==> |r.rest| <= |s|
    decreases MAX_TEMPLATE_DEPTH - depth, 9, |s|
  {
    if s == "" then Done(Block(done, NoTerm, ""), s)
    else
      var n := PlainLen(s);
      var nodes := AppendText(done, s[..n]);
      var t := s[n..];
      if t == "" then Done(Block(nodes, NoTerm, ""), t)
      else if t[0] == '\\' then
        var (text, s1) := Escape(t);
        BlockNodes(src, s1, depth, AppendText(nodes, text))
      else if t[0] == '$' then
        var (ref, s1) :- Reference(t, depth);
        if ref.None? then BlockNodes(src, t[1..], depth, AppendText(nodes, "$"))
        else BlockNodes(src, s1, depth, nodes + [RefNode(ref.value.0, ref.value.1)])
      else
        var (block, s1) :- Hash(src, t, depth, nodes);
        if block.term.NoTerm? then BlockNodes(src, s1, depth, block.nodes) else Done(block, s1)
  }

  /** Text joins the text node before it. */
  function AppendText(nodes: seq<Node>, s: string): seq<Node> {
    if s == "" then nodes
    else if nodes != [] && nodes[|nodes| - 1].Text? then
      nodes[|nodes| - 1 := Text(nodes[|nodes| - 1].parts + [s])]
    else nodes + [Text([s])]
  }

  /** A backslash: \$ and \# stand for the second character, any other is plain text. */
  function Escape(s: string): (r: (string, string))
    requires s != ""
    ensures |r.1| < |s|
  {
    if |s| > 1 && (s[1] == '$' || s[1] == '#') then (s[1..2], s[2..]) else ("\\", s[1..])
  }

  // ---- Directives alone on their line

  predicate IsBlank(c: char) { c == ' ' || c == '\t' }

  /** Nothing but blanks stands before place i on its line. */
  predicate BlankBefore(src: string, i: nat)
    requires i <= |src|
  {
    i == 0 || src[i - 1] == '\n' || (IsBlank(src[i - 1]) && BlankBefore(src, i - 1))
  }

  /** What follows the line when nothing but blanks is left on it. */
  function LineRest(s: string): (r: Option<string>)
    ensures r.Some? ==> |r.value| <= |s|
  {
    if s == "" then Some("")
    else if IsBlank(s[0]) || s[0] == '\r' then LineRest(s[1..])
    else if s[0] == '\n' then Some(s[1..])
    else None
  }

  /** The text without the blanks at its end (strings.TrimRight). */
  function TrimBlanks(s: string): string {
    if s != "" && IsBlank(s[|s| - 1]) then TrimBlanks(s[..|s| - 1]) else s
  }

  /** The parts of a text without the blanks at the end of them all; parts that were blank go. */
  function TrimIndent(parts: seq<string>): seq<string> {
    if parts == [] then []
    else
      var n := |parts| - 1;
      if TrimBlanks(parts[n]) == "" then TrimIndent(parts[..n]) else parts[n := TrimBlanks(parts[n])]
  }

  /** The indentation goes from the text that is the last node. */
  function TrimLast(nodes: seq<Node>): seq<Node> {
    if nodes == [] || !nodes[|nodes| - 1].Text? then nodes
    else
      var n := |nodes| - 1;
      var parts := TrimIndent(nodes[n].parts);
      if parts == [] then nodes[..n] else nodes[n := Text(parts)]
  }

  /** The directive that starts at start and ends in front of s is alone on its line of src. */
  predicate Alone(src: string, start: string, s: string) {
    |start| <= |src| && BlankBefore(src, |src| - |start|) && LineRest(s).Some?
  }

  /** A directive alone on its line takes the line with it: its indentation, and what is behind it. */
  function Gobble(src: string, start: string, nodes: seq<Node>, s: string): (r: (seq<Node>, string))
    ensures |r.1| <= |s|
  {
    if Alone(src, start, s) then (TrimLast(nodes), LineRest(s).value) else (nodes, s)
  }

  predicate IsKnown(name: string) {
    name in {"set", "if", "elseif", "else", "end", "foreach", "break", "stop", "return"}
  }

  predicate IsUnsupported(name: string) { name in {"macro", "define", "parse", "include", "evaluate"} }

  /** A '#': comment, unparsed block, directive, or plain text. */
  function Hash(src: string, s: string, depth: nat, nodes: seq<Node>): (r: Parsed<Block>)
    requires s != "" && s[0] == '#' && depth <= MAX_TEMPLATE_DEPTH
    ensures r.Done? ==> |r.rest| < |s|
    decreases MAX_TEMPLATE_DEPTH - depth, 8, |s|
  {
    if PairAt('#', '#', s) then
      match Scan.Index(s, "\n") {
        case None => Done(Block(nodes, NoTerm, ""), "")
        case Some(i) => Done(Block(nodes, NoTerm, ""), s[i + 1..])
      }
    else if PairAt('#', '*', s) then
      match Scan.Index(s[2..], "*#") {
        case None => Fail(UnterminatedComment)
        case Some(i) =>
          var (kept, rest) := Gobble(src, s, nodes, s[i + 4..]);
          Done(Block(kept, NoTerm, ""), rest)
      }
    else if PairAt('#', '[', s) && Peek(s[2..]) == '[' then
      match Scan.Index(s, "]]#") {
        case None => Fail(UnterminatedBlock)
        case Some(i) =>
          assert i >= 3 by { assert s[i..][0] == s[i] == ']' && s[i..][1] == s[i + 1] == ']'
                                    && s[i..][2] == s[i + 2] == '#'; }
          Done(Block(AppendText(nodes, s[3..i]), NoTerm, ""), s[i + 3..])
      }
    else
      var (name, braced, s1) := DirectiveName(s);
      if IsUnsupported(name) then Fail(Unsupported(name))
      else if !IsKnown(name) then Done(Block(AppendText(nodes, "#"), NoTerm, ""), s[1..])
      else if !braced then Directive(src, s, name, s1, depth, nodes)
      else if Peek(s1) == '}' then Directive(src, s, name, s1[1..], depth, nodes)
      else Fail(MalformedDirective(name))
  }

  /** The identifier behind '#' or '#{', whether it is braced, and what follows it. */
  function DirectiveName(s: string): (r: (string, bool, string))
    requires s != ""
    ensures |r.2| < |s|
  {
    var braced := Peek(s[1..]) == '{';
    var s1 := if braced then s[2..] else s[1..];
    var n := IdentLen(s1);
    (s1[..n], braced, s1[n..])
  }

  /** A directive that starts at start and whose name has been read. */
  function Directive(src: string, start: string, name: string, s: string, depth: nat, nodes: seq<Node>)
    : (r: Parsed<Block>)
    requires depth <= MAX_TEMPLATE_DEPTH
    ensures r.Done? ==> |r.rest| <= |s|
    decreases MAX_TEMPLATE_DEPTH - depth, 7, |s|
  {
    if name == "else" || name == "end" then
      var (kept, rest) := Gobble(src, start, nodes, s);
      Done(Block(kept, if name == "else" then ElseTerm else EndTerm, start), rest)
    else if name == "elseif" then Done(Block(nodes, ElseIfTerm, start), s)
    else if name == "if" then If(src, start, s, depth, nodes)
    else if name == "foreach" then Foreach(src, start, s, depth, nodes)
    else if name == "return" then Return(src, start, s, depth, nodes)
    else
      var (node, s1) :- Simple(name, s, depth);
      WithNode(src, start, nodes, node, s1)
  }

  /** The directives that are a single node. */
  function Simple(name: string, s: string, depth: nat): (r: Parsed<Node>)
    requires depth <= MAX_TEMPLATE_DEPTH
    ensures r.Done? ==> |r.rest| <= |s|
    decreases MAX_TEMPLATE_DEPTH - depth, 6, |s|
  {
    if name == "break" then Done(BreakNode, s)
    else if name == "stop" then Done(StopNode, s)
    else Set(s, depth)
  }

  /** The node of a directive that ends in front of s. */
  function WithNode(src: string, start: string, nodes: seq<Node>, node: Node, s: string): (r: Parsed<Block>)
    ensures r.Done? && |r.rest| <= |s| && r.value.term.NoTerm?
  {
    var (kept, rest) := Gobble(src, start, nodes, s);
    Done(Block(kept + [node], NoTerm, ""), rest)
  }

  function Set(s: string, depth: nat): (r: Parsed<Node>)
    requires depth <= MAX_TEMPLATE_DEPTH
    ensures r.Done? ==> |r.rest| <= |s|
    decreases MAX_TEMPLATE_DEPTH - depth, 5, |s|
  {
    var (_, s1) :- Expect('(', s);
    var (target, s2) :- Reference(SkipSpace(s1), depth);
    if target.None? then Fail(SetNeedsReference)
    else
      var t := SkipSpace(s2);
      if Peek(t) != '=' then Fail(SetNeedsEquals)
      else
        var (value, s3) :- Expression(t[1..], depth);
        var (_, s4) :- Expect(')', s3);
        Done(SetNode(target.value.0, value), s4)
  }

  /** A parenthesised condition. */
  function Condition(s: string, depth: nat): (r: Parsed<Expr>)
    requires depth <= MAX_TEMPLATE_DEPTH
    ensures r.Done? ==> |r.rest| < |s|
    decreases MAX_TEMPLATE_DEPTH - depth, 1, |s|
  {
    var (_, s1) :- Expect('(', s);
    var (cond, s2) :- Expression(s1, depth);
    var (_, s3) :- Expect(')', s2);
    Done(cond, s3)
  }

  function If(src: string, start: string, s: string, depth: nat, nodes: seq<Node>): (r: Parsed<Block>)
    requires depth <= MAX_TEMPLATE_DEPTH
    ensures r.Done? ==> |r.rest| <= |s| && r.value.term.NoTerm?
    decreases MAX_TEMPLATE_DEPTH - depth, 6, |s|
  {
    var (cond, s1) :- Condition(s, depth);
    var (kept, s2) := Gobble(src, start, nodes, s1);
    var (node, s3) :- IfBranches(src, cond, s2, depth, []);
    Done(Block(kept + [node], NoTerm, ""), s3)
  }

  /** The branches of an #if from the body of cond on. */
  function IfBranches(src: string, cond: Expr, s: string, depth: nat, done: seq<Branch>): (r: Parsed<Node>)
    requires depth <= MAX_TEMPLATE_DEPTH
    ensures r.Done? ==> |r.rest| <= |s|
    decreases MAX_TEMPLATE_DEPTH - depth, 5, |s|
  {
    var (block, s1) :- ParseBlock(src, s, depth);
    match block.term
    case ElseIfTerm =>
      var (next, s2) :- Condition(s1, depth);
      var (body, s3) := Gobble(src, block.start, block.nodes, s2);
      IfBranches(src, next, s3, depth, done + [Branch(cond, body)])
    case ElseTerm =>
      var (other, s2) :- ParseBlock(src, s1, depth);
      if other.term.EndTerm? then Done(IfNode(done + [Branch(cond, block.nodes)], Else(other.nodes)), s2)
      else Fail(MissingEnd("else"))
    case EndTerm => Done(IfNode(done + [Branch(cond, block.nodes)], NoElse), s1)
    case NoTerm => Fail(MissingEnd("if"))
  }

  function Foreach(src: string, start: string, s: string, depth: nat, nodes: seq<Node>): (r: Parsed<Block>)
    requires depth <= MAX_TEMPLATE_DEPTH
    ensures r.Done? ==> |r.rest| <= |s| && r.value.term.NoTerm?
    decreases MAX_TEMPLATE_DEPTH - depth, 6, |s|
  {
    var ((name, iter), s1) :- ForeachHead(s, depth);
    var (kept, s2) := Gobble(src, start, nodes, s1);
    var (block, s3) :- ParseBlock(src, s2, depth);
    if block.term.EndTerm? then Done(Block(kept + [ForeachNode(name, iter, block.nodes)], NoTerm, ""), s3)
    else Fail(MissingEnd("foreach"))
  }

  /** The parenthesised loop variable and the expression it ranges over. */
  function ForeachHead(s: string, depth: nat): (r: Parsed<(string, Expr)>)
    requires depth <= MAX_TEMPLATE_DEPTH
    ensures r.Done? ==> |r.rest| <= |s|
    decreases MAX_TEMPLATE_DEPTH - depth, 5, |s|
  {
    var (name, s1) :- LoopVariable(s, depth);
    var t := SkipSpace(s1);
    if !WordAt("in", t) then Fail(ForeachNeedsIn)
    else
      var (iter, s2) :- Expression(t[2..], depth);
      var (_, s3) :- Expect(')', s2);
      Done((name, iter), s3)
  }

  /** An opening parenthesis and a plain variable. */
  function LoopVariable(s: string, depth: nat): (r: Parsed<string>)
    requires depth <= MAX_TEMPLATE_DEPTH
    ensures r.Done? ==> |r.rest| <= |s|
    decreases MAX_TEMPLATE_DEPTH - depth, 4, |s|
  {
    var (_, s1) :- Expect('(', s);
    var (ref, s2) :- Reference(SkipSpace(s1), depth);
    if ref.None? || ref.value.0.chain != [] then Fail(ForeachNeedsVariable)
    else Done(ref.value.0.name, s2)
  }

  function Return(src: string, start: string, s: string, depth: nat, nodes: seq<Node>): (r: Parsed<Block>)
    requires depth <= MAX_TEMPLATE_DEPTH
    ensures r.Done? ==> |r.rest| <= |s| && r.value.term.NoTerm?
    decreases MAX_TEMPLATE_DEPTH - depth, 6, |s|
  {
    var t := SkipSpace(s);
    if Peek(t) != '(' then WithNode(src, start, nodes, ReturnNode(None), s)
    else
      var (result, s1) :- ReturnValue(SkipSpace(t[1..]), depth);
      WithNode(src, start, nodes, ReturnNode(result), s1)
  }

  /** The argument of a #return up to its closing parenthesis. */
  function ReturnValue(s: string, depth: nat): (r: Parsed<Option<Expr>>)
    requires depth <= MAX_TEMPLATE_DEPTH
    ensures r.Done? ==> |r.rest| <= |s|
    decreases MAX_TEMPLATE_DEPTH - depth, 5, |s|
  {
    var (value, s1) :- if Peek(s) == ')' then Done(None, s) else
      (match Expression(s, depth) case Done(v, s1) => Done(Some(v), s1) case Fail(fault) => Fail(fault));
    var (_, s2) :- Expect(')', s1);
    Done(value, s2)
  }

  /** A whole template. */
  function Template(src: string): Result<seq<Node>, Fault> {
    if |src| > MAX_TEMPLATE_BYTES then Err(TooLarge)
    else
      match ParseBlock(src, src, 0)
      case Fail(fault) => Err(fault)
      case Done(block, _) =>
        if block.term.NoTerm? then Ok(block.nodes) else Err(UnexpectedTerminator(block.term))
  }
}
