/**
 Parsing undoes printing: reading back the text of an expression tree, with the least or with
 full parentheses, gives the same tree, for every tree within the nesting and chain limits.
 */
module RoundTrip {
  import opened Common
  import opened Ast
  import opened Scan
  import opened Grammar
  import opened Printer

  // ---- Which trees have a text

  predicate IsIdent(s: string) {
    s != "" && IsIdentStart(s[0]) && forall i :: 0 <= i < |s| ==> IsIdentChar(s[i])
  }

  /** An optional sign, digits, a point and digits, denoting a finite double. */
  predicate IsFloatText(s: string) {
    var n := IntLen(s);
    SignLen(s) < n && IsFloatAt(n, s) && n + 1 + DigitLen(s[n + 1..]) == |s| && FloatFits(s)
  }

  predicate WritableLit(v: Lit) {
    match v
    case LInt(i) => IsInt64(i)
    case LFloat(text) => IsFloatText(text)
    case _ => true
  }

  /** Names are identifiers, numbers are in range, and no string is interpolated. */
  predicate Writable(e: Expr)
    decreases e, 0
  {
    match e
    case Literal(v) => WritableLit(v)
    case Interpolated(_) => false
    case Ref(ref) => IsIdent(ref.name) && WritableChain(ref.chain)
    case ListExpr(items) => WritableItems(items)
    case RangeExpr(from, to) => Writable(from) && Writable(to)
    case MapExpr(entries) => WritableEntries(entries)
    case Unary(_, x) => Writable(x)
    case Binary(_, l, r) => Writable(l) && Writable(r)
  }

  predicate WritableItems(items: seq<Expr>)
    decreases items, 0
  {
    items == [] || (Writable(items[0]) && WritableItems(items[1..]))
  }

  predicate WritableEntries(entries: seq<Entry>)
    decreases entries, 0
  {
    entries == [] || (WritableEntry(entries[0]) && WritableEntries(entries[1..]))
  }

  predicate WritableEntry(entry: Entry)
    decreases entry, 0
  {
    Writable(entry.key) && Writable(entry.val)
  }

  predicate WritableChain(chain: seq<Accessor>)
    decreases chain, 0
  {
    chain == [] || (WritableAccessor(chain[0]) && WritableChain(chain[1..]))
  }

  predicate WritableAccessor(a: Accessor)
    decreases a, 0
  {
    match a
    case Property(name) => IsIdent(name)
    case Method(name, args) => IsIdent(name) && WritableItems(args)
    case Index(index) => Writable(index)
  }

  // ---- How much nesting reading the text back takes

  /** Levels reading e takes above the depth at which its chain is read. */
  function Need(level: nat, full: bool, e: Expr): nat
    decreases e, 1
  {
    (if Parenthesised(level, full, e) then 2 else 0) + NeedBare(full, e)
  }

  function NeedBare(full: bool, e: Expr): nat
    decreases e, 0
  {
    match e
    case Ref(ref) => 1 + NeedChain(full, ref.chain)
    case ListExpr(items) => 1 + NeedItems(full, items)
    case RangeExpr(from, to) => 2 + Max(Need(0, full, from), Need(0, full, to))
    case MapExpr(entries) => 1 + NeedEntries(full, entries)
    case Unary(_, x) => 1 + Need(LEVELS, full, x)
    case Binary(op, l, r) => Max(Need(Level(op), full, l), Need(Level(op) + 1, full, r))
    case _ => 1
  }

  function NeedItems(full: bool, items: seq<Expr>): nat
    decreases items, 0
  {
    if items == [] then 0 else Max(1 + Need(0, full, items[0]), NeedItems(full, items[1..]))
  }

  function NeedEntries(full: bool, entries: seq<Entry>): nat
    decreases entries, 0
  {
    if entries == [] then 0 else Max(NeedEntry(full, entries[0]), NeedEntries(full, entries[1..]))
  }

  function NeedEntry(full: bool, entry: Entry): nat
    decreases entry, 0
  {
    1 + Max(Need(0, full, entry.key), Need(0, full, entry.val))
  }

  function NeedChain(full: bool, chain: seq<Accessor>): nat
    decreases chain, 0
  {
    if chain == [] then 0 else Max(NeedAccessor(full, chain[0]), NeedChain(full, chain[1..]))
  }

  function NeedAccessor(full: bool, a: Accessor): nat
    decreases a, 0
  {
    match a
    case Property(_) => 0
    case Method(_, args) => NeedItems(full, args)
    case Index(index) => 1 + Need(0, full, index)
  }

  // ---- How long its operator chains are

  /** Operators of a level on the left spine of e that are written without parentheses. */
  function Links(level: nat, full: bool, e: Expr): nat {
    if e.Binary? && Level(e.op) == level && !Parenthesised(level, full, e)
    then 1 + Links(level, full, e.l) else 0
  }

  /** No chain of e is longer than the parser accepts. */
  predicate ChainsFit(full: bool, e: Expr)
    decreases e, 0
  {
    match e
    case Ref(ref) => forall a <- ref.chain :: ChainsFitAccessor(full, a)
    case ListExpr(items) => forall x <- items :: ChainsFit(full, x)
    case RangeExpr(from, to) => ChainsFit(full, from) && ChainsFit(full, to)
    case MapExpr(entries) => forall x <- entries :: ChainsFitEntry(full, x)
    case Unary(_, x) => ChainsFit(full, x)
    case Binary(op, l, r) =>
      Links(Level(op), full, l) < MAX_OPERATOR_CHAIN && ChainsFit(full, l) && ChainsFit(full, r)
    case _ => true
  }

  predicate ChainsFitAccessor(full: bool, a: Accessor)
    decreases a, 0
  {
    match a
    case Property(_) => true
    case Method(_, args) => forall x <- args :: ChainsFit(full, x)
    case Index(index) => ChainsFit(full, index)
  }

  predicate ChainsFitEntry(full: bool, entry: Entry)
    decreases entry, 0
  {
    ChainsFit(full, entry.key) && ChainsFit(full, entry.val)
  }

  // ---- Scanning back what was printed

  /** What the printer writes behind an expression. */
  predicate Follows(t: string) {
    t == "" || t[0] == ' ' || t[0] == ')' || t[0] == ']' || t[0] == ',' || t[0] == '}' || t[0] == ':' ||
    PairAt('.', '.', t)
  }

  /** No operator that binds tighter than level is next. */
  predicate NoTighter(level: nat, t: string) {
    forall j :: level < j < LEVELS ==> MatchOp(j, t).None?
  }

  /** A closing bracket, comma, colon or range dots. */
  predicate Closes(t: string) {
    t == "" || t[0] == ')' || t[0] == ']' || t[0] == ',' || t[0] == '}' || t[0] == ':' || PairAt('.', '.', t)
  }

  /** The first characters of the operators of a level. */
  function Leads(level: nat): set<char> {
    match level
    case 0 => {'|', 'o'}
    case 1 => {'&', 'a'}
    case 2 => {'=', '!', 'e', 'n'}
    case 3 => {'<', '>', 'l', 'g'}
    case 4 => {'+', '-'}
    case _ => {'*', '/', '%'}
  }

  lemma OperatorLeads(level: nat, i: nat)
    requires level < LEVELS && i < |Operators(level)|
    ensures Operators(level)[i].0 != "" && Operators(level)[i].0[0] in Leads(level)
  {
    if level == 0 {
    } else if level == 1 {
    } else if level == 2 {
    } else if level == 3 {
    } else if level == 4 {
    } else {
    }
  }

  lemma NotAnOperator(level: nat, t: string)
    requires level < LEVELS
    requires t == "" || t[0] !in Leads(level)
    ensures FirstMatch(Operators(level), t).None?
  {
    var r := FirstMatch(Operators(level), t);
    if r.Some? {
      var i :| 0 <= i < |Operators(level)| && Operators(level)[i] == r.value;
      OperatorLeads(level, i);
    }
  }

  lemma ClosesEndsChains(t: string)
    requires Closes(t)
    ensures Follows(t) && SkipSpace(t) == t
    ensures forall j :: 0 <= j < LEVELS ==> MatchOp(j, t).None?
  {
    forall j | 0 <= j < LEVELS
      ensures MatchOp(j, t).None?
    {
      if t != "" { CloserLeads(t[0], j); }
      NotAnOperator(j, t);
    }
  }

  lemma CloserLeads(c: char, level: nat)
    requires c == ')' || c == ']' || c == ',' || c == '}' || c == ':' || c == '.'
    ensures c !in Leads(level)
  {
  }

  /** The text of an operator and its right operand. */
  function Tail(op: BinOp, t: string): string { " " + (Symbol(op) + (" " + t)) }

  lemma SymbolAt(op: BinOp, t: string)
    ensures MatchOp(Level(op), Tail(op, t)) == Some((op, " " + t))
    ensures NoTighter(Level(op), Tail(op, t))
    ensures Follows(Tail(op, t))
  {
    var u := Symbol(op) + (" " + t);
    assert Tail(op, t)[1..] == u;
    SymbolLeads(op);
    assert u[0] == Symbol(op)[0];
    assert SkipSpace(Tail(op, t)) == u;
    SymbolFirst(op, u, t);
    assert u[|Symbol(op)|..] == " " + t;
    forall j | Level(op) < j < LEVELS
      ensures MatchOp(j, Tail(op, t)).None?
    {
      NotAnOperator(j, u);
    }
  }

  lemma SymbolLeads(op: BinOp)
    ensures 1 <= |Symbol(op)| <= 2 && !IsSpace(Symbol(op)[0])
    ensures forall j :: Level(op) < j < LEVELS ==> Symbol(op)[0] !in Leads(j)
  {
  }

  /** Where the spelling of op stands in its level's table. */
  function Place(op: BinOp): nat {
    match op
    case Or | Eq | Le | Add | Mul => 0
    case And | Ne | Ge | Sub | Div => 1
    case Mod => 2
    case Lt => 6
    case Gt => 7
  }

  lemma SymbolFirst(op: BinOp, u: string, t: string)
    requires u == Symbol(op) + (" " + t)
    ensures FirstMatch(Operators(Level(op)), u) == Some((Symbol(op), op))
  {
    var toks := Operators(Level(op));
    var r := FirstMatch(toks, u);
    var i := Place(op);
    assert toks[i] == (Symbol(op), op);
    assert TokenAt(toks[i].0, u);
    assert r.Some?;
    var k :| 0 <= k < |toks| && toks[k] == r.value && forall j :: 0 <= j < k ==> !TokenAt(toks[j].0, u);
    var tok := toks[k].0;
    assert u[0] == Symbol(op)[0] && u[1] == (Symbol(op) + " ")[1];
    assert u[0] == tok[0];
    assert |tok| == 2 ==> u[1] == tok[1];
    SameSpelling(op, k);
  }

  lemma SameSpelling(op: BinOp, k: nat)
    requires k <= Place(op) && k < |Operators(Level(op))|
    requires var tok := Operators(Level(op))[k].0;
             tok[0] == Symbol(op)[0] && (|tok| == 2 ==> tok[1] == (Symbol(op) + " ")[1])
    ensures k == Place(op)
  {
  }

  lemma IdentBack(name: string, t: string)
    requires IsIdent(name) && (t == "" || !IsIdentChar(t[0]))
    ensures IdentLen(name + t) == |name| && (name + t)[..|name|] == name && (name + t)[|name|..] == t
    ensures (name + t)[0] == name[0]
  {
    var s := name + t;
    assert forall i :: 0 <= i < |name| ==> s[i] == name[i];
    if t != "" { assert s[|name|] == t[0]; }
  }

  lemma {:induction false} QuotedBack(s: string, t: string)
    requires t == "" || t[0] != '\''
    ensures Quoted('\'', PrintQuoted(s, "'" + t)) == Some((s, t))
  {
    if s != "" {
      QuotedBack(s[1..], t);
      var u := PrintQuoted(s, "'" + t);
      var rest := PrintQuoted(s[1..], "'" + t);
      if s[0] == '\'' { assert u[2..] == rest && u[0] == u[1] == '\''; }
      else { assert u[1..] == rest; }
      assert [s[0]] + s[1..] == s;
    } else {
      var u := "'" + t;
      assert u[1..] == t;
    }
  }

  lemma DigitsBack(s: string, t: string)
    requires AllDigits(s) && (t == "" || !IsDigit(t[0]))
    ensures DigitLen(s + t) == |s| && (s + t)[..|s|] == s && (s + t)[|s|..] == t
  {
    assert forall i :: 0 <= i < |s| ==> (s + t)[i] == s[i];
    if t != "" { assert (s + t)[|s|] == t[0]; }
  }

  lemma IntBack(i: int, t: string)
    requires IsInt64(i) && Follows(t)
    ensures Number(FormatInt(i) + t) == Done(Literal(LInt(i)), t)
  {
    hide DigitsValue, Digits;
    var text := FormatInt(i);
    var s := text + t;
    var digits := Digits(if i < 0 then -i else i);
    DigitsBack(digits, t);
    assert s[0] == text[0] && IsDigit(digits[0]);
    if i < 0 { assert s[1..] == digits + t; }
    assert IntLen(s) == |text|;
    assert s[..|text|] == text && s[|text|..] == t;
    if |t| > 1 { assert s[|text|] == t[0] && s[|text| + 1] == t[1]; }
    ParseIntUndoesFormatInt(i);
  }

  /** A float's sign and integer digits. */
  lemma WholeBack(text: string, t: string)
    requires IsFloatText(text)
    ensures IntLen(text + t) == IntLen(text)
  {
    hide FloatFits, DigitsValue;
    var s := text + t;
    var n := IntLen(text);
    assert s[0] == text[0] && s[n] == text[n];
    var start := SignLen(text);
    assert text[start..][..n - start] == text[start..n];
    DigitsBack(text[start..n], text[n..] + t);
    assert s[start..] == text[start..n] + (text[n..] + t);
  }

  /** A float's point and fraction. */
  lemma FractionBack(text: string, t: string)
    requires IsFloatText(text) && Follows(t)
    ensures var n := IntLen(text);
            IsFloatAt(n, text + t) && n + 1 + DigitLen((text + t)[n + 1..]) == |text|
  {
    hide FloatFits, DigitsValue, IntLen;
    var s := text + t;
    var n := IntLen(text);
    assert s[n] == text[n] && s[n + 1] == text[n + 1];
    var fraction := text[n + 1..];
    assert s[n + 1..] == fraction + t;
    DigitsBack(fraction, t);
  }

  lemma FloatBack(text: string, t: string)
    requires IsFloatText(text) && Follows(t)
    ensures Number(text + t) == Done(Literal(LFloat(text)), t)
  {
    hide FloatFits, DigitsValue, IntLen, DigitLen;
    var s := text + t;
    WholeBack(text, t);
    FractionBack(text, t);
    assert s[..|text|] == text && s[|text|..] == t;
  }

  lemma LiteralBack(v: Lit, t: string, d: nat)
    requires WritableLit(v) && Follows(t) && d <= MAX_TEMPLATE_DEPTH
    ensures Primary(PrintLit(v, t), d) == Done(Literal(v), t)
    ensures OpensPrimary(PrintLit(v, t))
  {
    hide Primary, Number, Keyword, IsFloatText, Follows, Quoted, FormatInt, PrintQuoted, OpensPrimary;
    var s := PrintLit(v, t);
    match v
    case LNull => WordBack(s, "null", t); PrimaryLiteralStep(s, d);
    case LBool(b) => WordBack(s, if b then "true" else "false", t); PrimaryLiteralStep(s, d);
    case LInt(i) => IntBack(i, t); IntOpens(i, t); PrimaryLiteralStep(s, d);
    case LFloat(text) => FloatBack(text, t); FloatOpens(text, t); PrimaryLiteralStep(s, d);
    case LStr(body) =>
      FollowsNoQuote(t);
      QuotedBack(body, t);
      QuoteOpens(s);
      assert s[1..] == PrintQuoted(body, "'" + t);
      PrimaryLiteralStep(s, d);
  }

  lemma FollowsNoQuote(t: string)
    requires Follows(t)
    ensures t == "" || t[0] != '\''
  {
  }

  lemma QuoteOpens(s: string)
    requires s != "" && s[0] == '\''
    ensures OpensPrimary(s)
  {
    hide WordAt;
    NotWord(s);
  }

  lemma IntOpens(i: int, t: string)
    ensures OpensPrimary(FormatInt(i) + t)
    ensures FormatInt(i) + t != "" && (IsDigit((FormatInt(i) + t)[0]) || (FormatInt(i) + t)[0] == '-')
  {
    hide WordAt;
    var s := FormatInt(i) + t;
    assert s[0] == FormatInt(i)[0];
    if i < 0 { assert s[1] == Digits(-i)[0]; }
    NotWord(s);
  }

  /** How a literal starts decides how it is read. */
  lemma PrimaryLiteralStep(s: string, d: nat)
    requires d <= MAX_TEMPLATE_DEPTH && s != ""
    ensures IsIdentStart(s[0]) ==> Primary(s, d) == Keyword(s)
    ensures IsDigit(s[0]) || s[0] == '-' ==> Primary(s, d) == Number(s)
    ensures s[0] == '\'' && Quoted('\'', s[1..]).Some? ==>
      Primary(s, d) == Done(Literal(LStr(Quoted('\'', s[1..]).value.0)), Quoted('\'', s[1..]).value.1)
  {
    hide Expression, Reference, DoubleQuoted, ListOrRange, MapLiteral, Number, Keyword;
  }

  lemma WordBack(s: string, word: string, t: string)
    requires word in {"null", "true", "false"} && s == word + t && Follows(t)
    ensures Keyword(s) == Done(Literal(if word == "null" then LNull else LBool(word == "true")), t)
    ensures OpensPrimary(s) && IsIdentStart(s[0])
  {
    assert IsIdent("null") && IsIdent("true") && IsIdent("false");
    IdentBack(word, t);
    assert s[0] == word[0] && s[1] == word[1];
  }

  lemma FloatOpens(text: string, t: string)
    requires IsFloatText(text)
    ensures text + t != "" && OpensPrimary(text + t) && (IsDigit(text[0]) || text[0] == '-') && (text + t)[0] == text[0]
  {
    hide FloatFits, WordAt;
    assert (text + t)[0] == text[0] && (text + t)[1] == text[1];
    NotWord(text + t);
  }

  /** The text opens with a primary: no space and no prefix operator. */
  predicate OpensPrimary(s: string) {
    s != "" && !IsSpace(s[0]) && UnaryOperator(s).None?
  }

  // ---- Single steps of the grammar

  lemma ExpressionStep(s: string, d: nat)
    requires d < MAX_TEMPLATE_DEPTH
    ensures Expression(s, d) == Chain(0, s, d + 1)
  {
    hide Chain;
  }

  lemma ChainStep(level: nat, s: string, l: Expr, s1: string, d: nat)
    requires level < LEVELS && d <= MAX_TEMPLATE_DEPTH && Chain(level + 1, s, d) == Done(l, s1)
    ensures Chain(level, s, d) == ChainRest(level, l, s1, d, 0)
  {
    hide UnaryExpr, ChainRest;
  }

  lemma RestEnds(level: nat, l: Expr, s: string, d: nat, links: nat)
    requires level < LEVELS && d <= MAX_TEMPLATE_DEPTH && MatchOp(level, s).None?
    ensures ChainRest(level, l, s, d, links) == Done(l, SkipSpace(s))
  {
    hide Chain;
  }

  lemma RestGoesOn(level: nat, l: Expr, s: string, op: BinOp, s1: string, r: Expr, s2: string, d: nat, links: nat)
    requires level < LEVELS && d <= MAX_TEMPLATE_DEPTH && links < MAX_OPERATOR_CHAIN
    requires MatchOp(level, s) == Some((op, s1)) && Chain(level + 1, s1, d) == Done(r, s2)
    ensures ChainRest(level, l, s, d, links) == ChainRest(level, Binary(op, l, r), s2, d, links + 1)
  {
    hide Chain, MatchOp;
  }

  lemma UnaryStep(s: string, op: UnOp, s1: string, x: Expr, s2: string, d: nat)
    requires d < MAX_TEMPLATE_DEPTH && SkipSpace(s) == s && UnaryOperator(s) == Some((op, s1))
    requires UnaryExpr(s1, d + 1) == Done(x, s2)
    ensures UnaryExpr(s, d) == Done(Unary(op, x), s2)
  {
    hide Primary, UnaryOperator;
  }

  lemma PrimaryStep(s: string, d: nat)
    requires d < MAX_TEMPLATE_DEPTH && SkipSpace(s) == s && UnaryOperator(s).None?
    ensures UnaryExpr(s, d) == Primary(s, d + 1)
  {
    hide Primary, UnaryOperator;
  }

  lemma LastLevel(s: string, d: nat)
    requires d <= MAX_TEMPLATE_DEPTH
    ensures Chain(LEVELS, s, d) == UnaryExpr(s, d)
  {
    hide UnaryExpr, ChainRest;
  }

  lemma ParenthesesStep(s: string, x: Expr, t: string, d: nat)
    requires d <= MAX_TEMPLATE_DEPTH && Expression(s, d) == Done(x, ")" + t)
    ensures Primary("(" + s, d) == Done(x, t)
  {
    hide Expression, Reference, DoubleQuoted, ListOrRange, MapLiteral, Number, Keyword, Quoted, SkipSpace;
    var u := ")" + t;
    assert u[1..] == t;
    OneSpace(u);
    assert Expect(')', u) == Done((), t);
    var whole := "(" + s;
    assert whole[0] == '(';
    assert whole[1..] == s;
  }

  // ---- Reading a tree back

  /** What is left to do at a level once e has been read in front of t. */
  function Resume(level: nat, e: Expr, t: string, d: nat, links: nat): Parsed<Expr>
    requires level <= LEVELS && d <= MAX_TEMPLATE_DEPTH
  {
    if level == LEVELS then Done(e, t) else ChainRest(level, e, t, d, links)
  }

  /** An operand complete at a tighter level is the start of the chain at a looser one. */
  lemma {:induction false} Lift(level: nat, k: nat, s: string, e: Expr, t: string, u: string, d: nat)
    requires level < k <= LEVELS && d <= MAX_TEMPLATE_DEPTH
    requires Chain(k, s, d) == Done(e, u) && SkipSpace(u) == SkipSpace(t)
    requires NoTighter(level, t)
    ensures Chain(level, s, d) == ChainRest(level, e, t, d, 0)
    decreases k - level
  {
    hide Chain, ChainRest, SkipSpace, MatchOp;
    if level + 1 < k {
      Lift(level + 1, k, s, e, t, u, d);
      RestEnds(level + 1, e, t, d, 0);
      ChainStep(level, s, e, SkipSpace(t), d);
      SkipTwice(t);
      Resumes(level, e, SkipSpace(t), t, d, 0);
    } else {
      ChainStep(level, s, e, u, d);
      Resumes(level, e, u, t, d, 0);
    }
  }

  /** Leading white space does not change how a chain goes on. */
  lemma Resumes(level: nat, e: Expr, u: string, t: string, d: nat, links: nat)
    requires level < LEVELS && d <= MAX_TEMPLATE_DEPTH && SkipSpace(u) == SkipSpace(t)
    ensures ChainRest(level, e, u, d, links) == ChainRest(level, e, t, d, links)
  {
    hide Chain, SkipSpace;
  }

  /** Nor how an expression starts. */
  lemma {:induction false} SpaceIrrelevant(level: nat, s: string, d: nat)
    requires level <= LEVELS && d <= MAX_TEMPLATE_DEPTH
    ensures Chain(level, SkipSpace(s), d) == Chain(level, s, d)
    decreases LEVELS - level
  {
    hide Primary, ChainRest;
    if level < LEVELS {
      SpaceIrrelevant(level + 1, s, d);
    }
  }

  lemma OneSpace(s: string)
    requires s != "" && !IsSpace(s[0])
    ensures SkipSpace(s) == s && SkipSpace(" " + s) == s
  {
    assert (" " + s)[1..] == s;
  }

  lemma {:induction false} PrintBack(level: nat, full: bool, e: Expr, t: string, d: nat)
    requires level <= LEVELS && Writable(e) && ChainsFit(full, e)
    requires d + Need(level, full, e) <= MAX_TEMPLATE_DEPTH
    requires Follows(t) && NoTighter(level, t)
    ensures Chain(level, Print(level, full, e, t), d) == Resume(level, e, t, d, Links(level, full, e))
    decreases e, 2
  {
    hide Chain, ChainRest, Bare, NeedBare, Writable, ChainsFit, NoTighter, Follows, SkipSpace;
    if Parenthesised(level, full, e) {
      ParenthesesBack(full, e, t, d);
      LiftOperand(level, Print(level, full, e, t), e, t, d);
    } else {
      BareBack(level, full, e, t, d);
    }
  }

  /** Operators written without parentheses that reading e at a level goes through. */
  function BareLinks(level: nat, full: bool, e: Expr): nat {
    if e.Binary? && Level(e.op) == level then 1 + Links(level, full, e.l) else 0
  }

  lemma {:induction false} ParenthesesBack(full: bool, e: Expr, t: string, d: nat)
    requires Writable(e) && ChainsFit(full, e) && Rank(e) <= LEVELS
    requires d + 2 + NeedBare(full, e) <= MAX_TEMPLATE_DEPTH
    ensures Chain(LEVELS, "(" + Bare(full, e, ")" + t), d) == Done(e, t)
    decreases e, 1, 2
  {
    hide Chain, Bare, NeedBare, Writable, ChainsFit;
    InsideBack(full, e, ")" + t, d + 2);
    ParenthesesRead(Bare(full, e, ")" + t), e, t, d);
  }

  lemma {:induction false} InsideBack(full: bool, e: Expr, close: string, d: nat)
    requires Writable(e) && ChainsFit(full, e) && Closes(close) && Rank(e) <= LEVELS
    requires d + NeedBare(full, e) <= MAX_TEMPLATE_DEPTH
    ensures Chain(0, Bare(full, e, close), d) == Done(e, close)
    decreases e, 1, 1
  {
    hide Chain, ChainRest, Bare, NeedBare, Writable, ChainsFit, NoTighter, Follows, Closes, MatchOp, SkipSpace;
    ClosesEndsChains(close);
    EndsNoTighter(0, close);
    BareBack(0, full, e, close, d);
    RestEnds(0, e, close, d, BareLinks(0, full, e));
  }

  lemma ParenthesesRead(inner: string, e: Expr, t: string, d: nat)
    requires d + 2 <= MAX_TEMPLATE_DEPTH && Chain(0, inner, d + 2) == Done(e, ")" + t)
    ensures Chain(LEVELS, "(" + inner, d) == Done(e, t)
  {
    hide Chain, ChainRest, UnaryExpr, Primary, SkipSpace, UnaryOperator, Expression;
    ExpressionStep(inner, d + 1);
    ParenthesesStep(inner, e, t, d + 1);
    ParenthesisOpens(inner);
    PrimaryStep("(" + inner, d);
    LastLevel("(" + inner, d);
  }

  lemma EndsNoTighter(level: nat, t: string)
    requires forall j :: 0 <= j < LEVELS ==> MatchOp(j, t).None?
    ensures NoTighter(level, t)
  {
  }

  lemma ParenthesisOpens(inner: string)
    ensures SkipSpace("(" + inner) == "(" + inner && UnaryOperator("(" + inner).None?
  {
    hide WordAt, SkipSpace;
    NotWord("(" + inner);
    OneSpace("(" + inner);
  }

  lemma {:induction false} BareBack(level: nat, full: bool, e: Expr, t: string, d: nat)
    requires level <= LEVELS && level <= Rank(e) && Writable(e) && ChainsFit(full, e)
    requires d + NeedBare(full, e) <= MAX_TEMPLATE_DEPTH
    requires Follows(t) && NoTighter(level, t)
    ensures Chain(level, Bare(full, e, t), d) == Resume(level, e, t, d, BareLinks(level, full, e))
    decreases e, 1, 0
  {
    hide Chain, ChainRest, NoTighter, Bare, NeedBare, Follows, Writable, ChainsFit;
    if e.Binary? {
      TighterToo(level, Level(e.op), t);
      BinaryBack(full, e, t, d);
      LiftBinary(level, Level(e.op), Bare(full, e, t), e, t, d, BareLinks(Level(e.op), full, e));
    } else {
      if e.Unary? { UnaryBack(full, e, t, d); } else { OperandBack(full, e, t, d); }
      LiftOperand(level, Bare(full, e, t), e, t, d);
    }
  }

  lemma TighterToo(level: nat, k: nat, t: string)
    requires level <= k && NoTighter(level, t)
    ensures NoTighter(k, t)
  {
  }

  lemma LiftBinary(level: nat, k: nat, s: string, e: Expr, t: string, d: nat, links: nat)
    requires level <= k < LEVELS && d <= MAX_TEMPLATE_DEPTH && NoTighter(level, t)
    requires Chain(k, s, d) == ChainRest(k, e, t, d, links)
    ensures Chain(level, s, d) == if level == k then ChainRest(k, e, t, d, links) else ChainRest(level, e, t, d, 0)
  {
    hide Chain, ChainRest, MatchOp, SkipSpace;
    if level < k {
      RestEnds(k, e, t, d, links);
      SkipTwice(t);
      Lift(level, k, s, e, t, SkipSpace(t), d);
    }
  }

  lemma LiftOperand(level: nat, s: string, e: Expr, t: string, d: nat)
    requires level <= LEVELS && d <= MAX_TEMPLATE_DEPTH && NoTighter(level, t)
    requires Chain(LEVELS, s, d) == Done(e, t)
    ensures Chain(level, s, d) == Resume(level, e, t, d, 0)
  {
    hide Chain, ChainRest, MatchOp, SkipSpace;
    if level < LEVELS { Lift(level, LEVELS, s, e, t, t, d); }
  }

  lemma UnaryParts(full: bool, e: Expr, t: string)
    requires e.Unary? && Writable(e) && ChainsFit(full, e)
    ensures Writable(e.x) && ChainsFit(full, e.x) && NeedBare(full, e) == 1 + Need(LEVELS, full, e.x)
    ensures Bare(full, e, t) == (if e.uop.Not? then "!" else "-") + (" " + Print(LEVELS, full, e.x, t))
  {
    hide Need, Print;
  }

  lemma UnaryText(op: UnOp, inner: string)
    ensures var s := (if op.Not? then "!" else "-") + (" " + inner);
            SkipSpace(s) == s && UnaryOperator(s) == Some((op, " " + inner))
  {
    hide WordAt, SkipSpace;
    var s := (if op.Not? then "!" else "-") + (" " + inner);
    assert s[1..] == " " + inner && s[1] == ' ';
    NotWord(s);
    OneSpace(s);
  }

  lemma NotWord(s: string)
    requires s != "" && s[0] != 'n'
    ensures !WordAt("not", s)
  {
  }

  lemma {:induction false} UnaryBack(full: bool, e: Expr, t: string, d: nat)
    requires e.Unary? && Writable(e) && ChainsFit(full, e)
    requires d + NeedBare(full, e) <= MAX_TEMPLATE_DEPTH && Follows(t)
    ensures Chain(LEVELS, Bare(full, e, t), d) == Done(e, t)
    decreases e, 0
  {
    hide Chain, ChainRest, UnaryExpr, Print, Bare, Need, NeedBare, Follows, Writable, ChainsFit, SkipSpace,
         UnaryOperator;
    UnaryParts(full, e, t);
    PrintBack(LEVELS, full, e.x, t, d + 1);
    PrintOpens(LEVELS, full, e.x, t);
    UnaryRead(e.uop, Print(LEVELS, full, e.x, t), e.x, t, d);
  }

  lemma UnaryRead(op: UnOp, inner: string, x: Expr, t: string, d: nat)
    requires d < MAX_TEMPLATE_DEPTH && Opens(inner) && Chain(LEVELS, inner, d + 1) == Done(x, t)
    ensures Chain(LEVELS, (if op.Not? then "!" else "-") + (" " + inner), d) == Done(Unary(op, x), t)
  {
    hide Chain, ChainRest, UnaryExpr, SkipSpace, UnaryOperator;
    var s := (if op.Not? then "!" else "-") + (" " + inner);
    OneSpace(inner);
    SpaceIrrelevant(LEVELS, " " + inner, d + 1);
    LastLevel(" " + inner, d + 1);
    UnaryText(op, inner);
    UnaryStep(s, op, " " + inner, x, t, d);
    LastLevel(s, d);
  }

  lemma {:induction false} OperandBack(full: bool, e: Expr, t: string, d: nat)
    requires Rank(e) > LEVELS && Writable(e) && ChainsFit(full, e)
    requires d + NeedBare(full, e) <= MAX_TEMPLATE_DEPTH && Follows(t)
    ensures Chain(LEVELS, Bare(full, e, t), d) == Done(e, t)
    decreases e, 0, 1
  {
    hide Chain, ChainRest, UnaryExpr, Primary, Bare, Follows, Writable, ChainsFit;
    assert NeedBare(full, e) >= 1;
    PrimaryBack(full, e, t, d + 1);
    var s := Bare(full, e, t);
    OneSpace(s);
    PrimaryStep(s, d);
    LastLevel(s, d);
  }

  lemma BinaryParts(full: bool, e: Expr, t: string)
    requires e.Binary? && Writable(e) && ChainsFit(full, e)
    ensures Writable(e.l) && ChainsFit(full, e.l) && Writable(e.r) && ChainsFit(full, e.r)
    ensures NeedBare(full, e) >= Need(Level(e.op), full, e.l) && NeedBare(full, e) >= Need(Level(e.op) + 1, full, e.r)
    ensures Links(Level(e.op), full, e.l) < MAX_OPERATOR_CHAIN
    ensures Bare(full, e, t) == Print(Level(e.op), full, e.l, Tail(e.op, Print(Level(e.op) + 1, full, e.r, t)))
  {
    hide Need, Print, Level, Links;
  }

  /** The operator and the right operand of a chain's next link. */
  lemma {:induction false} RightBack(full: bool, op: BinOp, r: Expr, t: string, d: nat, l: Expr, links: nat)
    requires Writable(r) && ChainsFit(full, r) && links < MAX_OPERATOR_CHAIN
    requires d + Need(Level(op) + 1, full, r) <= MAX_TEMPLATE_DEPTH
    requires Follows(t) && NoTighter(Level(op), t)
    ensures ChainRest(Level(op), l, Tail(op, Print(Level(op) + 1, full, r, t)), d, links)
         == ChainRest(Level(op), Binary(op, l, r), t, d, links + 1)
    decreases r, 3
  {
    hide Chain, ChainRest, Print, Need, Follows, MatchOp, Links, SkipSpace, Tail, Writable, ChainsFit;
    var j := Level(op);
    var right := Print(j + 1, full, r, t);
    SymbolAt(op, right);
    TighterToo(j, j + 1, t);
    PrintBack(j + 1, full, r, t, d);
    PrintOpens(j + 1, full, r, t);
    OneSpace(right);
    SpaceIrrelevant(j + 1, " " + right, d);
    var u := if j + 1 == LEVELS then t else SkipSpace(t);
    if j + 1 < LEVELS { RestEnds(j + 1, r, t, d, Links(j + 1, full, r)); }
    RestGoesOn(j, l, Tail(op, right), op, " " + right, r, u, d, links);
    SkipTwice(t);
    Resumes(j, Binary(op, l, r), u, t, d, links + 1);
  }

  lemma {:induction false} BinaryBack(full: bool, e: Expr, t: string, d: nat)
    requires e.Binary? && Writable(e) && ChainsFit(full, e)
    requires d + NeedBare(full, e) <= MAX_TEMPLATE_DEPTH
    requires Follows(t) && NoTighter(Level(e.op), t)
    ensures Chain(Level(e.op), Bare(full, e, t), d) == ChainRest(Level(e.op), e, t, d, BareLinks(Level(e.op), full, e))
    decreases e, 0
  {
    hide Chain, ChainRest, Print, Bare, Need, NeedBare, Follows, NoTighter, Links, Tail, Writable, ChainsFit, MatchOp;
    var (op, l, r) := (e.op, e.l, e.r);
    var right := Print(Level(op) + 1, full, r, t);
    BinaryParts(full, e, t);
    SymbolAt(op, right);
    PrintBack(Level(op), full, l, Tail(op, right), d);
    RightBack(full, op, r, t, d, l, Links(Level(op), full, l));
  }

  lemma ReferenceStep(name: string, tail: string, chain: seq<Accessor>, t: string, d: nat)
    requires IsIdent(name) && EndsName(tail) && d <= MAX_TEMPLATE_DEPTH
    requires Accessors(tail, d, []) == Done(chain, t)
    ensures Reference("$" + (name + tail), d) == Done(Some((RefExpr(name, chain), false)), t)
    ensures Primary("$" + (name + tail), d) == Done(Ref(RefExpr(name, chain)), t)
  {
    hide Expression, Accessors, DoubleQuoted, ListOrRange, MapLiteral, Number, Keyword;
    var s := "$" + (name + tail);
    IdentBack(name, tail);
    assert s[1..] == name + tail;
  }

  lemma {:induction false} PrimaryBack(full: bool, e: Expr, t: string, d: nat)
    requires Rank(e) > LEVELS && Writable(e) && ChainsFit(full, e)
    requires d + NeedBare(full, e) <= MAX_TEMPLATE_DEPTH + 1
    requires 1 <= d <= MAX_TEMPLATE_DEPTH
    requires Follows(t)
    ensures Primary(Bare(full, e, t), d) == Done(e, t)
    ensures OpensPrimary(Bare(full, e, t))
    decreases e, 0, 0
  {
    hide Expression, Accessors, DoubleQuoted, Reference, Arguments, ListOrRange, MapLiteral, Number, Keyword,
         Follows, PrintLit, Print, PrintItems, PrintEntries, PrintChain, Need;
    var s := Bare(full, e, t);
    match e
    case Literal(v) => LiteralBack(v, t, d);
    case Ref(ref) =>
      AccessorsBack(full, ref.chain, t, d, []);
      assert [] + ref.chain == ref.chain;
      ReferenceStep(ref.name, PrintChain(full, ref.chain, t), ref.chain, t, d);
    case ListExpr(items) =>
      assert s[1..] == PrintItems(full, items, "]" + t);
      ListBack(full, items, t, d);
    case RangeExpr(from, to) =>
      var tail := Print(0, full, to, "]" + t);
      ItemBack(full, from, ".." + tail, d);
      ItemBack(full, to, "]" + t, d);
      RangeStep(Print(0, full, from, ".." + tail), from, tail, to, t, d);
      assert s[1..] == Print(0, full, from, ".." + tail);
    case MapExpr(entries) =>
      assert s[1..] == PrintEntries(full, entries, "}" + t);
      MapBack(full, entries, t, d);
  }

  /** No expression's text opens with a space or a closing bracket. */
  predicate Opens(s: string) {
    s != "" && !IsSpace(s[0]) && s[0] != ')' && s[0] != ']' && s[0] != '}'
  }

  lemma {:induction false} PrintOpens(level: nat, full: bool, e: Expr, t: string)
    requires Writable(e)
    ensures Opens(Print(level, full, e, t))
    decreases e
  {
    if !Parenthesised(level, full, e) {
      match e
      case Binary(op, l, r) =>
        PrintOpens(Level(op), full, l, " " + (Symbol(op) + (" " + Print(Level(op) + 1, full, r, t))));
      case Literal(LInt(i)) => assert Bare(full, e, t)[0] == FormatInt(i)[0];
      case Literal(LFloat(text)) => assert Bare(full, e, t)[0] == text[0];
      case _ =>
    }
  }

  /** One expression in front of a closing bracket, comma, colon or range dots. */
  lemma {:induction false} ItemBack(full: bool, e: Expr, t: string, d: nat)
    requires Writable(e) && ChainsFit(full, e) && Closes(t)
    requires d + 1 + Need(0, full, e) <= MAX_TEMPLATE_DEPTH
    ensures Expression(Print(0, full, e, t), d) == Done(e, t)
    ensures Expression(" " + Print(0, full, e, t), d) == Done(e, t)
    ensures Opens(Print(0, full, e, t))
    decreases e, 3
  {
    hide Chain, ChainRest, Print, Need, Writable, ChainsFit, Closes;
    var s := Print(0, full, e, t);
    PrintOpens(0, full, e, t);
    ClosesEndsChains(t);
    PrintBack(0, full, e, t, d + 1);
    RestEnds(0, e, t, d + 1, Links(0, full, e));
    OneSpace(s);
    SpaceIrrelevant(0, " " + s, d + 1);
    ExpressionStep(s, d);
    ExpressionStep(" " + s, d);
  }

  lemma RangeStep(s: string, from: Expr, tail: string, to: Expr, t: string, d: nat)
    requires d <= MAX_TEMPLATE_DEPTH && Opens(s)
    requires Expression(s, d) == Done(from, ".." + tail) && Expression(tail, d) == Done(to, "]" + t)
    ensures ListOrRange(s, d) == Done(RangeExpr(from, to), t)
  {
    hide Expression, Arguments, SkipSpace;
    var dots := ".." + tail;
    OneSpace(s);
    OneSpace(dots);
    assert dots[2..] == tail && PairAt('.', '.', dots);
    OneSpace("]" + t);
    assert ("]" + t)[1..] == t;
  }

  lemma ListEmpty(s: string, d: nat)
    requires d <= MAX_TEMPLATE_DEPTH && s != "" && s[0] == ']'
    ensures ListOrRange(s, d) == Done(ListExpr([]), s[1..])
  {
    hide Expression, Arguments;
  }

  lemma ListOne(s: string, a: Expr, t: string, d: nat)
    requires d <= MAX_TEMPLATE_DEPTH && Opens(s) && Expression(s, d) == Done(a, "]" + t)
    ensures ListOrRange(s, d) == Done(ListExpr([a]), t)
  {
    hide Expression, Arguments, SkipSpace;
    var close := "]" + t;
    OneSpace(s);
    OneSpace(close);
    assert close[1..] == t;
  }

  lemma ListMany(s: string, a: Expr, rest: string, items: seq<Expr>, t: string, d: nat)
    requires d <= MAX_TEMPLATE_DEPTH && Opens(s) && Expression(s, d) == Done(a, ", " + rest)
    requires Arguments(']', " " + rest, d, []) == Done(items, t)
    ensures ListOrRange(s, d) == Done(ListExpr([a] + items), t)
  {
    hide Expression, Arguments, SkipSpace;
    var tail := ", " + rest;
    OneSpace(s);
    OneSpace(tail);
    assert tail[1..] == " " + rest;
  }

  /** The first of several items and what is written behind it. */
  lemma ItemsParts(full: bool, items: seq<Expr>, t: string, d: nat)
    requires WritableItems(items) && (forall x <- items :: ChainsFit(full, x)) && items != []
    requires d + NeedItems(full, items) <= MAX_TEMPLATE_DEPTH
    ensures Writable(items[0]) && ChainsFit(full, items[0]) && d + 1 + Need(0, full, items[0]) <= MAX_TEMPLATE_DEPTH
    ensures WritableItems(items[1..]) && forall x <- items[1..] :: ChainsFit(full, x)
    ensures d + NeedItems(full, items[1..]) <= MAX_TEMPLATE_DEPTH
    ensures [items[0]] + items[1..] == items
    ensures PrintItems(full, items, t)
         == Print(0, full, items[0], if |items| == 1 then t else ", " + PrintItems(full, items[1..], t))
  {
    hide Writable, ChainsFit, Need, Print;
  }

  lemma {:induction false} ListBack(full: bool, items: seq<Expr>, t: string, d: nat)
    requires WritableItems(items) && forall x <- items :: ChainsFit(full, x)
    requires d + NeedItems(full, items) <= MAX_TEMPLATE_DEPTH
    ensures ListOrRange(PrintItems(full, items, "]" + t), d) == Done(ListExpr(items), t)
    decreases items, 5
  {
    hide ListOrRange, Expression, Arguments, Print, Need, NeedItems, Writable, WritableItems, ChainsFit;
    var close := "]" + t;
    if items == [] {
      ListEmpty(close, d);
      assert close[1..] == t;
    } else {
      ItemsParts(full, items, close, d);
      var s := PrintItems(full, items, close);
      if |items| == 1 {
        ItemBack(full, items[0], close, d);
        ListOne(s, items[0], t, d);
        assert [items[0]] == items;
      } else {
        var rest := PrintItems(full, items[1..], close);
        ItemBack(full, items[0], ", " + rest, d);
        ItemsBack(full, items[1..], close, d, []);
        assert [] + items[1..] == items[1..] && close[1..] == t;
        ListMany(s, items[0], rest, items[1..], t, d);
      }
    }
  }

  lemma {:induction false} ItemsBack(full: bool, items: seq<Expr>, close: string, d: nat, done: seq<Expr>)
    requires close != "" && (close[0] == ')' || close[0] == ']')
    requires items != [] || done == []
    requires WritableItems(items) && forall x <- items :: ChainsFit(full, x)
    requires d + NeedItems(full, items) <= MAX_TEMPLATE_DEPTH
    ensures Arguments(close[0], PrintItems(full, items, close), d, done) == Done(done + items, close[1..])
    ensures Arguments(close[0], " " + PrintItems(full, items, close), d, done) == Done(done + items, close[1..])
    decreases items, 4
  {
    hide Arguments, Expression, Print, Need, NeedItems, Writable, WritableItems, ChainsFit, SkipSpace, Opens;
    OneSpace(close);
    if items == [] {
      ArgumentsEmpty(close[0], close, d);
      ArgumentsEmpty(close[0], " " + close, d);
      assert done + items == [];
    } else {
      var s := PrintItems(full, items, close);
      ItemsParts(full, items, close, d);
      if |items| == 1 {
        ItemBack(full, items[0], close, d);
        OpensSkip(s);
        ArgumentsLast(close[0], s, items[0], close, d, done);
        ArgumentsLast(close[0], " " + s, items[0], close, d, done);
        assert items == [items[0]];
      } else {
        MoreItemsBack(full, items, s, PrintItems(full, items[1..], close), close, d, done);
      }
    }
  }

  lemma {:induction false} MoreItemsBack(full: bool, items: seq<Expr>, s: string, rest: string, close: string, d: nat,
                                         done: seq<Expr>)
    requires close != "" && (close[0] == ')' || close[0] == ']') && |items| > 1
    requires Writable(items[0]) && ChainsFit(full, items[0]) && d + 1 + Need(0, full, items[0]) <= MAX_TEMPLATE_DEPTH
    requires WritableItems(items[1..]) && forall x <- items[1..] :: ChainsFit(full, x)
    requires d + NeedItems(full, items[1..]) <= MAX_TEMPLATE_DEPTH
    requires s == Print(0, full, items[0], ", " + rest) && rest == PrintItems(full, items[1..], close)
    ensures Arguments(close[0], s, d, done) == Done(done + items, close[1..])
    ensures Arguments(close[0], " " + s, d, done) == Done(done + items, close[1..])
    decreases items, 3
  {
    hide Arguments, Expression, Print, PrintItems, Need, NeedItems, Writable, WritableItems, ChainsFit, SkipSpace,
         Opens;
    ItemBack(full, items[0], ", " + rest, d);
    OpensSkip(s);
    CommaSkip(rest);
    ItemsBack(full, items[1..], close, d, done + [items[0]]);
    ArgumentsComma(close[0], s, items[0], ", " + rest, d, done);
    ArgumentsComma(close[0], " " + s, items[0], ", " + rest, d, done);
    assert done + [items[0]] + items[1..] == done + items;
  }

  lemma OpensSkip(s: string)
    requires Opens(s)
    ensures SkipSpace(s) == s && SkipSpace(" " + s) == s
  {
    OneSpace(s);
  }

  lemma CommaSkip(rest: string)
    ensures var tail := ", " + rest; SkipSpace(tail) == tail && tail[1..] == " " + rest && Closes(tail)
  {
    OneSpace(", " + rest);
  }

  lemma ArgumentsEmpty(closer: char, s: string, d: nat)
    requires d <= MAX_TEMPLATE_DEPTH && SkipSpace(s) != "" && SkipSpace(s)[0] == closer
    ensures Arguments(closer, s, d, []) == Done([], SkipSpace(s)[1..])
  {
    hide Expression;
  }

  lemma ArgumentsLast(closer: char, s: string, a: Expr, s1: string, d: nat, done: seq<Expr>)
    requires d <= MAX_TEMPLATE_DEPTH && Opens(SkipSpace(s)) && (closer == ')' || closer == ']')
    requires Expression(s, d) == Done(a, s1) && Expression(SkipSpace(s), d) == Done(a, s1)
    requires SkipSpace(s1) != "" && SkipSpace(s1)[0] == closer
    ensures Arguments(closer, s, d, done) == Done(done + [a], SkipSpace(s1)[1..])
  {
    hide Expression, SkipSpace;
  }

  lemma ArgumentsComma(closer: char, s: string, a: Expr, s1: string, d: nat, done: seq<Expr>)
    requires d <= MAX_TEMPLATE_DEPTH && Opens(SkipSpace(s)) && (closer == ')' || closer == ']')
    requires Expression(s, d) == Done(a, s1) && Expression(SkipSpace(s), d) == Done(a, s1)
    requires SkipSpace(s1) != "" && SkipSpace(s1)[0] == ','
    ensures Arguments(closer, s, d, done) == Arguments(closer, SkipSpace(s1)[1..], d, done + [a])
  {
    hide Expression, SkipSpace;
  }

  lemma {:induction false} EntryBack(full: bool, entry: Entry, t: string, d: nat)
    requires WritableEntry(entry) && ChainsFitEntry(full, entry) && Closes(t)
    requires d + NeedEntry(full, entry) <= MAX_TEMPLATE_DEPTH
    ensures MapEntry(PrintEntry(full, entry, t), d) == Done(entry, t)
    ensures MapEntry(" " + PrintEntry(full, entry, t), d) == Done(entry, t)
    ensures Opens(PrintEntry(full, entry, t))
    decreases entry, 0
  {
    hide Expression, Print, Need, Writable, ChainsFit, SkipSpace;
    var val := Print(0, full, entry.val, t);
    var tail := ": " + val;
    ItemBack(full, entry.key, tail, d);
    ItemBack(full, entry.val, t, d);
    OneSpace(tail);
    assert tail[1..] == " " + val;
    assert Entry(entry.key, entry.val) == entry;
  }

  /** What is left after an entry decides how the map goes on. */
  lemma EntriesStep(s: string, entry: Entry, s1: string, d: nat, done: seq<Entry>)
    requires d <= MAX_TEMPLATE_DEPTH && MapEntry(s, d) == Done(entry, s1)
    requires s1 != "" && (s1[0] == ',' || s1[0] == '}')
    ensures MapEntries(s, d, done)
         == if s1[0] == ',' then MapEntries(s1[1..], d, done + [entry]) else Done(MapExpr(done + [entry]), s1[1..])
  {
    hide MapEntry;
    OneSpace(s1);
  }

  lemma OnlyEntry(entries: seq<Entry>)
    requires |entries| == 1
    ensures entries == [entries[0]]
  {
  }

  lemma {:induction false} EntriesBack(full: bool, entries: seq<Entry>, t: string, d: nat, done: seq<Entry>)
    requires entries != [] && WritableEntries(entries) && forall x <- entries :: ChainsFitEntry(full, x)
    requires d + NeedEntries(full, entries) <= MAX_TEMPLATE_DEPTH
    ensures MapEntries(PrintEntries(full, entries, "}" + t), d, done) == Done(MapExpr(done + entries), t)
    ensures MapEntries(" " + PrintEntries(full, entries, "}" + t), d, done) == Done(MapExpr(done + entries), t)
    ensures Opens(PrintEntries(full, entries, "}" + t))
    decreases entries, 4
  {
    hide MapEntry, MapEntries, Print, PrintEntry, NeedEntry, WritableEntry, ChainsFitEntry;
    var entry := entries[0];
    var close := "}" + t;
    var s := PrintEntries(full, entries, close);
    var last := |entries| == 1;
    var s1 := if last then close else ", " + PrintEntries(full, entries[1..], close);
    EntryBack(full, entry, s1, d);
    EntriesStep(s, entry, s1, d, done);
    EntriesStep(" " + s, entry, s1, d, done);
    if last {
      assert close[1..] == t;
      OnlyEntry(entries);
    } else {
      EntriesBack(full, entries[1..], t, d, done + [entry]);
      assert s1[1..] == " " + PrintEntries(full, entries[1..], close);
      assert done + [entry] + entries[1..] == done + entries;
    }
  }

  lemma {:induction false} MapBack(full: bool, entries: seq<Entry>, t: string, d: nat)
    requires WritableEntries(entries) && forall x <- entries :: ChainsFitEntry(full, x)
    requires d + NeedEntries(full, entries) <= MAX_TEMPLATE_DEPTH
    ensures MapLiteral(PrintEntries(full, entries, "}" + t), d) == Done(MapExpr(entries), t)
    decreases entries, 5
  {
    hide MapEntries, PrintEntry, WritableEntry, ChainsFitEntry, NeedEntry;
    var s := PrintEntries(full, entries, "}" + t);
    assert ("}" + t)[1..] == t;
    if entries == [] {
      OneSpace(s);
    } else {
      EntriesBack(full, entries, t, d, []);
      OneSpace(s);
      assert [] + entries == entries;
    }
  }

  lemma {:induction false} AccessorsBack(full: bool, chain: seq<Accessor>, t: string, d: nat, done: seq<Accessor>)
    requires WritableChain(chain) && forall a <- chain :: ChainsFitAccessor(full, a)
    requires d + NeedChain(full, chain) <= MAX_TEMPLATE_DEPTH && Follows(t)
    ensures Accessors(PrintChain(full, chain, t), d, done) == Done(done + chain, t)
    ensures EndsName(PrintChain(full, chain, t))
    decreases chain, 0
  {
    hide Expression, Arguments, PrintAccessor, WritableAccessor, ChainsFitAccessor, NeedAccessor;
    if chain == [] {
      assert done + chain == done;
    } else {
      var rest := PrintChain(full, chain[1..], t);
      AccessorsBack(full, chain[1..], t, d, done + [chain[0]]);
      assert done + [chain[0]] + chain[1..] == done + chain;
      AccessorBack(full, chain[0], rest, d, done);
    }
  }

  /** No identifier character and no argument list is next. */
  predicate EndsName(t: string) { t == "" || (!IsIdentChar(t[0]) && t[0] != '(') }

  lemma PropertyStep(name: string, t: string, d: nat, done: seq<Accessor>)
    requires IsIdent(name) && EndsName(t) && d <= MAX_TEMPLATE_DEPTH
    ensures Accessors("." + (name + t), d, done) == Accessors(t, d, done + [Property(name)])
  {
    hide Expression, Arguments;
    var s := "." + (name + t);
    IdentBack(name, t);
    assert s[1..] == name + t && s[1] == name[0];
  }

  lemma MethodStep(name: string, inner: string, args: seq<Expr>, t: string, d: nat, done: seq<Accessor>)
    requires IsIdent(name) && d <= MAX_TEMPLATE_DEPTH && Arguments(')', inner, d, []) == Done(args, t)
    ensures Accessors("." + (name + ("(" + inner)), d, done) == Accessors(t, d, done + [Method(name, args)])
  {
    hide Expression, Arguments;
    var tail := "(" + inner;
    var s := "." + (name + tail);
    IdentBack(name, tail);
    assert s[1..] == name + tail && s[1] == name[0];
    assert tail[1..] == inner;
  }

  lemma IndexStep(inner: string, index: Expr, t: string, d: nat, done: seq<Accessor>)
    requires d <= MAX_TEMPLATE_DEPTH && Expression(inner, d) == Done(index, "]" + t)
    ensures Accessors("[" + inner, d, done) == Accessors(t, d, done + [Accessor.Index(index)])
  {
    hide Expression, Arguments;
    assert ("[" + inner)[1..] == inner && ("]" + t)[1..] == t;
  }

  lemma {:induction false} AccessorBack(full: bool, a: Accessor, t: string, d: nat, done: seq<Accessor>)
    requires WritableAccessor(a) && ChainsFitAccessor(full, a)
    requires d + NeedAccessor(full, a) <= MAX_TEMPLATE_DEPTH && EndsName(t)
    ensures Accessors(PrintAccessor(full, a, t), d, done) == Accessors(t, d, done + [a])
    ensures EndsName(PrintAccessor(full, a, t))
    decreases a, 0
  {
    hide Expression, Arguments, Accessors, Print, PrintItems, Need;
    match a
    case Property(name) =>
      PropertyStep(name, t, d, done);
    case Method(name, args) =>
      ItemsBack(full, args, ")" + t, d, []);
      assert [] + args == args && (")" + t)[1..] == t;
      MethodStep(name, PrintItems(full, args, ")" + t), args, t, d, done);
    case Index(index) =>
      ItemBack(full, index, "]" + t, d);
      IndexStep(Print(0, full, index, "]" + t), index, t, d, done);
  }

  // ---- The main results

  /** The text of an expression, with the least parentheses or with all of them. */
  function Source(full: bool, e: Expr): string { Print(0, full, e, "") }

  /**
   Parsing the text of an expression gives the expression back and reads all of it, at every
   depth the parser may be at, when the nesting and the chains are within the limits.
   */
  lemma ParseUndoesPrint(full: bool, e: Expr, depth: nat)
    requires Writable(e) && ChainsFit(full, e)
    requires depth + 1 + Need(0, full, e) <= MAX_TEMPLATE_DEPTH
    ensures Expression(Source(full, e), depth) == Done(e, "")
  {
    ItemBack(full, e, "", depth);
  }

  /** first op x op x ..., from the left. */
  function LeftFold(first: Expr, links: seq<(BinOp, Expr)>): Expr {
    if links == [] then first
    else
      var last := links[|links| - 1];
      Binary(last.0, LeftFold(first, links[..|links| - 1]), last.1)
  }

  /** The text of a run of operators of one level, in front of t, without parentheses around it. */
  function ChainSource(level: nat, first: Expr, links: seq<(BinOp, Expr)>, t: string): string {
    if links == [] then Print(level, false, first, t)
    else
      var last := links[|links| - 1];
      ChainSource(level, first, links[..|links| - 1], Tail(last.0, Print(level + 1, false, last.1, t)))
  }

  lemma {:induction false} ChainSourceIsPrint(level: nat, first: Expr, links: seq<(BinOp, Expr)>, t: string)
    requires forall x <- links :: Level(x.0) == level
    ensures ChainSource(level, first, links, t) == Print(level, false, LeftFold(first, links), t)
  {
    if links != [] {
      var last := links[|links| - 1];
      ChainSourceIsPrint(level, first, links[..|links| - 1], Tail(last.0, Print(level + 1, false, last.1, t)));
    }
  }

  /** Any run of operators of one level comes back grouped from the left. */
  lemma OperatorsAssociateLeft(level: nat, first: Expr, links: seq<(BinOp, Expr)>, depth: nat)
    requires links != [] && forall x <- links :: Level(x.0) == level
    requires Writable(LeftFold(first, links)) && ChainsFit(false, LeftFold(first, links))
    requires depth + 1 + Need(0, false, LeftFold(first, links)) <= MAX_TEMPLATE_DEPTH
    ensures Expression(ChainSource(level, first, links, ""), depth) == Done(LeftFold(first, links), "")
  {
    hide Expression, Writable, ChainsFit, Need, Bare;
    ChainSourceIsPrint(level, first, links, "");
    assert links[|links| - 1] in links;
    ParseUndoesPrint(false, LeftFold(first, links), depth);
  }
}
