/**
 The parser as the repository runs it: an object whose methods advance pos and count depth.
 Every method is proved to return what the grammar says for the unread text and the depth it
 starts at, and to leave unread what the grammar leaves.
 */
module Parsing {
  import opened Common
  import opened Ast
  import opened Scan
  import opened Grammar

  class Parser {
    const src: string
    var pos: nat
    /** How many levels the cursor is inside. */
    var depth: nat
    /** The '#' of the directive read last. */
    var dirStart: nat

    constructor (src: string, depth: nat)
      ensures this.src == src && this.pos == 0 && this.depth == depth
    {
      this.src := src;
      this.pos, this.dirStart := 0, 0;
      this.depth := depth;
    }

    ghost predicate Valid()
      reads this
    {
      pos <= |src| && depth <= MAX_TEMPLATE_DEPTH
    }

    ghost function Unread(): (s: string)
      reads `pos
      requires pos <= |src|
      ensures |s| == |src| - pos
    {
      src[pos..]
    }

    /** r and the parser's state are what the grammar's answer p says, back at depth d. */
    ghost predicate Agrees<T(!new)>(r: Result<T, Fault>, p: Parsed<T>, d: nat)
      reads this
    {
      match p
      case Done(v, rest) => r == Ok(v) && Valid() && depth == d && Unread() == rest
      case Fail(fault) => r == Err(fault)
    }

    /** A block that an #elseif closed was closed by the most recent directive. */
    ghost predicate ElseIfAt(b: Block)
      reads `dirStart
    {
      b.term.ElseIfTerm? ==> dirStart <= |src| && src[dirStart..] == b.start
    }

    /** Descends one nesting level, failing past the limit. */
    method Enter() returns (ok: bool)
      requires Valid()
      modifies this`depth
      ensures depth == old(depth) + 1
      ensures ok <==> old(depth) < MAX_TEMPLATE_DEPTH
    {
      depth := depth + 1;
      ok := depth <= MAX_TEMPLATE_DEPTH;
    }

    method Leave()
      requires depth > 0
      modifies this`depth
      ensures depth == old(depth) - 1
    {
      depth := depth - 1;
    }

    // ---- Scanning

    method PeekChar() returns (c: char)
      requires pos <= |src|
      ensures c == Peek(Unread())
    {
      c := if pos >= |src| then '\0' else src[pos];
    }

    /** Moves past the next character. */
    method Advance()
      requires pos <= |src| && Unread() != ""
      modifies this`pos
      ensures pos <= |src| && Unread() == old(Unread())[1..]
    {
      pos := pos + 1;
    }

    lemma UnreadFrom(start: nat, s: string)
      requires start == pos <= |src| && s == Unread()
      ensures s == src[start..]
    {
    }

    /** Goes to a position. */
    method Rewind(start: nat, ghost s: string)
      requires start <= |src| && s == src[start..]
      modifies this`pos
      ensures pos <= |src| && Unread() == s
    {
      pos := start;
    }

    /** Consumes the two characters a and b when they are next. */
    method ConsumePair(a: char, b: char) returns (ok: bool)
      requires pos <= |src|
      modifies this`pos
      ensures pos <= |src|
      ensures ok <==> PairAt(a, b, old(Unread()))
      ensures Unread() == if ok then old(Unread())[2..] else old(Unread())
    {
      ok := pos + 1 < |src| && src[pos] == a && src[pos + 1] == b;
      if ok { pos := pos + 2; }
    }

    method SkipSpaces()
      requires pos <= |src|
      modifies this`pos
      ensures pos <= |src| && Unread() == SkipSpace(old(Unread()))
    {
      while pos < |src| && IsSpace(src[pos])
        invariant pos <= |src|
        invariant SkipSpace(Unread()) == SkipSpace(old(Unread()))
      {
        ghost var s := Unread();
        pos := pos + 1;
        assert Unread() == s[1..];
      }
    }

    method Ident() returns (name: string)
      requires pos <= |src|
      modifies this`pos
      ensures pos <= |src|
      ensures name == old(Unread())[..IdentLen(old(Unread()))]
      ensures Unread() == old(Unread())[IdentLen(old(Unread()))..]
    {
      var start := pos;
      while pos < |src| && IsIdentChar(src[pos])
        invariant start <= pos <= |src|
        invariant pos - start + IdentLen(Unread()) == IdentLen(src[start..])
      {
        pos := pos + 1;
      }
      name := src[start..pos];
    }

    method SkipDigits()
      requires pos <= |src|
      modifies this`pos
      ensures pos == old(pos) + DigitLen(old(Unread())) <= |src|
    {
      var start := pos;
      while pos < |src| && IsDigit(src[pos])
        invariant start <= pos <= |src|
        invariant pos - start + DigitLen(Unread()) == DigitLen(src[start..])
      {
        pos := pos + 1;
      }
    }

    /** Consumes c when it is next. */
    method Consume(c: char) returns (ok: bool)
      requires pos <= |src|
      modifies this`pos
      ensures pos <= |src|
      ensures ok <==> old(Unread()) != "" && old(Unread())[0] == c
      ensures Unread() == if ok then old(Unread())[1..] else old(Unread())
    {
      ok := pos < |src| && src[pos] == c;
      if ok { pos := pos + 1; }
    }

    method ConsumeWord(word: string) returns (ok: bool)
      requires pos <= |src|
      modifies this`pos
      ensures pos <= |src|
      ensures ok <==> WordAt(word, old(Unread()))
      ensures Unread() == if ok then old(Unread())[|word|..] else old(Unread())
    {
      var end := pos + |word|;
      ok := word <= src[pos..] && !(end < |src| && IsIdentChar(src[end]));
      if ok { pos := end; }
    }

    method ExpectChar(c: char) returns (r: Result<(), Fault>)
      requires Valid()
      modifies this`pos
      ensures Agrees(r, Expect(c, old(Unread())), old(depth))
    {
      hide Unread, SkipSpace;
      SkipSpaces();
      var ok := Consume(c);
      r := if ok then Ok(()) else Err(Expected(c));
    }

    /** Reads a string whose opening delimiter is next, dropping the doubling of delimiters. */
    method QuotedString(q: char) returns (r: Result<string, Fault>)
      requires Valid() && pos < |src|
      modifies this`pos
      ensures match Quoted(q, old(Unread())[1..])
              case None => r == Err(UnterminatedString)
              case Some((body, rest)) => r == Ok(body) && pos <= |src| && Unread() == rest
    {
      pos := pos + 1;
      var b := "";
      ghost var whole := Unread();
      PrependNothing(Quoted(q, whole));
      while pos < |src|
        invariant pos <= |src|
        invariant Quoted(q, whole) == Prepend(b, Quoted(q, Unread()))
      {
        var c := src[pos];
        ghost var before := Unread();
        ghost var was := b;
        pos := pos + 1;
        if c != q {
          b := b + [c];
          assert Prepend(b, Quoted(q, Unread())) == Prepend(was, Quoted(q, before)) by {
            PrependOne(was, c, Quoted(q, Unread()));
          }
        } else if pos < |src| && src[pos] == q {
          b := b + [q];
          pos := pos + 1;
          assert before[2..] == Unread();
          assert Prepend(b, Quoted(q, Unread())) == Prepend(was, Quoted(q, before)) by {
            PrependOne(was, q, Quoted(q, Unread()));
          }
        } else {
          assert b + "" == b;
          return Ok(b);
        }
      }
      r := Err(UnterminatedString);
    }

    /** Text read earlier stands in front of a string read later. */
    static ghost function Prepend(b: string, r: Option<(string, string)>): Option<(string, string)> {
      match r
      case None => None
      case Some((body, rest)) => Some((b + body, rest))
    }

    static lemma PrependNothing(r: Option<(string, string)>)
      ensures Prepend("", r) == r
    {
      if r.Some? { assert "" + r.value.0 == r.value.0; }
    }

    static lemma PrependOne(b: string, c: char, r: Option<(string, string)>)
      ensures Prepend(b + [c], r) ==
              Prepend(b, match r case None => None case Some((body, rest)) => Some(([c] + body, rest)))
    {
      if r.Some? { assert b + [c] + r.value.0 == b + ([c] + r.value.0); }
    }

    // ---- Operators

    /** Consumes the longest operator of a level, trying its spellings in any order. */
    method MatchOperator(level: nat) returns (r: Option<BinOp>)
      requires Valid() && level < LEVELS
      modifies this`pos
      ensures pos <= |src|
      ensures match MatchOp(level, old(Unread()))
              case None => r == None && Unread() == SkipSpace(old(Unread()))
              case Some((op, rest)) => r == Some(op) && Unread() == rest
    {
      hide Operators, SkipSpace;
      SkipSpaces();
      ghost var s := Unread();
      var ops := set t | t in Operators(level);
      var todo := ops;
      var best: Option<(string, BinOp)> := None;
      while todo != {}
        invariant todo <= ops
        invariant best.Some? ==> best.value in ops && TokenAt(best.value.0, s)
        invariant forall t <- ops :: t !in todo && TokenAt(t.0, s) ==>
          best.Some? && |t.0| <= |best.value.0|
        decreases todo
      {
        var t :| t in todo;
        todo := todo - {t};
        var end := pos + |t.0|;
        if t.0 != "" && t.0 <= src[pos..] && (best.None? || |t.0| > |best.value.0|)
           && !(IsIdentStart(t.0[0]) && end < |src| && IsIdentChar(src[end])) {
          best := Some(t);
        }
      }
      LongestIsFirst(level, s, best);
      if best.None? { return None; }
      pos := pos + |best.value.0|;
      r := Some(best.value.1);
    }

    /** The longest spelling that matches is the first in the table, which lists longer ones first. */
    static lemma LongestIsFirst(level: nat, s: string, best: Option<(string, BinOp)>)
      requires level < LEVELS
      requires best.Some? ==> best.value in Operators(level) && TokenAt(best.value.0, s)
      requires forall t <- Operators(level) :: TokenAt(t.0, s) ==> best.Some? && |t.0| <= |best.value.0|
      ensures FirstMatch(Operators(level), s) == best
    {
      hide Operators;
      var toks := Operators(level);
      var r := FirstMatch(toks, s);
      if best.Some? {
        var i :| 0 <= i < |toks| && toks[i] == best.value;
        var k :| 0 <= k < |toks| && toks[k] == r.value && forall j :: 0 <= j < k ==> !TokenAt(toks[j].0, s);
        assert r.value in toks;
        TableSorted(level, k, i);
        assert toks[k].0 == s[..|toks[k].0|] == toks[i].0;
        SpellingsDiffer(level, k, i);
      }
    }

    static lemma TableSorted(level: nat, i: nat, j: nat)
      requires level < LEVELS && i <= j < |Operators(level)|
      ensures |Operators(level)[i].0| >= |Operators(level)[j].0|
    {
    }

    static lemma SpellingsDiffer(level: nat, i: nat, j: nat)
      requires level < LEVELS && i < |Operators(level)| && j < |Operators(level)|
      requires Operators(level)[i].0 == Operators(level)[j].0
      ensures i == j
    {
      if level == 0 {
      } else if level == 1 {
      } else if level == 2 {
      } else if level == 3 {
      } else if level == 4 {
      } else {
      }
    }

    method MatchUnary() returns (r: Option<UnOp>)
      requires Valid()
      modifies this`pos
      ensures pos <= |src|
      ensures match UnaryOperator(old(Unread()))
              case None => r == None && Unread() == old(Unread())
              case Some((op, rest)) => r == Some(op) && Unread() == rest
    {
      if pos < |src| && src[pos] == '!' && !(pos + 1 < |src| && src[pos + 1] == '=') {
        pos := pos + 1;
        return Some(Not);
      }
      var not := ConsumeWord("not");
      if not { return Some(Not); }
      if pos + 1 < |src| && src[pos] == '-' && !IsDigit(src[pos + 1]) {
        pos := pos + 1;
        return Some(Neg);
      }
      r := None;
    }

    // ---- Expressions

    method ParseExpr() returns (r: Result<Expr, Fault>)
      requires Valid()
      modifies this
      ensures Agrees(r, Expression(old(Unread()), old(depth)), old(depth))
      decreases MAX_TEMPLATE_DEPTH - depth, 0, |Unread()|
    {
      hide Unread, Chain, SkipSpace;
      var ok := Enter();
      if !ok { return Err(TooDeep); }
      r := ParseBinary(0);
      if r.Ok? { Leave(); }
    }

    /** A left-associative chain of the operators of a level; past the last level, a unary. */
    method ParseBinary(level: nat) returns (r: Result<Expr, Fault>)
      requires Valid() && level <= LEVELS
      modifies this
      ensures Agrees(r, Chain(level, old(Unread()), old(depth)), old(depth))
      decreases MAX_TEMPLATE_DEPTH - depth, 10 + 2 * (LEVELS - level), |Unread()|
    {
      hide Unread, UnaryExpr, MatchOp, SkipSpace;
      if level == LEVELS {
        r := ParseUnary();
        return;
      }
      ghost var whole := Chain(level, Unread(), depth);
      var l :- ParseBinary(level + 1);
      var links := 0;
      while true
        invariant Valid() && depth == old(depth)
        invariant whole == ChainRest(level, l, Unread(), depth, links)
        decreases |Unread()|
      {
        var op := MatchOperator(level);
        if op.None? { return Ok(l); }
        if links >= MAX_OPERATOR_CHAIN { return Err(TooManyOperators); }
        var x :- ParseBinary(level + 1);
        l, links := Binary(op.value, l, x), links + 1;
      }
    }

    method ParseUnary() returns (r: Result<Expr, Fault>)
      requires Valid()
      modifies this
      ensures Agrees(r, UnaryExpr(old(Unread()), old(depth)), old(depth))
      decreases MAX_TEMPLATE_DEPTH - depth, 0, |Unread()|
    {
      hide Unread, Primary, UnaryOperator, SkipSpace;
      var ok := Enter();
      if !ok { return Err(TooDeep); }
      SkipSpaces();
      var op := MatchUnary();
      if op.None? {
        r := ParsePrimary();
      } else {
        var x :- ParseUnary();
        r := Ok(Unary(op.value, x));
      }
      if r.Ok? { Leave(); }
    }

    method ParsePrimary() returns (r: Result<Expr, Fault>)
      requires Valid()
      modifies this
      ensures Agrees(r, Primary(old(Unread()), old(depth)), old(depth))
      decreases MAX_TEMPLATE_DEPTH - depth, 5, |Unread()|
    {
      hide Expression, Reference, DoubleQuoted, ListOrRange, MapLiteral, Quoted, Number, Keyword, SkipSpace;
      if pos >= |src| { return Err(UnexpectedEnd); }
      var c := src[pos];
      if c == '$' {
        var ref :- ParseRef();
        r := if ref.None? then Err(InvalidReference) else Ok(Ref(ref.value.0));
      } else if c == '"' {
        r := ParseDoubleQuoted();
      } else if c == '\'' {
        var body :- QuotedString('\'');
        r := Ok(Literal(LStr(body)));
      } else if IsDigit(c) || c == '-' {
        r := ParseNumber();
      } else if IsIdentStart(c) {
        r := ParseKeyword();
      } else {
        r := ParseBracketed(c);
      }
    }

    method ParseBracketed(c: char) returns (r: Result<Expr, Fault>)
      requires Valid() && pos < |src| && src[pos] == c
      requires c != '$' && c != '"' && c != '\'' && c != '-' && !IsDigit(c) && !IsIdentStart(c)
      modifies this
      ensures Agrees(r, Primary(old(Unread()), old(depth)), old(depth))
      decreases MAX_TEMPLATE_DEPTH - depth, 4, |Unread()|
    {
      hide Expression, Reference, DoubleQuoted, ListOrRange, MapLiteral, SkipSpace;
      ghost var whole := Unread();
      if c == '[' {
        pos := pos + 1;
        assert Unread() == whole[1..];
        r := ParseListOrRange();
      } else if c == '{' {
        pos := pos + 1;
        assert Unread() == whole[1..];
        r := ParseMap();
      } else if c == '(' {
        pos := pos + 1;
        assert Unread() == whole[1..];
        var x :- ParseExpr();
        var _ :- ExpectChar(')');
        r := Ok(x);
      } else {
        r := Err(UnexpectedInExpression([c]));
      }
    }

    method ParseKeyword() returns (r: Result<Expr, Fault>)
      requires Valid()
      modifies this`pos
      ensures Agrees(r, Keyword(old(Unread())), old(depth))
    {
      var start := pos;
      var word := Ident();
      match word {
        case "true" => r := Ok(Literal(LBool(true)));
        case "false" => r := Ok(Literal(LBool(false)));
        case "null" => r := Ok(Literal(LNull));
        case _ =>
          pos := start;
          r := Err(UnexpectedInExpression(word));
      }
    }

    /** Moves over a number and says whether it has a fraction. */
    method SkipNumber() returns (isFloat: bool)
      requires pos <= |src|
      modifies this`pos
      ensures var s, n := old(Unread()), IntLen(old(Unread()));
              && isFloat == IsFloatAt(n, s)
              && pos == old(pos) + (if isFloat then n + 1 + DigitLen(s[n + 1..]) else n) <= |src|
    {
      hide IntLen, DigitLen;
      ghost var s := Unread();
      SkipInt();
      isFloat := pos + 1 < |src| && src[pos] == '.' && IsDigit(src[pos + 1]);
      if isFloat {
        pos := pos + 1;
        assert Unread() == s[IntLen(s) + 1..];
        SkipDigits();
      }
    }

    method ParseNumber() returns (r: Result<Expr, Fault>)
      requires Valid()
      modifies this`pos
      ensures Agrees(r, Number(old(Unread())), old(depth))
    {
      hide ParseInt, FloatFits, DigitsValue, IntLen, DigitLen, IsFloatAt;
      var start := pos;
      ghost var s := Unread();
      var isFloat := SkipNumber();
      var text := src[start..pos];
      assert text == s[..pos - start] && Unread() == s[pos - start..];
      if isFloat {
        r := if FloatFits(text) then Ok(Literal(LFloat(text))) else Err(InvalidNumber(text));
      } else {
        var i := ParseInt(text);
        r := if i.None? then Err(InvalidNumber(text)) else Ok(Literal(LInt(i.value)));
      }
    }

    method SkipInt()
      requires pos <= |src|
      modifies this`pos
      ensures pos == old(pos) + IntLen(old(Unread())) <= |src|
    {
      ghost var s := Unread();
      var c := PeekChar();
      if c == '-' { pos := pos + 1; }
      assert Unread() == s[SignLen(s)..];
      SkipDigits();
    }

    /** A string with '$' or '#' is parsed as a template by a parser of its own at this depth. */
    method ParseDoubleQuoted() returns (r: Result<Expr, Fault>)
      requires Valid() && pos < |src|
      modifies this`pos
      ensures Agrees(r, DoubleQuoted(old(Unread())[1..], old(depth)), old(depth))
      decreases MAX_TEMPLATE_DEPTH - depth, 1, |Unread()|
    {
      hide ParseBlock, Quoted, SkipSpace;
      var s :- QuotedString('"');
      if '$' !in s && '#' !in s { return Ok(Literal(LStr(s))); }
      var sub := new Parser(s, depth);
      assert sub.Unread() == s;
      var block :- sub.ParseBlockNodes();
      r := if block.term.NoTerm? then Ok(Interpolated(block.nodes)) else Err(TerminatorInString(block.term));
    }

    method ParseListOrRange() returns (r: Result<Expr, Fault>)
      requires Valid()
      modifies this
      ensures Agrees(r, ListOrRange(old(Unread()), old(depth)), old(depth))
      decreases MAX_TEMPLATE_DEPTH - depth, 2, |Unread()|
    {
      hide Unread, Expression, Arguments, RangeEnd, SkipSpace;
      SkipSpaces();
      var closed := Consume(']');
      if closed { return Ok(ListExpr([])); }
      var first :- ParseExpr();
      SkipSpaces();
      var dots := ConsumePair('.', '.');
      if dots {
        r := ParseRangeEnd(first);
        return;
      }
      closed := Consume(']');
      if closed { return Ok(ListExpr([first])); }
      var comma := Consume(',');
      if !comma { return Err(Expected(']')); }
      var rest :- ParseArgs(']');
      r := Ok(ListExpr([first] + rest));
    }

    method ParseRangeEnd(from: Expr) returns (r: Result<Expr, Fault>)
      requires Valid()
      modifies this
      ensures Agrees(r, RangeEnd(from, old(Unread()), old(depth)), old(depth))
      decreases MAX_TEMPLATE_DEPTH - depth, 1, |Unread()|
    {
      hide Unread, Expression, SkipSpace;
      var to :- ParseExpr();
      var _ :- ExpectChar(']');
      r := Ok(RangeExpr(from, to));
    }

    method ParseArgs(closer: char) returns (r: Result<seq<Expr>, Fault>)
      requires Valid() && closer != '\0'
      modifies this
      ensures Agrees(r, Arguments(closer, old(Unread()), old(depth), []), old(depth))
      decreases MAX_TEMPLATE_DEPTH - depth, 1, |Unread()|
    {
      hide Unread, Expression, SkipSpace;
      ghost var whole := Arguments(closer, Unread(), depth, []);
      SkipTwice(Unread());
      SkipSpaces();
      var c := PeekChar();
      if c == closer {
        Advance();
        return Ok([]);
      }
      var args: seq<Expr> := [];
      while true
        invariant Valid() && depth == old(depth)
        invariant args == [] ==> SkipSpace(Unread()) == Unread() && Peek(Unread()) != closer
        invariant whole == Arguments(closer, Unread(), depth, args)
        decreases |Unread()|
      {
        var a :- ParseExpr();
        args := args + [a];
        SkipSpaces();
        c := PeekChar();
        if c == ',' {
          Advance();
        } else if c == closer {
          Advance();
          return Ok(args);
        } else {
          return Err(Expected(closer));
        }
      }
    }

    method ParseMap() returns (r: Result<Expr, Fault>)
      requires Valid()
      modifies this
      ensures Agrees(r, MapLiteral(old(Unread()), old(depth)), old(depth))
      decreases MAX_TEMPLATE_DEPTH - depth, 3, |Unread()|
    {
      hide Unread, MapEntries, SkipSpace;
      SkipSpaces();
      var closed := Consume('}');
      if closed { return Ok(MapExpr([])); }
      r := ParseEntries();
    }

    method ParseEntries() returns (r: Result<Expr, Fault>)
      requires Valid()
      modifies this
      ensures Agrees(r, MapEntries(old(Unread()), old(depth), []), old(depth))
      decreases MAX_TEMPLATE_DEPTH - depth, 2, |Unread()|
    {
      hide Unread, MapEntry, SkipSpace;
      ghost var whole := MapEntries(Unread(), depth, []);
      var entries: seq<Entry> := [];
      while true
        invariant Valid() && depth == old(depth)
        invariant whole == MapEntries(Unread(), depth, entries)
        decreases |Unread()|
      {
        var entry :- ParseEntry();
        entries := entries + [entry];
        SkipSpaces();
        var comma := Consume(',');
        if !comma {
          var closed := Consume('}');
          r := if closed then Ok(MapExpr(entries)) else Err(Expected('}'));
          return;
        }
      }
    }

    method ParseEntry() returns (r: Result<Entry, Fault>)
      requires Valid()
      modifies this
      ensures Agrees(r, MapEntry(old(Unread()), old(depth)), old(depth))
      decreases MAX_TEMPLATE_DEPTH - depth, 1, |Unread()|
    {
      hide Unread, Expression, SkipSpace;
      var k :- ParseExpr();
      var _ :- ExpectChar(':');
      var v :- ParseExpr();
      r := Ok(Entry(k, v));
    }

    // ---- References

    /** A reference and whether it is quiet; None, at the same position, when none stands here. */
    method ParseRef() returns (r: Result<Option<(RefExpr, bool)>, Fault>)
      requires Valid()
      modifies this
      ensures Agrees(r, Reference(old(Unread()), old(depth)), old(depth))
      decreases MAX_TEMPLATE_DEPTH - depth, 3, |Unread()|
    {
      hide Unread, Accessors, IdentLen, ReferenceOpening;
      var start := pos;
      ghost var s := Unread();
      UnreadFrom(start, s);
      var found, quiet, braced := OpenReference();
      if !found { return Ok(None); }
      var name := Ident();
      var chain :- ParseChain();
      if braced {
        var c := PeekChar();
        if c != '}' {
          Rewind(start, s);
          return Ok(None);
        }
        Advance();
      }
      r := Ok(Some((RefExpr(name, chain), quiet)));
    }

    /** Moves to the name of a reference, or stays when there is none. */
    method OpenReference() returns (found: bool, quiet: bool, braced: bool)
      requires pos <= |src|
      modifies this`pos
      ensures pos <= |src|
      ensures var (q, b, rest) := ReferenceOpening(old(Unread()));
              if rest == "" || !IsIdentStart(rest[0]) then !found && Unread() == old(Unread())
              else found && quiet == q && braced == b && Unread() == rest
    {
      var i := pos + 1;
      quiet := i < |src| && src[i] == '!';
      if quiet { i := i + 1; }
      braced := i < |src| && src[i] == '{';
      if braced { i := i + 1; }
      found := i < |src| && IsIdentStart(src[i]);
      if found { pos := i; }
    }

    method ParseChain() returns (r: Result<seq<Accessor>, Fault>)
      requires Valid()
      modifies this
      ensures Agrees(r, Accessors(old(Unread()), old(depth), []), old(depth))
      decreases MAX_TEMPLATE_DEPTH - depth, 2, |Unread()|
    {
      hide Unread, Expression, Arguments, IdentLen, SkipSpace;
      ghost var whole := Accessors(Unread(), depth, []);
      var chain: seq<Accessor> := [];
      while pos < |src|
        invariant Valid() && depth == old(depth) && |Unread()| <= |old(Unread())|
        invariant whole == Accessors(Unread(), depth, chain)
        decreases |Unread()|
      {
        var c := PeekChar();
        var named := AtProperty();
        if named {
          Advance();
          var name := Ident();
          c := PeekChar();
          if c != '(' {
            chain := chain + [Property(name)];
          } else {
            Advance();
            var args :- ParseArgs(')');
            chain := chain + [Method(name, args)];
          }
        } else if c == '[' {
          Advance();
          var idx :- ParseExpr();
          var _ :- ExpectChar(']');
          chain := chain + [Accessor.Index(idx)];
        } else {
          return Ok(chain);
        }
      }
      r := Ok(chain);
    }

    /** A dot and the start of a name are next. */
    method AtProperty() returns (b: bool)
      requires pos <= |src|
      ensures b <==> |Unread()| > 1 && Unread()[0] == '.' && IsIdentStart(Unread()[1])
    {
      b := pos + 1 < |src| && src[pos] == '.' && IsIdentStart(src[pos + 1]);
    }

    // ---- Blocks and directives

    method ParseBlockNodes() returns (r: Result<Block, Fault>)
      requires Valid()
      modifies this
      ensures Agrees(r, ParseBlock(src, old(Unread()), old(depth)), old(depth))
      ensures r.Ok? ==> ElseIfAt(r.value)
      decreases MAX_TEMPLATE_DEPTH - depth, 0, |Unread()|
    {
      hide Unread, Reference, Hash, PlainLen, AppendText, Escape;
      var ok := Enter();
      if !ok { return Err(TooDeep); }
      ghost var whole := BlockNodes(src, Unread(), depth, []);
      var nodes: seq<Node> := [];
      while pos < |src|
        invariant Valid() && depth == old(depth) + 1
        invariant whole == BlockNodes(src, Unread(), depth, nodes)
        decreases |Unread()|
      {
        var text := PlainText();
        nodes := AppendText(nodes, text);
        var c := PeekChar();
        if pos == |src| {
        } else if c == '\\' {
          var escaped := ParseEscape();
          nodes := AppendText(nodes, escaped);
        } else if c == '$' {
          var ref :- ParseRef();
          if ref.None? {
            Advance();
            nodes := AppendText(nodes, "$");
          } else {
            nodes := nodes + [RefNode(ref.value.0, ref.value.1)];
          }
        } else {
          var block :- ParseHash(nodes);
          if !block.term.NoTerm? {
            Leave();
            return Ok(block);
          }
          nodes := block.nodes;
        }
      }
      Leave();
      r := Ok(Block(nodes, NoTerm, ""));
    }

    /** Consumes the plain text up to the next special character. */
    method PlainText() returns (text: string)
      requires pos <= |src|
      modifies this`pos
      ensures pos <= |src|
      ensures text == old(Unread())[..PlainLen(old(Unread()))]
      ensures Unread() == old(Unread())[PlainLen(old(Unread()))..]
    {
      var n := PlainLen(src[pos..]);
      text := src[pos..pos + n];
      pos := pos + n;
    }

    method ParseEscape() returns (text: string)
      requires pos <= |src| && Unread() != ""
      modifies this`pos
      ensures pos <= |src|
      ensures (text, Unread()) == Escape(old(Unread()))
    {
      ghost var s := Unread();
      if pos + 1 < |src| && (src[pos + 1] == '$' || src[pos + 1] == '#') {
        text := src[pos + 1..pos + 2];
        pos := pos + 2;
        assert text == s[1..2];
      } else {
        text := "\\";
        pos := pos + 1;
      }
    }

    method ParseHash(nodes: seq<Node>) returns (r: Result<Block, Fault>)
      requires Valid() && Unread() != "" && Unread()[0] == '#'
      modifies this
      ensures Agrees(r, Hash(src, old(Unread()), old(depth), nodes), old(depth))
      ensures r.Ok? ==> ElseIfAt(r.value)
      decreases MAX_TEMPLATE_DEPTH - depth, 8, |Unread()|
    {
      hide Directive, IdentLen, DirectiveName, AppendText, Scan.Index, IsKnown, IsUnsupported, Grammar.Gobble;
      var start := pos;
      var rest := src[pos..];
      if PairAt('#', '#', rest) {
        var end := Scan.Index(rest, "\n");
        pos := if end.None? then |src| else pos + end.value + 1;
        return Ok(Block(nodes, NoTerm, ""));
      }
      if PairAt('#', '*', rest) {
        var end := Scan.Index(rest[2..], "*#");
        if end.None? { return Err(UnterminatedComment); }
        pos := pos + end.value + 4;
        assert Unread() == rest[end.value + 4..];
        var kept := GobbleLine(nodes, start);
        return Ok(Block(kept, NoTerm, ""));
      }
      if PairAt('#', '[', rest) && Peek(rest[2..]) == '[' {
        var end := Scan.Index(rest, "]]#");
        if end.None? { return Err(UnterminatedBlock); }
        UnparsedEnd(rest, end.value);
        pos := pos + end.value + 3;
        return Ok(Block(AppendText(nodes, rest[3..end.value]), NoTerm, ""));
      }
      r := ParseNamed(nodes);
    }

    /** The end of an unparsed block is behind its three opening characters. */
    static lemma UnparsedEnd(s: string, i: nat)
      requires PairAt('#', '[', s) && Peek(s[2..]) == '[' && i + 3 <= |s| && "]]#" <= s[i..]
      ensures i >= 3
    {
      assert s[i..][0] == s[i] == ']' && s[i..][1] == s[i + 1] == ']' && s[i..][2] == s[i + 2] == '#';
    }

    /** A '#' that opens no comment and no unparsed block: a directive or plain text. */
    method ParseNamed(nodes: seq<Node>) returns (r: Result<Block, Fault>)
      requires Valid() && Unread() != "" && Unread()[0] == '#'
      requires !PairAt('#', '#', Unread()) && !PairAt('#', '*', Unread())
      requires !(PairAt('#', '[', Unread()) && Peek(Unread()[2..]) == '[')
      modifies this
      ensures Agrees(r, Hash(src, old(Unread()), old(depth), nodes), old(depth))
      ensures r.Ok? ==> ElseIfAt(r.value)
      decreases MAX_TEMPLATE_DEPTH - depth, 7, |Unread()| + 1
    {
      hide Unread, Directive, IdentLen, DirectiveName, AppendText, Scan.Index, IsKnown, IsUnsupported, PairAt;
      var start := pos;
      dirStart := start;
      UnreadFrom(start, Unread());
      var name, braced, next := ReadDirectiveName();
      if IsUnsupported(name) { return Err(Unsupported(name)); }
      if !IsKnown(name) {
        Advance();
        return Ok(Block(AppendText(nodes, "#"), NoTerm, ""));
      }
      Rewind(next, DirectiveName(Unread()).2);
      if braced {
        var c := PeekChar();
        if c != '}' { return Err(MalformedDirective(name)); }
        Advance();
      }
      r := ParseDirective(start, name, nodes);
    }

    /** The name behind '#' or '#{', without consuming it, and the position behind it. */
    method ReadDirectiveName() returns (name: string, braced: bool, next: nat)
      requires pos <= |src| && Unread() != ""
      ensures (name, braced) == (DirectiveName(Unread()).0, DirectiveName(Unread()).1)
      ensures next <= |src| && DirectiveName(Unread()).2 == src[next..]
    {
      hide IdentLen;
      braced := pos + 1 < |src| && src[pos + 1] == '{';
      var i := if braced then pos + 2 else pos + 1;
      assert src[i..] == if braced then Unread()[2..] else Unread()[1..];
      name := src[i..][..IdentLen(src[i..])];
      next := i + |name|;
    }

    /** A directive that starts at start and whose name has been read. */
    method ParseDirective(start: nat, name: string, nodes: seq<Node>) returns (r: Result<Block, Fault>)
      requires Valid() && start == dirStart <= |src|
      modifies this
      ensures Agrees(r, Directive(src, src[start..], name, old(Unread()), old(depth), nodes), old(depth))
      ensures r.Ok? ==> ElseIfAt(r.value)
      decreases MAX_TEMPLATE_DEPTH - depth, 7, |Unread()|
    {
      hide Unread, If, Foreach, Return, Simple, SkipSpace, Grammar.Gobble;
      match name {
        case "else" =>
          var kept := GobbleLine(nodes, start);
          r := Ok(Block(kept, ElseTerm, src[start..]));
        case "end" =>
          var kept := GobbleLine(nodes, start);
          r := Ok(Block(kept, EndTerm, src[start..]));
        case "elseif" => r := Ok(Block(nodes, ElseIfTerm, src[start..]));
        case "if" => r := ParseIf(start, nodes);
        case "foreach" => r := ParseForeach(start, nodes);
        case "return" => r := ParseReturn(start, nodes);
        case _ =>
          var node :- ParseSimple(name);
          r := AddNode(start, nodes, node);
      }
    }

    method ParseSimple(name: string) returns (r: Result<Node, Fault>)
      requires Valid()
      modifies this
      ensures Agrees(r, Simple(name, old(Unread()), old(depth)), old(depth))
      decreases MAX_TEMPLATE_DEPTH - depth, 6, |Unread()|
    {
      hide Unread, Grammar.Set;
      match name {
        case "break" => r := Ok(BreakNode);
        case "stop" => r := Ok(StopNode);
        case _ => r := ParseSet();
      }
    }

    /** The node of a directive that has been read. */
    method AddNode(start: nat, nodes: seq<Node>, node: Node) returns (r: Result<Block, Fault>)
      requires Valid() && start <= |src|
      modifies this`pos
      ensures Agrees(r, WithNode(src, src[start..], nodes, node, old(Unread())), old(depth))
    {
      hide Unread, Grammar.Gobble;
      var kept := GobbleLine(nodes, start);
      r := Ok(Block(kept + [node], NoTerm, ""));
    }

    // ---- Directives alone on their line

    /** Drops the line around a directive that has it to itself: blanks in front, and all behind it. */
    method GobbleLine(nodes: seq<Node>, start: nat) returns (kept: seq<Node>)
      requires pos <= |src| && start <= |src|
      modifies this`pos
      ensures pos <= |src|
      ensures (kept, Unread()) == Grammar.Gobble(src, src[start..], nodes, old(Unread()))
    {
      hide LineRest, BlankBefore, TrimIndent;
      var end := BlankLineEnd(start);
      if end.None? { return nodes; }
      pos := end.value;
      if nodes == [] || !nodes[|nodes| - 1].Text? { return nodes; }
      var parts := TrimParts(nodes[|nodes| - 1].parts);
      kept := if parts == [] then nodes[..|nodes| - 1] else nodes[|nodes| - 1 := Text(parts)];
    }

    /** The end of the line of the directive from start to here, if nothing else is on it. */
    method BlankLineEnd(start: nat) returns (end: Option<nat>)
      requires pos <= |src| && start <= |src|
      ensures end.Some? <==> BlankBefore(src, start) && LineRest(Unread()).Some?
      ensures end.Some? ==> end.value <= |src| && src[end.value..] == LineRest(Unread()).value
    {
      var i := start;
      while i > 0 && IsBlank(src[i - 1])
        invariant 0 <= i <= start && BlankBefore(src, start) == BlankBefore(src, i)
      {
        i := i - 1;
      }
      if i > 0 && src[i - 1] != '\n' { return None; }
      var j := pos;
      while j < |src| && (IsBlank(src[j]) || src[j] == '\r')
        invariant pos <= j <= |src| && LineRest(src[j..]) == LineRest(Unread())
      {
        assert src[j..][1..] == src[j + 1..];
        j := j + 1;
      }
      if j == |src| { return Some(j); }
      end := if src[j] == '\n' then Some(j + 1) else None;
    }

    /** trimIndent: from the last part on, up to one that is not blank. */
    method TrimParts(parts: seq<string>) returns (kept: seq<string>)
      ensures kept == TrimIndent(parts)
    {
      hide TrimBlanks;
      kept := parts;
      while kept != []
        invariant TrimIndent(kept) == TrimIndent(parts)
      {
        var last := |kept| - 1;
        var trimmed := TrimBlanks(kept[last]);
        if trimmed != "" { return kept[last := trimmed]; }
        kept := kept[..last];
      }
    }

    method ParseSet() returns (r: Result<Node, Fault>)
      requires Valid()
      modifies this
      ensures Agrees(r, Set(old(Unread()), old(depth)), old(depth))
      decreases MAX_TEMPLATE_DEPTH - depth, 5, |Unread()|
    {
      hide Unread, Reference, Expression, SkipSpace;
      var _ :- ExpectChar('(');
      SkipSpaces();
      var target :- ParseRef();
      if target.None? { return Err(SetNeedsReference); }
      SkipSpaces();
      var equals := Consume('=');
      if !equals { return Err(SetNeedsEquals); }
      var value :- ParseExpr();
      var _ :- ExpectChar(')');
      r := Ok(SetNode(target.value.0, value));
    }

    method ParseCondition() returns (r: Result<Expr, Fault>)
      requires Valid()
      modifies this
      ensures Agrees(r, Condition(old(Unread()), old(depth)), old(depth))
      decreases MAX_TEMPLATE_DEPTH - depth, 1, |Unread()|
    {
      hide Unread, Expression, SkipSpace;
      var _ :- ExpectChar('(');
      var cond :- ParseExpr();
      var _ :- ExpectChar(')');
      r := Ok(cond);
    }

    method ParseIf(start: nat, nodes: seq<Node>) returns (r: Result<Block, Fault>)
      requires Valid() && start <= |src|
      modifies this
      ensures Agrees(r, If(src, src[start..], old(Unread()), old(depth), nodes), old(depth))
      decreases MAX_TEMPLATE_DEPTH - depth, 6, |Unread()|
    {
      hide Unread, Condition, IfBranches, SkipSpace, Grammar.Gobble;
      var cond :- ParseCondition();
      var kept := GobbleLine(nodes, start);
      var node :- ParseBranches(cond);
      r := Ok(Block(kept + [node], NoTerm, ""));
    }

    /** The branches of an #if whose first condition has been read. */
    method ParseBranches(first: Expr) returns (r: Result<Node, Fault>)
      requires Valid()
      modifies this
      ensures Agrees(r, IfBranches(src, first, old(Unread()), old(depth), []), old(depth))
      decreases MAX_TEMPLATE_DEPTH - depth, 5, |Unread()|
    {
      hide Unread, Condition, ParseBlock, SkipSpace, Grammar.Gobble;
      ghost var whole := IfBranches(src, first, Unread(), depth, []);
      var cond := first;
      var branches: seq<Branch> := [];
      while true
        invariant Valid() && depth == old(depth)
        invariant whole == IfBranches(src, cond, Unread(), depth, branches)
        decreases |Unread()|
      {
        var block :- ParseBlockNodes();
        match block.term {
          case ElseIfTerm =>
            var elseStart := dirStart;
            var next :- ParseCondition();
            var body := GobbleLine(block.nodes, elseStart);
            branches := branches + [Branch(cond, body)];
            cond := next;
          case ElseTerm =>
            var other :- ParseBlockNodes();
            branches := branches + [Branch(cond, block.nodes)];
            r := if other.term.EndTerm? then Ok(IfNode(branches, Else(other.nodes))) else Err(MissingEnd("else"));
            return;
          case EndTerm => return Ok(IfNode(branches + [Branch(cond, block.nodes)], NoElse));
          case NoTerm => return Err(MissingEnd("if"));
        }
      }
    }

    method ParseForeach(start: nat, nodes: seq<Node>) returns (r: Result<Block, Fault>)
      requires Valid() && start <= |src|
      modifies this
      ensures Agrees(r, Foreach(src, src[start..], old(Unread()), old(depth), nodes), old(depth))
      decreases MAX_TEMPLATE_DEPTH - depth, 6, |Unread()|
    {
      hide Unread, ForeachHead, ParseBlock, Grammar.Gobble;
      var head :- ParseForeachHead();
      var kept := GobbleLine(nodes, start);
      var block :- ParseBlockNodes();
      r := if block.term.EndTerm? then Ok(Block(kept + [ForeachNode(head.0, head.1, block.nodes)], NoTerm, ""))
           else Err(MissingEnd("foreach"));
    }

    /** The parenthesised loop variable and the expression it ranges over. */
    method ParseForeachHead() returns (r: Result<(string, Expr), Fault>)
      requires Valid()
      modifies this
      ensures Agrees(r, ForeachHead(old(Unread()), old(depth)), old(depth))
      decreases MAX_TEMPLATE_DEPTH - depth, 5, |Unread()|
    {
      hide Unread, LoopVariable, Expression, WordAt, SkipSpace;
      var name :- ParseLoopVariable();
      SkipSpaces();
      var word := ConsumeWord("in");
      if !word { return Err(ForeachNeedsIn); }
      var iter :- ParseExpr();
      var _ :- ExpectChar(')');
      r := Ok((name, iter));
    }

    method ParseLoopVariable() returns (r: Result<string, Fault>)
      requires Valid()
      modifies this
      ensures Agrees(r, LoopVariable(old(Unread()), old(depth)), old(depth))
      decreases MAX_TEMPLATE_DEPTH - depth, 4, |Unread()|
    {
      hide Unread, Reference, SkipSpace;
      var _ :- ExpectChar('(');
      SkipSpaces();
      var ref :- ParseRef();
      r := if ref.None? || ref.value.0.chain != [] then Err(ForeachNeedsVariable) else Ok(ref.value.0.name);
    }

    method ParseReturn(start: nat, nodes: seq<Node>) returns (r: Result<Block, Fault>)
      requires Valid() && start <= |src|
      modifies this
      ensures Agrees(r, Return(src, src[start..], old(Unread()), old(depth), nodes), old(depth))
      decreases MAX_TEMPLATE_DEPTH - depth, 6, |Unread()|
    {
      hide Unread, ReturnValue, WithNode, SkipSpace;
      var save := pos;
      ghost var s := Unread();
      UnreadFrom(save, s);
      SkipSpaces();
      var c := PeekChar();
      if c != '(' {
        Rewind(save, s);
        r := AddNode(start, nodes, ReturnNode(None));
        return;
      }
      Advance();
      SkipSpaces();
      var result :- ParseReturnValue();
      r := AddNode(start, nodes, ReturnNode(result));
    }

    method ParseReturnValue() returns (r: Result<Option<Expr>, Fault>)
      requires Valid()
      modifies this
      ensures Agrees(r, ReturnValue(old(Unread()), old(depth)), old(depth))
      decreases MAX_TEMPLATE_DEPTH - depth, 5, |Unread()|
    {
      hide Unread, Expression, SkipSpace;
      var c := PeekChar();
      var value: Option<Expr> := None;
      if c != ')' {
        var v :- ParseExpr();
        value := Some(v);
      }
      var _ :- ExpectChar(')');
      r := Ok(value);
    }
  }

  /** Parses src into its nodes, or says why it is refused. */
  method Parse(src: string) returns (r: Result<seq<Node>, Fault>)
    ensures r == Template(src)
  {
    if |src| > MAX_TEMPLATE_BYTES { return Err(TooLarge); }
    var p := new Parser(src, 0);
    assert p.Unread() == src;
    var block :- p.ParseBlockNodes();
    r := if block.term.NoTerm? then Ok(block.nodes) else Err(UnexpectedTerminator(block.term));
  }
}
