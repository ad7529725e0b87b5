/**
 What the parser leaves unread (internal/vtl/parse.go:97-1142): every parse method goes on from where it is, so
 that the rest is always the end of what was there before.
 */
module UnreadText {
  import opened Common
  import opened Ast
  import opened Scan
  import opened Grammar

  /** r is the end of s. */
  ghost predicate EndOf(r: string, s: string) { |r| <= |s| && r == s[|s| - |r|..] }

  lemma EndDrop(s: string, k: nat)
    requires k <= |s|
    ensures EndOf(s[k..], s)
  {
  }

  lemma EndSelf(s: string)
    ensures EndOf(s, s)
  {
  }

  lemma EndTrans(a: string, b: string, c: string)
    requires EndOf(a, b) && EndOf(b, c)
    ensures EndOf(a, c)
  {
    assert c[|c| - |b|..][|b| - |a|..] == c[|c| - |a|..];
  }

  /** The end of what is left behind k characters. */
  lemma EndAfter(r: string, s: string, k: nat)
    requires k <= |s| && EndOf(r, s[k..])
    ensures EndOf(r, s)
  {
    EndDrop(s, k);
    EndTrans(r, s[k..], s);
  }

  lemma {:induction false} SkipEnds(s: string)
    ensures EndOf(SkipSpace(s), s)
    decreases |s|
  {
    if s != "" && IsSpace(s[0]) {
      SkipEnds(s[1..]);
      EndAfter(SkipSpace(s), s, 1);
    } else {
      EndSelf(s);
    }
  }

  lemma {:induction false} QuotedEnds(q: char, s: string)
    ensures Quoted(q, s).Some? ==> EndOf(Quoted(q, s).value.1, s)
    decreases |s|
  {
    hide EndOf;
    if s != "" && s[0] != q {
      QuotedEnds(q, s[1..]);
      if Quoted(q, s).Some? { EndAfter(Quoted(q, s).value.1, s, 1); }
    } else if |s| > 1 && s[1] == q {
      QuotedEnds(q, s[2..]);
      if Quoted(q, s).Some? { EndAfter(Quoted(q, s).value.1, s, 2); }
    } else if s != "" {
      EndDrop(s, 1);
    }
  }

  lemma AfterSpace(r: string, s: string)
    requires EndOf(r, SkipSpace(s))
    ensures EndOf(r, s)
  {
    SkipEnds(s);
    EndTrans(r, SkipSpace(s), s);
  }

  // ---- Behind something that is no blank

  /** r is the end of s behind a character that is no blank, unless it is all or nothing of s. */
  ghost predicate CleanEnd(r: string, s: string) {
    EndOf(r, s) && (r == "" || r == s || !IsBlank(s[|s| - |r| - 1]))
  }

  lemma CleanTrans(a: string, b: string, c: string)
    requires CleanEnd(a, b) && CleanEnd(b, c)
    ensures CleanEnd(a, c)
  {
    EndTrans(a, b, c);
    if a != b && a != "" { assert b[|b| - |a| - 1] == c[|c| - |a| - 1]; }
  }

  /** Behind the first k characters of what is left, the last of them no blank. */
  lemma CleanThen(t: string, s: string, k: nat)
    requires EndOf(t, s) && 0 < k <= |t| && !IsBlank(t[k - 1])
    ensures CleanEnd(t[k..], s)
  {
    EndDrop(t, k);
    EndTrans(t[k..], t, s);
    assert s[|s| - |t| + k - 1] == t[k - 1];
  }

  lemma CleanSelf(s: string)
    ensures CleanEnd(s, s)
  {
    EndSelf(s);
  }

  lemma CleanEnds(r: string, s: string)
    requires CleanEnd(r, s)
    ensures EndOf(r, s)
  {
  }

  /** Behind the character that closes something. */
  lemma ClosedClean(c: char, t: string, s: string)
    requires !IsBlank(c) && EndOf(t, s)
    ensures Expect(c, t).Done? ==> CleanEnd(Expect(c, t).rest, s)
  {
    var u := SkipSpace(t);
    SkipEnds(t);
    EndTrans(u, t, s);
    if u != "" && u[0] == c { CleanThen(u, s, 1); }
    hide EndOf, CleanEnd, SkipSpace;
  }

  // ---- Expressions

  lemma MatchOpEnds(level: nat, s: string)
    ensures MatchOp(level, s).Some? ==> EndOf(MatchOp(level, s).value.1, s)
  {
    var t := SkipSpace(s);
    var op := FirstMatch(Operators(level), t);
    if op.Some? {
      EndDrop(t, |op.value.0|);
      AfterSpace(t[|op.value.0|..], s);
    }
    hide EndOf, SkipSpace, FirstMatch, Operators;
  }

  lemma UnaryOperatorEnds(s: string)
    ensures UnaryOperator(s).Some? ==> EndOf(UnaryOperator(s).value.1, s)
  {
    if |s| >= 1 { EndDrop(s, 1); }
    if |s| >= 3 { EndDrop(s, 3); }
    hide EndOf;
  }

  lemma {:induction false} ExpressionEnds(s: string, d: nat)
    requires d <= MAX_TEMPLATE_DEPTH
    ensures Expression(s, d).Done? ==> EndOf(Expression(s, d).rest, s)
    decreases MAX_TEMPLATE_DEPTH - d, 0, |s|
  {
    hide Chain, EndOf;
    if d < MAX_TEMPLATE_DEPTH { ChainEnds(0, s, d + 1); }
  }

  lemma {:induction false} ChainEnds(level: nat, s: string, d: nat)
    requires level <= LEVELS && d <= MAX_TEMPLATE_DEPTH
    ensures Chain(level, s, d).Done? ==> EndOf(Chain(level, s, d).rest, s)
    decreases MAX_TEMPLATE_DEPTH - d, 10 + 2 * (LEVELS - level), |s|
  {
    hide UnaryExpr, ChainRest, EndOf;
    if level == LEVELS {
      UnaryEnds(s, d);
    } else {
      ChainEnds(level + 1, s, d);
      var l := Chain(level + 1, s, d);
      if l.Done? {
        ChainRestEnds(level, l.value, l.rest, d, 0);
        var r := ChainRest(level, l.value, l.rest, d, 0);
        if r.Done? { EndTrans(r.rest, l.rest, s); }
      }
    }
  }

  lemma {:induction false} ChainRestEnds(level: nat, l: Expr, s: string, d: nat, links: nat)
    requires level < LEVELS && d <= MAX_TEMPLATE_DEPTH
    ensures var r := ChainRest(level, l, s, d, links); r.Done? ==> EndOf(r.rest, s)
    decreases MAX_TEMPLATE_DEPTH - d, 10 + 2 * (LEVELS - level) - 1, |s|
  {
    hide Chain, MatchOp, EndOf, SkipSpace;
    MatchOpEnds(level, s);
    SkipEnds(s);
    var op := MatchOp(level, s);
    if op.Some? && links < MAX_OPERATOR_CHAIN {
      var s1 := op.value.1;
      ChainEnds(level + 1, s1, d);
      var r := Chain(level + 1, s1, d);
      if r.Done? {
        EndTrans(r.rest, s1, s);
        ChainRestEnds(level, Binary(op.value.0, l, r.value), r.rest, d, links + 1);
        var rest := ChainRest(level, Binary(op.value.0, l, r.value), r.rest, d, links + 1);
        if rest.Done? { EndTrans(rest.rest, r.rest, s); }
      }
    }
  }

  lemma {:induction false} UnaryEnds(s: string, d: nat)
    requires d <= MAX_TEMPLATE_DEPTH
    ensures UnaryExpr(s, d).Done? ==> EndOf(UnaryExpr(s, d).rest, s)
    decreases MAX_TEMPLATE_DEPTH - d, 0, |s|
  {
    hide Primary, UnaryOperator, SkipSpace, EndOf;
    if d < MAX_TEMPLATE_DEPTH {
      var t := SkipSpace(s);
      UnaryOperatorEnds(t);
      var op := UnaryOperator(t);
      if op.None? {
        PrimaryEnds(t, d + 1);
        var x := Primary(t, d + 1);
        if x.Done? { AfterSpace(x.rest, s); }
      } else {
        UnaryEnds(op.value.1, d + 1);
        var x := UnaryExpr(op.value.1, d + 1);
        if x.Done? {
          EndTrans(x.rest, op.value.1, t);
          AfterSpace(x.rest, s);
        }
      }
    }
  }

  lemma NumberEnds(s: string)
    ensures Number(s).Done? ==> EndOf(Number(s).rest, s)
  {
    var n := IntLen(s);
    EndDrop(s, n);
    if IsFloatAt(n, s) { EndDrop(s, n + 1 + DigitLen(s[n + 1..])); }
    hide EndOf, DigitLen, ParseInt, FloatFits, IntLen;
  }

  lemma KeywordEnds(s: string)
    ensures Keyword(s).Done? ==> EndOf(Keyword(s).rest, s)
  {
    EndDrop(s, IdentLen(s));
    hide EndOf, IdentLen;
  }

  lemma {:induction false} PrimaryEnds(s: string, d: nat)
    requires d <= MAX_TEMPLATE_DEPTH
    ensures Primary(s, d).Done? ==> EndOf(Primary(s, d).rest, s)
    decreases MAX_TEMPLATE_DEPTH - d, 5, |s|
  {
    hide Reference, DoubleQuoted, ListOrRange, MapLiteral, Expression, Expect, Number, Keyword, Quoted, EndOf,
         CleanEnd;
    if s != "" {
      if s[0] == '$' {
        ReferenceClean(s, d);
        var ref := Reference(s, d);
        if ref.Done? && ref.value.Some? { CleanEnds(ref.rest, s); }
      } else if s[0] == '"' {
        DoubleQuotedEnds(s[1..], d);
        BehindFirst(DoubleQuoted(s[1..], d), s);
      } else if s[0] == '\'' {
        QuotedEnds('\'', s[1..]);
        var q := Quoted('\'', s[1..]);
        if q.Some? { EndAfter(q.value.1, s, 1); }
      } else if s[0] == '[' {
        ListEnds(s[1..], d);
        BehindFirst(ListOrRange(s[1..], d), s);
      } else if s[0] == '{' {
        MapEnds(s[1..], d);
        BehindFirst(MapLiteral(s[1..], d), s);
      } else if s[0] == '(' {
        ParenEnds(s, d);
      } else {
        NumberEnds(s);
        KeywordEnds(s);
      }
    }
  }

  lemma BehindFirst<T>(r: Parsed<T>, s: string)
    requires s != "" && (r.Done? ==> EndOf(r.rest, s[1..]))
    ensures r.Done? ==> EndOf(r.rest, s)
  {
    if r.Done? { EndAfter(r.rest, s, 1); }
  }

  lemma {:induction false} ParenEnds(s: string, d: nat)
    requires d <= MAX_TEMPLATE_DEPTH && s != ""
    ensures var x := Expression(s[1..], d);
      x.Done? && Expect(')', x.rest).Done? ==> EndOf(Expect(')', x.rest).rest, s)
    decreases MAX_TEMPLATE_DEPTH - d, 4, |s|
  {
    hide Expression, Expect, EndOf, CleanEnd;
    ExpressionEnds(s[1..], d);
    var x := Expression(s[1..], d);
    if x.Done? {
      EndAfter(x.rest, s, 1);
      ClosedClean(')', x.rest, s);
      var close := Expect(')', x.rest);
      if close.Done? { CleanEnds(close.rest, s); }
    }
  }

  lemma DoubleQuotedEnds(s: string, d: nat)
    requires d <= MAX_TEMPLATE_DEPTH
    ensures DoubleQuoted(s, d).Done? ==> EndOf(DoubleQuoted(s, d).rest, s)
  {
    QuotedEnds('"', s);
    hide ParseBlock, Quoted, EndOf;
  }

  lemma {:induction false} ListEnds(s: string, d: nat)
    requires d <= MAX_TEMPLATE_DEPTH
    ensures ListOrRange(s, d).Done? ==> EndOf(ListOrRange(s, d).rest, s)
    decreases MAX_TEMPLATE_DEPTH - d, 2, |s|
  {
    hide Expression, Arguments, RangeEnd, SkipSpace, EndOf, CleanEnd;
    var t := SkipSpace(s);
    SkipEnds(s);
    if Peek(t) == ']' {
      EndDrop(t, 1);
      EndTrans(t[1..], t, s);
    } else {
      ExpressionEnds(t, d);
      var first := Expression(t, d);
      if first.Done? {
        EndTrans(first.rest, t, s);
        ListRestEnds(first, s, d);
      }
    }
  }

  lemma {:induction false} ListRestEnds(first: Parsed<Expr>, s: string, d: nat)
    requires d <= MAX_TEMPLATE_DEPTH && first.Done? && EndOf(first.rest, s) && first == Expression(SkipSpace(s), d)
    requires Peek(SkipSpace(s)) != ']'
    ensures ListOrRange(s, d).Done? ==> EndOf(ListOrRange(s, d).rest, s)
    decreases MAX_TEMPLATE_DEPTH - d, 1, |s|, 1
  {
    hide Expression, Arguments, RangeEnd, SkipSpace, EndOf, CleanEnd;
    var t1 := SkipSpace(first.rest);
    SkipEnds(first.rest);
    EndTrans(t1, first.rest, s);
    if PairAt('.', '.', t1) {
      RangeEnds(first.value, t1[2..], d);
      var r := RangeEnd(first.value, t1[2..], d);
      if r.Done? {
        EndAfter(r.rest, t1, 2);
        EndTrans(r.rest, t1, s);
      }
    } else if Peek(t1) == ']' {
      EndDrop(t1, 1);
      EndTrans(t1[1..], t1, s);
    } else if Peek(t1) == ',' {
      ArgumentsClean(']', t1[1..], d, []);
      var rest := Arguments(']', t1[1..], d, []);
      if rest.Done? {
        CleanEnds(rest.rest, t1[1..]);
        EndAfter(rest.rest, t1, 1);
        EndTrans(rest.rest, t1, s);
      }
    }
  }

  lemma {:induction false} RangeEnds(from: Expr, s: string, d: nat)
    requires d <= MAX_TEMPLATE_DEPTH
    ensures RangeEnd(from, s, d).Done? ==> EndOf(RangeEnd(from, s, d).rest, s)
    decreases MAX_TEMPLATE_DEPTH - d, 1, |s|
  {
    hide Expression, Expect, EndOf, CleanEnd;
    ExpressionEnds(s, d);
    var to := Expression(s, d);
    if to.Done? {
      ClosedClean(']', to.rest, s);
      var close := Expect(']', to.rest);
      if close.Done? { CleanEnds(close.rest, s); }
    }
  }

  lemma {:induction false} ArgumentsClean(closer: char, s: string, d: nat, done: seq<Expr>)
    requires d <= MAX_TEMPLATE_DEPTH && !IsBlank(closer)
    ensures var r := Arguments(closer, s, d, done); r.Done? ==> CleanEnd(r.rest, s)
    decreases MAX_TEMPLATE_DEPTH - d, 1, |s|
  {
    hide Expression, SkipSpace, EndOf, CleanEnd;
    var t := if done == [] then SkipSpace(s) else s;
    SkipEnds(s);
    EndSelf(s);
    if done == [] && t != "" && t[0] == closer {
      CleanThen(t, s, 1);
    } else {
      ExpressionEnds(t, d);
      var a := Expression(t, d);
      if a.Done? {
        EndTrans(a.rest, t, s);
        var t1 := SkipSpace(a.rest);
        SkipEnds(a.rest);
        EndTrans(t1, a.rest, s);
        if t1 != "" && t1[0] == ',' {
          CleanThen(t1, s, 1);
          ArgumentsClean(closer, t1[1..], d, done + [a.value]);
          var r := Arguments(closer, t1[1..], d, done + [a.value]);
          if r.Done? { CleanTrans(r.rest, t1[1..], s); }
        } else if t1 != "" && t1[0] == closer {
          CleanThen(t1, s, 1);
        }
      }
    }
  }

  lemma {:induction false} MapEnds(s: string, d: nat)
    requires d <= MAX_TEMPLATE_DEPTH
    ensures MapLiteral(s, d).Done? ==> EndOf(MapLiteral(s, d).rest, s)
    decreases MAX_TEMPLATE_DEPTH - d, 3, |s|
  {
    hide MapEntries, SkipSpace, EndOf;
    var t := SkipSpace(s);
    SkipEnds(s);
    if Peek(t) == '}' {
      EndDrop(t, 1);
      EndTrans(t[1..], t, s);
    } else {
      EntriesEnd(t, d, []);
      var r := MapEntries(t, d, []);
      if r.Done? { EndTrans(r.rest, t, s); }
    }
  }

  lemma {:induction false} EntriesEnd(s: string, d: nat, done: seq<Entry>)
    requires d <= MAX_TEMPLATE_DEPTH
    ensures var r := MapEntries(s, d, done); r.Done? ==> EndOf(r.rest, s)
    decreases MAX_TEMPLATE_DEPTH - d, 2, |s|
  {
    hide MapEntry, SkipSpace, EndOf;
    EntryEnds(s, d);
    var entry := MapEntry(s, d);
    if entry.Done? {
      var t := SkipSpace(entry.rest);
      SkipEnds(entry.rest);
      EndTrans(t, entry.rest, s);
      if t != "" {
        EndDrop(t, 1);
        EndTrans(t[1..], t, s);
        if t[0] == ',' {
          EntriesEnd(t[1..], d, done + [entry.value]);
          var r := MapEntries(t[1..], d, done + [entry.value]);
          if r.Done? { EndTrans(r.rest, t[1..], s); }
        }
      }
    }
  }

  lemma {:induction false} EntryEnds(s: string, d: nat)
    requires d <= MAX_TEMPLATE_DEPTH
    ensures MapEntry(s, d).Done? ==> EndOf(MapEntry(s, d).rest, s)
    decreases MAX_TEMPLATE_DEPTH - d, 1, |s|
  {
    hide Expression, Expect, EndOf, CleanEnd;
    ExpressionEnds(s, d);
    var k := Expression(s, d);
    if k.Done? {
      ClosedClean(':', k.rest, s);
      var colon := Expect(':', k.rest);
      if colon.Done? {
        CleanEnds(colon.rest, s);
        ExpressionEnds(colon.rest, d);
        var v := Expression(colon.rest, d);
        if v.Done? { EndTrans(v.rest, colon.rest, s); }
      }
    }
  }

  // ---- References

  lemma OpeningEnds(s: string)
    ensures EndOf(ReferenceOpening(s).2, s)
  {
    EndSelf(s);
    if |s| > 0 { EndDrop(s, 1); }
    if |s| > 1 { EndDrop(s[1..], 1); EndTrans(s[1..][1..], s[1..], s); }
    if |s| > 2 { EndDrop(s[1..][1..], 1); EndTrans(s[1..][1..][1..], s[1..][1..], s); }
    hide EndOf;
  }

  lemma {:induction false} ReferenceClean(s: string, d: nat)
    requires d <= MAX_TEMPLATE_DEPTH
    ensures Reference(s, d).Done? && Reference(s, d).value.Some? ==> CleanEnd(Reference(s, d).rest, s)
    decreases MAX_TEMPLATE_DEPTH - d, 3, |s|
  {
    hide Accessors, ReferenceOpening, IdentLen, EndOf, CleanEnd;
    var (quiet, braced, s2) := ReferenceOpening(s);
    OpeningEnds(s);
    if s2 != "" && IsIdentStart(s2[0]) {
      var n := IdentLen(s2);
      CleanThen(s2, s, n);
      AccessorsClean(s2[n..], d, []);
      var chain := Accessors(s2[n..], d, []);
      if chain.Done? {
        CleanTrans(chain.rest, s2[n..], s);
        if Peek(chain.rest) == '}' {
          CleanEnds(chain.rest, s);
          CleanThen(chain.rest, s, 1);
        }
      }
    }
  }

  lemma {:induction false} AccessorsClean(s: string, d: nat, done: seq<Accessor>)
    requires d <= MAX_TEMPLATE_DEPTH
    ensures var r := Accessors(s, d, done); r.Done? ==> CleanEnd(r.rest, s)
    decreases MAX_TEMPLATE_DEPTH - d, 2, |s|
  {
    hide Expression, Expect, Arguments, IdentLen, EndOf, CleanEnd;
    CleanSelf(s);
    if |s| > 1 && s[0] == '.' && IsIdentStart(s[1]) {
      var n := IdentLen(s[1..]);
      var name, s1 := s[1..][..n], s[1..][n..];
      EndDrop(s, 1);
      CleanThen(s[1..], s, n);
      if Peek(s1) != '(' {
        AccessorsClean(s1, d, done + [Property(name)]);
        var r := Accessors(s1, d, done + [Property(name)]);
        if r.Done? { CleanTrans(r.rest, s1, s); }
      } else {
        MethodClean(s, s1, d, done, name);
      }
    } else if s != "" && s[0] == '[' {
      IndexClean(s, d, done);
    }
  }

  lemma {:induction false} MethodClean(s: string, s1: string, d: nat, done: seq<Accessor>, name: string)
    requires d <= MAX_TEMPLATE_DEPTH && CleanEnd(s1, s) && |s1| < |s| && Peek(s1) == '('
    ensures var args := Arguments(')', s1[1..], d, []);
      args.Done? ==> var r := Accessors(args.rest, d, done + [Method(name, args.value)]);
        r.Done? ==> CleanEnd(r.rest, s)
    decreases MAX_TEMPLATE_DEPTH - d, 2, |s|, 0
  {
    hide Arguments, Accessors, EndOf, CleanEnd;
    CleanEnds(s1, s);
    CleanThen(s1, s, 1);
    ArgumentsClean(')', s1[1..], d, []);
    var args := Arguments(')', s1[1..], d, []);
    if args.Done? {
      CleanTrans(args.rest, s1[1..], s);
      AccessorsClean(args.rest, d, done + [Method(name, args.value)]);
      var r := Accessors(args.rest, d, done + [Method(name, args.value)]);
      if r.Done? { CleanTrans(r.rest, args.rest, s); }
    }
  }

  lemma {:induction false} IndexClean(s: string, d: nat, done: seq<Accessor>)
    requires d <= MAX_TEMPLATE_DEPTH && s != "" && s[0] == '['
    ensures var r := Accessors(s, d, done); r.Done? ==> CleanEnd(r.rest, s)
    decreases MAX_TEMPLATE_DEPTH - d, 2, |s|, 0
  {
    hide Expression, Expect, EndOf, CleanEnd;
    EndSelf(s);
    CleanThen(s, s, 1);
    CleanEnds(s[1..], s);
    ExpressionEnds(s[1..], d);
    var idx := Expression(s[1..], d);
    if idx.Done? {
      EndTrans(idx.rest, s[1..], s);
      ClosedClean(']', idx.rest, s);
      var close := Expect(']', idx.rest);
      if close.Done? {
        AccessorsClean(close.rest, d, done + [Accessor.Index(idx.value)]);
        var r := Accessors(close.rest, d, done + [Accessor.Index(idx.value)]);
        if r.Done? { CleanTrans(r.rest, close.rest, s); }
      }
    }
  }

  // ---- Blocks and directives

  lemma {:induction false} LineRestBehind(s: string)
    ensures var r := LineRest(s);
      r.Some? ==> r.value == "" || (EndOf(r.value, s) && |r.value| < |s| && s[|s| - |r.value| - 1] == '\n')
    decreases |s|
  {
    if s != "" && (IsBlank(s[0]) || s[0] == '\r') {
      LineRestBehind(s[1..]);
      var r := LineRest(s);
      if r.Some? && r.value != "" {
        EndAfter(r.value, s, 1);
        assert s[1..][|s| - 1 - |r.value| - 1] == s[|s| - |r.value| - 1];
      }
    }
  }

  lemma NothingLeft(s: string)
    ensures CleanEnd("", s)
  {
  }

  lemma GobbleClean(src: string, start: string, nodes: seq<Node>, s: string)
    ensures CleanEnd(Gobble(src, start, nodes, s).1, s)
  {
    LineRestBehind(s);
    NothingLeft(s);
    CleanSelf(s);
    hide BlankBefore, TrimLast;
  }

  /** Gobbling behind something that ends in no blank. */
  lemma GobbleBehind(src: string, start: string, nodes: seq<Node>, t: string, s: string)
    requires CleanEnd(t, s)
    ensures CleanEnd(Gobble(src, start, nodes, t).1, s)
  {
    GobbleClean(src, start, nodes, t);
    CleanTrans(Gobble(src, start, nodes, t).1, t, s);
  }

  lemma EscapeClean(s: string)
    requires s != "" && s[0] == '\\'
    ensures CleanEnd(Escape(s).1, s)
  {
    EndSelf(s);
    CleanThen(s, s, 1);
    if |s| > 1 && !IsBlank(s[1]) { CleanThen(s, s, 2); }
    hide CleanEnd, EndOf;
  }

  lemma NameClean(s: string)
    requires s != "" && s[0] == '#'
    ensures CleanEnd(DirectiveName(s).2, s)
  {
    EndSelf(s);
    CleanThen(s, s, 1);
    var braced := Peek(s[1..]) == '{';
    if braced { CleanThen(s, s, 2); }
    var s1 := if braced then s[2..] else s[1..];
    CleanEnds(s1, s);
    var n := IdentLen(s1);
    if n > 0 { CleanThen(s1, s, n); } else { assert s1[0..] == s1; }
    hide CleanEnd, EndOf, IdentLen;
  }

  lemma {:induction false} SetClean(s: string, d: nat)
    requires d <= MAX_TEMPLATE_DEPTH
    ensures Set(s, d).Done? ==> CleanEnd(Set(s, d).rest, s)
    decreases MAX_TEMPLATE_DEPTH - d, 5, |s|
  {
    hide Expect, Reference, Expression, SkipSpace, CleanEnd, EndOf;
    EndSelf(s);
    ClosedClean('(', s, s);
    var open := Expect('(', s);
    if open.Done? {
      CleanEnds(open.rest, s);
      TargetEnds(open.rest, s, d);
      var target := Reference(SkipSpace(open.rest), d);
      if target.Done? && target.value.Some? {
        var t := SkipSpace(target.rest);
        if Peek(t) == '=' {
          ExpressionEnds(t[1..], d);
          var value := Expression(t[1..], d);
          if value.Done? {
            EndAfter(value.rest, t, 1);
            EndTrans(value.rest, t, s);
            ClosedClean(')', value.rest, s);
          }
        }
      }
    }
  }

  /** What follows a reference, with the white space around it. */
  lemma {:induction false} TargetEnds(t: string, s: string, d: nat)
    requires d <= MAX_TEMPLATE_DEPTH && EndOf(t, s)
    ensures var r := Reference(SkipSpace(t), d);
      r.Done? && r.value.Some? ==> EndOf(r.rest, s) && EndOf(SkipSpace(r.rest), s)
    decreases MAX_TEMPLATE_DEPTH - d, 4, |t|
  {
    hide Reference, SkipSpace, CleanEnd, EndOf;
    var u := SkipSpace(t);
    SkipEnds(t);
    EndTrans(u, t, s);
    ReferenceClean(u, d);
    var r := Reference(u, d);
    if r.Done? && r.value.Some? {
      CleanEnds(r.rest, u);
      EndTrans(r.rest, u, s);
      SkipEnds(r.rest);
      EndTrans(SkipSpace(r.rest), r.rest, s);
    }
  }

  lemma {:induction false} ConditionClean(s: string, d: nat)
    requires d <= MAX_TEMPLATE_DEPTH
    ensures Condition(s, d).Done? ==> CleanEnd(Condition(s, d).rest, s)
    decreases MAX_TEMPLATE_DEPTH - d, 1, |s|
  {
    hide Expect, Expression, CleanEnd, EndOf;
    EndSelf(s);
    ClosedClean('(', s, s);
    var open := Expect('(', s);
    if open.Done? {
      CleanEnds(open.rest, s);
      ExpressionEnds(open.rest, d);
      var cond := Expression(open.rest, d);
      if cond.Done? {
        EndTrans(cond.rest, open.rest, s);
        ClosedClean(')', cond.rest, s);
      }
    }
  }

  lemma {:induction false} HeadClean(s: string, d: nat)
    requires d <= MAX_TEMPLATE_DEPTH
    ensures ForeachHead(s, d).Done? ==> CleanEnd(ForeachHead(s, d).rest, s)
    decreases MAX_TEMPLATE_DEPTH - d, 5, |s|
  {
    hide LoopVariable, Expression, Expect, SkipSpace, CleanEnd, EndOf;
    VariableEnds(s, d);
    var name := LoopVariable(s, d);
    if name.Done? {
      var t := SkipSpace(name.rest);
      SkipEnds(name.rest);
      EndTrans(t, name.rest, s);
      if WordAt("in", t) {
        ExpressionEnds(t[2..], d);
        var iter := Expression(t[2..], d);
        if iter.Done? {
          EndAfter(iter.rest, t, 2);
          EndTrans(iter.rest, t, s);
          ClosedClean(')', iter.rest, s);
        }
      }
    }
  }

  lemma {:induction false} VariableEnds(s: string, d: nat)
    requires d <= MAX_TEMPLATE_DEPTH
    ensures LoopVariable(s, d).Done? ==> EndOf(LoopVariable(s, d).rest, s)
    decreases MAX_TEMPLATE_DEPTH - d, 4, |s|
  {
    hide Expect, Reference, SkipSpace, CleanEnd, EndOf;
    EndSelf(s);
    ClosedClean('(', s, s);
    var open := Expect('(', s);
    if open.Done? {
      CleanEnds(open.rest, s);
      TargetEnds(open.rest, s, d);
    }
  }

  lemma {:induction false} ResultClean(t: string, s: string, d: nat)
    requires d <= MAX_TEMPLATE_DEPTH && EndOf(t, s)
    ensures ReturnValue(t, d).Done? ==> CleanEnd(ReturnValue(t, d).rest, s)
    decreases MAX_TEMPLATE_DEPTH - d, 5, |t|
  {
    hide Expression, Expect, CleanEnd, EndOf;
    if Peek(t) == ')' {
      ClosedClean(')', t, s);
    } else {
      ExpressionEnds(t, d);
      var value := Expression(t, d);
      if value.Done? {
        EndTrans(value.rest, t, s);
        ClosedClean(')', value.rest, s);
      }
    }
  }

  lemma {:induction false} ReturnClean(src: string, start: string, s: string, d: nat, nodes: seq<Node>)
    requires d <= MAX_TEMPLATE_DEPTH
    ensures var r := Return(src, start, s, d, nodes); r.Done? ==> CleanEnd(r.rest, s)
    decreases MAX_TEMPLATE_DEPTH - d, 6, |s|
  {
    hide ReturnValue, SkipSpace, CleanEnd, EndOf, Gobble;
    var t := SkipSpace(s);
    if Peek(t) == '(' {
      SkipEnds(s);
      CleanThen(t, s, 1);
      CleanEnds(t[1..], s);
      SkipEnds(t[1..]);
      EndTrans(SkipSpace(t[1..]), t[1..], s);
      ResultClean(SkipSpace(t[1..]), s, d);
      var result := ReturnValue(SkipSpace(t[1..]), d);
      if result.Done? { GobbleBehind(src, start, nodes, result.rest, s); }
    } else {
      GobbleClean(src, start, nodes, s);
    }
  }

  /** What a block leaves unread is behind no blank. */
  lemma {:induction false} BlockClean(src: string, s: string, d: nat)
    requires d <= MAX_TEMPLATE_DEPTH
    ensures ParseBlock(src, s, d).Done? ==> CleanEnd(ParseBlock(src, s, d).rest, s)
    decreases MAX_TEMPLATE_DEPTH - d, 0, |s|
  {
    hide BlockNodes, CleanEnd;
    if d < MAX_TEMPLATE_DEPTH { NodesClean(src, s, d + 1, []); }
  }

  lemma {:induction false} NodesClean(src: string, s: string, d: nat, done: seq<Node>)
    requires d <= MAX_TEMPLATE_DEPTH
    ensures BlockNodes(src, s, d, done).Done? ==> CleanEnd(BlockNodes(src, s, d, done).rest, s)
    decreases MAX_TEMPLATE_DEPTH - d, 9, |s|
  {
    hide PlainLen, Reference, Hash, Escape, AppendText, CleanEnd, EndOf;
    NothingLeft(s);
    if s != "" {
      var n := PlainLen(s);
      var nodes, t := AppendText(done, s[..n]), s[n..];
      if t != "" {
        PieceClean(src, s, n, d, nodes);
        if t[0] == '\\' {
          var (text, s1) := Escape(t);
          NodesClean(src, s1, d, AppendText(nodes, text));
          GoOn(BlockNodes(src, s1, d, AppendText(nodes, text)), s1, s);
        } else if t[0] == '$' {
          var ref := Reference(t, d);
          if ref.Done? && ref.value.None? {
            NodesClean(src, t[1..], d, AppendText(nodes, "$"));
            GoOn(BlockNodes(src, t[1..], d, AppendText(nodes, "$")), t[1..], s);
          } else if ref.Done? {
            var more := nodes + [RefNode(ref.value.value.0, ref.value.value.1)];
            NodesClean(src, ref.rest, d, more);
            GoOn(BlockNodes(src, ref.rest, d, more), ref.rest, s);
          }
        } else {
          var block := Hash(src, t, d, nodes);
          if block.Done? && block.value.term.NoTerm? {
            NodesClean(src, block.rest, d, block.value.nodes);
            GoOn(BlockNodes(src, block.rest, d, block.value.nodes), block.rest, s);
          }
        }
      }
    }
  }

  lemma GoOn<T>(r: Parsed<T>, t: string, s: string)
    requires (r.Done? ==> CleanEnd(r.rest, t)) && CleanEnd(t, s)
    ensures r.Done? ==> CleanEnd(r.rest, s)
  {
    if r.Done? { CleanTrans(r.rest, t, s); }
  }

  /** Behind what stands at the first '$', '#' or '\\'. */
  lemma {:induction false} PieceClean(src: string, s: string, n: nat, d: nat, nodes: seq<Node>)
    requires n < |s| && d <= MAX_TEMPLATE_DEPTH
    ensures var t := s[n..];
      && (t[0] == '\\' ==> CleanEnd(Escape(t).1, s))
      && (t[0] == '$' ==> CleanEnd(t[1..], s))
      && (t[0] == '$' && Reference(t, d).Done? && Reference(t, d).value.Some? ==> CleanEnd(Reference(t, d).rest, s))
      && (t[0] == '#' && Hash(src, t, d, nodes).Done? ==> CleanEnd(Hash(src, t, d, nodes).rest, s))
    decreases MAX_TEMPLATE_DEPTH - d, 9, |s|, 0
  {
    hide Reference, Hash, Escape, CleanEnd, EndOf;
    var t := s[n..];
    EndDrop(s, n);
    if t[0] == '\\' {
      EscapeClean(t);
      Behind(Escape(t).1, s, n);
    } else if t[0] == '$' {
      CleanThen(t, s, 1);
      ReferenceClean(t, d);
      var ref := Reference(t, d);
      if ref.Done? && ref.value.Some? { Behind(ref.rest, s, n); }
    } else if t[0] == '#' {
      HashClean(src, t, d, nodes);
      var block := Hash(src, t, d, nodes);
      if block.Done? { Behind(block.rest, s, n); }
    }
  }

  /** Behind some of what is left after n characters. */
  lemma Behind(r: string, s: string, n: nat)
    requires n <= |s| && CleanEnd(r, s[n..]) && |r| < |s[n..]|
    ensures CleanEnd(r, s)
  {
    EndAfter(r, s, n);
    assert s[n..][|s| - n - |r| - 1] == s[|s| - |r| - 1];
  }

  lemma {:induction false} HashClean(src: string, s: string, d: nat, nodes: seq<Node>)
    requires s != "" && s[0] == '#' && d <= MAX_TEMPLATE_DEPTH
    ensures Hash(src, s, d, nodes).Done? ==> CleanEnd(Hash(src, s, d, nodes).rest, s)
    decreases MAX_TEMPLATE_DEPTH - d, 8, |s|
  {
    if PairAt('#', '#', s) || PairAt('#', '*', s) || (PairAt('#', '[', s) && Peek(s[2..]) == '[') {
      CommentClean(src, s, d, nodes);
    } else {
      hide Directive, DirectiveName, AppendText, CleanEnd, EndOf, IsKnown, IsUnsupported;
      var (name, braced, s1) := DirectiveName(s);
      NameClean(s);
      EndSelf(s);
      CleanThen(s, s, 1);
      if !braced {
        DirectiveClean(src, s, name, s1, d, nodes);
        GoOn(Directive(src, s, name, s1, d, nodes), s1, s);
      } else if Peek(s1) == '}' {
        CleanEnds(s1, s);
        CleanThen(s1, s, 1);
        DirectiveClean(src, s, name, s1[1..], d, nodes);
        GoOn(Directive(src, s, name, s1[1..], d, nodes), s1[1..], s);
      }
    }
  }

  /** Comments and unparsed blocks. */
  lemma CommentClean(src: string, s: string, d: nat, nodes: seq<Node>)
    requires s != "" && s[0] == '#' && d <= MAX_TEMPLATE_DEPTH
    requires PairAt('#', '#', s) || PairAt('#', '*', s) || (PairAt('#', '[', s) && Peek(s[2..]) == '[')
    ensures Hash(src, s, d, nodes).Done? ==> CleanEnd(Hash(src, s, d, nodes).rest, s)
  {
    NothingLeft(s);
    EndSelf(s);
    if PairAt('#', '#', s) {
      var end := Scan.Index(s, "\n");
      if end.Some? {
        assert s[end.value..][0] == s[end.value];
        CleanThen(s, s, end.value + 1);
      }
    } else if PairAt('#', '*', s) {
      var end := Scan.Index(s[2..], "*#");
      if end.Some? {
        var i := end.value;
        assert s[2..][i..][1] == s[2..][i + 1] == s[i + 3];
        CleanThen(s, s, i + 4);
        GobbleBehind(src, s, nodes, s[i + 4..], s);
      }
    } else {
      var end := Scan.Index(s, "]]#");
      if end.Some? {
        assert s[end.value..][2] == s[end.value + 2];
        CleanThen(s, s, end.value + 3);
      }
    }
    hide CleanEnd, EndOf, Gobble, AppendText, Scan.Index, DirectiveName, Directive;
  }

  lemma {:induction false} DirectiveClean(src: string, start: string, name: string, s: string, d: nat,
                                          nodes: seq<Node>)
    requires d <= MAX_TEMPLATE_DEPTH
    ensures var r := Directive(src, start, name, s, d, nodes); r.Done? ==> CleanEnd(r.rest, s)
    decreases MAX_TEMPLATE_DEPTH - d, 7, |s|
  {
    hide If, Foreach, Return, Simple, Gobble, CleanEnd, EndOf;
    CleanSelf(s);
    GobbleClean(src, start, nodes, s);
    IfClean(src, start, s, d, nodes);
    ForeachClean(src, start, s, d, nodes);
    ReturnClean(src, start, s, d, nodes);
    SimpleClean(name, s, d);
    var simple := Simple(name, s, d);
    if simple.Done? { GobbleBehind(src, start, nodes, simple.rest, s); }
  }

  lemma {:induction false} SimpleClean(name: string, s: string, d: nat)
    requires d <= MAX_TEMPLATE_DEPTH
    ensures Simple(name, s, d).Done? ==> CleanEnd(Simple(name, s, d).rest, s)
    decreases MAX_TEMPLATE_DEPTH - d, 6, |s|
  {
    hide Set, CleanEnd;
    CleanSelf(s);
    SetClean(s, d);
  }

  lemma {:induction false} IfClean(src: string, start: string, s: string, d: nat, nodes: seq<Node>)
    requires d <= MAX_TEMPLATE_DEPTH
    ensures If(src, start, s, d, nodes).Done? ==> CleanEnd(If(src, start, s, d, nodes).rest, s)
    decreases MAX_TEMPLATE_DEPTH - d, 6, |s|
  {
    hide Condition, IfBranches, Gobble, CleanEnd;
    ConditionClean(s, d);
    var cond := Condition(s, d);
    if cond.Done? {
      var s2 := Gobble(src, start, nodes, cond.rest).1;
      GobbleBehind(src, start, nodes, cond.rest, s);
      BranchesClean(src, cond.value, s2, d, []);
      GoOn(IfBranches(src, cond.value, s2, d, []), s2, s);
    }
  }

  lemma {:induction false} BranchesClean(src: string, cond: Expr, s: string, d: nat, done: seq<Branch>)
    requires d <= MAX_TEMPLATE_DEPTH
    ensures var r := IfBranches(src, cond, s, d, done); r.Done? ==> CleanEnd(r.rest, s)
    decreases MAX_TEMPLATE_DEPTH - d, 5, |s|
  {
    hide ParseBlock, Condition, Gobble, CleanEnd;
    BlockClean(src, s, d);
    var block := ParseBlock(src, s, d);
    if block.Done? {
      var b := block.value;
      if b.term.ElseIfTerm? {
        ConditionClean(block.rest, d);
        var next := Condition(block.rest, d);
        if next.Done? {
          var (body, s3) := Gobble(src, b.start, b.nodes, next.rest);
          CleanTrans(next.rest, block.rest, s);
          GobbleBehind(src, b.start, b.nodes, next.rest, s);
          BranchesClean(src, next.value, s3, d, done + [Branch(cond, body)]);
          GoOn(IfBranches(src, next.value, s3, d, done + [Branch(cond, body)]), s3, s);
        }
      } else if b.term.ElseTerm? {
        BlockClean(src, block.rest, d);
        GoOn(ParseBlock(src, block.rest, d), block.rest, s);
      }
    }
  }

  lemma {:induction false} ForeachClean(src: string, start: string, s: string, d: nat, nodes: seq<Node>)
    requires d <= MAX_TEMPLATE_DEPTH
    ensures Foreach(src, start, s, d, nodes).Done? ==> CleanEnd(Foreach(src, start, s, d, nodes).rest, s)
    decreases MAX_TEMPLATE_DEPTH - d, 6, |s|
  {
    hide ForeachHead, ParseBlock, Gobble, CleanEnd;
    HeadClean(s, d);
    var head := ForeachHead(s, d);
    if head.Done? {
      var s2 := Gobble(src, start, nodes, head.rest).1;
      GobbleBehind(src, start, nodes, head.rest, s);
      BlockClean(src, s2, d);
      GoOn(ParseBlock(src, s2, d), s2, s);
    }
  }
}
