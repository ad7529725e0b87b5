/**
 The texts of values (internal/vtl/value.go:266-360, 455-480), from the digits of a number to lists and maps in
 one another.
 */
module ValueTexts {
  import opened Common
  import opened Values
  import opened Format
  import opened Limits
  import opened Cycles
  import Scan

  // ---- Scalars

  /** Decimal digits without a leading zero, and a sign only for what is below zero. */
  predicate IsDecimal(i: int, s: string) {
    var digits := if i < 0 then s[if s == "" then 0 else 1..] else s;
    && (i < 0 ==> s != "" && s[0] == '-')
    && digits != "" && (forall k :: 0 <= k < |digits| ==> '0' <= digits[k] <= '9')
    && (|digits| > 1 ==> digits[0] != '0')
  }

  lemma {:induction false} NoLeadingZero(n: nat)
    ensures var s := Scan.Digits(n); s != "" && (n > 0 ==> s[0] != '0')
    decreases n
  {
    if n >= 10 { NoLeadingZero(n / 10); }
  }

  lemma {:induction false} OneDigit(n: nat)
    ensures |Scan.Digits(n)| > 1 <==> n >= 10
  {
  }

  lemma ScalarWhole(lib: Library, h: Heap, v: Value)
    requires !IsRef(v)
    ensures WholeText(lib, h, v) == Some(ScalarText(lib, v))
  {
    var toks := [Raw(ScalarText(lib, v))];
    RawText(lib, ScalarText(lib, v));
    assert Scalar(lib, Plain, v) == toks;
  }

  lemma DecimalFormat(i: int)
    ensures IsDecimal(i, Scan.FormatInt(i))
  {
    var n := if i < 0 then -i else i;
    NoLeadingZero(n);
    OneDigit(n);
    if i < 0 { assert Scan.FormatInt(i)[1..] == Scan.Digits(n); }
    hide Scan.Digits, Scan.DigitsValue;
  }

  /** An integer is written as its decimal digits. */
  lemma IntegerText(lib: Library, h: Heap, i: int)
    requires Scan.IsInt64(i)
    ensures var text := WholeText(lib, h, Int(i));
      text.Some? && IsDecimal(i, text.value) && Scan.ParseInt(text.value) == Some(i)
  {
    ScalarWhole(lib, h, Int(i));
    Scan.ParseIntUndoesFormatInt(i);
    DecimalFormat(i);
    hide Scan.FormatInt, Scan.ParseInt, WholeText, IsDecimal;
  }

  /** Null is written as nothing, a boolean as its word, a text as itself. */
  lemma ScalarTexts(lib: Library, h: Heap, s: string, bits: nat, id: nat)
    ensures WholeText(lib, h, Nil) == Some("")
    ensures WholeText(lib, h, Bool(true)) == Some("true") && WholeText(lib, h, Bool(false)) == Some("false")
    ensures WholeText(lib, h, Str(s)) == Some(s)
    ensures WholeText(lib, h, Float(bits)) == Some(lib.floatText(bits))
    ensures WholeText(lib, h, Host(id)) == Some(lib.hostText(id))
  {
    ScalarWhole(lib, h, Nil);
    ScalarWhole(lib, h, Bool(true));
    ScalarWhole(lib, h, Bool(false));
    ScalarWhole(lib, h, Float(bits));
    ScalarWhole(lib, h, Host(id));
  }

  // ---- Where a value stands makes no difference

  /** None of the collections can be reached from v. */
  ghost predicate Clear(h: Heap, v: Value, inside: set<Value>) { forall w <- inside :: !Reaches(h, v, w) }

  lemma LongerWalk(h: Heap, v: Value, c: Value, p: seq<Value>)
    requires IsPath(h, p) && p[0] == c && c in Children(h, v)
    ensures IsPath(h, [v] + p)
  {
    var q := [v] + p;
    forall i | 0 <= i < |q| - 1 ensures q[i + 1] in Children(h, q[i]) {
      if i > 0 { assert p[i - 1 + 1] in Children(h, p[i - 1]); }
    }
  }

  lemma ChildReaches(h: Heap, v: Value, c: Value, w: Value)
    requires c in Children(h, v) && Reaches(h, c, w)
    ensures Reaches(h, v, w) && (w == v ==> OnCycle(h, v))
  {
    var p :| IsPath(h, p) && p[0] == c && p[|p| - 1] == w;
    LongerWalk(h, v, c, p);
    var q := [v] + p;
    assert q[0] == v && q[|q| - 1] == w && |q| > 1;
  }

  lemma SelfReached(h: Heap, v: Value)
    ensures Reaches(h, v, v)
  {
    var p := [v];
    assert IsPath(h, p) && p[0] == v && p[|p| - 1] == v;
  }

  lemma ChildClear(h: Heap, v: Value, c: Value, inside: set<Value>)
    requires c in Children(h, v) && !ReachesCycle(h, v) && Clear(h, v, inside)
    ensures !ReachesCycle(h, c) && Clear(h, c, inside + {v})
  {
    SelfReached(h, v);
    forall w | w in inside + {v} ensures !Reaches(h, c, w) {
      if Reaches(h, c, w) { ChildReaches(h, v, c, w); }
    }
    if ReachesCycle(h, c) {
      var x :| Reaches(h, c, x) && OnCycle(h, x);
      ChildReaches(h, v, c, x);
    }
    hide Reaches, OnCycle;
  }

  /** What reaches no cycle is written the same at any depth less deep, and inside any other collections. */
  lemma {:induction false} VisitSame(lib: Library, mode: Mode, h: Heap, v: Value, d: nat, inside: set<Value>, e: nat,
                                     outside: set<Value>)
    requires e <= d <= MAX_VALUE_DEPTH && !ReachesCycle(h, v) && Clear(h, v, inside) && Clear(h, v, outside)
    requires Visit(lib, mode, h, v, d, inside).stop.None?
    ensures Visit(lib, mode, h, v, e, outside) == Visit(lib, mode, h, v, d, inside)
    decreases MAX_VALUE_DEPTH - d, 1, 0
  {
    hide ReachesCycle, Clear, VisitChildren, Scalar, Open, Close;
    if IsRef(v) {
      NotInside(h, v, inside);
      NotInside(h, v, outside);
      if d < MAX_VALUE_DEPTH { ChildrenSame(lib, mode, h, v, 0, d, inside, e, outside); }
    }
  }

  lemma NotInside(h: Heap, v: Value, inside: set<Value>)
    requires Clear(h, v, inside)
    ensures v !in inside
  {
    SelfReached(h, v);
  }

  lemma {:induction false} ChildrenSame(lib: Library, mode: Mode, h: Heap, v: Value, i: nat, d: nat,
                                        inside: set<Value>, e: nat,
                                        outside: set<Value>)
    requires i <= |Children(h, v)| && e <= d < MAX_VALUE_DEPTH
    requires !ReachesCycle(h, v) && Clear(h, v, inside) && Clear(h, v, outside)
    requires VisitChildren(lib, mode, h, v, i, d, inside + {v}).stop.None?
    ensures VisitChildren(lib, mode, h, v, i, e, outside + {v}) == VisitChildren(lib, mode, h, v, i, d, inside + {v})
    decreases MAX_VALUE_DEPTH - d, 0, |Children(h, v)| - i
  {
    hide ReachesCycle, Clear, Visit, Lead;
    if i < |Children(h, v)| {
      var c := Children(h, v)[i];
      ChildClear(h, v, c, inside);
      ChildClear(h, v, c, outside);
      VisitSame(lib, mode, h, c, d + 1, inside + {v}, e + 1, outside + {v});
      ChildrenSame(lib, mode, h, v, i + 1, d, inside, e, outside);
    }
  }

  // ---- Lists and maps

  /** Texts with a separator between them. */
  function Joined(sep: string, texts: seq<string>): string {
    if texts == [] then "" else if |texts| == 1 then texts[0] else texts[0] + (sep + Joined(sep, texts[1..]))
  }

  function Separator(mode: Mode): string { if mode.Plain? then ", " else "," }

  /** The text of a key in front of its value. */
  function KeyText(lib: Library, mode: Mode, key: string): string {
    if mode.Plain? then key + "=" else lib.quote(key) + ":"
  }

  /** The text of a value in a mode, without any limit; none for one that cannot be written. */
  function TextIn(lib: Library, mode: Mode, h: Heap, v: Value): Option<string> {
    var t := Visit(lib, mode, h, v, 0, {});
    if t.stop.Some? then None else Some(AllText(lib, t.writes))
  }

  lemma {:induction false} AllTextConcat(lib: Library, a: seq<seq<Tok>>, b: seq<seq<Tok>>)
    ensures AllText(lib, a + b) == AllText(lib, a) + AllText(lib, b)
    decreases |a|
  {
    if a == [] {
      assert a + b == b;
    } else {
      assert (a + b)[1..] == a[1..] + b;
      AllTextConcat(lib, a[1..], b);
      assert Format.Text(lib, a[0]) + (AllText(lib, a[1..]) + AllText(lib, b)) ==
             Format.Text(lib, a[0]) + AllText(lib, a[1..]) + AllText(lib, b);
    }
  }

  lemma RawText(lib: Library, s: string)
    ensures AllText(lib, [[Raw(s)]]) == s
  {
    var toks: seq<Tok> := [Raw(s)];
    var writes: seq<seq<Tok>> := [toks];
    assert toks[1..] == [] && writes[1..] == [];
    assert Format.Text(lib, [Raw(s)]) == s + "";
  }

  /** What the k-th item of a collection is written as, with its key in a map. */
  ghost predicate ItemText(lib: Library, mode: Mode, h: Heap, v: Value, k: nat, text: string)
    requires k < |Children(h, v)|
  {
    var item := TextIn(lib, mode, h, Children(h, v)[k]);
    item.Some? && text == if v.MapRef? then KeyText(lib, mode, KeysAt(h, v.addr)[k]) + item.value else item.value
  }

  ghost predicate ItemTexts(lib: Library, mode: Mode, h: Heap, v: Value, texts: seq<string>) {
    |texts| == |Children(h, v)| && forall k :: 0 <= k < |texts| ==> ItemText(lib, mode, h, v, k, texts[k])
  }

  /** The text of a value that is visited is its whole text. */
  lemma VisitWhole(lib: Library, mode: Mode, h: Heap, v: Value, d: nat, inside: set<Value>)
    requires d <= MAX_VALUE_DEPTH && !ReachesCycle(h, v) && Clear(h, v, inside)
    requires Visit(lib, mode, h, v, d, inside).stop.None?
    ensures TextIn(lib, mode, h, v) == Some(AllText(lib, Visit(lib, mode, h, v, d, inside).writes))
  {
    VisitSame(lib, mode, h, v, d, inside, 0, {});
    hide ReachesCycle, Clear, AllText;
  }

  lemma TokensText(lib: Library, a: Tok, b: Tok, c: Tok)
    ensures AllText(lib, [[a]]) == TokText(lib, a)
    ensures AllText(lib, [[a, b]]) == TokText(lib, a) + TokText(lib, b)
    ensures AllText(lib, [[a, b, c]]) == TokText(lib, a) + (TokText(lib, b) + TokText(lib, c))
  {
    ToksText(lib, [a]);
    ToksText(lib, [a, b]);
    ToksText(lib, [a, b, c]);
    assert [a][1..] == [] && [a, b][1..] == [b] && [a, b, c][1..] == [b, c] && [b, c][1..] == [c] && [b][1..] == [];
    assert [c][1..] == [];
    assert TokText(lib, a) + "" == TokText(lib, a) && TokText(lib, b) + "" == TokText(lib, b);
    assert TokText(lib, c) + "" == TokText(lib, c);
    assert Format.Text(lib, [c]) == TokText(lib, c);
    assert Format.Text(lib, [b, c]) == TokText(lib, b) + TokText(lib, c);
    hide TokText, AllText;
  }

  lemma ToksText(lib: Library, toks: seq<Tok>)
    ensures AllText(lib, [toks]) == Format.Text(lib, toks)
  {
    var writes := [toks];
    assert writes[1..] == [];
    assert Format.Text(lib, toks) + "" == Format.Text(lib, toks);
    hide Format.Text;
  }

  lemma LeadText(lib: Library, mode: Mode, h: Heap, v: Value, i: nat)
    requires i < |Children(h, v)|
    ensures AllText(lib, Lead(mode, h, v, i)) ==
            (if i > 0 then Separator(mode) else "") +
            (if v.MapRef? then KeyText(lib, mode, KeysAt(h, v.addr)[i]) else "")
  {
    if v.MapRef? {
      var key := KeysAt(h, v.addr)[i];
      if mode.Plain? {
        RawText(lib, (if i > 0 then ", " else "") + (key + "="));
      } else {
        TokensText(lib, JStr(key), Colon, Colon);
        TokensText(lib, Comma, JStr(key), Colon);
        assert (if i > 0 then [Comma] else []) + [JStr(key), Colon] ==
               if i > 0 then [Comma, JStr(key), Colon] else [JStr(key), Colon];
      }
    } else if i > 0 {
      RawText(lib, ", ");
      TokensText(lib, Comma, Comma, Comma);
      assert Separator(mode) + "" == Separator(mode);
    }
    hide AllText;
  }

  lemma PieceIs(lib: Library, mode: Mode, h: Heap, v: Value, texts: seq<string>, i: nat)
    requires i < |texts| && ItemTexts(lib, mode, h, v, texts)
    ensures |texts| == |Children(h, v)| && TextIn(lib, mode, h, Children(h, v)[i]).Some?
    ensures texts[i] == (if v.MapRef? then KeyText(lib, mode, KeysAt(h, v.addr)[i]) else "") +
                        TextIn(lib, mode, h, Children(h, v)[i]).value
  {
    assert ItemText(lib, mode, h, v, i, texts[i]);
    hide TextIn, KeyText;
    var text := TextIn(lib, mode, h, Children(h, v)[i]).value;
    assert "" + text == text;
  }

  /** The items from the i-th on. */
  lemma {:induction false} ItemsWritten(lib: Library, mode: Mode, h: Heap, v: Value, i: nat, d: nat, inside: set<Value>,
                                        texts: seq<string>)
    requires i <= |Children(h, v)| && d < MAX_VALUE_DEPTH && !ReachesCycle(h, v) && Clear(h, v, inside)
    requires VisitChildren(lib, mode, h, v, i, d, inside + {v}).stop.None? && ItemTexts(lib, mode, h, v, texts)
    ensures AllText(lib, VisitChildren(lib, mode, h, v, i, d, inside + {v}).writes) ==
            (if 0 < i < |texts| then Separator(mode) else "") + Joined(Separator(mode), texts[i..])
    decreases |Children(h, v)| - i
  {
    hide ReachesCycle, Clear, Visit, Lead, AllText, TextIn, Separator, KeyText, ItemText;
    var all := inside + {v};
    var t := VisitChildren(lib, mode, h, v, i, d, all);
    if i == |texts| {
      NoWrites(lib);
    } else {
      var c := Children(h, v)[i];
      var lead, here := Lead(mode, h, v, i), Visit(lib, mode, h, c, d + 1, all);
      var rest := VisitChildren(lib, mode, h, v, i + 1, d, all);
      ChildClear(h, v, c, inside);
      VisitWhole(lib, mode, h, c, d + 1, all);
      LeadText(lib, mode, h, v, i);
      ItemsWritten(lib, mode, h, v, i + 1, d, inside, texts);
      assert t.writes == lead + here.writes + rest.writes;
      AllTextConcat(lib, lead + here.writes, rest.writes);
      AllTextConcat(lib, lead, here.writes);
      PieceIs(lib, mode, h, v, texts, i);
      hide VisitChildren, Children, KeysAt, ItemTexts;
      JoinedFrom(Separator(mode), texts, i, AllText(lib, lead), AllText(lib, here.writes), AllText(lib, rest.writes));
    }
  }

  lemma NoWrites(lib: Library)
    ensures AllText(lib, []) == ""
  {
  }

  lemma {:induction false} JoinedFrom(sep: string, texts: seq<string>, i: nat, lead: string, here: string, rest: string)
    requires i < |texts| && lead + here == (if i > 0 then sep else "") + texts[i]
    requires rest == (if i + 1 < |texts| then sep else "") + Joined(sep, texts[i + 1..])
    ensures lead + here + rest == (if i > 0 then sep else "") + Joined(sep, texts[i..])
  {
    assert texts[i..][0] == texts[i] && texts[i..][1..] == texts[i + 1..];
    assert lead + here + rest == (if i > 0 then sep else "") + (texts[i] + rest);
    if i + 1 == |texts| { assert texts[i] + rest == texts[i]; }
  }

  /** A collection that has a text has the texts of its items. */
  lemma ItemsHaveTexts(lib: Library, mode: Mode, h: Heap, v: Value, k: nat)
    requires IsRef(v) && !ReachesCycle(h, v) && TextIn(lib, mode, h, v).Some? && k < |Children(h, v)|
    ensures TextIn(lib, mode, h, Children(h, v)[k]).Some?
  {
    hide ReachesCycle, Clear, TextIn, Visit, VisitChildren, Children, KeysAt;
    TextIsVisited(lib, mode, h, v);
    var c := Children(h, v)[k];
    BodyAccepted(lib, mode, h, v, 0, {});
    ChildAccepted(lib, mode, h, v, 0, k, 0, {} + {v});
    NothingInside(h, v);
    ChildClear(h, v, c, {});
    VisitWhole(lib, mode, h, c, 1, {} + {v});
  }

  lemma TextIsVisited(lib: Library, mode: Mode, h: Heap, v: Value)
    requires IsRef(v) && TextIn(lib, mode, h, v).Some?
    ensures Visit(lib, mode, h, v, 0, {}).stop.None?
  {
    hide Visit, AllText;
  }

  lemma NothingInside(h: Heap, v: Value)
    ensures Clear(h, v, {})
  {
  }

  lemma VisitFramed(lib: Library, mode: Mode, h: Heap, v: Value)
    requires IsRef(v) && VisitChildren(lib, mode, h, v, 0, 0, {} + {v}).stop.None?
    ensures Visit(lib, mode, h, v, 0, {}) ==
            Trace([Open(mode, v)] + VisitChildren(lib, mode, h, v, 0, 0, {} + {v}).writes + [Close(mode, v)], None)
  {
    hide VisitChildren;
  }

  /** What is written around the items. */
  lemma Framed(lib: Library, mode: Mode, h: Heap, v: Value)
    requires IsRef(v) && VisitChildren(lib, mode, h, v, 0, 0, {} + {v}).stop.None?
    ensures TextIn(lib, mode, h, v) ==
            Some((if v.ListRef? then "[" else "{") +
                 AllText(lib, VisitChildren(lib, mode, h, v, 0, 0, {} + {v}).writes) +
                 (if v.ListRef? then "]" else "}"))
  {
    VisitFramed(lib, mode, h, v);
    var body := VisitChildren(lib, mode, h, v, 0, 0, {} + {v});
    RawText(lib, if v.ListRef? then "[" else "{");
    RawText(lib, if v.ListRef? then "]" else "}");
    TokensText(lib, Open(mode, v)[0], Comma, Comma);
    TokensText(lib, Close(mode, v)[0], Comma, Comma);
    assert AllText(lib, [Open(mode, v)]) == (if v.ListRef? then "[" else "{");
    assert AllText(lib, [Close(mode, v)]) == (if v.ListRef? then "]" else "}");
    hide Visit, VisitChildren, AllText;
    AllTextConcat(lib, [Open(mode, v)] + body.writes, [Close(mode, v)]);
    AllTextConcat(lib, [Open(mode, v)], body.writes);
  }

  /**
   A list that reaches no cycle is written in brackets, and a map in braces: the texts of the items, in order,
   behind their keys in a map, with a comma and a space between them.
   */
  lemma CollectionText(lib: Library, mode: Mode, h: Heap, v: Value, texts: seq<string>)
    requires IsRef(v) && !ReachesCycle(h, v) && TextIn(lib, mode, h, v).Some? && ItemTexts(lib, mode, h, v, texts)
    ensures TextIn(lib, mode, h, v) ==
            Some((if v.ListRef? then "[" else "{") + Joined(Separator(mode), texts) + (if v.ListRef? then "]" else "}"))
  {
    hide ReachesCycle, Clear, TextIn, Visit, VisitChildren, AllText, ItemTexts, Joined;
    TextIsVisited(lib, mode, h, v);
    BodyAccepted(lib, mode, h, v, 0, {});
    NothingInside(h, v);
    ItemsWritten(lib, mode, h, v, 0, 0, {}, texts);
    Framed(lib, mode, h, v);
    assert texts[0..] == texts;
    assert "" + Joined(Separator(mode), texts) == Joined(Separator(mode), texts);
  }

  /** The whole text of a value is the one in plain mode. */
  lemma PlainIsWhole(lib: Library, h: Heap, v: Value)
    ensures TextIn(lib, Plain, h, v) == WholeText(lib, h, v)
  {
    if v.Str? { RawText(lib, v.s); }
    hide AllText;
  }

  /** The JSON of a value is the one in JSON mode, when it is not too long. */
  lemma JsonIsWhole(lib: Library, h: Heap, v: Value)
    ensures var text := TextIn(lib, Json, h, v); var r := JsonText(lib, h, v);
      && (r.Ok? <==> text.Some? && |text.value| <= MAX_OUTPUT_BYTES)
      && (r.Ok? ==> r.value == text.value)
  {
    var t := Visit(lib, Json, h, v, 0, {});
    FeedWrites(lib, t.writes, "", MAX_OUTPUT_BYTES);
    assert "" + AllText(lib, t.writes) == AllText(lib, t.writes);
    hide Feed, AllText, Visit;
  }

  /** The JSON of scalars: integers in decimal digits, texts quoted, and null for host objects too. */
  lemma JsonScalars(lib: Library, h: Heap, i: int, s: string, bits: nat, id: nat)
    ensures TextIn(lib, Json, h, Nil) == TextIn(lib, Json, h, Host(id)) == Some("null")
    ensures TextIn(lib, Json, h, Bool(true)) == Some("true") && TextIn(lib, Json, h, Bool(false)) == Some("false")
    ensures TextIn(lib, Json, h, Int(i)).Some? && IsDecimal(i, TextIn(lib, Json, h, Int(i)).value)
    ensures TextIn(lib, Json, h, Float(bits)) == Some(lib.floatText(bits))
    ensures TextIn(lib, Json, h, Str(s)) == Some(lib.quote(s))
  {
    TokensText(lib, JNull, Comma, Comma);
    TokensText(lib, JBool(true), Comma, Comma);
    TokensText(lib, JBool(false), Comma, Comma);
    TokensText(lib, JNum(Scan.FormatInt(i)), Comma, Comma);
    TokensText(lib, JNum(lib.floatText(bits)), Comma, Comma);
    TokensText(lib, JStr(s), Comma, Comma);
    DecimalFormat(i);
    hide AllText, Scan.FormatInt, IsDecimal;
  }

  /** A list inside itself is written as such. */
  lemma SelfList(lib: Library)
    ensures TextIn(lib, Plain, [ListCell([ListRef(0)])], ListRef(0)) == Some("[(this Collection)]")
  {
    var h, v := [ListCell([ListRef(0)])], ListRef(0);
    var inside := {} + {v};
    assert Visit(lib, Plain, h, v, 1, inside) == Trace([[Raw("(this Collection)")]], None);
    assert VisitChildren(lib, Plain, h, v, 1, 0, inside) == Trace([], None);
    assert VisitChildren(lib, Plain, h, v, 0, 0, inside).writes == [[Raw("(this Collection)")]];
    RawText(lib, "(this Collection)");
    hide VisitChildren, Visit, AllText, TextIn;
    Framed(lib, Plain, h, v);
    SelfWords();
  }

  lemma SelfWords()
    ensures "[" + "(this Collection)" + "]" == "[(this Collection)]"
    ensures "{" + ("me=" + "(this Map)") + "}" == "{me=(this Map)}"
  {
  }

  /** And so is a map. */
  lemma SelfMap(lib: Library)
    ensures TextIn(lib, Plain, [MapCell(["me"], map["me" := MapRef(0)])], MapRef(0)) == Some("{me=(this Map)}")
  {
    var h, v := [MapCell(["me"], map["me" := MapRef(0)])], MapRef(0);
    var inside := {} + {v};
    SelfMapWrites(lib, h, v, inside);
    AllTextConcat(lib, [[Raw("me=")]], [[Raw("(this Map)")]]);
    RawText(lib, "me=");
    RawText(lib, "(this Map)");
    hide VisitChildren, Visit, AllText, TextIn;
    Framed(lib, Plain, h, v);
    SelfWords();
  }

  lemma SelfMapWrites(lib: Library, h: Heap, v: Value, inside: set<Value>)
    requires h == [MapCell(["me"], map["me" := MapRef(0)])] && v == MapRef(0) && inside == {v}
    ensures VisitChildren(lib, Plain, h, v, 0, 0, inside) == Trace([[Raw("me=")]] + [[Raw("(this Map)")]], None)
  {
    assert Children(h, v) == [v];
    assert KeysAt(h, 0)[0] == "me";
    assert "" + ("me" + "=") == "me=";
    assert Lead(Plain, h, v, 0) == [[Raw("me=")]];
    assert Visit(lib, Plain, h, v, 1, inside) == Trace([[Raw("(this Map)")]], None);
    assert VisitChildren(lib, Plain, h, v, 1, 0, inside) == Trace([], None);
    var lead, here: seq<seq<Tok>> := [[Raw("me=")]], [[Raw("(this Map)")]];
    assert lead + here + [] == lead + here;
    assert Trace(lead, None).Then(Trace(here, None)).Then(Trace([], None)) == Trace(lead + here, None);
    hide Visit, Lead;
  }
}
