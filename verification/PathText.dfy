/**
 What a written JSONPath selects (internal/jsonpath/jsonpath.go:78-330), step by step of its text.
 */
module PathText {
  import opened Common
  import opened Values
  import opened JsonPath
  import Cycles
  import Scan

  // ---- One more step of a path

  /** The start of a step. */
  predicate Steps(more: string) { more == "" || more[0] == '.' || more[0] == '[' }

  lemma {:induction false} NameGoesOn(s: string, more: string)
    requires Steps(more)
    ensures NameLength(s + more) == NameLength(s)
    ensures (s + more)[..NameLength(s)] == s[..NameLength(s)]
    ensures (s + more)[NameLength(s)..] == s[NameLength(s)..] + more
  {
    if s == "" || s[0] == '.' || s[0] == '[' {
      assert s + more == "" || (s + more)[0] == '.' || (s + more)[0] == '[';
    } else {
      assert (s + more)[1..] == s[1..] + more;
      NameGoesOn(s[1..], more);
    }
  }

  lemma {:induction false} BracketGoesOn(s: string, more: string)
    requires BracketLength(s) < |s|
    ensures BracketLength(s + more) == BracketLength(s)
  {
    if s[0] != ']' {
      assert (s + more)[1..] == s[1..] + more;
      BracketGoesOn(s[1..], more);
    }
  }

  lemma {:induction false} BracketScanned(s: string, more: string)
    requires s != "" && s[0] == '[' && ScanBracket(s).Scanned?
    ensures ScanBracket(s + more) == Scanned(ScanBracket(s).token, ScanBracket(s).rest + more)
  {
    hide Atoi, Definite, BracketLength;
    var end := 1 + BracketLength(s[1..]);
    BracketGoesOn(s[1..], more);
    assert (s + more)[1..] == s[1..] + more;
    assert (s + more)[1..end] == s[1..end] && (s + more)[end + 1..] == s[end + 1..] + more;
  }

  lemma {:induction false} StepScanned(s: string, more: string)
    requires Steps(more) && ScanStep(s).Scanned?
    ensures ScanStep(s + more) == Scanned(ScanStep(s).token, ScanStep(s).rest + more)
  {
    hide Definite, NameLength, ScanBracket;
    if s != "" && s[0] == '[' {
      BracketScanned(s, more);
    } else {
      NameGoesOn(s, more);
    }
  }

  lemma {:induction false} TokenScanned(s: string, more: string)
    requires s != "" && Steps(more) && ScanToken(s).Scanned?
    ensures ScanToken(s + more) == Scanned(ScanToken(s).token, ScanToken(s).rest + more)
  {
    hide Definite, ScanBracket;
    if Scan.PairAt('.', '.', s) {
      assert (s + more)[2..] == s[2..] + more;
      StepScanned(s[2..], more);
    } else if s[0] == '.' {
      assert |s| > 1 by { assert s[1..] != ""; }
      assert (s + more)[1..] == s[1..] + more;
      StepScanned(s[1..], more);
    } else if s[0] == '[' {
      BracketScanned(s, more);
    }
    hide ScanStep;
  }

  /** The tokens of a path with more steps are those of the path and then those of the steps. */
  lemma {:induction false} TokensGoOn(s: string, more: string)
    requires Steps(more) && Tokens(s).Ok?
    ensures Tokens(s + more) == After(Tokens(s).value, Tokens(more))
    decreases |s|
  {
    hide ScanToken, Definite;
    if s == "" {
      assert s + more == more;
      AfterNothing(Tokens(more));
    } else {
      TokenScanned(s, more);
      var t, rest := ScanToken(s).token, ScanToken(s).rest;
      TokensGoOn(rest, more);
      AfterOneMore([t], t, Tokens(more));
      FirstToken(t, Tokens(rest).value, Tokens(more));
    }
  }

  lemma FirstToken(t: Token, toks: seq<Token>, r: Result<seq<Token>, PathError>)
    ensures After([t], After(toks, r)) == After([t] + toks, r)
  {
    if r.Ok? { assert [t] + (toks + r.value) == [t] + toks + r.value; }
  }

  // ---- The steps there are

  /** A name without the characters that end it or mean something else. */
  predicate IsName(name: string) {
    name != "" && forall i :: 0 <= i < |name| ==> name[i] !in ".[*?@"
  }

  lemma {:induction false} NameIsAll(name: string)
    requires forall i :: 0 <= i < |name| ==> name[i] != '.' && name[i] != '['
    ensures NameLength(name) == |name|
  {
    if name != "" { NameIsAll(name[1..]); }
  }

  lemma {:induction false} FieldStep(name: string)
    requires IsName(name)
    ensures Tokens("." + name) == Ok([FieldToken(name)])
  {
    hide Definite;
    var s := "." + name;
    NameIsAll(name);
    assert s[1..] == name && s[1] != '.';
    assert name[..|name|] == name && name[|name|..] == "";
    assert name != "*" by { assert name[0] != '*'; }
    OneToken(s, FieldToken(name));
    hide NameLength;
  }

  lemma {:induction false} OneToken(s: string, t: Token)
    requires s != ""
    ensures ScanToken(s) == Scanned(t, "") ==> Tokens(s) == Ok([t])
  {
    assert [t] + [] == [t];
    hide ScanToken;
  }

  lemma {:induction false} BracketIsAll(inner: string)
    requires ']' !in inner
    ensures BracketLength(inner + "]") == |inner|
  {
    if inner != "" {
      assert (inner + "]")[1..] == inner[1..] + "]";
      assert (inner + "]")[0] == inner[0];
      BracketIsAll(inner[1..]);
    }
  }

  lemma {:induction false} BracketParts(inner: string)
    requires ']' !in inner
    ensures var s := "[" + inner + "]";
      s[1..] == inner + "]" && 1 + BracketLength(s[1..]) == |s| - 1 && s[1..|s| - 1] == inner && s[|s|..] == ""
  {
    var s := "[" + inner + "]";
    assert s[1..] == inner + "]";
    BracketIsAll(inner);
  }

  lemma {:induction false} IndexStep(i: int)
    requires Scan.IsInt64(i)
    ensures Tokens("[" + Scan.FormatInt(i) + "]") == Ok([IndexToken(i)])
  {
    hide Definite, Scan.FormatInt, Scan.ParseInt, BracketLength;
    var inner := Scan.FormatInt(i);
    DecimalChars(i);
    Scan.ParseIntUndoesFormatInt(i);
    assert inner[0] == '-' || Scan.IsDigit(inner[0]);
    BracketParts(inner);
    OneToken("[" + inner + "]", IndexToken(i));
  }

  lemma DecimalChars(i: int)
    ensures forall c <- Scan.FormatInt(i) :: c == '-' || Scan.IsDigit(c)
  {
    assert Scan.AllDigits(Scan.Digits(if i < 0 then -i else i));
    hide Scan.Digits;
  }

  lemma {:induction false} QuotedStep(q: char, name: string)
    requires (q == '\'' || q == '"') && ']' !in name
    ensures Tokens("[" + ([q] + name + [q]) + "]") == Ok([FieldToken(name)])
  {
    hide Definite;
    var inner := [q] + name + [q];
    var s := "[" + inner + "]";
    assert inner[1..|inner| - 1] == name;
    BracketParts(inner);
    OneToken(s, FieldToken(name));
    hide BracketLength, Atoi;
  }

  lemma {:induction false} StarStep()
    ensures Tokens(".*") == Ok([WILDCARD]) && Tokens("[*]") == Ok([WILDCARD])
  {
    hide Definite;
    NameIsAll("*");
    assert ".*"[1..] == "*" && "*"[..1] == "*" && "*"[1..] == "";
    OneToken(".*", WILDCARD);
    BracketParts("*");
    assert "[" + "*" + "]" == "[*]";
    OneToken("[*]", WILDCARD);
    hide NameLength, BracketLength, Atoi;
  }

  // ---- Definite paths

  lemma {:induction false} SelectMore(h: Heap, toks: seq<Token>, t: Token, v: Value)
    ensures var w := SelectAll(h, toks, v);
      SelectAll(h, toks + [t], v) == if w.Some? then Select(h, t, w.value) else None
  {
    hide Select;
    if toks == [] {
      assert toks + [t] == [t] && [t][1..] == [];
    } else {
      assert (toks + [t])[1..] == toks[1..] + [t];
      var next := Select(h, toks[0], v);
      if next.Some? { SelectMore(h, toks[1..], t, next.value); }
    }
  }

  /** No dot is at the end of a path with tokens. */
  lemma {:induction false} NoDotAtEnd(s: string)
    requires Tokens(s).Ok? && s != ""
    ensures s[|s| - 1] != '.'
    decreases |s|
  {
    hide Definite;
    hide Tokens, ScanToken;
    RestHasTokens(s);
    RestIsEnd(s);
    var r := ScanToken(s).rest;
    if r != "" { NoDotAtEnd(r); }
  }

  lemma {:induction false} RestHasTokens(s: string)
    requires Tokens(s).Ok? && s != ""
    ensures ScanToken(s).Scanned? && Tokens(ScanToken(s).rest).Ok?
  {
    hide ScanToken, Definite;
  }

  /** r is the end of s, behind something that is no dot. */
  ghost predicate BehindNoDot(r: string, s: string) {
    |r| < |s| && r == s[|s| - |r|..] && s[|s| - |r| - 1] != '.'
  }

  lemma BehindMore(r: string, s: string, k: nat)
    requires k <= |s| && BehindNoDot(r, s[k..])
    ensures BehindNoDot(r, s)
  {
    assert s[k..][|s| - k - |r|..] == s[|s| - |r|..];
    assert s[k..][|s| - k - |r| - 1] == s[|s| - |r| - 1];
  }

  /** What a token leaves is the end of the text, and what it ends with is no dot. */
  lemma {:induction false} RestIsEnd(s: string)
    requires s != "" && ScanToken(s).Scanned?
    ensures BehindNoDot(ScanToken(s).rest, s)
  {
    hide Definite, ScanStep, ScanBracket, BehindNoDot;
    var r := ScanToken(s).rest;
    if Scan.PairAt('.', '.', s) {
      StepRest(s[2..]);
      BehindMore(r, s, 2);
    } else if s[0] == '.' {
      StepRest(s[1..]);
      BehindMore(r, s, 1);
    } else if s[0] == '[' {
      BracketRest(s);
    }
  }

  lemma {:induction false} StepRest(s: string)
    requires ScanStep(s).Scanned?
    ensures BehindNoDot(ScanStep(s).rest, s)
  {
    hide Definite;
    if s != "" && s[0] == '[' {
      BracketRest(s);
    } else {
      NameHasNoDot(s);
    }
    hide ScanBracket, NameLength;
  }

  lemma {:induction false} NameHasNoDot(s: string)
    ensures forall i :: 0 <= i < NameLength(s) ==> s[i] != '.'
  {
    if s != "" && s[0] != '.' && s[0] != '[' {
      NameHasNoDot(s[1..]);
      forall i | 0 < i < NameLength(s) ensures s[i] != '.' { assert s[i] == s[1..][i - 1]; }
    }
  }

  lemma {:induction false} BracketRest(s: string)
    requires s != "" && s[0] == '[' && ScanBracket(s).Scanned?
    ensures BehindNoDot(ScanBracket(s).rest, s)
  {
    hide Definite;
    var end := 1 + BracketLength(s[1..]);
    assert s[end] == s[1..][end - 1] == ']';
    hide Atoi, BracketLength;
  }

  /** A step without a star, a filter or two dots keeps a path definite. */
  predicate PlainStep(more: string) {
    more != "" && Steps(more) && !HasAny(more, "*?@") && !HasDotDot(more)
  }

  lemma {:induction false} StillAccepted(path: string, more: string)
    requires PathTokens(path, false).Ok? && PlainStep(more)
    ensures PathTokens(path + more, false) == After(PathTokens(path, false).value, Tokens(more))
  {
    hide Tokens, After;
    var s := path + more;
    assert s[1..] == path[1..] + more && s[0] == path[0];
    TokensGoOn(path[1..], more);
    if path[1..] != "" { NoDotAtEnd(path[1..]); }
    assert path[|path| - 1] != '.' by { if |path| > 1 { assert path[|path| - 1] == path[1..][|path| - 2]; } }
    forall i | 0 <= i < |s| ensures s[i] !in "*?@" {
      if i < |path| { assert s[i] == path[i]; } else { assert s[i] == more[i - |path|]; }
    }
    forall i | 0 <= i < |s| - 1 ensures !(s[i] == '.' && s[i + 1] == '.') {
      if i + 1 < |path| {
        assert s[i] == path[i] && s[i + 1] == path[i + 1];
      } else if i >= |path| {
        assert s[i] == more[i - |path|] && s[i + 1] == more[i - |path| + 1];
      } else {
        assert s[i] == path[|path| - 1];
      }
    }
  }

  lemma {:induction false} OneMoreStep(h: Heap, path: string, more: string, t: Token, root: Value)
    requires EvalAnswer(h, path, root).Ok? && PlainStep(more) && Tokens(more) == Ok([t])
    ensures var w := EvalAnswer(h, path, root).value;
      EvalAnswer(h, path + more, root) == Ok(if w.Some? then Select(h, t, w.value) else None)
  {
    hide Tokens, Select, PlainStep;
    StillAccepted(path, more);
    SelectMore(h, PathTokens(path, false).value, t, root);
    hide PathTokens;
  }

  /** $ is the document. */
  lemma RootIsAll(h: Heap, root: Value)
    ensures EvalAnswer(h, "$", root) == Ok(Some(root))
    ensures EvalAllAnswer(h, "$", root) == Ok(([root], false))
  {
    assert "$"[1..] == "";
  }

  /** The item of a list at a place. */
  ghost predicate ItemAt(h: Heap, v: Value, i: int, found: Option<Value>) {
    if v.ListRef? && v.addr < |h| && h[v.addr].ListCell? && 0 <= i < |h[v.addr].items|
    then found == Some(h[v.addr].items[i])
    else found == None
  }

  /** The value of a map under a name. */
  ghost predicate ValueUnder(h: Heap, v: Value, name: string, found: Option<Value>) {
    if v.MapRef? && v.addr < |h| && h[v.addr].MapCell? && name in h[v.addr].vals
    then found == Some(h[v.addr].vals[name])
    else found == None
  }

  lemma {:induction false} IndexIsPlain(i: int)
    ensures PlainStep("[" + Scan.FormatInt(i) + "]")
  {
    var s := "[" + Scan.FormatInt(i) + "]";
    DecimalChars(i);
    forall k | 0 <= k < |s| ensures s[k] == '[' || s[k] == ']' || s[k] == '-' || Scan.IsDigit(s[k]) {
      if 0 < k < |s| - 1 { assert s[k] == Scan.FormatInt(i)[k - 1]; }
    }
    hide Scan.FormatInt;
  }

  /** [i] behind a path selects the item of a list at i, if there is one. */
  lemma {:induction false} IndexSelects(h: Heap, path: string, i: int, root: Value)
    requires EvalAnswer(h, path, root).Ok? && Scan.IsInt64(i)
    ensures var w := EvalAnswer(h, path, root).value;
      var r := EvalAnswer(h, path + ("[" + Scan.FormatInt(i) + "]"), root);
      r.Ok? && if w.Some? then ItemAt(h, w.value, i, r.value) else r.value == None
  {
    IndexIsPlain(i);
    IndexStep(i);
    OneMoreStep(h, path, "[" + Scan.FormatInt(i) + "]", IndexToken(i), root);
    hide EvalAnswer, Tokens, PlainStep;
  }

  lemma {:induction false} NameIsPlain(name: string)
    requires IsName(name)
    ensures PlainStep("." + name)
  {
    var s := "." + name;
    forall k | 0 < k < |s| ensures s[k] !in ".[*?@" { assert s[k] == name[k - 1]; }
  }

  /** .name behind a path selects the value of a map under the name, if there is one. */
  lemma {:induction false} NameSelects(h: Heap, path: string, name: string, root: Value)
    requires EvalAnswer(h, path, root).Ok? && IsName(name)
    ensures var w := EvalAnswer(h, path, root).value; var r := EvalAnswer(h, path + ("." + name), root);
      r.Ok? && if w.Some? then ValueUnder(h, w.value, name, r.value) else r.value == None
  {
    NameIsPlain(name);
    FieldStep(name);
    OneMoreStep(h, path, "." + name, FieldToken(name), root);
    hide EvalAnswer, Tokens, PlainStep, IsName;
  }

  /** A name that can be written in quotes. */
  predicate IsQuotable(name: string) { ']' !in name && !HasAny(name, "*?@") && !HasDotDot(name) }

  lemma {:induction false} QuotedIsPlain(q: char, name: string)
    requires (q == '\'' || q == '"') && IsQuotable(name)
    ensures PlainStep("[" + ([q] + name + [q]) + "]")
  {
    var s := "[" + ([q] + name + [q]) + "]";
    assert |s| == |name| + 4 && s[0] == '[' && s[1] == q && s[|s| - 2] == q && s[|s| - 1] == ']';
    forall k | 2 <= k < |s| - 2 ensures s[k] == name[k - 2] {}
    forall k | 0 <= k < |s| ensures s[k] !in "*?@" { if 2 <= k < |s| - 2 { assert name[k - 2] !in "*?@"; } }
    forall k | 0 <= k < |s| - 1 ensures !(s[k] == '.' && s[k + 1] == '.') {
      if 2 <= k && k + 1 < |s| - 2 { assert !(name[k - 2] == '.' && name[k - 1] == '.'); }
    }
  }

  /** ['name'] behind a path, or ["name"], selects the same for any name without a bracket. */
  lemma {:induction false} QuotedSelects(h: Heap, path: string, q: char, name: string, root: Value)
    requires EvalAnswer(h, path, root).Ok? && (q == '\'' || q == '"') && IsQuotable(name)
    ensures var w := EvalAnswer(h, path, root).value;
      var r := EvalAnswer(h, path + ("[" + ([q] + name + [q]) + "]"), root);
      r.Ok? && if w.Some? then ValueUnder(h, w.value, name, r.value) else r.value == None
  {
    QuotedIsPlain(q, name);
    QuotedStep(q, name);
    OneMoreStep(h, path, "[" + ([q] + name + [q]) + "]", FieldToken(name), root);
    hide EvalAnswer, Tokens, PlainStep, IsQuotable;
  }

  // ---- Paths with several matches

  /** What a value holds, in order. */
  function HeldBy(h: Heap, v: Value): seq<Value> {
    match v
    case ListRef(a) => if a < |h| && h[a].ListCell? then h[a].items else []
    case MapRef(a) =>
      if a < |h| && h[a].MapCell? then
        seq(|h[a].keys|, i requires 0 <= i < |h[a].keys| =>
          if h[a].keys[i] in h[a].vals then h[a].vals[h[a].keys[i]] else Nil)
      else []
    case _ => []
  }

  function HeldByAll(h: Heap, vs: seq<Value>): seq<Value> {
    if vs == [] then [] else HeldBy(h, vs[0]) + HeldByAll(h, vs[1..])
  }

  /** The items at i of those values that are lists with as many. */
  function ItemsAt(h: Heap, vs: seq<Value>, i: int): seq<Value> {
    if vs == [] then []
    else
      var v := vs[0];
      (if v.ListRef? && v.addr < |h| && h[v.addr].ListCell? && 0 <= i < |h[v.addr].items| then [h[v.addr].items[i]]
       else []) + ItemsAt(h, vs[1..], i)
  }

  /** The values under a name of those that are maps with it. */
  function ValuesUnder(h: Heap, vs: seq<Value>, name: string): seq<Value> {
    if vs == [] then []
    else
      var v := vs[0];
      (if v.MapRef? && v.addr < |h| && h[v.addr].MapCell? && name in h[v.addr].vals then [h[v.addr].vals[name]]
       else []) + ValuesUnder(h, vs[1..], name)
  }

  lemma {:induction false} MatchMore(h: Heap, toks: seq<Token>, t: Token, vs: seq<Value>)
    requires MatchAll(h, toks, vs).Ok?
    ensures var more := SelectedOf(h, t, MatchAll(h, toks, vs).value);
      MatchAll(h, toks + [t], vs) == if |more| > MAX_MATCHES then Err(TooManyMatches) else Ok(more)
    decreases |toks|
  {
    hide SelectedOf;
    if toks == [] {
      assert toks + [t] == [t] && [t][1..] == [];
    } else {
      assert (toks + [t])[1..] == toks[1..] + [t];
      MatchMore(h, toks[1..], t, SelectedOf(h, toks[0], vs));
    }
  }

  lemma {:induction false} StillMatches(path: string, more: string)
    requires PathTokens(path, true).Ok? && Steps(more) && !HasAny(more, "?@")
    ensures PathTokens(path + more, true) == After(PathTokens(path, true).value, Tokens(more))
  {
    hide Tokens, After;
    var s := path + more;
    assert s[1..] == path[1..] + more && s[0] == path[0];
    TokensGoOn(path[1..], more);
    forall i | 0 <= i < |s| ensures s[i] !in "?@" {
      if i < |path| { assert s[i] == path[i]; } else { assert s[i] == more[i - |path|]; }
    }
  }

  lemma {:induction false} OneMoreMatch(h: Heap, path: string, more: string, t: Token, root: Value)
    requires EvalAllAnswer(h, path, root).Ok? && Steps(more) && !HasAny(more, "?@") && Tokens(more) == Ok([t])
    ensures var (ws, many) := EvalAllAnswer(h, path, root).value; var found := SelectedOf(h, t, ws);
      EvalAllAnswer(h, path + more, root) ==
      if |found| > MAX_MATCHES then Err(TooManyMatches) else Ok((found, many || t.wildcard || t.descent))
  {
    hide Tokens, SelectedOf;
    StillMatches(path, more);
    var toks := PathTokens(path, true).value;
    MatchMore(h, toks, t, [root]);
    assert Indefinite(toks + [t]) <==> Indefinite(toks) || t.wildcard || t.descent by {
      assert (toks + [t])[..|toks|] == toks;
      if x :| x in toks && (x.wildcard || x.descent) { assert x in toks + [t]; }
      if t.wildcard || t.descent { assert t in toks + [t]; }
    }
    hide PathTokens, MatchAll;
  }

  lemma {:induction false} StarSelected(h: Heap, vs: seq<Value>)
    ensures SelectedOf(h, WILDCARD, vs) == HeldByAll(h, vs)
  {
    if vs != [] {
      StarSelected(h, vs[1..]);
      var v := vs[0];
      assert |Children(h, v)| == |HeldBy(h, v)|;
      assert Children(h, v) == HeldBy(h, v);
      hide Children, HeldBy;
    }
  }

  lemma {:induction false} IndexSelected(h: Heap, i: int, vs: seq<Value>)
    ensures SelectedOf(h, IndexToken(i), vs) == ItemsAt(h, vs, i) && |ItemsAt(h, vs, i)| <= |vs|
  {
    if vs != [] { IndexSelected(h, i, vs[1..]); }
  }

  lemma {:induction false} NameSelected(h: Heap, name: string, vs: seq<Value>)
    ensures SelectedOf(h, FieldToken(name), vs) == ValuesUnder(h, vs, name) && |ValuesUnder(h, vs, name)| <= |vs|
  {
    if vs != [] { NameSelected(h, name, vs[1..]); }
  }

  lemma {:induction false} NotTooMany(h: Heap, toks: seq<Token>, vs: seq<Value>)
    requires |vs| <= MAX_MATCHES
    ensures MatchAll(h, toks, vs).Ok? ==> |MatchAll(h, toks, vs).value| <= MAX_MATCHES
    decreases |toks|
  {
    hide SelectedOf;
    if toks != [] && |SelectedOf(h, toks[0], vs)| <= MAX_MATCHES {
      NotTooMany(h, toks[1..], SelectedOf(h, toks[0], vs));
    }
  }

  /** .* and [*] behind a path match all that its matches hold, in order, unless these are too many. */
  lemma {:induction false} StarMatches(h: Heap, path: string, root: Value)
    requires EvalAllAnswer(h, path, root).Ok?
    ensures var found := HeldByAll(h, EvalAllAnswer(h, path, root).value.0);
      var r := if |found| > MAX_MATCHES then Err(TooManyMatches) else Ok((found, true));
      EvalAllAnswer(h, path + ".*", root) == r && EvalAllAnswer(h, path + "[*]", root) == r
  {
    StarStep();
    OneMoreMatch(h, path, ".*", WILDCARD, root);
    OneMoreMatch(h, path, "[*]", WILDCARD, root);
    StarSelected(h, EvalAllAnswer(h, path, root).value.0);
    hide EvalAllAnswer, Tokens, SelectedOf, HeldByAll;
  }

  /** [i] and .name behind a path match in each of its matches what they select there. */
  lemma {:induction false} StepMatches(h: Heap, path: string, i: int, name: string, root: Value)
    requires EvalAllAnswer(h, path, root).Ok? && Scan.IsInt64(i) && IsName(name)
    ensures var (ws, many) := EvalAllAnswer(h, path, root).value;
      && EvalAllAnswer(h, path + ("[" + Scan.FormatInt(i) + "]"), root) == Ok((ItemsAt(h, ws, i), many))
      && EvalAllAnswer(h, path + ("." + name), root) == Ok((ValuesUnder(h, ws, name), many))
  {
    hide Tokens, SelectedOf, ItemsAt, ValuesUnder, Scan.FormatInt;
    NotTooMany(h, PathTokens(path, true).value, [root]);
    hide PathTokens, MatchAll;
    var ws := EvalAllAnswer(h, path, root).value.0;
    hide EvalAllAnswer;
    IndexIsPlain(i);
    IndexStep(i);
    NameIsPlain(name);
    FieldStep(name);
    NoFilter("[" + Scan.FormatInt(i) + "]");
    NoFilter("." + name);
    OneMoreMatch(h, path, "[" + Scan.FormatInt(i) + "]", IndexToken(i), root);
    OneMoreMatch(h, path, "." + name, FieldToken(name), root);
    IndexSelected(h, i, ws);
    NameSelected(h, name, ws);
  }

  lemma NoFilter(more: string)
    requires PlainStep(more)
    ensures !HasAny(more, "?@")
  {
    forall i | 0 <= i < |more| ensures more[i] !in "?@" { assert more[i] !in "*?@"; }
  }

  // ---- Descent

  /** What a step behind two dots asks for. */
  datatype Ask = Any | Item(index: int) | Named(name: string)

  predicate Askable(a: Ask) { (a.Item? ==> Scan.IsInt64(a.index)) && (a.Named? ==> IsName(a.name)) }

  function AskText(a: Ask): string {
    match a case Any => "*" case Item(i) => "[" + Scan.FormatInt(i) + "]" case Named(name) => name
  }

  function AskToken(a: Ask): Token {
    (match a case Any => WILDCARD case Item(i) => IndexToken(i) case Named(name) => FieldToken(name))
    .(descent := true)
  }

  lemma {:induction false} AskScanned(a: Ask)
    requires Askable(a)
    ensures ScanStep(AskText(a)) == Scanned(AskToken(a).(descent := false), "")
  {
    hide Definite, Scan.FormatInt, Scan.ParseInt;
    match a
    case Any =>
      NameIsAll("*");
      assert "*"[..1] == "*" && "*"[1..] == "";
    case Item(i) =>
      var inner := Scan.FormatInt(i);
      DecimalChars(i);
      Scan.ParseIntUndoesFormatInt(i);
      assert inner[0] == '-' || Scan.IsDigit(inner[0]);
      BracketParts(inner);
      hide BracketLength;
    case Named(name) =>
      NameIsAll(name);
      assert name[..|name|] == name && name[|name|..] == "";
      assert name != "*" by { assert name[0] != '*'; }
      hide NameLength;
  }

  lemma {:induction false} DescentStep(a: Ask)
    requires Askable(a)
    ensures Tokens(".." + AskText(a)) == Ok([AskToken(a)])
    ensures Steps(".." + AskText(a)) && !HasAny(".." + AskText(a), "?@")
  {
    hide AskText, Definite, ScanStep, AskToken;
    var s := ".." + AskText(a);
    AskScanned(a);
    assert s[2..] == AskText(a);
    AskPlain(a);
    AskDescends(a);
    assert ScanToken(s) == Scanned(AskToken(a), "");
    OneToken(s, AskToken(a));
    forall k | 2 <= k < |s| ensures s[k] !in "?@" { assert s[k] == AskText(a)[k - 2]; }
    hide ScanToken, Tokens;
  }

  lemma AskDescends(a: Ask)
    ensures AskToken(a).(descent := false).(descent := true) == AskToken(a)
  {
  }

  lemma {:induction false} AskPlain(a: Ask)
    requires Askable(a)
    ensures forall k :: 0 <= k < |AskText(a)| ==> AskText(a)[k] !in "?@"
  {
    var s := AskText(a);
    match a
    case Any =>
    case Item(i) =>
      IndexIsPlain(i);
      NoFilter(s);
    case Named(name) =>
      forall k | 0 <= k < |s| ensures s[k] !in "?@" { assert name[k] !in ".[*?@"; }
    hide Scan.FormatInt, PlainStep;
  }

  /** x is found from v by a walk into what it holds, of at most n values. */
  ghost predicate Within(h: Heap, v: Value, x: Value, n: int) {
    exists p :: Cycles.IsPath(h, p) && p[0] == v && p[|p| - 1] == x && |p| <= n
  }

  lemma WithinSelf(h: Heap, v: Value, n: nat)
    requires n > 0
    ensures Within(h, v, v, n)
  {
    var p := [v];
    assert Cycles.IsPath(h, p) && p[0] == v && p[|p| - 1] == v && |p| <= n;
  }

  lemma WithinChild(h: Heap, v: Value, c: Value, x: Value, n: int)
    requires c in Children(h, v) && Within(h, c, x, n)
    ensures Within(h, v, x, n + 1)
  {
    hide Children;
    var p :| Cycles.IsPath(h, p) && p[0] == c && p[|p| - 1] == x && |p| <= n;
    var q := [v] + p;
    forall i | 0 <= i < |q| - 1 ensures q[i + 1] in Children(h, q[i]) {
      if i > 0 { assert p[i - 1 + 1] in Children(h, p[i - 1]); }
    }
    assert q[0] == v && q[|q| - 1] == x;
  }

  lemma WithinSplits(h: Heap, v: Value, x: Value, n: int) returns (c: Value)
    requires Within(h, v, x, n) && x != v
    ensures c in Children(h, v) && Within(h, c, x, n - 1)
  {
    hide Children;
    var p :| Cycles.IsPath(h, p) && p[0] == v && p[|p| - 1] == x && |p| <= n;
    c := p[1];
    assert p[0 + 1] in Children(h, p[0]);
    var q := p[1..];
    forall i | 0 <= i < |q| - 1 ensures q[i + 1] in Children(h, q[i]) {
      assert p[i + 1 + 1] in Children(h, p[i + 1]);
    }
    assert q[0] == c && q[|q| - 1] == x;
  }

  lemma {:induction false} NodesAreWithin(h: Heap, v: Value, d: nat, x: Value)
    requires d <= MAX_DEPTH
    ensures x in Nodes(h, v, d) <==> Within(h, v, x, MAX_DEPTH - d + 1)
    decreases MAX_DEPTH - d, 0
  {
    hide Within, Children;
    var n := MAX_DEPTH - d + 1;
    if x == v {
      WithinSelf(h, v, n);
      assert x in [v];
    } else {
      if d < MAX_DEPTH { SomeNodes(h, Children(h, v), d + 1, x); }
      if Within(h, v, x, n) {
        var c := WithinSplits(h, v, x, n);
        if d == MAX_DEPTH { NotWithin(h, c, x); }
      }
      if d < MAX_DEPTH {
        forall c | c in Children(h, v) && Within(h, c, x, n - 1) ensures Within(h, v, x, n) {
          WithinChild(h, v, c, x, n - 1);
        }
      }
    }
    hide NodesOf;
  }

  lemma NotWithin(h: Heap, v: Value, x: Value)
    ensures !Within(h, v, x, 0)
  {
  }

  lemma {:induction false} SomeNodes(h: Heap, vs: seq<Value>, d: nat, x: Value)
    requires d <= MAX_DEPTH
    ensures x in NodesOf(h, vs, d) <==> exists c <- vs :: Within(h, c, x, MAX_DEPTH - d + 1)
    decreases MAX_DEPTH - d, 1, |vs|
  {
    hide Within, Nodes;
    if vs != [] {
      var rest, n := vs[1..], MAX_DEPTH - d + 1;
      NodesAreWithin(h, vs[0], d, x);
      SomeNodes(h, rest, d, x);
      if c :| c in rest && Within(h, c, x, n) { assert c in vs; }
      if c :| c in vs && Within(h, c, x, n) {
        if c != vs[0] {
          var i :| 0 <= i < |vs| && vs[i] == c;
          assert rest[i - 1] == c;
        }
      }
    }
  }

  lemma {:induction false} GatherHas(h: Heap, t: Token, vs: seq<Value>, x: Value)
    ensures x in Gather(h, t, vs) <==> exists w <- vs :: x in Here(h, t, w)
  {
    hide Here;
    if vs != [] {
      var rest := vs[1..];
      GatherHas(h, t, rest, x);
      assert vs == [vs[0]] + rest;
      if w :| w in rest && x in Here(h, t, w) { assert w in vs; }
    }
  }

  lemma {:induction false} SelectedHas(h: Heap, t: Token, vs: seq<Value>, x: Value)
    ensures x in SelectedOf(h, t, vs) <==> exists w <- vs :: x in Selected(h, t, w)
  {
    hide Selected;
    if vs != [] {
      SelectedHas(h, t, vs[1..], x);
      assert vs == [vs[0]] + vs[1..];
    }
  }

  /** A value x under the name in something found from w, at most a thousand levels down. */
  ghost predicate FoundBelow(h: Heap, w: Value, name: string, x: Value) {
    exists y :: Within(h, w, y, 1001) && ValueUnder(h, y, name, Some(x))
  }

  lemma {:induction false} DescentSelected(h: Heap, name: string, w: Value, x: Value)
    ensures x in Selected(h, FieldToken(name).(descent := true), w) <==> FoundBelow(h, w, name, x)
  {
    var t := FieldToken(name).(descent := true);
    hide Within, Nodes, Gather;
    GatherHas(h, t, Nodes(h, w, 0), x);
    forall y ensures y in Nodes(h, w, 0) <==> Within(h, w, y, 1001) { NodesAreWithin(h, w, 0, y); }
    forall y ensures x in Here(h, t, y) <==> ValueUnder(h, y, name, Some(x)) {}
    hide Here, ValueUnder;
  }

  /** ..name behind a path matches what is under the name in its matches, and anywhere below them. */
  lemma {:induction false} DescentMatches(h: Heap, path: string, name: string, root: Value, x: Value)
    requires EvalAllAnswer(h, path, root).Ok? && IsName(name)
    ensures var ws := EvalAllAnswer(h, path, root).value.0; var r := EvalAllAnswer(h, path + (".." + name), root);
      && (r.Err? ==> r.error == TooManyMatches)
      && (r.Ok? ==> r.value.1 && (x in r.value.0 <==> exists w <- ws :: FoundBelow(h, w, name, x)))
  {
    var t := FieldToken(name).(descent := true);
    DescentStep(Named(name));
    OneMoreMatch(h, path, ".." + name, t, root);
    var ws := EvalAllAnswer(h, path, root).value.0;
    SelectedHas(h, t, ws, x);
    forall w ensures x in Selected(h, t, w) <==> FoundBelow(h, w, name, x) { DescentSelected(h, name, w, x); }
    hide EvalAllAnswer, Tokens, SelectedOf, Selected, FoundBelow;
  }

  /** What a step asks for in one value. */
  function Asked(h: Heap, a: Ask, v: Value): seq<Value> {
    match a case Any => HeldBy(h, v) case Item(i) => ItemsAt(h, [v], i) case Named(name) => ValuesUnder(h, [v], name)
  }

  /** And in all it holds, n levels deep: first its own, then what is under each value it holds, in order. */
  function AskedBelow(h: Heap, a: Ask, v: Value, n: nat): seq<Value>
    decreases n, 0
  {
    if n == 0 then [] else Asked(h, a, v) + AskedInAll(h, a, HeldBy(h, v), n - 1)
  }

  function AskedInAll(h: Heap, a: Ask, vs: seq<Value>, n: nat): seq<Value>
    decreases n, 1, |vs|
  {
    if vs == [] then [] else AskedBelow(h, a, vs[0], n) + AskedInAll(h, a, vs[1..], n)
  }

  lemma {:induction false} HereIsAsked(h: Heap, a: Ask, v: Value)
    ensures Here(h, AskToken(a), v) == Asked(h, a, v) && Children(h, v) == HeldBy(h, v)
  {
    assert |Children(h, v)| == |HeldBy(h, v)|;
    assert Children(h, v) == HeldBy(h, v);
    assert [v][1..] == [];
    if a.Item? { assert ItemsAt(h, [v][1..], a.index) == []; }
    if a.Named? { assert ValuesUnder(h, [v][1..], a.name) == []; }
    hide Children, HeldBy;
  }

  lemma {:induction false} GatherBoth(h: Heap, t: Token, vs: seq<Value>, ws: seq<Value>)
    ensures Gather(h, t, vs + ws) == Gather(h, t, vs) + Gather(h, t, ws)
  {
    hide Here;
    if vs == [] {
      assert vs + ws == ws;
    } else {
      assert (vs + ws)[1..] == vs[1..] + ws;
      GatherBoth(h, t, vs[1..], ws);
    }
  }

  lemma {:induction false} GatherIsAsked(h: Heap, a: Ask, v: Value, d: nat)
    requires d <= MAX_DEPTH
    ensures Gather(h, AskToken(a), Nodes(h, v, d)) == AskedBelow(h, a, v, MAX_DEPTH - d + 1)
    decreases MAX_DEPTH - d, 0
  {
    hide Asked, Here, Children, HeldBy, AskToken, NodesOf, AskedInAll;
    HereIsAsked(h, a, v);
    var below := if d >= MAX_DEPTH then [] else NodesOf(h, Children(h, v), d + 1);
    GatherFirst(h, AskToken(a), v, below);
    assert Nodes(h, v, d) == [v] + below;
    if d < MAX_DEPTH {
      GatherAllIsAsked(h, a, HeldBy(h, v), d + 1);
    } else {
      NothingAsked(h, a, HeldBy(h, v));
    }
    assert AskedBelow(h, a, v, MAX_DEPTH - d + 1) ==
           Asked(h, a, v) + AskedInAll(h, a, HeldBy(h, v), MAX_DEPTH - d);
  }

  lemma {:induction false} NothingAsked(h: Heap, a: Ask, vs: seq<Value>)
    ensures AskedInAll(h, a, vs, 0) == [] && Gather(h, AskToken(a), []) == []
  {
    if vs != [] { NothingAsked(h, a, vs[1..]); }
  }

  lemma {:induction false} GatherAllIsAsked(h: Heap, a: Ask, vs: seq<Value>, d: nat)
    requires d <= MAX_DEPTH
    ensures Gather(h, AskToken(a), NodesOf(h, vs, d)) == AskedInAll(h, a, vs, MAX_DEPTH - d + 1)
    decreases MAX_DEPTH - d, 1, |vs|
  {
    hide Here, AskToken, Nodes, AskedBelow;
    if vs != [] {
      GatherBoth(h, AskToken(a), Nodes(h, vs[0], d), NodesOf(h, vs[1..], d));
      GatherIsAsked(h, a, vs[0], d);
      GatherAllIsAsked(h, a, vs[1..], d);
    }
  }

  lemma {:induction false} SelectedIsAsked(h: Heap, a: Ask, vs: seq<Value>)
    ensures SelectedOf(h, AskToken(a), vs) == AskedInAll(h, a, vs, 1001)
  {
    if vs != [] {
      GatherIsAsked(h, a, vs[0], 0);
      SelectedIsAsked(h, a, vs[1..]);
    }
    hide Gather, Nodes, AskedBelow;
  }

  /** Behind two dots a step matches in document order all it asks for, unless that is too much. */
  lemma {:induction false} DescentInOrder(h: Heap, path: string, a: Ask, root: Value)
    requires EvalAllAnswer(h, path, root).Ok? && Askable(a)
    ensures var found := AskedInAll(h, a, EvalAllAnswer(h, path, root).value.0, 1001);
      EvalAllAnswer(h, path + (".." + AskText(a)), root) ==
      if |found| > MAX_MATCHES then Err(TooManyMatches) else Ok((found, true))
  {
    DescentStep(a);
    OneMoreMatch(h, path, ".." + AskText(a), AskToken(a), root);
    SelectedIsAsked(h, a, EvalAllAnswer(h, path, root).value.0);
    hide EvalAllAnswer, Tokens, SelectedOf, AskedInAll;
  }
}
