/**
 JSONPath (internal/jsonpath/jsonpath.go): definite paths, and paths with wildcards and recursive descent,
 over documents of lists and maps that may share parts and contain themselves.
 */
module JsonPath {
  import opened Common
  import opened Values
  import Scan

  const MAX_DEPTH: nat := 1000
  const MAX_MATCHES: nat := 0x10_0000

  datatype Token = Token(field: string, index: int, isIndex: bool, wildcard: bool, descent: bool)

  // ---- Selecting

  function Elem(h: Heap, v: Value, i: int): Option<Value> {
    if v.ListRef? && 0 <= i < |ListAt(h, v.addr)| then Some(ListAt(h, v.addr)[i]) else None
  }

  function FieldOf(h: Heap, v: Value, name: string): Option<Value> {
    if v.MapRef? then Lookup(h, v.addr, name) else None
  }

  function Select(h: Heap, t: Token, v: Value): Option<Value> {
    if t.isIndex then Elem(h, v, t.index) else FieldOf(h, v, t.field)
  }

  /** The matches directly under a value. */
  function Here(h: Heap, t: Token, v: Value): seq<Value> {
    if t.wildcard then Children(h, v)
    else match Select(h, t, v)
      case Some(found) => [found]
      case None => []
  }

  /** A value and its descendants down to the deepest level walked, in document order. */
  function Nodes(h: Heap, v: Value, depth: nat): (nodes: seq<Value>)
    requires depth <= MAX_DEPTH
    ensures nodes != []
    decreases MAX_DEPTH - depth, 0
  {
    [v] + if depth >= MAX_DEPTH then [] else NodesOf(h, Children(h, v), depth + 1)
  }

  function NodesOf(h: Heap, vs: seq<Value>, depth: nat): seq<Value>
    requires depth <= MAX_DEPTH
    decreases MAX_DEPTH - depth, 1, |vs|
  {
    if vs == [] then [] else Nodes(h, vs[0], depth) + NodesOf(h, vs[1..], depth)
  }

  /** The matches under each of these values, one after the other. */
  function Gather(h: Heap, t: Token, vs: seq<Value>): seq<Value> {
    if vs == [] then [] else Here(h, t, vs[0]) + Gather(h, t, vs[1..])
  }

  /** What one step selects under a value: with descent, under all it holds too. */
  function Selected(h: Heap, t: Token, v: Value): seq<Value> {
    if t.descent then Gather(h, t, Nodes(h, v, 0)) else Here(h, t, v)
  }

  // ---- The explicit stack

  datatype Frame = Frame(v: Value, depth: nat)

  predicate Walkable(stack: seq<Frame>) { forall f <- stack :: f.depth <= MAX_DEPTH }

  /** The nodes that the frames of the stack still stand for, from the top. */
  function Waiting(h: Heap, stack: seq<Frame>): seq<Value>
    requires Walkable(stack)
  {
    if stack == [] then []
    else
      var top := stack[|stack| - 1];
      Nodes(h, top.v, top.depth) + Waiting(h, stack[..|stack| - 1])
  }

  /** Pushes the values in reverse, so that the first is on top. */
  method PushReversed(h: Heap, stack: seq<Frame>, kids: seq<Value>, depth: nat) returns (pushed: seq<Frame>)
    requires Walkable(stack) && depth <= MAX_DEPTH
    ensures Walkable(pushed) && Waiting(h, pushed) == NodesOf(h, kids, depth) + Waiting(h, stack)
  {
    hide Nodes;
    pushed := stack;
    var i := |kids|;
    assert kids[i..] == [];
    while i > 0
      invariant 0 <= i <= |kids|
      invariant Walkable(pushed) && Waiting(h, pushed) == NodesOf(h, kids[i..], depth) + Waiting(h, stack)
    {
      i := i - 1;
      ghost var before := pushed;
      pushed := pushed + [Frame(kids[i], depth)];
      assert pushed[..|pushed| - 1] == before;
      assert kids[i..][1..] == kids[i + 1..];
    }
    assert kids[0..] == kids;
  }

  /** All matches when they are not too many, and otherwise the first of them, too many too. */
  ghost predicate Bounded(out: seq<Value>, all: seq<Value>) {
    && out <= all
    && (|all| <= MAX_MATCHES ==> out == all)
    && (|all| > MAX_MATCHES ==> |out| > MAX_MATCHES)
  }

  lemma AllIsBounded(all: seq<Value>)
    ensures Bounded(all, all)
  {
  }

  /** Appends the matches of a token under a value, giving up soon after there are too many. */
  method Collect(h: Heap, t: Token, v: Value, found: seq<Value>) returns (out: seq<Value>)
    requires |found| <= MAX_MATCHES
    ensures Bounded(out, found + Selected(h, t, v))
  {
    if !t.descent {
      AllIsBounded(found + Here(h, t, v));
      return found + Here(h, t, v);
    }
    hide Here, Going, Popped, Pushed, Selected, Bounded, Measure;
    var stack := [Frame(v, 0)];
    out := found;
    ghost var all := found + Selected(h, t, v);
    GoingAtStart(h, t, v, found);
    while stack != []
      invariant |out| <= MAX_MATCHES && Going(h, t, stack, out, all)
      decreases Measure(h, stack)
    {
      var f, rest := stack[|stack| - 1], stack[..|stack| - 1];
      ghost var size := Measure(h, stack);
      Pop(h, t, stack, out, all);
      out := out + Here(h, t, f.v);
      if |out| > MAX_MATCHES { return; }
      stack := PushKids(h, rest, f);
      Push(h, t, rest, f, stack, size, out, all);
    }
    GoingAtEnd(h, t, out, all);
    AllIsBounded(out);
  }

  /** What is selected in all is what was found and what the waiting nodes still give. */
  ghost predicate Left(h: Heap, t: Token, waiting: seq<Value>, out: seq<Value>, all: seq<Value>) {
    all == out + Gather(h, t, waiting)
  }

  ghost predicate Going(h: Heap, t: Token, stack: seq<Frame>, out: seq<Value>, all: seq<Value>) {
    Walkable(stack) && Left(h, t, Waiting(h, stack), out, all)
  }

  function Measure(h: Heap, stack: seq<Frame>): nat { if Walkable(stack) then |Waiting(h, stack)| else 0 }

  lemma GoingAtStart(h: Heap, t: Token, v: Value, found: seq<Value>)
    requires t.descent
    ensures Going(h, t, [Frame(v, 0)], found, found + Selected(h, t, v))
  {
    hide Nodes;
    assert [Frame(v, 0)][..0] == [];
    assert Waiting(h, [Frame(v, 0)]) == Nodes(h, v, 0);
  }

  lemma GoingAtEnd(h: Heap, t: Token, out: seq<Value>, all: seq<Value>)
    requires Going(h, t, [], out, all)
    ensures out == all
  {
  }

  /** What waits below the top frame once it has been taken off. */
  function Below(h: Heap, f: Frame): seq<Value> {
    if f.depth >= MAX_DEPTH then [] else NodesOf(h, Children(h, f.v), f.depth + 1)
  }

  /** The stack once a frame has been taken off and its matches appended; size is what waited before. */
  ghost predicate Popped(h: Heap, t: Token, rest: seq<Frame>, f: Frame, size: nat, out: seq<Value>, all: seq<Value>) {
    && Walkable(rest) && f.depth <= MAX_DEPTH
    && size == 1 + |Below(h, f) + Waiting(h, rest)|
    && Left(h, t, Below(h, f) + Waiting(h, rest), out, all)
  }

  /** What was below the frame now waits on top of the rest. */
  ghost predicate Pushed(h: Heap, rest: seq<Frame>, f: Frame, stack: seq<Frame>) {
    Walkable(rest) ==> Walkable(stack) && Waiting(h, stack) == Below(h, f) + Waiting(h, rest)
  }

  /** Pushes what a frame's value holds, unless it is as deep as the walk goes. */
  method PushKids(h: Heap, rest: seq<Frame>, f: Frame) returns (stack: seq<Frame>)
    requires f.depth <= MAX_DEPTH && Walkable(rest)
    ensures Pushed(h, rest, f, stack)
  {
    hide NodesOf, Waiting, Walkable, Children;
    if f.depth >= MAX_DEPTH {
      assert [] + Waiting(h, rest) == Waiting(h, rest);
      return rest;
    }
    var kids := Children(h, f.v);
    stack := PushReversed(h, rest, kids, f.depth + 1);
  }

  lemma Push(h: Heap, t: Token, rest: seq<Frame>, f: Frame, stack: seq<Frame>, size: nat, out: seq<Value>,
             all: seq<Value>)
    requires Popped(h, t, rest, f, size, out, all) && Pushed(h, rest, f, stack)
    ensures Going(h, t, stack, out, all) && Measure(h, stack) < size
  {
    hide Walkable, Waiting, Below, Left;
  }

  lemma NodesAre(h: Heap, f: Frame)
    requires f.depth <= MAX_DEPTH
    ensures Nodes(h, f.v, f.depth) == [f.v] + Below(h, f)
  {
    hide NodesOf;
  }

  lemma WaitingIs(h: Heap, stack: seq<Frame>)
    requires stack != [] && Walkable(stack)
    ensures var f, init := stack[|stack| - 1], stack[..|stack| - 1];
      f.depth <= MAX_DEPTH && Walkable(init) && Waiting(h, stack) == Nodes(h, f.v, f.depth) + Waiting(h, init)
  {
    hide Nodes;
  }

  lemma PopWaiting(h: Heap, stack: seq<Frame>)
    requires stack != [] && Walkable(stack)
    ensures var f, init := stack[|stack| - 1], stack[..|stack| - 1];
      f.depth <= MAX_DEPTH && Walkable(init) && Waiting(h, stack) == [f.v] + (Below(h, f) + Waiting(h, init))
  {
    hide Nodes, NodesOf, Waiting, Below, Walkable;
    var f, init := stack[|stack| - 1], stack[..|stack| - 1];
    WaitingIs(h, stack);
    NodesAre(h, f);
    assert [f.v] + Below(h, f) + Waiting(h, init) == [f.v] + (Below(h, f) + Waiting(h, init));
  }

  lemma GatherFirst(h: Heap, t: Token, v: Value, vs: seq<Value>)
    ensures Gather(h, t, [v] + vs) == Here(h, t, v) + Gather(h, t, vs)
  {
    hide Here;
    assert ([v] + vs)[1..] == vs;
  }

  lemma LeftAfter(h: Heap, t: Token, v: Value, vs: seq<Value>, out: seq<Value>, all: seq<Value>)
    requires Left(h, t, [v] + vs, out, all)
    ensures Left(h, t, vs, out + Here(h, t, v), all)
    ensures |out + Here(h, t, v)| > MAX_MATCHES ==> Bounded(out + Here(h, t, v), all)
  {
    GatherFirst(h, t, v, vs);
    hide Here, Gather;
    var here, rest := Here(h, t, v), Gather(h, t, vs);
    assert out + (here + rest) == out + here + rest;
  }

  /** Taking the top frame off the stack selects under its value next. */
  lemma Pop(h: Heap, t: Token, stack: seq<Frame>, out: seq<Value>, all: seq<Value>)
    requires stack != [] && Going(h, t, stack, out, all)
    ensures var f, rest, more := stack[|stack| - 1], stack[..|stack| - 1], out + Here(h, t, stack[|stack| - 1].v);
      && f.depth <= MAX_DEPTH && Walkable(rest)
      && Popped(h, t, rest, f, Measure(h, stack), more, all)
      && (|more| > MAX_MATCHES ==> Bounded(more, all))
  {
    hide Here, Gather, Nodes, NodesOf, Below, Waiting, Walkable, Left, Bounded;
    PopWaiting(h, stack);
    var f, rest := stack[|stack| - 1], stack[..|stack| - 1];
    LeftAfter(h, t, f.v, Below(h, f) + Waiting(h, rest), out, all);
  }

  // ---- Paths

  datatype PathError =
    | NoRoot | Unsupported | EmptyField | Unterminated | BadIndex | UnexpectedCharacter | TooManyMatches

  function FieldToken(name: string): Token { Token(name, 0, false, false, false) }

  function IndexToken(i: int): Token { Token("", i, true, false, false) }

  const WILDCARD := Token("", 0, false, true, false)

  /** Where the first '.' or '[' stands, at the end if nowhere. */
  function NameLength(s: string): (n: nat)
    ensures n <= |s|
  {
    if s == "" || s[0] == '.' || s[0] == '[' then 0 else 1 + NameLength(s[1..])
  }

  /** Where the first ']' stands, at the end if nowhere. */
  function BracketLength(s: string): (n: nat)
    ensures n <= |s| && (n < |s| ==> s[n] == ']')
  {
    if s == "" || s[0] == ']' then 0 else 1 + BracketLength(s[1..])
  }

  /** strconv.Atoi: an optional sign and decimal digits, within 64 bits. */
  function Atoi(s: string): Option<int> {
    if s != "" && s[0] == '+' then
      if |s| > 1 && s[1] == '-' then None else Scan.ParseInt(s[1..])
    else Scan.ParseInt(s)
  }

  datatype Scanned = Scanned(token: Token, rest: string) | Failed(error: PathError)

  /** No star, and no two dots next to each other. */
  ghost predicate Definite(s: string) {
    && (forall i :: 0 <= i < |s| ==> s[i] != '*')
    && (forall i :: 0 <= i < |s| - 1 ==> s[i] != '.' || s[i + 1] != '.')
  }

  lemma DefiniteSuffix(s: string, k: nat)
    requires Definite(s) && k <= |s|
    ensures Definite(s[k..])
  {
    var t := s[k..];
    forall i | 0 <= i < |t| ensures t[i] != '*' { assert t[i] == s[k + i]; }
    forall i | 0 <= i < |t| - 1 ensures t[i] != '.' || t[i + 1] != '.' {
      assert t[i] == s[k + i] && t[i + 1] == s[k + i + 1];
    }
  }

  /** A bracket: an index, a star or a quoted name. Only the opening quote is looked at. */
  function ScanBracket(s: string): (r: Scanned)
    requires s != "" && s[0] == '['
    ensures r.Scanned? ==> |r.rest| < |s| && !r.token.descent
    ensures r.Scanned? && Definite(s) ==> !r.token.wildcard && Definite(r.rest)
  {
    var end := 1 + BracketLength(s[1..]);
    if end >= |s| then Failed(Unterminated)
    else
      var inner, rest := s[1..end], s[end + 1..];
      assert Definite(s) ==> Definite(rest) by { if Definite(s) { DefiniteSuffix(s, end + 1); } }
      if inner == "*" then
        assert s[1] == '*';
        Scanned(WILDCARD, rest)
      else if |inner| >= 2 && (inner[0] == '\'' || inner[0] == '"') then
        Scanned(FieldToken(inner[1..|inner| - 1]), rest)
      else match Atoi(inner)
        case None => Failed(BadIndex)
        case Some(i) => Scanned(IndexToken(i), rest)
  }

  /** What follows one or two dots: a name, a star or a bracket. */
  function ScanStep(s: string): (r: Scanned)
    ensures r.Scanned? ==> |r.rest| < |s| && !r.token.descent
    ensures r.Scanned? && Definite(s) ==> !r.token.wildcard && Definite(r.rest)
  {
    if s != "" && s[0] == '[' then ScanBracket(s)
    else
      var n := NameLength(s);
      assert Definite(s) ==> Definite(s[n..]) by { if Definite(s) { DefiniteSuffix(s, n); } }
      if n == 0 then Failed(EmptyField)
      else if s[..n] == "*" then
        assert s[0] == '*';
        Scanned(WILDCARD, s[n..])
      else Scanned(FieldToken(s[..n]), s[n..])
  }

  /** The next token of a path, from its dots or bracket on. */
  function ScanToken(s: string): (r: Scanned)
    requires s != ""
    ensures r.Scanned? ==> |r.rest| < |s|
    ensures r.Scanned? && Definite(s) ==> !r.token.wildcard && !r.token.descent && Definite(r.rest)
  {
    if Scan.PairAt('.', '.', s) then
      match ScanStep(s[2..])
      case Scanned(t, rest) => Scanned(t.(descent := true), rest)
      case Failed(e) => Failed(e)
    else if s[0] == '.' then
      assert Definite(s) ==> Definite(s[1..]) by { if Definite(s) { DefiniteSuffix(s, 1); } }
      ScanStep(s[1..])
    else if s[0] == '[' then ScanBracket(s)
    else Failed(UnexpectedCharacter)
  }

  function After(toks: seq<Token>, r: Result<seq<Token>, PathError>): Result<seq<Token>, PathError> {
    match r
    case Ok(more) => Ok(toks + more)
    case Err(e) => Err(e)
  }

  function Tokens(s: string): (r: Result<seq<Token>, PathError>)
    ensures r.Ok? && Definite(s) ==> forall t <- r.value :: !t.wildcard && !t.descent
  {
    if s == "" then Ok([])
    else match ScanToken(s)
      case Failed(e) => Err(e)
      case Scanned(t, rest) => After([t], Tokens(rest))
  }

  method Tokenize(path: string) returns (r: Result<seq<Token>, PathError>)
    ensures r == Tokens(path)
  {
    hide ScanToken;
    var s, toks: seq<Token> := path, [];
    AfterNothing(Tokens(path));
    while s != ""
      invariant Tokens(path) == After(toks, Tokens(s))
      decreases |s|
    {
      var next := ScanToken(s);
      if next.Failed? { return Err(next.error); }
      AfterOneMore(toks, next.token, Tokens(next.rest));
      toks, s := toks + [next.token], next.rest;
    }
    r := Ok(toks);
    assert toks + [] == toks;
  }

  lemma AfterNothing(r: Result<seq<Token>, PathError>)
    ensures After([], r) == r
  {
    if r.Ok? { assert [] + r.value == r.value; }
  }

  lemma AfterOneMore(toks: seq<Token>, t: Token, r: Result<seq<Token>, PathError>)
    ensures After(toks, After([t], r)) == After(toks + [t], r)
  {
    if r.Ok? { assert toks + ([t] + r.value) == toks + [t] + r.value; }
  }

  // ---- Evaluating

  predicate Rooted(path: string) { path != "" && path[0] == '$' }

  predicate HasAny(path: string, chars: string) { exists i :: 0 <= i < |path| && path[i] in chars }

  predicate HasDotDot(path: string) { exists i :: 0 <= i < |path| - 1 && path[i] == '.' && path[i + 1] == '.' }

  /** The tokens of a path with one of the two evaluators' checks before them. */
  function PathTokens(path: string, all: bool): Result<seq<Token>, PathError> {
    if !Rooted(path) then Err(NoRoot)
    else if HasAny(path, if all then "?@" else "*?@") || (!all && HasDotDot(path)) then Err(Unsupported)
    else Tokens(path[1..])
  }

  /** The value one definite token after the other selects. */
  function SelectAll(h: Heap, toks: seq<Token>, v: Value): Option<Value> {
    if toks == [] then Some(v)
    else match Select(h, toks[0], v)
      case Some(next) => SelectAll(h, toks[1..], next)
      case None => None
  }

  /** What a token selects under each of some values. */
  function SelectedOf(h: Heap, t: Token, vs: seq<Value>): seq<Value> {
    if vs == [] then [] else Selected(h, t, vs[0]) + SelectedOf(h, t, vs[1..])
  }

  /** The values after all tokens, unless a step selects too many. */
  function MatchAll(h: Heap, toks: seq<Token>, vs: seq<Value>): Result<seq<Value>, PathError> {
    if toks == [] then Ok(vs)
    else if |SelectedOf(h, toks[0], vs)| > MAX_MATCHES then Err(TooManyMatches)
    else MatchAll(h, toks[1..], SelectedOf(h, toks[0], vs))
  }

  predicate Indefinite(toks: seq<Token>) { exists t <- toks :: t.wildcard || t.descent }

  /** What Eval answers: the value the tokens of a definite path select, if there is one. */
  function EvalAnswer(h: Heap, path: string, root: Value): Result<Option<Value>, PathError> {
    var toks :- PathTokens(path, false);
    Ok(SelectAll(h, toks, root))
  }

  /** What EvalAll answers: the values matched, and whether the path may match several. */
  function EvalAllAnswer(h: Heap, path: string, root: Value): Result<(seq<Value>, bool), PathError> {
    var toks :- PathTokens(path, true);
    var vs :- MatchAll(h, toks, [root]);
    Ok((vs, Indefinite(toks)))
  }

  method Eval(h: Heap, path: string, root: Value) returns (r: Result<Option<Value>, PathError>)
    ensures r == EvalAnswer(h, path, root)
  {
    hide Tokens, Select;
    if !Rooted(path) { return Err(NoRoot); }
    if HasAny(path, "*?@") || HasDotDot(path) { return Err(Unsupported); }
    var toks := Tokenize(path[1..]);
    if toks.Err? { return Err(toks.error); }
    var cur, i := root, 0;
    assert toks.value[0..] == toks.value;
    while i < |toks.value|
      invariant 0 <= i <= |toks.value|
      invariant SelectAll(h, toks.value, root) == SelectAll(h, toks.value[i..], cur)
    {
      assert toks.value[i..][1..] == toks.value[i + 1..];
      var next := Select(h, toks.value[i], cur);
      if next.None? { return Ok(None); }
      cur, i := next.value, i + 1;
    }
    r := Ok(Some(cur));
  }

  /** Applies a token to each of some values, until too many are selected. */
  method Advance(h: Heap, t: Token, cur: seq<Value>) returns (next: Option<seq<Value>>)
    ensures next == if |SelectedOf(h, t, cur)| > MAX_MATCHES then None else Some(SelectedOf(h, t, cur))
  {
    hide Selected;
    var out: seq<Value>, i := [], 0;
    ghost var all := SelectedOf(h, t, cur);
    assert cur[0..] == cur;
    while i < |cur|
      invariant 0 <= i <= |cur| && |out| <= MAX_MATCHES
      invariant all == out + SelectedOf(h, t, cur[i..])
    {
      assert cur[i..][1..] == cur[i + 1..];
      ghost var rest := SelectedOf(h, t, cur[i + 1..]);
      assert all == out + Selected(h, t, cur[i]) + rest;
      out := Collect(h, t, cur[i], out);
      if |out| > MAX_MATCHES { return None; }
      i := i + 1;
    }
    assert out + [] == out;
    next := Some(out);
  }

  method EvalAll(h: Heap, path: string, root: Value) returns (r: Result<(seq<Value>, bool), PathError>)
    ensures r == EvalAllAnswer(h, path, root)
  {
    hide Tokens, SelectedOf;
    if !Rooted(path) { return Err(NoRoot); }
    if HasAny(path, "?@") { return Err(Unsupported); }
    var toks := Tokenize(path[1..]);
    if toks.Err? { return Err(toks.error); }
    var cur, indefinite, i := [root], false, 0;
    assert toks.value[0..] == toks.value;
    while i < |toks.value|
      invariant 0 <= i <= |toks.value|
      invariant indefinite == Indefinite(toks.value[..i])
      invariant MatchAll(h, toks.value, [root]) == MatchAll(h, toks.value[i..], cur)
    {
      assert toks.value[i..][1..] == toks.value[i + 1..];
      IndefiniteMore(toks.value, i);
      indefinite := indefinite || toks.value[i].wildcard || toks.value[i].descent;
      var next := Advance(h, toks.value[i], cur);
      if next.None? { return Err(TooManyMatches); }
      cur, i := next.value, i + 1;
    }
    assert toks.value[..i] == toks.value;
    r := Ok((cur, indefinite));
  }

  lemma IndefiniteMore(toks: seq<Token>, i: nat)
    requires i < |toks|
    ensures Indefinite(toks[..i + 1]) <==> Indefinite(toks[..i]) || toks[i].wildcard || toks[i].descent
  {
    assert toks[..i + 1] == toks[..i] + [toks[i]];
  }

  // ---- The two evaluators

  /** A value that was found or not, as the matches there are. */
  function AsMatches(found: Option<Value>): seq<Value> { if found.Some? then [found.value] else [] }

  /** A definite token selects at most one value. */
  lemma {:induction false} DefiniteMatches(h: Heap, toks: seq<Token>, v: Value)
    requires forall t <- toks :: !t.wildcard && !t.descent
    ensures MatchAll(h, toks, [v]) == Ok(AsMatches(SelectAll(h, toks, v)))
  {
    if toks != [] {
      var t := toks[0];
      assert SelectedOf(h, t, [v]) == Here(h, t, v) by { assert SelectedOf(h, t, [v][1..]) == []; }
      match Select(h, t, v) {
        case Some(next) => DefiniteMatches(h, toks[1..], next);
        case None => NothingMatches(h, toks[1..]);
      }
    }
  }

  lemma {:induction false} NothingMatches(h: Heap, toks: seq<Token>)
    ensures MatchAll(h, toks, []) == Ok([])
  {
    if toks != [] {
      NothingMatches(h, toks[1..]);
    }
  }

  lemma AcceptedIsDefinite(path: string)
    requires PathTokens(path, false).Ok?
    ensures Definite(path[1..]) && PathTokens(path, true) == PathTokens(path, false)
  {
    hide Tokens;
    forall i | 0 <= i < |path| ensures path[i] != '*' && path[i] !in "?@" {
      assert path[i] !in "*?@";
    }
    assert Definite(path) by {
      forall i | 0 <= i < |path| - 1 ensures path[i] != '.' || path[i + 1] != '.' {}
    }
    DefiniteSuffix(path, 1);
  }

  /**
   On every path Eval accepts, over every document, EvalAll succeeds with a definite result: the value Eval
   finds, or none when Eval finds none.
   */
  lemma EvaluatorsAgree(h: Heap, path: string, root: Value)
    requires EvalAnswer(h, path, root).Ok?
    ensures EvalAllAnswer(h, path, root) == Ok((AsMatches(EvalAnswer(h, path, root).value), false))
  {
    AcceptedIsDefinite(path);
    DefiniteMatches(h, PathTokens(path, true).value, root);
  }
}
