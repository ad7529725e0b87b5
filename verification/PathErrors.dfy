/**
 Which JSONPaths are refused, and with what fault (internal/jsonpath/jsonpath.go:78-130, 306-409), and the order in
 which descent finds its matches (internal/jsonpath/jsonpath.go:165-205).
 */
module PathErrors {
  import opened Common
  import opened Values
  import opened JsonPath
  import opened PathText
  import Scan

  // ---- Paths as a whole

  /** Paths start with '$'; filters are for neither evaluator, stars and descent for one of them. */
  lemma {:induction false} PathRefused(h: Heap, path: string, root: Value)
    ensures path == "" || path[0] != '$' ==>
      EvalAnswer(h, path, root) == Err(NoRoot) && EvalAllAnswer(h, path, root) == Err(NoRoot)
    ensures path != "" && path[0] == '$' && ('?' in path || '@' in path) ==>
      EvalAnswer(h, path, root) == Err(Unsupported) && EvalAllAnswer(h, path, root) == Err(Unsupported)
    ensures path != "" && path[0] == '$' && ('*' in path || exists a, b :: path == a + ".." + b) ==>
      EvalAnswer(h, path, root) == Err(Unsupported)
  {
    if c :| c in "?@" && c in path { Contains(path, c, "?@"); Contains(path, c, "*?@"); }
    if '*' in path { Contains(path, '*', "*?@"); }
    if a, b :| path == a + ".." + b { assert path[|a|] == '.' && path[|a| + 1] == '.'; }
    hide Tokens, MatchAll, SelectAll;
  }

  lemma Contains(path: string, c: char, chars: string)
    requires c in path && c in chars
    ensures HasAny(path, chars)
  {
  }

  /** What is wrong with what is behind an accepted path is wrong with the path. */
  lemma {:induction false} StaysWrong(h: Heap, path: string, more: string, e: PathError, root: Value)
    requires EvalAllAnswer(h, path, root).Ok? && Steps(more) && Tokens(more) == Err(e) && !HasAny(more, "?@")
    ensures EvalAllAnswer(h, path + more, root) == Err(e)
    ensures EvalAnswer(h, path, root).Ok? && PlainStep(more) ==> EvalAnswer(h, path + more, root) == Err(e)
  {
    hide Tokens, PlainStep;
    StillMatches(path, more);
    if EvalAnswer(h, path, root).Ok? && PlainStep(more) { StillAccepted(path, more); }
    hide PathTokens, MatchAll, SelectAll, Steps;
  }

  // ---- Steps that are none

  lemma {:induction false} DotEnds()
    ensures Tokens(".") == Err(EmptyField) && Tokens("..") == Err(EmptyField)
  {
    assert "."[1..] == "" && ".."[2..] == "";
    hide Definite;
  }

  /** A dot needs a name behind it, and so do two. */
  lemma {:induction false} NameNeeded(h: Heap, path: string, root: Value)
    requires EvalAllAnswer(h, path, root).Ok?
    ensures EvalAllAnswer(h, path + ".", root) == Err(EmptyField)
    ensures EvalAllAnswer(h, path + "..", root) == Err(EmptyField)
    ensures EvalAnswer(h, path, root).Ok? ==> EvalAnswer(h, path + ".", root) == Err(EmptyField)
  {
    DotEnds();
    hide Tokens, EvalAllAnswer, EvalAnswer;
    StaysWrong(h, path, ".", EmptyField, root);
    StaysWrong(h, path, "..", EmptyField, root);
  }

  lemma {:induction false} NeverClosed(inner: string)
    requires ']' !in inner
    ensures BracketLength(inner) == |inner|
  {
    if inner != "" { NeverClosed(inner[1..]); }
  }

  /** A bracket needs its closing one. */
  lemma {:induction false} BracketNeedsClosing(h: Heap, path: string, inner: string, root: Value)
    requires EvalAllAnswer(h, path, root).Ok? && ']' !in inner && '?' !in inner && '@' !in inner
    ensures EvalAllAnswer(h, path + ("[" + inner), root) == Err(Unterminated)
  {
    var more := "[" + inner;
    assert more[1..] == inner;
    NeverClosed(inner);
    hide BracketLength, Atoi, Definite;
    assert Tokens(more) == Err(Unterminated);
    assert !HasAny(more, "?@");
    hide Tokens, EvalAllAnswer, EvalAnswer;
    StaysWrong(h, path, more, Unterminated, root);
  }

  /** Only another step can be behind the root, and behind a bracket. */
  lemma {:induction false} StepsGoOn(h: Heap, path: string, i: int, more: string, root: Value)
    requires EvalAllAnswer(h, path, root).Ok? && Scan.IsInt64(i) && !Steps(more) && !HasAny(more, "?@")
    ensures EvalAllAnswer(h, "$" + more, root) == Err(UnexpectedCharacter)
    ensures EvalAllAnswer(h, path + ("[" + Scan.FormatInt(i) + "]" + more), root) == Err(UnexpectedCharacter)
  {
    hide Scan.FormatInt, Definite;
    var index := "[" + Scan.FormatInt(i) + "]";
    assert Tokens(more) == Err(UnexpectedCharacter);
    IndexIsPlain(i);
    NoFilter(index);
    BehindBracket(i, more);
    hide Tokens, ScanToken;
    assert !HasAny(index + more, "?@") by {
      forall k | 0 <= k < |index + more| ensures (index + more)[k] !in "?@" {
        if k < |index| { assert (index + more)[k] == index[k]; } else { assert (index + more)[k] == more[k - |index|]; }
      }
    }
    assert EvalAllAnswer(h, "$" + more, root) == Err(UnexpectedCharacter) by {
      var s := "$" + more;
      assert s[1..] == more;
      forall k | 0 <= k < |s| ensures s[k] !in "?@" { if k > 0 { assert s[k] == more[k - 1]; } }
    }
    hide EvalAllAnswer, EvalAnswer;
    StaysWrong(h, path, index + more, UnexpectedCharacter, root);
  }

  lemma {:induction false} BehindBracket(i: int, more: string)
    requires Scan.IsInt64(i) && Tokens(more) == Err(UnexpectedCharacter)
    ensures Tokens("[" + Scan.FormatInt(i) + "]" + more) == Err(UnexpectedCharacter)
  {
    hide Scan.FormatInt, ScanBracket, Definite;
    var s := "[" + Scan.FormatInt(i) + "]";
    IndexScanned(i);
    BracketScanned(s, more);
    assert "" + more == more;
  }

  lemma {:induction false} IndexScanned(i: int)
    requires Scan.IsInt64(i)
    ensures ScanBracket("[" + Scan.FormatInt(i) + "]") == Scanned(IndexToken(i), "")
  {
    hide Definite, Scan.FormatInt, Scan.ParseInt, BracketLength;
    var inner := Scan.FormatInt(i);
    DecimalChars(i);
    Scan.ParseIntUndoesFormatInt(i);
    assert inner[0] == '-' || Scan.IsDigit(inner[0]);
    BracketParts(inner);
  }

  // ---- Numbers in brackets

  /** An optional sign and digits that denote i. */
  predicate Denotes(inner: string, i: int) {
    exists n | 0 <= n <= 1 && n < |inner| && (n == 1 ==> inner[0] in "+-") && Scan.AllDigits(inner[n..]) ::
      i == if n == 1 && inner[0] == '-' then -(Scan.DigitsValue(inner[n..]) as int) else Scan.DigitsValue(inner[n..])
  }

  lemma {:induction false} AtoiIs(inner: string)
    ensures forall i :: Atoi(inner) == Some(i) <==> Denotes(inner, i) && Scan.IsInt64(i)
  {
    hide Scan.DigitsValue;
    assert inner[0..] == inner;
    if inner != "" && Scan.AllDigits(inner) { assert Scan.IsDigit(inner[0]); }
    if |inner| > 1 && Scan.AllDigits(inner[1..]) { assert Scan.IsDigit(inner[1..][0]); }
  }

  /** What is in brackets and not in quotes selects by an index if it denotes one, and is refused otherwise. */
  lemma {:induction false} BracketsHoldIndexes(h: Heap, path: string, inner: string, root: Value)
    requires EvalAnswer(h, path, root).Ok? && ']' !in inner && !HasAny(inner, "*?@") && !HasDotDot(inner)
    requires |inner| >= 2 ==> inner[0] != '\'' && inner[0] != '"'
    ensures var w, r := EvalAnswer(h, path, root).value, EvalAnswer(h, path + ("[" + inner + "]"), root);
      && (forall i :: Denotes(inner, i) && Scan.IsInt64(i) ==>
            r.Ok? && if w.Some? then ItemAt(h, w.value, i, r.value) else r.value == None)
      && ((forall i :: Denotes(inner, i) ==> !Scan.IsInt64(i)) ==> r == Err(BadIndex))
  {
    var more := "[" + inner + "]";
    InnerIsPlain(inner);
    AtoiIs(inner);
    InnerTokens(inner);
    hide EvalAnswer, Tokens, PlainStep, Atoi, Denotes, ItemAt;
    if Atoi(inner).Some? {
      var i := Atoi(inner).value;
      OneMoreStep(h, path, more, IndexToken(i), root);
      SelectsItem(h, i, root);
      var w := EvalAnswer(h, path, root).value;
      if w.Some? { SelectsItem(h, i, w.value); }
    } else {
      EvaluatorsAgree(h, path, root);
      NoFilter(more);
      hide EvalAllAnswer;
      StaysWrong(h, path, more, BadIndex, root);
    }
  }

  lemma SelectsItem(h: Heap, i: int, v: Value)
    ensures ItemAt(h, v, i, Select(h, IndexToken(i), v))
  {
  }

  lemma {:induction false} InnerTokens(inner: string)
    requires ']' !in inner && inner != "*" && (|inner| >= 2 ==> inner[0] != '\'' && inner[0] != '"')
    ensures Tokens("[" + inner + "]") ==
            if Atoi(inner).Some? then Ok([IndexToken(Atoi(inner).value)]) else Err(BadIndex)
  {
    hide Definite, Atoi, BracketLength;
    BracketParts(inner);
    if Atoi(inner).Some? { OneToken("[" + inner + "]", IndexToken(Atoi(inner).value)); }
  }

  lemma NotAStar(inner: string)
    requires !HasAny(inner, "*?@")
    ensures '*' !in inner
  {
    forall i | 0 <= i < |inner| ensures inner[i] != '*' { assert inner[i] !in "*?@"; }
  }

  lemma {:induction false} InnerIsPlain(inner: string)
    requires ']' !in inner && !HasAny(inner, "*?@") && !HasDotDot(inner)
    ensures PlainStep("[" + inner + "]") && inner != "*"
  {
    NotAStar(inner);
    var s := "[" + inner + "]";
    assert |s| == |inner| + 2 && s[|s| - 1] == ']';
    forall k | 0 < k < |s| - 1 ensures s[k] == inner[k - 1] {}
    forall k | 0 <= k < |s| ensures s[k] !in "*?@" { if 0 < k < |s| - 1 { assert inner[k - 1] !in "*?@"; } }
    forall k | 0 <= k < |s| - 1 ensures !(s[k] == '.' && s[k + 1] == '.') {
      if 0 < k && k + 1 < |s| - 1 { assert !(inner[k - 1] == '.' && inner[k] == '.'); }
    }
  }
}
