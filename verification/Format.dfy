/**
 Printing and JSON encoding (internal/vtl/value.go). What the formatter would write without a
 size limit is a list of writes, each a run of tokens, ending early when the value nests too
 deep or, in JSON, contains itself. The formatter makes these writes into a bounded buffer.
 */
module Format {
  import opened Common
  import opened Limits
  import opened Values
  import Scan

  const MAX_VALUE_DEPTH: nat := 1000

  datatype Mode = Plain | Json

  /** Pieces of output. Raw is text as it is; the others are the tokens of JSON. */
  datatype Tok =
    | Raw(text: string)
    | LBracket | RBracket | LBrace | RBrace | Comma | Colon
    | JNull | JBool(b: bool) | JNum(text: string) | JStr(s: string)

  /** Library code: JSON string quoting, float printing and the String of a host object. */
  datatype Library = Library(quote: string -> string, floatText: nat -> string, hostText: nat -> string)

  function TokText(lib: Library, t: Tok): string {
    match t
    case Raw(text) => text
    case LBracket => "["
    case RBracket => "]"
    case LBrace => "{"
    case RBrace => "}"
    case Comma => ","
    case Colon => ":"
    case JNull => "null"
    case JBool(b) => if b then "true" else "false"
    case JNum(text) => text
    case JStr(s) => lib.quote(s)
  }

  function Text(lib: Library, toks: seq<Tok>): string {
    if toks == [] then "" else TokText(lib, toks[0]) + Text(lib, toks[1..])
  }

  datatype Stop = TooDeep | Cyclic

  /** A sequence of writes and, when formatting ends early, why. */
  datatype Trace = Trace(writes: seq<seq<Tok>>, stop: Option<Stop>) {
    function Then(next: Trace): Trace {
      if stop.Some? then this else Trace(writes + next.writes, next.stop)
    }
  }

  function FormatBool(b: bool): string { if b then "true" else "false" }

  /** A value that is no list or map. */
  function Scalar(lib: Library, mode: Mode, v: Value): seq<Tok> {
    if mode.Plain? then [Raw(ScalarText(lib, v))]
    else
      match v
      case Str(s) => [JStr(s)]
      case Bool(b) => [JBool(b)]
      case Int(i) => [JNum(Scan.FormatInt(i))]
      case Float(bits) => [JNum(lib.floatText(bits))]
      case _ => [JNull]
  }

  function ScalarText(lib: Library, v: Value): string {
    match v
    case Str(s) => s
    case Bool(b) => FormatBool(b)
    case Int(i) => Scan.FormatInt(i)
    case Float(bits) => lib.floatText(bits)
    case Host(id) => lib.hostText(id)
    case _ => ""
  }

  function Open(mode: Mode, v: Value): seq<Tok> {
    match mode
    case Plain => [Raw(if v.ListRef? then "[" else "{")]
    case Json => [if v.ListRef? then LBracket else LBrace]
  }

  function Close(mode: Mode, v: Value): seq<Tok> {
    match mode
    case Plain => [Raw(if v.ListRef? then "]" else "}")]
    case Json => [if v.ListRef? then RBracket else RBrace]
  }

  /** The writes in front of the i-th child: the separator and, in a map, the key. */
  function Lead(mode: Mode, h: Heap, v: Value, i: nat): seq<seq<Tok>>
    requires i < |Children(h, v)|
  {
    match v
    case MapRef(a) =>
      var key := KeysAt(h, a)[i];
      if mode.Plain? then [[Raw((if i > 0 then ", " else "") + (key + "="))]]
      else [(if i > 0 then [Comma] else []) + [JStr(key), Colon]]
    case _ =>
      if i == 0 then [] else [[if mode.Plain? then Raw(", ") else Comma]]
  }

  /** How a list or map found inside itself is written. */
  function Again(mode: Mode, v: Value): Trace {
    match mode
    case Plain => Trace([[Raw(if v.ListRef? then "(this Collection)" else "(this Map)")]], None)
    case Json => Trace([], Some(Cyclic))
  }

  /** Everything written for v at a depth, inside the given lists and maps. */
  function Visit(lib: Library, mode: Mode, h: Heap, v: Value, depth: nat, inside: set<Value>): Trace
    requires depth <= MAX_VALUE_DEPTH
    decreases MAX_VALUE_DEPTH - depth, 1, 0
  {
    if !IsRef(v) then Trace([Scalar(lib, mode, v)], None)
    else if depth == MAX_VALUE_DEPTH then Trace([], Some(TooDeep))
    else if v in inside then Again(mode, v)
    else
      Trace([Open(mode, v)], None)
      .Then(VisitChildren(lib, mode, h, v, 0, depth, inside + {v}))
      .Then(Trace([Close(mode, v)], None))
  }

  /** The children of v from the i-th on. */
  function VisitChildren(lib: Library, mode: Mode, h: Heap, v: Value, i: nat, depth: nat, inside: set<Value>): Trace
    requires i <= |Children(h, v)| && depth < MAX_VALUE_DEPTH
    decreases MAX_VALUE_DEPTH - depth, 0, |Children(h, v)| - i
  {
    if i == |Children(h, v)| then Trace([], None)
    else
      Trace(Lead(mode, h, v, i), None)
      .Then(Visit(lib, mode, h, Children(h, v)[i], depth + 1, inside))
      .Then(VisitChildren(lib, mode, h, v, i + 1, depth, inside))
  }

  // ---- Writing within a limit

  datatype Failure = OutputLimit | DepthLimit | CyclicValue

  /** The buffer after as many of the writes as fit, and whether all did. */
  function Feed(lib: Library, writes: seq<seq<Tok>>, w: string, limit: int): (r: (string, bool))
    ensures |w| <= limit ==> |r.0| <= limit
    decreases |writes|
  {
    if writes == [] then (w, true)
    else
      var text := Text(lib, writes[0]);
      if |w| + |text| > limit then (w, false) else Feed(lib, writes[1..], w + text, limit)
  }

  /** The buffer and the failure, if any, of making a trace's writes. */
  function Outcome(lib: Library, t: Trace, w: string, limit: int): (string, Option<Failure>) {
    var (w', fits) := Feed(lib, t.writes, w, limit);
    (w', if !fits then Some(OutputLimit)
         else match t.stop
           case None => None
           case Some(TooDeep) => Some(DepthLimit)
           case Some(Cyclic) => Some(CyclicValue))
  }

  lemma {:induction false} FeedConcat(lib: Library, a: seq<seq<Tok>>, b: seq<seq<Tok>>, w: string, limit: int)
    ensures Feed(lib, a + b, w, limit)
         == var (w', fits) := Feed(lib, a, w, limit); if fits then Feed(lib, b, w', limit) else (w', false)
    decreases |a|
  {
    if a == [] {
      assert a + b == b;
    } else {
      assert (a + b)[1..] == a[1..] + b;
      var text := Text(lib, a[0]);
      if |w| + |text| <= limit { FeedConcat(lib, a[1..], b, w + text, limit); }
    }
  }

  /** Formatting one thing after another stops at the first failure. */
  lemma OutcomeThen(lib: Library, s: Trace, t: Trace, w: string, limit: int)
    ensures Outcome(lib, s.Then(t), w, limit)
         == var (w', failure) := Outcome(lib, s, w, limit);
            if failure.Some? then (w', failure) else Outcome(lib, t, w', limit)
  {
    if s.stop.None? { FeedConcat(lib, s.writes, t.writes, w, limit); }
  }

  lemma OutcomeOne(lib: Library, toks: seq<Tok>, w: string, limit: int)
    ensures Outcome(lib, Trace([toks], None), w, limit)
         == var text := Text(lib, toks);
            if |w| + |text| > limit then (w, Some(OutputLimit)) else (w + text, None)
  {
    assert Feed(lib, [toks][1..], w + Text(lib, toks), limit) == (w + Text(lib, toks), true);
  }

  /** The formatter of the repository: a bounded buffer and the collections it is inside. */
  class Formatter {
    const lib: Library
    const h: Heap
    const limit: int
    var w: string
    var inside: set<Value>

    constructor (lib: Library, h: Heap, limit: int)
      ensures this.lib == lib && this.h == h && this.limit == limit && w == "" && inside == {}
    {
      this.lib, this.h, this.limit := lib, h, limit;
      w, inside := "", {};
    }

    method Write(toks: seq<Tok>) returns (failure: Option<Failure>)
      modifies this`w
      ensures (w, failure) == Outcome(lib, Trace([toks], None), old(w), limit)
    {
      OutcomeOne(lib, toks, w, limit);
      var text := Text(lib, toks);
      if |w| + |text| > limit { return Some(OutputLimit); }
      w := w + text;
      failure := None;
    }

    /** Formats v, leaving the set of collections it is inside as it was on every path. */
    method Value(mode: Mode, v: Value, depth: nat) returns (failure: Option<Failure>)
      requires depth <= MAX_VALUE_DEPTH
      modifies this
      ensures (w, failure) == Outcome(lib, Visit(lib, mode, h, v, depth, old(inside)), old(w), limit)
      ensures inside == old(inside)
      decreases MAX_VALUE_DEPTH - depth, 1
    {
      if !IsRef(v) {
        failure := Write(Scalar(lib, mode, v));
      } else {
        failure := Collection(mode, v, depth);
      }
    }

    method Collection(mode: Mode, v: Value, depth: nat) returns (failure: Option<Failure>)
      requires depth <= MAX_VALUE_DEPTH && IsRef(v)
      modifies this
      ensures (w, failure) == Outcome(lib, Visit(lib, mode, h, v, depth, old(inside)), old(w), limit)
      ensures inside == old(inside)
      decreases MAX_VALUE_DEPTH - depth, 0
    {
      hide Feed, Text, FormatBool, Open, Close, Lead;
      if depth >= MAX_VALUE_DEPTH {
        NothingWritten(lib, w, limit);
        return Some(DepthLimit);
      }
      if v in inside {
        if mode.Json? {
          NothingWritten(lib, w, limit);
          return Some(CyclicValue);
        }
        failure := Write(Again(mode, v).writes[0]);
        assert [Again(mode, v).writes[0]] == Again(mode, v).writes;
        return;
      }
      inside := inside + {v};
      ghost var open := Trace([Open(mode, v)], None);
      ghost var body := VisitChildren(lib, mode, h, v, 0, depth, inside);
      ghost var close := Trace([Close(mode, v)], None);
      OutcomeThen(lib, open.Then(body), close, old(w), limit);
      OutcomeThen(lib, open, body, old(w), limit);
      failure := Write(Open(mode, v));
      if failure.None? {
        failure := Elements(mode, v, depth);
        if failure.None? {
          failure := Write(Close(mode, v));
        }
      }
      inside := inside - {v};
    }

    /** The children of a collection, one after the other. */
    method Elements(mode: Mode, v: Value, depth: nat) returns (failure: Option<Failure>)
      requires depth < MAX_VALUE_DEPTH && IsRef(v)
      modifies this
      ensures (w, failure) == Outcome(lib, VisitChildren(lib, mode, h, v, 0, depth, old(inside)), old(w), limit)
      ensures inside == old(inside)
      decreases MAX_VALUE_DEPTH - depth, 0, 0
    {
      hide Visit, Feed, Text, Lead;
      var items := Children(h, v);
      ghost var whole := Outcome(lib, VisitChildren(lib, mode, h, v, 0, depth, inside), w, limit);
      var i := 0;
      while i < |items|
        invariant i <= |items| && inside == old(inside)
        invariant whole == Outcome(lib, VisitChildren(lib, mode, h, v, i, depth, inside), w, limit)
      {
        ghost var lead := Trace(Lead(mode, h, v, i), None);
        ghost var child := Visit(lib, mode, h, items[i], depth + 1, inside);
        ghost var rest := VisitChildren(lib, mode, h, v, i + 1, depth, inside);
        OutcomeThen(lib, lead.Then(child), rest, w, limit);
        OutcomeThen(lib, lead, child, w, limit);
        failure := WriteLead(mode, v, i);
        if failure.Some? { return; }
        failure := Value(mode, items[i], depth + 1);
        if failure.Some? { return; }
        i := i + 1;
      }
      NothingWritten(lib, w, limit);
      failure := None;
    }

    method WriteLead(mode: Mode, v: Value, i: nat) returns (failure: Option<Failure>)
      requires i < |Children(h, v)|
      modifies this`w
      ensures (w, failure) == Outcome(lib, Trace(Lead(mode, h, v, i), None), old(w), limit)
    {
      var lead := Lead(mode, h, v, i);
      if lead == [] {
        NothingWritten(lib, w, limit);
        return None;
      }
      assert lead == [lead[0]];
      failure := Write(lead[0]);
    }
  }

  lemma NothingWritten(lib: Library, w: string, limit: int)
    ensures forall stop :: Outcome(lib, Trace([], stop), w, limit).0 == w
    ensures Outcome(lib, Trace([], None), w, limit) == (w, None)
    ensures Outcome(lib, Trace([], Some(TooDeep)), w, limit) == (w, Some(DepthLimit))
    ensures Outcome(lib, Trace([], Some(Cyclic)), w, limit) == (w, Some(CyclicValue))
  {
  }

  /** The text of v within limit, with what was written before a failure (format). */
  function FormatText(lib: Library, h: Heap, v: Value, limit: int): (string, Option<Failure>) {
    if v.Str? then (if |v.s| > limit then ("", Some(OutputLimit)) else (v.s, None))
    else Outcome(lib, Visit(lib, Plain, h, v, 0, {}), "", limit)
  }

  /** The JSON text of v (ToJSON). */
  function JsonText(lib: Library, h: Heap, v: Value): Result<string, Failure> {
    var (text, failure) := Outcome(lib, Visit(lib, Json, h, v, 0, {}), "", MAX_OUTPUT_BYTES);
    if failure.Some? then Err(failure.value) else Ok(text)
  }

  /** All of some writes. */
  function AllText(lib: Library, writes: seq<seq<Tok>>): string {
    if writes == [] then "" else Text(lib, writes[0]) + AllText(lib, writes[1..])
  }

  lemma {:induction false} FeedWrites(lib: Library, writes: seq<seq<Tok>>, w: string, limit: int)
    requires |w| <= limit
    ensures Feed(lib, writes, w, limit).1 <==> |w| + |AllText(lib, writes)| <= limit
    ensures Feed(lib, writes, w, limit).1 ==> Feed(lib, writes, w, limit).0 == w + AllText(lib, writes)
    decreases |writes|
  {
    hide Text;
    if writes == [] {
      assert w + "" == w;
    } else {
      var text := Text(lib, writes[0]);
      var rest := AllText(lib, writes[1..]);
      if |w| + |text| <= limit {
        FeedWrites(lib, writes[1..], w + text, limit);
        assert w + text + rest == w + (text + rest);
      }
    }
  }

  /** The text of a value without any limit; none for one that nests too deep. */
  function WholeText(lib: Library, h: Heap, v: Value): Option<string> {
    if v.Str? then Some(v.s)
    else
      var t := Visit(lib, Plain, h, v, 0, {});
      if t.stop.Some? then None else Some(AllText(lib, t.writes))
  }

  /** A value has a text within a limit exactly when its whole text is within it. */
  lemma TextIsWhole(lib: Library, h: Heap, v: Value, limit: nat)
    ensures FormatText(lib, h, v, limit).1.None? <==>
            WholeText(lib, h, v).Some? && |WholeText(lib, h, v).value| <= limit
    ensures FormatText(lib, h, v, limit).1.None? ==> WholeText(lib, h, v) == Some(FormatText(lib, h, v, limit).0)
  {
    if !v.Str? {
      var t := Visit(lib, Plain, h, v, 0, {});
      FeedWrites(lib, t.writes, "", limit);
      hide Feed, AllText, Visit;
      assert "" + AllText(lib, t.writes) == AllText(lib, t.writes);
    }
  }

  method FormatWithin(lib: Library, h: Heap, v: Value, limit: int) returns (text: string, failure: Option<Failure>)
    ensures (text, failure) == FormatText(lib, h, v, limit)
  {
    if v.Str? {
      if |v.s| > limit { return "", Some(OutputLimit); }
      return v.s, None;
    }
    var f := new Formatter(lib, h, limit);
    failure := f.Value(Plain, v, 0);
    text := f.w;
  }

  method ToJson(lib: Library, h: Heap, v: Value) returns (r: Result<string, Failure>)
    ensures r == JsonText(lib, h, v)
  {
    var f := new Formatter(lib, h, MAX_OUTPUT_BYTES);
    var failure := f.Value(Json, v, 0);
    r := if failure.Some? then Err(failure.value) else Ok(f.w);
  }
}
