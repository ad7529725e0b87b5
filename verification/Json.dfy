/**
 JSON decoding at token level (internal/vtl/value.go), and its round trip with the encoder. The
 token reader is the state machine of encoding/json's Decoder: it checks and drops commas and
 colons (sections 4 and 5 of RFC 8259).
 */
module JsonCodec {
  import opened Common
  import opened Values
  import opened Format
  import opened Scan

  datatype State =
    | TopValue | ArrayStart | ArrayValue | ArrayComma
    | ObjectStart | ObjectKey | ObjectColon | ObjectValue | ObjectComma

  /** The unread tokens, what may come next, and the states of the enclosing collections. */
  datatype Reader = Reader(toks: seq<Tok>, state: State, stack: seq<State>)

  datatype Fault = Eof | Syntax | TooNested | UnexpectedDelimiter | TrailingData

  predicate ValueAllowed(s: State) { s.TopValue? || s.ArrayStart? || s.ArrayValue? || s.ObjectValue? }

  function ValueEnd(s: State): State {
    match s
    case ArrayStart | ArrayValue => ArrayComma
    case ObjectValue => ObjectComma
    case _ => s
  }

  /** The next token that is no comma or colon. */
  function Next(r: Reader): (x: Result<(Tok, Reader), Fault>)
    ensures x.Ok? ==> |x.value.1.toks| < |r.toks|
    decreases |r.toks|
  {
    if r.toks == [] then Err(Eof)
    else
      var t := r.toks[0];
      var rest := r.toks[1..];
      match t
      case LBracket =>
        if ValueAllowed(r.state) then Ok((t, Reader(rest, ArrayStart, r.stack + [r.state]))) else Err(Syntax)
      case LBrace =>
        if ValueAllowed(r.state) then Ok((t, Reader(rest, ObjectStart, r.stack + [r.state]))) else Err(Syntax)
      case RBracket =>
        if (r.state.ArrayStart? || r.state.ArrayComma?) && r.stack != [] then Ok((t, Popped(r, rest))) else Err(Syntax)
      case RBrace =>
        if (r.state.ObjectStart? || r.state.ObjectComma?) && r.stack != [] then Ok((t, Popped(r, rest)))
        else Err(Syntax)
      case Colon =>
        if r.state.ObjectColon? then Next(Reader(rest, ObjectValue, r.stack)) else Err(Syntax)
      case Comma =>
        if r.state.ArrayComma? then Next(Reader(rest, ArrayValue, r.stack))
        else if r.state.ObjectComma? then Next(Reader(rest, ObjectKey, r.stack))
        else Err(Syntax)
      case Raw(_) => Err(Syntax)
      case _ =>
        if t.JStr? && (r.state.ObjectStart? || r.state.ObjectKey?) then Ok((t, Reader(rest, ObjectColon, r.stack)))
        else if ValueAllowed(r.state) then Ok((t, Reader(rest, ValueEnd(r.state), r.stack)))
        else Err(Syntax)
  }

  function Popped(r: Reader, rest: seq<Tok>): Reader
    requires r.stack != []
  {
    Reader(rest, ValueEnd(r.stack[|r.stack| - 1]), r.stack[..|r.stack| - 1])
  }

  /** Another element or entry comes before the end of the collection. */
  predicate More(r: Reader) { r.toks != [] && !r.toks[0].RBracket? && !r.toks[0].RBrace? }

  // ---- Decoding

  type Decoded = Result<(Value, Reader, Heap), Fault>

  /** A number without fraction or exponent that fits 64 bits is an integer. */
  function NumberValue(floatBits: string -> nat, text: string): Value {
    match ParseInt(text)
    case Some(i) => Int(i)
    case None => Float(floatBits(text))
  }

  function DecodeValue(floatBits: string -> nat, r: Reader, h: Heap, depth: nat): (d: Decoded)
    ensures d.Ok? ==> |d.value.1.toks| < |r.toks|
    decreases |r.toks|, 2
  {
    var (t, r1) :- Next(r);
    match t
    case LBrace =>
      if depth >= MAX_VALUE_DEPTH then Err(TooNested)
      else DecodeEntries(floatBits, r1, h, depth + 1, MapCell([], map[]))
    case LBracket =>
      if depth >= MAX_VALUE_DEPTH then Err(TooNested) else DecodeItems(floatBits, r1, h, depth + 1, [])
    case RBrace | RBracket => Err(if depth >= MAX_VALUE_DEPTH then TooNested else UnexpectedDelimiter)
    case JNum(text) => Ok((NumberValue(floatBits, text), r1, h))
    case JStr(s) => Ok((Str(s), r1, h))
    case JBool(b) => Ok((Bool(b), r1, h))
    case _ => Ok((Nil, r1, h))
  }

  /** The rest of an array after the items read so far; the list enters the store at its end. */
  function DecodeItems(floatBits: string -> nat, r: Reader, h: Heap, depth: nat, items: seq<Value>): (d: Decoded)
    ensures d.Ok? ==> |d.value.1.toks| < |r.toks|
    decreases |r.toks|, 3
  {
    if More(r) then
      var (v, r1, h1) :- DecodeValue(floatBits, r, h, depth);
      DecodeItems(floatBits, r1, h1, depth, items + [v])
    else
      var (_, r1) :- Next(r);
      Ok((ListRef(|h|), r1, h + [ListCell(items)]))
  }

  /** The rest of an object whose entries so far are in c. */
  function DecodeEntries(floatBits: string -> nat, r: Reader, h: Heap, depth: nat, c: Cell): (d: Decoded)
    requires c.MapCell?
    ensures d.Ok? ==> |d.value.1.toks| < |r.toks|
    decreases |r.toks|, 3
  {
    if More(r) then
      var (t, r1) :- Next(r);
      var (v, r2, h1) :- DecodeValue(floatBits, r1, h, depth);
      DecodeEntries(floatBits, r2, h1, depth, PutCell(c, if t.JStr? then t.s else "", v))
    else
      var (_, r1) :- Next(r);
      Ok((MapRef(|h|), r1, h + [c]))
  }

  /** A whole document, with nothing behind it (ParseJSON). */
  function Document(floatBits: string -> nat, toks: seq<Tok>, h: Heap): Result<(Value, Heap), Fault> {
    var (v, r, h1) :- DecodeValue(floatBits, Reader(toks, TopValue, []), h, 0);
    if Next(r) == Err(Eof) then Ok((v, h1)) else Err(TrailingData)
  }

  /** The decoder of the repository, advancing over its tokens and filling the store. */
  class Decoder {
    const floatBits: string -> nat
    var reader: Reader
    var h: Heap

    constructor (floatBits: string -> nat, toks: seq<Tok>, h: Heap)
      ensures this.floatBits == floatBits && reader == Reader(toks, TopValue, []) && this.h == h
    {
      this.floatBits := floatBits;
      this.reader, this.h := Reader(toks, TopValue, []), h;
    }

    /** The value read and the state of the decoder are what d says. */
    ghost predicate Agrees(r: Result<Value, Fault>, d: Decoded)
      reads this
    {
      match d
      case Ok((v, rest, h1)) => r == Ok(v) && reader == rest && h == h1
      case Err(fault) => r == Err(fault)
    }

    method Token() returns (r: Result<Tok, Fault>)
      modifies this`reader
      ensures match Next(old(reader))
              case Ok((t, rest)) => r == Ok(t) && reader == rest
              case Err(fault) => r == Err(fault)
    {
      var next :- Next(reader);
      reader := next.1;
      r := Ok(next.0);
    }

    method Value(depth: nat) returns (r: Result<Value, Fault>)
      modifies this
      ensures Agrees(r, DecodeValue(floatBits, old(reader), old(h), depth))
      decreases |reader.toks|, 2
    {
      var t :- Token();
      if t.LBrace? || t.LBracket? || t.RBrace? || t.RBracket? {
        if depth >= MAX_VALUE_DEPTH { return Err(TooNested); }
        if t.LBrace? {
          r := Object(depth + 1);
        } else if t.LBracket? {
          r := Array(depth + 1);
        } else {
          r := Err(UnexpectedDelimiter);
        }
        return;
      }
      match t {
        case JNum(text) => r := Ok(NumberValue(floatBits, text));
        case JStr(s) => r := Ok(Str(s));
        case JBool(b) => r := Ok(Bool(b));
        case _ => r := Ok(Nil);
      }
    }

    method Array(depth: nat) returns (r: Result<Value, Fault>)
      modifies this
      ensures Agrees(r, DecodeItems(floatBits, old(reader), old(h), depth, []))
      decreases |reader.toks|, 3
    {
      hide Next;
      ghost var whole := DecodeItems(floatBits, reader, h, depth, []);
      var items: seq<Value> := [];
      while More(reader)
        invariant |reader.toks| <= |old(reader).toks|
        invariant whole == DecodeItems(floatBits, reader, h, depth, items)
        decreases |reader.toks|
      {
        var v :- Value(depth);
        items := items + [v];
      }
      var _ :- Token();
      r := Ok(ListRef(|h|));
      h := h + [ListCell(items)];
    }

    method Object(depth: nat) returns (r: Result<Value, Fault>)
      modifies this
      ensures Agrees(r, DecodeEntries(floatBits, old(reader), old(h), depth, MapCell([], map[])))
      decreases |reader.toks|, 3
    {
      hide Next;
      ghost var whole := DecodeEntries(floatBits, reader, h, depth, MapCell([], map[]));
      var m := MapCell([], map[]);
      while More(reader)
        invariant m.MapCell? && |reader.toks| <= |old(reader).toks|
        invariant whole == DecodeEntries(floatBits, reader, h, depth, m)
        decreases |reader.toks|
      {
        var t :- Token();
        var v :- Value(depth);
        m := PutCell(m, if t.JStr? then t.s else "", v);
      }
      var _ :- Token();
      r := Ok(MapRef(|h|));
      h := h + [m];
    }
  }

  method ParseJson(floatBits: string -> nat, toks: seq<Tok>, h: Heap) returns (r: Result<(Value, Heap), Fault>)
    ensures r == Document(floatBits, toks, h)
  {
    var d := new Decoder(floatBits, toks, h);
    var v :- d.Value(0);
    var next := d.Token();
    r := if next == Err(Eof) then Ok((v, d.h)) else Err(TrailingData);
  }
}
