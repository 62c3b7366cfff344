/**
 The contract ABI encoding of section "Formal Specification of the Encoding" in the Solidity
 Contract ABI Specification, for the shapes the delegation wire format uses, with a decoder that
 follows offsets the way a contract does.
 */
module Abi {
  import opened Bytes

  /** Every static elementary type (uint256, uint128, address, bytes32) is one 32-byte word. */
  datatype Type = TWord | TBytes | TArray(elem: Type) | TTuple(fields: seq<Type>)

  datatype Value = Word(w: seq<Byte>) | Blob(b: seq<Byte>) | Array(items: seq<Value>) | Tuple(items: seq<Value>)

  predicate HasType(v: Value, t: Type)
    decreases v, 1
  {
    match t
    case TWord => v.Word? && |v.w| == 32
    case TBytes => v.Blob?
    case TArray(elem) => v.Array? && HaveTypes(v.items, Repeat(elem, |v.items|))
    case TTuple(fields) => v.Tuple? && |fields| > 0 && HaveTypes(v.items, fields)
  }

  predicate HaveTypes(vs: seq<Value>, ts: seq<Type>)
    decreases vs, 0
  {
    |vs| == |ts| && (|vs| == 0 || (HasType(vs[0], ts[0]) && HaveTypes(vs[1..], ts[1..])))
  }

  function Repeat(t: Type, n: nat): (r: seq<Type>)
    ensures |r| == n
    ensures n > 0 ==> r[0] == t && r[1..] == Repeat(t, n - 1)
  {
    if n == 0 then [] else [t] + Repeat(t, n - 1)
  }

  predicate Dynamic(t: Type)
    decreases t, 1
  {
    match t
    case TWord => false
    case TBytes => true
    case TArray(_) => true
    case TTuple(fields) => AnyDynamic(fields)
  }

  predicate AnyDynamic(ts: seq<Type>)
    decreases ts, 0
  {
    |ts| > 0 && (Dynamic(ts[0]) || AnyDynamic(ts[1..]))
  }

  /** The number of bytes a component of type `t` takes in the head of its tuple. */
  function HeadSize(t: Type): nat
    decreases t, 1
  {
    if Dynamic(t) then 32
    else match t
      case TTuple(fields) => HeadSizes(fields)
      case _ => 32
  }

  function HeadSizes(ts: seq<Type>): nat
    decreases ts, 0
  {
    if |ts| == 0 then 0 else HeadSize(ts[0]) + HeadSizes(ts[1..])
  }

  // ---- encoding --------------------------------------------------------------

  /** A length or offset as a word. */
  function WordOf(n: nat): (r: seq<Byte>)
    ensures |r| == 32
  {
    ToBytes(n, 32)
  }

  function Padding(n: nat): (r: nat)
    ensures (n + r) % 32 == 0 && r < 32
  {
    (32 - n % 32) % 32
  }

  function Encode(t: Type, v: Value): seq<Byte>
    requires HasType(v, t)
    decreases v, 1
  {
    match t
    case TWord => v.w
    case TBytes => WordOf(|v.b|) + v.b + Zeros(Padding(|v.b|))
    case TArray(elem) => WordOf(|v.items|) + EncodeAll(Repeat(elem, |v.items|), v.items)
    case TTuple(fields) => EncodeAll(fields, v.items)
  }

  /** The heads of all components, then the tails of the dynamic ones. */
  function EncodeAll(ts: seq<Type>, vs: seq<Value>): seq<Byte>
    requires HaveTypes(vs, ts)
    decreases vs, 0, 1
  {
    var (heads, tails) := HeadsAndTails(ts, vs, HeadSizes(ts));
    heads + tails
  }

  /** Heads and tails of components whose first tail starts `offset` bytes into the tuple. */
  function HeadsAndTails(ts: seq<Type>, vs: seq<Value>, offset: nat): (r: (seq<Byte>, seq<Byte>))
    requires HaveTypes(vs, ts)
    decreases vs, 0, 0
  {
    if |ts| == 0 then ([], [])
    else
      var e := Encode(ts[0], vs[0]);
      if Dynamic(ts[0]) then
        var rest := HeadsAndTails(ts[1..], vs[1..], offset + |e|);
        (WordOf(offset) + rest.0, e + rest.1)
      else
        var rest := HeadsAndTails(ts[1..], vs[1..], offset);
        (e + rest.0, rest.1)
  }

  // ---- decoding --------------------------------------------------------------

  function Height(t: Type): nat
    decreases t, 1
  {
    match t
    case TWord => 0
    case TBytes => 0
    case TArray(elem) => 1 + Height(elem)
    case TTuple(fields) => 1 + Heights(fields)
  }

  function Heights(ts: seq<Type>): nat
    decreases ts, 0
  {
    if |ts| == 0 then 0
    else if Height(ts[0]) >= Heights(ts[1..]) then Height(ts[0]) else Heights(ts[1..])
  }

  lemma {:induction false} RepeatHeights(t: Type, n: nat)
    ensures Heights(Repeat(t, n)) <= Height(t)
  {
    if n > 0 { RepeatHeights(t, n - 1); }
  }

  /** The word at position `pos`, as an integer. */
  function ReadWord(buf: seq<Byte>, pos: nat): (r: Option<nat>) {
    if pos + 32 <= |buf| then Some(FromBytes(buf[pos..pos + 32])) else None
  }

  /** Reads a value of type `t` encoded at the start of `buf`. */
  function Decode(t: Type, buf: seq<Byte>): (r: Option<Value>)
    decreases Height(t), 0
  {
    match t
    case TWord => if |buf| >= 32 then Some(Word(buf[..32])) else None
    case TBytes =>
      var n := ReadWord(buf, 0);
      if n.Some? && 32 + n.value <= |buf| then Some(Blob(buf[32..32 + n.value])) else None
    case TArray(elem) =>
      var n := ReadWord(buf, 0);
      if n.None? then None
      else
        RepeatHeights(elem, n.value);
        var items := DecodeAll(Repeat(elem, n.value), buf[32..], 0);
        if items.Some? then Some(Array(items.value)) else None
    case TTuple(fields) =>
      var items := DecodeAll(fields, buf, 0);
      if items.Some? then Some(Tuple(items.value)) else None
  }

  /** Reads components of the tuple that starts at `frame`, the first head being at `pos`. */
  function DecodeAll(ts: seq<Type>, frame: seq<Byte>, pos: nat): (r: Option<seq<Value>>)
    decreases Heights(ts), 1 + |ts|
  {
    if |ts| == 0 then Some([])
    else
      var at := if Dynamic(ts[0]) then ReadWord(frame, pos) else Some(pos);
      if at.None? || at.value > |frame| then None
      else
        var first := Decode(ts[0], frame[at.value..]);
        var rest := DecodeAll(ts[1..], frame, pos + HeadSize(ts[0]));
        if first.Some? && rest.Some? then Some([first.value] + rest.value) else None
  }

  // ---- the round trip ----------------------------------------------------------

  lemma {:induction false} StaticSize(t: Type, v: Value)
    requires HasType(v, t) && !Dynamic(t)
    ensures |Encode(t, v)| == HeadSize(t)
    decreases v, 1
  {
    match t
    case TWord =>
    case TTuple(fields) => StaticSizes(fields, v.items, HeadSizes(fields));
  }

  lemma {:induction false} StaticSizes(ts: seq<Type>, vs: seq<Value>, offset: nat)
    requires HaveTypes(vs, ts) && !AnyDynamic(ts)
    ensures |HeadsAndTails(ts, vs, offset).0| == HeadSizes(ts)
    ensures HeadsAndTails(ts, vs, offset).1 == []
    decreases vs, 0
  {
    if |ts| > 0 {
      StaticSize(ts[0], vs[0]);
      StaticSizes(ts[1..], vs[1..], offset);
    }
  }

  lemma {:induction false} HeadsLength(ts: seq<Type>, vs: seq<Value>, offset: nat)
    requires HaveTypes(vs, ts)
    ensures |HeadsAndTails(ts, vs, offset).0| == HeadSizes(ts)
    decreases vs
  {
    if |ts| > 0 {
      if Dynamic(ts[0]) {
        HeadsLength(ts[1..], vs[1..], offset + |Encode(ts[0], vs[0])|);
      } else {
        StaticSize(ts[0], vs[0]);
        HeadsLength(ts[1..], vs[1..], offset);
      }
    }
  }

  /** `part` sits in `whole` at position `pos`. */
  ghost predicate Holds(whole: seq<Byte>, pos: nat, part: seq<Byte>) {
    pos + |part| <= |whole| && whole[pos..pos + |part|] == part
  }

  lemma HoldsSplit(whole: seq<Byte>, pos: nat, a: seq<Byte>, b: seq<Byte>)
    requires Holds(whole, pos, a + b)
    ensures Holds(whole, pos, a) && Holds(whole, pos + |a|, b)
  {
    var s := whole[pos..pos + |a + b|];
    assert s[..|a|] == a && s[|a|..] == b;
    assert s[..|a|] == whole[pos..pos + |a|];
    assert s[|a|..] == whole[pos + |a|..pos + |a| + |b|];
  }

  lemma HoldsWord(whole: seq<Byte>, pos: nat, n: nat)
    requires n < UINT256_LIMIT && Holds(whole, pos, WordOf(n))
    ensures ReadWord(whole, pos) == Some(n)
  {
    Uint256Limit();
    FromToBytes(n, 32);
  }

  /** Every component takes at least one word of head, so a count is below the encoding's length. */
  lemma {:induction false} HeadPositive(t: Type, v: Value)
    requires HasType(v, t)
    ensures HeadSize(t) >= 32
    decreases v
  {
    if t.TTuple? && !Dynamic(t) {
      HeadPositive(t.fields[0], v.items[0]);
    }
  }

  lemma {:induction false} CountBounded(ts: seq<Type>, vs: seq<Value>)
    requires HaveTypes(vs, ts)
    ensures 32 * |ts| <= HeadSizes(ts)
  {
    if |ts| > 0 {
      HeadPositive(ts[0], vs[0]);
      CountBounded(ts[1..], vs[1..]);
    }
  }

  lemma DecodeBytes(b: seq<Byte>, suffix: seq<Byte>)
    requires |b| < UINT256_LIMIT
    ensures Decode(TBytes, Encode(TBytes, Blob(b)) + suffix) == Some(Blob(b))
  {
    var n, pad := WordOf(|b|), Zeros(Padding(|b|));
    var buf := n + (b + (pad + suffix));
    Associate(n + b, pad, suffix);
    Associate(n, b, pad + suffix);
    HoldsWord(buf, 0, |b|);
    assert buf[32..32 + |b|] == b;
  }

  /** An array reads back when its components do. */
  lemma DecodeArray(elem: Type, items: seq<Value>, body: seq<Byte>)
    requires |items| < UINT256_LIMIT
    requires DecodeAll(Repeat(elem, |items|), body, 0) == Some(items)
    ensures Decode(TArray(elem), WordOf(|items|) + body) == Some(Array(items))
  {
    var buf := WordOf(|items|) + body;
    HoldsWord(buf, 0, |items|);
    assert buf[32..] == body;
  }

  /**
   Decoding inverts encoding, whatever bytes follow, for every value of every type whose
   encoding is addressable with 256-bit offsets.
   */
  lemma {:induction false} DecodeEncode(t: Type, v: Value, suffix: seq<Byte>)
    requires HasType(v, t) && |Encode(t, v)| < UINT256_LIMIT
    ensures Decode(t, Encode(t, v) + suffix) == Some(v)
    decreases v, 1
  {
    match t {
      case TWord =>
        assert (v.w + suffix)[..32] == v.w;
      case TBytes =>
        DecodeBytes(v.b, suffix);
      case TArray(elem) =>
        var ts := Repeat(elem, |v.items|);
        CountBounded(ts, v.items);
        HeadsLength(ts, v.items, HeadSizes(ts));
        DecodeEncodeAll(ts, v.items, suffix);
        DecodeArray(elem, v.items, EncodeAll(ts, v.items) + suffix);
        Associate(WordOf(|v.items|), EncodeAll(ts, v.items), suffix);
      case TTuple(fields) =>
        DecodeEncodeAll(fields, v.items, suffix);
    }
  }

  lemma {:induction false} DecodeEncodeAll(ts: seq<Type>, vs: seq<Value>, suffix: seq<Byte>)
    requires HaveTypes(vs, ts) && |EncodeAll(ts, vs)| < UINT256_LIMIT
    ensures DecodeAll(ts, EncodeAll(ts, vs) + suffix, 0) == Some(vs)
    decreases vs, 0, 3
  {
    var (heads, tails) := HeadsAndTails(ts, vs, HeadSizes(ts));
    var frame := heads + tails + suffix;
    HeadsLength(ts, vs, HeadSizes(ts));
    assert Holds(frame, 0, heads);
    assert Holds(frame, |heads|, tails);
    DecodeComponents(ts, vs, frame, 0, |heads|);
  }

  lemma DecodeStep(ts: seq<Type>, vs: seq<Value>, frame: seq<Byte>, pos: nat, at: nat)
    requires 0 < |vs| == |ts| && at <= |frame|
    requires if Dynamic(ts[0]) then ReadWord(frame, pos) == Some(at) else at == pos
    requires Decode(ts[0], frame[at..]) == Some(vs[0])
    requires DecodeAll(ts[1..], frame, pos + HeadSize(ts[0])) == Some(vs[1..])
    ensures DecodeAll(ts, frame, pos) == Some(vs)
  {
    assert vs == [vs[0]] + vs[1..];
  }

  lemma HoldsSuffix(whole: seq<Byte>, pos: nat, part: seq<Byte>)
    requires Holds(whole, pos, part)
    ensures whole[pos..] == part + whole[pos + |part|..]
  {
    assert whole[pos..] == whole[pos..pos + |part|] + whole[pos + |part|..];
  }

  /** A component found in the frame reads back. */
  lemma {:induction false} DecodeInFrame(t: Type, v: Value, frame: seq<Byte>, at: nat)
    requires HasType(v, t) && |Encode(t, v)| < UINT256_LIMIT && Holds(frame, at, Encode(t, v))
    ensures Decode(t, frame[at..]) == Some(v)
    decreases v, 2
  {
    var e := Encode(t, v);
    HoldsSuffix(frame, at, e);
    DecodeEncode(t, v, frame[at + |e|..]);
  }

  /** The components' heads sit in the frame at `pos`, their tails at `off`, within 256-bit reach. */
  ghost predicate Laid(ts: seq<Type>, vs: seq<Value>, frame: seq<Byte>, pos: nat, off: nat) {
    && HaveTypes(vs, ts)
    && Holds(frame, pos, HeadsAndTails(ts, vs, off).0)
    && Holds(frame, off, HeadsAndTails(ts, vs, off).1)
    && off + |HeadsAndTails(ts, vs, off).1| < UINT256_LIMIT
    && |HeadsAndTails(ts, vs, off).0| < UINT256_LIMIT
  }

  lemma LaidDynamic(ts: seq<Type>, vs: seq<Value>, frame: seq<Byte>, pos: nat, off: nat)
    requires |ts| > 0 && Laid(ts, vs, frame, pos, off) && Dynamic(ts[0])
    ensures |Encode(ts[0], vs[0])| < UINT256_LIMIT && Holds(frame, off, Encode(ts[0], vs[0]))
    ensures ReadWord(frame, pos) == Some(off)
    ensures Laid(ts[1..], vs[1..], frame, pos + HeadSize(ts[0]), off + |Encode(ts[0], vs[0])|)
  {
    var e := Encode(ts[0], vs[0]);
    var rest := HeadsAndTails(ts[1..], vs[1..], off + |e|);
    assert HeadsAndTails(ts, vs, off) == (WordOf(off) + rest.0, e + rest.1);
    HoldsBoth(frame, pos, off, e, rest.0, rest.1);
  }

  lemma HoldsBoth(frame: seq<Byte>, pos: nat, off: nat, e: seq<Byte>, heads: seq<Byte>, tails: seq<Byte>)
    requires off < UINT256_LIMIT && Holds(frame, pos, WordOf(off) + heads) && Holds(frame, off, e + tails)
    ensures ReadWord(frame, pos) == Some(off) && Holds(frame, off, e)
    ensures Holds(frame, pos + 32, heads) && Holds(frame, off + |e|, tails)
  {
    HoldsSplit(frame, pos, WordOf(off), heads);
    HoldsSplit(frame, off, e, tails);
    HoldsWord(frame, pos, off);
  }

  lemma LaidStatic(ts: seq<Type>, vs: seq<Value>, frame: seq<Byte>, pos: nat, off: nat)
    requires |ts| > 0 && Laid(ts, vs, frame, pos, off) && !Dynamic(ts[0])
    ensures |Encode(ts[0], vs[0])| < UINT256_LIMIT && Holds(frame, pos, Encode(ts[0], vs[0]))
    ensures Laid(ts[1..], vs[1..], frame, pos + HeadSize(ts[0]), off)
  {
    var e := Encode(ts[0], vs[0]);
    var rest := HeadsAndTails(ts[1..], vs[1..], off);
    StaticSize(ts[0], vs[0]);
    HoldsSplit(frame, pos, e, rest.0);
  }

  /** Where the first component sits, and what is left to lay out. */
  lemma LaidFirst(ts: seq<Type>, vs: seq<Value>, frame: seq<Byte>, pos: nat, off: nat) returns (at: nat, next: nat)
    requires |ts| > 0 && Laid(ts, vs, frame, pos, off)
    ensures |Encode(ts[0], vs[0])| < UINT256_LIMIT && Holds(frame, at, Encode(ts[0], vs[0]))
    ensures if Dynamic(ts[0]) then ReadWord(frame, pos) == Some(at) else at == pos
    ensures Laid(ts[1..], vs[1..], frame, pos + HeadSize(ts[0]), next)
  {
    if Dynamic(ts[0]) {
      LaidDynamic(ts, vs, frame, pos, off);
      at, next := off, off + |Encode(ts[0], vs[0])|;
    } else {
      LaidStatic(ts, vs, frame, pos, off);
      at, next := pos, off;
    }
  }

  /** Components laid out in a frame read back. */
  lemma {:induction false} DecodeComponents(ts: seq<Type>, vs: seq<Value>, frame: seq<Byte>, pos: nat, off: nat)
    requires Laid(ts, vs, frame, pos, off)
    ensures DecodeAll(ts, frame, pos) == Some(vs)
    decreases vs, 0, 2
  {
    if |ts| == 0 {
      assert vs == [];
    } else {
      var at, next := LaidFirst(ts, vs, frame, pos, off);
      DecodeInFrame(ts[0], vs[0], frame, at);
      DecodeComponents(ts[1..], vs[1..], frame, pos + HeadSize(ts[0]), next);
      DecodeStep(ts, vs, frame, pos, at);
    }
  }
}
