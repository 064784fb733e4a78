/** The structural hash key of an expression: the sequence of writes the
    `Hash` implementation for `Expr` feeds to the hasher, and the key the
    hasher turns it into. The hasher (AHasher) is a parameter of the model. */
module Hashing {
  import opened Wrappers
  import opened Ast

  /** One call on the hasher: `write_u8` for a variant tag, `write_i64` for
      an integer literal, `write_u64` for a float's bit pattern, and
      `write_isize` for an operator's discriminant (what the derived `Hash`
      of a field-less enum writes). */
  datatype HashWrite =
    | WriteU8(byte: nat)
    | WriteI64(i: I64)
    | WriteU64(u: U64)
    | WriteIsize(d: int)

  /** The hasher as a function of everything written to it. */
  type Hasher = seq<HashWrite> -> U64

  /** The discriminant of each operator, in declaration order. */
  function OpDiscriminant(op: OpKind): int {
    match op
    case Add => 0
    case Subtract => 1
    case Multiply => 2
    case Divide => 3
  }

  function OpOfDiscriminant(d: int): (r: Option<OpKind>)
    ensures r.Some? ==> OpDiscriminant(r.value) == d
  {
    if d == 0 then Some(Add)
    else if d == 1 then Some(Subtract)
    else if d == 2 then Some(Multiply)
    else if d == 3 then Some(Divide)
    else None
  }

  /** The variant tag written first for each kind of expression. */
  function Tag(e: Expr): nat {
    match e
    case Integer(_) => 0
    case Float(_) => 1
    case BinaryOp(_, _, _) => 2
    case Parenthesized(_) => 3
  }

  /** `<Expr as Hash>::hash`: the variant tag, then the content in order,
      children included recursively. */
  function Encode(e: Expr): (r: seq<HashWrite>)
    ensures |r| >= 2 && r[0] == WriteU8(Tag(e))
  {
    match e
    case Integer(n) => [WriteU8(0), WriteI64(n)]
    case Float(x) => [WriteU8(1), WriteU64(x)]
    case BinaryOp(l, op, r) => [WriteU8(2)] + Encode(l) + [WriteIsize(OpDiscriminant(op))] + Encode(r)
    case Parenthesized(i) => [WriteU8(3)] + Encode(i)
  }

  /** `hash_ast`: the cache key of an expression. */
  function HashAst(hasher: Hasher, e: Expr): U64 {
    hasher(Encode(e))
  }

  /** Reads one expression off the front of a write sequence, returning it
      with the writes that follow. */
  function Decode(ws: seq<HashWrite>): (r: Option<(Expr, seq<HashWrite>)>)
    ensures r.Some? ==> |r.value.1| < |ws|
    decreases |ws|
  {
    if |ws| < 2 then None
    else match ws[0]
      case WriteU8(0) => if ws[1].WriteI64? then Some((Integer(ws[1].i), ws[2..])) else None
      case WriteU8(1) => if ws[1].WriteU64? then Some((Float(ws[1].u), ws[2..])) else None
      case WriteU8(2) =>
        (match Decode(ws[1..])
         case None => None
         case Some((l, rest)) =>
           if |rest| == 0 || !rest[0].WriteIsize? then None
           else match OpOfDiscriminant(rest[0].d)
             case None => None
             case Some(op) =>
               match Decode(rest[1..])
               case None => None
               case Some((r, rest')) => Some((BinaryOp(l, op, r), rest')))
      case WriteU8(3) =>
        (match Decode(ws[1..])
         case None => None
         case Some((i, rest)) => Some((Parenthesized(i), rest)))
      case _ => None
  }

  /** Decoding a binary node's writes, given how its operands decode. */
  lemma DecodeBinaryStep(el: seq<HashWrite>, er: seq<HashWrite>, rest: seq<HashWrite>, l: Expr, op: OpKind, r: Expr)
    requires Decode(el + ([WriteIsize(OpDiscriminant(op))] + er + rest))
             == Some((l, [WriteIsize(OpDiscriminant(op))] + er + rest))
    requires Decode(er + rest) == Some((r, rest))
    ensures Decode([WriteU8(2)] + (el + ([WriteIsize(OpDiscriminant(op))] + er + rest)))
            == Some((BinaryOp(l, op, r), rest))
  {
    var tail := [WriteIsize(OpDiscriminant(op))] + er + rest;
    var ws := [WriteU8(2)] + (el + tail);
    assert ws[1..] == el + tail;
    assert tail[1..] == er + rest;
    assert OpOfDiscriminant(OpDiscriminant(op)) == Some(op);
  }

  lemma DecodeParenStep(ei: seq<HashWrite>, rest: seq<HashWrite>, i: Expr)
    requires Decode(ei + rest) == Some((i, rest))
    ensures Decode([WriteU8(3)] + (ei + rest)) == Some((Parenthesized(i), rest))
  {
    assert ([WriteU8(3)] + (ei + rest))[1..] == ei + rest;
  }

  lemma DecodeEncodeLeaf(e: Expr, rest: seq<HashWrite>)
    requires e.Integer? || e.Float?
    ensures Decode(Encode(e) + rest) == Some((e, rest))
  {
    assert (Encode(e) + rest)[2..] == rest;
  }

  /** The writes after a binary node's left operand. */
  function AfterLeft(op: OpKind, r: Expr, rest: seq<HashWrite>): seq<HashWrite> {
    [WriteIsize(OpDiscriminant(op))] + Encode(r) + rest
  }

  lemma EncodeBinarySplit(l: Expr, op: OpKind, r: Expr, rest: seq<HashWrite>)
    ensures Encode(BinaryOp(l, op, r)) + rest == [WriteU8(2)] + (Encode(l) + AfterLeft(op, r, rest))
  {
  }

  lemma DecodeEncodeBinary(l: Expr, op: OpKind, r: Expr, rest: seq<HashWrite>)
    requires Decode(Encode(l) + AfterLeft(op, r, rest)) == Some((l, AfterLeft(op, r, rest)))
    requires Decode(Encode(r) + rest) == Some((r, rest))
    ensures Decode(Encode(BinaryOp(l, op, r)) + rest) == Some((BinaryOp(l, op, r), rest))
  {
    EncodeBinarySplit(l, op, r, rest);
    DecodeBinaryStep(Encode(l), Encode(r), rest, l, op, r);
  }

  lemma DecodeEncodeParen(i: Expr, rest: seq<HashWrite>)
    requires Decode(Encode(i) + rest) == Some((i, rest))
    ensures Decode(Encode(Parenthesized(i)) + rest) == Some((Parenthesized(i), rest))
  {
    assert Encode(Parenthesized(i)) + rest == [WriteU8(3)] + (Encode(i) + rest);
    DecodeParenStep(Encode(i), rest, i);
  }

  /** Decoding undoes encoding, whatever follows: the encoding is
      self-delimiting. */
  lemma {:induction false} DecodeEncode(e: Expr, rest: seq<HashWrite>)
    ensures Decode(Encode(e) + rest) == Some((e, rest))
  {
    if e.Integer? || e.Float? {
      DecodeEncodeLeaf(e, rest);
    } else if e.BinaryOp? {
      DecodeEncode(e.left, AfterLeft(e.op, e.right, rest));
      DecodeEncode(e.right, rest);
      DecodeEncodeBinary(e.left, e.op, e.right, rest);
    } else {
      DecodeEncode(e.inner, rest);
      DecodeEncodeParen(e.inner, rest);
    }
  }

  /** The encoding is injective: distinct expressions feed the hasher
      distinct write sequences, so only a collision of the hasher itself
      can give them one key. */
  lemma EncodeInjective(a: Expr, b: Expr)
    requires Encode(a) == Encode(b)
    ensures a == b
  {
    DecodeEncode(a, []);
    DecodeEncode(b, []);
    assert Encode(a) + [] == Encode(a);
    assert Encode(b) + [] == Encode(b);
  }

  /** Parentheses are part of the key: `(e)` and `e` never feed the hasher
      the same writes. */
  lemma ParenthesizedDiffers(e: Expr)
    ensures Encode(Parenthesized(e)) != Encode(e)
  {
    if Encode(Parenthesized(e)) == Encode(e) {
      EncodeInjective(Parenthesized(e), e);
    }
  }
}
