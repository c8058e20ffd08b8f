/** The streaming decoder: one value after another from a buffered reader. */
module RespDecoder {
  import opened Basics
  import opened Bytes
  import opened ByteStream
  import opened RespText
  import opened Resp
  import opened RespReader
  import RespRoundTrip

  /** Splits a line at its spaces. */
  method SplitWords(b: seq<byte>) returns (ws: seq<seq<byte>>)
    ensures ws == Words(b)
  {
    hide Words;
    ws := [];
    var l, r := 0, 0;
    RespRoundTrip.WordsSpace([]);
    assert b[..0] == [];
    while r <= |b|
      invariant 0 <= l <= r <= |b| + 1
      invariant r == |b| + 1 || l == 0 || b[l - 1] == SPACE
      invariant r <= |b| ==> SPACE !in b[l..r]
      invariant r <= |b| ==> Words(b[..r]) == if l < r then ws + [b[l..r]] else ws
      invariant r == |b| + 1 ==> ws == Words(b)
    {
      if r != |b| && b[r] != SPACE {
        assert b[..r + 1] == b[..r] + [b[r]];
        assert b[l..r + 1] == b[l..r] + [b[r]];
        if l < r {
          assert b[..r][r - 1] == b[l..r][r - 1 - l];
          RespRoundTrip.WordsGrow(b[..r], b[r]);
        } else {
          RespRoundTrip.WordsBegin(b[..r], b[r]);
        }
        r := r + 1;
        continue;
      }
      if l < r {
        ws := ws + [b[l..r]];
      }
      l := r + 1;
      if r < |b| {
        assert b[..r + 1] == b[..r] + [SPACE];
        RespRoundTrip.WordsSpace(b[..r]);
      } else {
        assert b[..r] == b;
      }
      r := r + 1;
    }
  }

  class Decoder {
    const br: Reader
    var err: Option<DecodeError>

    ghost predicate Valid()
      reads this, br, br.buf, br.rd
    {
      br.Valid() && (err.None? ==> br.err == NoError)
    }

    constructor (br: Reader)
      requires br.Valid() && br.err == NoError
      ensures Valid() && this.br == br && err == None
    {
      this.br := br;
      err := None;
    }

    /**
     One value. Up to the first failure each call gives exactly what the parser gives on
     everything still unread, and leaves exactly what the parser leaves; after a failure
     every call repeats it.
     */
    method Decode() returns (out: Result<Value>)
      requires Valid()
      modifies this`err, br`err, br`r, br`w, br`consumed, br.buf, br.rd
      ensures Valid()
      ensures old(err).Some? ==> out == Failed(old(err).value) && err == old(err)
                                 && br.Unread() == old(br.Unread())
      ensures old(err).None? ==> br.Gives(out, Parse(old(br.Unread()), br.buf.Length))
      ensures old(err).None? ==> err == if out.Got? then None else Some(out.error)
    {
      if err.Some? {
        return Failed(err.value);
      }
      out := DecodeValue();
      if out.Failed? {
        err := Some(out.error);
      }
    }

    method DecodeText() returns (out: Result<seq<byte>>)
      requires br.Valid() && br.err == NoError
      modifies br`err, br`r, br`w, br`consumed, br.buf, br.rd
      ensures br.Valid() && br.Gives(out, ParseText(old(br.Unread())))
    {
      var b := br.ReadBytes();
      if b.Failed? {
        return Failed(b.error);
      }
      var n := |b.value| - 2;
      if n < 0 || b.value[n] != CR {
        return Failed(BadCRLFEnd);
      }
      return Got(b.value[..n]);
    }

    method DecodeInt() returns (out: Result<int64>)
      requires br.Valid() && br.err == NoError
      modifies br`err, br`r, br`w, br`consumed, br.buf, br.rd
      ensures br.Valid() && br.Gives(out, ParseIntLine(old(br.Unread()), br.buf.Length))
    {
      hide TakeShortLine, ParseDecimal;
      var b := br.ReadSlice();
      match b
      case Stopped => return Failed(ErrorOf(br.err));
      case Fragment(_) => return Failed(BufferFull);
      case Complete(line) =>
        var n := |line| - 2;
        if n < 0 || line[n] != CR {
          return Failed(BadCRLFEnd);
        }
        var i := ParseInt64(line[..n]);
        if i.None? {
          return Failed(BadInteger);
        }
        return Got(i.value);
    }

    method DecodeBulkString() returns (out: Result<Value>)
      requires br.Valid() && br.err == NoError
      modifies br`err, br`r, br`w, br`consumed, br.buf, br.rd
      ensures br.Valid() && br.Gives(out, ParseBulk(old(br.Unread()), br.buf.Length))
    {
      hide ParseIntLine;
      var n := DecodeInt();
      if n.Failed? {
        return Failed(n.error);
      }
      if n.value < -1 {
        return Failed(BadBulkStringLen);
      } else if n.value > MAX_BULK_STRING_LEN {
        return Failed(BadBulkStringLenTooLong);
      } else if n.value == -1 {
        return Got(NullBulkString);
      }
      var b := br.ReadFull(n.value + 2);
      if b.Failed? {
        return Failed(b.error);
      }
      if b.value[n.value] != CR || b.value[n.value + 1] != LF {
        return Failed(BadCRLFEnd);
      }
      return Got(BulkString(b.value[..n.value]));
    }

    method DecodeInline() returns (out: Result<Value>)
      requires br.Valid() && br.err == NoError
      modifies br`err, br`r, br`w, br`consumed, br.buf, br.rd
      ensures br.Valid() && br.Gives(out, ParseInline(old(br.Unread())))
    {
      hide ParseText, Words;
      var b := DecodeText();
      if b.Failed? {
        return Failed(b.error);
      }
      var multi := SplitWords(b.value);
      if multi == [] {
        return Failed(BadMultiBulkLen);
      }
      return Got(Array(Bulks(multi)));
    }

    method DecodeValue() returns (out: Result<Value>)
      requires br.Valid() && br.err == NoError
      modifies br`err, br`r, br`w, br`consumed, br.buf, br.rd
      ensures br.Valid() && br.Gives(out, Parse(old(br.Unread()), br.buf.Length))
      decreases |br.Unread()|, 0
    {
      hide ParseIntLine, ParseText, ParseBulk, ParseInline, ParseMany;
      var b := br.PeekByte();
      if b.Failed? {
        return Failed(b.error);
      }
      if b.value !in [COLON, PLUS, MINUS, DOLLAR, STAR] {
        out := DecodeInline();
        return;
      }
      var typ := b.value;
      var _ := br.ReadByte();
      assert br.err == NoError;
      if typ == COLON {
        var n := DecodeInt();
        return if n.Got? then Got(Integer(n.value)) else Failed(n.error);
      } else if typ == DOLLAR {
        out := DecodeBulkString();
      } else if typ == STAR {
        out := DecodeArray();
      } else {
        var t := DecodeText();
        if t.Failed? {
          return Failed(t.error);
        }
        return Got(if typ == PLUS then SimpleString(t.value) else Error(t.value));
      }
    }

    method DecodeArray() returns (out: Result<Value>)
      requires br.Valid() && br.err == NoError
      modifies br`err, br`r, br`w, br`consumed, br.buf, br.rd
      ensures br.Valid() && br.Gives(out, ParseArray(old(br.Unread()), br.buf.Length))
      decreases |br.Unread()|, 1
    {
      hide ParseIntLine, Parse, ParseMany, Prepend;
      var n := DecodeInt();
      if n.Failed? {
        return Failed(n.error);
      }
      if n.value < -1 {
        return Failed(BadArrayLen);
      } else if n.value > MAX_ARRAY_LEN {
        return Failed(BadArrayLenTooLong);
      } else if n.value == -1 {
        return Got(NullArray);
      }
      ghost var s := br.Unread();
      var items: seq<Value> := [];
      PrependNone(ParseMany(s, n.value, br.buf.Length));
      while |items| < n.value
        invariant br.Valid() && br.err == NoError && |items| <= n.value
        invariant |br.Unread()| <= |s|
        invariant ParseMany(s, n.value, br.buf.Length)
               == Prepend(items, ParseMany(br.Unread(), n.value - |items|, br.buf.Length))
        decreases n.value - |items|
      {
        PrependNext(items, br.Unread(), n.value - |items|, br.buf.Length);
        var v := DecodeValue();
        if v.Failed? {
          return Failed(v.error);
        }
        items := items + [v.value];
      }
      PrependLast(items, br.Unread(), br.buf.Length);
      return Got(Array(items));
    }
  }

  ghost function Prepend(vs: seq<Value>, r: Parsed<seq<Value>>): Parsed<seq<Value>> {
    match r
    case Fail(e) => Fail(e)
    case Ok(ws, rest) => Ok(vs + ws, rest)
  }

  lemma PrependNone(r: Parsed<seq<Value>>)
    ensures Prepend([], r) == r
  {
    if r.Ok? {
      assert [] + r.value == r.value;
    }
  }

  lemma PrependNext(vs: seq<Value>, s: seq<byte>, n: nat, size: nat)
    requires n > 0
    ensures Prepend(vs, ParseMany(s, n, size))
         == match Parse(s, size)
            case Fail(e) => Fail(e)
            case Ok(v, rest) => Prepend(vs + [v], ParseMany(rest, n - 1, size))
  {
    hide Parse;
    match Parse(s, size)
    case Fail(_) =>
    case Ok(v, rest) =>
      match ParseMany(rest, n - 1, size)
      case Fail(_) =>
      case Ok(ws, _) => assert vs + ([v] + ws) == vs + [v] + ws;
  }

  lemma PrependLast(vs: seq<Value>, s: seq<byte>, size: nat)
    ensures Prepend(vs, ParseMany(s, 0, size)) == Ok(vs, s)
  {
    assert vs + [] == vs;
  }
}
