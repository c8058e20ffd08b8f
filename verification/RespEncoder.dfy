/** The encoder over a buffered writer, with the table that speeds up small integers. */
module RespEncoder {
  import opened Bytes
  import opened RespText
  import opened Resp

  const MIN_ITOA := -128
  const MAX_ITOA := 32768
  const ITOA_LEN := MAX_ITOA - MIN_ITOA + 1

  /** The decimal texts of a range of integers in one string, and where each of them begins. */
  class ItoaTable {
    const offset: array<nat>
    const text: seq<byte>

    /** Entry k begins at its offset and ends where the next begins. */
    ghost predicate Valid()
      reads this, offset
    {
      offset.Length == ITOA_LEN && Filled(offset[..], text)
    }

    constructor ()
      ensures Valid()
    {
      var o := new nat[ITOA_LEN];
      var t: seq<byte> := [];
      var i := 0;
      while i < ITOA_LEN
        invariant 0 <= i <= ITOA_LEN && o.Length == ITOA_LEN
        invariant Filled(o[..i], t)
      {
        ghost var before := o[..i];
        o[i] := |t|;
        assert o[..i + 1] == before + [|t|];
        FilledExtend(before, t);
        t := t + Decimal(i + MIN_ITOA);
        i := i + 1;
      }
      assert o[..] == o[..ITOA_LEN];
      offset, text := o, t;
    }

    /** The table gives the usual decimal text for every integer in its range, the library for the rest. */
    method Itoa(i: int) returns (s: seq<byte>)
      requires Valid()
      ensures s == Decimal(i)
    {
      if MIN_ITOA <= i <= MAX_ITOA {
        assert EntryAt(offset[..], text, i - MIN_ITOA);
        var beg := offset[i - MIN_ITOA];
        if i == MAX_ITOA {
          return text[beg..];
        }
        var end := offset[i - MIN_ITOA + 1];
        return text[beg..end];
      }
      return Decimal(i);
    }
  }

  ghost function EndOf(offset: seq<nat>, text: seq<byte>, k: nat): nat
    requires k < |offset|
  {
    if k + 1 == |offset| then |text| else offset[k + 1]
  }

  ghost predicate EntryAt(offset: seq<nat>, text: seq<byte>, k: int)
    requires 0 <= k < |offset|
  {
    && offset[k] <= EndOf(offset, text, k) <= |text| < 0x1_0000_0000
    && text[offset[k]..EndOf(offset, text, k)] == Decimal(k + MIN_ITOA)
  }

  ghost predicate Filled(offset: seq<nat>, text: seq<byte>) {
    && |text| <= 20 * |offset|
    && (offset == [] ==> text == [])
    && forall k :: 0 <= k < |offset| ==> EntryAt(offset, text, k)
  }

  lemma FilledExtend(offset: seq<nat>, text: seq<byte>)
    requires Filled(offset, text) && |offset| < ITOA_LEN
    ensures Filled(offset + [|text|], text + Decimal(|offset| + MIN_ITOA))
  {
    var o, t := offset + [|text|], text + Decimal(|offset| + MIN_ITOA);
    DecimalFits(|offset| + MIN_ITOA);
    forall k | 0 <= k < |o| ensures EntryAt(o, t, k) {
      if k < |offset| {
        assert EntryAt(offset, text, k);
        assert t[o[k]..EndOf(o, t, k)] == text[offset[k]..EndOf(offset, text, k)];
      } else {
        assert t[|text|..] == Decimal(|offset| + MIN_ITOA);
      }
    }
  }

  /** A buffered writer: appends, unless the connection behind it fails. */
  class Writer {
    var out: seq<byte>
    const reliable: bool

    constructor (reliable: bool)
      ensures out == [] && this.reliable == reliable
    {
      out := [];
      this.reliable := reliable;
    }

    method Write(b: seq<byte>) returns (ok: bool)
      modifies this
      ensures ok ==> out == old(out) + b
      ensures reliable ==> ok
      ensures old(out) <= out
    {
      ok := true;
      if !reliable {
        ok := *;
      }
      if ok {
        out := out + b;
      }
    }
  }

  class Encoder {
    const bw: Writer
    const table: ItoaTable
    var failed: bool

    ghost predicate Valid()
      reads this, table, table.offset
    {
      table.Valid()
    }

    constructor (bw: Writer, table: ItoaTable)
      requires table.Valid()
      ensures Valid() && this.bw == bw && !failed
    {
      this.bw := bw;
      this.table := table;
      failed := false;
    }

    /** Appends the encoding of a value; after a failure nothing more is written. */
    method Encode(v: Value) returns (ok: bool)
      requires Valid()
      modifies this`failed, bw
      ensures Valid() && failed == !ok
      ensures ok ==> !old(failed) && bw.out == old(bw.out) + Resp.Encode(v)
      ensures old(failed) ==> !ok && bw.out == old(bw.out)
      ensures bw.reliable && !old(failed) ==> ok
    {
      if failed {
        return false;
      }
      ok := EncodeValue(v);
      if !ok {
        failed := true;
      }
    }

    method EncodeText(b: seq<byte>) returns (ok: bool)
      modifies bw
      ensures ok ==> bw.out == old(bw.out) + EncodeLine(b)
      ensures bw.reliable ==> ok
    {
      ok := bw.Write(b);
      if ok {
        ok := bw.Write(CRLF);
      }
      assert old(bw.out) + b + CRLF == old(bw.out) + (b + CRLF);
    }

    method EncodeInt(i: int) returns (ok: bool)
      requires Valid()
      modifies bw
      ensures ok ==> bw.out == old(bw.out) + EncodeLine(Decimal(i))
      ensures bw.reliable ==> ok
    {
      var s := table.Itoa(i);
      ok := EncodeText(s);
    }

    method EncodeValue(v: Value) returns (ok: bool)
      requires Valid()
      modifies bw
      ensures ok ==> bw.out == old(bw.out) + Resp.Encode(v)
      ensures bw.reliable ==> ok
      decreases v, 0
    {
      hide EncodeLine, Decimal;
      ok := bw.Write([TypeByte(v)]);
      if !ok {
        return;
      }
      ghost var o := old(bw.out);
      match v
      case Integer(n) =>
        ok := EncodeInt(n);
        assert o + [COLON] + EncodeLine(Decimal(n)) == o + ([COLON] + EncodeLine(Decimal(n)));
      case SimpleString(text) =>
        ok := EncodeText(text);
        assert o + [PLUS] + EncodeLine(text) == o + ([PLUS] + EncodeLine(text));
      case Error(text) =>
        ok := EncodeText(text);
        assert o + [MINUS] + EncodeLine(text) == o + ([MINUS] + EncodeLine(text));
      case NullBulkString =>
        ok := EncodeInt(-1);
        assert o + [DOLLAR] + EncodeLine(Decimal(-1)) == o + ([DOLLAR] + EncodeLine(Decimal(-1)));
      case NullArray =>
        ok := EncodeInt(-1);
        assert o + [STAR] + EncodeLine(Decimal(-1)) == o + ([STAR] + EncodeLine(Decimal(-1)));
      case BulkString(text) =>
        ok := EncodeBulk(text);
        assert o + [DOLLAR] + (EncodeLine(Decimal(|text|)) + EncodeLine(text))
            == o + ([DOLLAR] + (EncodeLine(Decimal(|text|)) + EncodeLine(text)));
      case Array(items) =>
        ok := EncodeArray(items);
        assert o + [STAR] + (EncodeLine(Decimal(|items|)) + EncodeAll(items))
            == o + ([STAR] + (EncodeLine(Decimal(|items|)) + EncodeAll(items)));
    }

    method EncodeBulk(text: seq<byte>) returns (ok: bool)
      requires Valid()
      modifies bw
      ensures ok ==> bw.out == old(bw.out) + (EncodeLine(Decimal(|text|)) + EncodeLine(text))
      ensures bw.reliable ==> ok
    {
      hide EncodeLine, Decimal;
      ok := EncodeInt(|text|);
      if ok {
        ok := EncodeText(text);
      }
      assert old(bw.out) + EncodeLine(Decimal(|text|)) + EncodeLine(text)
          == old(bw.out) + (EncodeLine(Decimal(|text|)) + EncodeLine(text));
    }

    method EncodeArray(items: seq<Value>) returns (ok: bool)
      requires Valid()
      modifies bw
      ensures ok ==> bw.out == old(bw.out) + (EncodeLine(Decimal(|items|)) + EncodeAll(items))
      ensures bw.reliable ==> ok
      decreases items, 1
    {
      hide EncodeLine, Decimal, Resp.Encode, EncodeAll;
      ok := EncodeInt(|items|);
      if !ok {
        return;
      }
      ghost var start := bw.out;
      var i := 0;
      EncodeAllNone(start);
      while i < |items|
        invariant 0 <= i <= |items|
        invariant bw.out == start + EncodeAll(items[..i])
      {
        ok := EncodeValue(items[i]);
        if !ok {
          return;
        }
        assert items[..i + 1] == items[..i] + [items[i]];
        EncodeAllAppend(items[..i], items[i], start);
        i := i + 1;
      }
      assert items[..|items|] == items;
      assert old(bw.out) + EncodeLine(Decimal(|items|)) + EncodeAll(items)
          == old(bw.out) + (EncodeLine(Decimal(|items|)) + EncodeAll(items));
      return true;
    }
  }

  lemma EncodeAllNone(start: seq<byte>)
    ensures forall vs: seq<Value> :: |vs| == 0 ==> start + EncodeAll(vs) == start
  {
  }

  lemma {:induction false} EncodeAllConcat(a: seq<Value>, b: seq<Value>)
    ensures EncodeAll(a + b) == EncodeAll(a) + EncodeAll(b)
  {
    if a == [] {
      assert a + b == b;
    } else {
      assert (a + b)[0] == a[0] && (a + b)[1..] == a[1..] + b;
      EncodeAllConcat(a[1..], b);
    }
  }

  lemma EncodeAllAppend(vs: seq<Value>, v: Value, start: seq<byte>)
    ensures start + EncodeAll(vs) + Resp.Encode(v) == start + EncodeAll(vs + [v])
  {
    EncodeAllConcat(vs, [v]);
    assert EncodeAll([v]) == Resp.Encode(v) + EncodeAll([v][1..]);
    assert [v][1..] == [];
  }

  function TypeByte(v: Value): byte {
    match v
    case Integer(_) => COLON
    case SimpleString(_) => PLUS
    case Error(_) => MINUS
    case BulkString(_) => DOLLAR
    case NullBulkString => DOLLAR
    case Array(_) => STAR
    case NullArray => STAR
  }
}
