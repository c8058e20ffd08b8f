/** Both ends of a connection: what one side encodes, the other decodes. */
module RespWire {
  import opened Basics
  import opened Bytes
  import opened ByteStream
  import opened Resp
  import opened RespReader
  import opened RespDecoder
  import opened RespEncoder
  import opened RespRoundTrip

  lemma AppendEncoded(vs: seq<Value>, i: nat)
    requires i < |vs|
    ensures EncodeAll(vs[..i]) + Resp.Encode(vs[i]) == EncodeAll(vs[..i + 1])
  {
    assert vs[..i + 1] == vs[..i] + [vs[i]];
    EncodeAllAppend(vs[..i], vs[i], []);
    assert [] + EncodeAll(vs[..i]) == EncodeAll(vs[..i]);
    assert [] + EncodeAll(vs[..i + 1]) == EncodeAll(vs[..i + 1]);
  }

  method EncodeStream(vs: seq<Value>) returns (bytes: seq<byte>)
    ensures bytes == EncodeAll(vs)
  {
    hide Resp.Encode, EncodeAll;
    var table := new ItoaTable();
    var bw := new Writer(true);
    var enc := new Encoder(bw, table);
    var i := 0;
    EncodeAllNone([]);
    assert [] + EncodeAll(vs[..0]) == EncodeAll(vs[..0]);
    while i < |vs|
      invariant 0 <= i <= |vs| && enc.Valid() && !enc.failed && enc.bw == bw
      invariant bw.out == EncodeAll(vs[..i])
    {
      AppendEncoded(vs, i);
      var _ := enc.Encode(vs[i]);
      i := i + 1;
    }
    assert vs[..|vs|] == vs;
    bytes := bw.out;
  }

  /** Takes the next n values off a decoder; they and what follows them are what was encoded. */
  method DecodeStream(d: Decoder, n: nat, ghost vs: seq<Value>, ghost tail: seq<byte>) returns (got: seq<Value>)
    requires d.Valid() && d.err.None? && d.br.rd.faultless && d.br.buf.Length >= MIN_SIZE
    requires |vs| == n && (forall i :: 0 <= i < n ==> WellFormed(vs[i]))
    requires d.br.Unread() == EncodeAll(vs) + tail
    modifies d`err, d.br`err, d.br`r, d.br`w, d.br`consumed, d.br.buf, d.br.rd
    ensures got == vs && d.Valid() && d.err.None? && d.br.Unread() == tail
  {
    hide Parse, Resp.Encode, EncodeAll, WellFormed;
    got := [];
    EncodeAllNone([]);
    assert vs[0..] == vs;
    while |got| < n
      invariant |got| <= n && got == vs[..|got|]
      invariant d.Valid() && d.err.None?
      invariant d.br.Unread() == EncodeAll(vs[|got|..]) + tail
    {
      ghost var rest := vs[|got|..];
      EncodeFirst(rest, tail);
      RoundTrip(rest[0], EncodeAll(rest[1..]) + tail, d.br.buf.Length);
      var v := d.Decode();
      assert rest[1..] == vs[|got| + 1..];
      got := got + [v.value];
    }
    assert EncodeAll(vs[n..]) == [] by {
      assert [] + EncodeAll(vs[n..]) == [];
    }
  }

  /**
   Any list of well-formed values arrives unchanged and in order: written with the integer
   table, read in chunks of any size through a buffer of any size from 22 bytes up.
   */
  method Transfer(vs: seq<Value>, tail: seq<byte>, size: nat) returns (got: seq<Value>)
    requires size >= MIN_SIZE && forall i :: 0 <= i < |vs| ==> WellFormed(vs[i])
    ensures got == vs
  {
    var bytes := EncodeStream(vs);
    var conn := new Conn(bytes + tail, true, false);
    var br := new Reader(conn, size);
    var d := new Decoder(br);
    got := DecodeStream(d, |vs|, vs, tail);
  }
}
