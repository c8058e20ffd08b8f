/**
 The Redis serialization protocol (RESP2): how a value is written, and the parser that the
 streaming decoder is proved to agree with. The parser knows the size of the decoder's buffer,
 because a length line that does not fit the buffer is an error there.
 */
module Resp {
  import opened Basics
  import opened Bytes
  import opened RespText

  datatype Value =
    | Integer(n: int64)
    | SimpleString(text: seq<byte>)
    | Error(text: seq<byte>)
    | BulkString(text: seq<byte>)
    | NullBulkString
    | Array(items: seq<Value>)
    | NullArray

  datatype DecodeError =
    | EndOfStream | UnexpectedEnd | ReadFailed | BufferFull
    | BadCRLFEnd | BadInteger
    | BadBulkStringLen | BadBulkStringLenTooLong
    | BadArrayLen | BadArrayLenTooLong
    | BadMultiBulkLen

  datatype Parsed<T> = Ok(value: T, rest: seq<byte>) | Fail(error: DecodeError)

  const COLON: byte := 58
  const DOLLAR: byte := 36
  const STAR: byte := 42
  const CRLF: seq<byte> := [CR, LF]

  const MAX_ARRAY_LEN := 1024 * 1024
  const MAX_BULK_STRING_LEN := 1024 * 1024 * 512

  // ---------- writing ----------

  function EncodeLine(text: seq<byte>): seq<byte> {
    text + CRLF
  }

  function Encode(v: Value): seq<byte>
    decreases v, 0
  {
    match v
    case Integer(n) => [COLON] + EncodeLine(Decimal(n))
    case SimpleString(text) => [PLUS] + EncodeLine(text)
    case Error(text) => [MINUS] + EncodeLine(text)
    case BulkString(text) => [DOLLAR] + (EncodeLine(Decimal(|text|)) + EncodeLine(text))
    case NullBulkString => [DOLLAR] + EncodeLine(Decimal(-1))
    case Array(items) => [STAR] + (EncodeLine(Decimal(|items|)) + EncodeAll(items))
    case NullArray => [STAR] + EncodeLine(Decimal(-1))
  }

  function EncodeAll(vs: seq<Value>): seq<byte>
    decreases vs, 1
  {
    if vs == [] then [] else Encode(vs[0]) + EncodeAll(vs[1..])
  }

  // ---------- reading ----------

  /** The place of the first line feed, or the length if there is none. */
  function LineEnd(s: seq<byte>): (i: nat)
    ensures i <= |s|
    ensures i < |s| ==> s[i] == LF
    ensures forall j :: 0 <= j < i ==> s[j] != LF
  {
    if s == [] then 0
    else if s[0] == LF then 0
    else 1 + LineEnd(s[1..])
  }

  /** A line with its line feed, of any length. */
  function TakeLine(s: seq<byte>): Parsed<seq<byte>> {
    var i := LineEnd(s);
    if i < |s| then Ok(s[..i + 1], s[i + 1..]) else Fail(EndOfStream)
  }

  /** A line with its line feed that must fit a buffer of the given size. */
  function TakeShortLine(s: seq<byte>, size: nat): Parsed<seq<byte>> {
    var i := LineEnd(s);
    if i < |s| && i < size then Ok(s[..i + 1], s[i + 1..])
    else if |s| >= size then Fail(BufferFull)
    else Fail(EndOfStream)
  }

  function TakeExactly(s: seq<byte>, n: nat): Parsed<seq<byte>> {
    if n <= |s| then Ok(s[..n], s[n..])
    else Fail(if s == [] then EndOfStream else UnexpectedEnd)
  }

  predicate EndsLine(line: seq<byte>) {
    |line| >= 2 && line[|line| - 2] == CR
  }

  function ParseText(s: seq<byte>): Parsed<seq<byte>> {
    match TakeLine(s)
    case Fail(e) => Fail(e)
    case Ok(line, rest) => if EndsLine(line) then Ok(line[..|line| - 2], rest) else Fail(BadCRLFEnd)
  }

  function ParseIntLine(s: seq<byte>, size: nat): (r: Parsed<int64>)
    ensures r.Ok? ==> |r.rest| < |s|
  {
    match TakeShortLine(s, size)
    case Fail(e) => Fail(e)
    case Ok(line, rest) =>
      if !EndsLine(line) then Fail(BadCRLFEnd)
      else
        match ParseDecimal(line[..|line| - 2])
        case None => Fail(BadInteger)
        case Some(n) => Ok(n, rest)
  }

  function ParseBulk(s: seq<byte>, size: nat): (r: Parsed<Value>)
    ensures r.Ok? ==> |r.rest| < |s|
  {
    match ParseIntLine(s, size)
    case Fail(e) => Fail(e)
    case Ok(n, rest) =>
      if n < -1 then Fail(BadBulkStringLen)
      else if n > MAX_BULK_STRING_LEN then Fail(BadBulkStringLenTooLong)
      else if n == -1 then Ok(NullBulkString, rest)
      else
        match TakeExactly(rest, n + 2)
        case Fail(e) => Fail(e)
        case Ok(b, rest') =>
          if b[n] != CR || b[n + 1] != LF then Fail(BadCRLFEnd) else Ok(BulkString(b[..n]), rest')
  }

  /** The pieces between spaces, without the empty ones. */
  function Words(b: seq<byte>): seq<seq<byte>> {
    if b == [] then []
    else
      var last, ws := b[|b| - 1], Words(b[..|b| - 1]);
      if last == SPACE then ws
      else if |b| == 1 || b[|b| - 2] == SPACE || ws == [] then ws + [[last]]
      else ws[|ws| - 1 := ws[|ws| - 1] + [last]]
  }

  function Bulks(ws: seq<seq<byte>>): (r: seq<Value>)
    ensures |r| == |ws|
    ensures forall i :: 0 <= i < |ws| ==> r[i] == BulkString(ws[i])
  {
    seq(|ws|, i requires 0 <= i < |ws| => BulkString(ws[i]))
  }

  function ParseInline(s: seq<byte>): (r: Parsed<Value>)
    ensures r.Ok? ==> |r.rest| < |s|
  {
    match ParseText(s)
    case Fail(e) => Fail(e)
    case Ok(text, rest) =>
      if Words(text) == [] then Fail(BadMultiBulkLen) else Ok(Array(Bulks(Words(text))), rest)
  }

  /** One value from the front of a stream. */
  function Parse(s: seq<byte>, size: nat): (r: Parsed<Value>)
    ensures r.Ok? ==> |r.rest| < |s|
    decreases |s|, 0
  {
    if s == [] then Fail(EndOfStream)
    else
      var t := s[1..];
      if s[0] == COLON then
        match ParseIntLine(t, size)
        case Fail(e) => Fail(e)
        case Ok(n, rest) => Ok(Integer(n), rest)
      else if s[0] == PLUS || s[0] == MINUS then
        match ParseText(t)
        case Fail(e) => Fail(e)
        case Ok(text, rest) => Ok(if s[0] == PLUS then SimpleString(text) else Error(text), rest)
      else if s[0] == DOLLAR then ParseBulk(t, size)
      else if s[0] == STAR then ParseArray(t, size)
      else ParseInline(s)
  }

  function ParseArray(s: seq<byte>, size: nat): (r: Parsed<Value>)
    ensures r.Ok? ==> |r.rest| < |s|
    decreases |s|, 1
  {
    match ParseIntLine(s, size)
    case Fail(e) => Fail(e)
    case Ok(n, rest) =>
      if n < -1 then Fail(BadArrayLen)
      else if n > MAX_ARRAY_LEN then Fail(BadArrayLenTooLong)
      else if n == -1 then Ok(NullArray, rest)
      else
        match ParseMany(rest, n, size)
        case Fail(e) => Fail(e)
        case Ok(items, rest') => Ok(Array(items), rest')
  }

  /** The next n values. */
  function ParseMany(s: seq<byte>, n: nat, size: nat): (r: Parsed<seq<Value>>)
    ensures r.Ok? ==> |r.rest| <= |s| && |r.value| == n
    decreases |s|, n + 1
  {
    if n == 0 then Ok([], s)
    else
      match Parse(s, size)
      case Fail(e) => Fail(e)
      case Ok(v, rest) =>
        match ParseMany(rest, n - 1, size)
        case Fail(e) => Fail(e)
        case Ok(vs, rest') => Ok([v] + vs, rest')
  }
}
