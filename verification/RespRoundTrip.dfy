/** What is written can be read back: which values, and exactly which. */
module RespRoundTrip {
  import opened Bytes
  import opened RespText
  import opened Resp

  /** Room for the longest length line, a sign, 19 digits and the line end. */
  const MIN_SIZE := 22

  /** No line feed in one-line texts, and lengths the decoder accepts, at every depth. */
  ghost predicate WellFormed(v: Value) {
    match v
    case SimpleString(text) => LF !in text
    case Error(text) => LF !in text
    case BulkString(text) => |text| <= MAX_BULK_STRING_LEN
    case Array(items) => |items| <= MAX_ARRAY_LEN && forall i :: 0 <= i < |items| ==> WellFormed(items[i])
    case _ => true
  }

  lemma LineEndOf(text: seq<byte>, rest: seq<byte>)
    requires LF !in text
    ensures LineEnd(text + [LF] + rest) == |text|
  {
    var s := text + [LF] + rest;
    assert s[|text|] == LF;
    assert forall i :: 0 <= i < |text| ==> s[i] == text[i];
  }

  lemma LineShape(text: seq<byte>, rest: seq<byte>)
    requires LF !in text
    ensures LineEnd(EncodeLine(text) + rest) == |text| + 1
    ensures (EncodeLine(text) + rest)[..|text| + 2] == EncodeLine(text)
    ensures (EncodeLine(text) + rest)[|text| + 2..] == rest
  {
    LineEndOf(text + [CR], rest);
    assert EncodeLine(text) + rest == (text + [CR]) + [LF] + rest;
  }

  lemma TextLine(text: seq<byte>, rest: seq<byte>)
    requires LF !in text
    ensures ParseText(EncodeLine(text) + rest) == Ok(text, rest)
  {
    LineShape(text, rest);
  }

  lemma IntLine(n: int64, rest: seq<byte>, size: nat)
    requires size >= MIN_SIZE
    ensures ParseIntLine(EncodeLine(Decimal(n)) + rest, size) == Ok(n, rest)
  {
    DecimalFits(n);
    ParseOfDecimal(n);
    LineShape(Decimal(n), rest);
    assert EncodeLine(Decimal(n))[..|Decimal(n)|] == Decimal(n);
  }

  lemma Cons(b: byte, s: seq<byte>, rest: seq<byte>)
    ensures ([b] + s + rest)[0] == b && ([b] + s + rest)[1..] == s + rest
  {
  }

  lemma BulkBody(text: seq<byte>, rest: seq<byte>, size: nat)
    requires size >= MIN_SIZE && |text| <= MAX_BULK_STRING_LEN
    ensures ParseBulk(EncodeLine(Decimal(|text|)) + EncodeLine(text) + rest, size) == Ok(BulkString(text), rest)
  {
    var body := EncodeLine(text) + rest;
    IntLine(|text|, body, size);
    assert EncodeLine(Decimal(|text|)) + EncodeLine(text) + rest == EncodeLine(Decimal(|text|)) + body;
    var b := body[..|text| + 2];
    assert b == EncodeLine(text) && b[..|text|] == text && body[|text| + 2..] == rest;
  }

  lemma NullBulkBody(rest: seq<byte>, size: nat)
    requires size >= MIN_SIZE
    ensures ParseBulk(EncodeLine(Decimal(-1)) + rest, size) == Ok(NullBulkString, rest)
  {
    IntLine(-1, rest, size);
  }

  /**
   Decoding the encoding of a well-formed value, whatever follows it, gives the value back and
   leaves what follows. Null and empty stay apart at every depth, as they are different values.
   */
  lemma {:induction false} RoundTrip(v: Value, rest: seq<byte>, size: nat)
    requires size >= MIN_SIZE && WellFormed(v)
    ensures Parse(Encode(v) + rest, size) == Ok(v, rest)
    decreases v, 0
  {
    hide ParseIntLine, ParseText, ParseBulk, ParseInline, EncodeLine, Decimal;
    match v
    case Integer(n) =>
      Cons(COLON, EncodeLine(Decimal(n)), rest);
      IntLine(n, rest, size);
    case SimpleString(text) =>
      Cons(PLUS, EncodeLine(text), rest);
      TextLine(text, rest);
    case Error(text) =>
      Cons(MINUS, EncodeLine(text), rest);
      TextLine(text, rest);
    case BulkString(text) =>
      Cons(DOLLAR, EncodeLine(Decimal(|text|)) + EncodeLine(text), rest);
      BulkBody(text, rest, size);
    case NullBulkString =>
      Cons(DOLLAR, EncodeLine(Decimal(-1)), rest);
      NullBulkBody(rest, size);
    case NullArray =>
      Cons(STAR, EncodeLine(Decimal(-1)), rest);
      IntLine(-1, rest, size);
    case Array(items) =>
      ArrayHeader(items, rest, size);
      RoundTripAll(items, rest, size);
  }

  lemma ArrayHeader(items: seq<Value>, rest: seq<byte>, size: nat)
    requires size >= MIN_SIZE && |items| <= MAX_ARRAY_LEN
    ensures Parse(Encode(Array(items)) + rest, size)
         == match ParseMany(EncodeAll(items) + rest, |items|, size)
            case Fail(e) => Fail(e)
            case Ok(vs, rest') => Ok(Array(vs), rest')
  {
    hide ParseIntLine, ParseText, ParseBulk, ParseInline, EncodeLine, Decimal, EncodeAll, ParseMany;
    var line, body := EncodeLine(Decimal(|items|)), EncodeAll(items);
    Cons(STAR, line + body, rest);
    assert line + body + rest == line + (body + rest);
    IntLine(|items|, body + rest, size);
  }

  lemma EncodeFirst(vs: seq<Value>, rest: seq<byte>)
    requires vs != []
    ensures EncodeAll(vs) + rest == Encode(vs[0]) + (EncodeAll(vs[1..]) + rest)
  {
  }

  /** The same for any list of values sent one after the other. */
  lemma {:induction false} RoundTripAll(vs: seq<Value>, rest: seq<byte>, size: nat)
    requires size >= MIN_SIZE && forall i :: 0 <= i < |vs| ==> WellFormed(vs[i])
    ensures ParseMany(EncodeAll(vs) + rest, |vs|, size) == Ok(vs, rest)
    decreases vs, 1
  {
    if vs == [] {
      assert [] + rest == rest;
    } else {
      EncodeFirst(vs, rest);
      RoundTrip(vs[0], EncodeAll(vs[1..]) + rest, size);
      RoundTripAll(vs[1..], rest, size);
      assert [vs[0]] + vs[1..] == vs;
    }
  }

  lemma BrokenText(text: seq<byte>, rest: seq<byte>)
    requires LF in text
    ensures var r := ParseText(EncodeLine(text) + rest); r.Ok? ==> |r.value| < |text|
  {
    var i :| 0 <= i < |text| && text[i] == LF;
    var s := EncodeLine(text) + rest;
    assert s[i] == LF;
  }

  /** Only well-formed values survive: a value that decodes from its own encoding is well formed. */
  lemma {:induction false} OnlyWellFormed(v: Value, rest: seq<byte>, rest': seq<byte>, size: nat)
    requires size >= MIN_SIZE && Parse(Encode(v) + rest, size) == Ok(v, rest')
    ensures WellFormed(v)
    decreases v, 0
  {
    if v.Array? {
      hide ParseIntLine;
      ArrayHeader(v.items, rest, size);
      OnlyWellFormedAll(v.items, rest, rest', size);
    } else {
      OnlyPlainWellFormed(v, rest, rest', size);
    }
  }

  lemma OnlyPlainWellFormed(v: Value, rest: seq<byte>, rest': seq<byte>, size: nat)
    requires Parse(Encode(v) + rest, size) == Ok(v, rest') && !v.Array?
    ensures WellFormed(v)
  {
    hide ParseText, ParseIntLine, EncodeLine;
    match v
    case SimpleString(text) =>
      Cons(PLUS, EncodeLine(text), rest);
      if LF in text { BrokenText(text, rest); }
    case Error(text) =>
      Cons(MINUS, EncodeLine(text), rest);
      if LF in text { BrokenText(text, rest); }
    case _ =>
  }

  lemma {:induction false} OnlyWellFormedAll(vs: seq<Value>, rest: seq<byte>, rest': seq<byte>, size: nat)
    requires size >= MIN_SIZE && ParseMany(EncodeAll(vs) + rest, |vs|, size) == Ok(vs, rest')
    ensures forall i :: 0 <= i < |vs| ==> WellFormed(vs[i])
    decreases vs, 1
  {
    if vs != [] {
      var tail := EncodeAll(vs[1..]) + rest;
      EncodeFirst(vs, rest);
      var first := Parse(Encode(vs[0]) + tail, size);
      assert first.Ok? && first.value == vs[0];
      OnlyWellFormed(vs[0], tail, first.rest, size);
      RoundTrip(vs[0], tail, size);
      assert ParseMany(tail, |vs| - 1, size).value == vs[1..];
      OnlyWellFormedAll(vs[1..], rest, rest', size);
      assert forall i :: 0 < i < |vs| ==> vs[i] == vs[1..][i - 1];
    }
  }

  /** Both ways: a value comes back from its encoding exactly when it is well formed. */
  lemma RoundTripExactly(v: Value, rest: seq<byte>, size: nat)
    requires size >= MIN_SIZE
    ensures Parse(Encode(v) + rest, size) == Ok(v, rest) <==> WellFormed(v)
  {
    if WellFormed(v) {
      RoundTrip(v, rest, size);
    } else if Parse(Encode(v) + rest, size) == Ok(v, rest) {
      OnlyWellFormed(v, rest, rest, size);
    }
  }

  /** Different well-formed values never share an encoding, nor does one start another. */
  lemma PrefixFree(v: Value, w: Value, rest: seq<byte>)
    requires WellFormed(v) && WellFormed(w) && Encode(v) + rest == Encode(w)
    ensures v == w && rest == []
  {
    RoundTrip(v, rest, MIN_SIZE);
    RoundTrip(w, [], MIN_SIZE);
    assert Encode(w) + [] == Encode(w);
  }

  /** A smaller buffer would not do: the least 64-bit integer needs all 22 bytes. */
  lemma SmallerBufferFails()
    ensures exists v :: WellFormed(v) && Parse(Encode(v), MIN_SIZE - 1) == Fail(BufferFull)
  {
    var n: int64 := INT64_MIN;
    var line := EncodeLine(Decimal(n));
    assert |Decimal(n)| == 20 by { MinLength(); }
    DecimalFits(n);
    LineShape(Decimal(n), []);
    assert line + [] == line;
    assert ([COLON] + line)[1..] == line;
    assert Parse(Encode(Integer(n)), MIN_SIZE - 1) == Fail(BufferFull);
    assert WellFormed(Integer(n));
  }

  lemma {:induction false} DigitsLengthAtLeast(n: nat, k: nat)
    requires n >= Pow10(k)
    ensures |Digits(n)| >= k + 1
  {
    if k > 0 {
      DigitsLengthAtLeast(n / 10, k - 1);
    }
  }

  lemma MinLength()
    ensures |Decimal(INT64_MIN)| == 20
  {
    assert Pow10(4) == 10_000;
    assert Pow10(8) == 100_000_000;
    assert Pow10(12) == 1_000_000_000_000;
    assert Pow10(16) == 10_000_000_000_000_000;
    assert Pow10(18) == 1_000_000_000_000_000_000;
    DigitsLengthAtLeast(-INT64_MIN, 18);
    DecimalFits(INT64_MIN);
  }

  // ---------- inline commands ----------

  function Join(ws: seq<seq<byte>>): seq<byte> {
    if ws == [] then []
    else if |ws| == 1 then ws[0]
    else Join(ws[..|ws| - 1]) + [SPACE] + ws[|ws| - 1]
  }

  ghost predicate IsWord(w: seq<byte>) {
    w != [] && SPACE !in w
  }

  lemma WordsGrow(b: seq<byte>, last: byte)
    requires b != [] && b[|b| - 1] != SPACE && last != SPACE && Words(b) != []
    ensures var ws := Words(b); Words(b + [last]) == ws[..|ws| - 1] + [ws[|ws| - 1] + [last]]
  {
    var s := b + [last];
    assert s[..|s| - 1] == b && s[|s| - 2] == b[|b| - 1];
  }

  lemma WordsBegin(b: seq<byte>, last: byte)
    requires (b == [] || b[|b| - 1] == SPACE) && last != SPACE
    ensures Words(b + [last]) == Words(b) + [[last]]
  {
    var s := b + [last];
    assert s[..|s| - 1] == b;
    assert |s| > 1 ==> s[|s| - 2] == b[|b| - 1];
  }

  lemma {:induction false} WordsExtend(b: seq<byte>, w: seq<byte>)
    requires IsWord(w) && (b == [] || b[|b| - 1] == SPACE)
    ensures Words(b + w) == Words(b) + [w]
  {
    hide Words;
    var n := |w|;
    if n == 1 {
      assert w == [w[0]];
      WordsBegin(b, w[0]);
    } else {
      var init, last := w[..n - 1], w[n - 1];
      WordsExtend(b, init);
      assert init + [last] == w && b + init + [last] == b + w;
      WordsGrow(b + init, last);
    }
  }

  lemma WordsSpace(b: seq<byte>)
    ensures Words(b + [SPACE]) == Words(b) && Words([]) == []
  {
    assert (b + [SPACE])[..|b|] == b;
  }

  /** Words are the inverse of joining by single spaces. */
  lemma {:induction false} WordsOfJoin(ws: seq<seq<byte>>)
    requires forall i :: 0 <= i < |ws| ==> IsWord(ws[i])
    ensures Words(Join(ws)) == ws
  {
    hide Words;
    WordsSpace([]);
    if |ws| == 1 {
      WordsExtend([], ws[0]);
      assert [] + ws[0] == ws[0];
      assert [] + [ws[0]] == ws;
    } else if ws != [] {
      var init, w := ws[..|ws| - 1], ws[|ws| - 1];
      WordsOfJoin(init);
      WordsSpace(Join(init));
      WordsExtend(Join(init) + [SPACE], w);
      assert init + [w] == ws;
    }
  }

  /** A typed line means what the array of its words means. */
  lemma InlineIsArray(ws: seq<seq<byte>>, rest: seq<byte>, size: nat)
    requires size >= MIN_SIZE && 0 < |ws| <= MAX_ARRAY_LEN
    requires forall i :: 0 <= i < |ws| ==> IsWord(ws[i]) && LF !in ws[i] && |ws[i]| <= MAX_BULK_STRING_LEN
    requires IsWord(ws[0]) && ws[0][0] !in {COLON, PLUS, MINUS, DOLLAR, STAR}
    ensures Parse(EncodeLine(Join(ws)) + rest, size) == Parse(Encode(Array(Bulks(ws))) + rest, size)
  {
    RoundTrip(Array(Bulks(ws)), rest, size);
    JoinFacts(ws);
    TextLine(Join(ws), rest);
    WordsOfJoin(ws);
    assert (EncodeLine(Join(ws)) + rest)[0] == ws[0][0];
  }

  lemma {:induction false} JoinFacts(ws: seq<seq<byte>>)
    requires ws != [] && (forall i :: 0 <= i < |ws| ==> IsWord(ws[i]) && LF !in ws[i]) && IsWord(ws[0])
    ensures LF !in Join(ws) && Join(ws) != [] && Join(ws)[0] == ws[0][0]
  {
    if |ws| > 1 {
      JoinFacts(ws[..|ws| - 1]);
    }
  }
}
