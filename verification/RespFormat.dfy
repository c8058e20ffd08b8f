/**
 The Redis serialization protocol as a grammar over bytes, told without the encoder and the parser: the encoder
 writes exactly one byte string for each value, and the parser accepts exactly the streams that begin with a value.
 */
module RespFormat {
  import opened Basics
  import opened Bytes
  import opened RespText
  import opened Resp
  import RespRoundTrip

  // ---------- numbers ----------

  /** At least one digit, '0' to '9'. */
  predicate DigitText(s: seq<byte>) {
    |s| >= 1 && forall i :: 0 <= i < |s| ==> 48 <= s[i] <= 57
  }

  /** The number that the digits stand for, the most significant first. */
  function Number(s: seq<byte>): int {
    if s == [] then 0 else 10 * Number(s[..|s| - 1]) + (s[|s| - 1] as int - 48)
  }

  /** The shortest digits for a natural number. */
  predicate IsNatural(s: seq<byte>, n: int) {
    DigitText(s) && Number(s) == n && (|s| > 1 ==> s[0] != 48)
  }

  /** How a number is written: a minus, byte 45, only before a negative one. */
  predicate IsDecimal(s: seq<byte>, n: int) {
    if n < 0 then s != [] && s[0] == 45 && IsNatural(s[1..], -n) else IsNatural(s, n)
  }

  /** What is read as a number: an optional plus or minus, bytes 43 and 45, and digits, if the value has 64 bits. */
  predicate IntText(s: seq<byte>, n: int) {
    && -0x8000_0000_0000_0000 <= n <= 0x7fff_ffff_ffff_ffff
    && (|| (DigitText(s) && Number(s) == n)
        || (s != [] && s[0] == 43 && DigitText(s[1..]) && Number(s[1..]) == n)
        || (s != [] && s[0] == 45 && DigitText(s[1..]) && Number(s[1..]) == -n))
  }

  lemma {:induction false} NumberIsValue(s: seq<byte>)
    ensures Number(s) == RespText.Value(s)
  {
    if s != [] {
      NumberIsValue(s[..|s| - 1]);
    }
  }

  lemma {:induction false} NumberBound(s: seq<byte>)
    requires DigitText(s)
    ensures Number(s) >= 0 && (s[0] != 48 ==> Number(s) >= 1)
    decreases |s|
  {
    if |s| > 1 {
      NumberBound(s[..|s| - 1]);
    } else {
      assert s[..0] == [];
    }
  }

  lemma {:induction false} NaturalOnce(s: seq<byte>, n: nat)
    requires IsNatural(s, n)
    ensures s == Digits(n)
    decreases |s|
  {
    var init := s[..|s| - 1];
    assert s == init + [s[|s| - 1]];
    if |s| > 1 {
      NumberBound(init);
      NaturalOnce(init, n / 10);
    }
  }

  lemma {:induction false} DigitsNatural(n: nat)
    ensures IsNatural(Digits(n), n) && (n > 0 ==> Digits(n)[0] != 48)
  {
    var s := Digits(n);
    if n < 10 {
      assert s[..0] == [];
    } else {
      DigitsNatural(n / 10);
      assert s[..|s| - 1] == Digits(n / 10);
    }
  }

  /** Every number is written in one way. */
  lemma DecimalExactly(s: seq<byte>, n: int)
    ensures IsDecimal(s, n) <==> s == Decimal(n)
  {
    hide IsNatural, Digits;
    DecimalIs(n);
    if IsDecimal(s, n) {
      if n < 0 {
        NaturalOnce(s[1..], -n);
        assert s == [s[0]] + s[1..];
      } else {
        NaturalOnce(s, n);
      }
    }
  }

  lemma DecimalIs(n: int)
    ensures IsDecimal(Decimal(n), n)
  {
    hide IsNatural, Digits;
    if n < 0 {
      DigitsNatural(-n);
      assert Decimal(n)[1..] == Digits(-n);
    } else {
      DigitsNatural(n);
    }
  }

  /** The reader of numbers accepts exactly these texts. */
  lemma IntTextExactly(s: seq<byte>, n: int64)
    ensures ParseDecimal(s) == Some(n) <==> IntText(s, n)
  {
    NumberIsValue(s);
    if s != [] {
      NumberIsValue(s[1..]);
    }
    if DigitText(s) {
      NumberBound(s);
    }
  }

  // ---------- writing ----------

  /** These bytes are the value on the wire. */
  ghost predicate Wire(v: Value, b: seq<byte>) {
    match v
    case Integer(n) => exists t :: IsDecimal(t, n) && b == [58] + t + [13, 10]
    case SimpleString(text) => b == [43] + text + [13, 10]
    case Error(text) => b == [45] + text + [13, 10]
    case BulkString(text) => exists t :: IsDecimal(t, |text|) && b == [36] + t + [13, 10] + text + [13, 10]
    case NullBulkString => b == [36, 45, 49, 13, 10]
    case Array(items) =>
      exists t, parts ::
        && IsDecimal(t, |items|) && b == [42] + t + [13, 10] + Flat(parts)
        && |parts| == |items| && forall i :: 0 <= i < |items| ==> Wire(items[i], parts[i])
    case NullArray => b == [42, 45, 49, 13, 10]
  }

  /** The parts one after the other. */
  function Flat(parts: seq<seq<byte>>): seq<byte> {
    if parts == [] then [] else parts[0] + Flat(parts[1..])
  }

  lemma MinusOne()
    ensures Decimal(-1) == [45, 49]
  {
  }

  lemma PlainWire(v: Value, b: seq<byte>)
    requires !v.Array?
    ensures Wire(v, b) <==> b == Encode(v)
  {
    hide Decimal, IsDecimal;
    MinusOne();
    if v.Integer? {
      DecimalExactly(Decimal(v.n), v.n);
      if Wire(v, b) {
        var t :| IsDecimal(t, v.n) && b == [58] + t + [13, 10];
        DecimalExactly(t, v.n);
      }
      assert [58] + Decimal(v.n) + [13, 10] == Encode(v);
    } else if v.BulkString? {
      var n := |v.text|;
      DecimalExactly(Decimal(n), n);
      if Wire(v, b) {
        var t :| IsDecimal(t, n) && b == [36] + t + [13, 10] + v.text + [13, 10];
        DecimalExactly(t, n);
      }
      assert [36] + Decimal(n) + [13, 10] + v.text + [13, 10] == Encode(v);
    } else if v.SimpleString? {
      assert [43] + v.text + [13, 10] == Encode(v);
    } else if v.Error? {
      assert [45] + v.text + [13, 10] == Encode(v);
    }
  }

  lemma {:induction false} FlatEncodes(vs: seq<Value>, parts: seq<seq<byte>>)
    requires |parts| == |vs| && forall i :: 0 <= i < |vs| ==> parts[i] == Encode(vs[i])
    ensures Flat(parts) == EncodeAll(vs)
  {
    if vs != [] {
      FlatEncodes(vs[1..], parts[1..]);
    }
  }

  lemma ArrayIs(items: seq<Value>)
    ensures Encode(Array(items)) == [42] + Decimal(|items|) + [13, 10] + EncodeAll(items)
  {
    hide Decimal;
  }

  /** The encoder writes the one byte string that is the value on the wire. */
  lemma {:induction false} EncodeExactly(v: Value, b: seq<byte>)
    ensures Wire(v, b) <==> b == Encode(v)
  {
    hide Decimal, IsDecimal, Flat, EncodeAll;
    if v.Array? {
      var n := |v.items|;
      ArrayIs(v.items);
      if Wire(v, b) {
        var t, parts :| && IsDecimal(t, n) && b == [42] + t + [13, 10] + Flat(parts)
                        && |parts| == n && forall i :: 0 <= i < n ==> Wire(v.items[i], parts[i]);
        DecimalExactly(t, n);
        forall i | 0 <= i < n ensures parts[i] == Encode(v.items[i]) {
          EncodeExactly(v.items[i], parts[i]);
        }
        FlatEncodes(v.items, parts);
      }
      if b == Encode(v) {
        var parts := seq(n, i requires 0 <= i < n => Encode(v.items[i]));
        DecimalExactly(Decimal(n), n);
        FlatEncodes(v.items, parts);
        forall i | 0 <= i < n ensures Wire(v.items[i], parts[i]) {
          EncodeExactly(v.items[i], parts[i]);
        }
        assert b == [42] + Decimal(n) + [13, 10] + Flat(parts);
      }
    } else {
      PlainWire(v, b);
    }
  }

  // ---------- words of a typed line ----------

  predicate Blank(b: seq<byte>) {
    forall i :: 0 <= i < |b| ==> b[i] == 32
  }

  /** From i to j there is a word: no space, byte 32, in it, and none but spaces next to it. */
  predicate LastWord(b: seq<byte>, i: nat, j: nat) {
    i < j <= |b| && 32 !in b[i..j] && Blank(b[j..]) && (i == 0 || b[i - 1] == 32)
  }

  /** The line is made of these words and spaces. */
  ghost predicate SplitsInto(b: seq<byte>, ws: seq<seq<byte>>)
    decreases |ws|
  {
    if ws == [] then Blank(b)
    else
      exists i: nat, j: nat :: LastWord(b, i, j) && b[i..j] == ws[|ws| - 1] && SplitsInto(b[..i], ws[..|ws| - 1])
  }

  lemma {:induction false} BlankEnd(b: seq<byte>, c: seq<byte>)
    requires Blank(c)
    ensures Words(b + c) == Words(b)
  {
    if c == [] {
      assert b + c == b;
    } else {
      var init := c[..|c| - 1];
      BlankEnd(b, init);
      RespRoundTrip.WordsSpace(b + init);
      assert b + init + [32] == b + c;
    }
  }

  lemma NoWords(b: seq<byte>)
    requires Blank(b)
    ensures Words(b) == []
  {
    BlankEnd([], b);
    assert [] + b == b;
  }

  lemma LastWordOf(b: seq<byte>, i: nat, j: nat)
    requires LastWord(b, i, j)
    ensures Words(b) == Words(b[..i]) + [b[i..j]]
  {
    hide Words;
    RespRoundTrip.WordsExtend(b[..i], b[i..j]);
    BlankEnd(b[..i] + b[i..j], b[j..]);
    assert b == b[..i] + b[i..j] + b[j..];
  }

  lemma {:induction false} SplitIsWords(b: seq<byte>, ws: seq<seq<byte>>)
    requires SplitsInto(b, ws)
    ensures Words(b) == ws
    decreases |ws|
  {
    hide Words, Blank;
    if ws == [] {
      NoWords(b);
    } else {
      var i: nat, j: nat :| LastWord(b, i, j) && b[i..j] == ws[|ws| - 1] && SplitsInto(b[..i], ws[..|ws| - 1]);
      SplitIsWords(b[..i], ws[..|ws| - 1]);
      LastWordOf(b, i, j);
      assert ws == ws[..|ws| - 1] + [ws[|ws| - 1]];
    }
  }

  /** Where the last word of a text that does not end in a space begins. */
  lemma {:induction false} WordStart(b: seq<byte>, j: nat) returns (i: nat)
    requires 0 < j <= |b| && b[j - 1] != 32
    ensures i < j && 32 !in b[i..j] && (i == 0 || b[i - 1] == 32)
  {
    if j == 1 || b[j - 2] == 32 {
      i := j - 1;
      assert b[i..j] == [b[i]];
    } else {
      i := WordStart(b, j - 1);
      assert b[i..j] == b[i..j - 1] + [b[j - 1]];
    }
  }

  lemma {:induction false} WordsSplit(b: seq<byte>)
    ensures SplitsInto(b, Words(b))
    decreases |b|
  {
    hide Words;
    var j := LastNonSpace(b);
    if j == 0 {
      NoWords(b);
    } else {
      var i := WordStart(b, j);
      WordsSplit(b[..i]);
      LastWordOf(b, i, j);
      var ws := Words(b);
      assert ws[..|ws| - 1] == Words(b[..i]) && LastWord(b, i, j);
    }
  }

  lemma {:induction false} LastNonSpace(b: seq<byte>) returns (j: nat)
    ensures j <= |b| && Blank(b[j..]) && (j > 0 ==> b[j - 1] != 32)
  {
    if b == [] || b[|b| - 1] != 32 {
      j := |b|;
    } else {
      j := LastNonSpace(b[..|b| - 1]);
      assert b[j..] == b[..|b| - 1][j..] + [32];
    }
  }

  lemma WordsExactly(b: seq<byte>, ws: seq<seq<byte>>)
    ensures SplitsInto(b, ws) <==> Words(b) == ws
  {
    WordsSplit(b);
    if SplitsInto(b, ws) {
      SplitIsWords(b, ws);
    }
  }

  // ---------- reading ----------

  /** A line with a number, within a buffer of this size, and what follows it. */
  ghost predicate NumberLine(s: seq<byte>, n: int, rest: seq<byte>, size: nat) {
    exists t :: IntText(t, n) && |t| + 2 <= size && s == t + [13, 10] + rest
  }

  /** A line that ends in 13, 10 and has no other 10, and what follows it. */
  predicate TextLine(s: seq<byte>, text: seq<byte>, rest: seq<byte>) {
    10 !in text && s == text + [13, 10] + rest
  }

  /** A command typed on a line: it begins like no value. */
  ghost predicate Typed(s: seq<byte>, items: seq<Value>, rest: seq<byte>) {
    && s != [] && s[0] != 58 && s[0] != 43 && s[0] != 45 && s[0] != 36 && s[0] != 42
    && exists line, ws :: TextLine(s, line, rest) && ws != [] && SplitsInto(line, ws) && items == Bulks(ws)
  }

  /** The stream begins with this value, and the rest follows. */
  ghost predicate Reads(s: seq<byte>, v: Value, rest: seq<byte>, size: nat)
    decreases v
  {
    && s != []
    && match v
       case Integer(n) => s[0] == 58 && NumberLine(s[1..], n, rest, size)
       case SimpleString(text) => s[0] == 43 && TextLine(s[1..], text, rest)
       case Error(text) => s[0] == 45 && TextLine(s[1..], text, rest)
       case BulkString(text) =>
         && s[0] == 36 && |text| <= 536870912
         && NumberLine(s[1..], |text|, text + [13, 10] + rest, size)
       case NullBulkString => s[0] == 36 && NumberLine(s[1..], -1, rest, size)
       case NullArray => s[0] == 42 && NumberLine(s[1..], -1, rest, size)
       case Array(items) =>
         || (&& s[0] == 42 && |items| <= 1048576
             && exists rests ::
                  && IsChain(rests, |items|, rest) && NumberLine(s[1..], |items|, rests[0], size)
                  && forall i :: 0 <= i < |items| ==> Reads(rests[i], items[i], rests[i + 1], size))
         || Typed(s, items, rest)
  }

  /** What is left of the stream before each of n values and after the last. */
  predicate IsChain(rests: seq<seq<byte>>, n: nat, rest: seq<byte>) {
    |rests| == n + 1 && rests[n] == rest
  }

  lemma {:induction false} DigitsOnly(t: seq<byte>, n: int)
    requires IntText(t, n)
    ensures 10 !in t && 13 !in t
  {
    forall i | 0 <= i < |t| ensures t[i] != 10 && t[i] != 13 {
      assert i > 0 ==> t[1..][i - 1] == t[i];
    }
  }

  lemma NumberLineParses(t: seq<byte>, n: int64, rest: seq<byte>, size: nat)
    requires IntText(t, n) && |t| + 2 <= size
    ensures ParseIntLine(t + [13, 10] + rest, size) == Ok(n, rest)
  {
    hide ParseDecimal;
    DigitsOnly(t, n);
    IntTextExactly(t, n);
    hide IntText;
    RespRoundTrip.LineShape(t, rest);
    assert EncodeLine(t) + rest == t + [13, 10] + rest && EncodeLine(t)[..|t|] == t;
  }

  lemma ParsedNumberLine(s: seq<byte>, n: int64, rest: seq<byte>, size: nat)
    requires ParseIntLine(s, size) == Ok(n, rest)
    ensures NumberLine(s, n, rest, size)
  {
    hide IntText, ParseDecimal;
    var i := LineEnd(s);
    var t := s[..i - 1];
    assert s[..i + 1][..i - 1] == t;
    IntTextExactly(t, n);
    assert s == t + [13, 10] + rest;
  }

  lemma NumberLineExactly(s: seq<byte>, n: int64, rest: seq<byte>, size: nat)
    ensures ParseIntLine(s, size) == Ok(n, rest) <==> NumberLine(s, n, rest, size)
  {
    hide IntText, ParseIntLine;
    if NumberLine(s, n, rest, size) {
      var t :| IntText(t, n) && |t| + 2 <= size && s == t + [13, 10] + rest;
      NumberLineParses(t, n, rest, size);
    }
    if ParseIntLine(s, size) == Ok(n, rest) {
      ParsedNumberLine(s, n, rest, size);
    }
  }

  lemma NumberLineFits(s: seq<byte>, n: int, rest: seq<byte>, size: nat)
    requires NumberLine(s, n, rest, size)
    ensures INT64_MIN <= n <= INT64_MAX
  {
  }

  lemma TextLineExactly(s: seq<byte>, text: seq<byte>, rest: seq<byte>)
    ensures ParseText(s) == Ok(text, rest) <==> TextLine(s, text, rest)
  {
    if TextLine(s, text, rest) {
      RespRoundTrip.TextLine(text, rest);
      assert EncodeLine(text) + rest == s;
    }
    if ParseText(s) == Ok(text, rest) {
      var i := LineEnd(s);
      assert s[..i + 1][..i - 1] == text;
      assert s == text + [13, 10] + rest;
    }
  }

  lemma BulkExactly(s: seq<byte>, text: seq<byte>, rest: seq<byte>, size: nat)
    ensures ParseBulk(s, size) == Ok(BulkString(text), rest)
       <==> |text| <= 536870912 && NumberLine(s, |text|, text + [13, 10] + rest, size)
  {
    hide ParseIntLine, NumberLine;
    var after := text + [13, 10] + rest;
    if NumberLine(s, |text|, after, size) {
      NumberLineFits(s, |text|, after, size);
      NumberLineExactly(s, |text|, after, size);
      var b := after[..|text| + 2];
      assert b == text + [13, 10] && b[..|text|] == text && after[|text| + 2..] == rest;
    }
    if ParseBulk(s, size) == Ok(BulkString(text), rest) {
      var r := ParseIntLine(s, size);
      NumberLineExactly(s, r.value, r.rest, size);
      var b := r.rest[..r.value + 2];
      assert b == text + [13, 10];
      assert r.rest == after;
    }
  }

  lemma NullBulkExactly(s: seq<byte>, rest: seq<byte>, size: nat)
    ensures ParseBulk(s, size) == Ok(NullBulkString, rest) <==> NumberLine(s, -1, rest, size)
  {
    hide ParseIntLine, NumberLine;
    NumberLineExactly(s, -1, rest, size);
  }

  lemma TypedExactly(s: seq<byte>, items: seq<Value>, rest: seq<byte>)
    requires s != [] && s[0] != 58 && s[0] != 43 && s[0] != 45 && s[0] != 36 && s[0] != 42
    ensures ParseInline(s) == Ok(Array(items), rest) <==> Typed(s, items, rest)
  {
    hide ParseText, TextLine, Words, SplitsInto;
    if Typed(s, items, rest) {
      var line, ws :| TextLine(s, line, rest) && ws != [] && SplitsInto(line, ws) && items == Bulks(ws);
      TextLineExactly(s, line, rest);
      WordsExactly(line, ws);
    }
    if ParseInline(s) == Ok(Array(items), rest) {
      var line := ParseText(s).value;
      TextLineExactly(s, line, rest);
      WordsExactly(line, Words(line));
    }
  }

  lemma ParsePlainExactly(s: seq<byte>, v: Value, rest: seq<byte>, size: nat)
    requires !v.Array?
    ensures Parse(s, size) == Ok(v, rest) <==> Reads(s, v, rest, size)
  {
    hide ParseIntLine, ParseText, ParseBulk, NumberLine, TextLine, ParseInline, ParseArray;
    InlineIsArray(s);
    if s != [] {
      var t := s[1..];
      ArrayOrNull(t, rest, size);
      match v {
        case Integer(n) => NumberLineExactly(t, n, rest, size);
        case SimpleString(text) => TextLineExactly(t, text, rest);
        case Error(text) => TextLineExactly(t, text, rest);
        case BulkString(text) => BulkExactly(t, text, rest, size);
        case NullBulkString => NullBulkExactly(t, rest, size);
        case NullArray => NumberLineExactly(t, -1, rest, size);
      }
      BulkOrNull(t, size);
    }
  }

  lemma InlineIsArray(s: seq<byte>)
    ensures ParseInline(s).Ok? ==> ParseInline(s).value.Array?
  {
  }

  lemma BulkOrNull(s: seq<byte>, size: nat)
    ensures ParseBulk(s, size).Ok? ==> ParseBulk(s, size).value.BulkString? || ParseBulk(s, size).value.NullBulkString?
  {
  }

  lemma ArrayOrNull(s: seq<byte>, rest: seq<byte>, size: nat)
    ensures ParseArray(s, size).Ok? ==> ParseArray(s, size).value.Array? || ParseArray(s, size).value.NullArray?
    ensures ParseArray(s, size) == Ok(NullArray, rest) <==> ParseIntLine(s, size) == Ok(-1, rest)
  {
    hide ParseIntLine;
  }

  /** The parser reads a value off a stream exactly when the stream begins with it. */
  lemma {:induction false} ParseExactly(s: seq<byte>, v: Value, rest: seq<byte>, size: nat)
    ensures Parse(s, size) == Ok(v, rest) <==> Reads(s, v, rest, size)
    decreases v, 0
  {
    hide Parse, Typed;
    if !v.Array? {
      ParsePlainExactly(s, v, rest, size);
    } else if s == [] {
      NothingParsed(size);
    } else {
      OnlyArrays(s, size);
      if s[0] == 42 {
        NotTyped(s, v.items, rest);
        ArrayExactly(s, v.items, rest, size);
      } else if s[0] != 58 && s[0] != 43 && s[0] != 45 && s[0] != 36 {
        TypedExactly(s, v.items, rest);
      } else {
        NotTyped(s, v.items, rest);
      }
    }
  }

  lemma NothingParsed(size: nat)
    ensures Parse([], size) == Fail(EndOfStream)
  {
  }

  lemma {:induction false} ArrayExactly(s: seq<byte>, items: seq<Value>, rest: seq<byte>, size: nat)
    requires s != [] && s[0] == 42
    ensures ParseArray(s[1..], size) == Ok(Array(items), rest) <==> Reads(s, Array(items), rest, size)
    decreases items, 1
  {
    hide ParseIntLine, NumberLine, Parse, ParseMany, Typed;
    NotTyped(s, items, rest);
    var n := |items|;
    if Reads(s, Array(items), rest, size) {
      var rests :| && IsChain(rests, n, rest) && NumberLine(s[1..], n, rests[0], size)
                   && forall i :: 0 <= i < n ==> Reads(rests[i], items[i], rests[i + 1], size);
      NumberLineExactly(s[1..], n, rests[0], size);
      forall i | 0 <= i < n ensures Parse(rests[i], size) == Ok(items[i], rests[i + 1]) {
        ParseExactly(rests[i], items[i], rests[i + 1], size);
      }
      ManyParse(items, rests, size);
    }
    if ParseArray(s[1..], size) == Ok(Array(items), rest) {
      var r := ParseIntLine(s[1..], size);
      NumberLineExactly(s[1..], r.value, r.rest, size);
      var rests := ParsedMany(r.rest, items, rest, size);
      forall i | 0 <= i < n ensures Reads(rests[i], items[i], rests[i + 1], size) {
        ParseExactly(rests[i], items[i], rests[i + 1], size);
      }
    }
  }

  lemma NotTyped(s: seq<byte>, items: seq<Value>, rest: seq<byte>)
    requires s == [] || s[0] == 58 || s[0] == 43 || s[0] == 45 || s[0] == 36 || s[0] == 42
    ensures !Typed(s, items, rest)
  {
  }

  /** Arrays come from two kinds of streams only. */
  lemma OnlyArrays(s: seq<byte>, size: nat)
    requires s != []
    ensures s[0] == 42 ==> Parse(s, size) == ParseArray(s[1..], size)
    ensures s[0] == 58 || s[0] == 43 || s[0] == 45 || s[0] == 36 ==>
      (Parse(s, size).Ok? ==> !Parse(s, size).value.Array?)
    ensures s[0] != 58 && s[0] != 43 && s[0] != 45 && s[0] != 36 && s[0] != 42 ==> Parse(s, size) == ParseInline(s)
  {
    hide ParseIntLine, ParseText, ParseBulk, ParseArray, ParseInline;
    BulkOrNull(s[1..], size);
  }

  lemma {:induction false} ManyParse(vs: seq<Value>, rests: seq<seq<byte>>, size: nat)
    requires |rests| == |vs| + 1
    requires forall i :: 0 <= i < |vs| ==> Parse(rests[i], size) == Ok(vs[i], rests[i + 1])
    ensures ParseMany(rests[0], |vs|, size) == Ok(vs, rests[|vs|])
  {
    hide Parse;
    if vs != [] {
      forall i | 0 <= i < |vs| - 1 ensures Parse(rests[1..][i], size) == Ok(vs[1..][i], rests[1..][i + 1]) {
        assert Parse(rests[i + 1], size) == Ok(vs[i + 1], rests[i + 2]);
      }
      ManyParse(vs[1..], rests[1..], size);
      assert [vs[0]] + vs[1..] == vs;
    }
  }

  lemma {:induction false} ParsedMany(s: seq<byte>, vs: seq<Value>, rest: seq<byte>, size: nat)
    returns (rests: seq<seq<byte>>)
    requires ParseMany(s, |vs|, size) == Ok(vs, rest)
    ensures IsChain(rests, |vs|, rest) && rests[0] == s
    ensures forall i :: 0 <= i < |vs| ==> Parse(rests[i], size) == Ok(vs[i], rests[i + 1])
    decreases vs
  {
    hide Parse;
    if vs == [] {
      rests := [s];
    } else {
      var first := Parse(s, size);
      var others := ParseMany(first.rest, |vs| - 1, size);
      assert [first.value] + others.value == vs;
      assert others.value == vs[1..];
      var more := ParsedMany(first.rest, vs[1..], rest, size);
      rests := [s] + more;
      forall i | 0 <= i < |vs| ensures Parse(rests[i], size) == Ok(vs[i], rests[i + 1]) {
        if i > 0 {
          assert Parse(more[i - 1], size) == Ok(vs[1..][i - 1], more[i]);
        }
      }
    }
  }

  // ---------- refusals ----------

  /** A line without its end within the buffer. */
  lemma NumberUnfinished(s: seq<byte>, size: nat)
    requires forall i :: 0 <= i < |s| && i < size ==> s[i] != 10
    ensures ParseIntLine(s, size) == Fail(if |s| >= size then BufferFull else EndOfStream)
  {
  }

  ghost predicate IsNumber(t: seq<byte>) {
    exists n :: IntText(t, n)
  }

  /** A line within the buffer that does not end in 13, 10, or holds no 64-bit number. */
  lemma NumberRefused(t: seq<byte>, rest: seq<byte>, size: nat)
    requires 10 !in t && |t| + 1 <= size
    ensures t == [] || t[|t| - 1] != 13 ==> ParseIntLine(t + [10] + rest, size) == Fail(BadCRLFEnd)
    ensures t != [] && t[|t| - 1] == 13 && !IsNumber(t[..|t| - 1]) ==>
      ParseIntLine(t + [10] + rest, size) == Fail(BadInteger)
  {
    hide IntText, ParseDecimal;
    RespRoundTrip.LineEndOf(t, rest);
    var s := t + [10] + rest;
    assert s[..|t| + 1] == t + [10];
    if t != [] && t[|t| - 1] == 13 && !IsNumber(t[..|t| - 1]) {
      assert (t + [10])[..|t| - 1] == t[..|t| - 1];
      if ParseDecimal(t[..|t| - 1]).Some? {
        IntTextExactly(t[..|t| - 1], ParseDecimal(t[..|t| - 1]).value);
      }
    }
  }

  /** A line of text without an end, or with the wrong one. */
  lemma TextRefused(t: seq<byte>, rest: seq<byte>)
    requires 10 !in t
    ensures ParseText(t) == Fail(EndOfStream)
    ensures t == [] || t[|t| - 1] != 13 ==> ParseText(t + [10] + rest) == Fail(BadCRLFEnd)
  {
    RespRoundTrip.LineEndOf(t, rest);
    var s := t + [10] + rest;
    assert s[..|t| + 1] == t + [10];
  }

  /** What is wrong with a bulk string whose length line is right: the length, the end of the stream, the line end. */
  lemma BulkRefused(s: seq<byte>, n: int64, rest: seq<byte>, size: nat)
    requires s != [] && s[0] == 36 && NumberLine(s[1..], n, rest, size)
    ensures n < -1 ==> Parse(s, size) == Fail(BadBulkStringLen)
    ensures n > 536870912 ==> Parse(s, size) == Fail(BadBulkStringLenTooLong)
    ensures 0 <= n <= 536870912 && |rest| < n + 2 ==>
      Parse(s, size) == Fail(if rest == [] then EndOfStream else UnexpectedEnd)
    ensures 0 <= n <= 536870912 && |rest| >= n + 2 && rest[n..n + 2] != [13, 10] ==> Parse(s, size) == Fail(BadCRLFEnd)
  {
    hide ParseIntLine, NumberLine;
    NumberLineExactly(s[1..], n, rest, size);
    if 0 <= n <= 536870912 && |rest| >= n + 2 {
      var b := rest[..n + 2];
      assert rest[n..n + 2] == [b[n], b[n + 1]];
    }
  }

  /** What is wrong with an array whose length line is right: the length, or the first item that is refused. */
  lemma ArrayRefused(s: seq<byte>, n: int64, rest: seq<byte>, size: nat)
    requires s != [] && s[0] == 42 && NumberLine(s[1..], n, rest, size)
    ensures n < -1 ==> Parse(s, size) == Fail(BadArrayLen)
    ensures n > 1048576 ==> Parse(s, size) == Fail(BadArrayLenTooLong)
    ensures forall vs: seq<Value>, rests: seq<seq<byte>> ::
      && 0 <= n <= 1048576 && |vs| < n && |rests| == |vs| + 1 && rests[0] == rest
      && (forall i :: 0 <= i < |vs| ==> Reads(rests[i], vs[i], rests[i + 1], size))
      && Parse(rests[|vs|], size).Fail?
      ==> Parse(s, size) == Fail(Parse(rests[|vs|], size).error)
  {
    hide ParseIntLine, NumberLine, Reads, ParseMany;
    NumberLineExactly(s[1..], n, rest, size);
    forall vs: seq<Value>, rests: seq<seq<byte>>
      | && 0 <= n <= 1048576 && |vs| < n && |rests| == |vs| + 1 && rests[0] == rest
        && (forall i :: 0 <= i < |vs| ==> Reads(rests[i], vs[i], rests[i + 1], size))
        && Parse(rests[|vs|], size).Fail?
      ensures ParseMany(rest, n, size) == Fail(Parse(rests[|vs|], size).error)
    {
      ManyRefused(vs, rests, n, size);
    }
  }

  lemma {:induction false} ManyRefused(vs: seq<Value>, rests: seq<seq<byte>>, n: nat, size: nat)
    requires |vs| < n && |rests| == |vs| + 1 && Parse(rests[|vs|], size).Fail?
    requires forall i :: 0 <= i < |vs| ==> Reads(rests[i], vs[i], rests[i + 1], size)
    ensures ParseMany(rests[0], n, size) == Fail(Parse(rests[|vs|], size).error)
    decreases n
  {
    hide Parse, Reads;
    if vs != [] {
      ParseExactly(rests[0], vs[0], rests[1], size);
      forall i | 0 <= i < |vs| - 1 ensures Reads(rests[1..][i], vs[1..][i], rests[1..][i + 1], size) {
        assert Reads(rests[i + 1], vs[i + 1], rests[i + 2], size);
      }
      ManyRefused(vs[1..], rests[1..], n - 1, size);
    }
  }

  /** A typed line of nothing but spaces. */
  lemma BlankRefused(line: seq<byte>, rest: seq<byte>, size: nat)
    requires Blank(line)
    ensures Parse(line + [13, 10] + rest, size) == Fail(BadMultiBulkLen)
  {
    var s := line + [13, 10] + rest;
    TextLineExactly(s, line, rest);
    NoWords(line);
    assert s[0] == if line == [] then 13 else 32;
  }
}
