/** Transparent compression of values on their way in and out, over any lossless codec. */
module Compress {
  import opened Basics
  import opened Bytes
  import opened RespText
  import opened Resp
  import opened Slices

  const MAGIC: seq<byte> := [40, 80, 36]
  const HEADER_LENGTH: nat := 6

  datatype Codec = Codec(encode: seq<byte> -> Option<seq<byte>>, decode: seq<byte> -> Option<seq<byte>>)

  datatype Config = Config(algorithm: byte, threshold: nat)

  /** The registered algorithms undo themselves. */
  ghost predicate Lossless(codecs: map<byte, Codec>) {
    forall a, x :: a in codecs && codecs[a].encode(x).Some? ==>
      codecs[a].decode(codecs[a].encode(x).value) == Some(x)
  }

  function Header(algorithm: byte): (h: seq<byte>)
    ensures |h| == HEADER_LENGTH && h[..3] == MAGIC && h[3] == algorithm
  {
    MAGIC + [algorithm, CR, LF]
  }

  // ---------- one text ----------

  /** The text with header and compressed content if that is shorter, else the text itself. */
  function CompressText(codecs: map<byte, Codec>, algorithm: byte, src: seq<byte>): seq<byte> {
    if algorithm !in codecs then src
    else
      match codecs[algorithm].encode(src)
      case None => src
      case Some(packed) =>
        var whole := Header(algorithm) + packed;
        if |whole| >= |src| then src else whole
  }

  /** The content behind a header; the line end in it is not looked at. */
  function Decode(codecs: map<byte, Codec>, src: seq<byte>): Option<seq<byte>> {
    if |src| < HEADER_LENGTH || src[..3] != MAGIC || src[3] !in codecs then None
    else codecs[src[3]].decode(src[HEADER_LENGTH..])
  }

  function DecompressText(codecs: map<byte, Codec>, src: seq<byte>): seq<byte> {
    match Decode(codecs, src)
    case None => src
    case Some(dst) => dst
  }

  lemma DecodeHeader(codecs: map<byte, Codec>, algorithm: byte, packed: seq<byte>)
    requires algorithm in codecs
    ensures Decode(codecs, Header(algorithm) + packed) == codecs[algorithm].decode(packed)
  {
    var whole := Header(algorithm) + packed;
    assert whole[..3] == MAGIC && whole[3] == algorithm && whole[HEADER_LENGTH..] == packed;
  }

  /** Nothing is gained: no such algorithm, a failing encoder, or header and content no shorter than the text. */
  predicate NotShortened(codecs: map<byte, Codec>, algorithm: byte, src: seq<byte>) {
    || algorithm !in codecs
    || codecs[algorithm].encode(src).None?
    || HEADER_LENGTH + |codecs[algorithm].encode(src).value| >= |src|
  }

  /** A reader takes it for compressed: magic number, known algorithm, content that decodes to another text. */
  predicate LooksCompressed(codecs: map<byte, Codec>, src: seq<byte>) {
    && |src| >= HEADER_LENGTH && src[..3] == MAGIC && src[3] in codecs
    && var content := codecs[src[3]].decode(src[HEADER_LENGTH..]);
       content.Some? && content.value != src
  }

  /** A text is kept as it is exactly when nothing is gained, and is never kept longer. */
  lemma KeptRaw(codecs: map<byte, Codec>, algorithm: byte, src: seq<byte>)
    ensures var kept := CompressText(codecs, algorithm, src);
            |kept| <= |src| && (kept == src <==> NotShortened(codecs, algorithm, src))
  {
  }

  /** What is read back is what was written, except exactly for texts left raw that look compressed. */
  lemma TextRoundTrip(codecs: map<byte, Codec>, algorithm: byte, src: seq<byte>)
    requires Lossless(codecs)
    ensures DecompressText(codecs, CompressText(codecs, algorithm, src)) == src
       <==> !(NotShortened(codecs, algorithm, src) && LooksCompressed(codecs, src))
  {
    if NotShortened(codecs, algorithm, src) {
      KeptRaw(codecs, algorithm, src);
    } else {
      hide Decode, Header, LooksCompressed;
      var packed := codecs[algorithm].encode(src).value;
      DecodeHeader(codecs, algorithm, packed);
      assert codecs[algorithm].decode(packed) == Some(src);
    }
  }

  // ---------- a request ----------

  /** Where the values of a command begin; the other commands carry none to compress. */
  function Offset(command: string): Option<nat> {
    if command in ["set", "getset", "setnx"] then Some(2)
    else if command in ["hset", "hmset", "hsetnx", "psetex", "setex"] then Some(3)
    else None
  }

  predicate IsValue(command: string, i: nat) {
    match Offset(command)
    case None => false
    case Some(offset) => offset <= i && (i - offset) % 2 == 0
  }

  function CompressArg(codecs: map<byte, Codec>, cfg: Config, command: string, i: nat, text: seq<byte>): seq<byte> {
    if IsValue(command, i) && |text| >= cfg.threshold then CompressText(codecs, cfg.algorithm, text) else text
  }

  /** The compressed form is copied over the text it came from. */
  method CompressInPlace(codecs: map<byte, Codec>, algorithm: byte, src: Slice) returns (dst: Slice)
    requires Within(src)
    modifies src.arr
    ensures dst.arr == src.arr && dst.lo == src.lo && dst.hi <= src.hi && Within(dst)
    ensures Content(dst) == CompressText(codecs, algorithm, old(Content(src)))
    ensures forall k :: 0 <= k < src.arr.Length && !(src.lo <= k < src.hi) ==> src.arr[k] == old(src.arr[k])
  {
    if algorithm !in codecs {
      return src;
    }
    match codecs[algorithm].encode(Content(src)) {
      case None => return src;
      case Some(packed) =>
        var whole := Header(algorithm) + packed;
        if |whole| >= src.hi - src.lo {
          return src;
        }
        dst := Overwrite(src, whole);
    }
  }

  /** The arguments as slices, pairwise apart, of known arrays. */
  ghost predicate Laid(args: array<Slice>, arrs: set<array<byte>>)
    reads args
  {
    AllApart(args[..]) && forall i :: 0 <= i < args.Length ==> Within(args[i]) && args[i].arr in arrs
  }

  ghost function Texts(args: array<Slice>, arrs: set<array<byte>>): (r: seq<seq<byte>>)
    requires Laid(args, arrs)
    reads args, arrs
    ensures |r| == args.Length
  {
    seq(args.Length, i requires 0 <= i < args.Length && Within(args[i]) && args[i].arr in arrs
                     reads args, arrs => Content(args[i]))
  }

  /** One argument is compressed where it stands; every other one, even in the same array, keeps its bytes. */
  method CompressAt(codecs: map<byte, Codec>, algorithm: byte, args: array<Slice>, i: nat,
                    ghost arrs: set<array<byte>>)
    requires Laid(args, arrs) && i < args.Length
    modifies args, arrs
    ensures Laid(args, arrs)
    ensures Texts(args, arrs)
         == old(Texts(args, arrs))[i := CompressText(codecs, algorithm, old(Texts(args, arrs))[i])]
  {
    hide CompressText;
    var r := args[i];
    ghost var was := args[..];
    var dst := CompressInPlace(codecs, algorithm, r);
    forall j | 0 <= j < args.Length && j != i ensures Content(was[j]) == old(Content(was[j])) {
      assert Apart(was[i], was[j]) || Apart(was[j], was[i]);
    }
    args[i] := dst;
    StillApart(was, i, dst);
    assert args[..] == was[i := dst];
  }

  lemma StillApart(ss: seq<Slice>, i: nat, dst: Slice)
    requires AllApart(ss) && i < |ss| && Within(dst)
    requires dst.arr == ss[i].arr && dst.lo == ss[i].lo && dst.hi <= ss[i].hi
    ensures AllApart(ss[i := dst])
  {
  }

  lemma TextLength(args: array<Slice>, arrs: set<array<byte>>, i: nat)
    requires Laid(args, arrs) && i < args.Length
    ensures |Texts(args, arrs)[i]| == args[i].hi - args[i].lo
  {
  }

  /** The arguments before position n went through the pass, the others are as they were. */
  ghost predicate PassedUpTo(codecs: map<byte, Codec>, cfg: Config, command: string,
                             was: seq<seq<byte>>, texts: seq<seq<byte>>, n: nat)
  {
    && |texts| == |was|
    && forall j :: 0 <= j < |was| ==>
         texts[j] == if j < n then CompressArg(codecs, cfg, command, j, was[j]) else was[j]
  }

  lemma PassBegins(codecs: map<byte, Codec>, cfg: Config, command: string, was: seq<seq<byte>>)
    ensures Offset(command).None? ==> PassedUpTo(codecs, cfg, command, was, was, |was|)
    ensures Offset(command).Some? ==> PassedUpTo(codecs, cfg, command, was, was, Offset(command).value)
  {
    hide CompressText;
  }

  lemma PassNext(codecs: map<byte, Codec>, cfg: Config, command: string,
                 was: seq<seq<byte>>, texts: seq<seq<byte>>, i: nat)
    requires PassedUpTo(codecs, cfg, command, was, texts, i) && i < |was| && IsValue(command, i)
    ensures |texts[i]| >= cfg.threshold ==>
      PassedUpTo(codecs, cfg, command, was, texts[i := CompressText(codecs, cfg.algorithm, texts[i])], i + 2)
    ensures |texts[i]| < cfg.threshold ==> PassedUpTo(codecs, cfg, command, was, texts, i + 2)
  {
    hide CompressText, IsValue;
    EveryOther(command, i);
  }

  lemma EveryOther(command: string, i: nat)
    requires IsValue(command, i)
    ensures !IsValue(command, i + 1)
  {
  }

  lemma PassEnds(codecs: map<byte, Codec>, cfg: Config, command: string,
                 was: seq<seq<byte>>, texts: seq<seq<byte>>, i: nat)
    requires PassedUpTo(codecs, cfg, command, was, texts, i) && i >= |was|
    ensures PassedUpTo(codecs, cfg, command, was, texts, |was|)
  {
    hide CompressArg;
  }

  method CompressRequest(codecs: map<byte, Codec>, cfg: Config, command: string, args: array<Slice>,
                         ghost arrs: set<array<byte>>)
    requires Laid(args, arrs)
    modifies args, arrs
    ensures Laid(args, arrs)
    ensures PassedUpTo(codecs, cfg, command, old(Texts(args, arrs)), Texts(args, arrs), args.Length)
  {
    hide CompressText, AllApart, Texts, PassedUpTo;
    ghost var was := Texts(args, arrs);
    PassBegins(codecs, cfg, command, was);
    var offset := Offset(command);
    if offset == None {
      return;
    }
    var i := offset.value;
    while i < args.Length
      invariant offset.value <= i && (i - offset.value) % 2 == 0
      invariant Laid(args, arrs)
      invariant PassedUpTo(codecs, cfg, command, was, Texts(args, arrs), i)
    {
      TextLength(args, arrs, i);
      PassNext(codecs, cfg, command, was, Texts(args, arrs), i);
      if args[i].hi - args[i].lo >= cfg.threshold {
        CompressAt(codecs, cfg.algorithm, args, i, arrs);
      }
      i := i + 2;
    }
    PassEnds(codecs, cfg, command, was, Texts(args, arrs), i);
  }

  /** Commands with values at 2, 4, 6 and so on, and those with values at 3, 5, 7 and so on. */
  predicate FromTwo(command: string) {
    command == "set" || command == "getset" || command == "setnx"
  }

  predicate FromThree(command: string) {
    || command == "hset" || command == "hmset" || command == "hsetnx"
    || command == "psetex" || command == "setex"
  }

  lemma ValuePositions(command: string, i: nat)
    ensures IsValue(command, i) <==>
      || (FromTwo(command) && i >= 2 && i % 2 == 0)
      || (FromThree(command) && i >= 3 && i % 2 == 1)
  {
    if FromThree(command) && i >= 3 {
      assert (i - 3) % 2 == 0 <==> i % 2 == 1;
    }
  }

  /** The bytes a text is stored as: the magic number "(P$", the algorithm, a line end and the encoded text. */
  lemma StoredForm(codecs: map<byte, Codec>, algorithm: byte, src: seq<byte>)
    ensures CompressText(codecs, algorithm, src)
         == if algorithm in codecs && codecs[algorithm].encode(src).Some?
                && |codecs[algorithm].encode(src).value| + 6 < |src|
            then [40, 80, 36, algorithm, 13, 10] + codecs[algorithm].encode(src).value
            else src
  {
    assert Header(algorithm) == [40, 80, 36, algorithm, 13, 10];
  }

  /** What is read off stored bytes: behind the magic number and a known algorithm, two bytes are skipped. */
  lemma ReadForm(codecs: map<byte, Codec>, algorithm: byte, x: byte, y: byte, packed: seq<byte>, src: seq<byte>)
    ensures algorithm in codecs ==>
      DecompressText(codecs, [40, 80, 36, algorithm, x, y] + packed)
      == (match codecs[algorithm].decode(packed)
          case Some(dst) => dst
          case None => [40, 80, 36, algorithm, x, y] + packed)
    ensures |src| < 6 || src[..3] != [40, 80, 36] || src[3] !in codecs ==> DecompressText(codecs, src) == src
  {
    var whole := [40, 80, 36, algorithm, x, y] + packed;
    assert whole[..3] == [40, 80, 36] && whole[6..] == packed;
  }

  /** Exactly the arguments at these positions that reach the threshold are compressed; all others stay. */
  lemma ChangedPositions(codecs: map<byte, Codec>, cfg: Config, command: string,
                         was: seq<seq<byte>>, texts: seq<seq<byte>>, i: nat)
    requires PassedUpTo(codecs, cfg, command, was, texts, |was|) && i < |was|
    ensures |texts| == |was|
    ensures texts[i] == if && |was[i]| >= cfg.threshold
                           && (|| (FromTwo(command) && i >= 2 && i % 2 == 0)
                               || (FromThree(command) && i >= 3 && i % 2 == 1))
                        then CompressText(codecs, cfg.algorithm, was[i]) else was[i]
  {
    hide CompressText, IsValue;
    ValuePositions(command, i);
  }

  // ---------- a response ----------

  /** Every string of a reply, however deep, is decompressed; numbers and errors are not. */
  function Decompressed(codecs: map<byte, Codec>, v: Value): Value {
    match v
    case SimpleString(text) => SimpleString(DecompressText(codecs, text))
    case BulkString(text) => BulkString(DecompressText(codecs, text))
    case Array(items) => Array(seq(|items|, i requires 0 <= i < |items| => Decompressed(codecs, items[i])))
    case _ => v
  }

  method DecompressReply(codecs: map<byte, Codec>, v: Value) returns (r: Value)
    ensures r == Decompressed(codecs, v)
    decreases v
  {
    match v {
      case SimpleString(text) => r := SimpleString(DecompressText(codecs, text));
      case BulkString(text) => r := BulkString(DecompressText(codecs, text));
      case Array(items) =>
        var done := items;
        var i := 0;
        while i < |items|
          invariant 0 <= i <= |items| && |done| == |items|
          invariant forall j :: 0 <= j < i ==> done[j] == Decompressed(codecs, items[j])
          invariant forall j :: i <= j < |items| ==> done[j] == items[j]
        {
          var item := DecompressReply(codecs, done[i]);
          done := done[i := item];
          i := i + 1;
        }
        r := Array(done);
      case Integer(_) => r := v;
      case Error(_) => r := v;
      case NullBulkString => r := v;
      case NullArray => r := v;
    }
  }

  // ---------- a request and what is read of it later ----------

  /** An argument is sent as it is: it is no value, it is below the threshold, or nothing is gained. */
  predicate SentRaw(codecs: map<byte, Codec>, cfg: Config, command: string, i: nat, text: seq<byte>) {
    || !IsValue(command, i)
    || |text| < cfg.threshold
    || NotShortened(codecs, cfg.algorithm, text)
  }

  predicate Misread(codecs: map<byte, Codec>, cfg: Config, command: string, i: nat, text: seq<byte>) {
    SentRaw(codecs, cfg, command, i, text) && LooksCompressed(codecs, text)
  }

  /**
   One pass over a request changes value positions only and lengthens nothing; each argument is read back as it
   was sent, except exactly those sent raw that look compressed.
   */
  lemma ArgRoundTrip(codecs: map<byte, Codec>, cfg: Config, command: string, i: nat, text: seq<byte>)
    requires Lossless(codecs)
    ensures var kept := CompressArg(codecs, cfg, command, i, text);
            && |kept| <= |text| && (kept == text <==> SentRaw(codecs, cfg, command, i, text))
            && (DecompressText(codecs, kept) == text <==> !Misread(codecs, cfg, command, i, text))
  {
    KeptRaw(codecs, cfg.algorithm, text);
    TextRoundTrip(codecs, cfg.algorithm, text);
  }

  /**
   Such texts exist for every codec that shortens anything: what it wrote once, sent again below the threshold or
   where no value stands, is not what is read back.
   */
  lemma MistakenExists(codecs: map<byte, Codec>, cfg: Config, src: seq<byte>, command: string, i: nat)
    requires Lossless(codecs) && !NotShortened(codecs, cfg.algorithm, src)
    ensures var kept := CompressText(codecs, cfg.algorithm, src);
            |kept| < cfg.threshold || !IsValue(command, i) ==>
              && CompressArg(codecs, cfg, command, i, kept) == kept
              && DecompressText(codecs, CompressArg(codecs, cfg, command, i, kept)) == src != kept
  {
    hide LooksCompressed;
    KeptRaw(codecs, cfg.algorithm, src);
    TextRoundTrip(codecs, cfg.algorithm, src);
  }

  // ---------- what is read of a reply ----------

  /** A reply whose strings were stored through this filter: some compressed, some kept raw. */
  ghost predicate StoredAs(codecs: map<byte, Codec>, cfg: Config, v: Value, kept: Value) {
    match v
    case BulkString(text) => kept.BulkString? && TextStoredAs(codecs, cfg, text, kept.text)
    case SimpleString(text) => kept.SimpleString? && TextStoredAs(codecs, cfg, text, kept.text)
    case Array(items) =>
      && kept.Array? && |kept.items| == |items|
      && forall i :: 0 <= i < |items| ==> StoredAs(codecs, cfg, items[i], kept.items[i])
    case _ => kept == v
  }

  /** Kept by some command at some position. */
  ghost predicate TextStoredAs(codecs: map<byte, Codec>, cfg: Config, text: seq<byte>, kept: seq<byte>) {
    exists command, i: nat :: kept == CompressArg(codecs, cfg, command, i, text)
  }

  /** Some string of the reply, at any depth, was stored raw and looks compressed. */
  ghost predicate SomeMisread(codecs: map<byte, Codec>, v: Value, kept: Value) {
    match v
    case BulkString(text) => kept == v && LooksCompressed(codecs, text)
    case SimpleString(text) => kept == v && LooksCompressed(codecs, text)
    case Array(items) =>
      && kept.Array? && |kept.items| == |items|
      && exists i :: 0 <= i < |items| && SomeMisread(codecs, items[i], kept.items[i])
    case _ => false
  }

  lemma TextReadBack(codecs: map<byte, Codec>, cfg: Config, text: seq<byte>, kept: seq<byte>)
    requires Lossless(codecs) && TextStoredAs(codecs, cfg, text, kept)
    ensures DecompressText(codecs, kept) == text <==> !(kept == text && LooksCompressed(codecs, text))
  {
    hide CompressArg, LooksCompressed;
    var command, i: nat :| kept == CompressArg(codecs, cfg, command, i, text);
    ArgRoundTrip(codecs, cfg, command, i, text);
  }

  /** A stored reply is read back as it was, at any depth of nesting, exactly when no string of it is misread. */
  lemma {:induction false} ReplyReadBack(codecs: map<byte, Codec>, cfg: Config, v: Value, kept: Value)
    requires Lossless(codecs) && StoredAs(codecs, cfg, v, kept)
    ensures Decompressed(codecs, kept) == v <==> !SomeMisread(codecs, v, kept)
    decreases v
  {
    hide DecompressText, LooksCompressed, TextStoredAs;
    match v {
      case BulkString(text) => TextReadBack(codecs, cfg, text, kept.text);
      case SimpleString(text) => TextReadBack(codecs, cfg, text, kept.text);
      case Array(items) =>
        forall i | 0 <= i < |items|
          ensures Decompressed(codecs, kept.items[i]) == items[i] <==> !SomeMisread(codecs, items[i], kept.items[i])
        {
          ReplyReadBack(codecs, cfg, items[i], kept.items[i]);
        }
        var read := seq(|items|, i requires 0 <= i < |items| => Decompressed(codecs, kept.items[i]));
        assert Decompressed(codecs, kept) == Array(read);
        assert read == items <==> forall i :: 0 <= i < |items| ==> read[i] == items[i];
      case _ =>
    }
  }
}
