/**
 Compression over several passes. A request that is redirected goes through the filters again with its body already
 changed, and every pass has the reply decompressed once more.
 */
module CompressPasses {
  import opened Basics
  import opened Bytes
  import opened Compress

  /** An argument after so many passes. */
  function Passes(codecs: map<byte, Codec>, cfg: Config, command: string, i: nat, text: seq<byte>, n: nat): seq<byte> {
    if n == 0 then text else CompressArg(codecs, cfg, command, i, Passes(codecs, cfg, command, i, text, n - 1))
  }

  /** How many of the passes had an effect. */
  function Effective(codecs: map<byte, Codec>, cfg: Config, command: string, i: nat, text: seq<byte>, n: nat): nat {
    if n == 0 then 0
    else
      Effective(codecs, cfg, command, i, text, n - 1)
      + if SentRaw(codecs, cfg, command, i, Passes(codecs, cfg, command, i, text, n - 1)) then 0 else 1
  }

  /** A stored text after so many readings of it. */
  function Reads(codecs: map<byte, Codec>, src: seq<byte>, m: nat): seq<byte>
    decreases m
  {
    if m == 0 then src else Reads(codecs, DecompressText(codecs, src), m - 1)
  }

  /** Passes have an effect until one has none, and never after that. */
  lemma {:induction false} EffectiveFirst(codecs: map<byte, Codec>, cfg: Config, command: string, i: nat,
                                          text: seq<byte>, n: nat)
    ensures var e := Effective(codecs, cfg, command, i, text, n);
      && e <= n && Passes(codecs, cfg, command, i, text, e) == Passes(codecs, cfg, command, i, text, n)
      && (e < n ==> SentRaw(codecs, cfg, command, i, Passes(codecs, cfg, command, i, text, n)))
      && (forall k: nat :: k < e ==> !SentRaw(codecs, cfg, command, i, Passes(codecs, cfg, command, i, text, k)))
  {
    if n > 0 {
      hide SentRaw, CompressText;
      EffectiveFirst(codecs, cfg, command, i, text, n - 1);
      var before := Passes(codecs, cfg, command, i, text, n - 1);
      if SentRaw(codecs, cfg, command, i, before) {
        RawStays(codecs, cfg, command, i, before);
      }
    }
  }

  lemma RawStays(codecs: map<byte, Codec>, cfg: Config, command: string, i: nat, text: seq<byte>)
    requires SentRaw(codecs, cfg, command, i, text)
    ensures CompressArg(codecs, cfg, command, i, text) == text
  {
  }

  lemma OnePass(codecs: map<byte, Codec>, cfg: Config, command: string, i: nat, text: seq<byte>)
    requires Lossless(codecs) && !SentRaw(codecs, cfg, command, i, text)
    ensures var kept := CompressArg(codecs, cfg, command, i, text);
            |kept| < |text| && DecompressText(codecs, kept) == text
  {
    ArgRoundTrip(codecs, cfg, command, i, text);
  }

  /** As long as passes have an effect, each makes the text shorter. */
  lemma {:induction false} Shorter(codecs: map<byte, Codec>, cfg: Config, command: string, i: nat,
                                   text: seq<byte>, n: nat)
    requires Lossless(codecs)
    requires forall k: nat :: k < n ==> !SentRaw(codecs, cfg, command, i, Passes(codecs, cfg, command, i, text, k))
    ensures |Passes(codecs, cfg, command, i, text, n)| + n <= |text|
  {
    if n > 0 {
      hide SentRaw, CompressArg, Lossless;
      Shorter(codecs, cfg, command, i, text, n - 1);
      OnePass(codecs, cfg, command, i, Passes(codecs, cfg, command, i, text, n - 1));
    }
  }

  /** Each reading undoes one pass that had an effect. */
  lemma {:induction false} ReadsUndo(codecs: map<byte, Codec>, cfg: Config, command: string, i: nat,
                                     text: seq<byte>, e: nat, m: nat)
    requires Lossless(codecs)
    requires forall k: nat :: k < e ==> !SentRaw(codecs, cfg, command, i, Passes(codecs, cfg, command, i, text, k))
    ensures Reads(codecs, Passes(codecs, cfg, command, i, text, e), m)
         == if m <= e then Passes(codecs, cfg, command, i, text, e - m) else Reads(codecs, text, m - e)
    decreases e
  {
    if m > 0 && e > 0 {
      hide SentRaw, CompressArg, Lossless, DecompressText;
      OnePass(codecs, cfg, command, i, Passes(codecs, cfg, command, i, text, e - 1));
      ReadsUndo(codecs, cfg, command, i, text, e - 1, m - 1);
    }
  }

  /**
   A text written in n passes and read in m is what was written exactly when the readings are not fewer than the
   passes that had an effect, and those beyond them leave the text alone.
   */
  lemma ReadBackExactly(codecs: map<byte, Codec>, cfg: Config, command: string, i: nat,
                        text: seq<byte>, n: nat, m: nat)
    requires Lossless(codecs)
    ensures var e := Effective(codecs, cfg, command, i, text, n);
      Reads(codecs, Passes(codecs, cfg, command, i, text, n), m) == text
      <==> m >= e && Reads(codecs, text, m - e) == text
  {
    hide SentRaw, Lossless, Reads, Passes, Effective;
    EffectiveFirst(codecs, cfg, command, i, text, n);
    var e := Effective(codecs, cfg, command, i, text, n);
    ReadsUndo(codecs, cfg, command, i, text, e, m);
    if m < e {
      Shorter(codecs, cfg, command, i, text, e - m);
    } else if m == e {
      NoPass(codecs, cfg, command, i, text);
    }
  }

  lemma NoPass(codecs: map<byte, Codec>, cfg: Config, command: string, i: nat, text: seq<byte>)
    ensures Passes(codecs, cfg, command, i, text, 0) == text && Reads(codecs, text, 0) == text
  {
  }

  /**
   Read once, a text is what was written in one pass or more exactly when it was sent raw and does not look
   compressed, or was shortened by the first pass and by no later one.
   */
  lemma ReadOnceExactly(codecs: map<byte, Codec>, cfg: Config, command: string, i: nat, text: seq<byte>, n: nat)
    requires Lossless(codecs) && n >= 1
    ensures DecompressText(codecs, Passes(codecs, cfg, command, i, text, n)) == text
      <==> if SentRaw(codecs, cfg, command, i, text) then !LooksCompressed(codecs, text)
           else n == 1 || SentRaw(codecs, cfg, command, i, CompressArg(codecs, cfg, command, i, text))
  {
    hide SentRaw, Lossless, Reads, Passes, Effective, CompressArg, LooksCompressed;
    ReadBackExactly(codecs, cfg, command, i, text, n, 1);
    FirstPasses(codecs, cfg, command, i, text, n);
    OneRead(codecs, text);
    OneRead(codecs, Passes(codecs, cfg, command, i, text, n));
  }

  lemma OneRead(codecs: map<byte, Codec>, src: seq<byte>)
    ensures Reads(codecs, src, 1) == DecompressText(codecs, src) && Reads(codecs, src, 0) == src
    ensures DecompressText(codecs, src) == src <==> !LooksCompressed(codecs, src)
  {
    assert Reads(codecs, src, 1) == Reads(codecs, DecompressText(codecs, src), 0);
  }

  lemma FirstPasses(codecs: map<byte, Codec>, cfg: Config, command: string, i: nat, text: seq<byte>, n: nat)
    requires n >= 1
    ensures var e := Effective(codecs, cfg, command, i, text, n);
      && (e == 0 <==> SentRaw(codecs, cfg, command, i, text))
      && (e <= 1 <==> SentRaw(codecs, cfg, command, i, text) || n == 1
                      || SentRaw(codecs, cfg, command, i, CompressArg(codecs, cfg, command, i, text)))
  {
    hide SentRaw, CompressArg;
    EffectiveFirst(codecs, cfg, command, i, text, n);
    var e := Effective(codecs, cfg, command, i, text, n);
    assert Passes(codecs, cfg, command, i, text, 0) == text;
    assert Passes(codecs, cfg, command, i, text, 1) == CompressArg(codecs, cfg, command, i, text);
    if SentRaw(codecs, cfg, command, i, text) {
      assert !(0 < e);
    }
    if e > 1 {
      assert !SentRaw(codecs, cfg, command, i, Passes(codecs, cfg, command, i, text, 1));
    }
  }

  // ---------- a second pass that shortens ----------

  const ZEROS: seq<byte> := [0, 0, 0, 0, 0, 0, 0, 0, 0, 0]

  /** A codec that leaves out ten zeros at the end. */
  function Trim(src: seq<byte>): Option<seq<byte>> {
    if |src| >= 10 && src[|src| - 10..] == ZEROS then Some(src[..|src| - 10]) else None
  }

  function Pad(src: seq<byte>): Option<seq<byte>> {
    Some(src + ZEROS)
  }

  function Trimming(): map<byte, Codec> {
    map[1 := Codec(Trim, Pad)]
  }

  lemma TrimmingLossless()
    ensures Lossless(Trimming())
  {
    forall x | Trim(x).Some? ensures Pad(Trim(x).value) == Some(x) {
      assert x == x[..|x| - 10] + x[|x| - 10..];
    }
  }

  lemma TrimTen(src: seq<byte>)
    ensures CompressText(Trimming(), 1, src + ZEROS) == Header(1) + src
  {
    var whole := src + ZEROS;
    assert whole[|whole| - 10..] == ZEROS && whole[..|whole| - 10] == src;
  }

  /** Twenty zeros, set by a request that is redirected once, are read back as the header and ten zeros. */
  lemma RedirectedWriteMisread()
    ensures var cfg, text := Config(1, 0), ZEROS + ZEROS;
      && Lossless(Trimming())
      && DecompressText(Trimming(), Passes(Trimming(), cfg, "set", 2, text, 1)) == text
      && DecompressText(Trimming(), Passes(Trimming(), cfg, "set", 2, text, 2)) == Header(1) + ZEROS != text
  {
    hide CompressText, Decode;
    var cfg, text := Config(1, 0), ZEROS + ZEROS;
    TrimmingLossless();
    TrimTen(ZEROS);
    TrimTen(Header(1));
    assert Passes(Trimming(), cfg, "set", 2, text, 0) == text;
    assert Passes(Trimming(), cfg, "set", 2, text, 1) == Header(1) + ZEROS;
    assert Passes(Trimming(), cfg, "set", 2, text, 2) == Header(1) + Header(1);
    DecodeHeader(Trimming(), 1, ZEROS);
    DecodeHeader(Trimming(), 1, Header(1));
  }
}
