/** Bytes and the notion of one byte string occurring in another. */
module Bytes {
  newtype byte = x: int | 0 <= x < 256

  /** The pattern p stands in s at position i. */
  predicate MatchAt(s: seq<byte>, p: seq<byte>, i: int) {
    0 <= i && i + |p| <= |s| && s[i..i + |p|] == p
  }

  ghost predicate Occurs(s: seq<byte>, p: seq<byte>) {
    exists i :: MatchAt(s, p, i)
  }

  /** Position i is the leftmost place where p stands in s. */
  ghost predicate Leftmost(s: seq<byte>, p: seq<byte>, i: int) {
    MatchAt(s, p, i) && forall j :: MatchAt(s, p, j) ==> i <= j
  }
}

/** A connection that hands out a byte stream in chunks of any size. */
module ByteStream {
  import opened Bytes

  datatype ReadError = NoError | EOF | Broken

  /** Moves the bytes from lo to hi to the front. */
  method Compact(buf: array<byte>, lo: nat, hi: nat)
    requires lo <= hi <= buf.Length
    modifies buf
    ensures buf[..hi - lo] == old(buf[lo..hi])
  {
    forall i | 0 <= i < hi - lo {
      buf[i] := buf[lo + i];
    }
  }

  /** Copies a chunk behind the first n bytes. */
  method CopyIn(buf: array<byte>, n: nat, chunk: seq<byte>)
    requires n + |chunk| <= buf.Length
    modifies buf
    ensures buf[..n] == old(buf[..n]) && buf[n..n + |chunk|] == chunk
  {
    forall i | 0 <= i < |chunk| {
      buf[n + i] := chunk[i];
    }
  }

  /** What stands between lo and n is followed by the chunk copied in behind. */
  lemma Joined(buf: array<byte>, was: seq<byte>, lo: nat, n: nat, chunk: seq<byte>)
    requires lo <= n <= |was| && n + |chunk| <= buf.Length
    requires buf[..n] == was[..n] && buf[n..n + |chunk|] == chunk
    ensures buf[lo..n + |chunk|] == was[lo..n] + chunk
  {
    assert was[lo..n] == was[..n][lo..];
    assert buf[lo..n] == buf[..n][lo..];
    assert buf[lo..n + |chunk|] == buf[lo..n] + buf[n..n + |chunk|];
  }

  class Conn {
    var rest: seq<byte>
    /** No read fails before the end of the stream. */
    const faultless: bool
    /** The end of the stream may be reported together with the last bytes, as io.Reader allows. */
    const lateBytes: bool

    constructor (stream: seq<byte>, faultless: bool, lateBytes: bool)
      ensures rest == stream && this.faultless == faultless && this.lateBytes == lateBytes
    {
      rest := stream;
      this.faultless := faultless;
      this.lateBytes := lateBytes;
    }

    method Read(room: nat) returns (chunk: seq<byte>, err: ReadError)
      modifies this
      ensures |chunk| <= room
      ensures err != Broken ==> chunk + rest == old(rest)
      ensures err == NoError && room > 0 ==> chunk != []
      ensures err == EOF ==> rest == []
      ensures err == EOF && chunk != [] ==> lateBytes
      ensures err == Broken ==> !faultless
    {
      if !faultless {
        var fails: bool := *;
        if fails {
          return [], Broken;
        }
      }
      if room == 0 {
        return [], NoError;
      }
      if rest == [] {
        return [], EOF;
      }
      var n: nat :| 1 <= n <= room && n <= |rest|;
      chunk, rest := rest[..n], rest[n..];
      err := NoError;
      if rest == [] && lateBytes {
        var last: bool := *;
        if last {
          err := EOF;
        }
      }
    }
  }

  /** Reads a chunk behind the first n bytes; a broken connection leaves nothing there. */
  method ReadInto(buf: array<byte>, n: nat, conn: Conn) returns (chunk: seq<byte>, err: ReadError)
    requires n <= buf.Length
    modifies buf, conn
    ensures n + |chunk| <= buf.Length && buf[..n] == old(buf[..n]) && buf[n..n + |chunk|] == chunk
    ensures err == Broken ==> chunk == [] && !conn.faultless
    ensures err != Broken ==> chunk + conn.rest == old(conn.rest)
    ensures err == NoError && n < buf.Length ==> chunk != []
    ensures err == EOF ==> conn.rest == []
    ensures err == EOF && chunk != [] ==> conn.lateBytes
  {
    chunk, err := conn.Read(buf.Length - n);
    if err == Broken {
      chunk := [];
    }
    CopyIn(buf, n, chunk);
  }
}
