/**
 The buffered reader under the decoder: one fixed buffer that is compacted and refilled.
 However the stream is cut into chunks, each operation gives what the whole stream determines.
 */
module RespReader {
  import opened Bytes
  import opened ByteStream
  import opened RespText
  import opened Resp

  function ErrorOf(e: ReadError): DecodeError {
    if e == Broken then ReadFailed else EndOfStream
  }

  datatype Result<T> = Got(value: T) | Failed(error: DecodeError)

  datatype Slice = Complete(line: seq<byte>) | Fragment(part: seq<byte>) | Stopped

  /** The buffered bytes, from r to w, go to the front, and one more chunk goes behind them. */
  method Refill(buf: array<byte>, rd: Conn, r: nat, w: nat) returns (r': nat, w': nat, e: ReadError)
    requires r <= w <= buf.Length && w - r < buf.Length
    modifies buf, rd
    ensures r' <= w' <= buf.Length
    ensures e != NoError && !rd.lateBytes ==> buf[r'..w'] == old(buf[r..w])
    ensures e == NoError ==>
      buf[r'..w'] + rd.rest == old(buf[r..w] + rd.rest) && |rd.rest| < old(|rd.rest|) && w' - r' > w - r
    ensures e == EOF && !rd.lateBytes ==> rd.rest == [] == old(rd.rest)
    ensures e == Broken ==> !rd.faultless
  {
    ghost var held := buf[r..w];
    r', w' := ToFront(buf, r, w);
    var chunk;
    chunk, e := ReadBehind(buf, rd, r', w');
    w' := w' + |chunk|;
    Regrouped(held, chunk, rd.rest);
  }

  lemma Regrouped(a: seq<byte>, b: seq<byte>, c: seq<byte>)
    ensures a + b + c == a + (b + c)
  {
  }

  method ToFront(buf: array<byte>, r: nat, w: nat) returns (r': nat, w': nat)
    requires r <= w <= buf.Length
    modifies buf
    ensures r' == 0 && w' == w - r && buf[r'..w'] == old(buf[r..w])
  {
    if r > 0 {
      Compact(buf, r, w);
    }
    r', w' := 0, w - r;
    assert buf[r'..w'] == buf[..w'];
  }

  /** One chunk is put behind what is buffered; one that comes with an error is not taken. */
  method ReadBehind(buf: array<byte>, rd: Conn, r: nat, w: nat) returns (chunk: seq<byte>, e: ReadError)
    requires r <= w < buf.Length
    modifies buf, rd
    ensures w + |chunk| <= buf.Length && buf[r..w + |chunk|] == old(buf[r..w]) + chunk
    ensures e == NoError <==> chunk != []
    ensures e == NoError ==> chunk + rd.rest == old(rd.rest)
    ensures e == EOF && !rd.lateBytes ==> rd.rest == [] == old(rd.rest)
    ensures e == Broken ==> !rd.faultless
  {
    ghost var was := buf[..];
    assert was[r..w] == buf[r..w];
    chunk, e := rd.Read(buf.Length - w);
    if e != NoError {
      chunk := [];
    }
    CopyIn(buf, w, chunk);
    Joined(buf, was, r, w, chunk);
  }

  class Reader {
    const buf: array<byte>
    const rd: Conn
    var err: ReadError
    var r: nat
    var w: nat
    ghost const stream: seq<byte>
    ghost var consumed: seq<byte>

    /** Whatever was consumed, is buffered and is still to come makes up the stream, at all times. */
    ghost predicate Valid()
      reads this, buf, rd
    {
      && buf.Length > 0 && !rd.lateBytes
      && r <= w <= buf.Length
      && (err == EOF ==> rd.rest == [])
      && (err == Broken ==> !rd.faultless)
      && (err != Broken ==> consumed + Unread() == stream)
    }

    ghost function Unread(): seq<byte>
      requires r <= w <= buf.Length
      reads this, buf, rd
    {
      buf[r..w] + rd.rest
    }

    constructor (rd: Conn, size: nat)
      requires size > 0 && !rd.lateBytes
      ensures Valid() && this.rd == rd && buf.Length == size && fresh(buf)
      ensures err == NoError && Unread() == rd.rest == stream && consumed == []
    {
      this.rd := rd;
      buf := new byte[size];
      err, r, w := NoError, 0, 0;
      stream, consumed := rd.rest, [];
    }

    /** Moves the buffered bytes to the front and reads one more chunk behind them. */
    method Fill()
      requires Valid() && w - r < buf.Length
      modifies this`err, this`r, this`w, buf, rd
      ensures Valid() && w - r <= buf.Length
      ensures old(err) != NoError ==> err == old(err)
      ensures err != Broken ==> Unread() == old(Unread())
      ensures err == NoError ==> |rd.rest| < old(|rd.rest|) && w - r > old(w - r)
      ensures err == EOF && old(err) == NoError ==> buf[r..w] == old(buf[r..w]) == Unread()
    {
      if err != NoError {
        return;
      }
      ghost var unread := Unread();
      var e;
      r, w, e := Refill(buf, rd, r, w);
      assert e == NoError ==> Unread() == unread;
      if e != NoError {
        err := e;
      }
    }

    /** Hands out n buffered bytes. */
    method Take(n: nat) returns (b: seq<byte>)
      requires Valid() && err == NoError && n <= w - r
      modifies this`r, this`consumed
      ensures Valid() && err == NoError
      ensures |b| == n && old(Unread()) == b + Unread() && consumed == old(consumed) + b
      ensures b == old(buf[r..w])[..n] && w - r == old(w - r) - n
    {
      b := buf[r..r + n];
      assert buf[r..w] == b + buf[r + n..w];
      assert consumed + Unread() == consumed + (b + (buf[r + n..w] + rd.rest));
      r := r + n;
      consumed := consumed + b;
    }

    /** An outcome is the one the specification names, unless the connection itself broke. */
    ghost predicate Gives<T>(out: Result<T>, spec: Parsed<T>)
      requires r <= w <= buf.Length
      reads this, buf, rd
    {
      match out
      case Got(v) => err == NoError && spec == Ok(v, Unread())
      case Failed(e) => spec == Fail(e) || (err == Broken && e == ReadFailed)
    }

    /** Nothing has changed. */
    ghost predicate Kept(err0: ReadError, consumed0: seq<byte>, unread0: seq<byte>)
      requires r <= w <= buf.Length
      reads this, buf, rd
    {
      err == err0 && consumed == consumed0 && Unread() == unread0
    }

    lemma KeptSame()
      requires r <= w <= buf.Length
      ensures Kept(err, consumed, Unread())
    {
    }

    /** The next byte, which stays unread; after an error, that error again. */
    method PeekByte() returns (out: Result<byte>)
      requires Valid()
      modifies this`err, this`r, this`w, buf, rd
      ensures Valid()
      ensures old(err) != NoError ==> out == Failed(ErrorOf(old(err))) && Kept(old(err), old(consumed), old(Unread()))
      ensures old(err) == NoError && out.Got? ==>
        err == NoError && w > r && Unread() == old(Unread()) && out.value == Unread()[0]
      ensures old(err) == NoError && out.Failed? ==>
        out.error == ErrorOf(err) && (err == Broken || (err == EOF && old(Unread()) == []))
    {
      if err != NoError {
        return Failed(ErrorOf(err));
      }
      if r == w {
        Fill();
        if err != NoError {
          return Failed(ErrorOf(err));
        }
      }
      return Got(buf[r]);
    }

    /** Consumes one byte; after an error, that error again. */
    method ReadByte() returns (out: Result<byte>)
      requires Valid()
      modifies this`err, this`r, this`w, this`consumed, buf, rd
      ensures Valid()
      ensures old(err) != NoError ==> out == Failed(ErrorOf(old(err))) && Kept(old(err), old(consumed), old(Unread()))
      ensures old(err) == NoError ==>
        Gives(out, var s := old(Unread()); if s == [] then Fail(EndOfStream) else Ok(s[0], s[1..]))
      ensures old(err) == NoError && old(w > r) ==> out.Got?
    {
      if err != NoError {
        return Failed(ErrorOf(err));
      }
      if r == w {
        Fill();
        if err != NoError {
          return Failed(ErrorOf(err));
        }
      }
      var b := Take(1);
      return Got(b[0]);
    }

    /** Up to n bytes, from the buffer or, when it is empty and too small, straight from the connection. */
    method Read(n: nat) returns (b: seq<byte>)
      requires Valid()
      modifies this`err, this`r, this`w, this`consumed, buf, rd
      ensures Valid() && |b| <= n
      ensures old(err) != NoError || n == 0 ==> b == [] && Kept(old(err), old(consumed), old(Unread()))
      ensures old(err) == NoError && err == NoError && n > 0 ==> b != [] && old(Unread()) == b + Unread()
      ensures old(err) == NoError && err == EOF ==> b == [] && old(Unread()) == []
    {
      if err != NoError || n == 0 {
        return [];
      }
      if r == w {
        if n >= buf.Length {
          var e;
          b, e := rd.Read(n);
          if e != NoError {
            err := e;
          }
          consumed := consumed + b;
          assert buf[r..w] == [];
          assert err != Broken ==> consumed + Unread() == stream by {
            assert old(consumed) + (b + rd.rest) == old(consumed) + b + rd.rest;
          }
          return;
        }
        Fill();
        if err != NoError {
          return [];
        }
      }
      b := Take(if n < w - r then n else w - r);
    }

    /** Exactly n bytes; after an error, that error again. */
    method ReadFull(n: nat) returns (out: Result<seq<byte>>)
      requires Valid()
      modifies this`err, this`r, this`w, this`consumed, buf, rd
      ensures Valid()
      ensures old(err) != NoError ==> out == Failed(ErrorOf(old(err))) && Kept(old(err), old(consumed), old(Unread()))
      ensures old(err) == NoError ==> Gives(out, TakeExactly(old(Unread()), n))
    {
      hide TakeExactly, Kept;
      if err != NoError {
        KeptSame();
        return Failed(ErrorOf(err));
      }
      ghost var s := Unread();
      var got := [];
      while |got| < n
        invariant Valid() && err == NoError && |got| <= n
        invariant s == got + Unread()
        decreases n - |got|
      {
        var b := Read(n - |got|);
        if err != NoError {
          assert err == EOF ==> s == got + [];
          TookShort(s, got, n);
          return Failed(if err == EOF && got != [] then UnexpectedEnd else ErrorOf(err));
        }
        assert got + (b + Unread()) == got + b + Unread();
        got := got + b;
      }
      TookAll(s, got, Unread());
      return Got(got);
    }

    /** One line within the buffer, a whole buffer without a line end, or nothing; after an error, nothing. */
    method ReadSlice() returns (out: Slice)
      requires Valid()
      modifies this`err, this`r, this`w, this`consumed, buf, rd
      ensures Valid()
      ensures old(err) != NoError ==> out == Stopped && Kept(old(err), old(consumed), old(Unread()))
      ensures old(err) == NoError ==>
        var s := old(Unread());
        match out
        case Complete(line) => err == NoError && TakeShortLine(s, buf.Length) == Ok(line, Unread())
        case Fragment(part) => err == NoError && TakeShortLine(s, buf.Length) == Fail(BufferFull)
                               && part == s[..buf.Length] && Unread() == s[buf.Length..]
        case Stopped => err == Broken || (err == EOF && TakeShortLine(s, buf.Length) == Fail(EndOfStream))
    {
      if err != NoError {
        return Stopped;
      }
      while true
        invariant Valid() && err == NoError && Unread() == old(Unread())
        decreases |rd.rest|
      {
        var index := LineEnd(buf[r..w]);
        LineEndConcat(buf[r..w], rd.rest);
        if index < w - r {
          var line := Take(index + 1);
          return Complete(line);
        }
        if w - r == buf.Length {
          var part := Take(w - r);
          return Fragment(part);
        }
        Fill();
        if err != NoError {
          LineEndConcat(buf[r..w], []);
          return Stopped;
        }
      }
    }

    /** A line of any length, stitched from fragments; after an error, that error again. */
    method ReadBytes() returns (out: Result<seq<byte>>)
      requires Valid()
      modifies this`err, this`r, this`w, this`consumed, buf, rd
      ensures Valid()
      ensures old(err) != NoError ==> out == Failed(ErrorOf(old(err))) && Kept(old(err), old(consumed), old(Unread()))
      ensures old(err) == NoError ==> Gives(out, TakeLine(old(Unread())))
    {
      hide LineEnd, TakeLine, TakeShortLine;
      if err != NoError {
        var f := ReadSlice();
        return Failed(ErrorOf(err));
      }
      var full: seq<byte> := [];
      while true
        invariant Valid() && err == NoError && LF !in full
        invariant old(Unread()) == full + Unread()
        decreases |Unread()|
      {
        ghost var s := Unread();
        StitchLine(full, s, buf.Length);
        var f := ReadSlice();
        match f
        case Stopped =>
          return Failed(ErrorOf(err));
        case Complete(line) =>
          return Got(full + line);
        case Fragment(part) =>
          StitchFragment(full, part, Unread());
          full := full + part;
      }
    }
  }

  lemma TookAll(s: seq<byte>, got: seq<byte>, rest: seq<byte>)
    requires s == got + rest
    ensures TakeExactly(s, |got|) == Ok(got, rest)
  {
  }

  lemma TookShort(s: seq<byte>, got: seq<byte>, n: nat)
    requires |got| < n
    ensures s == got ==> TakeExactly(s, n) == Fail(if got != [] then UnexpectedEnd else EndOfStream)
  {
  }

  /** How a line continues after fragments that hold no line feed. */
  lemma StitchLine(full: seq<byte>, s: seq<byte>, size: nat)
    requires LF !in full
    ensures match TakeShortLine(s, size)
      case Ok(line, rest) => TakeLine(full + s) == Ok(full + line, rest)
      case Fail(BufferFull) => |s| >= size && LF !in s[..size] && s == s[..size] + s[size..]
      case Fail(_) => TakeLine(full + s) == Fail(EndOfStream)
  {
    hide LineEnd;
    LineEndConcat(full, s);
    var i := LineEnd(s);
    if i < |s| {
      assert (full + s)[..|full| + i + 1] == full + s[..i + 1];
      assert (full + s)[|full| + i + 1..] == s[i + 1..];
    }
  }

  lemma StitchFragment(full: seq<byte>, part: seq<byte>, rest: seq<byte>)
    requires LF !in full && LF !in part
    ensures LF !in full + part && full + (part + rest) == full + part + rest
  {
  }

  lemma {:induction false} LineEndConcat(a: seq<byte>, b: seq<byte>)
    ensures LineEnd(a) == |a| <==> LF !in a
    ensures LineEnd(a + b) == if LineEnd(a) < |a| then LineEnd(a) else |a| + LineEnd(b)
  {
    var i, j := LineEnd(a), LineEnd(a + b);
    assert i < |a| ==> (a + b)[i] == LF;
    assert LineEnd(b) < |b| ==> (a + b)[|a| + LineEnd(b)] == LF;
  }
}
