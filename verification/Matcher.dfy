/**
 The health checker's search for an expected payload in a byte stream. The stream arrives
 in chunks of any size through a fixed buffer; bytes that cannot start a match are dropped.
 */
module Matcher {
  import opened Bytes
  import opened ByteStream

  const MAX_BUFFER_SIZE := 2048

  class BufferedConn {
    const conn: Conn
    const buffer: array<byte>
    var start: nat
    var end: nat
    var err: ReadError

    ghost predicate Valid()
      reads this, conn, buffer
    {
      && buffer.Length == MAX_BUFFER_SIZE
      && start <= end <= buffer.Length
      && (err == EOF ==> conn.rest == [])
      && (err == Broken ==> !conn.faultless)
    }

    /** What a reader of this connection has still to see. */
    ghost function Unread(): seq<byte>
      requires Valid()
      reads this, conn, buffer
    {
      buffer[start..end] + conn.rest
    }

    constructor (conn: Conn)
      ensures Valid() && this.conn == conn && fresh(buffer)
      ensures Unread() == conn.rest && err == NoError
    {
      this.conn := conn;
      buffer := new byte[MAX_BUFFER_SIZE];
      start, end, err := 0, 0, NoError;
    }

    method ShiftBufferIfNeeded()
      requires Valid()
      modifies this`start, this`end, buffer
      ensures Valid() && buffer[start..end] == old(buffer[start..end])
      ensures end < buffer.Length <==> end - start < buffer.Length
    {
      if end >= buffer.Length {
        Compact(buffer, start, end);
        assert buffer[0..end - start] == buffer[..end - start];
        start, end := 0, end - start;
      }
    }

    /** Reads one more chunk, as far as there is room for it. */
    method ReadMore()
      requires Valid()
      modifies this`start, this`end, this`err, buffer, conn
      ensures Valid()
      ensures err == NoError && old(end - start) < buffer.Length ==>
        |conn.rest| < old(|conn.rest|) || old(err) != NoError
      ensures |conn.rest| <= old(|conn.rest|) || err == Broken
      ensures old(err) != NoError ==> err != NoError
      ensures err != Broken ==> Unread() == old(Unread())
      ensures err == Broken && old(err) != Broken ==> buffer[start..end] == old(buffer[start..end])
    {
      ShiftBufferIfNeeded();
      ghost var was, rest := buffer[..], conn.rest;
      assert was[start..end] == buffer[start..end];
      var chunk, e := ReadInto(buffer, end, conn);
      Joined(buffer, was, start, end, chunk);
      end := end + |chunk|;
      assert e != Broken ==> was[start..end - |chunk|] + chunk + conn.rest == was[start..end - |chunk|] + rest;
      if e != NoError && (err == NoError || err == EOF) {
        err := e;
      }
    }

    /** The buffered bytes; an empty buffer is filled first. */
    method Buffer() returns (b: seq<byte>)
      requires Valid()
      modifies this`start, this`end, this`err, buffer, conn
      ensures Valid() && b == buffer[start..end]
      ensures |conn.rest| <= old(|conn.rest|) || err == Broken
      ensures old(err) != NoError ==> err != NoError
      ensures err != Broken ==> Unread() == old(Unread())
      ensures err == Broken && old(err) != Broken ==> b == []
    {
      if start == end {
        ReadMore();
      }
      b := buffer[start..end];
    }

    predicate AtEOF()
      reads this
    {
      err != NoError
    }

    /** Drops the first n buffered bytes, or reports that there are not so many. */
    method SkipBuffer(n: int) returns (ok: bool)
      requires Valid()
      modifies this`start, this`end
      ensures Valid()
      ensures ok == (n <= 0 || n <= old(end - start))
      ensures buffer[start..end] == if ok && n > 0 then old(buffer[start..end])[n..] else old(buffer[start..end])
    {
      if n <= 0 {
        return true;
      }
      if start + n <= end {
        start := start + n;
        if start == end {
          start, end := 0, 0;
        }
        return true;
      }
      return false;
    }
  }

  // ---------- the search in one buffer ----------

  /** The library search: the leftmost occurrence, or -1. */
  method Index(s: seq<byte>, p: seq<byte>) returns (i: int)
    ensures i == -1 || Leftmost(s, p, i)
    ensures i == -1 <==> !Occurs(s, p)
  {
    i := 0;
    while i + |p| <= |s|
      invariant 0 <= i
      invariant forall j :: MatchAt(s, p, j) ==> i <= j
    {
      if s[i..i + |p|] == p {
        return;
      }
      i := i + 1;
    }
    i := -1;
  }

  /** The first i bytes of p, fewer than all of them, are the last bytes of s. */
  predicate Border(s: seq<byte>, p: seq<byte>, i: int) {
    0 < i < |p| && i <= |s| && s[|s| - i..] == p[..i]
  }

  /** Where the longest unfinished match at the end of s begins, or -1. */
  method EndsWithPartially(s: seq<byte>, p: seq<byte>) returns (k: int)
    ensures k == -1 ==> forall i :: !Border(s, p, i)
    ensures k != -1 ==> 0 <= k < |s| && Border(s, p, |s| - k) && forall i :: Border(s, p, i) ==> i <= |s| - k
  {
    var i := |p| - 1;
    while i > 0
      invariant forall j :: Border(s, p, j) ==> j <= i
    {
      if i <= |s| && s[|s| - i..] == p[..i] {
        return |s| - i;
      }
      i := i - 1;
    }
    return -1;
  }

  /** Dropping the first n bytes of s loses no match, whatever bytes come after s. */
  ghost predicate SafeToDrop(s: seq<byte>, p: seq<byte>, n: nat) {
    forall t, j :: MatchAt(s + t, p, j) ==> n <= j
  }

  /** A match that starts before position n ends inside s, or leaves a border longer than |s| - n. */
  lemma EarlyMatch(s: seq<byte>, p: seq<byte>, t: seq<byte>, j: int)
    requires MatchAt(s + t, p, j) && j < |s| && p != []
    ensures MatchAt(s, p, j) || Border(s, p, |s| - j)
  {
    if j + |p| <= |s| {
      assert (s + t)[j..j + |p|] == s[j..j + |p|];
    } else {
      var i := |s| - j;
      assert (s + t)[j..j + |p|][..i] == s[j..];
    }
  }

  lemma LongestBorderIsSafe(s: seq<byte>, p: seq<byte>, n: nat)
    requires p != [] && n <= |s| && !Occurs(s, p)
    requires forall i :: Border(s, p, i) ==> i <= |s| - n
    ensures SafeToDrop(s, p, n)
  {
    forall t, j | MatchAt(s + t, p, j) ensures n <= j {
      if j < n {
        EarlyMatch(s, p, t, j);
      }
    }
  }

  /**
   A found payload is skipped with its leftmost occurrence. Otherwise exactly the bytes that
   no continuation can need are skipped: fewer bytes than the payload has remain.
   */
  method SearchPayload(s: seq<byte>, p: seq<byte>, atEOF: bool) returns (skip: int, found: bool)
    requires p != []
    ensures found <==> Occurs(s, p)
    ensures found ==> Leftmost(s, p, skip - |p|) && |p| <= skip <= |s|
    ensures !found && atEOF ==> skip == -1
    ensures !found && !atEOF ==> 0 <= skip <= |s| && |s| - skip < |p| && SafeToDrop(s, p, skip)
    ensures !found && !atEOF && skip < |s| ==> Border(s, p, |s| - skip)
  {
    var index := Index(s, p);
    if index != -1 {
      return index + |p|, true;
    }
    if atEOF {
      return -1, false;
    }
    var k := EndsWithPartially(s, p);
    if k != -1 {
      LongestBorderIsSafe(s, p, k);
      return k, false;
    }
    LongestBorderIsSafe(s, p, |s|);
    return |s|, false;
  }

  // ---------- the search in the whole stream ----------

  datatype Outcome = Found | UnexpectedResponse | ReadFailed | SkippedTooFar

  /** Every match in the stream starts at `at` or later. */
  ghost predicate NoneBefore(stream: seq<byte>, p: seq<byte>, at: nat) {
    forall j :: MatchAt(stream, p, j) ==> at <= j
  }

  lemma MatchLater(stream: seq<byte>, at: nat, p: seq<byte>, j: int)
    requires at <= |stream| && MatchAt(stream, p, j) && at <= j
    ensures MatchAt(stream[at..], p, j - at)
  {
    assert stream[at..][j - at..j - at + |p|] == stream[j..j + |p|];
  }

  lemma StartOfStream(stream: seq<byte>, p: seq<byte>)
    ensures NoneBefore(stream, p, 0)
  {
  }

  /** Dropping the skipped bytes of the buffer moves the stream position past no match. */
  lemma SkipKeepsMatches(stream: seq<byte>, at: nat, s: seq<byte>, rest: seq<byte>, p: seq<byte>, n: nat)
    requires at <= |stream| && stream[at..] == s + rest && n <= |s|
    requires SafeToDrop(s, p, n)
    requires NoneBefore(stream, p, at)
    ensures NoneBefore(stream, p, at + n)
    ensures stream[at + n..] == s[n..] + rest
  {
    forall j | MatchAt(stream, p, j) ensures at + n <= j {
      MatchLater(stream, at, p, j);
    }
    assert stream[at + n..] == stream[at..][n..];
  }

  /** The leftmost match in the buffer is the leftmost match in the stream. */
  lemma BufferMatchIsLeftmost(stream: seq<byte>, at: nat, s: seq<byte>, rest: seq<byte>, p: seq<byte>, i: int)
    requires at <= |stream| && stream[at..] == s + rest && Leftmost(s, p, i)
    requires NoneBefore(stream, p, at)
    ensures Leftmost(stream, p, at + i) && Occurs(stream, p)
    ensures 0 <= i && i + |p| <= |s|
    ensures stream[at + i + |p|..] == s[i + |p|..] + rest
  {
    assert stream[at + i..at + i + |p|] == (s + rest)[i..i + |p|] == s[i..i + |p|];
    assert MatchAt(stream, p, at + i);
    forall j | MatchAt(stream, p, j) ensures at + i <= j {
      if j < at + i {
        MatchLater(stream, at, p, j);
        assert s[j - at..j - at + |p|] == (s + rest)[j - at..j - at + |p|];
        assert MatchAt(s, p, j - at);
      }
    }
    assert stream[at + i + |p|..] == stream[at..][i + |p|..];
  }

  lemma NoMatchInRest(stream: seq<byte>, at: nat, p: seq<byte>)
    requires at <= |stream| && !Occurs(stream[at..], p)
    requires NoneBefore(stream, p, at)
    ensures !Occurs(stream, p)
  {
    forall j | MatchAt(stream, p, j) ensures MatchAt(stream[at..], p, j - at) {
      MatchLater(stream, at, p, j);
    }
  }

  /** What one look at the buffer finds: the payload, that it cannot come, or that more must be read. */
  datatype Verdict = Hit | Miss | More | TooFar

  lemma FoundThere(stream: seq<byte>, p: seq<byte>, i: int, rest: seq<byte>)
    requires Leftmost(stream, p, i) && 0 <= i && i + |p| <= |stream| && rest == stream[i + |p|..]
    ensures exists j :: Leftmost(stream, p, j) && rest == stream[j + |p|..]
  {
  }

  /** Searches what is buffered and skips what is no longer needed. */
  method Examine(c: BufferedConn, p: seq<byte>, ghost stream: seq<byte>, ghost at: nat)
    returns (v: Verdict, ghost next: nat)
    requires c.Valid() && c.err != Broken && 1 <= |p|
    requires at <= |stream| && c.Unread() == stream[at..] && NoneBefore(stream, p, at)
    modifies c`start, c`end, c`err, c.buffer, c.conn
    ensures c.Valid() && v != TooFar && (|c.conn.rest| <= old(|c.conn.rest|) || c.err == Broken)
    ensures v == Hit ==> Occurs(stream, p)
    ensures v == Hit ==> exists i :: Leftmost(stream, p, i) && c.Unread() == stream[i + |p|..]
    ensures v == Miss ==> c.err == Broken || (!Occurs(stream, p) && c.err == EOF && c.conn.rest == [])
    ensures v == More ==> c.err == NoError && old(c.err) == NoError && c.end - c.start < |p|
    ensures v == More ==> next <= |stream| && c.Unread() == stream[next..] && NoneBefore(stream, p, next)
  {
    hide NoneBefore, MatchAt, Leftmost, Occurs, SafeToDrop, Border;
    next := at;
    var s := c.Buffer();
    var skip, found := SearchPayload(s, p, c.AtEOF());
    ghost var rest := c.conn.rest;
    assert c.err != Broken ==> stream[at..] == s + rest;
    if skip > 0 {
      var ok := c.SkipBuffer(skip);
      if !ok {
        return TooFar, at;
      }
    }
    if found {
      ghost var i := skip - |p|;
      BufferMatchIsLeftmost(stream, at, s, rest, p, i);
      assert c.Unread() == s[i + |p|..] + rest;
      FoundThere(stream, p, at + i, c.Unread());
      return Hit, at;
    }
    if skip == -1 {
      if c.err != Broken {
        assert s + rest == s;
        NoMatchInRest(stream, at, p);
      }
      return Miss, at;
    }
    SkipKeepsMatches(stream, at, s, rest, p, skip);
    return More, at + skip;
  }

  /**
   Waits for the payload. On a faultless stream, however it is cut into chunks, this succeeds
   exactly when the payload occurs in what is still unread, and then stands just past its
   leftmost occurrence; otherwise it reports an unexpected response. Every read has room, so
   the loop cannot stall on a full buffer.
   */
  method Perform(c: BufferedConn, p: seq<byte>) returns (r: Outcome)
    requires c.Valid() && 1 <= |p| <= MAX_BUFFER_SIZE
    modifies c`start, c`end, c`err, c.buffer, c.conn
    ensures c.Valid() && r != SkippedTooFar
    ensures c.conn.faultless ==> r != ReadFailed
    ensures r == Found ==> exists i :: Leftmost(old(c.Unread()), p, i) && c.Unread() == old(c.Unread())[i + |p|..]
    ensures r == UnexpectedResponse ==>
      c.err == Broken || (!Occurs(old(c.Unread()), p) && c.err == EOF && c.conn.rest == [])
    ensures r == ReadFailed ==> c.err == Broken
    ensures c.conn.faultless ==> (r == Found <==> Occurs(old(c.Unread()), p))
  {
    hide NoneBefore, MatchAt, Leftmost, Occurs, SafeToDrop, Border;
    if c.err == Broken {
      return ReadFailed;
    }
    ghost var stream, at: nat := c.Unread(), 0;
    StartOfStream(stream, p);
    while true
      invariant c.Valid() && c.err != Broken
      invariant at <= |stream| && c.Unread() == stream[at..]
      invariant NoneBefore(stream, p, at)
      decreases |c.conn.rest| + if c.err == NoError then 1 else 0
    {
      var v;
      v, at := Examine(c, p, stream, at);
      match v {
        case Hit => return Found;
        case Miss => return UnexpectedResponse;
        case TooFar => return SkippedTooFar;
        case More =>
          assert c.end - c.start < c.buffer.Length;
          c.ReadMore();
          if c.err == Broken {
            return ReadFailed;
          }
      }
    }
  }
}
