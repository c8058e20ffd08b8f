/**
 The arguments of a decoded request, each read into a slice of its own, and their compression where they stand.
 */
module DecodedArgs {
  import opened Bytes
  import opened RespText
  import opened Resp
  import RespRoundTrip
  import opened Slices
  import opened Compress

  /** One slice is the head of another: same array, same start, not longer. */
  predicate IsHead(s: Slice, t: Slice) {
    s.arr == t.arr && s.lo == t.lo && s.lo <= s.hi <= t.hi
  }

  lemma HeadsApart(heads: seq<Slice>, given: seq<Slice>, from: nat)
    requires AllApart(given) && from + |heads| <= |given|
    requires forall k :: 0 <= k < |heads| ==> IsHead(heads[k], given[from + k])
    ensures AllApart(heads)
  {
    forall i, j | 0 <= i < j < |heads| ensures Apart(heads[i], heads[j]) {
      assert Apart(given[from + i], given[from + j]);
    }
  }

  ghost function Arrays(ss: seq<Slice>): set<array<byte>> {
    set s | s in ss :: s.arr
  }

  /** A text with its line end is read into a new slice, and the line end cut off again. */
  method ReadText(alloc: SliceAlloc, text: seq<byte>) returns (s: Slice)
    requires alloc.Valid()
    modifies alloc, alloc.buf.arr
    ensures alloc.Valid() && |alloc.given| == |old(alloc.given)| + 1 && old(alloc.given) <= alloc.given
    ensures IsHead(s, alloc.given[|old(alloc.given)|]) && Within(s) && Content(s) == text
    ensures s.arr == old(alloc.buf).arr || fresh(s.arr)
    ensures alloc.buf.arr == old(alloc.buf).arr || fresh(alloc.buf.arr)
    ensures forall g :: g in old(alloc.given) ==> Within(g) && Content(g) == old(Content(g))
  {
    var room := alloc.Make(|text| + 2);
    ghost var given := old(alloc.given);
    var full := Overwrite(room, text + [CR, LF]);
    s := Slice(full.arr, full.lo, full.lo + |text|);
    HeadContent(s, full);
    assert (text + [CR, LF])[..|text|] == text;
    assert alloc.given[|given|] == room;
    forall g | g in given ensures Within(g) && Content(g) == old(Content(g)) {
      var k :| 0 <= k < |given| && given[k] == g;
      assert alloc.given[k] == g && Apart(g, room);
      assert forall j :: g.lo <= j < g.hi ==> g.arr[j] == old(g.arr[j]);
    }
  }

  /** The first texts are read, each into the head of a slice of its own. */
  ghost predicate ReadSoFar(heads: seq<Slice>, texts: seq<seq<byte>>, given: seq<Slice>, from: nat)
    reads Arrays(heads)
  {
    && |heads| <= |texts| && |given| == from + |heads|
    && (forall k :: 0 <= k < |heads| ==> IsHead(heads[k], given[from + k]) && Within(heads[k]))
    && (forall k :: 0 <= k < |heads| ==> heads[k] in heads && Content(heads[k]) == texts[k])
  }

  /** The arguments lie pairwise apart, whatever blocks they were carved from. */
  method LayOut(alloc: SliceAlloc, texts: seq<seq<byte>>) returns (args: array<Slice>, ghost arrs: set<array<byte>>)
    requires alloc.Valid()
    modifies alloc, alloc.buf.arr
    ensures alloc.Valid() && fresh(args) && args.Length == |texts|
    ensures Laid(args, arrs) && Texts(args, arrs) == texts
    ensures forall a :: a in arrs ==> a == old(alloc.buf).arr || fresh(a)
  {
    hide SliceAlloc.Valid, ReadSoFar;
    ghost var first := |alloc.given|;
    ghost var block := alloc.buf.arr;
    var heads: seq<Slice> := [];
    NothingRead(texts, alloc.given);
    while |heads| < |texts|
      invariant alloc.Valid() && |heads| <= |texts| && ReadSoFar(heads, texts, alloc.given, first)
      invariant forall a :: a in Arrays(heads) ==> a == block || fresh(a)
      invariant alloc.buf.arr == block || fresh(alloc.buf.arr)
      decreases |texts| - |heads|
    {
      heads := ReadNext(alloc, heads, texts, first);
    }
    GivenApart(alloc);
    args := new Slice[|heads|](k requires 0 <= k < |heads| => heads[k]);
    arrs := Arrays(heads);
    assert args[..] == heads;
    AllRead(args, arrs, heads, texts, alloc.given, first);
  }

  method ReadNext(alloc: SliceAlloc, heads: seq<Slice>, texts: seq<seq<byte>>, ghost first: nat)
    returns (more: seq<Slice>)
    requires alloc.Valid() && |heads| < |texts| && ReadSoFar(heads, texts, alloc.given, first)
    modifies alloc, alloc.buf.arr
    ensures alloc.Valid() && |more| == |heads| + 1 && ReadSoFar(more, texts, alloc.given, first)
    ensures forall a :: a in Arrays(more) ==> a in Arrays(heads) || a == old(alloc.buf).arr || fresh(a)
    ensures alloc.buf.arr == old(alloc.buf).arr || fresh(alloc.buf.arr)
  {
    hide SliceAlloc.Valid;
    ghost var given := alloc.given;
    var s := ReadText(alloc, texts[|heads|]);
    forall k | 0 <= k < |heads| ensures Within(heads[k]) && Content(heads[k]) == texts[k] {
      assert given[first + k] in given;
      assert old(Content(heads[k])) == texts[k] && Within(given[first + k]);
      HeadContent(heads[k], given[first + k]);
    }
    more := heads + [s];
  }

  lemma NothingRead(texts: seq<seq<byte>>, given: seq<Slice>)
    ensures ReadSoFar([], texts, given, |given|)
  {
  }

  lemma AllRead(args: array<Slice>, arrs: set<array<byte>>, heads: seq<Slice>, texts: seq<seq<byte>>,
                given: seq<Slice>, first: nat)
    requires args[..] == heads && arrs == Arrays(heads) && |heads| == |texts|
    requires ReadSoFar(heads, texts, given, first) && AllApart(given)
    ensures Laid(args, arrs) && Texts(args, arrs) == texts
  {
    HeadsApart(heads, given, first);
    forall k | 0 <= k < |heads| ensures args[k] == heads[k] {
      assert args[..][k] == heads[k];
    }
  }

  lemma GivenApart(alloc: SliceAlloc)
    requires alloc.Valid()
    ensures AllApart(alloc.given)
  {
  }

  lemma HeadContent(s: Slice, t: Slice)
    requires Within(s) && Within(t) && IsHead(s, t)
    ensures Content(s) == Content(t)[..s.hi - s.lo]
  {
  }

  /** A request as it is decoded goes through the pass with every argument compressed, or not, on its own. */
  method CompressDecoded(codecs: map<byte, Codec>, cfg: Config, command: string, alloc: SliceAlloc,
                         texts: seq<seq<byte>>)
    returns (args: array<Slice>, ghost arrs: set<array<byte>>)
    requires alloc.Valid()
    modifies alloc, alloc.buf.arr
    ensures args.Length == |texts| && Laid(args, arrs)
    ensures PassedUpTo(codecs, cfg, command, texts, Texts(args, arrs), |texts|)
  {
    hide PassedUpTo, Texts;
    args, arrs := LayOut(alloc, texts);
    CompressRequest(codecs, cfg, command, args, arrs);
  }

  // ---------- inline commands ----------

  /** Parts of a line, one behind the other, the last ending at position l or before. */
  ghost predicate Parts(line: Slice, ws: seq<Slice>, l: int) {
    && (forall k :: 0 <= k < |ws| ==> ws[k].arr == line.arr && line.lo <= ws[k].lo <= ws[k].hi <= line.lo + l)
    && (forall k, m :: 0 <= k < m < |ws| ==> ws[k].hi <= ws[m].lo)
  }

  /** The texts of these parts, if the line holds b. */
  ghost predicate TextsIn(line: Slice, b: seq<byte>, ws: seq<Slice>, texts: seq<seq<byte>>) {
    && Parts(line, ws, |b|) && |texts| == |ws|
    && forall k :: 0 <= k < |ws| ==> texts[k] == b[ws[k].lo - line.lo..ws[k].hi - line.lo]
  }

  /** The line is read up to r: the words before l are found, and what follows is a word that may go on. */
  ghost predicate ReadUpTo(line: Slice, b: seq<byte>, ws: seq<Slice>, texts: seq<seq<byte>>, l: nat, r: nat) {
    && l <= r <= |b| && Parts(line, ws, l) && TextsIn(line, b, ws, texts)
    && (l == 0 || b[l - 1] == SPACE) && SPACE !in b[l..r]
    && Words(b[..r]) == if l < r then texts + [b[l..r]] else texts
  }

  lemma NothingYet(line: Slice, b: seq<byte>)
    ensures ReadUpTo(line, b, [], [], 0, 0)
  {
    RespRoundTrip.WordsSpace([]);
    assert b[..0] == [];
  }

  lemma WordGoesOn(line: Slice, b: seq<byte>, ws: seq<Slice>, texts: seq<seq<byte>>, l: nat, r: nat)
    requires ReadUpTo(line, b, ws, texts, l, r) && r < |b| && b[r] != SPACE
    ensures ReadUpTo(line, b, ws, texts, l, r + 1)
  {
    hide Words, Parts, TextsIn;
    assert b[l..r + 1] == b[l..r] + [b[r]];
    WordGrows(b, texts, l, r);
  }

  lemma WordGrows(b: seq<byte>, texts: seq<seq<byte>>, l: nat, r: nat)
    requires l <= r < |b| && b[r] != SPACE && (l == 0 || b[l - 1] == SPACE) && SPACE !in b[l..r]
    requires Words(b[..r]) == if l < r then texts + [b[l..r]] else texts
    ensures Words(b[..r + 1]) == texts + [b[l..r + 1]]
  {
    hide Words;
    assert b[..r + 1] == b[..r] + [b[r]];
    assert b[l..r + 1] == b[l..r] + [b[r]];
    if l < r {
      assert b[..r][r - 1] == b[l..r][r - 1 - l];
      RespRoundTrip.WordsGrow(b[..r], b[r]);
      assert (texts + [b[l..r]])[..|texts|] == texts;
    } else {
      RespRoundTrip.WordsBegin(b[..r], b[r]);
    }
  }

  /** The word behind l, if there is one, joins those found. */
  ghost predicate Joined(line: Slice, b: seq<byte>, ws: seq<Slice>, texts: seq<seq<byte>>, r: nat) {
    r <= |b| && Parts(line, ws, r) && TextsIn(line, b, ws, texts) && Words(b[..r]) == texts
  }

  lemma WordEnds(line: Slice, b: seq<byte>, ws: seq<Slice>, texts: seq<seq<byte>>, l: nat, r: nat)
    requires ReadUpTo(line, b, ws, texts, l, r)
    ensures l == r ==> Joined(line, b, ws, texts, r)
    ensures l < r ==>
      Joined(line, b, ws + [Slice(line.arr, line.lo + l, line.lo + r)], texts + [b[l..r]], r)
  {
    hide Words, Parts;
    PartsMore(line, ws, l, r);
    PartsFurther(line, ws + [Slice(line.arr, line.lo + l, line.lo + r)], r, |b|);
    TextsMore(line, b, ws, texts, l, r);
  }

  lemma PartsMore(line: Slice, ws: seq<Slice>, l: nat, r: nat)
    requires Parts(line, ws, l) && l <= r
    ensures Parts(line, ws + [Slice(line.arr, line.lo + l, line.lo + r)], r)
  {
  }

  lemma PartsFurther(line: Slice, ws: seq<Slice>, l: nat, r: nat)
    requires Parts(line, ws, l) && l <= r
    ensures Parts(line, ws, r)
  {
  }

  lemma TextsMore(line: Slice, b: seq<byte>, ws: seq<Slice>, texts: seq<seq<byte>>, l: nat, r: nat)
    requires TextsIn(line, b, ws, texts) && l <= r <= |b|
    requires Parts(line, ws + [Slice(line.arr, line.lo + l, line.lo + r)], |b|)
    ensures TextsIn(line, b, ws + [Slice(line.arr, line.lo + l, line.lo + r)], texts + [b[l..r]])
  {
    hide Parts;
  }

  lemma SpaceFollows(line: Slice, b: seq<byte>, ws: seq<Slice>, texts: seq<seq<byte>>, r: nat)
    requires Joined(line, b, ws, texts, r) && r < |b| && b[r] == SPACE
    ensures ReadUpTo(line, b, ws, texts, r + 1, r + 1)
  {
    hide Words;
    assert b[..r + 1] == b[..r] + [SPACE];
    RespRoundTrip.WordsSpace(b[..r]);
  }

  /** A line is split at its spaces without copying: the words share its array. */
  method SplitLine(line: Slice) returns (ws: seq<Slice>)
    requires Within(line)
    ensures TextsIn(line, Content(line), ws, Words(Content(line)))
  {
    hide Words, TextsIn, Parts, ReadUpTo, Joined;
    ghost var b := Content(line);
    ghost var texts: seq<seq<byte>> := [];
    ws := [];
    var l, r, n := 0, 0, line.hi - line.lo;
    NothingYet(line, b);
    while r <= n
      invariant 0 <= l <= r <= n + 1
      invariant r <= n ==> ReadUpTo(line, b, ws, texts, l, r)
      invariant r == n + 1 ==> Joined(line, b, ws, texts, n)
    {
      if r != n && line.arr[line.lo + r] != SPACE {
        WordGoesOn(line, b, ws, texts, l, r);
        r := r + 1;
        continue;
      }
      WordEnds(line, b, ws, texts, l, r);
      if l < r {
        ws := ws + [Slice(line.arr, line.lo + l, line.lo + r)];
        texts := texts + [b[l..r]];
      }
      if r < n {
        SpaceFollows(line, b, ws, texts, r);
      }
      l := r + 1;
      r := r + 1;
    }
    AllJoined(line, b, ws, texts);
  }

  lemma AllJoined(line: Slice, b: seq<byte>, ws: seq<Slice>, texts: seq<seq<byte>>)
    requires Joined(line, b, ws, texts, |b|)
    ensures TextsIn(line, b, ws, Words(b))
  {
    assert b[..|b|] == b;
  }

  /** The words of an inline command lie pairwise apart in the one slice its line was read into. */
  method LayOutInline(alloc: SliceAlloc, text: seq<byte>) returns (args: array<Slice>, ghost arrs: set<array<byte>>)
    requires alloc.Valid()
    modifies alloc, alloc.buf.arr
    ensures alloc.Valid() && fresh(args) && args.Length == |Words(text)|
    ensures Laid(args, arrs) && Texts(args, arrs) == Words(text)
    ensures forall a :: a in arrs ==> a == old(alloc.buf).arr || fresh(a)
  {
    hide SliceAlloc.Valid, Words, TextsIn;
    var line := ReadText(alloc, text);
    var ws := SplitLine(line);
    args := new Slice[|ws|](k requires 0 <= k < |ws| => ws[k]);
    arrs := {line.arr};
    assert args[..] == ws;
    AllSplit(args, arrs, ws, line, Words(text));
    WordsCounted(line, ws, text);
  }

  lemma WordsCounted(line: Slice, ws: seq<Slice>, text: seq<byte>)
    requires TextsIn(line, text, ws, Words(text))
    ensures |ws| == |Words(text)|
  {
  }

  lemma AllSplit(args: array<Slice>, arrs: set<array<byte>>, ws: seq<Slice>, line: Slice, texts: seq<seq<byte>>)
    requires args[..] == ws && arrs == {line.arr} && Within(line) && TextsIn(line, Content(line), ws, texts)
    ensures Laid(args, arrs) && Texts(args, arrs) == texts
  {
    forall k | 0 <= k < |ws| ensures args[k] == ws[k] && Within(ws[k]) && Content(ws[k]) == texts[k] {
      assert args[..][k] == ws[k];
    }
  }

  /** So an inline command goes through the pass in the same way. */
  method CompressInline(codecs: map<byte, Codec>, cfg: Config, command: string, alloc: SliceAlloc, text: seq<byte>)
    returns (args: array<Slice>, ghost arrs: set<array<byte>>)
    requires alloc.Valid()
    modifies alloc, alloc.buf.arr
    ensures args.Length == |Words(text)| && Laid(args, arrs)
    ensures PassedUpTo(codecs, cfg, command, Words(text), Texts(args, arrs), |Words(text)|)
  {
    hide PassedUpTo, Texts, Words;
    args, arrs := LayOutInline(alloc, text);
    CompressRequest(codecs, cfg, command, args, arrs);
  }
}
