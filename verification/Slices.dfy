/** Slices of shared byte arrays, and the allocator that carves small ones out of one block. */
module Slices {
  import opened Bytes

  const OWN_SIZE: nat := 512
  const BLOCK_SIZE: nat := 8192

  datatype Slice = Slice(arr: array<byte>, lo: nat, hi: nat)

  predicate Within(s: Slice) {
    s.lo <= s.hi <= s.arr.Length
  }

  function Content(s: Slice): (r: seq<byte>)
    requires Within(s)
    reads s.arr
    ensures |r| == s.hi - s.lo
  {
    s.arr[s.lo..s.hi]
  }

  /** No byte of one lies in the other. */
  predicate Apart(s: Slice, t: Slice) {
    s.arr != t.arr || s.hi <= t.lo || t.hi <= s.lo
  }

  ghost predicate AllApart(ss: seq<Slice>) {
    && (forall i :: 0 <= i < |ss| ==> Within(ss[i]))
    && (forall i, j :: 0 <= i < j < |ss| ==> Apart(ss[i], ss[j]))
  }

  class SliceAlloc {
    var buf: Slice
    ghost var given: seq<Slice>

    /** What was handed out is pairwise apart, and apart from the rest of the block. */
    ghost predicate Valid()
      reads this
    {
      && Within(buf) && AllApart(given)
      && forall i :: 0 <= i < |given| ==> Apart(given[i], buf)
    }

    constructor ()
      ensures Valid() && given == []
    {
      var none := new byte[0];
      buf, given := Slice(none, 0, 0), [];
    }

    method Make(n: nat) returns (s: Slice)
      requires Valid()
      modifies this
      ensures Valid() && given == old(given) + [s]
      ensures s.hi - s.lo == n && Within(s)
      ensures s.arr == old(buf).arr || fresh(s.arr)
      ensures buf.arr == old(buf).arr || fresh(buf.arr)
      ensures n == 0 || n >= 512 ==> fresh(s.arr) && s.arr.Length == n && buf == old(buf)
      ensures 0 < n < 512 ==>
        && s.arr == buf.arr && buf.lo == s.hi
        && if old(buf).hi - old(buf).lo >= n then s.arr == old(buf).arr && s.lo == old(buf).lo
           else fresh(s.arr) && s.arr.Length == 8192 && s.lo == 0
    {
      if n == 0 || n >= OWN_SIZE {
        var own := new byte[n];
        s := Slice(own, 0, n);
      } else {
        if buf.hi - buf.lo < n {
          var block := new byte[BLOCK_SIZE];
          buf := Slice(block, 0, BLOCK_SIZE);
        }
        s := Slice(buf.arr, buf.lo, buf.lo + n);
        buf := Slice(buf.arr, buf.lo + n, buf.hi);
      }
      given := given + [s];
    }
  }

  /** Copying bytes over the head of a slice; the rest of its array stays as it was. */
  method Overwrite(s: Slice, b: seq<byte>) returns (t: Slice)
    requires Within(s) && |b| <= s.hi - s.lo
    modifies s.arr
    ensures t == Slice(s.arr, s.lo, s.lo + |b|) && Content(t) == b
    ensures forall k :: 0 <= k < s.arr.Length && !(s.lo <= k < s.lo + |b|) ==> s.arr[k] == old(s.arr[k])
  {
    var i := 0;
    while i < |b|
      invariant 0 <= i <= |b|
      invariant forall k :: 0 <= k < i ==> s.arr[s.lo + k] == b[k]
      invariant forall k :: 0 <= k < s.arr.Length && !(s.lo <= k < s.lo + i) ==> s.arr[k] == old(s.arr[k])
    {
      s.arr[s.lo + i] := b[i];
      i := i + 1;
    }
    t := Slice(s.arr, s.lo, s.lo + |b|);
  }
}
