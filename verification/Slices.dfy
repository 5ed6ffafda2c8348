// Go slices: a window (offset, length, capacity) into a shared array, with the
// append rule that decides between writing in place and moving to a new array.
module Slices {
  import opened Bytes

  datatype Slice = Slice(arr: array<byte>, off: nat, len: nat, cap: nat) {
    predicate Valid() {
      len <= cap && off + cap <= arr.Length
    }

    function View(): (v: seq<byte>)
      requires Valid()
      reads arr
      ensures |v| == len
    {
      arr[off..off + len]
    }
  }

  // a with the bytes d written at position i.
  function Overwrite(a: seq<byte>, i: nat, d: seq<byte>): (r: seq<byte>)
    requires i + |d| <= |a|
    ensures |r| == |a|
  {
    a[..i] + d + a[i + |d|..]
  }

  // Writing inside a window is writing to the array, seen through the window.
  lemma OverwriteInWindow(a: seq<byte>, off: nat, len: nat, i: nat, d: seq<byte>)
    requires off + len <= |a| && i + |d| <= len
    ensures Overwrite(a, off + i, d)[off..off + len] == Overwrite(a[off..off + len], i, d)
  {
    var r := Overwrite(a, off + i, d);
    assert forall k :: 0 <= k < off + i ==> r[k] == a[k];
    assert forall k :: 0 <= k < |d| ==> r[off + i + k] == d[k];
    assert forall k :: off + i + |d| <= k < |a| ==> r[k] == a[k];
  }

  // make([]byte, n)
  method Make(n: nat) returns (s: Slice)
    ensures s.Valid() && fresh(s.arr)
    ensures s.off == 0 && s.len == s.cap == s.arr.Length == n
    ensures forall i :: 0 <= i < n ==> s.arr[i] == 0
  {
    var a := new byte[n](_ => 0);
    s := Slice(a, 0, n, n);
  }

  // copy(s, d) for d no longer than s.
  method Copy(s: Slice, d: seq<byte>)
    requires s.Valid() && |d| <= s.len
    modifies s.arr
    ensures s.arr[..] == Overwrite(old(s.arr[..]), s.off, d)
  {
    forall k | 0 <= k < |d| {
      s.arr[s.off + k] := d[k];
    }
    assert s.arr[..] == Overwrite(old(s.arr[..]), s.off, d);
  }

  // append(s, d...). Within capacity the bytes go into the shared array, just
  // past the window; beyond it the contents move to a new array and the old one
  // keeps what it held. How much spare room the new array has is unspecified.
  method Append(s: Slice, d: seq<byte>) returns (r: Slice)
    requires s.Valid()
    modifies s.arr
    ensures r.Valid() && r.View() == old(s.View()) + d
    ensures s.len + |d| <= s.cap ==>
              && r == s.(len := s.len + |d|)
              && s.arr[..] == Overwrite(old(s.arr[..]), s.off + s.len, d)
    ensures s.len + |d| > s.cap ==> fresh(r.arr) && s.arr[..] == old(s.arr[..])
  {
    if s.len + |d| <= s.cap {
      r := s.(len := s.len + |d|);
      Copy(Slice(s.arr, s.off + s.len, |d|, s.cap - s.len), d);
    } else {
      var c := 2 * s.cap + |d|;
      var a := new byte[c](_ => 0);
      forall k | 0 <= k < s.len {
        a[k] := s.arr[s.off + k];
      }
      forall k | 0 <= k < |d| {
        a[s.len + k] := d[k];
      }
      r := Slice(a, 0, s.len + |d|, c);
    }
  }

  // binary.BigEndian.PutUint32(s[i:], uint32(n)), which panics on fewer than 4 bytes.
  method PutUint32(s: Slice, i: nat, n: int)
    requires s.Valid() && i + 4 <= s.len
    modifies s.arr
    ensures s.arr[..] == Overwrite(old(s.arr[..]), s.off + i, Be32(n))
    ensures s.View() == Overwrite(old(s.View()), i, Be32(n))
  {
    ghost var a := s.arr[..];
    assert s.View() == a[s.off..s.off + s.len];
    Copy(Slice(s.arr, s.off + i, 4, 4), Be32(n));
    OverwriteInWindow(a, s.off, s.len, i, Be32(n));
    assert s.View() == s.arr[..][s.off..s.off + s.len];
  }
}
