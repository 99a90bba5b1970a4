/**
  The search-and-patch primitive. `FindAndReplace` stands in for the host
  patcher's routine of the same purpose: find the first occurrence of a
  byte string in a buffer and copy the replacement over its start. The two
  `SearchAndPatch` methods are the plugin's thin wrappers around it.
 */
module Patcher {
  import opened CTypes
  import opened Patterns

  /** `find` occurs in `h` at offset `k`. */
  predicate MatchAt(h: seq<byte>, find: seq<byte>, k: nat)
  {
    k + |find| <= |h| && h[k..k + |find|] == find
  }

  /** The lowest offset at or after `from` where `find` occurs. */
  function FirstMatchFrom(h: seq<byte>, find: seq<byte>, from: nat): (r: Option<nat>)
    decreases |h| - from
    ensures r.Some? ==> from <= r.value && MatchAt(h, find, r.value)
    ensures forall j :: from <= j && (r.None? || j < r.value) ==> !MatchAt(h, find, j)
  {
    if from + |find| > |h| then None
    else if MatchAt(h, find, from) then Some(from)
    else FirstMatchFrom(h, find, from + 1)
  }

  function FirstMatch(h: seq<byte>, find: seq<byte>): Option<nat>
  {
    FirstMatchFrom(h, find, 0)
  }

  /** `h` with `p` copied over it from offset `k` on. */
  function Overwrite(h: seq<byte>, k: nat, p: seq<byte>): (r: seq<byte>)
    requires k + |p| <= |h|
    ensures |r| == |h|
  {
    seq(|h|, t requires 0 <= t < |h| => if k <= t < k + |p| then p[t - k] else h[t])
  }

  /** What one search-and-replace does to a buffer's contents. */
  function Replaced(h: seq<byte>, p: Patch): (r: seq<byte>)
    requires Fits(p)
    ensures |r| == |h|
  {
    match FirstMatch(h, p.find)
    case None => h
    case Some(k) => Overwrite(h, k, p.replace)
  }

  /** Without a match the buffer is left byte for byte as it was. */
  lemma {:induction false} ReplacedWithoutMatch(h: seq<byte>, p: Patch)
    requires Fits(p)
    requires forall k :: 0 <= k ==> !MatchAt(h, p.find, k)
    ensures FirstMatch(h, p.find) == None
    ensures Replaced(h, p) == h
  {
  }

  /** With a match, the lowest one is rewritten: its first `|replace|`
      bytes become the replacement, every other byte of the buffer is kept,
      including the tail of the match when the replacement is shorter. */
  lemma {:induction false} ReplacedAtFirstMatch(h: seq<byte>, p: Patch, k: nat)
    requires Fits(p)
    requires MatchAt(h, p.find, k)
    requires forall j :: 0 <= j < k ==> !MatchAt(h, p.find, j)
    ensures FirstMatch(h, p.find) == Some(k)
    ensures Replaced(h, p)[k..k + |p.replace|] == p.replace
    ensures forall t :: 0 <= t < |h| && !(k <= t < k + |p.replace|) ==> Replaced(h, p)[t] == h[t]
    ensures Replaced(h, p)[k + |p.replace|..k + |p.find|] == p.find[|p.replace|..]
  {
    var r := Replaced(h, p);
    assert FirstMatch(h, p.find) == Some(k);
    assert h[k..k + |p.find|] == p.find;
    forall t | k + |p.replace| <= t < k + |p.find|
      ensures r[t] == p.find[t - k]
    {
      assert h[t] == h[k..k + |p.find|][t - k];
    }
  }

  /** A second occurrence after the first is never touched. */
  lemma {:induction false} LaterMatchUntouched(h: seq<byte>, p: Patch, k: nat, m: nat)
    requires Fits(p)
    requires MatchAt(h, p.find, k) && MatchAt(h, p.find, m) && k + |p.find| <= m
    ensures Replaced(h, p)[m..m + |p.find|] == p.find
  {
    var f := FirstMatch(h, p.find);
    assert f.Some? && f.value <= k;
    var r := Replaced(h, p);
    forall t | m <= t < m + |p.find| ensures r[t] == p.find[t - m] {
      assert h[t] == h[m..m + |p.find|][t - m];
    }
  }

  /** No occurrence of `n` can overlap an occurrence of `w`: they differ in
      one of their first two elements, `n`'s first element occurs nowhere
      in `w` after its start, and `w`'s first element nowhere in `n` after
      its start. */
  predicate Apart(w: seq<byte>, n: seq<byte>)
  {
    && 1 < |w| && 1 < |n|
    && (w[0] != n[0] || w[1] != n[1])
    && (forall i :: 0 < i < |w| ==> w[i] != n[0])
    && (forall i :: 0 < i < |n| ==> n[i] != w[0])
  }

  /** Occurrences of two apart byte strings are disjoint. */
  lemma {:induction false} MatchesApart(h: seq<byte>, k: nat, w: seq<byte>, j: nat, n: seq<byte>)
    requires Apart(w, n)
    requires MatchAt(h, w, k) && MatchAt(h, n, j)
    ensures j + |n| <= k || k + |w| <= j
  {
    assert forall t :: k <= t < k + |w| ==> h[t] == w[t - k] by {
      forall t | k <= t < k + |w| ensures h[t] == w[t - k] {
        assert h[k..k + |w|][t - k] == h[t];
      }
    }
    assert forall t :: j <= t < j + |n| ==> h[t] == n[t - j] by {
      forall t | j <= t < j + |n| ensures h[t] == n[t - j] {
        assert h[j..j + |n|][t - j] == h[t];
      }
    }
    assert h[k] == w[0] && h[k + 1] == w[1] && h[j] == n[0] && h[j + 1] == n[1];
  }

  /** The scan for the first occurrence of `find` in `data[..size]`
      (a `memmem`): `k` is its offset when `found`. */
  method FindFirst(data: array<byte>, size: nat, find: seq<byte>) returns (found: bool, k: nat)
    requires size <= data.Length
    ensures FirstMatch(data[..size], find) == if found then Some(k) else None
  {
    ghost var h := data[..size];
    var i := 0;
    while i + |find| <= size
      invariant forall j :: 0 <= j < i ==> !MatchAt(h, find, j)
      decreases size - i
    {
      if data[i..i + |find|] == find {
        assert h[i..i + |find|] == data[i..i + |find|];
        assert MatchAt(h, find, i);
        return true, i;
      }
      assert h[i..i + |find|] == data[i..i + |find|];
      i := i + 1;
    }
    return false, 0;
  }

  /** `KernelPatcher::findAndReplace(data, dataSize, find, findSize,
      replace, replaceSize)`: copy `replace` over the first occurrence of
      `find` in `data[..dataSize]` and report whether there was one. */
  method FindAndReplace(data: array<byte>, dataSize: nat, find: seq<byte>, replace: seq<byte>)
    returns (found: bool)
    requires dataSize <= data.Length
    requires |replace| <= |find|
    modifies data
    ensures found == FirstMatch(old(data[..dataSize]), find).Some?
    ensures data[..dataSize] == Replaced(old(data[..dataSize]), Patch(find, replace))
    ensures data[dataSize..] == old(data[dataSize..])
  {
    var k;
    found, k := FindFirst(data, dataSize, find);
    if found {
      forall t | k <= t < k + |replace| {
        data[t] := replace[t - k];
      }
      assert data[..dataSize] == Overwrite(old(data[..dataSize]), k, replace);
    }
  }

  /** The explicit-size `searchAndPatch`: the caller names how many bytes
      of the needle and of the patch take part. */
  method SearchAndPatch(data: array<byte>, haystackSize: nat, needle: seq<byte>, findSize: nat,
                        patch: seq<byte>, replaceSize: nat)
    requires haystackSize <= data.Length
    requires findSize <= |needle| && replaceSize <= |patch| && replaceSize <= findSize
    modifies data
    ensures data[..haystackSize] == Replaced(old(data[..haystackSize]), Patch(needle[..findSize], patch[..replaceSize]))
    ensures data[haystackSize..] == old(data[haystackSize..])
  {
    var _ := FindAndReplace(data, haystackSize, needle[..findSize], patch[..replaceSize]);
  }

  /** `sizeof(uint8_t)`. */
  const ElementSize: nat := 1

  /** The array-typed `searchAndPatch`: both sizes are the arrays' element
      counts times the element size, so a string table's terminator takes
      part in the match and in the write. */
  method SearchAndPatchArrays(data: array<byte>, haystackSize: nat, needle: seq<byte>, patch: seq<byte>)
    requires haystackSize <= data.Length
    requires |patch| <= |needle|
    modifies data
    ensures data[..haystackSize] == Replaced(old(data[..haystackSize]), Patch(needle, patch))
    ensures data[haystackSize..] == old(data[haystackSize..])
  {
    assert needle[..|needle| * ElementSize] == needle && patch[..|patch| * ElementSize] == patch;
    SearchAndPatch(data, haystackSize, needle, |needle| * ElementSize, patch, |patch| * ElementSize);
  }
}
