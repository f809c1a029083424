/** The shifting and copying loops of bptree.c, each on one buffer. */
module Buffers {

  ghost function InsertAt<T>(s: seq<T>, i: nat, x: T): (r: seq<T>)
    requires i <= |s|
    ensures |r| == |s| + 1
  {
    s[..i] + [x] + s[i..]
  }

  ghost function RemoveAt<T>(s: seq<T>, i: nat): (r: seq<T>)
    requires i < |s|
    ensures |r| == |s| - 1
  {
    s[..i] + s[i + 1..]
  }

  /** Moves a[lo..hi] one slot up and stores `x` in the slot freed at `lo`. */
  method InsertShift<T>(a: array<T>, lo: nat, hi: nat, x: T)
    requires lo <= hi < a.Length
    modifies a
    ensures a[..hi + 1] == InsertAt(old(a[..hi]), lo, x)
    ensures forall j | hi < j < a.Length :: a[j] == old(a[j])
  {
    var i := hi;
    while i > lo
      invariant lo <= i <= hi
      invariant forall j | 0 <= j <= i || hi < j < a.Length :: a[j] == old(a[j])
      invariant forall j | i < j <= hi :: a[j] == old(a[j - 1])
    {
      a[i] := a[i - 1];
      i := i - 1;
    }
    a[lo] := x;
  }

  /** Drops a[lo], moves a[lo + 1..hi] one slot down and stores `blank` in the last slot. */
  method RemoveShift<T>(a: array<T>, lo: nat, hi: nat, blank: T)
    requires lo < hi <= a.Length
    modifies a
    ensures a[..hi - 1] == RemoveAt(old(a[..hi]), lo) && a[hi - 1] == blank
    ensures forall j | hi <= j < a.Length :: a[j] == old(a[j])
  {
    var i := lo;
    while i < hi - 1
      invariant lo <= i < hi
      invariant forall j | 0 <= j < lo || i <= j < a.Length :: a[j] == old(a[j])
      invariant forall j | lo <= j < i :: a[j] == old(a[j + 1])
    {
      a[i] := a[i + 1];
      i := i + 1;
    }
    a[i] := blank;
  }

  /** The temporary buffer of a split: a[..n] with `x` inserted at `index`. */
  method Spread<T(0)>(a: array<T>, n: nat, index: nat, x: T) returns (temp: array<T>)
    requires index <= n <= a.Length
    ensures fresh(temp) && temp[..] == InsertAt(a[..n], index, x)
  {
    temp := new T[n + 1];
    for i := 0 to n + 1
      invariant forall j | 0 <= j < i :: temp[j] == InsertAt(a[..n], index, x)[j]
    {
      if i == index {
        temp[i] := x;
      } else if i < index {
        temp[i] := a[i];
      } else {
        temp[i] := a[i - 1];
      }
    }
  }

  /** Copies src[from..from + n] over dst[..n]. */
  method Fill<T>(src: array<T>, from: nat, n: nat, dst: array<T>)
    requires src != dst && from + n <= src.Length && n <= dst.Length
    modifies dst
    ensures dst[..n] == src[..][from..from + n]
    ensures forall j | n <= j < dst.Length :: dst[j] == old(dst[j])
  {
    for i := 0 to n
      invariant forall j | i <= j < dst.Length :: dst[j] == old(dst[j])
      invariant forall j | 0 <= j < i :: dst[j] == src[j + from]
    {
      dst[i] := src[from + i];
    }
  }

  /** Copies src[..n] to dst[to..to + n]. */
  method Append<T>(src: array<T>, n: nat, dst: array<T>, to: nat)
    requires src != dst && n <= src.Length && to + n <= dst.Length
    modifies dst
    ensures dst[..to + n] == old(dst[..to]) + src[..n]
    ensures forall j | to + n <= j < dst.Length :: dst[j] == old(dst[j])
  {
    for i := 0 to n
      invariant forall j | 0 <= j < to || to + i <= j < dst.Length :: dst[j] == old(dst[j])
      invariant forall j | to <= j < to + i :: dst[j] == src[j - to]
    {
      dst[to + i] := src[i];
    }
  }
}
