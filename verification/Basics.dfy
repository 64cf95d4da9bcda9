/** Shared vocabulary: optional values and the 64-bit clock arithmetic of the source. */
module Basics {

  datatype Option<+T> = None | Some(value: T)

  const I64_MIN: int := -0x8000_0000_0000_0000
  const I64_MAX: int := 0x7fff_ffff_ffff_ffff

  /** Wall-clock stamps are `i64` milliseconds in the source. */
  type i64 = x: int | I64_MIN <= x <= I64_MAX

  function Saturate(x: int): i64 {
    if x < I64_MIN then I64_MIN else if x > I64_MAX then I64_MAX else x
  }

  /** `i64::saturating_add` */
  function SatAdd(a: i64, b: i64): i64 { Saturate(a + b) }

  /** `i64::saturating_sub` */
  function SatSub(a: i64, b: i64): i64 { Saturate(a - b) }

  type byte = x: int | 0 <= x < 256

  function Max(a: int, b: int): int { if a < b then b else a }

  function Min(a: int, b: int): int { if a < b then a else b }

  /** Division as Rust and C do it: the quotient is truncated toward zero. */
  function TruncDiv(a: int, b: int): int
    requires b > 0
  {
    if a >= 0 then a / b else -((-a) / b)
  }

  lemma AddAssociates<T>(a: seq<T>, b: seq<T>, c: seq<T>)
    ensures (a + b) + c == a + (b + c)
  {
  }

  lemma AppendSplit<T>(xs: seq<T>, ys: seq<T>)
    requires xs != []
    ensures (xs + ys)[0] == xs[0] && (xs + ys)[1..] == xs[1..] + ys
  {
  }

  function Concat<T>(parts: seq<seq<T>>): seq<T> {
    if parts == [] then [] else parts[0] + Concat(parts[1..])
  }

  lemma {:induction false} ConcatAppend<T>(xs: seq<seq<T>>, ys: seq<seq<T>>)
    ensures Concat(xs + ys) == Concat(xs) + Concat(ys)
  {
    if xs == [] {
      assert xs + ys == ys;
    } else {
      ConcatAppend(xs[1..], ys);
      AppendSplit(xs, ys);
      AddAssociates(xs[0], Concat(xs[1..]), Concat(ys));
    }
  }

  lemma ConcatOne<T>(x: seq<T>)
    ensures Concat([x]) == x
  {
  }

  /** The elements to keep, in order: `filter` on iterators and `retain` on vectors. */
  function Retain<T>(s: seq<T>, keep: T -> bool): seq<T> {
    if s == [] then [] else (if keep(s[0]) then [s[0]] else []) + Retain(s[1..], keep)
  }

  lemma {:induction false} RetainAppend<T>(a: seq<T>, b: seq<T>, keep: T -> bool)
    ensures Retain(a + b, keep) == Retain(a, keep) + Retain(b, keep)
  {
    if a == [] {
      assert a + b == b;
    } else {
      AppendSplit(a, b);
      RetainAppend(a[1..], b, keep);
      AddAssociates(if keep(a[0]) then [a[0]] else [], Retain(a[1..], keep), Retain(b, keep));
    }
  }

  lemma {:induction false} RetainAll<T>(s: seq<T>, keep: T -> bool)
    requires forall i :: 0 <= i < |s| ==> keep(s[i])
    ensures Retain(s, keep) == s
  {
    if s != [] {
      RetainAll(s[1..], keep);
      assert s == [s[0]] + s[1..];
    }
  }

  lemma {:induction false} RetainNone<T>(s: seq<T>, keep: T -> bool)
    requires forall i :: 0 <= i < |s| ==> !keep(s[i])
    ensures Retain(s, keep) == []
  {
    if s != [] {
      RetainNone(s[1..], keep);
    }
  }

  lemma {:induction false} RetainKeeps<T>(s: seq<T>, keep: T -> bool)
    ensures forall i :: 0 <= i < |Retain(s, keep)| ==> keep(Retain(s, keep)[i])
  {
    if s != [] {
      RetainKeeps(s[1..], keep);
      var rest := Retain(s[1..], keep);
      assert forall i :: 0 < i < |[s[0]] + rest| ==> ([s[0]] + rest)[i] == rest[i - 1];
    }
  }

  /** Every occurrence of a kept element survives and no other does. */
  lemma {:induction false} RetainCounts<T>(s: seq<T>, keep: T -> bool, c: T)
    ensures multiset(Retain(s, keep))[c] == if keep(c) then multiset(s)[c] else 0
  {
    if s != [] {
      RetainCounts(s[1..], keep, c);
      assert s == [s[0]] + s[1..];
    }
  }
}
