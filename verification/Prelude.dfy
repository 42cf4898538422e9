/**
 Shared vocabulary: optional and rejectable results, bytes, ASCII text helpers and
 the few facts about sequences and multisets that several components need.
 */
module Prelude {

  datatype Option<+T> = None | Some(value: T)

  /** The outcome of a check that raises in the program: a value, or a rejection. */
  datatype Result<+T> = Ok(value: T) | Reject

  type byte = x: int | 0 <= x < 256
  type Bytes = seq<byte>

  function Zeros(n: nat): (z: Bytes)
    ensures |z| == n
    ensures forall i :: 0 <= i < n ==> z[i] == 0
  {
    seq(n, i => 0)
  }

  predicate AllZero(s: Bytes) {
    forall i :: 0 <= i < |s| ==> s[i] == 0
  }

  lemma {:induction false} AllZeroIsZeros(s: Bytes)
    requires AllZero(s)
    ensures s == Zeros(|s|)
  {
  }

  /** ASCII lower-casing, the only case folding the modelled names need. */
  function LowerChar(c: char): char {
    if 'A' <= c <= 'Z' then c - 'A' + 'a' else c
  }

  function Lower(s: string): (r: string)
    ensures |r| == |s|
    ensures forall i :: 0 <= i < |s| ==> r[i] == LowerChar(s[i])
  {
    seq(|s|, i requires 0 <= i < |s| => LowerChar(s[i]))
  }

  function Last<T>(s: seq<T>): T
    requires s != []
  {
    s[|s| - 1]
  }

  function Concat<T>(ss: seq<seq<T>>): seq<T> {
    if ss == [] then [] else ss[0] + Concat(ss[1..])
  }

  lemma {:induction false} ConcatSplit<T>(a: seq<seq<T>>, b: seq<seq<T>>)
    ensures Concat(a + b) == Concat(a) + Concat(b)
  {
    if a == [] {
      assert a + b == b;
    } else {
      assert (a + b)[1..] == a[1..] + b;
      ConcatSplit(a[1..], b);
    }
  }

  /** Element `i` of a concatenation starts after the elements before it. */
  lemma {:induction false} ConcatAt<T>(ss: seq<seq<T>>, i: nat)
    requires i < |ss|
    ensures |Concat(ss[..i])| + |ss[i]| <= |Concat(ss)|
    ensures Concat(ss)[|Concat(ss[..i])|..|Concat(ss[..i])| + |ss[i]|] == ss[i]
  {
    ConcatSplit(ss[..i], ss[i..]);
    assert ss[..i] + ss[i..] == ss;
    var a, b := Concat(ss[..i]), Concat(ss[i..]);
    assert b == ss[i] + Concat(ss[i..][1..]);
    SliceRight(a, b, |a|, |a| + |ss[i]|);
    SliceLeft(ss[i], Concat(ss[i..][1..]), 0, |ss[i]|);
  }

  /** A concatenation of equally long elements is addressed by multiples of their length. */
  lemma {:induction false} ConcatLength<T>(ss: seq<seq<T>>, width: nat)
    requires forall i :: 0 <= i < |ss| ==> |ss[i]| == width
    ensures |Concat(ss)| == width * |ss|
  {
    if ss != [] {
      ConcatLength(ss[1..], width);
      assert width * |ss| == width + width * (|ss| - 1);
    }
  }

  lemma {:induction false} SliceLeft<T>(a: seq<T>, b: seq<T>, i: nat, j: nat)
    requires i <= j <= |a|
    ensures (a + b)[i..j] == a[i..j]
  {
  }

  lemma {:induction false} SliceRight<T>(a: seq<T>, b: seq<T>, i: nat, j: nat)
    requires |a| <= i <= j <= |a| + |b|
    ensures (a + b)[i..j] == b[i - |a|..j - |a|]
  {
  }

  lemma {:induction false} SliceOfSlice<T>(s: seq<T>, lo: nat, hi: nat, i: nat, j: nat)
    requires lo <= hi <= |s| && i <= j <= hi - lo
    ensures s[lo..hi][i..j] == s[lo + i..lo + j]
  {
    var t := s[lo..hi];
    forall k | 0 <= k < j - i
      ensures t[i..j][k] == s[lo + i..lo + j][k]
    {
      assert t[i..j][k] == t[i + k] == s[lo + (i + k)];
    }
  }
}
