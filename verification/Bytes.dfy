/** Bytes, bounded byte queues and the counters shared by the drivers.

    `dtringfifo` is not part of this model's source, so the queue is given by its contract:
    a push appends the longest prefix that fits, a pop removes at most the requested number
    of bytes from the front. */
module Bytes {
  type Byte = x: int | 0 <= x < 256

  const INT32_MAX: int := 0x7FFF_FFFF

  datatype Option<+T> = None | Some(value: T) {
    function GetOr(default: T): T { if Some? then value else default }
  }

  function Min(a: int, b: int): int { if a <= b then a else b }

  /** Saturating counter update of DTCORE_HELPER_INC32 and DTCORE_HELPER_ADD32. */
  function SatAdd(counter: int, amount: nat): (r: int)
    requires 0 <= counter <= INT32_MAX
    ensures counter + amount <= INT32_MAX ==> r == counter + amount
    ensures counter + amount > INT32_MAX ==> r == INT32_MAX
  {
    Min(counter + amount, INT32_MAX)
  }

  // ----- bounded queue -----

  /** The number of bytes of `bs` that a queue `q` of capacity `cap` accepts. */
  function Room(q: seq<Byte>, cap: nat, bs: seq<Byte>): (n: nat)
    requires |q| <= cap
    ensures n <= |bs|
    ensures |q| + n <= cap
    ensures n < |bs| ==> |q| + n == cap
  {
    Min(|bs|, cap - |q|)
  }

  function Push(q: seq<Byte>, cap: nat, bs: seq<Byte>): (r: seq<Byte>)
    requires |q| <= cap
    ensures |r| <= cap
    ensures q <= r && |r| == |q| + Room(q, cap, bs)
  {
    q + bs[..Room(q, cap, bs)]
  }

  function Front(q: seq<Byte>, n: nat): (r: seq<Byte>)
    ensures r + Rest(q, n) == q
    ensures |r| == Min(n, |q|)
  {
    q[..Min(n, |q|)]
  }

  function Rest(q: seq<Byte>, n: nat): (r: seq<Byte>) { q[Min(n, |q|)..] }

  function Concat<T>(parts: seq<seq<T>>): seq<T> {
    if parts == [] then [] else parts[0] + Concat(parts[1..])
  }

  lemma {:induction false} ConcatAppend<T>(a: seq<seq<T>>, b: seq<seq<T>>)
    ensures Concat(a + b) == Concat(a) + Concat(b)
  {
    if a == [] {
      assert a + b == b;
    } else {
      ConcatAppend(a[1..], b);
      assert (a + b)[0] == a[0] && (a + b)[1..] == a[1..] + b;
      Associate(a[0], Concat(a[1..]), Concat(b));
    }
  }

  lemma Associate<T>(a: seq<T>, b: seq<T>, c: seq<T>)
    ensures a + (b + c) == a + b + c
  {}

  lemma TakeDrop<T>(s: seq<T>, n: nat)
    requires n <= |s|
    ensures s[..n] + s[n..] == s
  {}

  /** A beginning of the parts, and of the next part, is a beginning of the whole. */
  lemma ConcatPrefix<T>(parts: seq<seq<T>>, k: nat, part: seq<T>)
    requires k < |parts| && part <= parts[k]
    ensures Concat(parts[..k]) + part <= Concat(parts)
    ensures Concat(parts[..k + 1]) == Concat(parts[..k]) + parts[k]
  {
    ConcatSnoc(parts, k);
    ConcatTake(parts, k + 1);
    PrefixPrefix(Concat(parts[..k]), part, parts[k], Concat(parts));
  }

  lemma PrefixPrefix<T>(a: seq<T>, b: seq<T>, c: seq<T>, whole: seq<T>)
    requires b <= c && a + c <= whole
    ensures a + b <= whole
  {
    assert c == b + c[|b|..];
    assert a + c == a + b + c[|b|..];
  }

  lemma ConcatTake<T>(parts: seq<seq<T>>, k: nat)
    requires k <= |parts|
    ensures Concat(parts[..k]) <= Concat(parts)
  {
    assert parts == parts[..k] + parts[k..];
    ConcatAppend(parts[..k], parts[k..]);
  }

  lemma ConcatSnoc<T>(parts: seq<seq<T>>, k: nat)
    requires k < |parts|
    ensures Concat(parts[..k + 1]) == Concat(parts[..k]) + parts[k]
  {
    var last := [parts[k]];
    assert parts[..k + 1] == parts[..k] + last;
    ConcatAppend(parts[..k], last);
    assert last[1..] == [] && Concat(last) == last[0] + Concat(last[1..]);
  }

  // ----- subsequences -----

  /** `a` arises from `b` by deleting elements. */
  ghost predicate Subseq<T>(a: seq<T>, b: seq<T>)
    decreases |b|
  {
    || a == []
    || (b != [] && Subseq(a, b[..|b| - 1]))
    || (b != [] && a[|a| - 1] == b[|b| - 1] && Subseq(a[..|a| - 1], b[..|b| - 1]))
  }

  lemma {:induction false} SubseqSkip<T>(a: seq<T>, b: seq<T>, c: seq<T>)
    requires Subseq(a, b)
    ensures Subseq(a, b + c)
    decreases |c|
  {
    if c == [] {
      assert b + c == b;
    } else {
      SubseqSkip(a, b, c[..|c| - 1]);
      assert (b + c)[..|b + c| - 1] == b + c[..|c| - 1];
    }
  }

  lemma {:induction false} SubseqKeep<T>(a: seq<T>, b: seq<T>, c: seq<T>)
    requires Subseq(a, b)
    ensures Subseq(a + c, b + c)
    decreases |c|
  {
    if c == [] {
      assert a + c == a && b + c == b;
    } else {
      var d := c[..|c| - 1];
      SubseqKeep(a, b, d);
      assert (b + c)[..|b + c| - 1] == b + d && (a + c)[..|a + c| - 1] == a + d;
    }
  }

  /** A subsequence is never longer, and is the whole sequence when it is as long. */
  lemma {:induction false} SubseqLength<T>(a: seq<T>, b: seq<T>)
    requires Subseq(a, b)
    ensures |a| <= |b|
    ensures |a| == |b| ==> a == b
    decreases |b|
  {
    if a != [] {
      var c := b[..|b| - 1];
      if Subseq(a, c) {
        SubseqLength(a, c);
      } else {
        SubseqLength(a[..|a| - 1], c);
        assert a == a[..|a| - 1] + [a[|a| - 1]] && b == c + [b[|b| - 1]];
      }
    }
  }
}
