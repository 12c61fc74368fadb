/** `constantTimeEqual(a, b)`: the comparison of the secret a caller provides (`a`)
    with the expected one (`b`), without an early exit on the first differing byte. */
module ConstantTime {
  import opened Bytes
  import Utf8

  /** What the comparison decides: the expected secret is configured (non-empty) and the
      provided one is the same string. */
  predicate SecretsEqual(provided: string, expected: string)
  {
    |expected| > 0 && provided == expected
  }

  /** The accumulator after the first `n` steps of the loop: `diff |= aa[i] ^ bb[i]` for
      `i` from 0 to `n - 1`, starting from 0. It stays a byte, and it is zero exactly
      when the first `n` byte pairs agree. */
  function Diff(aa: seq<byte>, bb: seq<byte>, n: nat): (diff: nat)
    requires n <= |aa| && n <= |bb|
    ensures diff < 256
    ensures diff == 0 <==> aa[..n] == bb[..n]
  {
    if n == 0 then 0
    else
      var prev := Diff(aa, bb, n - 1);
      ByteOperators(aa[n - 1], bb[n - 1]);
      ByteOperators(prev, Xor(aa[n - 1], bb[n - 1]));
      assert aa[..n] == aa[..n - 1] + [aa[n - 1]] && bb[..n] == bb[..n - 1] + [bb[n - 1]];
      Or(prev, Xor(aa[n - 1], bb[n - 1]))
  }

  /** The indices `0, 1, …, n - 1`, in order. */
  function Indices(n: nat): (r: seq<nat>)
    ensures |r| == n && forall k :: 0 <= k < n ==> r[k] == k
  {
    seq(n, k => k)
  }

  /** The comparison as the route runs it. `visited` records the indices the loop reads,
      in order: once both length checks pass it is every index of the encodings, whatever
      their contents, so the number of steps depends on the lengths alone. */
  method ConstantTimeEqual(a: string, b: string) returns (eq: bool, ghost visited: seq<nat>)
    ensures eq <==> SecretsEqual(a, b)
    ensures |b| == 0 ==> !eq && visited == []
    ensures |Utf8.Encode(a)| != |Utf8.Encode(b)| ==> !eq && visited == []
    ensures |b| > 0 && |Utf8.Encode(a)| == |Utf8.Encode(b)| ==>
              && visited == Indices(|Utf8.Encode(a)|)
              && (eq <==> forall i :: 0 <= i < |Utf8.Encode(a)| ==> Utf8.Encode(a)[i] == Utf8.Encode(b)[i])
  {
    visited := [];
    if |b| == 0 {
      return false, visited;
    }
    var aa := Utf8.Encode(a);
    var bb := Utf8.Encode(b);
    if |aa| != |bb| {
      return false, visited;
    }
    var diff := 0;
    var i := 0;
    while i < |aa|
      invariant 0 <= i <= |aa|
      invariant diff == Diff(aa, bb, i)
      invariant visited == Indices(i)
    {
      diff := Or(diff, Xor(aa[i], bb[i]));
      visited := visited + [i];
      i := i + 1;
    }
    assert aa[..|aa|] == aa && bb[..|bb|] == bb;
    if diff == 0 {
      Utf8.EncodeInjective(a, b);
    }
    eq := diff == 0;
  }
}
