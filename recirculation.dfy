/**
 * What the periodic step does to the queue. In Run mode each of its 64
 * iterations pops the oldest byte, XORs it with a key and pushes it back;
 * on the queue that is one rotation step. This module defines the
 * steps and proves their net effect; among them, a single queued byte
 * is XORed 64 times with the same key and so ends unchanged.
 */
module Recirculation {

  /** One Pop / XOR / Push pair on the queue (a no-op on the empty queue). */
  function Rotate(q: seq<bv8>, key: bv8): (r: seq<bv8>)
    ensures |r| == |q|
  {
    if |q| == 0 then q else q[1..] + [q[0] ^ key]
  }

  /** `n` successive rotation steps. */
  function Recirculate(q: seq<bv8>, key: bv8, n: nat): (r: seq<bv8>)
    ensures |r| == |q|
  {
    if n == 0 then q else Rotate(Recirculate(q, key, n - 1), key)
  }

  /** Every byte XORed with the key, order unchanged. */
  function XorAll(q: seq<bv8>, key: bv8): (r: seq<bv8>)
    ensures |r| == |q|
    ensures forall i :: 0 <= i < |q| ==> r[i] == q[i] ^ key
  {
    seq(|q|, i requires 0 <= i < |q| => q[i] ^ key)
  }

  /** XOR with the same key twice restores every byte. */
  lemma XorAllTwice(q: seq<bv8>, key: bv8)
    ensures XorAll(XorAll(q, key), key) == q
  {
    var r := XorAll(XorAll(q, key), key);
    forall i | 0 <= i < |q|
      ensures r[i] == q[i]
    {
      assert (q[i] ^ key) ^ key == q[i];
    }
  }

  /** Steps compose: `a` steps then `b` steps are `a + b` steps. */
  lemma {:induction false} RecirculateAdd(q: seq<bv8>, key: bv8, a: nat, b: nat)
    ensures Recirculate(Recirculate(q, key, a), key, b) == Recirculate(q, key, a + b)
  {
    if b > 0 {
      RecirculateAdd(q, key, a, b - 1);
    }
  }

  /** XOR of a queue extended by one byte. */
  lemma XorAllSnoc(s: seq<bv8>, b: bv8, key: bv8)
    ensures XorAll(s + [b], key) == XorAll(s, key) + [b ^ key]
  {
    var l, r := XorAll(s + [b], key), XorAll(s, key) + [b ^ key];
    assert |l| == |r|;
    forall i | 0 <= i < |r|
      ensures l[i] == r[i]
    {
      if i < |s| {
        calc {
          l[i];
          (s + [b])[i] ^ key;
          s[i] ^ key;
          r[i];
        }
      }
    }
  }

  /** One rotation step moves the next unprocessed byte, XORed, to the back. */
  lemma RotateStep(q: seq<bv8>, key: bv8, n: nat)
    requires 0 < n <= |q|
    ensures Rotate(q[n - 1..] + XorAll(q[..n - 1], key), key)
            == q[n..] + XorAll(q[..n], key)
  {
    var done := XorAll(q[..n - 1], key);
    var p := q[n - 1..] + done;
    assert p[0] == q[n - 1];
    assert p[1..] == q[n..] + done;
    assert q[..n] == q[..n - 1] + [q[n - 1]];
    XorAllSnoc(q[..n - 1], q[n - 1], key);
  }

  /** After `n <= |q|` steps the first `n` bytes have each been XORed once
      and moved to the back, in order. */
  lemma {:induction false} PartialPass(q: seq<bv8>, key: bv8, n: nat)
    requires n <= |q|
    ensures Recirculate(q, key, n) == q[n..] + XorAll(q[..n], key)
  {
    if n == 0 {
      assert q[0..] == q && q[..0] == [];
    } else {
      PartialPass(q, key, n - 1);
      RotateStep(q, key, n);
    }
  }

  /** One full pass (`|q|` steps) XORs every byte once and restores the order. */
  lemma FullPass(q: seq<bv8>, key: bv8)
    ensures Recirculate(q, key, |q|) == XorAll(q, key)
  {
    PartialPass(q, key, |q|);
    assert q[|q|..] == [] && q[..|q|] == q;
  }

  /** The queue after `m` full passes, each XORing every byte once. */
  function AfterPasses(q: seq<bv8>, key: bv8, m: nat): (r: seq<bv8>)
    ensures |r| == |q|
  {
    if m == 0 then q else XorAll(AfterPasses(q, key, m - 1), key)
  }

  /** An even number of passes gives the queue back; an odd number XORs
      every byte once. */
  lemma {:induction false} AfterPassesParity(q: seq<bv8>, key: bv8, m: nat)
    ensures m % 2 == 0 ==> AfterPasses(q, key, m) == q
    ensures m % 2 == 1 ==> AfterPasses(q, key, m) == XorAll(q, key)
  {
    if m > 0 {
      AfterPassesParity(q, key, m - 1);
      if m % 2 == 0 {
        XorAllTwice(q, key);
      }
    }
  }

  /** `m` full passes of rotation steps (`m * |q|` steps in all). */
  lemma {:induction false} FullPasses(q: seq<bv8>, key: bv8, m: nat)
    ensures Recirculate(q, key, m * |q|) == AfterPasses(q, key, m)
  {
    if m == 0 {
      assert m * |q| == 0;
    } else {
      var k := (m - 1) * |q|;
      FullPasses(q, key, m - 1);
      MulSucc(m - 1, |q|);
      OnePassMore(q, key, k, m - 1);
    }
  }

  /** If `k` steps amount to `m` full passes, `k + |q|` steps amount to `m + 1`. */
  lemma OnePassMore(q: seq<bv8>, key: bv8, k: nat, m: nat)
    requires Recirculate(q, key, k) == AfterPasses(q, key, m)
    ensures Recirculate(q, key, k + |q|) == AfterPasses(q, key, m + 1)
  {
    var p := AfterPasses(q, key, m);
    RecirculateAdd(q, key, k, |q|);
    FullPass(p, key);
  }

  /** `n + 1` groups of `c` are `n` groups and one more. */
  lemma MulSucc(n: nat, c: nat)
    ensures n * c + c == (n + 1) * c
  {
  }

  /**
   * The net effect of `m * c + r` steps (`r < c`) on a queue of `c` bytes:
   * `m` full passes, then a pass over the first `r` bytes of the result.
   * Every number of steps has this form, so this is the whole behaviour.
   */
  lemma ClosedForm(q: seq<bv8>, key: bv8, m: nat, r: nat)
    requires r < |q|
    ensures Recirculate(q, key, m * |q| + r)
            == AfterPasses(q, key, m)[r..] + XorAll(AfterPasses(q, key, m)[..r], key)
  {
    var k := m * |q|;
    FullPasses(q, key, m);
    assert Recirculate(q, key, k) == AfterPasses(q, key, m);
    RecirculateAdd(q, key, k, r);
    PartialPass(AfterPasses(q, key, m), key, r);
  }

  /**
   * The periodic step's 64 iterations on any non-empty queue of at most 64
   * bytes: `64 / c` full passes, then the oldest `64 % c` bytes XORed once
   * more and moved to the back.
   */
  lemma SixtyFourStepsClosedForm(q: seq<bv8>, key: bv8)
    requires 0 < |q| <= 64
    ensures Recirculate(q, key, 64)
            == AfterPasses(q, key, 64 / |q|)[64 % |q|..] + XorAll(AfterPasses(q, key, 64 / |q|)[..64 % |q|], key)
  {
    assert (64 / |q|) * |q| + 64 % |q| == 64;
    ClosedForm(q, key, 64 / |q|, 64 % |q|);
  }

  /**
   * The periodic step's 64 iterations on a queue whose length divides 64:
   * a queue of 1, 2, 4, 8, 16 or 32 bytes ends unchanged (each byte is
   * XORed an even number of times) and a full queue of 64 bytes has every
   * byte XORed once.
   */
  lemma SixtyFourSteps(q: seq<bv8>, key: bv8)
    requires |q| in {1, 2, 4, 8, 16, 32, 64}
    ensures |q| < 64 ==> Recirculate(q, key, 64) == q
    ensures |q| == 64 ==> Recirculate(q, key, 64) == XorAll(q, key)
  {
    var m := 64 / |q|;
    assert m * |q| == 64;
    FullPasses(q, key, m);
    AfterPassesParity(q, key, m);
  }

  /** The scenario of the periodic step's tests: a single queued byte
      comes back unchanged. */
  lemma SingleByteUnchanged(b: bv8, key: bv8)
    ensures Recirculate([b], key, 64) == [b]
  {
    SixtyFourSteps([b], key);
  }
}
