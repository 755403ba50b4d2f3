/**
  What the light client (pkg/lightclient/client.go) hashes and compares, written out: numbers and digests as
  texts, and an inclusion proof level by level.
 */
module LightClientText {
  import opened LightClient

  // ---- Texts ----

  const DIGITS := "0123456789abcdef"

  /** The number that a text of decimal digits stands for, most significant digit first. */
  function ValueOf(s: string): int {
    if s == "" then 0 else 10 * ValueOf(s[..|s| - 1]) + (s[|s| - 1] as int - '0' as int)
  }

  /** Decimal numbers have decimal digits and no leading zero, and stand for themselves. */
  lemma {:induction false} DecimalReads(n: nat)
    ensures var s := Decimal(n);
            && s != "" && (forall i :: 0 <= i < |s| ==> '0' <= s[i] <= '9')
            && (s[0] == '0' <==> n == 0) && ValueOf(s) == n
  {
    if n < 10 {
      assert Decimal(n)[..0] == "" && ValueOf("") == 0;
    } else {
      DecimalReads(n / 10);
      var front := Decimal(n / 10);
      assert Decimal(n) == front + [HexDigit(n % 10)];
      assert Decimal(n)[..|front|] == front;
    }
  }

  /** A digest is written as `0x` and two lower-case hexadecimal digits for each byte, the higher one first. */
  lemma {:induction false} HexReads(bytes: seq<byte>, i: nat)
    requires i < |bytes|
    ensures Hex(bytes)[2 * i] == DIGITS[bytes[i] as int / 16] && Hex(bytes)[2 * i + 1] == DIGITS[bytes[i] as int % 16]
  {
    if i > 0 {
      HexReads(bytes[1..], i - 1);
      assert Hex(bytes) == HexByte(bytes[0]) + Hex(bytes[1..]);
    } else {
      DigitOf(bytes[0] as int / 16);
      DigitOf(bytes[0] as int % 16);
    }
  }

  lemma DigitOf(d: nat)
    requires d < 16
    ensures HexDigit(d) == DIGITS[d]
  {
  }

  // ---- Levels ----

  /**
    The hashes from the leaf up: at level `k` the one below and its sibling are joined by a separator, the
    sibling behind it where bit `k` of the index is zero and in front of it where it is one.
   */
  predicate AreLevels(sha: Sha, p: InclusionProof, levels: seq<string>) {
    && |levels| == |p.siblingHashes| + 1 && levels[0] == p.leafHash
    && forall k :: 0 <= k < |p.siblingHashes| ==>
         IsAbove(sha, levels[k + 1], levels[k], p.siblingHashes[k], p.leafIndex, k)
  }

  predicate IsAbove(sha: Sha, above: string, below: string, sibling: string, index: nat, k: nat) {
    above == "0x" + Hex(sha(if index / Pow2(k) % 2 == 0 then below + "|" + sibling else sibling + "|" + below))
  }

  lemma NextLevel(sha: Sha, p: InclusionProof, k: nat)
    requires k < |p.siblingHashes|
    ensures var xs, i := p.siblingHashes, p.leafIndex;
            Climb(sha, p.leafHash, xs[..k + 1], i) == Up(sha, Climb(sha, p.leafHash, xs[..k], i), xs[k], i / Pow2(k))
  {
    var xs := p.siblingHashes;
    assert xs[..k + 1] == xs[..k] + [xs[k]];
    ClimbLast(sha, p.leafHash, xs[..k], xs[k], p.leafIndex);
  }

  lemma {:induction false} LevelsClimb(sha: Sha, p: InclusionProof, levels: seq<string>, k: nat)
    requires AreLevels(sha, p, levels) && k <= |p.siblingHashes|
    ensures levels[k] == Climb(sha, p.leafHash, p.siblingHashes[..k], p.leafIndex)
  {
    if k > 0 {
      LevelsClimb(sha, p, levels, k - 1);
      assert IsAbove(sha, levels[k], levels[k - 1], p.siblingHashes[k - 1], p.leafIndex, k - 1);
      ClimbIsAbove(sha, p, k - 1);
    }
  }

  lemma ClimbIsAbove(sha: Sha, p: InclusionProof, k: nat)
    requires k < |p.siblingHashes|
    ensures var xs := p.siblingHashes;
            IsAbove(sha, Climb(sha, p.leafHash, xs[..k + 1], p.leafIndex), Climb(sha, p.leafHash, xs[..k], p.leafIndex),
                    xs[k], p.leafIndex, k)
  {
    NextLevel(sha, p, k);
  }

  lemma ClimbsAreLevels(sha: Sha, p: InclusionProof) returns (climbs: seq<string>)
    ensures AreLevels(sha, p, climbs)
    ensures climbs[|p.siblingHashes|] == Climb(sha, p.leafHash, p.siblingHashes, p.leafIndex)
  {
    var n := |p.siblingHashes|;
    climbs := seq(n + 1, k requires 0 <= k <= n => Climb(sha, p.leafHash, p.siblingHashes[..k], p.leafIndex));
    forall k | 0 <= k < n
      ensures IsAbove(sha, climbs[k + 1], climbs[k], p.siblingHashes[k], p.leafIndex, k)
    {
      ClimbIsAbove(sha, p, k);
    }
    assert p.siblingHashes[..n] == p.siblingHashes;
  }

  /** A proof is accepted exactly when none of its texts is empty and its levels lead to the root. */
  lemma AcceptedByLevels(sha: Sha, p: InclusionProof)
    ensures Accepts(sha, p) <==>
              && p.leafHash != "" && p.rootHash != ""
              && (forall k :: 0 <= k < |p.siblingHashes| ==> p.siblingHashes[k] != "")
              && exists levels :: AreLevels(sha, p, levels) && levels[|p.siblingHashes|] == p.rootHash
  {
    var n := |p.siblingHashes|;
    var climbs := ClimbsAreLevels(sha, p);
    if levels :| AreLevels(sha, p, levels) && levels[n] == p.rootHash {
      LevelsClimb(sha, p, levels, n);
      assert p.siblingHashes[..n] == p.siblingHashes;
    }
  }
}
