/**
  The light client (pkg/lightclient/client.go): header chains and Merkle inclusion proofs.

  SHA-256 is an arbitrary function `sha` from texts to digests.  Nothing is assumed about it; the
  theorems end in "equal, or here are two different texts with the same digest".
 */
module LightClient {
  import opened Wrappers

  newtype byte = b: int | 0 <= b < 256
  type Sha = string -> seq<byte>

  const MAX_UINT64: nat := 0xFFFF_FFFF_FFFF_FFFF
  type uint64 = n: nat | n <= MAX_UINT64

  /** Two different texts with the same digest. */
  datatype Collision = Collision(a: string, b: string) {
    predicate Valid(sha: Sha) {
      a != b && sha(a) == sha(b)
    }
  }

  // ---- Text forms ----

  function HexDigit(d: nat): (c: char)
    requires d < 16
    ensures c != '|'
  {
    if d < 10 then '0' + d as char else 'a' + (d - 10) as char
  }

  function HexByte(b: byte): string {
    [HexDigit(b as int / 16), HexDigit(b as int % 16)]
  }

  function Hex(bytes: seq<byte>): (s: string)
    ensures |s| == 2 * |bytes|
    ensures '|' !in s
  {
    if bytes == [] then "" else HexByte(bytes[0]) + Hex(bytes[1..])
  }

  /** The digest as the client writes it: `0x` and lower-case hexadecimal. */
  function Digest(sha: Sha, text: string): (s: string)
    ensures s != "" && '|' !in s
  {
    "0x" + Hex(sha(text))
  }

  function Decimal(n: nat): (s: string)
    ensures s != "" && '|' !in s
  {
    if n < 10 then [HexDigit(n)] else Decimal(n / 10) + [HexDigit(n % 10)]
  }

  lemma HexDigitInjective(c: nat, d: nat)
    requires c < 16 && d < 16 && HexDigit(c) == HexDigit(d)
    ensures c == d
  {
  }

  lemma {:induction false} HexInjective(a: seq<byte>, b: seq<byte>)
    requires Hex(a) == Hex(b)
    ensures a == b
  {
    assert |a| == |b|;
    if a != [] {
      assert Hex(a)[0] == HexDigit(a[0] as int / 16) && Hex(a)[1] == HexDigit(a[0] as int % 16);
      assert Hex(b)[0] == HexDigit(b[0] as int / 16) && Hex(b)[1] == HexDigit(b[0] as int % 16);
      HexDigitInjective(a[0] as int / 16, b[0] as int / 16);
      HexDigitInjective(a[0] as int % 16, b[0] as int % 16);
      assert Hex(a)[2..] == Hex(a[1..]) && Hex(b)[2..] == Hex(b[1..]);
      HexInjective(a[1..], b[1..]);
    }
  }

  lemma {:induction false} DecimalInjective(m: nat, n: nat)
    requires Decimal(m) == Decimal(n)
    ensures m == n
  {
    var s, t := Decimal(m), Decimal(n);
    assert s[|s| - 1] == HexDigit(m % 10) && t[|t| - 1] == HexDigit(n % 10);
    HexDigitInjective(m % 10, n % 10);
    assert m < 10 <==> |s| == 1;
    assert n < 10 <==> |t| == 1;
    if m >= 10 {
      assert s[..|s| - 1] == Decimal(m / 10) && t[..|t| - 1] == Decimal(n / 10);
      DecimalInjective(m / 10, n / 10);
    }
  }

  lemma DigestInjective(sha: Sha, a: string, b: string)
    requires Digest(sha, a) == Digest(sha, b)
    ensures a == b || Collision(a, b).Valid(sha)
  {
    assert Digest(sha, a)[2..] == Hex(sha(a)) && Digest(sha, b)[2..] == Hex(sha(b));
    HexInjective(sha(a), sha(b));
  }

  /** A text is split uniquely at its first separator. */
  lemma SplitAtSeparator(a: string, x: string, b: string, y: string)
    requires '|' !in a && '|' !in b
    requires a + "|" + x == b + "|" + y
    ensures a == b && x == y
  {
    var s, t := a + "|" + x, b + "|" + y;
    assert s[|a|] == '|' && t[|b|] == '|';
    assert forall i :: 0 <= i < |a| ==> s[i] == a[i];
    assert forall i :: 0 <= i < |b| ==> t[i] == b[i];
    assert a == s[..|a|] && b == t[..|b|];
    assert x == s[|a| + 1..] && y == t[|b| + 1..];
  }

  /** So it is at its last separator. */
  lemma SplitAtLast(a: string, x: string, b: string, y: string)
    requires '|' !in x && '|' !in y
    requires a + "|" + x == b + "|" + y
    ensures a == b && x == y
  {
    var s, t := a + "|" + x, b + "|" + y;
    assert s[|a|] == '|' && t[|b|] == '|';
    assert forall i :: |a| < i < |s| ==> s[i] == x[i - |a| - 1];
    assert forall i :: |b| < i < |t| ==> t[i] == y[i - |b| - 1];
    assert a == s[..|a|] && b == t[..|b|];
    assert x == s[|a| + 1..] && y == t[|b| + 1..];
  }

  /** A text with one separator is split nowhere else. */
  lemma SplitAtOnly(a: string, x: string, b: string, y: string)
    requires '|' !in a && '|' !in x
    requires a + "|" + x == b + "|" + y
    ensures a == b && x == y
  {
    var s, t := a + "|" + x, b + "|" + y;
    assert t[|b|] == '|' && s[|b|] == '|';
    assert forall i :: 0 <= i < |s| ==> s[i] == if i < |a| then a[i] else if i == |a| then '|' else x[i - |a| - 1];
    assert |b| == |a|;
    assert a == s[..|a|] && b == t[..|b|] && x == s[|a| + 1..] && y == t[|b| + 1..];
  }

  // ---- Merkle inclusion proofs ----

  datatype InclusionProof = InclusionProof(
    leafHash: string, siblingHashes: seq<string>, leafIndex: uint64, rootHash: string)

  function HashPair(sha: Sha, left: string, right: string): (s: string)
    ensures s != "" && '|' !in s
  {
    Digest(sha, left + "|" + right)
  }

  /** One level up: the pair that is hashed, in order. */
  function Up(sha: Sha, current: string, sibling: string, idx: nat): string {
    if idx % 2 == 0 then HashPair(sha, current, sibling) else HashPair(sha, sibling, current)
  }

  function Climb(sha: Sha, current: string, siblings: seq<string>, idx: nat): string
    decreases |siblings|
  {
    if siblings == [] then current
    else Climb(sha, Up(sha, current, siblings[0], idx), siblings[1..], idx / 2)
  }

  predicate Accepts(sha: Sha, p: InclusionProof) {
    && p.leafHash != "" && p.rootHash != ""
    && "" !in p.siblingHashes
    && Climb(sha, p.leafHash, p.siblingHashes, p.leafIndex) == p.rootHash
  }

  method VerifyInclusionProof(sha: Sha, proof: InclusionProof) returns (ok: bool)
    ensures ok == Accepts(sha, proof)
  {
    if proof.leafHash == "" || proof.rootHash == "" {
      return false;
    }
    var current := proof.leafHash;
    var idx: nat := proof.leafIndex;
    for i := 0 to |proof.siblingHashes|
      invariant "" !in proof.siblingHashes[..i]
      invariant Climb(sha, current, proof.siblingHashes[i..], idx)
             == Climb(sha, proof.leafHash, proof.siblingHashes, proof.leafIndex)
    {
      var sibling := proof.siblingHashes[i];
      if sibling == "" {
        return false;
      }
      assert proof.siblingHashes[i..][1..] == proof.siblingHashes[i + 1..];
      if idx % 2 == 0 {
        current := HashPair(sha, current, sibling);
      } else {
        current := HashPair(sha, sibling, current);
      }
      idx := idx / 2;
    }
    return current == proof.rootHash;
  }

  function Pow2(n: nat): (p: nat)
    ensures p > 0
  {
    if n == 0 then 1 else 2 * Pow2(n - 1)
  }

  /** The text hashed at the first level. */
  function Preimage(current: string, sibling: string, idx: nat): string {
    if idx % 2 == 0 then current + "|" + sibling else sibling + "|" + current
  }

  /** The first level, from the top, at which the two climbs hash different texts. */
  function FindCollision(sha: Sha, x: string, xs: seq<string>, y: string, ys: seq<string>, i: nat, j: nat): Collision
    requires |xs| == |ys| > 0
    decreases |xs|
  {
    var x', y' := Up(sha, x, xs[0], i), Up(sha, y, ys[0], j);
    if x' == y' && xs[1..] == ys[1..] then Collision(Preimage(x, xs[0], i), Preimage(y, ys[0], j))
    else if |xs| == 1 then Collision("", "")
    else FindCollision(sha, x', xs[1..], y', ys[1..], i / 2, j / 2)
  }

  lemma LevelBinds(sha: Sha, x: string, a: string, y: string, b: string, i: nat, j: nat)
    requires i % 2 == j % 2 && '|' !in x && '|' !in y
    requires Up(sha, x, a, i) == Up(sha, y, b, j)
    ensures (x == y && a == b) || Collision(Preimage(x, a, i), Preimage(y, b, j)).Valid(sha)
  {
    DigestInjective(sha, Preimage(x, a, i), Preimage(y, b, j));
    if Preimage(x, a, i) == Preimage(y, b, j) {
      if i % 2 == 0 {
        SplitAtSeparator(x, a, y, b);
      } else {
        SplitAtLast(a, x, b, y);
      }
    }
  }

  lemma {:induction false} ClimbBinds(sha: Sha, x: string, xs: seq<string>, y: string, ys: seq<string>, i: nat, j: nat)
    requires |xs| == |ys| && i % Pow2(|xs|) == j % Pow2(|xs|)
    requires '|' !in x && '|' !in y
    requires Climb(sha, x, xs, i) == Climb(sha, y, ys, j)
    ensures (x == y && xs == ys) || (|xs| > 0 && FindCollision(sha, x, xs, y, ys, i, j).Valid(sha))
    decreases |xs|
  {
    if xs != [] {
      SamePath(i, j, |xs|);
      ClimbBinds(sha, Up(sha, x, xs[0], i), xs[1..], Up(sha, y, ys[0], j), ys[1..], i / 2, j / 2);
      BindsBelow(sha, x, xs, y, ys, i, j);
    }
  }

  lemma SameSiblings(xs: seq<string>, ys: seq<string>)
    requires xs != [] && ys != [] && xs[0] == ys[0] && xs[1..] == ys[1..]
    ensures xs == ys
  {
    assert xs == [xs[0]] + xs[1..] && ys == [ys[0]] + ys[1..];
  }

  /** The climbs meet one level up: there is the same pair, or it collides. */
  lemma MeetBinds(sha: Sha, x: string, xs: seq<string>, y: string, ys: seq<string>, i: nat, j: nat)
    requires |xs| == |ys| > 0 && i % 2 == j % 2 && '|' !in x && '|' !in y
    requires Up(sha, x, xs[0], i) == Up(sha, y, ys[0], j) && xs[1..] == ys[1..]
    ensures (x == y && xs == ys) || Collision(Preimage(x, xs[0], i), Preimage(y, ys[0], j)).Valid(sha)
  {
    LevelBinds(sha, x, xs[0], y, ys[0], i, j);
    if xs[0] == ys[0] {
      SameSiblings(xs, ys);
    }
  }

  lemma BindsBelow(sha: Sha, x: string, xs: seq<string>, y: string, ys: seq<string>, i: nat, j: nat)
    requires |xs| == |ys| > 0 && i % 2 == j % 2 && '|' !in x && '|' !in y
    requires var x', y' := Up(sha, x, xs[0], i), Up(sha, y, ys[0], j);
             || (x' == y' && xs[1..] == ys[1..])
             || (|xs| > 1 && FindCollision(sha, x', xs[1..], y', ys[1..], i / 2, j / 2).Valid(sha))
    ensures (x == y && xs == ys) || FindCollision(sha, x, xs, y, ys, i, j).Valid(sha)
  {
    var x', y' := Up(sha, x, xs[0], i), Up(sha, y, ys[0], j);
    if x' == y' && xs[1..] == ys[1..] {
      MeetBinds(sha, x, xs, y, ys, i, j);
      FoundHere(sha, x, xs, y, ys, i, j);
    } else {
      FoundAbove(sha, x, xs, y, ys, i, j);
    }
  }

  lemma FoundHere(sha: Sha, x: string, xs: seq<string>, y: string, ys: seq<string>, i: nat, j: nat)
    requires |xs| == |ys| > 0 && Up(sha, x, xs[0], i) == Up(sha, y, ys[0], j) && xs[1..] == ys[1..]
    ensures FindCollision(sha, x, xs, y, ys, i, j) == Collision(Preimage(x, xs[0], i), Preimage(y, ys[0], j))
  {
  }

  lemma FoundAbove(sha: Sha, x: string, xs: seq<string>, y: string, ys: seq<string>, i: nat, j: nat)
    requires |xs| == |ys| > 1
    requires !(Up(sha, x, xs[0], i) == Up(sha, y, ys[0], j) && xs[1..] == ys[1..])
    ensures FindCollision(sha, x, xs, y, ys, i, j) ==
              FindCollision(sha, Up(sha, x, xs[0], i), xs[1..], Up(sha, y, ys[0], j), ys[1..], i / 2, j / 2)
  {
  }

  lemma SamePath(i: nat, j: nat, d: nat)
    requires d > 0 && i % Pow2(d) == j % Pow2(d)
    ensures i % 2 == j % 2 && (i / 2) % Pow2(d - 1) == (j / 2) % Pow2(d - 1)
  {
    HalfMod(i, d);
    HalfMod(j, d);
  }

  lemma HalfMod(i: nat, d: nat)
    requires d > 0
    ensures i % 2 == (i % Pow2(d)) % 2 && (i / 2) % Pow2(d - 1) == (i % Pow2(d)) / 2
  {
    var m := Pow2(d - 1);
    var q, r := i / (2 * m), i % (2 * m);
    assert i == 2 * m * q + r;
    assert i == 2 * (m * q) + r by { assert 2 * m * q == 2 * (m * q); }
    assert i / 2 == m * q + r / 2;
    assert r / 2 < m;
    ModUnique(i / 2, m, q, r / 2);
  }

  lemma ModUnique(n: nat, m: nat, q: nat, r: nat)
    requires m > 0 && r < m && n == m * q + r
    ensures n % m == r && n / m == q
  {
    var q', r' := n / m, n % m;
    assert n == m * q' + r';
    if q < q' {
      TimesMonotone(m, q + 1, q');
    } else if q' < q {
      TimesMonotone(m, q' + 1, q);
    }
  }

  lemma TimesMonotone(m: nat, a: int, b: int)
    requires a <= b
    ensures m * a <= m * b
  {
    assert m * b == m * a + m * (b - a);
  }

  /** The texts that two proofs hash differently at the highest level where they do. */
  function CollisionOf(sha: Sha, p: InclusionProof, q: InclusionProof): Collision
    requires |p.siblingHashes| == |q.siblingHashes| > 0
  {
    FindCollision(sha, p.leafHash, p.siblingHashes, q.leafHash, q.siblingHashes, p.leafIndex, q.leafIndex)
  }

  /**
    Binding: two accepted proofs of the same depth, for the same position below the same root, have
    the same leaf and siblings, or their paths exhibit a collision.  Only the leaves have to be free of
    the separator: above them one of the two texts of a level is a digest.
   */
  lemma ProofBinds(sha: Sha, p: InclusionProof, q: InclusionProof)
    requires Accepts(sha, p) && Accepts(sha, q) && p.rootHash == q.rootHash
    requires |p.siblingHashes| == |q.siblingHashes|
    requires p.leafIndex % Pow2(|p.siblingHashes|) == q.leafIndex % Pow2(|p.siblingHashes|)
    requires '|' !in p.leafHash && '|' !in q.leafHash
    ensures (p.leafHash == q.leafHash && p.siblingHashes == q.siblingHashes)
            || (|p.siblingHashes| > 0
                && CollisionOf(sha, p, q).Valid(sha))
  {
    ClimbBinds(sha, p.leafHash, p.siblingHashes, q.leafHash, q.siblingHashes, p.leafIndex, q.leafIndex);
  }

  lemma {:induction false} ClimbModulo(sha: Sha, x: string, xs: seq<string>, i: nat, j: nat)
    requires i % Pow2(|xs|) == j % Pow2(|xs|)
    ensures Climb(sha, x, xs, i) == Climb(sha, x, xs, j)
    decreases |xs|
  {
    if xs != [] {
      SamePath(i, j, |xs|);
      ClimbModulo(sha, Up(sha, x, xs[0], i), xs[1..], i / 2, j / 2);
    }
  }

  /** Only the low bits of the index, one for each level, take part: the rest is not checked. */
  lemma IndexCountsModulo(sha: Sha, p: InclusionProof, index: uint64)
    requires p.leafIndex % Pow2(|p.siblingHashes|) == index % Pow2(|p.siblingHashes|)
    ensures Accepts(sha, p.(leafIndex := index)) == Accepts(sha, p)
  {
    ClimbModulo(sha, p.leafHash, p.siblingHashes, p.leafIndex, index);
  }

  /** The depth takes part in what is bound: every accepted proof is also one for the node above the leaf. */
  lemma LevelDropped(sha: Sha, p: InclusionProof)
    requires p.siblingHashes != [] && p.leafHash != "" && p.siblingHashes[0] != ""
    ensures var above := InclusionProof(Up(sha, p.leafHash, p.siblingHashes[0], p.leafIndex),
                                        p.siblingHashes[1..], p.leafIndex / 2, p.rootHash);
            Accepts(sha, p) == Accepts(sha, above)
  {
    assert "" in p.siblingHashes <==> "" in p.siblingHashes[1..] by {
      assert p.siblingHashes == [p.siblingHashes[0]] + p.siblingHashes[1..];
    }
  }

  // ---- Which proofs bind their leaf ----

  /** Another accepted proof of the same depth, for the same position below the same root. */
  predicate Rivals(sha: Sha, p: InclusionProof, q: InclusionProof) {
    && Accepts(sha, q) && q.rootHash == p.rootHash && |q.siblingHashes| == |p.siblingHashes|
    && p.leafIndex % Pow2(|p.siblingHashes|) == q.leafIndex % Pow2(|p.siblingHashes|)
  }

  /** The text that is hashed with the leaf. */
  function BottomText(p: InclusionProof): string
    requires p.siblingHashes != []
  {
    Preimage(p.leafHash, p.siblingHashes[0], p.leafIndex)
  }

  /** Where the leaf and its sibling meet in it. */
  function Seam(p: InclusionProof): nat
    requires p.siblingHashes != []
  {
    if p.leafIndex % 2 == 0 then |p.leafHash| else |p.siblingHashes[0]|
  }

  /** A text with a separator at `k` that has something on both sides. */
  predicate SplitsAt(text: string, k: nat) {
    0 < k < |text| - 1 && text[k] == '|'
  }

  /** The proof that splits the same text at `k`. */
  function Resplit(p: InclusionProof, k: nat): InclusionProof
    requires p.siblingHashes != [] && k < |BottomText(p)|
  {
    var l, r, above := BottomText(p)[..k], BottomText(p)[k + 1..], p.siblingHashes[1..];
    if p.leafIndex % 2 == 0 then p.(leafHash := l, siblingHashes := [r] + above)
    else p.(leafHash := r, siblingHashes := [l] + above)
  }

  lemma ResplitRivals(sha: Sha, p: InclusionProof, k: nat)
    requires Accepts(sha, p) && p.siblingHashes != [] && SplitsAt(BottomText(p), k) && k != Seam(p)
    ensures var q := Resplit(p, k);
            && Rivals(sha, p, q) && q.leafHash != p.leafHash
            && !CollisionOf(sha, p, q).Valid(sha)
  {
    ResplitSame(p, k);
    var q, t := Resplit(p, k), BottomText(p);
    assert p.siblingHashes == [p.siblingHashes[0]] + p.siblingHashes[1..];
    assert Up(sha, p.leafHash, p.siblingHashes[0], p.leafIndex) == Digest(sha, t);
    assert Up(sha, q.leafHash, q.siblingHashes[0], p.leafIndex) == Digest(sha, t);
  }

  lemma ResplitSame(p: InclusionProof, k: nat)
    requires p.siblingHashes != [] && SplitsAt(BottomText(p), k)
    ensures var q := Resplit(p, k);
            && BottomText(q) == BottomText(p) && q.siblingHashes[1..] == p.siblingHashes[1..]
            && q.leafHash != "" && q.siblingHashes[0] != "" && (k != Seam(p) ==> |q.leafHash| != |p.leafHash|)
  {
    var t := BottomText(p);
    assert t == t[..k] + "|" + t[k + 1..];
  }

  /**
    A leaf that contains the separator is not bound, at any depth and in any position: a part of it can
    move into its sibling.
   */
  lemma SeparatorMoves(sha: Sha, p: InclusionProof, a: string, b: string) returns (q: InclusionProof)
    requires Accepts(sha, p) && p.siblingHashes != []
    requires p.leafHash == a + "|" + b && a != "" && b != ""
    ensures Rivals(sha, p, q) && q.leafHash != p.leafHash
    ensures !CollisionOf(sha, p, q).Valid(sha)
  {
    var k := if p.leafIndex % 2 == 0 then |a| else |p.siblingHashes[0]| + 1 + |a|;
    assert SplitsAt(BottomText(p), k);
    ResplitRivals(sha, p, k);
    q := Resplit(p, k);
  }

  /** Without any condition on the hashes, proofs below one root hash the same text at the bottom, or collide. */
  lemma BottomBinds(sha: Sha, p: InclusionProof, q: InclusionProof)
    requires Accepts(sha, p) && Rivals(sha, p, q) && p.siblingHashes != []
    ensures (BottomText(p) == BottomText(q) && p.siblingHashes[1..] == q.siblingHashes[1..])
            || CollisionOf(sha, p, q).Valid(sha)
  {
    var x := Up(sha, p.leafHash, p.siblingHashes[0], p.leafIndex);
    var y := Up(sha, q.leafHash, q.siblingHashes[0], q.leafIndex);
    SamePath(p.leafIndex, q.leafIndex, |p.siblingHashes|);
    ClimbBinds(sha, x, p.siblingHashes[1..], y, q.siblingHashes[1..], p.leafIndex / 2, q.leafIndex / 2);
    if x == y && p.siblingHashes[1..] == q.siblingHashes[1..] {
      DigestInjective(sha, BottomText(p), BottomText(q));
    }
  }

  lemma SameSeam(sha: Sha, p: InclusionProof, q: InclusionProof)
    requires Accepts(sha, p) && Rivals(sha, p, q) && p.siblingHashes != []
    requires BottomText(p) == BottomText(q) && p.siblingHashes[1..] == q.siblingHashes[1..]
    ensures SplitsAt(BottomText(p), Seam(q))
    ensures Seam(q) == Seam(p) ==> q.leafHash == p.leafHash && q.siblingHashes == p.siblingHashes
  {
    SamePath(p.leafIndex, q.leafIndex, |p.siblingHashes|);
    var t, s := BottomText(p), q.siblingHashes[0];
    assert q.siblingHashes[0] != "" && t[Seam(q)] == '|';
    if Seam(q) == Seam(p) {
      assert t[..Seam(q)] == if q.leafIndex % 2 == 0 then q.leafHash else s;
      assert t[Seam(q) + 1..] == if q.leafIndex % 2 == 0 then s else q.leafHash;
      assert t[..Seam(p)] == if p.leafIndex % 2 == 0 then p.leafHash else p.siblingHashes[0];
      assert t[Seam(p) + 1..] == if p.leafIndex % 2 == 0 then p.siblingHashes[0] else p.leafHash;
      assert p.siblingHashes == [p.siblingHashes[0]] + p.siblingHashes[1..];
      assert q.siblingHashes == [s] + q.siblingHashes[1..];
    }
  }

  /**
    An accepted proof binds its leaf and siblings, up to collisions that the two proofs exhibit, exactly
    when the text hashed with the leaf can be split at one separator only.
   */
  lemma BoundExactly(sha: Sha, p: InclusionProof)
    requires Accepts(sha, p) && p.siblingHashes != []
    ensures (forall q :: Rivals(sha, p, q) ==>
               (q.leafHash == p.leafHash && q.siblingHashes == p.siblingHashes)
               || CollisionOf(sha, p, q).Valid(sha))
            <==> forall k :: SplitsAt(BottomText(p), k) ==> k == Seam(p)
  {
    if k :| SplitsAt(BottomText(p), k) && k != Seam(p) {
      ResplitRivals(sha, p, k);
      assert Rivals(sha, p, Resplit(p, k));
    } else {
      forall q | Rivals(sha, p, q)
        ensures (q.leafHash == p.leafHash && q.siblingHashes == p.siblingHashes)
                || CollisionOf(sha, p, q).Valid(sha)
      {
        BottomBinds(sha, p, q);
        if BottomText(p) == BottomText(q) && p.siblingHashes[1..] == q.siblingHashes[1..] {
          SameSeam(sha, p, q);
        }
      }
    }
  }

  // ---- Full trees ----

  datatype Tree = Leaf(hash: string) | Branch(left: Tree, right: Tree)

  /** All leaves lie at depth `d`: there are two to the power of `d`. */
  predicate Full(t: Tree, d: nat) {
    match t
    case Leaf(_) => d == 0
    case Branch(l, r) => d > 0 && Full(l, d - 1) && Full(r, d - 1)
  }

  function Leaves(t: Tree): seq<string> {
    match t
    case Leaf(hash) => [hash]
    case Branch(l, r) => Leaves(l) + Leaves(r)
  }

  function TreeRoot(sha: Sha, t: Tree): string {
    match t
    case Leaf(hash) => hash
    case Branch(l, r) => HashPair(sha, TreeRoot(sha, l), TreeRoot(sha, r))
  }

  /** Whether the index turns right at a branch of depth `d`. */
  predicate TurnsRight(i: nat, d: nat)
    requires d > 0
  {
    Shifted(i, d - 1) % 2 == 1
  }

  /** The leaf that the bits of the index lead to. */
  function LeafAt(t: Tree, d: nat, i: nat): string
    requires Full(t, d)
  {
    match t
    case Leaf(hash) => hash
    case Branch(l, r) => if TurnsRight(i, d) then LeafAt(r, d - 1, i) else LeafAt(l, d - 1, i)
  }

  /** The siblings on the way from that leaf to the root, the lowest first. */
  function Path(sha: Sha, t: Tree, d: nat, i: nat): (siblings: seq<string>)
    requires Full(t, d)
    ensures |siblings| == d
  {
    match t
    case Leaf(_) => []
    case Branch(l, r) =>
      if TurnsRight(i, d) then Path(sha, r, d - 1, i) + [TreeRoot(sha, l)]
      else Path(sha, l, d - 1, i) + [TreeRoot(sha, r)]
  }

  function Shifted(i: nat, n: nat): nat {
    QuotientIsNat(i, Pow2(n));
    i / Pow2(n)
  }

  lemma QuotientIsNat(i: nat, m: nat)
    requires m > 0
    ensures i / m >= 0
  {
    var q := i / m;
    assert i == m * q + i % m;
    if q < 0 {
      TimesMonotone(m, q, -1);
    }
  }

  lemma {:induction false} ClimbLast(sha: Sha, x: string, xs: seq<string>, top: string, i: nat)
    ensures Climb(sha, x, xs + [top], i) == Up(sha, Climb(sha, x, xs, i), top, Shifted(i, |xs|))
    decreases |xs|
  {
    if xs == [] {
      assert [top][1..] == [] && xs + [top] == [top];
    } else {
      assert (xs + [top])[1..] == xs[1..] + [top];
      ClimbLast(sha, Up(sha, x, xs[0], i), xs[1..], top, i / 2);
      DivDiv(i, Pow2(|xs| - 1));
    }
  }

  lemma DivDiv(i: nat, m: nat)
    requires m > 0
    ensures (i / 2) / m == i / (2 * m)
  {
    var q, r := (i / 2) / m, (i / 2) % m;
    assert i / 2 == m * q + r;
    assert 2 * (m * q) == (2 * m) * q;
    ModUnique(i, 2 * m, q, 2 * r + i % 2);
  }

  lemma TopBitAt(idx: nat, m: nat, q: nat, i: nat)
    requires m > 0 && i < 2 * m && idx == m * (2 * q) + i
    ensures idx / m == (if i < m then 2 * q else 2 * q + 1)
    ensures idx % m == if i < m then i else i - m
  {
    if i < m {
      ModUnique(idx, m, 2 * q, i);
    } else {
      assert m * (2 * q) + m == m * (2 * q + 1);
      ModUnique(idx, m, 2 * q + 1, i - m);
    }
  }

  lemma TopBit(idx: nat, d: nat, i: nat)
    requires d > 0 && idx % Pow2(d) == i
    ensures Shifted(idx, d - 1) % 2 == (if i < Pow2(d - 1) then 0 else 1)
    ensures idx % Pow2(d - 1) == if i < Pow2(d - 1) then i else i - Pow2(d - 1)
  {
    TopBitOf(idx, Pow2(d - 1), i);
  }

  lemma TopBitOf(idx: nat, m: nat, i: nat)
    requires m > 0 && idx % (2 * m) == i
    ensures idx / m % 2 == (if i < m then 0 else 1)
    ensures idx % m == if i < m then i else i - m
  {
    var q := idx / (2 * m);
    assert idx == (2 * m) * q + i;
    assert (2 * m) * q == m * (2 * q);
    TopBitAt(idx, m, q, i);
  }

  /** Climbing from a leaf of a full tree along its path leads to the root. */
  lemma {:induction false} ClimbOfPath(sha: Sha, t: Tree, d: nat, i: nat)
    requires Full(t, d)
    ensures Climb(sha, LeafAt(t, d, i), Path(sha, t, d, i), i) == TreeRoot(sha, t)
  {
    if t.Branch? {
      var (near, far) := if TurnsRight(i, d) then (t.right, t.left) else (t.left, t.right);
      ClimbOfPath(sha, near, d - 1, i);
      ClimbLast(sha, LeafAt(near, d - 1, i), Path(sha, near, d - 1, i), TreeRoot(sha, far), i);
    }
  }

  lemma {:induction false} LeavesCount(t: Tree, d: nat)
    requires Full(t, d)
    ensures |Leaves(t)| == Pow2(d)
  {
    if t.Branch? {
      LeavesCount(t.left, d - 1);
      LeavesCount(t.right, d - 1);
    }
  }

  /** The bits lead to the leaf with that number, counted from the left. */
  lemma {:induction false} LeafAtIndex(t: Tree, d: nat, i: nat)
    requires Full(t, d)
    ensures i % Pow2(d) < |Leaves(t)| && LeafAt(t, d, i) == Leaves(t)[i % Pow2(d)]
  {
    LeavesCount(t, d);
    if t.Branch? {
      TopBit(i, d, i % Pow2(d));
      LeavesCount(t.left, d - 1);
      if TurnsRight(i, d) {
        LeafAtIndex(t.right, d - 1, i);
      } else {
        LeafAtIndex(t.left, d - 1, i);
      }
    }
  }

  lemma {:induction false} PathHasNoEmptyNode(sha: Sha, t: Tree, d: nat, i: nat)
    requires Full(t, d) && "" !in Leaves(t)
    ensures TreeRoot(sha, t) != "" && "" !in Path(sha, t, d, i)
  {
    if t.Branch? {
      PathHasNoEmptyNode(sha, t.left, d - 1, i);
      PathHasNoEmptyNode(sha, t.right, d - 1, i);
    }
  }

  /** Completeness: the path read off a full tree is accepted, for every leaf. */
  lemma {:induction false} TreePathAccepted(sha: Sha, t: Tree, d: nat, index: uint64)
    requires Full(t, d) && "" !in Leaves(t) && index < |Leaves(t)|
    ensures Accepts(sha, InclusionProof(Leaves(t)[index], Path(sha, t, d, index), index, TreeRoot(sha, t)))
  {
    LeavesCount(t, d);
    ModUnique(index, Pow2(d), 0, index);
    LeafAtIndex(t, d, index);
    PathHasNoEmptyNode(sha, t, d, index);
    ClimbOfPath(sha, t, d, index);
    assert Leaves(t)[index] in Leaves(t);
  }

  /** Whatever is accepted at the depth of a full tree below its root is one of its leaves, or a collision. */
  lemma {:induction false} TreeBinds(sha: Sha, t: Tree, d: nat, p: InclusionProof)
    requires Full(t, d) && |p.siblingHashes| == d
    requires Accepts(sha, p) && p.rootHash == TreeRoot(sha, t)
    requires '|' !in p.leafHash && '|' !in LeafAt(t, d, p.leafIndex)
    ensures var leaf, path := LeafAt(t, d, p.leafIndex), Path(sha, t, d, p.leafIndex);
            && p.leafIndex % Pow2(d) < |Leaves(t)| && leaf == Leaves(t)[p.leafIndex % Pow2(d)]
            && ((p.leafHash == leaf && p.siblingHashes == path)
                || (d > 0 &&
                    FindCollision(sha, p.leafHash, p.siblingHashes, leaf, path, p.leafIndex, p.leafIndex).Valid(sha)))
  {
    LeafAtIndex(t, d, p.leafIndex);
    ClimbOfPath(sha, t, d, p.leafIndex);
    ClimbBinds(sha, p.leafHash, p.siblingHashes, LeafAt(t, d, p.leafIndex), Path(sha, t, d, p.leafIndex),
               p.leafIndex, p.leafIndex);
  }

  // ---- Header chains ----

  datatype Header = Header(number: uint64, parentHash: string, stateRoot: string, blockHash: string)

  function Payload(h: Header): string {
    Decimal(h.number) + "|" + h.parentHash + "|" + h.stateRoot
  }

  /** A header that names its own hash is believed. */
  function HashHeader(sha: Sha, h: Header): string {
    if h.blockHash != "" then h.blockHash else Digest(sha, Payload(h))
  }

  function Successor(n: uint64): uint64 {
    if n == MAX_UINT64 then 0 else n + 1
  }

  predicate Linked(sha: Sha, prev: Header, curr: Header) {
    curr.number == Successor(prev.number) && curr.parentHash == HashHeader(sha, prev)
  }

  predicate LinkedAt(sha: Sha, hs: seq<Header>, i: nat)
    requires 0 < i < |hs|
  {
    Linked(sha, hs[i - 1], hs[i])
  }

  predicate IsChain(sha: Sha, hs: seq<Header>) {
    forall i :: 0 < i < |hs| ==> LinkedAt(sha, hs, i)
  }

  datatype ChainResult = ChainOk | NonSequential(index: nat) | ParentMismatch(number: uint64)

  lemma LinkMore(sha: Sha, hs: seq<Header>, i: nat)
    requires 0 < i < |hs| && IsChain(sha, hs[..i])
    ensures IsChain(sha, hs[..i + 1]) <==> LinkedAt(sha, hs, i)
    ensures IsChain(sha, hs) ==> LinkedAt(sha, hs, i)
  {
    var front, more := hs[..i], hs[..i + 1];
    forall j | 0 < j < |more| && (j < i || LinkedAt(sha, hs, i)) ensures LinkedAt(sha, more, j) {
      if j < i {
        assert LinkedAt(sha, front, j);
      }
    }
    assert LinkedAt(sha, more, i) == LinkedAt(sha, hs, i);
  }

  /** What a header below has to name as its parent: the hash that `h` names, or the digest of its three fields. */
  function ParentHashFor(sha: Sha, h: Header): string {
    if h.blockHash != "" then h.blockHash
    else "0x" + Hex(sha(Decimal(h.number) + "|" + h.parentHash + "|" + h.stateRoot))
  }

  /** The numbers count up from the first one, modulo two to the 64, and each header names its parent's hash. */
  predicate CountsUp(sha: Sha, hs: seq<Header>) {
    forall i :: 0 <= i < |hs| ==>
      && hs[i].number == (hs[0].number + i) % 0x1_0000_0000_0000_0000
      && (i > 0 ==> hs[i].parentHash == ParentHashFor(sha, hs[i - 1]))
  }

  lemma ChainCountsUp(sha: Sha, hs: seq<Header>)
    ensures IsChain(sha, hs) <==> CountsUp(sha, hs)
  {
    if IsChain(sha, hs) {
      forall i | 0 <= i < |hs|
        ensures hs[i].number == (hs[0].number + i) % 0x1_0000_0000_0000_0000
        ensures i > 0 ==> hs[i].parentHash == ParentHashFor(sha, hs[i - 1])
      {
        NumberInChain(sha, hs, i);
      }
    }
    if CountsUp(sha, hs) {
      forall i | 0 < i < |hs| ensures LinkedAt(sha, hs, i) {
        assert hs[i].parentHash == ParentHashFor(sha, hs[i - 1]);
        NextNumber(hs[0].number, i, hs[i].number);
      }
    }
  }

  lemma {:induction false} NumberInChain(sha: Sha, hs: seq<Header>, i: nat)
    requires IsChain(sha, hs) && i < |hs|
    ensures hs[i].number == (hs[0].number + i) % 0x1_0000_0000_0000_0000
    ensures i > 0 ==> hs[i].parentHash == ParentHashFor(sha, hs[i - 1])
  {
    if i > 0 {
      NumberInChain(sha, hs, i - 1);
      assert LinkedAt(sha, hs, i);
      NextNumber(hs[0].number, i, hs[i].number);
    }
  }

  lemma NextNumber(start: uint64, m: nat, n: uint64)
    requires m > 0
    ensures n == Successor((start + (m - 1)) % 0x1_0000_0000_0000_0000) <==> n == (start + m) % 0x1_0000_0000_0000_0000
  {
  }

  /** The headers before `i` count up and the one at `i` does not continue them: its number or else its parent hash. */
  predicate BreaksAt(sha: Sha, hs: seq<Header>, i: nat, r: ChainResult) {
    && 0 < i < |hs| && CountsUp(sha, hs[..i])
    && (if hs[i].number != (hs[i - 1].number + 1) % 0x1_0000_0000_0000_0000 then r == NonSequential(i)
        else hs[i].parentHash != ParentHashFor(sha, hs[i - 1]) && r == ParentMismatch(hs[i].number))
  }

  lemma LinkText(sha: Sha, prev: Header, curr: Header)
    ensures Linked(sha, prev, curr) <==>
              curr.number == (prev.number + 1) % 0x1_0000_0000_0000_0000 && curr.parentHash == ParentHashFor(sha, prev)
    ensures Successor(prev.number) == (prev.number + 1) % 0x1_0000_0000_0000_0000
  {
  }

  lemma LinkBreaks(sha: Sha, hs: seq<Header>, i: nat)
    requires 0 < i < |hs| && CountsUp(sha, hs[..i]) && !LinkedAt(sha, hs, i)
    ensures BreaksAt(sha, hs, i, if hs[i].number != Successor(hs[i - 1].number) then NonSequential(i)
                                 else ParentMismatch(hs[i].number))
  {
    LinkText(sha, hs[i - 1], hs[i]);
  }

  /** The error names the first link that fails, and which of its two halves. */
  method VerifyHeaderChain(sha: Sha, headers: seq<Header>) returns (r: ChainResult)
    ensures r.ChainOk? <==> CountsUp(sha, headers)
    ensures r.ChainOk? <==> IsChain(sha, headers)
    ensures !r.ChainOk? ==> exists i :: BreaksAt(sha, headers, i, r)
  {
    if |headers| <= 1 {
      ChainCountsUp(sha, headers);
      return ChainOk;
    }
    for i := 1 to |headers|
      invariant IsChain(sha, headers[..i])
    {
      var prev, curr := headers[i - 1], headers[i];
      LinkMore(sha, headers, i);
      if !LinkedAt(sha, headers, i) {
        ChainCountsUp(sha, headers[..i]);
        ChainCountsUp(sha, headers);
        LinkBreaks(sha, headers, i);
      }
      if curr.number != Successor(prev.number) {
        return NonSequential(i);
      }
      var expectedParent := HashHeader(sha, prev);
      if curr.parentHash != expectedParent {
        return ParentMismatch(curr.number);
      }
    }
    assert headers[..|headers|] == headers;
    ChainCountsUp(sha, headers);
    return ChainOk;
  }

  /** A chain splits anywhere into chains that are linked at the seam, and such chains join. */
  lemma ChainsJoin(sha: Sha, a: seq<Header>, b: seq<Header>)
    ensures IsChain(sha, a + b) <==>
              IsChain(sha, a) && IsChain(sha, b) && (a != [] && b != [] ==> Linked(sha, a[|a| - 1], b[0]))
  {
    var c := a + b;
    if IsChain(sha, c) {
      forall i | 0 < i < |a| ensures LinkedAt(sha, a, i) {
        assert LinkedAt(sha, c, i);
      }
      forall i | 0 < i < |b| ensures LinkedAt(sha, b, i) {
        assert LinkedAt(sha, c, |a| + i);
      }
      if a != [] && b != [] {
        assert LinkedAt(sha, c, |a|);
      }
    }
    if IsChain(sha, a) && IsChain(sha, b) && (a != [] && b != [] ==> Linked(sha, a[|a| - 1], b[0])) {
      forall i | 0 < i < |c| ensures LinkedAt(sha, c, i) {
        if i < |a| {
          assert LinkedAt(sha, a, i);
        } else if i > |a| {
          assert LinkedAt(sha, b, i - |a|);
        }
      }
    }
  }

  predicate Hashed(hs: seq<Header>) {
    forall i :: 0 <= i < |hs| ==> hs[i].blockHash == ""
  }

  /** A non-empty chain of hashed headers. */
  predicate IsHashedChain(sha: Sha, hs: seq<Header>) {
    hs != [] && IsChain(sha, hs) && Hashed(hs)
  }

  /** The first header's payload has the two separators that the client writes, and no other. */
  predicate Anchored(hs: seq<Header>)
    requires hs != []
  {
    '|' !in hs[0].parentHash && '|' !in hs[0].stateRoot
  }

  /**
    What is asked of the first headers for `a` to be bound: its parent hash, and either its own state root
    or, if `b` is as long, the parent hash of `b`, have to be free of the separator.
   */
  predicate Comparable(a: seq<Header>, b: seq<Header>)
    requires a != [] && b != []
  {
    '|' !in a[0].parentHash && (|a| == |b| ==> '|' !in a[0].stateRoot || '|' !in b[0].parentHash)
  }

  /** The payloads of the highest headers, at the same distance from the tip, that differ. */
  function ForkCollision(a: seq<Header>, b: seq<Header>): Collision
    requires |a| <= |b|
    decreases |a|
  {
    if a == [] then Collision("", "")
    else
      var x, y := a[|a| - 1], b[|b| - 1];
      if x == y then ForkCollision(a[..|a| - 1], b[..|b| - 1]) else Collision(Payload(x), Payload(y))
  }

  lemma PayloadInjective(g: Header, h: Header)
    requires Payload(g) == Payload(h) && g.blockHash == h.blockHash
    requires '|' !in g.parentHash && ('|' !in h.parentHash || '|' !in g.stateRoot)
    ensures g == h
  {
    var x, y := g.parentHash + "|" + g.stateRoot, h.parentHash + "|" + h.stateRoot;
    assert Payload(g) == Decimal(g.number) + "|" + x && Payload(h) == Decimal(h.number) + "|" + y;
    SplitAtSeparator(Decimal(g.number), x, Decimal(h.number), y);
    DecimalInjective(g.number, h.number);
    if '|' !in h.parentHash {
      SplitAtSeparator(g.parentHash, g.stateRoot, h.parentHash, h.stateRoot);
    } else {
      SplitAtOnly(g.parentHash, g.stateRoot, h.parentHash, h.stateRoot);
    }
  }

  /**
    The hash of the tip determines the chain: of two hashed chains whose last headers hash alike the
    shorter one is the end of the other, or the highest pair of headers that differ exhibits a collision.
   */
  lemma {:induction false} TipDeterminesChain(sha: Sha, a: seq<Header>, b: seq<Header>)
    requires IsHashedChain(sha, a) && IsHashedChain(sha, b) && |a| <= |b| && Comparable(a, b)
    requires HashHeader(sha, a[|a| - 1]) == HashHeader(sha, b[|b| - 1])
    ensures a == b[|b| - |a|..] || ForkCollision(a, b).Valid(sha)
    decreases |a|
  {
    TipsAgree(sha, a, b);
    if a[|a| - 1] == b[|b| - 1] {
      if |a| > 1 {
        BelowTip(sha, a);
        BelowTip(sha, b);
        TipDeterminesChain(sha, a[..|a| - 1], b[..|b| - 1]);
      }
      ForkBelow(sha, a, b);
    }
  }

  lemma BelowTip(sha: Sha, hs: seq<Header>)
    requires |hs| > 1 && IsHashedChain(sha, hs)
    ensures var m := |hs| - 1;
            && IsHashedChain(sha, hs[..m]) && hs[..m][0] == hs[0]
            && '|' !in hs[m].parentHash && hs[m].parentHash == HashHeader(sha, hs[..m][|hs[..m]| - 1])
  {
    var m := |hs| - 1;
    assert LinkedAt(sha, hs, m);
    forall i | 0 < i < m ensures LinkedAt(sha, hs[..m], i) {
      assert LinkedAt(sha, hs, i);
    }
  }

  lemma ForkBelow(sha: Sha, a: seq<Header>, b: seq<Header>)
    requires 0 < |a| <= |b| && a[|a| - 1] == b[|b| - 1]
    requires var c, d := a[..|a| - 1], b[..|b| - 1];
             c == [] || c == d[|d| - |c|..] || ForkCollision(c, d).Valid(sha)
    ensures a == b[|b| - |a|..] || ForkCollision(a, b).Valid(sha)
  {
    var c, d := a[..|a| - 1], b[..|b| - 1];
    if c == [] || c == d[|d| - |c|..] {
      EndMore(a, b);
    }
  }

  lemma TipsAgree(sha: Sha, a: seq<Header>, b: seq<Header>)
    requires IsHashedChain(sha, a) && IsHashedChain(sha, b) && |a| <= |b| && Comparable(a, b)
    requires HashHeader(sha, a[|a| - 1]) == HashHeader(sha, b[|b| - 1])
    ensures a[|a| - 1] == b[|b| - 1] || Collision(Payload(a[|a| - 1]), Payload(b[|b| - 1])).Valid(sha)
  {
    var x, y := a[|a| - 1], b[|b| - 1];
    if |a| > 1 {
      BelowTip(sha, a);
    }
    if |b| > 1 {
      BelowTip(sha, b);
    }
    DigestInjective(sha, Payload(x), Payload(y));
    if Payload(x) == Payload(y) {
      PayloadInjective(x, y);
    }
  }

  lemma EndMore(a: seq<Header>, b: seq<Header>)
    requires 0 < |a| <= |b| && a[|a| - 1] == b[|b| - 1] && a[..|a| - 1] == b[..|b| - 1][|b| - |a|..]
    ensures a == b[|b| - |a|..]
  {
    assert a == a[..|a| - 1] + [a[|a| - 1]];
    assert b[|b| - |a|..] == b[..|b| - 1][|b| - |a|..] + [b[|b| - 1]];
  }

  // ---- Which chains a tip determines ----

  lemma {:induction false} ForkAtFirst(a: seq<Header>, b: seq<Header>)
    requires |a| == |b| > 0 && a[1..] == b[1..] && a[0] != b[0]
    ensures ForkCollision(a, b) == Collision(Payload(a[0]), Payload(b[0]))
  {
    var m := |a| - 1;
    if m > 0 {
      assert a[m] == a[1..][m - 1] == b[1..][m - 1] == b[m];
      assert a[..m][1..] == a[1..][..m - 1] && b[..m][1..] == b[1..][..m - 1];
      ForkAtFirst(a[..m], b[..m]);
    }
  }

  /** The same payload, with its parent hash and its state root split at another separator. */
  function ResplitHeader(h: Header): Header
    requires '|' in h.parentHash || '|' in h.stateRoot
  {
    if '|' in h.parentHash then
      var k := FirstSeparator(h.parentHash);
      h.(parentHash := h.parentHash[..k], stateRoot := h.parentHash[k + 1..] + "|" + h.stateRoot)
    else
      var k := FirstSeparator(h.stateRoot);
      h.(parentHash := h.parentHash + "|" + h.stateRoot[..k], stateRoot := h.stateRoot[k + 1..])
  }

  function FirstSeparator(s: string): (k: nat)
    requires '|' in s
    ensures k < |s| && s[k] == '|'
  {
    if s[0] == '|' then 0 else 1 + FirstSeparator(s[1..])
  }

  lemma CutAt(s: string, k: nat)
    requires k < |s| && s[k] == '|'
    ensures s == s[..k] + "|" + s[k + 1..]
  {
  }

  lemma MiddleMoves(d: string, x: string, y: string, z: string)
    ensures d + "|" + (x + "|" + y) + "|" + z == d + "|" + x + "|" + (y + "|" + z)
  {
  }

  lemma ParentResplit(h: Header)
    requires '|' in h.parentHash
    ensures var r := ResplitHeader(h); Payload(r) == Payload(h) && |r.parentHash| < |h.parentHash|
  {
    var k := FirstSeparator(h.parentHash);
    CutAt(h.parentHash, k);
    MiddleMoves(Decimal(h.number), h.parentHash[..k], h.parentHash[k + 1..], h.stateRoot);
  }

  lemma StateResplit(h: Header)
    requires '|' !in h.parentHash && '|' in h.stateRoot
    ensures var r := ResplitHeader(h); Payload(r) == Payload(h) && |r.parentHash| > |h.parentHash|
  {
    var k := FirstSeparator(h.stateRoot);
    CutAt(h.stateRoot, k);
    MiddleMoves(Decimal(h.number), h.parentHash, h.stateRoot[..k], h.stateRoot[k + 1..]);
  }

  lemma ResplitSamePayload(h: Header)
    requires '|' in h.parentHash || '|' in h.stateRoot
    ensures var r := ResplitHeader(h);
            Payload(r) == Payload(h) && r != h && r.number == h.number && r.blockHash == h.blockHash
  {
    if '|' in h.parentHash {
      ParentResplit(h);
    } else {
      StateResplit(h);
    }
  }

  /** An equally long chain of hashed headers below the same tip. */
  predicate RivalChain(sha: Sha, a: seq<Header>, b: seq<Header>)
    requires a != []
  {
    |b| == |a| && IsHashedChain(sha, b) && HashHeader(sha, b[|b| - 1]) == HashHeader(sha, a[|a| - 1])
  }

  /** A header that hashes like the first one, and has its number, can stand in its place. */
  lemma FirstReplaced(sha: Sha, a: seq<Header>, h: Header)
    requires IsChain(sha, a) && a != [] && h.number == a[0].number && HashHeader(sha, h) == HashHeader(sha, a[0])
    ensures var b := a[0 := h]; IsChain(sha, b) && HashHeader(sha, b[|b| - 1]) == HashHeader(sha, a[|a| - 1])
  {
    var b := a[0 := h];
    forall i | 0 < i < |b| ensures LinkedAt(sha, b, i) {
      assert LinkedAt(sha, a, i);
    }
  }

  /** A separator in the first header: split elsewhere, it starts another chain below the same tip. */
  lemma SeparatorMovesInHeader(sha: Sha, a: seq<Header>)
    requires IsHashedChain(sha, a) && !Anchored(a)
    ensures var b := a[0 := ResplitHeader(a[0])];
            RivalChain(sha, a, b) && a != b && !ForkCollision(a, b).Valid(sha)
  {
    var r := ResplitHeader(a[0]);
    var b := a[0 := r];
    ResplitSamePayload(a[0]);
    FirstReplaced(sha, a, r);
    assert b[0] == r;
    assert a[1..] == b[1..];
    ForkAtFirst(a, b);
  }

  /**
    A hashed chain is determined by the hash of its tip, among all equally long hashed chains and up to
    collisions that they exhibit, exactly when its first header has no separator inside.
   */
  lemma {:induction false} TipBindsExactly(sha: Sha, a: seq<Header>)
    requires IsHashedChain(sha, a)
    ensures (forall b :: RivalChain(sha, a, b) ==> a == b || ForkCollision(a, b).Valid(sha)) <==> Anchored(a)
  {
    if Anchored(a) {
      forall b | RivalChain(sha, a, b) ensures a == b || ForkCollision(a, b).Valid(sha) {
        TipDeterminesChain(sha, a, b);
        assert b[0..] == b;
      }
    } else {
      SeparatorMovesInHeader(sha, a);
      assert RivalChain(sha, a, a[0 := ResplitHeader(a[0])]);
    }
  }

  /**
    A header below the tip that names its own hash can carry any state root, and the first one any parent
    hash: the list stays a chain, and its tip, with its hash, is the same.
   */
  lemma NamedHashHidesHeader(sha: Sha, hs: seq<Header>, k: nat, stateRoot: string, parentHash: string)
    requires IsChain(sha, hs) && k + 1 < |hs| && hs[k].blockHash != ""
    requires k > 0 ==> parentHash == hs[k].parentHash
    ensures var gs := hs[k := hs[k].(stateRoot := stateRoot, parentHash := parentHash)];
            IsChain(sha, gs) && HashHeader(sha, gs[|gs| - 1]) == HashHeader(sha, hs[|hs| - 1])
  {
    var h := hs[k].(stateRoot := stateRoot, parentHash := parentHash);
    var gs := hs[k := h];
    forall i | 0 < i < |gs| ensures LinkedAt(sha, gs, i) {
      assert LinkedAt(sha, hs, i);
    }
  }

  /**
    So a tip determines nothing among headers that may name their hash: beside every hashed chain there is
    another one, equally long and with the same tip hash, whose tip names it, and no collision.
   */
  lemma NamedTipRivals(sha: Sha, a: seq<Header>)
    requires IsHashedChain(sha, a)
    ensures var m := |a| - 1;
            var b := a[m := a[m].(blockHash := HashHeader(sha, a[m]))];
            && IsChain(sha, b) && HashHeader(sha, b[m]) == HashHeader(sha, a[m])
            && a != b && !Hashed(b) && !ForkCollision(a, b).Valid(sha)
  {
    var m := |a| - 1;
    TipReplaced(sha, a, a[m].(blockHash := HashHeader(sha, a[m])));
  }

  /** A tip that names a hash, with the payload of the tip, can stand in its place. */
  lemma TipReplaced(sha: Sha, a: seq<Header>, h: Header)
    requires IsHashedChain(sha, a)
    requires var t := a[|a| - 1]; h.number == t.number && h.parentHash == t.parentHash && h.stateRoot == t.stateRoot
    requires h.blockHash != ""
    ensures var m := |a| - 1;
            var b := a[m := h];
            IsChain(sha, b) && b[m] == h && a != b && !Hashed(b) && !ForkCollision(a, b).Valid(sha)
  {
    var m := |a| - 1;
    var b := a[m := h];
    forall i | 0 < i < |b| ensures LinkedAt(sha, b, i) {
      assert LinkedAt(sha, a, i);
    }
    assert b[m].blockHash != "" && a[m].blockHash == "";
  }

  // ---- Fetching a range ----

  /** None where the RPC fails. */
  type HeaderRPC = uint64 -> Option<Header>

  /** The capacity asked for before the loop; it wraps for the range of all numbers. */
  function Capacity(start: uint64, end: uint64): uint64
    requires start <= end
  {
    if end - start == MAX_UINT64 then 0 else end - start + 1
  }

  datatype FetchState =
    | Fetching(next: uint64, out: seq<Header>)
    | Fetched(out: seq<Header>)
    | Failed(at: uint64)
    | Refused
    | Panicked

  /** `limit` is the largest capacity a slice can be made with: a larger one panics. */
  function FetchStart(limit: nat, start: uint64, end: uint64): FetchState {
    if end < start then Refused
    else if Capacity(start, end) > limit then Panicked
    else Fetching(start, [])
  }

  /** One iteration of the loop, with the counter wrapping as a 64-bit counter does. */
  function FetchStep(rpc: HeaderRPC, end: uint64, st: FetchState): FetchState {
    match st
    case Fetching(n, out) =>
      if n > end then Fetched(out)
      else
        (match rpc(n)
         case None => Failed(n)
         case Some(h) => Fetching(Successor(n), out + [h]))
    case _ => st
  }

  function FetchRun(rpc: HeaderRPC, end: uint64, st: FetchState, k: nat): FetchState {
    if k == 0 then st else FetchStep(rpc, end, FetchRun(rpc, end, st, k - 1))
  }

  lemma {:induction false} FetchBelowMax(rpc: HeaderRPC, start: uint64, end: uint64, k: nat)
    requires start <= end < MAX_UINT64 && k <= end - start + 1
    ensures var st := FetchRun(rpc, end, Fetching(start, []), k);
            st.Failed? || (st.Fetching? && st.next == start + k)
  {
    if k > 0 {
      FetchBelowMax(rpc, start, end, k - 1);
    }
  }

  lemma {:induction false} FetchWraps(rpc: HeaderRPC, start: uint64, k: nat)
    requires start + k <= 2 * MAX_UINT64 + 1
    ensures var st := FetchRun(rpc, MAX_UINT64, Fetching(start, []), k);
            st.Failed? || (st.Fetching? && st.next == (start + k) % (MAX_UINT64 + 1))
  {
    if k > 0 {
      FetchWraps(rpc, start, k - 1);
    }
  }

  lemma FetchEnds(rpc: HeaderRPC, start: uint64, end: uint64) returns (k: nat)
    requires start <= end < MAX_UINT64
    ensures !FetchRun(rpc, end, Fetching(start, []), k).Fetching?
  {
    FetchBelowMax(rpc, start, end, end - start + 1);
    k := end - start + 2;
  }

  lemma FetchFails(rpc: HeaderRPC, start: uint64, n: uint64) returns (k: nat)
    requires rpc(n).None?
    ensures !FetchRun(rpc, MAX_UINT64, Fetching(start, []), k).Fetching?
  {
    var calls := if start <= n then n - start else MAX_UINT64 + 1 - start + n;
    assert (start + calls) % (MAX_UINT64 + 1) == n;
    FetchWraps(rpc, start, calls);
    k := calls + 1;
  }

  lemma {:induction false} FetchNeverStops(rpc: HeaderRPC, start: uint64, k: nat)
    requires forall n: uint64 :: rpc(n).Some?
    ensures FetchRun(rpc, MAX_UINT64, Fetching(start, []), k).Fetching?
  {
    if k > 0 {
      FetchNeverStops(rpc, start, k - 1);
    }
  }

  lemma {:induction false} FetchStays(rpc: HeaderRPC, end: uint64, st: FetchState, k: nat)
    requires !st.Fetching?
    ensures FetchRun(rpc, end, st, k) == st
  {
    if k > 0 {
      FetchStays(rpc, end, st, k - 1);
    }
  }

  /** The RPC is asked for ever: the range is allocated, ends at the last number, and no call fails. */
  ghost predicate FetchesForever(rpc: HeaderRPC, limit: nat, start: uint64, end: uint64) {
    start <= end == MAX_UINT64 && Capacity(start, end) <= limit && forall n: uint64 :: rpc(n).Some?
  }

  /**
    A fetch comes to an end unless its range reaches the last 64-bit number, is allocated for, and no call
    of the RPC fails: below the last number the counter passes `end`, at the last number it wraps to zero
    and goes round.
   */
  lemma FetchStops(rpc: HeaderRPC, limit: nat, start: uint64, end: uint64)
    ensures (exists k :: !FetchRun(rpc, end, FetchStart(limit, start, end), k).Fetching?)
            <==> !FetchesForever(rpc, limit, start, end)
  {
    var st := FetchStart(limit, start, end);
    if !st.Fetching? {
      FetchStays(rpc, end, st, 1);
      assert !FetchRun(rpc, end, st, 1).Fetching?;
    } else if end < MAX_UINT64 {
      var k := FetchEnds(rpc, start, end);
      assert !FetchRun(rpc, end, st, k).Fetching?;
    } else if n: uint64 :| rpc(n).None? {
      var k := FetchFails(rpc, start, n);
      assert !FetchRun(rpc, end, st, k).Fetching?;
    } else {
      forall k ensures FetchRun(rpc, end, st, k).Fetching? {
        FetchNeverStops(rpc, start, k);
      }
    }
  }

  /**
    A range is answered, with headers or an error, exactly when it is empty or its capacity is within the
    limit, and it ends below the last number or some call fails.
   */
  lemma AnsweredExactly(rpc: HeaderRPC, limit: nat, start: uint64, end: uint64)
    ensures (exists k :: var st := FetchRun(rpc, end, FetchStart(limit, start, end), k);
                         st.Fetched? || st.Failed? || st.Refused?)
            <==> || end < start
                 || ((end - start + 1) % 0x1_0000_0000_0000_0000 <= limit
                      && (end < MAX_UINT64 || exists n: uint64 :: rpc(n).None?))
  {
    var st := FetchStart(limit, start, end);
    FetchStops(rpc, limit, start, end);
    if st.Fetching? {
      forall k ensures !FetchRun(rpc, end, st, k).Panicked? && !FetchRun(rpc, end, st, k).Refused? {
        FetchGoesOn(rpc, end, st, k);
      }
    } else {
      forall k ensures FetchRun(rpc, end, st, k) == st {
        FetchStays(rpc, end, st, k);
      }
      assert FetchRun(rpc, end, st, 0) == st;
    }
  }

  lemma {:induction false} FetchGoesOn(rpc: HeaderRPC, end: uint64, st: FetchState, k: nat)
    requires !st.Panicked? && !st.Refused?
    ensures !FetchRun(rpc, end, st, k).Panicked? && !FetchRun(rpc, end, st, k).Refused?
  {
    if k > 0 {
      FetchGoesOn(rpc, end, st, k - 1);
    }
  }

  datatype FetchResult =
    | Headers(headers: seq<Header>)
    | InvalidRange
    | CapacityPanic
    | RpcError(at: uint64)
    | Broken(error: ChainResult)

  /** The number that the loop asks for in its iteration `k`. */
  function Asked(start: uint64, k: nat): uint64 {
    (start + k) % (MAX_UINT64 + 1)
  }

  lemma AskedNext(start: uint64, k: nat)
    ensures Asked(start, 0) == start && Asked(start, k + 1) == Successor(Asked(start, k))
    ensures start + k <= MAX_UINT64 ==> Asked(start, k) == start + k
  {
  }

  /** The first failing call, `k` calls after the first. */
  predicate FailsAt(rpc: HeaderRPC, start: uint64, k: nat) {
    rpc(Asked(start, k)).None? && forall j :: 0 <= j < k ==> rpc(Asked(start, j)).Some?
  }

  /** The loop makes at most `calls` calls that do not fail. */
  ghost predicate StopsWithin(rpc: HeaderRPC, start: uint64, end: uint64, calls: nat) {
    if end < MAX_UINT64 then calls == end - start + 1 else rpc(Asked(start, calls)).None?
  }

  lemma CallsBound(rpc: HeaderRPC, limit: nat, start: uint64, end: uint64) returns (calls: nat)
    requires start <= end && Capacity(start, end) <= limit && !FetchesForever(rpc, limit, start, end)
    ensures StopsWithin(rpc, start, end, calls)
  {
    if end < MAX_UINT64 {
      calls := end - start + 1;
    } else {
      var n: uint64 :| rpc(n).None?;
      calls := if start <= n then n - start else MAX_UINT64 + 1 - start + n;
    }
  }

  /** The loop of `FetchRange`: the headers, or the number for which the RPC failed. */
  method FetchEach(rpc: HeaderRPC, start: uint64, end: uint64, ghost calls: nat)
    returns (out: seq<Header>, failed: Option<uint64>)
    requires start <= end && StopsWithin(rpc, start, end, calls)
    ensures failed.Some? ==>
              && FailsAt(rpc, start, |out|) && failed.value == Asked(start, |out|)
              && (start <= failed.value <= end || end == MAX_UINT64)
    ensures failed.None? ==>
              && end < MAX_UINT64 && |out| == end - start + 1
              && forall i :: 0 <= i < |out| ==> rpc(start + i) == Some(out[i])
  {
    out := [];
    var n: uint64 := start;
    AskedNext(start, 0);
    while n <= end
      invariant |out| <= calls && n == Asked(start, |out|) && (end < MAX_UINT64 ==> n == start + |out|)
      invariant forall i :: 0 <= i < |out| ==> rpc(Asked(start, i)) == Some(out[i])
      decreases calls - |out|
    {
      var h := rpc(n);
      if h.None? {
        return out, Some(n);
      }
      AskedNext(start, |out|);
      out := out + [h.value];
      n := Successor(n);
    }
    forall i | 0 <= i < |out| ensures rpc(start + i) == Some(out[i]) {
      AskedNext(start, i);
    }
    return out, None;
  }

  /** Every fetch that comes to an end. */
  method FetchRange(sha: Sha, rpc: HeaderRPC, limit: nat, start: uint64, end: uint64) returns (r: FetchResult)
    requires !FetchesForever(rpc, limit, start, end)
    ensures r.InvalidRange? <==> end < start
    ensures r.CapacityPanic? <==> start <= end && (end - start + 1) % 0x1_0000_0000_0000_0000 > limit
    ensures r.RpcError? <==>
              && start <= end && (end - start + 1) % 0x1_0000_0000_0000_0000 <= limit
              && exists n: uint64 :: (start <= n <= end || end == MAX_UINT64) && rpc(n).None?
    ensures r.RpcError? ==> exists k :: FailsAt(rpc, start, k) && r.at == Asked(start, k)
    ensures r.Headers? ==>
              && |r.headers| == end - start + 1 && CountsUp(sha, r.headers)
              && forall i :: 0 <= i < |r.headers| ==> rpc(start + i) == Some(r.headers[i])
    ensures r.Broken? ==>
              exists hs: seq<Header> :: |hs| == end - start + 1 && !CountsUp(sha, hs)
                                        && forall i :: 0 <= i < |hs| ==> rpc(start + i) == Some(hs[i])
  {
    if end < start {
      return InvalidRange;
    }
    if Capacity(start, end) > limit {
      return CapacityPanic;
    }
    ghost var calls := CallsBound(rpc, limit, start, end);
    var out, failed := FetchEach(rpc, start, end, calls);
    if failed.Some? {
      return RpcError(failed.value);
    }
    forall m: uint64 | start <= m <= end ensures rpc(m).Some? {
      assert rpc(start + (m - start)) == Some(out[m - start]);
    }
    var chain := VerifyHeaderChain(sha, out);
    if chain.ChainOk? {
      return Headers(out);
    }
    return Broken(chain);
  }
}
