/** The Internet checksum (RFC 1071) and what accepting a message means. */
module Checksums {
  import opened Words

  function Big16(x: u16): seq<byte> {
    [x / 256, x % 256]
  }

  function Get16(s: seq<byte>, at: nat): u16
    requires at + 1 < |s|
  {
    s[at] as int * 256 + s[at + 1] as int
  }

  /** The sum of the big-endian words of `s`; an odd last byte is a high byte. */
  function WordSum(s: seq<byte>): nat {
    if |s| == 0 then 0
    else if |s| == 1 then s[0] as int * 256
    else Get16(s, 0) + WordSum(s[2..])
  }

  function Fold(sum: nat): u16 {
    if sum < M16 then sum else Fold(sum % M16 + sum / M16)
  }

  function Complement(sum: nat): u16 {
    0xffff - Fold(sum)
  }

  /** Folding keeps the sum modulo 65535 and never turns a positive sum into zero. */
  lemma {:induction false} FoldResidue(sum: nat)
    ensures Fold(sum) % 0xffff == sum % 0xffff
    ensures Fold(sum) == 0 <==> sum == 0
  {
    if sum >= M16 {
      var folded := sum % M16 + sum / M16;
      FoldResidue(folded);
      assert sum - folded == 0xffff * (sum / M16);
      SameResidue(sum, folded, sum / M16);
    }
  }

  lemma SameResidue(x: nat, y: nat, k: nat)
    requires x - y == 0xffff * k
    ensures x % 0xffff == y % 0xffff
  {
  }

  /** A message is accepted exactly when its words add up to a positive multiple of 65535. */
  lemma AcceptedIff(sum: nat)
    ensures Complement(sum) == 0 <==> sum > 0 && sum % 0xffff == 0
  {
    FoldResidue(sum);
  }

  lemma {:induction false} WordSumAppend(a: seq<byte>, b: seq<byte>)
    requires |a| % 2 == 0
    ensures WordSum(a + b) == WordSum(a) + WordSum(b)
  {
    if a == [] {
      assert a + b == b;
    } else {
      assert (a + b)[2..] == a[2..] + b;
      WordSumAppend(a[2..], b);
    }
  }

  /** A word in the middle adds its own value. */
  lemma WordInside(a: seq<byte>, w: u16, b: seq<byte>)
    requires |a| % 2 == 0
    ensures WordSum(a + Big16(w) + b) == WordSum(a) + w + WordSum(b)
  {
    hide Get16;
    WordSumAppend(a + Big16(w), b);
    WordSumAppend(a, Big16(w));
    assert WordSum(Big16(w)) == w by { assert Big16(w)[2..] == []; assert Get16(Big16(w), 0) == w by { Read16(w); } }
  }

  lemma Read16(w: u16)
    ensures Get16(Big16(w), 0) == w
  {
  }

  /** What the sender does: complement the sum taken over a zero field, and store it.
      What the receiver then computes is zero. */
  lemma SealedIsAccepted(extra: nat, a: seq<byte>, b: seq<byte>)
    requires |a| % 2 == 0
    ensures var seal := Complement(extra + WordSum(a + Big16(0) + b));
            Complement(extra + WordSum(a + Big16(seal) + b)) == 0
  {
    hide WordSum, Fold, Big16;
    var sum := extra + WordSum(a + Big16(0) + b);
    var seal := Complement(sum);
    WordInside(a, 0, b);
    WordInside(a, seal, b);
    FoldResidue(sum);
    AcceptedIff(sum + seal);
    SealResidue(sum, Fold(sum));
  }

  lemma SealResidue(sum: nat, folded: u16)
    requires folded % 0xffff == sum % 0xffff && (folded == 0 <==> sum == 0)
    ensures sum + (0xffff - folded) > 0 && (sum + (0xffff - folded)) % 0xffff == 0
  {
  }

  /** For UDP a seal of zero is sent as 0xffff, which the receiver accepts as well. */
  lemma InvertedZeroIsAccepted(extra: nat, a: seq<byte>, b: seq<byte>)
    requires |a| % 2 == 0 && extra > 0
    requires Complement(extra + WordSum(a + Big16(0) + b)) == 0
    ensures Complement(extra + WordSum(a + Big16(0xffff) + b)) == 0
  {
    hide WordSum, Fold, Big16;
    WordInside(a, 0, b);
    WordInside(a, 0xffff, b);
    AcceptedIff(extra + WordSum(a + Big16(0) + b));
    AcceptedIff(extra + WordSum(a + Big16(0xffff) + b));
  }

  /** Damage to one word of an accepted message goes unnoticed exactly when it
      exchanges 0x0000 and 0xffff and leaves a non-zero sum. */
  lemma OneDamagedWord(extra: nat, a: seq<byte>, w: u16, damaged: u16, b: seq<byte>)
    requires |a| % 2 == 0 && w != damaged
    requires Complement(extra + WordSum(a + Big16(w) + b)) == 0
    ensures Complement(extra + WordSum(a + Big16(damaged) + b)) == 0 <==>
            {w, damaged} == {0, 0xffff} && extra + WordSum(a) + damaged + WordSum(b) > 0
  {
    hide WordSum, Fold, Big16;
    WordInside(a, w, b);
    WordInside(a, damaged, b);
    var rest := extra + WordSum(a) + WordSum(b);
    AcceptedIff(rest + w);
    AcceptedIff(rest + damaged);
    ResidueGap(rest, w, damaged);
  }

  lemma ResidueGap(rest: nat, w: u16, damaged: u16)
    requires (rest + w) % 0xffff == 0 && w != damaged
    ensures (rest + damaged) % 0xffff == 0 <==> {w, damaged} == {0, 0xffff}
  {
    var k := (rest + w) / 0xffff;
    assert rest + w == 0xffff * k;
    if (rest + damaged) % 0xffff == 0 {
      var j := (rest + damaged) / 0xffff;
      assert rest + damaged == 0xffff * j;
      assert damaged - w == 0xffff * (j - k);
      assert j - k == 1 || j - k == -1;
      assert {w, damaged} == {0, 0xffff};
    }
    if {w, damaged} == {0, 0xffff} {
      assert w in {0, 0xffff} && damaged in {0, 0xffff};
      assert rest + damaged == 0xffff * (if w == 0 then k + 1 else k - 1);
    }
  }

  /** The words before `i + 2` are those before `i` and one more. */
  lemma WordSumStep(s: seq<byte>, i: nat)
    requires i % 2 == 0 && i + 1 < |s|
    ensures WordSum(s[..i + 2]) == WordSum(s[..i]) + Get16(s, i)
  {
    hide Get16;
    assert s[..i + 2] == s[..i] + s[i..i + 2];
    WordSumAppend(s[..i], s[i..i + 2]);
    assert s[i..i + 2][2..] == [];
    assert Get16(s[i..i + 2], 0) == Get16(s, i) by { SliceRead(s, i); }
  }

  lemma SliceRead(s: seq<byte>, i: nat)
    requires i + 1 < |s|
    ensures Get16(s[i..i + 2], 0) == Get16(s, i)
  {
  }

  lemma WordSumOdd(s: seq<byte>)
    requires |s| % 2 == 1
    ensures WordSum(s) == WordSum(s[..|s| - 1]) + s[|s| - 1] as int * 256
  {
    var n := |s| - 1;
    assert s == s[..n] + [s[n]];
    WordSumAppend(s[..n], [s[n]]);
  }

  /** The two loops of `checksum` (with `initial` zero) and of `tcp_checksum` and
      `udp_checksum` (with the pseudo-header in `initial`).  The accumulator is a
      32-bit word and does not wrap for any message of up to 64 KiB. */
  method ComputeChecksum(s: seq<byte>, initial: u32) returns (r: u16)
    requires |s| <= 0x1_0000 && initial <= 0x10_0000
    ensures r == Complement(initial + WordSum(s))
  {
    hide Get16, WordSum;
    var sum: u32 := initial;
    var index := 0;
    assert WordSum(s[..0]) == 0 by { EmptySum(s[..0]); }
    while index + 1 < |s|
      invariant index <= |s| && index % 2 == 0
      invariant sum == initial + WordSum(s[..index])
      invariant sum <= initial + index * 0x8000
    {
      WordSumStep(s, index);
      Get16Bound(s, index);
      sum := sum + Get16(s, index);
      index := index + 2;
    }
    if |s| % 2 != 0 {
      WordSumOdd(s);
      assert s[..index] == s[..|s| - 1];
      sum := sum + s[|s| - 1] as int * 256;
    } else {
      assert s[..index] == s;
    }
    r := FoldSum(sum);
  }

  lemma EmptySum(s: seq<byte>)
    requires s == []
    ensures WordSum(s) == 0
  {
  }

  lemma Get16Bound(s: seq<byte>, i: nat)
    requires i + 1 < |s|
    ensures Get16(s, i) <= 0xffff
  {
  }

  method FoldSum(start: u32) returns (r: u16)
    ensures r == Complement(start)
  {
    var sum: u32 := start;
    while sum / M16 != 0
      invariant Fold(sum) == Fold(start)
      decreases sum
    {
      sum := sum % M16 + sum / M16;
    }
    r := 0xffff - sum;
  }
}
