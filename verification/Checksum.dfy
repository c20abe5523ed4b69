/** The two Internet checksums of the demo traffic generators
    (src/demo/syn_flood.cpp and src/demo/ping_flood.cpp). Both run on a
    little-endian host: a 16-bit value is stored low byte first, and `ntohs` and
    `htons` swap its bytes. */
module Checksum {
  import opened Words

  function LeWord(a: u8, b: u8): u16 {
    a + 0x100 * b
  }

  function BeWord(a: u8, b: u8): u16 {
    0x100 * a + b
  }

  /** `ntohs` and `htons` on a little-endian host. */
  function Swap(x: u16): u16 {
    x % 0x100 * 0x100 + x / 0x100
  }

  // ----- The specification: sums of 16-bit words -----

  /** The sum of the buffer's 16-bit words read in host order; an odd last byte
      counts as a word whose second byte is zero. */
  function LeSum(s: seq<u8>): nat {
    if |s| == 0 then 0
    else if |s| == 1 then LeWord(s[0], 0)
    else LeWord(s[0], s[1]) + LeSum(s[2..])
  }

  /** The same sum, with each word read in network order. */
  function BeSum(s: seq<u8>): nat {
    if |s| == 0 then 0
    else if |s| == 1 then BeWord(s[0], 0)
    else BeWord(s[0], s[1]) + BeSum(s[2..])
  }

  /** The sum of the bytes at even offsets. */
  ghost function HighSum(s: seq<u8>): nat {
    if |s| == 0 then 0
    else if |s| == 1 then s[0]
    else s[0] + HighSum(s[2..])
  }

  /** The 16-bit one's complement sum whose exact (unbounded) sum is `sum`:
      zero stays zero, anything else is reduced into 1..0xffff modulo 0xffff. */
  function OnesComplement(sum: nat): u16 {
    if sum == 0 then 0 else 1 + (sum - 1) % 0xffff
  }

  /** What `csum` computes from the exact sum: two folds, then complement and
      truncation to 16 bits. */
  function TwoFolds(sum: nat): u16 {
    var once := sum / TWO16 + sum % TWO16;
    var twice := once + once / TWO16;
    0xffff - twice % TWO16
  }

  /** The one's complement sum of the network-order words, zero being represented by
      0xffff. */
  function NetworkSum(s: seq<u8>): u16 {
    if BeSum(s) == 0 then 0xffff else OnesComplement(BeSum(s))
  }

  /** What `checksum` computes: its complement, in network order. */
  function NetworkChecksum(s: seq<u8>): u16 {
    Swap(0xffff - NetworkSum(s))
  }

  ghost predicate AllZero(s: seq<u8>) {
    forall i :: 0 <= i < |s| ==> s[i] == 0
  }

  // ----- The two loops -----

  /** Reads the host-order word at `at`; past the end its second byte is zero. */
  method HostWord(buf: seq<u8>, at: nat) returns (word: u16)
    requires at < |buf|
    ensures word == LeWord(buf[at], if at + 1 < |buf| then buf[at + 1] else 0)
  {
    var second: u8 := 0;
    if at + 1 < |buf| {
      second := buf[at + 1];
    }
    word := LeWord(buf[at], second);
  }

  lemma SwapOfWord(a: u8, b: u8)
    ensures Swap(LeWord(a, b)) == BeWord(a, b)
  {
    assert LeWord(a, b) / 0x100 == b && LeWord(a, b) % 0x100 == a;
  }

  /** Copies a host-order word and applies `ntohs`. */
  method NetworkWord(buf: seq<u8>, at: nat) returns (word: u16)
    requires at < |buf|
    ensures word == BeWord(buf[at], if at + 1 < |buf| then buf[at + 1] else 0)
  {
    var raw := HostWord(buf, at);
    SwapOfWord(buf[at], if at + 1 < |buf| then buf[at + 1] else 0);
    word := Swap(raw);
  }

  /** `csum`: adds host-order words into a wide accumulator, carries deferred. */
  method Csum(buf: seq<u8>) returns (answer: u16)
    ensures answer == TwoFolds(LeSum(buf))
  {
    var sum: nat := 0;
    var ptr, nbytes := 0, |buf|;
    while nbytes > 1
      invariant 0 <= nbytes && ptr + nbytes == |buf| && 0 <= ptr
      invariant sum + LeSum(buf[ptr..]) == LeSum(buf)
    {
      var word := HostWord(buf, ptr);
      sum := sum + word;
      assert buf[ptr..][2..] == buf[ptr + 2..];
      ptr := ptr + 2;
      nbytes := nbytes - 2;
    }
    if nbytes == 1 {
      var oddbyte := HostWord(buf, ptr);
      sum := sum + oddbyte;
    }
    assert sum == LeSum(buf);
    sum := sum / TWO16 + sum % TWO16;
    sum := sum + sum / TWO16;
    answer := 0xffff - sum % TWO16;
  }

  /** `checksum`: adds network-order words with an end-around carry, starting
      from 0xffff, the other representation of zero. */
  method PingChecksum(data: seq<u8>) returns (r: u16)
    ensures r == NetworkChecksum(data)
  {
    var acc: nat := 0xffff;
    ghost var carries := -1; // how often 0xffff has been taken off the exact sum
    var i := 0;
    while i + 1 < |data|
      invariant 0 <= i <= |data| && i % 2 == 0
      invariant 1 <= acc <= 0xffff
      invariant BeSum(data) == BeSum(data[i..]) + acc + 0xffff * carries
    {
      assert data[i..][2..] == data[i + 2..];
      var word := NetworkWord(data, i);
      acc := acc + word;
      if acc > 0xffff {
        acc := acc - 0xffff;
        carries := carries + 1;
      }
      i := i + 2;
    }
    if |data| % 2 == 1 {
      var word := NetworkWord(data, |data| - 1);
      acc := acc + word;
      if acc > 0xffff {
        acc := acc - 0xffff;
        carries := carries + 1;
      }
    }
    ReducedSum(BeSum(data), acc, carries);
    r := Swap(0xffff - acc);
  }

  // ----- Byte order independence -----

  /** Swapping the bytes of every word multiplies the sum by 256 modulo 0xffff,
      because 256 * 256 is 1 modulo 0xffff. */
  lemma {:induction false} ByteOrderScales(s: seq<u8>)
    ensures 0x100 * BeSum(s) == LeSum(s) + 0xffff * HighSum(s)
    ensures HighSum(s) <= BeSum(s)
  {
    if |s| >= 2 {
      ByteOrderScales(s[2..]);
    }
  }

  lemma {:induction false} ZeroSums(s: seq<u8>)
    ensures BeSum(s) == 0 <==> AllZero(s)
    ensures LeSum(s) == 0 <==> AllZero(s)
  {
    if |s| >= 2 {
      ZeroSums(s[2..]);
      assert forall i :: 2 <= i < |s| ==> s[i] == s[2..][i - 2];
      if AllZero(s) {
        assert AllZero(s[2..]);
      }
    }
  }

  /** The only value in 1..0xffff with the residue of `sum`. */
  lemma ReducedSum(sum: nat, acc: nat, k: int)
    requires 1 <= acc <= 0xffff && sum == acc + 0xffff * k
    ensures acc == if sum == 0 then 0xffff else OnesComplement(sum)
  {
    if sum > 0 {
      SameResidue(sum, acc, k);
    }
  }

  /** One's complement sums with equal residues that are both nonzero are equal. */
  lemma SameResidue(x: nat, y: nat, k: int)
    requires x > 0 && y > 0 && x == y + 0xffff * k
    ensures OnesComplement(x) == OnesComplement(y)
  {
    assert (x - 1) % 0xffff == (y - 1) % 0xffff by {
      assert x - 1 == (y - 1) + 0xffff * k;
    }
  }

  /** Swapping the bytes of a one's complement sum swaps the sum's byte order. */
  lemma SwapCommutes(be: nat, le: nat, high: nat)
    requires be > 0 && le > 0
    requires 0x100 * be == le + 0xffff * high
    ensures Swap(OnesComplement(be)) == OnesComplement(le)
  {
    var x := OnesComplement(be);
    var q := (be - 1) / 0xffff;
    assert be == x + 0xffff * q;
    var hi, lo := x / 0x100, x % 0x100;
    assert 0x100 * x == Swap(x) + 0xffff * hi;
    // le == 256 x + 0xffff (256 q - high) == Swap(x) + 0xffff (hi + 256 q - high)
    SameResidue(le, Swap(x), hi + 0x100 * q - high);
  }

  // ----- Deferred carries -----

  const CSUM_MAX_BYTES := 131_076

  /** Two folds give the one's complement sum for every sum below
      0x1_0000_ffff. */
  lemma TwoFoldsSuffice(sum: nat)
    requires sum < 0x1_0000_ffff
    ensures TwoFolds(sum) == 0xffff - OnesComplement(sum)
  {
    var hi, lo := sum / TWO16, sum % TWO16;
    var once := hi + lo;
    assert sum == once + 0xffff * hi;
    assert once < 0x1_ffff;
    if once > 0 {
      SameResidue(sum, once, hi);
    }
  }

  /** A buffer of n bytes cannot sum to more than all-ones words would. */
  lemma {:induction false} LeSumBound(s: seq<u8>)
    ensures LeSum(s) <= |s| / 2 * 0xffff + |s| % 2 * 0xff
  {
    if |s| >= 2 {
      LeSumBound(s[2..]);
    }
  }

  /** `csum` is the one's complement checksum of every buffer of at most
      131,076 bytes. */
  lemma CsumCorrect(s: seq<u8>)
    requires |s| <= CSUM_MAX_BYTES
    ensures TwoFolds(LeSum(s)) == 0xffff - OnesComplement(LeSum(s))
  {
    LeSumBound(s);
    TwoFoldsSuffice(LeSum(s));
  }

  /** `n` bytes of 0xff. */
  ghost function Ones(n: nat): (s: seq<u8>) {
    seq(n, i => 0xff)
  }

  lemma {:induction false} OnesThen(n: nat, t: seq<u8>)
    ensures LeSum(Ones(2 * n) + t) == n * 0xffff + LeSum(t)
    decreases n
  {
    var s := Ones(2 * n) + t;
    if n == 0 {
      assert s == t;
    } else {
      OnesThen(n - 1, t);
      assert s[2..] == Ones(2 * (n - 1)) + t;
    }
  }

  lemma {:induction false} LeadingOne(zeros: nat)
    ensures LeSum([1] + seq(zeros, i => 0)) == 1
  {
    var s: seq<u8> := [1] + seq(zeros, i => 0);
    if zeros > 0 {
      assert s[1] == 0;
      ZeroSums(s[2..]);
      assert AllZero(s[2..]);
    }
  }

  /** The length bound is exact: at every greater length some buffer defeats the
      two folds. */
  lemma CsumBoundIsTight(n: nat) returns (s: seq<u8>)
    requires n > CSUM_MAX_BYTES
    ensures |s| == n && !AllZero(s) && LeSum(s) == 0x1_0000_ffff
    ensures TwoFolds(LeSum(s)) != 0xffff - OnesComplement(LeSum(s))
  {
    var tail: seq<u8> := [1] + seq(n - CSUM_MAX_BYTES - 1, i => 0);
    s := Ones(2 * 65_538) + tail;
    LeadingOne(n - CSUM_MAX_BYTES - 1);
    OnesThen(65_538, tail);
    assert LeSum(s) == 0x1_0000_ffff;
    ZeroSums(s);
  }

  // ----- The two checksums agree -----

  /** At any length, unless all bytes are zero, `checksum` is the complement of the
      one's complement sum of the host-order words. */
  lemma NetworkChecksumInHostOrder(s: seq<u8>)
    requires !AllZero(s)
    ensures NetworkChecksum(s) == 0xffff - OnesComplement(LeSum(s))
  {
    ZeroSums(s);
    ByteOrderScales(s);
    SwapCommutes(BeSum(s), LeSum(s), HighSum(s));
    SwapOfComplement(OnesComplement(BeSum(s)));
  }

  lemma ZeroChecksums()
    ensures TwoFolds(0) == 0xffff && Swap(0) == 0
  {
  }

  /** On every buffer within `csum`'s bound that is not all zero the two
      checksums are the same 16-bit value, so they store the same two bytes. On an
      all-zero buffer they give 0xffff and 0x0000. */
  lemma ChecksumsAgree(s: seq<u8>, csum: u16, checksum: u16)
    requires |s| <= CSUM_MAX_BYTES
    requires csum == TwoFolds(LeSum(s)) && checksum == NetworkChecksum(s)
    ensures !AllZero(s) ==> csum == checksum
    ensures AllZero(s) ==> csum == 0xffff && checksum == 0
  {
    if AllZero(s) {
      ZeroSums(s);
      ZeroChecksums();
    } else {
      CsumCorrect(s);
      NetworkChecksumInHostOrder(s);
    }
  }

  /** The two checksums agree on every buffer of `n` bytes that is not all zero if and
      only if `n` is within the bound. */
  lemma ChecksumsAgreeIff(n: nat)
    ensures (forall s: seq<u8> :: |s| == n && !AllZero(s) ==> TwoFolds(LeSum(s)) == NetworkChecksum(s))
      <==> n <= CSUM_MAX_BYTES
  {
    if n <= CSUM_MAX_BYTES {
      forall s: seq<u8> | |s| == n && !AllZero(s) ensures TwoFolds(LeSum(s)) == NetworkChecksum(s) {
        ChecksumsAgree(s, TwoFolds(LeSum(s)), NetworkChecksum(s));
      }
    } else {
      var s := CsumBoundIsTight(n);
      NetworkChecksumInHostOrder(s);
    }
  }

  lemma SwapOfComplement(x: u16)
    ensures Swap(0xffff - x) == 0xffff - Swap(x)
  {
    var hi, lo := x / 0x100, x % 0x100;
    assert 0xffff - x == 0x100 * (0xff - hi) + (0xff - lo);
    assert (0xffff - x) / 0x100 == 0xff - hi;
  }

  // ----- Verification: a stored checksum checks to zero -----

  /** A zeroed 16-bit field at an even offset. */
  ghost predicate ZeroField(s: seq<u8>, at: nat) {
    at % 2 == 0 && at + 1 < |s| && s[at] == 0 && s[at + 1] == 0
  }

  /** The buffer after storing a 16-bit value at `at`, low byte first. */
  function Store(s: seq<u8>, at: nat, value: u16): (t: seq<u8>)
    requires at + 1 < |s|
    ensures |t| == |s|
  {
    s[at := value % 0x100][at + 1 := value / 0x100]
  }

  lemma {:induction false} StoreAdds(s: seq<u8>, at: nat, value: u16)
    requires ZeroField(s, at)
    ensures LeSum(Store(s, at, value)) == LeSum(s) + value
    ensures BeSum(Store(s, at, value)) == BeSum(s) + Swap(value)
  {
    var t := Store(s, at, value);
    if at == 0 {
      assert t[2..] == s[2..];
    } else {
      StoreAdds(s[2..], at - 2, value);
      assert t[2..] == Store(s[2..], at - 2, value);
    }
  }

  lemma SwapTwice(x: u16)
    ensures Swap(Swap(x)) == x
  {
    var hi, lo := x / 0x100, x % 0x100;
    assert Swap(x) == lo * 0x100 + hi;
    assert Swap(x) / 0x100 == lo;
  }

  /** Storing `checksum` in a zeroed field at an even offset makes a second
      `checksum` return zero, at any length. */
  lemma PingChecksumVerifies(s: seq<u8>, at: nat)
    requires ZeroField(s, at)
    ensures NetworkChecksum(Store(s, at, NetworkChecksum(s))) == 0
  {
    SumPlusComplement(BeSum(s), NetworkSum(s));
    ComplementChecksZero(s, at, NetworkSum(s));
  }

  lemma ComplementChecksZero(s: seq<u8>, at: nat, sum: u16)
    requires ZeroField(s, at)
    requires BeSum(s) + 0xffff - sum == 0 || OnesComplement(BeSum(s) + 0xffff - sum) == 0xffff
    ensures NetworkChecksum(Store(s, at, Swap(0xffff - sum))) == 0
  {
    StoreAddsSwapped(s, at, 0xffff - sum);
    AllOnesChecksZero(Store(s, at, Swap(0xffff - sum)));
  }

  lemma StoreAddsSwapped(s: seq<u8>, at: nat, word: u16)
    requires ZeroField(s, at)
    ensures BeSum(Store(s, at, Swap(word))) == BeSum(s) + word
  {
    StoreAdds(s, at, Swap(word));
    SwapTwice(word);
  }

  lemma AllOnesChecksZero(t: seq<u8>)
    requires BeSum(t) == 0 || OnesComplement(BeSum(t)) == 0xffff
    ensures NetworkChecksum(t) == 0
  {
    assert Swap(0) == 0;
  }

  /** The greatest length at which a stored `csum` verifies: the field itself is zero, so
      the rest may be as long as `csum` can handle. */
  const CSUM_FIELD_MAX_BYTES := CSUM_MAX_BYTES + 2

  lemma {:induction false} ZeroedSumBound(s: seq<u8>, at: nat)
    requires ZeroField(s, at)
    ensures LeSum(s) <= (|s| - 2) / 2 * 0xffff + |s| % 2 * 0xff
  {
    if at == 0 {
      LeSumBound(s[2..]);
    } else {
      ZeroedSumBound(s[2..], at - 2);
    }
  }

  /** A sum plus its checksum is a multiple of 0xffff, which two folds take to zero. */
  lemma SumPlusChecksum(sum: nat)
    requires sum <= 65_538 * 0xffff
    ensures TwoFolds(sum + TwoFolds(sum)) == 0
  {
    TwoFoldsSuffice(sum);
    var x := OnesComplement(sum);
    SumPlusComplement(sum, x);
    SumPlusComplementBound(sum, x);
    TwoFoldsSuffice(sum + 0xffff - x);
  }

  lemma SumPlusComplementBound(sum: nat, x: u16)
    requires sum <= 65_538 * 0xffff && x == OnesComplement(sum)
    ensures 0 < sum + 0xffff - x <= 65_538 * 0xffff || sum == 0
  {
    if sum > 0 {
      var q := (sum - 1) / 0xffff;
      assert sum == x + 0xffff * q;
    }
  }

  /** Storing `csum` in a zeroed field at an even offset makes a second `csum`
      return zero, up to 131,078 bytes. */
  lemma CsumVerifies(s: seq<u8>, at: nat)
    requires |s| <= CSUM_FIELD_MAX_BYTES
    requires ZeroField(s, at)
    ensures TwoFolds(LeSum(Store(s, at, TwoFolds(LeSum(s))))) == 0
  {
    ZeroedSumBound(s, at);
    SumPlusChecksum(LeSum(s));
    StoreAdds(s, at, TwoFolds(LeSum(s)));
  }

  /** At every greater length some buffer with its stored `csum` does not verify. */
  lemma CsumFailsToVerify(n: nat) returns (s: seq<u8>)
    requires n > CSUM_FIELD_MAX_BYTES
    ensures |s| == n && s[0] == 0 && s[1] == 0
    ensures TwoFolds(LeSum(Store(s, 0, TwoFolds(LeSum(s))))) != 0
  {
    var rest := CsumBoundIsTight(n - 2);
    s := [0, 0] + rest;
    assert s[2..] == rest;
    StoreAdds(s, 0, TwoFolds(LeSum(s)));
    TwoFoldsOverflow();
  }

  lemma TwoFoldsOverflow()
    ensures TwoFolds(0x1_0000_ffff) == 0xffff && TwoFolds(0x1_0000_ffff + 0xffff) == 0xffff
  {
  }

  /** A stored `csum` verifies on every buffer of `n` bytes if and only if `n` is at most
      131,078. */
  lemma CsumVerifiesIff(n: nat)
    ensures (forall s: seq<u8>, at: nat :: |s| == n && ZeroField(s, at) ==>
               TwoFolds(LeSum(Store(s, at, TwoFolds(LeSum(s))))) == 0)
      <==> n <= CSUM_FIELD_MAX_BYTES
  {
    if n <= CSUM_FIELD_MAX_BYTES {
      forall s: seq<u8>, at: nat | |s| == n && ZeroField(s, at)
        ensures TwoFolds(LeSum(Store(s, at, TwoFolds(LeSum(s))))) == 0 {
        CsumVerifies(s, at);
      }
    } else {
      var s := CsumFailsToVerify(n);
      assert ZeroField(s, 0);
    }
  }

  /** Adding the complement of a one's complement sum gives all ones, or the exact
      sum zero when zero is represented by 0xffff. */
  lemma SumPlusComplement(sum: nat, x: u16)
    requires x == OnesComplement(sum) || (sum == 0 && x == 0xffff)
    ensures sum + 0xffff - x == 0 || OnesComplement(sum + 0xffff - x) == 0xffff
  {
    if sum > 0 {
      var q := (sum - 1) / 0xffff;
      assert sum == x + 0xffff * q;
      SameResidue(sum + 0xffff - x, 0xffff, q);
    }
  }
}
