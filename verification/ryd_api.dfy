/**
 * Pure helpers of the Return YouTube Dislike vote client: the proof-of-work
 * leading-zero count, the little-endian counter written into the puzzle
 * buffer, the client-side rate-limit gate, the response-code checks and
 * the shape of the random user id.  The clock and the random source are
 * parameters; hashing, Base64 and the network are not modelled.
 */
module RydApi {
  import opened Common

  // ------------------------------------------------------------ leading zeroes

  function Pow2(n: nat): (p: nat)
    ensures p >= 1
  {
    if n == 0 then 1 else 2 * Pow2(n - 1)
  }

  /** The position of the highest set bit of a positive value: floor(log2 v). */
  function Log2(v: nat): nat
    requires v >= 1
  {
    if v == 1 then 0 else 1 + Log2(v / 2)
  }

  /** `Log2(v)` is the unique `k` with 2^k <= v < 2^(k+1). */
  lemma {:induction false} Log2Bounds(v: nat)
    requires v >= 1
    ensures Pow2(Log2(v)) <= v < Pow2(Log2(v) + 1)
    decreases v
  {
    if v > 1 {
      Log2Bounds(v / 2);
    }
  }

  lemma Pow2Monotone(a: nat, b: nat)
    requires a <= b
    ensures Pow2(a) <= Pow2(b)
    decreases b - a
  {
    if a < b {
      Pow2Monotone(a, b - 1);
    }
  }

  lemma Log2Unique(v: nat, k: nat)
    requires Pow2(k) <= v < Pow2(k + 1)
    ensures Log2(v) == k
  {
    Log2Bounds(v);
    if Log2(v) < k {
      Pow2Monotone(Log2(v) + 1, k);
    } else if Log2(v) > k {
      Pow2Monotone(k + 1, Log2(v));
    }
  }

  /** The leading zero bits of one byte. */
  function ByteLeadingZeros(v: Byte): (n: nat)
    ensures n <= 8
  {
    if v == 0 then 8 else Log2OfByte(v); 7 - Log2(v)
  }

  lemma Log2OfByte(v: Byte)
    requires v >= 1
    ensures Log2(v) <= 7
  {
    Log2Bounds(v);
    if Log2(v) > 7 {
      Pow2Monotone(8, Log2(v));
    }
  }

  /** The leading zero bits of a big-endian bit string: eight for every
      leading zero byte, then those of the first non-zero byte. */
  function LeadingZeroBits(bytes: seq<Byte>): nat
  {
    if |bytes| == 0 then 0
    else if bytes[0] == 0 then 8 + LeadingZeroBits(bytes[1..])
    else ByteLeadingZeros(bytes[0])
  }

  /** The branch arithmetic the source applies to a non-zero byte: a
      two-step binary search on the high nibble and then the high two bits. */
  function BranchCount(v: Byte): int
    requires v >= 1
  {
    var count := 1;
    var (count, value) := if v / 16 == 0 then (count + 4, v * 16) else (count, v);
    var (count, value) := if value / 64 == 0 then (count + 2, value * 4) else (count, value);
    count - value / 128
  }

  /** For every byte 1..255 the branch arithmetic yields 7 - floor(log2 v). */
  lemma BranchCountIsSevenMinusLog2(v: Byte)
    requires v >= 1
    ensures Log2(v) <= 7
    ensures BranchCount(v) == 7 - Log2(v)
  {
    var k: nat :=
      if v >= 128 then 7 else if v >= 64 then 6 else if v >= 32 then 5 else if v >= 16 then 4
      else if v >= 8 then 3 else if v >= 4 then 2 else if v >= 2 then 1 else 0;
    assert Pow2(1) == 2 && Pow2(2) == 4 && Pow2(3) == 8 && Pow2(4) == 16;
    assert Pow2(5) == 32 && Pow2(6) == 64 && Pow2(7) == 128 && Pow2(8) == 256;
    Log2Unique(v, k);
  }

  /** The number of leading zero bytes. */
  function ZeroPrefix(bytes: seq<Byte>): (n: nat)
    ensures n <= |bytes|
    ensures forall i :: 0 <= i < n ==> bytes[i] == 0
    ensures n < |bytes| ==> bytes[n] != 0
  {
    if |bytes| == 0 || bytes[0] != 0 then 0 else 1 + ZeroPrefix(bytes[1..])
  }

  /** The count is eight per leading zero byte plus the leading zero bits of
      the first non-zero byte, and lies in 0..8 * |bytes|. */
  lemma {:induction false} LeadingZeroBitsShape(bytes: seq<Byte>)
    ensures LeadingZeroBits(bytes) ==
      8 * ZeroPrefix(bytes) + (if ZeroPrefix(bytes) < |bytes| then ByteLeadingZeros(bytes[ZeroPrefix(bytes)]) else 0)
    ensures LeadingZeroBits(bytes) <= 8 * |bytes|
    ensures ZeroPrefix(bytes) == |bytes| ==> LeadingZeroBits(bytes) == 8 * |bytes|
  {
    if |bytes| > 0 && bytes[0] == 0 {
      LeadingZeroBitsShape(bytes[1..]);
      if ZeroPrefix(bytes) < |bytes| {
        assert bytes[1..][ZeroPrefix(bytes[1..])] == bytes[ZeroPrefix(bytes)];
      }
    }
  }

  /** The proof-of-work leading-zero count of a digest. */
  method CountLeadingZeroes(bytes: seq<Byte>) returns (zeroes: int)
    ensures zeroes == LeadingZeroBits(bytes)
    ensures 0 <= zeroes <= 8 * |bytes|
  {
    zeroes := 0;
    var k := 0;
    while k < |bytes|
      invariant 0 <= k <= |bytes|
      invariant zeroes == 8 * k
      invariant LeadingZeroBits(bytes) == zeroes + LeadingZeroBits(bytes[k..])
    {
      var value: int := bytes[k];
      assert bytes[k..][1..] == bytes[k + 1..];
      if value == 0 {
        zeroes := zeroes + 8;
      } else {
        var count := 1;
        if value / 16 == 0 {
          count := count + 4;
          value := value * 16;
        }
        if value / 64 == 0 {
          count := count + 2;
          value := value * 4;
        }
        BranchCountIsSevenMinusLog2(bytes[k]);
        zeroes := zeroes + count - value / 128;
        LeadingZeroBitsShape(bytes);
        return;
      }
      k := k + 1;
    }
    LeadingZeroBitsShape(bytes);
  }

  // ------------------------------------------------------------ puzzle buffer

  const PuzzleBufferLength := 20
  const ChallengeLength := 16
  const TwoTo32 := 0x1_0000_0000

  /** Java `int` values. */
  type Int32 = i: int | -0x8000_0000 <= i < 0x8000_0000

  /** `(byte) (i >> 8 * k)`, as an unsigned byte: bits 8k..8k+7 of the
      two's-complement form of `i`. */
  function CounterByte(i: Int32, k: nat): Byte
    requires k < 4
  {
    var u := i % TwoTo32;
    if k == 0 then u % 256
    else if k == 1 then (u / 256) % 256
    else if k == 2 then (u / 256 / 256) % 256
    else (u / 256 / 256 / 256) % 256
  }

  /** The four counter bytes, least significant first. */
  function EncodeCounter(i: Int32): (bytes: seq<Byte>)
    ensures |bytes| == 4
  {
    [CounterByte(i, 0), CounterByte(i, 1), CounterByte(i, 2), CounterByte(i, 3)]
  }

  /** Reads four bytes as a little-endian unsigned value. */
  function DecodeLittleEndian(bytes: seq<Byte>): (v: nat)
    requires |bytes| == 4
    ensures v < TwoTo32
  {
    bytes[0] as int + 0x100 * bytes[1] as int + 0x1_0000 * bytes[2] as int + 0x100_0000 * bytes[3] as int
  }

  /** The counter bytes read back little-endian give the counter modulo
      2^32, so every non-negative counter, the only ones the solver loop
      writes, round-trips. */
  lemma CounterRoundTrip(i: Int32)
    ensures DecodeLittleEndian(EncodeCounter(i)) == i % TwoTo32
    ensures i >= 0 ==> DecodeLittleEndian(EncodeCounter(i)) == i
  {
    ByteDigits(i % TwoTo32);
  }

  /** A value below 2^32 is the sum of its four base-256 digits. */
  lemma ByteDigits(u: int)
    requires 0 <= u < TwoTo32
    ensures u == u % 256 + 0x100 * ((u / 256) % 256) + 0x1_0000 * ((u / 256 / 256) % 256) + 0x100_0000 * ((u / 256 / 256 / 256) % 256)
  {
    var u1 := u / 256;
    var u2 := u1 / 256;
    var u3 := u2 / 256;
    assert u == u % 256 + 256 * u1;
    assert u1 == u1 % 256 + 256 * u2;
    assert u2 == u2 % 256 + 256 * u3;
    assert u1 < 0x100_0000;
    assert u2 < 0x1_0000;
    assert u3 < 256;
  }

  /** Every four bytes are the encoding of some non-negative or negative Java
      counter: the encoding is onto. */
  lemma CounterEncodingOnto(bytes: seq<Byte>)
    requires |bytes| == 4
    ensures var v := DecodeLittleEndian(bytes);
            var i: Int32 := if v < 0x8000_0000 then v else v - TwoTo32;
            EncodeCounter(i) == bytes
  {
    var v := DecodeLittleEndian(bytes);
    var i: Int32 := if v < 0x8000_0000 then v else v - TwoTo32;
    assert i % TwoTo32 == v;
    var v1 := bytes[1] as int + 256 * bytes[2] as int + 0x1_0000 * bytes[3] as int;
    var v2 := bytes[2] as int + 256 * bytes[3] as int;
    assert v == bytes[0] as int + 256 * v1;
    assert v % 256 == bytes[0] && v / 256 == v1;
    assert v1 == bytes[1] as int + 256 * v2;
    assert v1 % 256 == bytes[1] && v1 / 256 == v2;
    assert v2 % 256 == bytes[2] && v2 / 256 == bytes[3];
  }

  /** The 20-byte buffer hashed for counter `i`: the counter, then the first
      sixteen bytes of the decoded challenge.  A challenge shorter than
      sixteen bytes makes the copy throw. */
  function PuzzleBuffer(challenge: seq<Byte>, i: Int32): (r: Result<seq<Byte>>)
    ensures r.Err? <==> |challenge| < ChallengeLength
    ensures r.Err? ==> r.error == IndexOutOfBounds
    ensures r.Ok? ==> |r.value| == PuzzleBufferLength
    ensures r.Ok? ==> r.value[4..] == challenge[..ChallengeLength]
    ensures r.Ok? ==> DecodeLittleEndian(r.value[..4]) == i % TwoTo32
  {
    if |challenge| < ChallengeLength then Err(IndexOutOfBounds)
    else
      CounterRoundTrip(i);
      var buffer := EncodeCounter(i) + challenge[..ChallengeLength];
      assert buffer[..4] == EncodeCounter(i);
      Ok(buffer)
  }

  // ------------------------------------------------------------ rate limit

  const RateLimitStatus := 429

  /** The gate: `resume` is the time API calls may resume, 0 when none is
      pending.  Returns whether a call is refused and the new resume time. */
  function CheckIfRateLimitInEffect(resume: int, now: int): (r: (bool, int))
    ensures r.0 <==> resume != 0 && now <= resume
    ensures r.0 ==> r.1 == resume
    ensures !r.0 ==> r.1 == 0
  {
    if resume == 0 then (false, resume)
    else if now > resume then (false, 0)
    else (true, resume)
  }

  /** The gate consulted at each of the times `nows`, in order. */
  function GateOver(resume: int, nows: seq<int>): (results: seq<bool>)
    ensures |results| == |nows|
    decreases |nows|
  {
    if |nows| == 0 then []
    else
      var (refused, resume') := CheckIfRateLimitInEffect(resume, nows[0]);
      [refused] + GateOver(resume', nows[1..])
  }

  /** Nothing sets a resume time, so once it is 0 the gate never refuses. */
  lemma {:induction false} OpenGateStaysOpen(nows: seq<int>)
    ensures forall k :: 0 <= k < |nows| ==> !GateOver(0, nows)[k]
  {
    if |nows| > 0 {
      OpenGateStaysOpen(nows[1..]);
      assert forall k :: 1 <= k < |nows| ==> GateOver(0, nows)[k] == GateOver(0, nows[1..])[k - 1];
    }
  }

  /** A refusing gate keeps refusing until the clock passes the resume time,
      and after that refuses nothing. */
  lemma {:induction false} GateRefusesUntilResume(resume: int, nows: seq<int>)
    requires resume != 0
    ensures forall k :: 0 <= k < |nows| && (forall j :: 0 <= j <= k ==> nows[j] <= resume) ==> GateOver(resume, nows)[k]
    ensures forall k :: 0 <= k < |nows| && nows[k] > resume ==> forall j :: k <= j < |nows| ==> !GateOver(resume, nows)[j]
  {
    if |nows| > 0 {
      if nows[0] > resume {
        OpenGateStaysOpen(nows[1..]);
        assert forall j :: 1 <= j < |nows| ==> GateOver(resume, nows)[j] == GateOver(0, nows[1..])[j - 1];
      } else {
        GateRefusesUntilResume(resume, nows[1..]);
        assert forall j :: 1 <= j < |nows| ==> GateOver(resume, nows)[j] == GateOver(resume, nows[1..])[j - 1];
        forall k | 0 <= k < |nows| && nows[k] > resume
          ensures forall j :: k <= j < |nows| ==> !GateOver(resume, nows)[j]
        {
          assert nows[1..][k - 1] == nows[k];
        }
        forall k | 1 <= k < |nows| && (forall j :: 0 <= j <= k ==> nows[j] <= resume)
          ensures GateOver(resume, nows)[k]
        {
          assert forall j :: 0 <= j <= k - 1 ==> nows[1..][j] == nows[j + 1];
        }
      }
    }
  }

  /** Whether a response code asks the client to back off. */
  function CheckIfRateLimitWasHit(status: int): (hit: bool)
    ensures hit <==> status == RateLimitStatus
  {
    status == RateLimitStatus
  }

  /** What the client reports after a failed call. */
  datatype Report = Silent | RateLimitToast

  /** The argument check: a rate-limit response cannot also be a connection
      error. */
  function UpdateRateLimitAndStats(connectionError: bool, rateLimitHit: bool): (r: Result<Report>)
    ensures r.Err? <==> connectionError && rateLimitHit
    ensures r.Err? ==> r.error == IllegalArgument
    ensures r == Ok(RateLimitToast) <==> rateLimitHit && !connectionError
    ensures !rateLimitHit ==> r == Ok(Silent)
  {
    if rateLimitHit then
      if connectionError then Err(IllegalArgument) else Ok(RateLimitToast)
    else Ok(Silent)
  }

  /** A response throws in the stats update exactly when it is a 429 that
      was also flagged as a connection error. */
  lemma ResponseThrowsOnlyOnFlaggedRateLimit(status: int, connectionError: bool)
    ensures UpdateRateLimitAndStats(connectionError, CheckIfRateLimitWasHit(status)).Err?
            <==> connectionError && status == 429
  {
  }

  // ------------------------------------------------------------ random user id

  const RandomStringLength := 36
  const Upper := "ABCDEFGHIJKLMNOPQRSTUVWXYZ"
  const Lower := "abcdefghijklmnopqrstuvwxyz"
  const Digits := "0123456789"
  /** The 62-character alphabet of the id, written out in the same order. */
  const Alphabet := Upper + Lower + Digits

  /** ASCII letters and digits. */
  predicate Alphanumeric(c: char)
  {
    ('A' <= c <= 'Z') || ('a' <= c <= 'z') || ('0' <= c <= '9')
  }

  /** `n` consecutive characters from `first` on. */
  function CharRange(first: char, n: nat): (s: string)
    requires first as int + n <= 0xD800
    ensures |s| == n
    ensures forall i :: 0 <= i < n ==> s[i] as int == first as int + i
  {
    if n == 0 then [] else CharRange(first, n - 1) + [(first as int + n - 1) as char]
  }

  /** The alphabet is the upper-case letters, the lower-case letters and the
      digits, in that order. */
  lemma AlphabetLayout()
    ensures |Alphabet| == 62
    ensures forall i :: 0 <= i < 26 ==> Alphabet[i] as int == 'A' as int + i
    ensures forall i :: 26 <= i < 52 ==> Alphabet[i] as int == 'a' as int + (i - 26)
    ensures forall i :: 52 <= i < 62 ==> Alphabet[i] as int == '0' as int + (i - 52)
  {
    UpperLayout();
    LowerLayout();
    DigitsLayout();
    assert Alphabet == CharRange('A', 26) + CharRange('a', 26) + CharRange('0', 10);
  }

  lemma UpperLayout() ensures CharRange('A', 26) == Upper {}
  lemma LowerLayout() ensures CharRange('a', 26) == Lower {}
  lemma DigitsLayout() ensures CharRange('0', 10) == Digits {}

  /** The position of a letter or digit in the alphabet. */
  function AlphabetIndex(c: char): (i: nat)
    requires Alphanumeric(c)
    ensures i < |Alphabet| && Alphabet[i] == c
  {
    AlphabetLayout();
    if 'A' <= c <= 'Z' then c as int - 'A' as int
    else if 'a' <= c <= 'z' then 26 + (c as int - 'a' as int)
    else 52 + (c as int - '0' as int)
  }

  /** The alphabet holds 62 characters, each a letter or a digit, none twice,
      and every letter and digit occurs in it. */
  lemma AlphabetIsAlphanumeric()
    ensures |Alphabet| == 62
    ensures forall i :: 0 <= i < |Alphabet| ==> Alphanumeric(Alphabet[i])
    ensures forall i, j :: 0 <= i < j < |Alphabet| ==> Alphabet[i] != Alphabet[j]
    ensures forall c :: Alphanumeric(c) ==> c in Alphabet
  {
    AlphabetLayout();
    forall c | Alphanumeric(c)
      ensures c in Alphabet
    {
      assert Alphabet[AlphabetIndex(c)] == c;
    }
  }

  /** The random user id, with the random draws as a parameter: each draw is
      a `nextInt(62)` result. */
  method RandomString(draws: seq<int>) returns (s: string)
    requires |draws| == RandomStringLength
    requires forall k :: 0 <= k < |draws| ==> 0 <= draws[k] < |Alphabet|
    ensures |s| == RandomStringLength
    ensures forall k :: 0 <= k < |s| ==> Alphanumeric(s[k])
    ensures forall k :: 0 <= k < |s| ==> s[k] == Alphabet[draws[k]]
  {
    s := "";
    var i := 0;
    while i < RandomStringLength
      invariant 0 <= i <= RandomStringLength
      invariant |s| == i
      invariant forall k :: 0 <= k < i ==> s[k] == Alphabet[draws[k]]
    {
      s := s + [Alphabet[draws[i]]];
      i := i + 1;
    }
    assert forall k :: 0 <= k < |s| ==> Alphanumeric(s[k]) by {
      AlphabetIsAlphanumeric();
    }
  }

  /** Every 36-character alphanumeric string is the id of exactly one
      sequence of draws. */
  lemma RandomStringReachesEveryId(s: string)
    requires |s| == RandomStringLength
    requires forall k :: 0 <= k < |s| ==> Alphanumeric(s[k])
    ensures var draws := seq(|s|, k requires 0 <= k < |s| => AlphabetIndex(s[k]));
            forall k :: 0 <= k < |s| ==> 0 <= draws[k] < |Alphabet| && Alphabet[draws[k]] == s[k]
    ensures forall draws: seq<int> ::
              |draws| == |s| && (forall k :: 0 <= k < |s| ==> 0 <= draws[k] < |Alphabet| && Alphabet[draws[k]] == s[k])
              ==> forall k :: 0 <= k < |s| ==> draws[k] == AlphabetIndex(s[k])
  {
    AlphabetIsAlphanumeric();
  }
}
