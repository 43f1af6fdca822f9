/**
 The SHA-1 fingerprint of the file to upload (`FileImageManager.getSHA1`).

 The file is read through an input stream in chunks; every chunk is fed to a
 `MessageDigest`, and the 20-byte digest is rendered as an unsigned base-16
 number, left-padded with '0' to 40 characters. The SHA-1 compression
 function itself is a parameter (`sha1`), and so are the answers of the
 stream's `read` calls and whether the platform offers the algorithm.
 */
module Fingerprint {
  import opened Basics

  /** Length of a SHA-1 digest in bytes. */
  const DIGEST_LENGTH: nat := 20

  /** Width of the rendered fingerprint, the `40` of `"%40s"`. */
  const HEX_WIDTH: nat := 40

  /** A SHA-1 digest. */
  type Digest = d: seq<byte> | |d| == DIGEST_LENGTH
    witness [0, 0, 0, 0, 0, 0, 0, 0, 0, 0, 0, 0, 0, 0, 0, 0, 0, 0, 0, 0]

  function Pow(base: nat, k: nat): (p: nat)
    ensures p >= 1 || base == 0
  {
    if k == 0 then 1 else base * Pow(base, k - 1)
  }

  // ---------------------------------------------------------------------
  // Rendering a digest as hexadecimal text
  // ---------------------------------------------------------------------

  /** The unsigned big-endian value of a byte string (`new BigInteger(1, bytes)`). */
  function BytesToNat(bs: seq<byte>): nat
  {
    if |bs| == 0 then 0
    else BytesToNat(bs[..|bs| - 1]) * 256 + bs[|bs| - 1] as nat
  }

  predicate IsLowerHexDigit(c: char)
  {
    '0' <= c <= '9' || 'a' <= c <= 'f'
  }

  predicate AllHexDigits(s: string)
  {
    forall i :: 0 <= i < |s| ==> IsLowerHexDigit(s[i])
  }

  /** The digit `Character.forDigit(v, 16)` writes: lower-case letters. */
  function DigitChar(v: nat): (c: char)
    requires v < 16
    ensures IsLowerHexDigit(c)
  {
    if v < 10 then ('0' as int + v) as char else ('a' as int + v - 10) as char
  }

  function DigitValue(c: char): (v: nat)
    requires IsLowerHexDigit(c)
    ensures v < 16
  {
    if '0' <= c <= '9' then c as int - '0' as int else c as int - 'a' as int + 10
  }

  /** `BigInteger.toString(16)` of a non-negative value: the base-16 digits
      without leading zeros, and "0" for zero. */
  function ToBase16(n: nat): (s: string)
    ensures |s| >= 1
    ensures AllHexDigits(s)
    ensures s[0] == '0' <==> n == 0
    ensures n == 0 ==> s == "0"
    decreases n
  {
    if n < 16 then [DigitChar(n)]
    else ToBase16(n / 16) + [DigitChar(n % 16)]
  }

  /** The value of a string of hexadecimal digits, most significant first. */
  function HexValue(s: string): nat
    requires AllHexDigits(s)
  {
    if |s| == 0 then 0
    else HexValue(s[..|s| - 1]) * 16 + DigitValue(s[|s| - 1])
  }

  function Spaces(n: nat): (s: string)
  {
    seq(n, _ => ' ')
  }

  function Zeros(n: nat): (s: string)
  {
    seq(n, _ => '0')
  }

  /** `String.format("%<width>s", s)`: right-justified in a field of `width`
      characters; a longer string is left as it is. */
  function FormatWidth(s: string, width: nat): (r: string)
    ensures |r| == if |s| >= width then |s| else width
  {
    if |s| >= width then s else Spaces(width - |s|) + s
  }

  /** `s.replace(' ', '0')`. */
  function ReplaceSpaces(s: string): (r: string)
    ensures |r| == |s|
    ensures forall i :: 0 <= i < |s| ==> r[i] == (if s[i] == ' ' then '0' else s[i])
  {
    seq(|s|, i requires 0 <= i < |s| => if s[i] == ' ' then '0' else s[i])
  }

  /** The fingerprint text of a digest, as `getSHA1` builds it. */
  function Hex40(d: Digest): string
  {
    ReplaceSpaces(FormatWidth(ToBase16(BytesToNat(d)), HEX_WIDTH))
  }

  lemma DigitRoundTrip(v: nat)
    requires v < 16
    ensures DigitValue(DigitChar(v)) == v
  {
  }

  /** Reading the base-16 digits back gives the number. */
  lemma {:induction false} Base16RoundTrip(n: nat)
    ensures HexValue(ToBase16(n)) == n
    decreases n
  {
    var s := ToBase16(n);
    if n < 16 {
      assert s[..|s| - 1] == [];
      DigitRoundTrip(n);
    } else {
      Base16RoundTrip(n / 16);
      assert s[..|s| - 1] == ToBase16(n / 16);
      DigitRoundTrip(n % 16);
    }
  }

  /** A value below 16^k needs at most k base-16 digits. */
  lemma {:induction false} Base16Length(n: nat, k: nat)
    requires k >= 1 && n < Pow(16, k)
    ensures |ToBase16(n)| <= k
    decreases k
  {
    if n >= 16 {
      assert n / 16 < Pow(16, k - 1);
      Base16Length(n / 16, k - 1);
    }
  }

  /** An m-byte string has a value below 256^m. */
  lemma {:induction false} BytesToNatBound(bs: seq<byte>)
    ensures BytesToNat(bs) < Pow(256, |bs|)
    decreases |bs|
  {
    if |bs| > 0 {
      var init := bs[..|bs| - 1];
      BytesToNatBound(init);
      assert BytesToNat(init) <= Pow(256, |init|) - 1;
      assert BytesToNat(bs) <= (Pow(256, |init|) - 1) * 256 + 255;
    }
  }

  lemma {:induction false} PowBytesAsDigits(m: nat)
    ensures Pow(256, m) == Pow(16, 2 * m)
    decreases m
  {
    if m > 0 {
      PowBytesAsDigits(m - 1);
      assert Pow(16, 2 * m) == 16 * Pow(16, 2 * m - 1) == 16 * (16 * Pow(16, 2 * (m - 1)));
    }
  }

  lemma {:induction false} ZerosValue(m: nat)
    ensures AllHexDigits(Zeros(m)) && HexValue(Zeros(m)) == 0
    decreases m
  {
    if m > 0 {
      assert Zeros(m)[..m - 1] == Zeros(m - 1);
      ZerosValue(m - 1);
    }
  }

  /** Leading zeros do not change the value of a hexadecimal string. */
  lemma {:induction false} LeadingZeros(m: nat, t: string)
    requires AllHexDigits(t)
    ensures AllHexDigits(Zeros(m) + t)
    ensures HexValue(Zeros(m) + t) == HexValue(t)
    decreases |t|
  {
    var u := Zeros(m) + t;
    if |t| == 0 {
      assert u == Zeros(m);
      ZerosValue(m);
    } else {
      var t' := t[..|t| - 1];
      LeadingZeros(m, t');
      assert u[..|u| - 1] == Zeros(m) + t';
      assert u[|u| - 1] == t[|t| - 1];
    }
  }

  /** Padding with spaces and then replacing every space with '0' is the
      same as padding with '0', because hexadecimal digits contain no space. */
  lemma PadThenReplace(t: string, width: nat)
    requires AllHexDigits(t) && |t| <= width
    ensures ReplaceSpaces(FormatWidth(t, width)) == Zeros(width - |t|) + t
  {
  }

  /** A 20-byte digest has at most 40 base-16 digits. */
  lemma DigestFitsWidth(d: Digest)
    ensures |ToBase16(BytesToNat(d))| <= HEX_WIDTH
  {
    BytesToNatBound(d);
    PowBytesAsDigits(DIGEST_LENGTH);
    Base16Length(BytesToNat(d), HEX_WIDTH);
  }

  /** The fingerprint is the base-16 rendering of the digest's unsigned value,
      left-padded with '0' to exactly 40 lower-case hexadecimal digits, and
      reading it back yields that value. */
  lemma Hex40RoundTrip(d: Digest)
    ensures var t := ToBase16(BytesToNat(d));
      |t| <= HEX_WIDTH && Hex40(d) == Zeros(HEX_WIDTH - |t|) + t
    ensures |Hex40(d)| == HEX_WIDTH
    ensures AllHexDigits(Hex40(d))
    ensures HexValue(Hex40(d)) == BytesToNat(d)
  {
    var n := BytesToNat(d);
    var t := ToBase16(n);
    DigestFitsWidth(d);
    PadThenReplace(t, HEX_WIDTH);
    LeadingZeros(HEX_WIDTH - |t|, t);
    Base16RoundTrip(n);
  }

  /** Equal-length byte strings with the same value are equal. */
  lemma {:induction false} BytesToNatInjective(a: seq<byte>, b: seq<byte>)
    requires |a| == |b| && BytesToNat(a) == BytesToNat(b)
    ensures a == b
    decreases |a|
  {
    if |a| > 0 {
      var n := |a| - 1;
      assert a[n] == b[n];
      BytesToNatInjective(a[..n], b[..n]);
      assert a == a[..n] + [a[n]];
      assert b == b[..n] + [b[n]];
    }
  }

  /** Distinct digests give distinct fingerprints. */
  lemma Hex40Injective(a: Digest, b: Digest)
    requires Hex40(a) == Hex40(b)
    ensures a == b
  {
    Hex40RoundTrip(a);
    Hex40RoundTrip(b);
    BytesToNatInjective(a, b);
  }

  // ---------------------------------------------------------------------
  // Reading the stream
  // ---------------------------------------------------------------------

  /** The answer of one `InputStream.read(buffer)` call: it fills the start of
      the buffer and returns how many bytes it wrote (possibly 0), or returns
      -1 at the end of the stream, or throws `IOException`. The buffer holds
      8192 bytes, so `data` is never longer; nothing in the model depends on
      that bound, so it is not stated. */
  datatype ReadCall =
    | Got(data: seq<byte>)
    | EndOfStream
    | ReadThrows

  /** The i-th `read` answer; a stream whose script is used up reports its end. */
  function ReadAt(stream: seq<ReadCall>, i: nat): ReadCall
  {
    if i < |stream| then stream[i] else EndOfStream
  }

  /** The loop test `read > 0`. */
  predicate Continues(c: ReadCall)
  {
    c.Got? && |c.data| > 0
  }

  /** The bytes a `read` answer delivers to the buffer. */
  function DataOf(c: ReadCall): seq<byte>
  {
    if c.Got? then c.data else []
  }

  /** The concatenation, in order, of the bytes delivered by `calls`. */
  function Flatten(calls: seq<ReadCall>): seq<byte>
  {
    if |calls| == 0 then []
    else Flatten(calls[..|calls| - 1]) + DataOf(calls[|calls| - 1])
  }

  /** Index of the first `read` at or after `from` that does not return a
      positive count; reading stops there. */
  function StopIndex(stream: seq<ReadCall>, from: nat): (k: nat)
    requires from <= |stream|
    ensures from <= k <= |stream|
    ensures forall j :: from <= j < k ==> Continues(stream[j])
    ensures !Continues(ReadAt(stream, k))
    decreases |stream| - from
  {
    if from == |stream| || !Continues(stream[from]) then from
    else StopIndex(stream, from + 1)
  }

  /** What the read loop fed to the digest, and whether a `read` threw. */
  datatype Feed = Feed(bytes: seq<byte>, failed: bool)

  /** The loop `while ((read = is.read(buffer)) > 0) digest.update(buffer, 0, read)`,
      entered before the i-th `read` with `fed` already given to the digest. */
  function FeedLoop(stream: seq<ReadCall>, i: nat, fed: seq<byte>): Feed
    decreases |stream| - i
  {
    if i >= |stream| then
      Feed(fed, false)
    else
      match stream[i]
      case ReadThrows => Feed(fed, true)
      case EndOfStream => Feed(fed, false)
      case Got(data) =>
        if |data| > 0 then FeedLoop(stream, i + 1, fed + data)
        else Feed(fed, false)
  }

  /** The read loop feeds the digest exactly the chunks read before the first
      non-positive answer, concatenated in order, and fails exactly when that
      answer is an exception. */
  lemma {:induction false} FeedLoopFeedsChunksRead(stream: seq<ReadCall>, i: nat, fed: seq<byte>)
    requires i <= |stream|
    requires forall j :: 0 <= j < i ==> Continues(stream[j])
    requires fed == Flatten(stream[..i])
    ensures var k := StopIndex(stream, 0);
      && FeedLoop(stream, i, fed).bytes == Flatten(stream[..k])
      && (FeedLoop(stream, i, fed).failed <==> ReadAt(stream, k).ReadThrows?)
    decreases |stream| - i
  {
    var k := StopIndex(stream, 0);
    if i < |stream| && Continues(stream[i]) {
      assert stream[..i + 1][..i] == stream[..i];
      FeedLoopFeedsChunksRead(stream, i + 1, fed + stream[i].data);
    } else {
      assert k == i;
    }
  }

  /** The outcome of `getSHA1`: the string it returns, the bytes given to the
      digest, and whether the stream was closed. */
  datatype Sha1Outcome = Sha1Outcome(output: string, fed: seq<byte>, streamClosed: bool)

  /** `getSHA1`. Without the algorithm it returns "" at once, before the
      `try`/`finally` that closes the stream, so the stream stays open. */
  function GetSha1(stream: seq<ReadCall>, algorithmAvailable: bool, sha1: seq<byte> -> Digest): (r: Sha1Outcome)
    ensures !algorithmAvailable ==> r == Sha1Outcome("", [], false)
    ensures algorithmAvailable ==> r.streamClosed
    ensures algorithmAvailable ==>
      var k := StopIndex(stream, 0);
      && r.fed == Flatten(stream[..k])
      && r.output == (if ReadAt(stream, k).ReadThrows? then "" else Hex40(sha1(r.fed)))
  {
    if !algorithmAvailable then
      Sha1Outcome("", [], false)
    else
      assert stream[..0] == [];
      FeedLoopFeedsChunksRead(stream, 0, []);
      var f := FeedLoop(stream, 0, []);
      if f.failed then Sha1Outcome("", f.bytes, true)
      else Sha1Outcome(Hex40(sha1(f.bytes)), f.bytes, true)
  }

  /** The result is either "" (no algorithm, or a `read` threw) or a
      40-digit fingerprint of the bytes read. */
  lemma GetSha1Shape(stream: seq<ReadCall>, algorithmAvailable: bool, sha1: seq<byte> -> Digest)
    ensures var r := GetSha1(stream, algorithmAvailable, sha1);
      || r.output == ""
      || (|r.output| == HEX_WIDTH && AllHexDigits(r.output)
          && HexValue(r.output) == BytesToNat(sha1(r.fed)))
  {
    var r := GetSha1(stream, algorithmAvailable, sha1);
    if r.output != "" {
      Hex40RoundTrip(sha1(r.fed));
    }
  }

  /** The chunk sizes do not matter: two streams that deliver the same bytes
      and end without an exception give the same fingerprint. */
  lemma ChunkingIrrelevant(s1: seq<ReadCall>, s2: seq<ReadCall>, sha1: seq<byte> -> Digest)
    requires !ReadAt(s1, StopIndex(s1, 0)).ReadThrows?
    requires !ReadAt(s2, StopIndex(s2, 0)).ReadThrows?
    requires Flatten(s1[..StopIndex(s1, 0)]) == Flatten(s2[..StopIndex(s2, 0)])
    ensures GetSha1(s1, true, sha1).output == GetSha1(s2, true, sha1).output
  {
  }
}
