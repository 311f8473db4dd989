/** The text hash of a stored chunk: the SHA-256 digest of the chunk, formatted by
    `BitConverter.ToString`, with the dashes removed and lower-cased. The digest itself is
    supplied from outside; only its formatting is modelled. */
module Hex {
  import opened Strings

  newtype byte = b: int | 0 <= b < 256

  /** A SHA-256 digest: 32 bytes. */
  type Digest = d: seq<byte> | |d| == 32 witness seq(32, _ => 0 as byte)

  /** Hexadecimal digit of `n` in upper case, as `BitConverter.ToString` writes it. */
  function UpperDigit(n: int): (c: char)
    requires 0 <= n < 16
    ensures IsUpperHexDigit(c) && UpperValue(c) == n
  {
    if n < 10 then '0' + n as char else 'A' + (n - 10) as char
  }

  /** Hexadecimal digit of `n` in lower case. */
  function LowerDigit(n: int): (c: char)
    requires 0 <= n < 16
    ensures IsLowerHexDigit(c) && LowerValue(c) == n
  {
    if n < 10 then '0' + n as char else 'a' + (n - 10) as char
  }

  predicate IsUpperHexDigit(c: char)
  {
    '0' <= c <= '9' || 'A' <= c <= 'F'
  }

  predicate IsLowerHexDigit(c: char)
  {
    '0' <= c <= '9' || 'a' <= c <= 'f'
  }

  function UpperValue(c: char): int
    requires IsUpperHexDigit(c)
  {
    if c <= '9' then (c - '0') as int else (c - 'A') as int + 10
  }

  function LowerValue(c: char): int
    requires IsLowerHexDigit(c)
  {
    if c <= '9' then (c - '0') as int else (c - 'a') as int + 10
  }

  /** `BitConverter.ToString(bytes)`: two upper-case digits per byte, pairs separated by
      dashes. */
  function BitConverterToString(bs: seq<byte>): (r: string)
    ensures bs == [] ==> r == []
    ensures bs != [] ==> |r| == 3 * |bs| - 1
  {
    if bs == [] then []
    else if |bs| == 1 then UpperPair(bs[0])
    else UpperPair(bs[0]) + "-" + BitConverterToString(bs[1..])
  }

  /** The layout of `BitConverter.ToString`: byte `k` is written as its two upper-case
      digits at positions `3k` and `3k + 1`, and a dash follows every pair but the last. */
  lemma {:induction false} BitConverterLayout(bs: seq<byte>)
    ensures var r := BitConverterToString(bs);
      forall k :: 0 <= k < |bs| ==> 3 * k + 2 <= |r| && r[3 * k..3 * k + 2] == UpperPair(bs[k])
    ensures var r := BitConverterToString(bs);
      forall k :: 0 <= k < |bs| - 1 ==> 3 * k + 2 < |r| && r[3 * k + 2] == '-'
  {
    if |bs| > 1 {
      BitConverterLayout(bs[1..]);
      PairsAfterHead(bs, BitConverterToString(bs[1..]));
      DashesAfterHead(bs, BitConverterToString(bs[1..]));
    }
  }

  /** The pairs of `UpperPair(bs[0]) + "-" + rest`, given those of `rest` for `bs[1..]`. */
  lemma PairsAfterHead(bs: seq<byte>, rest: string)
    requires |bs| > 1
    requires forall k :: 0 <= k < |bs| - 1 ==>
      3 * k + 2 <= |rest| && rest[3 * k..3 * k + 2] == UpperPair(bs[1..][k])
    ensures var r := UpperPair(bs[0]) + "-" + rest;
      forall k :: 0 <= k < |bs| ==> 3 * k + 2 <= |r| && r[3 * k..3 * k + 2] == UpperPair(bs[k])
  {
    var r := UpperPair(bs[0]) + "-" + rest;
    forall k | 0 <= k < |bs|
      ensures 3 * k + 2 <= |r| && r[3 * k..3 * k + 2] == UpperPair(bs[k])
    {
      if k > 0 {
        assert bs[1..][k - 1] == bs[k];
        ShiftedSlice(UpperPair(bs[0]) + "-", rest, 3 * (k - 1), 2);
      }
    }
  }

  /** The dashes of `UpperPair(bs[0]) + "-" + rest`, given those of `rest` for `bs[1..]`. */
  lemma DashesAfterHead(bs: seq<byte>, rest: string)
    requires |bs| > 1 && |rest| == 3 * (|bs| - 1) - 1
    requires forall k :: 0 <= k < |bs| - 2 ==> 3 * k + 2 < |rest| && rest[3 * k + 2] == '-'
    ensures var r := UpperPair(bs[0]) + "-" + rest;
      forall k :: 0 <= k < |bs| - 1 ==> 3 * k + 2 < |r| && r[3 * k + 2] == '-'
  {
    var r := UpperPair(bs[0]) + "-" + rest;
    forall k | 0 <= k < |bs| - 1
      ensures 3 * k + 2 < |r| && r[3 * k + 2] == '-'
    {
      if k > 0 {
        assert r[3 * k + 2] == rest[3 * (k - 1) + 2];
      }
    }
  }

  /** A slice beyond a three-character head is the matching slice of the tail. */
  lemma ShiftedSlice(head: string, tail: string, i: nat, n: nat)
    requires |head| == 3 && i + n <= |tail|
    ensures (head + tail)[i + 3..i + 3 + n] == tail[i..i + n]
  {
  }

  /** The two upper-case digits of one byte. */
  function UpperPair(b: byte): (r: string)
    ensures |r| == 2 && IsUpperHexDigit(r[0]) && IsUpperHexDigit(r[1])
    ensures 16 * UpperValue(r[0]) + UpperValue(r[1]) == b as int
  {
    [UpperDigit(b as int / 16), UpperDigit(b as int % 16)]
  }

  /** The two lower-case digits of one byte. */
  function LowerPair(b: byte): (r: string)
    ensures |r| == 2 && IsLowerHexDigit(r[0]) && IsLowerHexDigit(r[1])
    ensures 16 * LowerValue(r[0]) + LowerValue(r[1]) == b as int
  {
    [LowerDigit(b as int / 16), LowerDigit(b as int % 16)]
  }

  /** `s.Replace("-", "")`. */
  function RemoveDashes(s: string): (r: string)
    ensures |r| <= |s|
    ensures forall i :: 0 <= i < |r| ==> r[i] != '-'
  {
    if s == [] then []
    else if s[0] == '-' then RemoveDashes(s[1..])
    else [s[0]] + RemoveDashes(s[1..])
  }

  /** Reference definition: two lower-case hexadecimal digits per byte, most significant
      first, nothing between them. */
  function LowerHex(bs: seq<byte>): (r: string)
    ensures |r| == 2 * |bs|
    ensures forall i :: 0 <= i < |r| ==> IsLowerHexDigit(r[i])
  {
    if bs == [] then [] else LowerPair(bs[0]) + LowerHex(bs[1..])
  }

  /** Reads back pairs of lower-case hexadecimal digits as bytes. */
  function DecodeLowerHex(s: string): seq<byte>
    requires |s| % 2 == 0
    requires forall i :: 0 <= i < |s| ==> IsLowerHexDigit(s[i])
  {
    if s == [] then []
    else [(16 * LowerValue(s[0]) + LowerValue(s[1])) as byte] + DecodeLowerHex(s[2..])
  }

  /** `ComputeHash` once the digest is known: 64 lower-case hexadecimal characters that
      spell the digest. */
  function ComputeHash(digest: Digest): (r: string)
    ensures |r| == 64
    ensures forall i :: 0 <= i < |r| ==> IsLowerHexDigit(r[i])
    ensures DecodeLowerHex(r) == digest
  {
    FormattedIsLowerHex(digest);
    DecodeLowerHexRoundTrip(digest);
    ToLowerAscii(RemoveDashes(BitConverterToString(digest)))
  }

  /** Distinct digests give distinct hashes. */
  lemma ComputeHashInjective(d1: Digest, d2: Digest)
    ensures ComputeHash(d1) == ComputeHash(d2) ==> d1 == d2
  {
  }

  /** Removing dashes, then lower-casing, turns `BitConverter.ToString` into the
      reference lower-case hex. */
  lemma {:induction false} FormattedIsLowerHex(bs: seq<byte>)
    ensures ToLowerAscii(RemoveDashes(BitConverterToString(bs))) == LowerHex(bs)
  {
    if |bs| == 1 {
      PairFormatted(bs[0]);
      assert LowerHex(bs) == LowerPair(bs[0]) + LowerHex([]);
    } else if |bs| > 1 {
      var pair, rest := UpperPair(bs[0]), BitConverterToString(bs[1..]);
      calc {
        ToLowerAscii(RemoveDashes(BitConverterToString(bs)));
        { assert pair + "-" + rest == pair + ("-" + rest); }
        ToLowerAscii(RemoveDashes(pair + ("-" + rest)));
        { RemoveDashesAppend(pair, "-" + rest); }
        ToLowerAscii(RemoveDashes(pair) + RemoveDashes("-" + rest));
        { assert ("-" + rest)[1..] == rest; }
        ToLowerAscii(RemoveDashes(pair) + RemoveDashes(rest));
        { ToLowerAppend(RemoveDashes(pair), RemoveDashes(rest)); }
        ToLowerAscii(RemoveDashes(pair)) + ToLowerAscii(RemoveDashes(rest));
        { PairFormatted(bs[0]); FormattedIsLowerHex(bs[1..]); }
        LowerPair(bs[0]) + LowerHex(bs[1..]);
      }
    }
  }

  /** One byte: its upper-case pair, without dashes and lower-cased, is its lower-case pair. */
  lemma PairFormatted(b: byte)
    ensures ToLowerAscii(RemoveDashes(UpperPair(b))) == LowerPair(b)
  {
    var p := UpperPair(b);
    assert RemoveDashes(p) == [p[0]] + RemoveDashes([p[1]]);
    assert RemoveDashes(p) == p;
  }

  lemma {:induction false} RemoveDashesAppend(a: string, b: string)
    ensures RemoveDashes(a + b) == RemoveDashes(a) + RemoveDashes(b)
  {
    if a != [] {
      assert (a + b)[0] == a[0];
      assert (a + b)[1..] == a[1..] + b;
      RemoveDashesAppend(a[1..], b);
      if a[0] == '-' {
        assert RemoveDashes(a + b) == RemoveDashes(a[1..] + b);
      } else {
        assert RemoveDashes(a + b) == [a[0]] + RemoveDashes(a[1..] + b);
        assert RemoveDashes(a) == [a[0]] + RemoveDashes(a[1..]);
      }
    } else {
      assert a + b == b;
    }
  }

  /** Decoding the reference hex gives back the bytes. */
  lemma {:induction false} DecodeLowerHexRoundTrip(bs: seq<byte>)
    ensures DecodeLowerHex(LowerHex(bs)) == bs
  {
    if bs != [] {
      var s := LowerHex(bs);
      assert s[2..] == LowerHex(bs[1..]);
      DecodeLowerHexRoundTrip(bs[1..]);
    }
  }
}
