/**
 Bancho's elementary encodings: little-endian integers of a fixed width, ULEB128 and strings.
 Strings are sequences of encoded bytes. Every parser says what it leaves of the buffer.
 */
module Wire {
  type byte = n: int | 0 <= n < 256

  /** What a read comes to: a value, or the exception of a buffer that is too short. */
  datatype Read<+T> = Short | Got(value: T) {
    predicate IsFailure() { Short? }

    function PropagateFailure<U>(): Read<U>
      requires IsFailure()
    {
      Short
    }

    function Extract(): T
      requires !IsFailure()
    {
      value
    }
  }

  /** 256 to the power of k, the number of values of k bytes. */
  function Pow(k: nat): (r: nat)
    ensures r > 0
  {
    if k == 0 then 1 else 256 * Pow(k - 1)
  }

  /** n.to_bytes(k, "little"), cut off after k bytes. */
  function LE(n: nat, k: nat): (r: seq<byte>)
    ensures |r| == k
  {
    if k == 0 then [] else [n % 256] + LE(n / 256, k - 1)
  }

  /** int.from_bytes(s, "little"). */
  function FromLE(s: seq<byte>): nat {
    if s == [] then 0 else s[0] + 256 * FromLE(s[1..])
  }

  lemma {:induction false} FromLEofLE(n: nat, k: nat)
    requires n < Pow(k)
    ensures FromLE(LE(n, k)) == n
  {
    if k > 0 {
      FromLEofLE(n / 256, k - 1);
      assert LE(n, k)[1..] == LE(n / 256, k - 1);
    }
  }

  lemma LastDigit(d: byte, n: nat)
    ensures (d as nat + 256 * n) % 256 == d as nat && (d as nat + 256 * n) / 256 == n
  {
  }

  lemma LEDigit(n: nat, k: nat)
    requires k > 0
    ensures LE(n, k) == [n % 256] + LE(n / 256, k - 1)
  {
  }

  lemma {:induction false} LEofFromLE(s: seq<byte>)
    ensures FromLE(s) < Pow(|s|) && LE(FromLE(s), |s|) == s
  {
    if s != [] {
      var n := FromLE(s[1..]);
      LEofFromLE(s[1..]);
      LastDigit(s[0], n);
      LEDigit(s[0] as nat + 256 * n, |s|);
      assert [s[0]] + s[1..] == s;
    }
  }

  lemma LittleEndian(s: seq<byte>)
    ensures |s| == 2 ==> FromLE(s) == s[0] as nat + 0x100 * s[1] as nat
    ensures |s| == 4 ==> FromLE(s) == s[0] as nat + 0x100 * s[1] as nat + 0x1_0000 * s[2] as nat + 0x100_0000 * s[3] as nat
  {
    if |s| == 2 || |s| == 4 { assert s[1..][1..] == s[2..]; }
    if |s| == 4 { assert s[2..][1..] == s[3..]; }
  }

  /** The k-byte number n as two's complement. */
  function Signed(n: nat, k: nat): int {
    if 2 * n < Pow(k) then n else n - Pow(k)
  }

  /** The signed number differs from n by a multiple of all the values of k bytes, and is as close to zero as possible. */
  lemma TwosComplement(n: nat, k: nat)
    requires n < Pow(k)
    ensures Signed(n, k) in {n, n - Pow(k)} && 0 <= 2 * Signed(n, k) + Pow(k) < 2 * Pow(k)
  {
  }

  function Unsigned(v: int, k: nat): nat
    requires 0 <= v + Pow(k)
  {
    if v < 0 then v + Pow(k) else v
  }

  predicate FitsSigned(v: int, k: nat) { 0 <= 2 * v + Pow(k) < 2 * Pow(k) }

  lemma SignedOfUnsigned(v: int, k: nat)
    requires FitsSigned(v, k)
    ensures Unsigned(v, k) < Pow(k) && Signed(Unsigned(v, k), k) == v
  {
  }

  lemma Assoc(a: seq<byte>, b: seq<byte>, c: seq<byte>)
    ensures (a + b) + c == a + (b + c)
  {
  }

  function Min(a: nat, b: nat): nat { if a < b then a else b }

  /** from_bytes(view[:k]): a buffer that is too short counts as if it ended in zeros. */
  function ParseUnsigned(s: seq<byte>, k: nat): (nat, seq<byte>) {
    var n := Min(k, |s|);
    (FromLE(s[..n]), s[n..])
  }

  function ParseSigned(s: seq<byte>, k: nat): (int, seq<byte>) {
    var n := Min(k, |s|);
    (Signed(FromLE(s[..n]), n), s[n..])
  }

  lemma ParseUnsignedLE(n: nat, k: nat, rest: seq<byte>)
    requires n < Pow(k)
    ensures ParseUnsigned(LE(n, k) + rest, k) == (n, rest)
    ensures ParseSigned(LE(n, k) + rest, k) == (Signed(n, k), rest)
  {
    FromLEofLE(n, k);
    assert (LE(n, k) + rest)[..k] == LE(n, k);
    assert (LE(n, k) + rest)[k..] == rest;
  }

  function ParseI8(s: seq<byte>): Read<(int, seq<byte>)> {
    if s == [] then Short else Got((Signed(s[0], 1), s[1..]))
  }

  // ULEB128 (section 7.6 of DWARF 5)

  function Uleb(n: nat): seq<byte> {
    if n < 128 then [n] else [128 + n % 128] + Uleb(n / 128)
  }

  function ParseUleb(s: seq<byte>): Read<(nat, seq<byte>)> {
    if s == [] then Short
    else if s[0] < 128 then Got((s[0], s[1..]))
    else
      var r :- ParseUleb(s[1..]);
      Got((s[0] - 128 + 128 * r.0, r.1))
  }

  /** Decoding undoes encoding, and leaves what follows. */
  lemma {:induction false} ParseUlebOfUleb(n: nat, rest: seq<byte>)
    ensures ParseUleb(Uleb(n) + rest) == Got((n, rest))
  {
    if n >= 128 {
      ParseUlebOfUleb(n / 128, rest);
      assert (Uleb(n) + rest)[1..] == Uleb(n / 128) + rest;
    } else {
      assert (Uleb(n) + rest)[1..] == rest;
    }
  }

  /** No encoding of a number is shorter than the one written. */
  lemma {:induction false} UlebIsShortest(s: seq<byte>)
    requires ParseUleb(s).Got?
    ensures |Uleb(ParseUleb(s).value.0)| <= |s| - |ParseUleb(s).value.1|
  {
    if s[0] >= 128 {
      UlebIsShortest(s[1..]);
      UlebGrows(ParseUleb(s[1..]).value.0, s[0] - 128);
    }
  }

  /** Prepending a digit makes an encoding at most one byte longer. */
  lemma UlebGrows(n: nat, digit: nat)
    requires digit < 128
    ensures |Uleb(digit + 128 * n)| <= 1 + |Uleb(n)|
  {
    if n > 0 { assert (digit + 128 * n) / 128 == n; }
  }

  /** Exactly the encodings without a superfluous last zero are the ones written. */
  lemma {:induction false} UlebIsCanonical(s: seq<byte>)
    requires ParseUleb(s).Got? && ParseUleb(s).value.1 == []
    ensures s == Uleb(ParseUleb(s).value.0) <==> |s| == 1 || s[|s| - 1] != 0
  {
    if s[0] >= 128 {
      var rest := s[1..];
      UlebIsCanonical(rest);
      var n := ParseUleb(rest).value.0;
      assert s == [s[0]] + rest;
      assert rest[|rest| - 1] == s[|s| - 1];
      if n > 0 {
        assert (s[0] - 128 + 128 * n) / 128 == n && (s[0] - 128 + 128 * n) % 128 == s[0] - 128;
        if |rest| == 1 { assert rest == [n]; }
      } else {
        ZeroEnds(rest);
      }
    }
  }

  lemma {:induction false} ZeroEnds(s: seq<byte>)
    requires ParseUleb(s) == Got((0, []))
    ensures s[|s| - 1] == 0
  {
    if s[0] >= 128 {
      ZeroEnds(s[1..]);
    }
  }

  /** write_uleb128. */
  method WriteUleb(n: nat) returns (ret: seq<byte>)
    ensures ret == Uleb(n)
  {
    if n == 0 { return [0]; }
    var num := n;
    ret := [];
    while num != 0
      invariant num == 0 ==> ret == Uleb(n)
      invariant num != 0 ==> ret + Uleb(num) == Uleb(n)
    {
      ghost var before, num0 := ret, num;
      ret := ret + [num % 128];
      num := num / 128;
      if num != 0 {
        ret := ret[|ret| - 1 := ret[|ret| - 1] + 128];
        assert Uleb(num0) == [128 + num0 % 128] + Uleb(num);
        assert ret == before + [128 + num0 % 128];
      } else {
        assert Uleb(num0) == [num0];
      }
    }
  }

  // strings

  function String(s: seq<byte>): seq<byte> {
    if s == [] then [0] else [0x0B] + Uleb(|s|) + s
  }

  /** A length beyond the buffer takes what there is. */
  function ParseString(s: seq<byte>): Read<(seq<byte>, seq<byte>)> {
    if s == [] then Short
    else if s[0] != 0x0B then Got(([], s[1..]))
    else
      var r :- ParseUleb(s[1..]);
      var n := Min(r.0, |r.1|);
      Got((r.1[..n], r.1[n..]))
  }

  lemma ParseStringOfString(s: seq<byte>, rest: seq<byte>)
    ensures ParseString(String(s) + rest) == Got((s, rest))
  {
    if s == [] {
      assert (String(s) + rest)[1..] == rest;
    } else {
      ParseUlebOfUleb(|s|, s + rest);
      assert (String(s) + rest)[1..] == Uleb(|s|) + (s + rest);
      assert (s + rest)[..|s|] == s && (s + rest)[|s|..] == rest;
    }
  }

  /** Least significant digits come first, and strings are marked. */
  lemma Samples()
    ensures Uleb(624485) == [0xE5, 0x8E, 0x26]
    ensures String([]) == [0] && String([0x61, 0x62]) == [0x0B, 2, 0x61, 0x62]
  {
  }

  /** The empty string that is sent in place of a password. */
  lemma ParseHidden(rest: seq<byte>)
    ensures ParseString([0x0B, 0] + rest) == Got(([], rest))
  {
    assert ([0x0B, 0] + rest)[1..] == Uleb(0) + rest;
    ParseUlebOfUleb(0, rest);
  }
}
