/**
 * Base16 (section 8 of RFC 4648) as Python provides it: `bytes.fromhex` to decode, which
 * accepts either letter case and skips ASCII whitespace between byte pairs, and
 * `binascii.hexlify` to encode, which writes lower-case digits.
 */
module Base16 {
  import opened Wrappers
  import opened Bytes

  predicate IsHexDigit(c: char)
  {
    '0' <= c <= '9' || 'a' <= c <= 'f' || 'A' <= c <= 'F'
  }

  /** The six characters CPython's `Py_ISSPACE` accepts: space, tab, LF, VT, FF and CR. */
  predicate IsSpace(c: char)
  {
    c == ' ' || 9 <= c as int <= 13
  }

  function HexValue(c: char): (v: nat)
    requires IsHexDigit(c)
    ensures v < 16
  {
    if '0' <= c <= '9' then c as int - '0' as int
    else if 'a' <= c <= 'f' then c as int - 'a' as int + 10
    else c as int - 'A' as int + 10
  }

  /** The lower-case digit `hexlify` writes for a nibble. */
  function HexChar(v: nat): (c: char)
    requires v < 16
    ensures IsHexDigit(c) && !('A' <= c <= 'F')
    ensures HexValue(c) == v
  {
    if v < 10 then ('0' as int + v) as char else ('a' as int + v - 10) as char
  }

  /** The byte a pair of hex digits denotes, high nibble first. */
  function HexPair(hi: char, lo: char): byte
    requires IsHexDigit(hi) && IsHexDigit(lo)
  {
    (16 * HexValue(hi) + HexValue(lo)) as byte
  }

  /**
   * `bytes.fromhex(s)`: `None` where Python raises `ValueError`. Whitespace is skipped only
   * between pairs; a lone digit, a digit followed by whitespace, or any other character
   * (including every non-ASCII one) is an error.
   */
  function FromHex(s: string): (r: Option<seq<byte>>)
    ensures r.Some? ==> 2 * |r.value| <= |s|
    decreases |s|
  {
    if s == [] then Some([])
    else if IsSpace(s[0]) then FromHex(s[1..])
    else if |s| < 2 || !IsHexDigit(s[0]) || !IsHexDigit(s[1]) then None
    else
      match FromHex(s[2..])
      case None => None
      case Some(rest) => Some([HexPair(s[0], s[1])] + rest)
  }

  /** `binascii.hexlify(b).decode('utf8')`. */
  function ToHex(b: seq<byte>): (s: string)
    ensures |s| == 2 * |b|
    ensures forall i :: 0 <= i < |s| ==> IsHexDigit(s[i]) && !IsSpace(s[i]) && !('A' <= s[i] <= 'F')
  {
    if b == [] then []
    else [HexChar(b[0] as int / 16), HexChar(b[0] as int % 16)] + ToHex(b[1..])
  }

  /** Byte `i` becomes the two characters at `2i` and `2i + 1`, high nibble first. */
  lemma {:induction false} ToHexAt(b: seq<byte>, i: nat)
    requires i < |b|
    ensures ToHex(b)[2 * i] == HexChar(b[i] as int / 16)
    ensures ToHex(b)[2 * i + 1] == HexChar(b[i] as int % 16)
  {
    if i > 0 {
      ToHexAt(b[1..], i - 1);
    }
  }

  ghost predicate NoSpace(s: string)
  {
    forall i :: 0 <= i < |s| ==> !IsSpace(s[i])
  }

  ghost predicate AllHexDigits(s: string)
  {
    forall i :: 0 <= i < |s| ==> IsHexDigit(s[i])
  }

  /** Decoding what `hexlify` wrote gives back the original bytes. */
  lemma {:induction false} FromHexToHex(b: seq<byte>)
    ensures FromHex(ToHex(b)) == Some(b)
  {
    if b != [] {
      var s := ToHex(b);
      assert s[2..] == ToHex(b[1..]);
      FromHexToHex(b[1..]);
      HexPairOfByte(b[0]);
      assert [b[0]] + b[1..] == b;
    }
  }

  /** The two digits `hexlify` writes for a byte denote that byte. */
  lemma HexPairOfByte(x: byte)
    ensures HexPair(HexChar(x as int / 16), HexChar(x as int % 16)) == x
  {
  }

  /** `hexlify` is injective, so equal hex strings name equal byte strings. */
  lemma ToHexInjective(a: seq<byte>, b: seq<byte>)
    requires ToHex(a) == ToHex(b)
    ensures a == b
  {
    FromHexToHex(a);
    FromHexToHex(b);
  }

  /** Any character that is neither a hex digit nor whitespace makes the whole decode fail. */
  lemma {:induction false} FromHexRejectsForeignChar(s: string, i: nat)
    requires i < |s| && !IsHexDigit(s[i]) && !IsSpace(s[i])
    ensures FromHex(s) == None
  {
    if IsSpace(s[0]) {
      FromHexRejectsForeignChar(s[1..], i - 1);
    } else if |s| >= 2 && IsHexDigit(s[0]) && IsHexDigit(s[1]) {
      FromHexRejectsForeignChar(s[2..], i - 2);
    }
  }

  /**
   * Without whitespace, `fromhex` is exactly RFC 4648 Base16 decoding: it succeeds iff the
   * text is an even number of hex digits ...
   */
  lemma {:induction false} FromHexPlainSucceeds(s: string)
    requires NoSpace(s)
    ensures FromHex(s).Some? <==> |s| % 2 == 0 && AllHexDigits(s)
  {
    if s == [] {
      return;
    }
    assert !IsSpace(s[0]);
    if |s| < 2 {
      assert FromHex(s) == None && |s| == 1;
    } else if !IsHexDigit(s[0]) || !IsHexDigit(s[1]) {
      assert FromHex(s) == None && !AllHexDigits(s);
    } else {
      var tail := s[2..];
      PlainTail(s);
      FromHexPlainSucceeds(tail);
      assert FromHex(s).Some? <==> FromHex(tail).Some?;
      assert |s| == |tail| + 2;
      assert AllHexDigits(s) <==> AllHexDigits(tail) by {
        if AllHexDigits(tail) {
          forall i | 2 <= i < |s| ensures IsHexDigit(s[i]) {
            assert s[i] == tail[i - 2];
          }
        }
      }
    }
  }

  /** ... and then byte `i` is the value of the digit pair at `2i`. */
  lemma {:induction false} FromHexPlainBytes(s: string)
    requires NoSpace(s) && |s| % 2 == 0 && AllHexDigits(s)
    ensures FromHex(s).Some? && |FromHex(s).value| == |s| / 2
    ensures forall i :: 0 <= i < |s| / 2 ==> FromHex(s).value[i] == HexPair(s[2 * i], s[2 * i + 1])
  {
    if s != [] {
      var tail := s[2..];
      PlainTail(s);
      FromHexPlainBytes(tail);
      var rest := FromHex(tail).value;
      var r := FromHex(s).value;
      assert r == [HexPair(s[0], s[1])] + rest;
      forall i | 0 < i < |s| / 2 ensures r[i] == HexPair(s[2 * i], s[2 * i + 1]) {
        assert r[i] == rest[i - 1];
        assert tail[2 * (i - 1)] == s[2 * i] && tail[2 * (i - 1) + 1] == s[2 * i + 1];
      }
    }
  }

  /** A whitespace character where a pair may start is skipped. */
  lemma FromHexSkipsSpace(c: char, s: string)
    requires IsSpace(c)
    ensures FromHex([c] + s) == FromHex(s)
  {
    assert ([c] + s)[1..] == s;
  }

  /** Whitespace inside a pair is an error: a digit must be followed by its partner digit. */
  lemma FromHexSplitPairFails(d: char, c: char, s: string)
    requires IsHexDigit(d) && IsSpace(c)
    ensures FromHex([d, c] + s) == None
  {
  }

  /** Whitespace after any number of complete pairs is skipped: decoding ignores it. */
  lemma {:induction false} FromHexSpaceBetweenPairs(a: string, c: char, b: string)
    requires |a| % 2 == 0 && AllHexDigits(a) && IsSpace(c)
    ensures FromHex(a + [c] + b) == FromHex(a + b)
    decreases |a|
  {
    if a == [] {
      FromHexSkipsSpace(c, b);
      assert a + [c] + b == [c] + b && a + b == b;
    } else {
      var s, t := a + [c] + b, a + b;
      assert s[..2] == t[..2] == a[..2];
      assert s[2..] == a[2..] + [c] + b && t[2..] == a[2..] + b;
      assert AllHexDigits(a[2..]) by {
        forall i | 0 <= i < |a| - 2 ensures IsHexDigit(a[2..][i]) {
          assert a[2..][i] == a[i + 2];
        }
      }
      FromHexSpaceBetweenPairs(a[2..], c, b);
    }
  }

  /** `s` with every whitespace character removed. */
  function StripSpace(s: string): (r: string)
    ensures NoSpace(r) && |r| <= |s|
  {
    if s == [] then []
    else if IsSpace(s[0]) then StripSpace(s[1..])
    else [s[0]] + StripSpace(s[1..])
  }

  /**
   * Whatever text `fromhex` accepts, it decodes exactly as the same text with its whitespace
   * removed, which is plain Base16 of an even number of hex digits.
   */
  lemma {:induction false} FromHexStripsSpace(s: string)
    requires FromHex(s).Some?
    ensures FromHex(StripSpace(s)) == FromHex(s)
    ensures |StripSpace(s)| % 2 == 0
    ensures AllHexDigits(StripSpace(s))
    decreases |s|
  {
    if s == [] {
    } else if IsSpace(s[0]) {
      FromHexStripsSpace(s[1..]);
      assert StripSpace(s) == StripSpace(s[1..]);
    } else {
      var tail := s[2..];
      assert |s| >= 2 && IsHexDigit(s[0]) && IsHexDigit(s[1]) && FromHex(tail).Some?;
      FromHexStripsSpace(tail);
      var st := StripSpace(tail);
      var r := StripSpace(s);
      assert r == [s[0], s[1]] + st by {
        StripPair(s);
      }
      assert r[2..] == st && |r| == |st| + 2;
      assert FromHex(r) == FromHex(s) by {
        assert FromHex(s) == Some([HexPair(s[0], s[1])] + FromHex(tail).value);
        assert FromHex(r) == Some([HexPair(s[0], s[1])] + FromHex(st).value);
      }
      assert |r| % 2 == 0 by {
        var n := |st|;
        assert n % 2 == 0;
        assert (n + 2) % 2 == 0;
      }
      HexDigitsCons(r);
    }
  }

  /** Two leading non-whitespace characters survive stripping, in front of the stripped rest. */
  lemma StripPair(s: string)
    requires |s| >= 2 && !IsSpace(s[0]) && !IsSpace(s[1])
    ensures StripSpace(s) == [s[0], s[1]] + StripSpace(s[2..])
  {
    assert s[1..][1..] == s[2..];
  }

  /** Two hex digits in front of hex digits are hex digits. */
  lemma HexDigitsCons(r: string)
    requires |r| >= 2 && IsHexDigit(r[0]) && IsHexDigit(r[1]) && AllHexDigits(r[2..])
    ensures AllHexDigits(r)
  {
    forall i | 2 <= i < |r| ensures IsHexDigit(r[i]) {
      assert r[i] == r[2..][i - 2];
    }
  }

  /** Whitespace-free text keeps that property, and its digits, past its first pair. */
  lemma PlainTail(s: string)
    requires |s| >= 2 && NoSpace(s)
    ensures NoSpace(s[2..])
    ensures AllHexDigits(s) ==> AllHexDigits(s[2..])
  {
    var tail := s[2..];
    forall i | 0 <= i < |tail| ensures tail[i] == s[i + 2] {
    }
  }
}
