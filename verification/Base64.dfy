/** The standard base64 encoding with padding: section 4 of RFC 4648. */
module Base64 {
  import opened Common
  import opened Text

  type Byte = x: int | 0 <= x < 256

  function Digit(n: nat): (c: char)
    requires n < 64
    ensures Plain(c) && c != '='
  {
    if n < 26 then ('A' as int + n) as char
    else if n < 52 then ('a' as int + (n - 26)) as char
    else if n < 62 then ('0' as int + (n - 52)) as char
    else if n == 62 then '+' else '/'
  }

  function Value(c: char): (r: Option<nat>)
    ensures r.Some? ==> r.value < 64
  {
    if 'A' <= c <= 'Z' then Some(c as int - 'A' as int)
    else if 'a' <= c <= 'z' then Some(c as int - 'a' as int + 26)
    else if '0' <= c <= '9' then Some(c as int - '0' as int + 52)
    else if c == '+' then Some(62)
    else if c == '/' then Some(63)
    else None
  }

  lemma ValueOfDigit(n: nat)
    requires n < 64
    ensures Value(Digit(n)) == Some(n)
  {}

  function EncodeToString(data: seq<Byte>): string {
    if data == [] then []
    else if |data| == 1 then
      [Digit(data[0] / 4), Digit(data[0] % 4 * 16), '=', '=']
    else if |data| == 2 then
      [Digit(data[0] / 4), Digit(data[0] % 4 * 16 + data[1] / 16), Digit(data[1] % 16 * 4), '=']
    else
      [Digit(data[0] / 4), Digit(data[0] % 4 * 16 + data[1] / 16), Digit(data[1] % 16 * 4 + data[2] / 64), Digit(data[2] % 64)]
      + EncodeToString(data[3..])
  }

  /** The decoder skips carriage returns and newlines wherever they stand. */
  function Strip(s: string): string {
    if s == [] then []
    else if s[0] == '\r' || s[0] == '\n' then Strip(s[1..])
    else [s[0]] + Strip(s[1..])
  }

  function Quads(s: string): Option<seq<Byte>> {
    if s == [] then Some([])
    else if |s| < 4 then None
    else
      match (Value(s[0]), Value(s[1]))
      case (Some(a), Some(b)) =>
        if s[2..] == "==" then Some([a * 4 + b / 16])
        else
          (match Value(s[2])
           case None => None
           case Some(c) =>
             if s[3..] == "=" then Some([a * 4 + b / 16, b % 16 * 16 + c / 4])
             else
               match (Value(s[3]), Quads(s[4..]))
               case (Some(d), Some(rest)) => Some([a * 4 + b / 16, b % 16 * 16 + c / 4, c % 4 * 64 + d] + rest)
               case _ => None)
      case _ => None
  }

  function DecodeString(s: string): Option<seq<Byte>> {
    Quads(Strip(s))
  }

  lemma {:induction false} EncodedPlain(data: seq<Byte>)
    ensures forall k :: 0 <= k < |EncodeToString(data)| ==> Plain(EncodeToString(data)[k])
    ensures data != [] ==> EncodeToString(data) != []
  {
    hide Digit;
    if |data| > 2 {
      EncodedPlain(data[3..]);
    }
  }

  /** Four characters for every three bytes, the last group filled up. */
  lemma {:induction false} EncodedLength(data: seq<Byte>)
    ensures |EncodeToString(data)| == (|data| + 2) / 3 * 4
  {
    hide Digit;
    if |data| > 2 {
      EncodedLength(data[3..]);
    }
  }

  lemma {:induction false} StripPlain(s: string)
    requires forall k :: 0 <= k < |s| ==> Plain(s[k])
    ensures Strip(s) == s
  {
    if s != [] {
      StripPlain(s[1..]);
    }
  }

  /** A character that is not skipped is still there. */
  lemma {:induction false} StripKeeps(s: string, k: nat) returns (i: nat)
    requires k < |s| && s[k] != '\r' && s[k] != '\n'
    ensures i < |Strip(s)| && Strip(s)[i] == s[k]
  {
    if k == 0 {
      i := 0;
    } else {
      i := StripKeeps(s[1..], k - 1);
      if s[0] != '\r' && s[0] != '\n' {
        i := i + 1;
      }
    }
  }

  /** Only the alphabet and the padding decode. */
  lemma {:induction false} QuadsAlphabet(s: string)
    ensures Quads(s).Some? ==> forall k :: 0 <= k < |s| ==> s[k] == '=' || Value(s[k]).Some?
  {
    hide Value;
    if Quads(s).Some? && s != [] {
      if s[2..] == "==" {
        assert s[2..][0] == s[2] && s[2..][1] == s[3];
      } else if s[3..] == "=" {
        assert s[3..][0] == s[3];
      } else {
        QuadsAlphabet(s[4..]);
        assert forall k :: 4 <= k < |s| ==> s[4..][k - 4] == s[k];
      }
    }
  }

  lemma {:induction false} QuadsOfEncoded(data: seq<Byte>)
    ensures Quads(EncodeToString(data)) == Some(data)
  {
    hide Digit, Value;
    var s := EncodeToString(data);
    if |data| > 2 {
      QuadsOfEncoded(data[3..]);
      assert s[4..] == EncodeToString(data[3..]);
      assert s[2..][0] == s[2] && s[3..][0] == s[3];
      ThreeBytes(data[0], data[1], data[2]);
      assert data == [data[0], data[1], data[2]] + data[3..];
      ValueOfDigit(data[0] / 4);
      ValueOfDigit(data[0] % 4 * 16 + data[1] / 16);
      ValueOfDigit(data[1] % 16 * 4 + data[2] / 64);
      ValueOfDigit(data[2] % 64);
    } else if |data| == 2 {
      QuadsOfTwo(data);
    } else if |data| == 1 {
      assert s[2..] == "==";
      ThreeBytes(data[0], 0, 0);
      ValueOfDigit(data[0] / 4);
      ValueOfDigit(data[0] % 4 * 16);
      assert Quads(s).value == data;
    }
  }

  lemma QuadsOfTwo(data: seq<Byte>)
    requires |data| == 2
    ensures Quads(EncodeToString(data)) == Some(data)
  {
    hide Digit, Value, Quads;
    var a, b, c := data[0] / 4, data[0] % 4 * 16 + data[1] / 16, data[1] % 16 * 4;
    ValueOfDigit(a);
    ValueOfDigit(b);
    ValueOfDigit(c);
    OnePadded([Digit(a), Digit(b), Digit(c), '='], a, b, c);
    ThreeBytes(data[0], data[1], 0);
    assert data == [data[0], data[1]];
  }

  lemma OnePadded(s: string, a: nat, b: nat, c: nat)
    requires |s| == 4 && a < 64 && b < 64 && c < 64 && s[2] != '=' && s[3] == '='
    requires Value(s[0]) == Some(a) && Value(s[1]) == Some(b) && Value(s[2]) == Some(c)
    ensures Quads(s) == Some([a * 4 + b / 16, b % 16 * 16 + c / 4])
  {
    hide Value;
    assert s[2..][0] == s[2];
    assert s[3..] == "=";
  }

  lemma ThreeBytes(x: Byte, y: Byte, z: Byte)
    ensures x / 4 * 4 + (x % 4 * 16 + y / 16) / 16 == x
    ensures (x % 4 * 16 + y / 16) % 16 * 16 + (y % 16 * 4 + z / 64) / 4 == y
    ensures (y % 16 * 4 + z / 64) % 4 * 64 + z % 64 == z
  {}

  /** Decoding undoes encoding, for every byte string. */
  lemma RoundTrip(data: seq<Byte>)
    ensures DecodeString(EncodeToString(data)) == Some(data)
  {
    EncodedPlain(data);
    StripPlain(EncodeToString(data));
    QuadsOfEncoded(data);
  }

  lemma DigitOfValue(c: char)
    requires Value(c).Some?
    ensures Digit(Value(c).value) == c
  {}

  lemma FourDigits(a: nat, b: nat, c: nat, d: nat)
    requires a < 64 && b < 64 && c < 64 && d < 64
    ensures var x, y, z := a * 4 + b / 16, b % 16 * 16 + c / 4, c % 4 * 64 + d;
            && x < 256 && y < 256 && z < 256
            && x / 4 == a && x % 4 * 16 + y / 16 == b && y % 16 * 4 + z / 64 == c && z % 64 == d
  {}

  /** The texts `s` and `t` differ at most in the last digit before the padding, whose lowest
      bits carry nothing. */
  predicate SameBits(s: string, t: string) {
    |s| == |t| && forall k :: 0 <= k < |s| ==> s[k] == t[k] || BeforePadding(s, k)
  }

  predicate BeforePadding(s: string, k: nat) {
    k + 1 < |s| && s[k + 1] == '='
  }

  lemma GroupThenRest(s: string, t: string, rest: string)
    requires |s| >= 4 && t == s[..4] + rest && SameBits(s[4..], rest)
    ensures SameBits(s, t)
  {
    forall k | 0 <= k < |s|
      ensures s[k] == t[k] || BeforePadding(s, k)
    {
      if k < 4 {
        assert s[..4][k] == s[k];
      } else {
        assert s[4..][k - 4] == s[k];
        assert s[4..][k - 4] == rest[k - 4] || BeforePadding(s[4..], k - 4);
        assert k + 1 < |s| ==> s[4..][k - 3] == s[k + 1];
      }
    }
  }

  lemma FullGroup(s: string, a: nat, b: nat, c: nat, d: nat, rest: seq<Byte>)
    requires |s| >= 4 && a < 64 && b < 64 && c < 64 && d < 64
    requires Digit(a) == s[0] && Digit(b) == s[1] && Digit(c) == s[2] && Digit(d) == s[3]
    requires SameBits(s[4..], EncodeToString(rest))
    ensures SameBits(s, EncodeToString([a * 4 + b / 16, b % 16 * 16 + c / 4, c % 4 * 64 + d] + rest))
  {
    hide Digit, SameBits;
    FourDigits(a, b, c, d);
    var data := [a * 4 + b / 16, b % 16 * 16 + c / 4, c % 4 * 64 + d] + rest;
    assert data[3..] == rest;
    assert EncodeToString(data) == [Digit(a), Digit(b), Digit(c), Digit(d)] + EncodeToString(rest);
    assert [Digit(a), Digit(b), Digit(c), Digit(d)] == s[..4];
    GroupThenRest(s, EncodeToString(data), EncodeToString(rest));
  }

  /** What decodes is an encoding: of just the bytes it decodes to, but for those bits. */
  lemma {:induction false} DecodedIsEncoding(s: string)
    ensures Quads(s).Some? ==> SameBits(s, EncodeToString(Quads(s).value)) && |s| % 4 == 0
  {
    hide Digit, Value, SameBits, EncodeToString;
    if s == [] {
      NoBits();
    } else if Quads(s).Some? {
      var a, b := Value(s[0]).value, Value(s[1]).value;
      DigitOfValue(s[0]);
      DigitOfValue(s[1]);
      if s[2..] == "==" {
        LastGroup(s, a, b, 0);
      } else {
        var c := Value(s[2]).value;
        DigitOfValue(s[2]);
        if s[3..] == "=" {
          LastGroup(s, a, b, c);
        } else {
          DigitOfValue(s[3]);
          DecodedIsEncoding(s[4..]);
          FullGroup(s, a, b, c, Value(s[3]).value, Quads(s[4..]).value);
        }
      }
    }
  }

  lemma NoBits()
    ensures EncodeToString([]) == "" && SameBits("", "")
  {}

  /** The padded group at the end. */
  lemma LastGroup(s: string, a: nat, b: nat, c: nat)
    requires |s| == 4 && a < 64 && b < 64 && c < 64
    requires Value(s[0]) == Some(a) && Value(s[1]) == Some(b) && Digit(a) == s[0] && Digit(b) == s[1]
    requires s[2..] == "==" || (Value(s[2]) == Some(c) && Digit(c) == s[2] && s[3..] == "=")
    ensures s[2..] == "==" ==> SameBits(s, EncodeToString([a * 4 + b / 16]))
    ensures s[2..] != "==" ==> SameBits(s, EncodeToString([a * 4 + b / 16, b % 16 * 16 + c / 4]))
  {
    hide Digit, Value;
    FourDigits(a, b, c, 0);
    assert s[2..][0] == s[2];
    if s[2..] == "==" {
      assert s[2..][1] == s[3];
    } else {
      assert s[3..][0] == s[3];
    }
  }

  /** Examples of section 10 of RFC 4648, and the last two digits of its alphabet. */
  lemma Examples()
    ensures EncodeToString([0x66]) == "Zg=="
    ensures EncodeToString([0x66, 0x6F]) == "Zm8="
    ensures EncodeToString([0x66, 0x6F, 0x6F]) == "Zm9v"
    ensures Digit(62) == '+' && Digit(63) == '/'
  {
    var foo: seq<Byte> := [0x66, 0x6F, 0x6F];
    assert foo[3..] == [];
  }
}
