/** Hexadecimal text, as keys and sessions are written in backups. */
module Hex {
  import opened Sequences

  type Byte = b: int | 0 <= b < 256
  type Bytes = seq<Byte>

  function Digit(n: nat): char
    requires n < 16
  {
    "0123456789abcdef"[n]
  }

  /** Both cases are read. */
  function Value(c: char): (r: Option<nat>)
    ensures r.Some? ==> r.value < 16
  {
    if '0' <= c <= '9' then Some(c as int - '0' as int)
    else if 'a' <= c <= 'f' then Some(c as int - 'a' as int + 10)
    else if 'A' <= c <= 'F' then Some(c as int - 'A' as int + 10)
    else None
  }

  function Encode(b: Bytes): string {
    if b == [] then "" else [Digit(b[0] / 16), Digit(b[0] % 16)] + Encode(b[1..])
  }

  function Pair(hi: char, lo: char): Option<Byte> {
    if Value(hi).Some? && Value(lo).Some? then Some(16 * Value(hi).value + Value(lo).value) else None
  }

  function Decode(s: string): Option<Bytes> {
    if s == "" then Some([])
    else if |s| == 1 then None
    else
      var first, rest := Pair(s[0], s[1]), Decode(s[2..]);
      if first.Some? && rest.Some? then Some([first.value] + rest.value) else None
  }

  lemma DigitValue(n: nat)
    requires n < 16
    ensures Value(Digit(n)) == Some(n)
  {
  }

  lemma ByteRoundTrip(b: Byte)
    ensures Pair(Digit(b / 16), Digit(b % 16)) == Some(b)
  {
    hide Value, Digit;
    DigitValue(b / 16);
    DigitValue(b % 16);
  }

  lemma DecodePair(hi: char, lo: char, s: string)
    requires Pair(hi, lo).Some? && Decode(s).Some?
    ensures Decode([hi, lo] + s) == Some([Pair(hi, lo).value] + Decode(s).value)
  {
    hide Pair;
    assert ([hi, lo] + s)[2..] == s;
  }

  /** Decoding undoes encoding. */
  lemma {:induction false} RoundTrip(b: Bytes)
    ensures Decode(Encode(b)) == Some(b)
  {
    if b != [] {
      hide Pair, Digit, Decode;
      RoundTrip(b[1..]);
      ByteRoundTrip(b[0]);
      DecodePair(Digit(b[0] / 16), Digit(b[0] % 16), Encode(b[1..]));
      assert b == [b[0]] + b[1..];
    }
  }

  /** All hexadecimal digits, of either case. */
  ghost predicate AllDigits(s: string) {
    forall c :: c in s ==> c in "0123456789abcdefABCDEF"
  }

  lemma AllDigitsFrom(s: string)
    requires |s| >= 2
    ensures AllDigits(s) <==> Value(s[0]).Some? && Value(s[1]).Some? && AllDigits(s[2..])
  {
    hide Value;
    assert s == [s[0], s[1]] + s[2..];
    DigitsRead(s[0]);
    DigitsRead(s[1]);
  }

  /** Text decodes exactly when it has even length and only hexadecimal digits. */
  lemma {:induction false} DecodesExactlyWhen(s: string)
    ensures Decode(s).Some? <==> |s| % 2 == 0 && AllDigits(s)
  {
    if |s| >= 2 {
      hide AllDigits, Value;
      DecodesExactlyWhen(s[2..]);
      AllDigitsFrom(s);
    }
  }

  lemma DigitsRead(c: char)
    ensures Value(c).Some? <==> c in "0123456789abcdefABCDEF"
  {
    if '0' <= c <= '9' {
      assert "0123456789abcdefABCDEF"[c as int - '0' as int] == c;
    } else if 'a' <= c <= 'f' {
      assert "0123456789abcdefABCDEF"[c as int - 'a' as int + 10] == c;
    } else if 'A' <= c <= 'F' {
      assert "0123456789abcdefABCDEF"[c as int - 'A' as int + 16] == c;
    }
  }

  /** Byte by byte, the high digit first, in lower case. */
  lemma {:induction false} EncodedDigits(b: Bytes, i: nat)
    requires i < |b|
    ensures |Encode(b)| == 2 * |b|
    ensures Encode(b)[2 * i] == "0123456789abcdef"[b[i] / 16]
    ensures Encode(b)[2 * i + 1] == "0123456789abcdef"[b[i] % 16]
  {
    if |b| > 1 {
      EncodedDigits(b[1..], if i == 0 then 0 else i - 1);
    }
  }

  lemma {:induction false} DecodeLength(s: string)
    requires Decode(s).Some?
    ensures |s| == 2 * |Decode(s).value|
  {
    if |s| >= 2 {
      DecodeLength(s[2..]);
    }
  }

  function Zeros(n: nat): (r: Bytes)
    ensures |r| == n
  {
    seq(n, _ => 0)
  }

  /**
   Decoding into a buffer of zeros with the error ignored: a wrong length writes nothing,
   a bad digit stops the writing where it stands.
   */
  function DecodeInto(s: string, n: nat): (r: Bytes)
    ensures |r| == n
  {
    if |s| != 2 * n then Zeros(n) else Overwrite(s)
  }

  function Overwrite(s: string): (r: Bytes)
    requires |s| % 2 == 0
    ensures |r| == |s| / 2
  {
    if s == "" then []
    else if Pair(s[0], s[1]).None? then Zeros(|s| / 2)
    else [Pair(s[0], s[1]).value] + Overwrite(s[2..])
  }

  lemma {:induction false} OverwriteDecodes(s: string)
    requires Decode(s).Some? && |s| % 2 == 0
    ensures Overwrite(s) == Decode(s).value
  {
    if s != "" {
      OverwriteDecodes(s[2..]);
    }
  }

  lemma OverwriteNext(s: string, j: nat)
    requires |s| % 2 == 0 && j < |s| / 2 && Pair(s[0], s[1]).Some?
    ensures |s[2..]| == |s| - 2
    ensures Overwrite(s)[j] == if j == 0 then Pair(s[0], s[1]).value else Overwrite(s[2..])[j - 1]
  {
    hide Pair;
  }

  /** A bad digit leaves the bytes before it written and the rest zero. */
  lemma {:induction false} OverwriteStops(s: string, bad: nat, j: nat)
    requires |s| % 2 == 0 && j < |s| / 2 && bad <= |s| / 2
    requires forall i :: 0 <= i < bad ==> Pair(s[2 * i], s[2 * i + 1]).Some?
    requires bad < |s| / 2 ==> Pair(s[2 * bad], s[2 * bad + 1]).None?
    ensures j < bad ==> Overwrite(s)[j] == Pair(s[2 * j], s[2 * j + 1]).value
    ensures j >= bad ==> Overwrite(s)[j] == 0
  {
    if bad == 0 {
      assert Overwrite(s) == Zeros(|s| / 2);
    } else {
      hide Pair, Overwrite;
      assert Pair(s[2 * 0], s[2 * 0 + 1]).Some?;
      OverwriteNext(s, j);
      if j > 0 {
        forall i | 0 <= i < bad - 1
          ensures Pair(s[2..][2 * i], s[2..][2 * i + 1]).Some?
        {
          assert Pair(s[2 * (i + 1)], s[2 * (i + 1) + 1]).Some?;
        }
        OverwriteStops(s[2..], bad - 1, j - 1);
      }
    }
  }

  lemma DecodeIntoRoundTrip(b: Bytes)
    ensures DecodeInto(Encode(b), |b|) == b
  {
    hide Decode, Encode, Overwrite;
    RoundTrip(b);
    DecodeLength(Encode(b));
    OverwriteDecodes(Encode(b));
  }
}
