// Writing state keys as ConfigMap data keys, which may only use [-._a-zA-Z0-9], and reading them back.
module ConfigMapCodec {

  /** A Go string is a sequence of bytes; each is written as the character of the same number. */
  type Byte = c: char | c as int < 256 witness 'a'
  type ByteString = seq<Byte>

  predicate Plain(c: char) {
    c == '-' || c == '.' || 'a' <= c <= 'z' || 'A' <= c <= 'Z' || '0' <= c <= '9'
  }

  /** The characters Kubernetes allows in a data key. */
  predicate DataKeyChar(c: char) {
    Plain(c) || c == '_'
  }

  function HexDigit(n: nat): (c: Byte)
    requires n < 16
    ensures Plain(c) && HexValue(c) == n
  {
    if n < 10 then '0' + n as char else 'a' + (n - 10) as char
  }

  /** The value of a hexadecimal digit in either case; 16 for any other character. */
  function HexValue(c: char): (n: nat)
    ensures n <= 16
  {
    if '0' <= c <= '9' then (c - '0') as nat
    else if 'a' <= c <= 'f' then (c - 'a') as nat + 10
    else if 'A' <= c <= 'F' then (c - 'A') as nat + 10
    else 16
  }

  function EncodeByte(c: Byte): ByteString {
    if c == '/' then "__"
    else if Plain(c) then [c]
    else ['_', 'x', HexDigit(c as int / 16), HexDigit(c as int % 16)]
  }

  function Encode(k: ByteString): ByteString {
    if k == [] then [] else EncodeByte(k[0]) + Encode(k[1..])
  }

  /** The bytes of `k` that one decoding step reads. */
  function StepLength(k: ByteString): (n: nat)
    requires k != []
    ensures 1 <= n <= |k|
  {
    if k[0] != '_' then 1
    else if 1 < |k| && k[1] == '_' then 2
    else if 3 < |k| && k[1] == 'x' && HexValue(k[2]) < 16 && HexValue(k[3]) < 16 then 4
    else 1
  }

  function StepByte(k: ByteString): Byte
    requires k != []
  {
    var n := StepLength(k);
    if n == 2 then '/'
    else if n == 4 then (16 * HexValue(k[2]) + HexValue(k[3])) as char
    else k[0]
  }

  function Decode(k: ByteString): ByteString {
    if k == [] then [] else [StepByte(k)] + Decode(k[StepLength(k)..])
  }

  lemma EncodeFrom(k: ByteString, i: nat, b: ByteString)
    requires i < |k|
    ensures b + Encode(k[i..]) == (b + EncodeByte(k[i])) + Encode(k[i + 1..])
  {
    assert k[i..][1..] == k[i + 1..];
    assert Encode(k[i..]) == EncodeByte(k[i]) + Encode(k[i + 1..]);
    hide Encode, EncodeByte;
  }

  method EncodeStateKey(k: ByteString) returns (b: ByteString)
    ensures b == Encode(k)
  {
    b := [];
    assert k[0..] == k && Encode(k[|k|..]) == [];
    hide Encode;
    for i := 0 to |k|
      invariant b + Encode(k[i..]) == Encode(k)
    {
      var c := k[i];
      EncodeFrom(k, i, b);
      if c == '/' {
        b := b + "__";
      } else if c == '-' || c == '.' || 'a' <= c <= 'z' || 'A' <= c <= 'Z' || '0' <= c <= '9' {
        b := b + [c];
      } else {
        b := b + ['_', 'x', HexDigit(c as int / 16), HexDigit(c as int % 16)];
      }
    }
  }

  /** The step at position `i`, read off the whole text. */
  lemma StepAt(k: ByteString, i: nat)
    requires i < |k|
    ensures StepLength(k[i..]) ==
            if k[i] != '_' then 1
            else if i + 1 < |k| && k[i + 1] == '_' then 2
            else if i + 3 < |k| && k[i + 1] == 'x' && HexValue(k[i + 2]) < 16 && HexValue(k[i + 3]) < 16 then 4
            else 1
    ensures StepByte(k[i..]) ==
            if StepLength(k[i..]) == 2 then '/'
            else if StepLength(k[i..]) == 4 then (16 * HexValue(k[i + 2]) + HexValue(k[i + 3])) as char
            else k[i]
  {
    hide HexValue;
  }

  ghost function DecodeFrom(k: ByteString, i: nat): ByteString
    requires i <= |k|
  {
    Decode(k[i..])
  }

  /** What one turn of the decoding loop takes off the text at position `i`. */
  lemma DecodeTurn(k: ByteString, i: nat, b: ByteString)
    requires i < |k|
    ensures var escaped := i + 3 < |k| && k[i + 1] == 'x' && HexValue(k[i + 2]) < 16 && HexValue(k[i + 3]) < 16;
            b + DecodeFrom(k, i) ==
            if k[i] != '_' then (b + [k[i]]) + DecodeFrom(k, i + 1)
            else if i + 1 < |k| && k[i + 1] == '_' then (b + ['/']) + DecodeFrom(k, i + 2)
            else if escaped then (b + [(16 * HexValue(k[i + 2]) + HexValue(k[i + 3])) as char]) + DecodeFrom(k, i + 4)
            else (b + [k[i]]) + DecodeFrom(k, i + 1)
  {
    var n, c := StepLength(k[i..]), StepByte(k[i..]);
    assert k[i..][n..] == k[i + n..];
    assert Decode(k[i..]) == [c] + Decode(k[i + n..]);
    hide Decode, StepByte, StepLength, HexValue;
    assert b + DecodeFrom(k, i) == (b + [c]) + DecodeFrom(k, i + n);
    hide DecodeFrom;
    StepAt(k, i);
  }

  method DecodeStateKey(k: ByteString) returns (b: ByteString)
    ensures b == Decode(k)
  {
    b := [];
    var i := 0;
    assert DecodeFrom(k, 0) == Decode(k) && DecodeFrom(k, |k|) == [] by { assert k[0..] == k; }
    hide *;
    while i < |k|
      invariant 0 <= i <= |k|
      invariant b + DecodeFrom(k, i) == Decode(k)
    {
      DecodeTurn(k, i, b);
      if k[i] != '_' {
        b := b + [k[i]];
        i := i + 1;
        continue;
      }
      if i + 1 < |k| && k[i + 1] == '_' {
        b := b + ['/'];
        i := i + 2;
        continue;
      }
      if i + 3 < |k| && k[i + 1] == 'x' {
        var hi, lo := HexValue(k[i + 2]), HexValue(k[i + 3]);
        if hi < 16 && lo < 16 {
          b := b + [(16 * hi + lo) as char];
          i := i + 4;
          continue;
        }
      }
      b := b + [k[i]];
      i := i + 1;
    }
  }

  // ---------- The code is reversible ----------

  lemma StepReadsEncoding(c: Byte, rest: ByteString)
    ensures var k := EncodeByte(c) + rest;
            StepByte(k) == c && k[StepLength(k)..] == rest
  {
    var k := EncodeByte(c) + rest;
    if c != '/' && !Plain(c) {
      assert k[2] == HexDigit(c as int / 16) && k[3] == HexDigit(c as int % 16);
      assert 16 * (c as int / 16) + c as int % 16 == c as int;
    }
  }

  /** Decoding inverts encoding on every byte string. */
  lemma {:induction false} DecodeInvertsEncode(k: ByteString)
    ensures Decode(Encode(k)) == k
  {
    if k != [] {
      StepReadsEncoding(k[0], Encode(k[1..]));
      DecodeInvertsEncode(k[1..]);
    }
  }

  /** So two keys are never stored under the same data key. */
  lemma EncodeIsInjective(a: ByteString, b: ByteString)
    requires Encode(a) == Encode(b)
    ensures a == b
  {
    DecodeInvertsEncode(a);
    DecodeInvertsEncode(b);
  }

  /** The encoding is a legal data key. */
  lemma {:induction false} EncodedIsDataKey(k: ByteString)
    ensures forall c :: c in Encode(k) ==> DataKeyChar(c)
  {
    if k != [] {
      EncodedIsDataKey(k[1..]);
      assert forall c :: c in EncodeByte(k[0]) ==> DataKeyChar(c);
    }
  }

  /** A leading underscore is always followed by another one or by `x`. */
  lemma EncodedUnderscore(k: ByteString)
    ensures var e := Encode(k); e != [] && e[0] == '_' ==> |e| > 1 && (e[1] == '_' || e[1] == 'x')
  {
    if k != [] {
      assert Encode(k)[0] == EncodeByte(k[0])[0];
    }
  }

  // ---------- Keys written by older versions ----------

  /** The previous encoding: only slashes were replaced. */
  function LegacyEncode(k: ByteString): ByteString {
    if k == [] then [] else (if k[0] == '/' then "__" else [k[0]]) + LegacyEncode(k[1..])
  }

  /** Old keys still decode to the text they were written from, as it never held an underscore. */
  lemma {:induction false} LegacyKeysDecode(k: ByteString)
    requires '_' !in k
    ensures Decode(LegacyEncode(k)) == k
  {
    if k != [] {
      LegacyKeysDecode(k[1..]);
      var rest := LegacyEncode(k[1..]);
      var e := LegacyEncode(k);
      if k[0] == '/' {
        assert e[2..] == rest;
      } else {
        assert e[1..] == rest;
      }
    }
  }

  // ---------- The encoding spelled out ----------

  const HEX_LOWER: string := "0123456789abcdef"
  const HEX_UPPER: string := "0123456789ABCDEF"

  /** In either case. */
  predicate HexDigitOf(c: char, n: nat) {
    n < 16 && (c == HEX_LOWER[n] || c == HEX_UPPER[n])
  }

  lemma HexDigitIs(n: nat)
    requires n < 16
    ensures HexDigit(n) == HEX_LOWER[n]
  {
  }

  lemma HexValueIs(c: char, n: nat)
    requires n < 16
    ensures HexValue(c) == n <==> HexDigitOf(c, n)
  {
  }

  /** Texts are encoded character by character. */
  lemma {:induction false} EncodeAppend(a: ByteString, b: ByteString)
    ensures Encode(a + b) == Encode(a) + Encode(b)
  {
    if a == [] {
      assert a + b == b;
    } else {
      EncodeStep(a);
      EncodeStep(a + b);
      TailOfSum(a, b);
      EncodeAppend(a[1..], b);
      hide *;
      SumsRegroup(EncodeByte(a[0]), Encode(a[1..]), Encode(b));
    }
  }

  lemma TailOfSum(a: ByteString, b: ByteString)
    requires a != []
    ensures (a + b)[1..] == a[1..] + b && (a + b)[0] == a[0]
  {
  }

  lemma SumsRegroup(a: ByteString, b: ByteString, c: ByteString)
    ensures a + (b + c) == (a + b) + c
  {
  }

  lemma EncodeStep(k: ByteString)
    requires k != []
    ensures Encode(k) == EncodeByte(k[0]) + Encode(k[1..])
  {
    hide EncodeByte;
  }

  /** What each character becomes: a slash two underscores, a plain one itself, any other its number
      in two lower-case hexadecimal digits. */
  lemma EncodeCharacter(c: Byte)
    ensures Encode([c]) ==
            if c == '/' then "__"
            else if c == '-' || c == '.' || 'a' <= c <= 'z' || 'A' <= c <= 'Z' || '0' <= c <= '9' then [c]
            else ['_', 'x', HEX_LOWER[c as int / 16], HEX_LOWER[c as int % 16]]
  {
    HexDigitIs(c as int / 16);
    HexDigitIs(c as int % 16);
    hide HexDigit;
    assert [c][1..] == [] && Encode([c]) == EncodeByte(c) + Encode([]);
  }

  /** On the keys that older versions could store the encoding has not changed. */
  lemma {:induction false} PlainTextIsEncodedAsBefore(k: ByteString)
    requires forall c :: c in k ==> c == '/' || c == '-' || c == '.' || 'a' <= c <= 'z' || 'A' <= c <= 'Z' || '0' <= c <= '9'
    ensures Encode(k) == LegacyEncode(k)
  {
    if k != [] {
      assert k[0] in k && forall c :: c in k[1..] ==> c in k;
      PlainTextIsEncodedAsBefore(k[1..]);
      assert EncodeByte(k[0]) == if k[0] == '/' then "__" else [k[0]];
    }
  }

  /** Decoding takes a text from its beginning: anything but an underscore stands for itself, and two
      underscores for a slash. */
  lemma DecodePlain(c: Byte, rest: ByteString)
    ensures Decode([]) == []
    ensures c != '_' ==> Decode([c] + rest) == [c] + Decode(rest)
    ensures Decode(['_', '_'] + rest) == ['/'] + Decode(rest)
  {
    assert ([c] + rest)[1..] == rest && (['_', '_'] + rest)[2..] == rest;
    hide HexValue;
  }

  /** An underscore, x and two hexadecimal digits stand for the character of that number. */
  lemma DecodeEscape(h: Byte, l: Byte, m: nat, n: nat, rest: ByteString)
    requires HexDigitOf(h, m) && HexDigitOf(l, n)
    ensures Decode(['_', 'x', h, l] + rest) == [(16 * m + n) as char] + Decode(rest)
  {
    var e := ['_', 'x', h, l] + rest;
    assert e[4..] == rest && e[0] == '_' && e[1] == 'x' && e[2] == h && e[3] == l;
    HexValueIs(h, m);
    HexValueIs(l, n);
    hide HexValue, HexDigitOf;
  }

  /** Any other underscore stands for itself. */
  lemma DecodeOtherUnderscore(rest: ByteString)
    requires rest == [] || rest[0] != '_'
    requires |rest| < 3 || rest[0] != 'x' || (forall a :: !HexDigitOf(rest[1], a)) || (forall b :: !HexDigitOf(rest[2], b))
    ensures Decode(['_'] + rest) == ['_'] + Decode(rest)
  {
    hide *;
    OtherUnderscoreStep(rest);
    DecodeStep(['_'] + rest);
    assert (['_'] + rest)[1..] == rest;
  }

  lemma DecodeStep(k: ByteString)
    requires k != []
    ensures Decode(k) == [StepByte(k)] + Decode(k[StepLength(k)..])
  {
    hide StepByte, StepLength;
  }

  lemma OtherUnderscoreStep(rest: ByteString)
    requires rest == [] || rest[0] != '_'
    requires |rest| < 3 || rest[0] != 'x' || (forall a :: !HexDigitOf(rest[1], a)) || (forall b :: !HexDigitOf(rest[2], b))
    ensures StepLength(['_'] + rest) == 1 && StepByte(['_'] + rest) == '_'
  {
    var e := ['_'] + rest;
    assert forall p :: 0 <= p < |rest| ==> e[p + 1] == rest[p];
    if |rest| >= 3 {
      IsHexIff(rest[1]);
      IsHexIff(rest[2]);
      assert e[1] == rest[0] && e[2] == rest[1] && e[3] == rest[2];
    } else if |rest| > 0 {
      assert e[1] == rest[0];
    }
    hide HexValue, HexDigitOf;
  }

  lemma IsHexIff(c: char)
    ensures HexValue(c) < 16 <==> exists n :: HexDigitOf(c, n)
  {
    if HexValue(c) < 16 {
      HexValueIs(c, HexValue(c));
    }
    if n :| HexDigitOf(c, n) {
      HexValueIs(c, n);
    }
  }
}
