/** Base64 as used for inline data: RFC 4648 section 4, and the validator of the message package. */
module Base64 {
  import opened Messages

  type Byte = x: int | 0 <= x < 256
  type Sextet = x: int | 0 <= x < 64

  predicate InAlphabet(c: char) {
    'A' <= c <= 'Z' || 'a' <= c <= 'z' || '0' <= c <= '9' || c == '+' || c == '/'
  }

  function CharOf(v: Sextet): (c: char)
    ensures InAlphabet(c)
  {
    if v < 26 then ('A' as int + v) as char
    else if v < 52 then ('a' as int + (v - 26)) as char
    else if v < 62 then ('0' as int + (v - 52)) as char
    else if v == 62 then '+' else '/'
  }

  function ValueOf(c: char): (v: Sextet)
    requires InAlphabet(c)
    ensures CharOf(v) == c
  {
    if 'A' <= c <= 'Z' then c as int - 'A' as int
    else if 'a' <= c <= 'z' then c as int - 'a' as int + 26
    else if '0' <= c <= '9' then c as int - '0' as int + 52
    else if c == '+' then 62 else 63
  }

  lemma ValueOfChar(v: Sextet)
    ensures ValueOf(CharOf(v)) == v
  {
  }

  // ---------------------------------------------------------------- encoding

  /** The alphabet of RFC 4648, section 4: capital letters, small letters, digits, plus and slash,
      each in order. */
  lemma AlphabetOrder(v: Sextet)
    ensures v < 25 || 26 <= v < 51 || 52 <= v < 61 ==> CharOf(v + 1) as int == CharOf(v) as int + 1
    ensures CharOf(0) == 'A' && CharOf(26) == 'a' && CharOf(52) == '0' && CharOf(62) == '+' && CharOf(63) == '/'
  {
  }

  function EncodeThree(a: Byte, b: Byte, c: Byte): string {
    [CharOf(a / 4), CharOf(a % 4 * 16 + b / 16), CharOf(b % 16 * 4 + c / 64), CharOf(c % 64)]
  }

  function EncodeTwo(a: Byte, b: Byte): string {
    [CharOf(a / 4), CharOf(a % 4 * 16 + b / 16), CharOf(b % 16 * 4), '=']
  }

  function EncodeOne(a: Byte): string {
    [CharOf(a / 4), CharOf(a % 4 * 16), '=', '=']
  }

  /** Four characters hold the 24 bits of three bytes, the first byte on top. */
  lemma QuantumBits(a: Byte, b: Byte, c: Byte)
    ensures var e := EncodeThree(a, b, c);
      && InAlphabet(e[0]) && InAlphabet(e[1]) && InAlphabet(e[2]) && InAlphabet(e[3])
      && ((ValueOf(e[0]) * 64 + ValueOf(e[1])) * 64 + ValueOf(e[2])) * 64 + ValueOf(e[3]) == (a * 256 + b) * 256 + c
  {
    var w: Sextet, x: Sextet, y: Sextet, z: Sextet := a / 4, a % 4 * 16 + b / 16, b % 16 * 4 + c / 64, c % 64;
    ValueOfChar(w);
    ValueOfChar(x);
    ValueOfChar(y);
    ValueOfChar(z);
    hide ValueOf, CharOf, InAlphabet;
    assert a == a / 4 * 4 + a % 4 && b == b / 16 * 16 + b % 16 && c == c / 64 * 64 + c % 64;
  }

  /** Missing bytes count as zero bits, and the characters that hold nothing else are padding. */
  lemma PaddedQuanta(a: Byte, b: Byte)
    ensures EncodeTwo(a, b) == EncodeThree(a, b, 0)[..3] + "="
    ensures EncodeOne(a) == EncodeThree(a, 0, 0)[..2] + "=="
  {
  }

  function Encode(data: seq<Byte>): string {
    if |data| == 0 then ""
    else if |data| == 1 then EncodeOne(data[0])
    else if |data| == 2 then EncodeTwo(data[0], data[1])
    else EncodeThree(data[0], data[1], data[2]) + Encode(data[3..])
  }

  // ---------------------------------------------------------------- decoding

  /** The bytes of one quantum that is not the last one with padding. */
  function DecodeFour(a: Sextet, b: Sextet, c: Sextet, d: Sextet): seq<Byte> {
    [a * 4 + b / 16, b % 16 * 16 + c / 4, c % 4 * 64 + d]
  }

  function DecodeQuanta(s: string): Option<seq<Byte>>
    decreases |s|
  {
    if s == "" then Some([])
    else if |s| < 4 || !InAlphabet(s[0]) || !InAlphabet(s[1]) then None
    else if InAlphabet(s[2]) && InAlphabet(s[3]) then
      match DecodeQuanta(s[4..])
      case None => None
      case Some(rest) => Some(DecodeFour(ValueOf(s[0]), ValueOf(s[1]), ValueOf(s[2]), ValueOf(s[3])) + rest)
    else if |s| == 4 && InAlphabet(s[2]) && s[3] == '=' then
      Some(DecodeFour(ValueOf(s[0]), ValueOf(s[1]), ValueOf(s[2]), 0)[..2])
    else if |s| == 4 && s[2] == '=' && s[3] == '=' then
      Some(DecodeFour(ValueOf(s[0]), ValueOf(s[1]), 0, 0)[..1])
    else None
  }

  predicate IsNewline(c: char) {
    c == '\r' || c == '\n'
  }

  function WithoutNewlines(s: string): string {
    if s == "" then "" else (if IsNewline(s[0]) then "" else [s[0]]) + WithoutNewlines(s[1..])
  }

  /** The decoder passes over line ends, wherever they stand. */
  function Decode(s: string): Option<seq<Byte>> {
    DecodeQuanta(WithoutNewlines(s))
  }

  // ---------------------------------------------------------------- validation

  predicate AllInAlphabet(s: string) {
    forall i :: 0 <= i < |s| ==> InAlphabet(s[i])
  }

  predicate PaddedBy(s: string, pad: nat) {
    && pad <= 2 && pad <= |s|
    && AllInAlphabet(s[..|s| - pad])
    && (forall i :: |s| - pad <= i < |s| ==> s[i] == '=')
  }

  /** Whole quanta of the alphabet, up to two padding characters at the end. */
  ghost predicate IsBase64(s: string) {
    |s| % 4 == 0 && exists pad: nat :: PaddedBy(s, pad)
  }

  predicate IsWhitespace(c: char) {
    c == ' ' || c == '\t' || c == '\r' || c == '\n'
  }

  /** The validator: length, whitespace, then every character before the padding. */
  method IsValidBase64Data(value: string) returns (ok: bool)
    ensures ok <==> IsBase64(value)
  {
    if value == "" {
      assert PaddedBy(value, 0);
      return true;
    }
    if |value| % 4 != 0 { return false; }
    if exists i :: 0 <= i < |value| && IsWhitespace(value[i]) { return false; }
    var index := |value| - 1;
    if value[index] == '=' { index := index - 1; }
    if index >= 0 && value[index] == '=' { index := index - 1; }
    PaddingLength(value, |value| - 1 - index);
    for i := 0 to index + 1
      invariant AllInAlphabet(value[..i])
    {
      assert value[..i + 1] == value[..i] + [value[i]];
      if !InAlphabet(value[i]) {
        NotPadded(value, i, |value| - 1 - index);
        return false;
      }
    }
    assert PaddedBy(value, |value| - 1 - index);
    return true;
  }

  lemma PaddedPrefix(s: string, pad: nat, i: nat)
    requires PaddedBy(s, pad) && i < |s| - pad
    ensures InAlphabet(s[i])
  {
    assert s[..|s| - pad][i] == s[i];
  }

  lemma PaddingLength(s: string, pad: nat)
    requires pad <= 2 && pad <= |s| && forall i :: |s| - pad <= i < |s| ==> s[i] == '='
    requires pad == 2 || pad == |s| || s[|s| - 1 - pad] != '='
    ensures forall p: nat :: PaddedBy(s, p) ==> p == pad
  {
    forall p: nat | PaddedBy(s, p) ensures p == pad {
      if p < pad { PaddedPrefix(s, p, |s| - pad); }
    }
  }

  lemma NotPadded(s: string, i: nat, pad: nat)
    requires i < |s| - pad && !InAlphabet(s[i])
    requires forall p: nat :: PaddedBy(s, p) ==> p == pad
    ensures !IsBase64(s)
  {
    assert s[..|s| - pad][i] == s[i];
  }

  // ---------------------------------------------------------------- properties

  /** Decoding undoes encoding. */
  lemma {:induction false} QuantaUndoEncode(data: seq<Byte>)
    ensures DecodeQuanta(Encode(data)) == Some(data)
    decreases |data|
  {
    hide CharOf, ValueOf, DecodeFour;
    if |data| >= 3 {
      var e := Encode(data);
      QuantaUndoEncode(data[3..]);
      assert e[4..] == Encode(data[3..]);
      AlphabetOnly(EncodeThree(data[0], data[1], data[2]), data);
      ThreeBack(data[0], data[1], data[2]);
      assert data == [data[0], data[1], data[2]] + data[3..];
    } else if |data| == 2 {
      TwoBack(data[0], data[1]);
      assert data == [data[0], data[1]];
    } else if |data| == 1 {
      OneBack(data[0]);
      assert data == [data[0]];
    }
  }

  lemma AlphabetOnly(e: string, data: seq<Byte>)
    requires |data| >= 3 && e == EncodeThree(data[0], data[1], data[2])
    ensures !InAlphabet('=') && forall i :: 0 <= i < 4 ==> InAlphabet(e[i])
  {
    hide CharOf;
  }

  lemma Nibbles(a: Byte, b: Byte)
    ensures (a % 4 * 16 + b / 16) / 16 == a % 4 && (a % 4 * 16 + b / 16) % 16 == b / 16
    ensures a / 4 * 4 + a % 4 == a
  {
  }

  lemma Crumbs(b: Byte, c: Byte)
    ensures (b % 16 * 4 + c / 64) / 4 == b % 16 && (b % 16 * 4 + c / 64) % 4 == c / 64
    ensures b / 16 * 16 + b % 16 == b && c / 64 * 64 + c % 64 == c
  {
  }

  lemma PackThree(a: Byte, b: Byte, c: Byte)
    ensures DecodeFour(a / 4, a % 4 * 16 + b / 16, b % 16 * 4 + c / 64, c % 64) == [a, b, c]
  {
    Nibbles(a, b);
    Crumbs(b, c);
  }

  lemma ThreeBack(a: Byte, b: Byte, c: Byte)
    ensures var e := EncodeThree(a, b, c);
      DecodeFour(ValueOf(e[0]), ValueOf(e[1]), ValueOf(e[2]), ValueOf(e[3])) == [a, b, c]
  {
    hide CharOf, ValueOf, DecodeFour;
    ValueOfChar(a / 4);
    ValueOfChar(a % 4 * 16 + b / 16);
    ValueOfChar(b % 16 * 4 + c / 64);
    ValueOfChar(c % 64);
    PackThree(a, b, c);
  }

  lemma TwoBack(a: Byte, b: Byte)
    ensures var e := EncodeTwo(a, b);
      DecodeFour(ValueOf(e[0]), ValueOf(e[1]), ValueOf(e[2]), 0)[..2] == [a, b]
  {
    hide CharOf, ValueOf, DecodeFour;
    ValueOfChar(a / 4);
    ValueOfChar(a % 4 * 16 + b / 16);
    ValueOfChar(b % 16 * 4);
    PackThree(a, b, 0);
  }

  lemma OneBack(a: Byte)
    ensures var e := EncodeOne(a); DecodeFour(ValueOf(e[0]), ValueOf(e[1]), 0, 0)[..1] == [a]
  {
    hide CharOf, ValueOf, DecodeFour;
    ValueOfChar(a / 4);
    ValueOfChar(a % 4 * 16);
    PackThree(a, 0, 0);
  }

  /** What decodes is what the validator accepts. */
  lemma {:induction false} QuantaValid(s: string)
    ensures DecodeQuanta(s).Some? <==> IsBase64(s)
    decreases |s|
  {
    if s == "" {
      assert PaddedBy(s, 0);
    } else if |s| >= 4 && AllInAlphabet(s[..4]) {
      FirstFour(s);
      QuantaValid(s[4..]);
      forall pad: nat ensures PaddedBy(s, pad) <==> PaddedBy(s[4..], pad) { TailPadded(s, pad); }
    } else {
      LastQuantum(s);
    }
  }

  lemma FirstFour(s: string)
    requires |s| >= 4
    ensures AllInAlphabet(s[..4]) <==> InAlphabet(s[0]) && InAlphabet(s[1]) && InAlphabet(s[2]) && InAlphabet(s[3])
  {
    assert s[..4] == [s[0], s[1], s[2], s[3]];
  }

  lemma TailPadded(s: string, pad: nat)
    requires |s| >= 4 && AllInAlphabet(s[..4])
    ensures PaddedBy(s, pad) <==> PaddedBy(s[4..], pad)
  {
    if pad <= |s| - 4 {
      assert s[..|s| - pad] == s[..4] + s[4..][..|s| - 4 - pad];
      assert forall i :: |s| - pad <= i < |s| ==> s[i] == s[4..][i - 4];
      assert forall i :: |s| - 4 - pad <= i < |s| - 4 ==> s[4..][i] == s[i + 4];
    } else if pad <= |s| {
      assert InAlphabet(s[..4][3]);
    }
  }

  lemma LastQuantum(s: string)
    requires s != "" && !(|s| >= 4 && AllInAlphabet(s[..4]))
    ensures DecodeQuanta(s).Some? <==> IsBase64(s)
  {
    if |s| == 4 {
      FirstFour(s);
      assert s[..4] == s && s[..3] == [s[0], s[1], s[2]] && s[..2] == [s[0], s[1]];
      assert PaddedBy(s, 1) <==> InAlphabet(s[0]) && InAlphabet(s[1]) && InAlphabet(s[2]) && s[3] == '=';
      assert PaddedBy(s, 2) <==> InAlphabet(s[0]) && InAlphabet(s[1]) && s[2] == '=' && s[3] == '=';
      assert !PaddedBy(s, 0);
    } else if |s| > 4 {
      FirstFour(s);
      forall pad: nat | |s| % 4 == 0 ensures !PaddedBy(s, pad) {
        assert pad <= 2 ==> s[..|s| - pad][..4] == s[..4];
        assert forall i :: 0 <= i < 4 && pad <= 2 ==> s[..|s| - pad][i] == s[..4][i];
      }
    }
  }

  /** Characters left when trailing padding is trimmed off. */
  function TrimmedLength(s: string): nat {
    if s == "" then 0 else if s[|s| - 1] == '=' then TrimmedLength(s[..|s| - 1]) else |s|
  }

  lemma {:induction false} TrimmedTail(s: string)
    requires |s| >= 4 && s[3] != '='
    ensures TrimmedLength(s) == 4 + TrimmedLength(s[4..])
  {
    if |s| > 4 && s[|s| - 1] == '=' {
      TrimmedTail(s[..|s| - 1]);
      assert s[..|s| - 1][4..] == s[4..][..|s| - 5];
    }
  }

  /** The byte count taken from the length alone is the decoded length. */
  lemma {:induction false} DecodedLength(s: string)
    requires DecodeQuanta(s).Some?
    ensures |DecodeQuanta(s).value| == TrimmedLength(s) * 6 / 8
    decreases |s|
  {
    if s != "" {
      if InAlphabet(s[2]) && InAlphabet(s[3]) {
        DecodedLength(s[4..]);
        TrimmedTail(s);
      } else {
        PaddedLength(s);
      }
    }
  }

  lemma PaddedLength(s: string)
    requires |s| == 4 && s[3] == '=' && s[1] != '='
    ensures TrimmedLength(s) == if s[2] == '=' then 2 else 3
  {
    assert TrimmedLength(s) == TrimmedLength(s[..3]);
    if s[2] == '=' { assert s[..3][..2] == s[..2]; }
  }

  lemma {:induction false} NoNewlinesKept(s: string)
    requires forall i :: 0 <= i < |s| ==> !IsNewline(s[i])
    ensures WithoutNewlines(s) == s
  {
    if s != "" { NoNewlinesKept(s[1..]); }
  }

  lemma Base64HasNoNewline(s: string)
    requires IsBase64(s)
    ensures forall i :: 0 <= i < |s| ==> !IsNewline(s[i])
  {
    var pad: nat :| PaddedBy(s, pad);
    forall i | 0 <= i < |s| ensures !IsNewline(s[i]) {
      if i < |s| - pad { assert InAlphabet(s[..|s| - pad][i]); }
    }
  }

  /** The validator accepts exactly what the decoder decodes and that has no line end in it. */
  lemma ValidIffDecodes(s: string)
    ensures IsBase64(s) <==> Decode(s).Some? && forall i :: 0 <= i < |s| ==> !IsNewline(s[i])
  {
    QuantaValid(s);
    if IsBase64(s) { Base64HasNoNewline(s); }
    if forall i :: 0 <= i < |s| ==> !IsNewline(s[i]) { NoNewlinesKept(s); }
  }

  /** Every encoding is valid, decodes to what was encoded, and has the byte count of it. */
  lemma EncodeRoundTrip(data: seq<Byte>)
    ensures IsBase64(Encode(data)) && Decode(Encode(data)) == Some(data)
    ensures TrimmedLength(Encode(data)) * 6 / 8 == |data|
  {
    QuantaUndoEncode(data);
    QuantaValid(Encode(data));
    Base64HasNoNewline(Encode(data));
    NoNewlinesKept(Encode(data));
    DecodedLength(Encode(data));
  }

  /** For valid data the byte count is the decoded length. */
  lemma ByteCountExact(s: string)
    requires IsBase64(s)
    ensures Decode(s).Some? && |Decode(s).value| == TrimmedLength(s) * 6 / 8
  {
    QuantaValid(s);
    Base64HasNoNewline(s);
    NoNewlinesKept(s);
    DecodedLength(s);
  }
}
