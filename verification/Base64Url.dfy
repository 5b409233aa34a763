/**
 * The base64url codec of section 5 of RFC 4648, built as the program builds it: on the
 * `btoa` and `atob` of the browser, which use the alphabet of section 4 and padding.
 */
module Base64Url {
  import opened Common

  type Byte = x: int | 0 <= x < 256
  type Sextet = x: int | 0 <= x < 64

  // ---------- Bits: three bytes are four sextets ----------

  function Sextet0(a: int): int { a / 4 }
  function Sextet1(a: int, b: int): int { a % 4 * 16 + b / 16 }
  function Sextet2(b: int, c: int): int { b % 16 * 4 + c / 64 }
  function Sextet3(c: int): int { c % 64 }

  function Byte0(w: int, x: int): int { w * 4 + x / 16 }
  function Byte1(x: int, y: int): int { x % 16 * 16 + y / 4 }
  function Byte2(y: int, z: int): int { y % 4 * 64 + z }

  function Sextets(bytes: seq<Byte>): seq<Sextet> {
    if bytes == [] then []
    else if |bytes| == 1 then [Sextet0(bytes[0]), Sextet1(bytes[0], 0)]
    else if |bytes| == 2 then [Sextet0(bytes[0]), Sextet1(bytes[0], bytes[1]), Sextet2(bytes[1], 0)]
    else
      [Sextet0(bytes[0]), Sextet1(bytes[0], bytes[1]), Sextet2(bytes[1], bytes[2]), Sextet3(bytes[2])]
      + Sextets(bytes[3..])
  }

  /** The whole bytes in the sextets; trailing bits are discarded. */
  function Bytes(sextets: seq<Sextet>): seq<Byte> {
    if |sextets| < 2 then []
    else if |sextets| == 2 then [Byte0(sextets[0], sextets[1])]
    else if |sextets| == 3 then [Byte0(sextets[0], sextets[1]), Byte1(sextets[1], sextets[2])]
    else
      [Byte0(sextets[0], sextets[1]), Byte1(sextets[1], sextets[2]), Byte2(sextets[2], sextets[3])]
      + Bytes(sextets[4..])
  }

  /** A whole number of bytes, and nothing in the bits beyond them. */
  predicate NoStrayBits(sextets: seq<Sextet>)
    decreases |sextets|
  {
    if |sextets| >= 4 then NoStrayBits(sextets[4..])
    else
      || |sextets| == 0
      || (|sextets| == 2 && sextets[1] % 16 == 0)
      || (|sextets| == 3 && sextets[2] % 4 == 0)
  }

  lemma GroupThere(a: Byte, b: Byte, c: Byte)
    ensures var w, x, y, z := Sextet0(a), Sextet1(a, b), Sextet2(b, c), Sextet3(c);
            && 0 <= w < 64 && 0 <= x < 64 && 0 <= y < 64 && 0 <= z < 64
            && Byte0(w, x) == a && Byte1(x, y) == b && Byte2(y, z) == c
  {
  }

  lemma BytesOfGroup(w: Sextet, x: Sextet, y: Sextet, z: Sextet, rest: seq<Sextet>)
    ensures Bytes([w, x, y, z] + rest) == [Byte0(w, x), Byte1(x, y), Byte2(y, z)] + Bytes(rest)
    ensures NoStrayBits([w, x, y, z] + rest) <==> NoStrayBits(rest)
  {
    assert ([w, x, y, z] + rest)[4..] == rest;
  }

  lemma {:induction false} BytesOfSextets(bytes: seq<Byte>)
    ensures Bytes(Sextets(bytes)) == bytes
    ensures NoStrayBits(Sextets(bytes))
  {
    if |bytes| >= 3 {
      var a, b, c := bytes[0], bytes[1], bytes[2];
      BytesOfSextets(bytes[3..]);
      GroupThere(a, b, c);
      BytesOfGroup(Sextet0(a), Sextet1(a, b), Sextet2(b, c), Sextet3(c), Sextets(bytes[3..]));
      assert bytes == [a, b, c] + bytes[3..];
    } else if |bytes| == 2 {
      BytesOfSextetsOfPair(bytes[0], bytes[1]);
      assert bytes == [bytes[0], bytes[1]];
    } else if |bytes| == 1 {
      BytesOfSextetsOfOne(bytes[0]);
      assert bytes == [bytes[0]];
    }
  }

  lemma BytesOfSextetsOfOne(a: Byte)
    ensures Bytes(Sextets([a])) == [a] && NoStrayBits(Sextets([a]))
  {
    var w, x := Sextet0(a), Sextet1(a, 0);
    assert 0 <= w < 64 && 0 <= x < 64 && x % 16 == 0 && Byte0(w, x) == a;
    SextetsOfOne(a);
    BytesOfTwo(w, x);
  }

  lemma BytesOfSextetsOfPair(a: Byte, b: Byte)
    ensures Bytes(Sextets([a, b])) == [a, b] && NoStrayBits(Sextets([a, b]))
  {
    var w, x, y := Sextet0(a), Sextet1(a, b), Sextet2(b, 0);
    assert 0 <= w < 64 && 0 <= x < 64 && 0 <= y < 64 && y % 4 == 0 && Byte0(w, x) == a && Byte1(x, y) == b;
    SextetsOfPair(a, b);
    BytesOfThree(w, x, y);
  }

  lemma BytesOfTwo(w: Sextet, x: Sextet)
    ensures Bytes([w, x]) == [Byte0(w, x)] && (NoStrayBits([w, x]) <==> x % 16 == 0)
  {
  }

  lemma BytesOfThree(w: Sextet, x: Sextet, y: Sextet)
    ensures Bytes([w, x, y]) == [Byte0(w, x), Byte1(x, y)] && (NoStrayBits([w, x, y]) <==> y % 4 == 0)
  {
  }

  lemma GroupBack(w: Sextet, x: Sextet, y: Sextet, z: Sextet)
    ensures var a, b, c := Byte0(w, x), Byte1(x, y), Byte2(y, z);
            && 0 <= a < 256 && 0 <= b < 256 && 0 <= c < 256
            && Sextet0(a) == w && Sextet1(a, b) == x && Sextet2(b, c) == y && Sextet3(c) == z
  {
  }

  lemma SextetsOfGroup(a: Byte, b: Byte, c: Byte, rest: seq<Byte>)
    ensures Sextets([a, b, c] + rest) ==
            [Sextet0(a), Sextet1(a, b), Sextet2(b, c), Sextet3(c)] + Sextets(rest)
  {
    assert ([a, b, c] + rest)[3..] == rest;
  }

  lemma SextetsOfOne(a: Byte)
    ensures Sextets([a]) == [Sextet0(a), Sextet1(a, 0)]
  {
  }

  lemma SextetsOfPair(a: Byte, b: Byte)
    ensures Sextets([a, b]) == [Sextet0(a), Sextet1(a, b), Sextet2(b, 0)]
  {
  }

  lemma SextetsOfTwo(w: Sextet, x: Sextet)
    requires x % 16 == 0
    ensures Sextets(Bytes([w, x])) == [w, x]
  {
    var a := Byte0(w, x);
    assert 0 <= a < 256 && Sextet0(a) == w && Sextet1(a, 0) == x;
    BytesOfTwo(w, x);
    SextetsOfOne(a);
  }

  lemma SextetsOfThree(w: Sextet, x: Sextet, y: Sextet)
    requires y % 4 == 0
    ensures Sextets(Bytes([w, x, y])) == [w, x, y]
  {
    var a, b := Byte0(w, x), Byte1(x, y);
    assert 0 <= a < 256 && 0 <= b < 256 && Sextet0(a) == w && Sextet1(a, b) == x && Sextet2(b, 0) == y;
    BytesOfThree(w, x, y);
    SextetsOfPair(a, b);
  }

  lemma {:induction false} SextetsOfBytes(sextets: seq<Sextet>)
    requires NoStrayBits(sextets)
    ensures Sextets(Bytes(sextets)) == sextets
  {
    if |sextets| >= 4 {
      var w, x, y, z := sextets[0], sextets[1], sextets[2], sextets[3];
      SextetsOfBytes(sextets[4..]);
      GroupBack(w, x, y, z);
      SextetsOfGroup(Byte0(w, x), Byte1(x, y), Byte2(y, z), Bytes(sextets[4..]));
      assert sextets == [w, x, y, z] + sextets[4..];
    } else if |sextets| == 3 {
      SextetsOfThree(sextets[0], sextets[1], sextets[2]);
      assert sextets == [sextets[0], sextets[1], sextets[2]];
    } else if |sextets| == 2 {
      SextetsOfTwo(sextets[0], sextets[1]);
      assert sextets == [sextets[0], sextets[1]];
    }
  }

  /** Text that is a whole number of bytes never has one sextet too many. */
  lemma {:induction false} NoStrayLength(sextets: seq<Sextet>)
    requires NoStrayBits(sextets)
    ensures |sextets| % 4 != 1
  {
    if |sextets| >= 4 {
      NoStrayLength(sextets[4..]);
    }
  }

  // ---------- Alphabets ----------

  function StdChar(i: Sextet): char {
    if i < 26 then ('A' as int + i) as char
    else if i < 52 then ('a' as int + i - 26) as char
    else if i < 62 then ('0' as int + i - 52) as char
    else if i == 62 then '+' else '/'
  }

  predicate InStd(c: char) {
    'A' <= c <= 'Z' || 'a' <= c <= 'z' || '0' <= c <= '9' || c == '+' || c == '/'
  }

  function StdValue(c: char): (i: Sextet)
    requires InStd(c)
    ensures StdChar(i) == c
  {
    if 'A' <= c <= 'Z' then c as int - 'A' as int
    else if 'a' <= c <= 'z' then c as int - 'a' as int + 26
    else if '0' <= c <= '9' then c as int - '0' as int + 52
    else if c == '+' then 62 else 63
  }

  lemma StdValueOfChar(i: Sextet)
    ensures InStd(StdChar(i)) && StdValue(StdChar(i)) == i
  {
  }

  function StdText(sextets: seq<Sextet>): string {
    seq(|sextets|, i requires 0 <= i < |sextets| => StdChar(sextets[i]))
  }

  predicate AllStd(s: string) {
    forall i :: 0 <= i < |s| ==> InStd(s[i])
  }

  function StdValues(s: string): seq<Sextet>
    requires AllStd(s)
  {
    seq(|s|, i requires 0 <= i < |s| => StdValue(s[i]))
  }

  lemma StdTextRoundTrip(sextets: seq<Sextet>)
    ensures AllStd(StdText(sextets)) && StdValues(StdText(sextets)) == sextets
  {
    forall i: Sextet
      ensures InStd(StdChar(i)) && StdValue(StdChar(i)) == i
    {
      StdValueOfChar(i);
    }
  }

  // ---------- The browser's btoa and atob ----------

  function Repeat(c: char, n: nat): string {
    seq(n, _ => c)
  }

  /** One character for each byte, as `String.fromCharCode` makes them. */
  function Binary(bytes: seq<Byte>): string {
    seq(|bytes|, i requires 0 <= i < |bytes| => bytes[i] as char)
  }

  predicate IsBinary(s: string) {
    forall i :: 0 <= i < |s| ==> s[i] as int < 256
  }

  function CharCodes(s: string): seq<Byte>
    requires IsBinary(s)
  {
    seq(|s|, i requires 0 <= i < |s| => s[i] as int)
  }

  /** Section 4: the groups in the standard alphabet, the last one padded. */
  function PaddedStd(bytes: seq<Byte>): string {
    StdText(Sextets(bytes)) + Repeat('=', (3 - |bytes| % 3) % 3)
  }

  /** `btoa` throws on a character above U+00FF. */
  function Btoa(binary: string): Option<string> {
    if !IsBinary(binary) then None
    else Some(PaddedStd(CharCodes(binary)))
  }

  predicate IsAsciiSpace(c: char) {
    c == '\t' || c == '\n' || c == '\U{000C}' || c == '\r' || c == ' '
  }

  function RemoveSpaces(s: string): string {
    if s == "" then ""
    else if IsAsciiSpace(s[0]) then RemoveSpaces(s[1..]) else [s[0]] + RemoveSpaces(s[1..])
  }

  /** At most two padding characters, and only when the length is a multiple of four. */
  function RemovePadding(s: string): string {
    if |s| % 4 != 0 || s == "" || s[|s| - 1] != '=' then s
    else if s[|s| - 2] != '=' then s[..|s| - 1]
    else s[..|s| - 2]
  }

  /** The forgiving decoding of `atob`; it throws on anything else. */
  function Atob(s: string): Option<string> {
    var data := RemovePadding(RemoveSpaces(s));
    if |data| % 4 == 1 || !AllStd(data) then None
    else Some(Binary(Bytes(StdValues(data))))
  }

  // ---------- The codec ----------

  function Replace(s: string, from: char, to: char): string {
    seq(|s|, i requires 0 <= i < |s| => if s[i] == from then to else s[i])
  }

  function ToStd(s: string): string {
    Replace(Replace(s, '-', '+'), '_', '/')
  }

  function ToUrl(s: string): string {
    Replace(Replace(s, '+', '-'), '/', '_')
  }

  function StripPadding(s: string): string {
    if s != "" && s[|s| - 1] == '=' then StripPadding(s[..|s| - 1]) else s
  }

  function PadEnd(s: string, length: nat): string {
    if |s| < length then s + Repeat('=', length - |s|) else s
  }

  function RoundUpTo4(n: nat): nat {
    (n + 3) / 4 * 4
  }

  function Encode(bytes: seq<Byte>): string {
    var encoded := Btoa(Binary(bytes));
    if encoded.None? then "" else StripPadding(ToUrl(encoded.value))
  }

  function Decode(value: string): Option<seq<Byte>> {
    var std := ToStd(value);
    var binary := Atob(PadEnd(std, RoundUpTo4(|std|)));
    if binary.Some? && IsBinary(binary.value) then Some(CharCodes(binary.value)) else None
  }

  const CHUNK := 0x8000

  method BytesToBase64Url(bytes: array<Byte>) returns (text: string)
    ensures text == Encode(bytes[..])
  {
    var binary := "";
    var i := 0;
    while i < bytes.Length
      invariant 0 <= i
      invariant binary == Binary(bytes[..if i < bytes.Length then i else bytes.Length])
    {
      var end := if i + CHUNK < bytes.Length then i + CHUNK else bytes.Length;
      binary := binary + Binary(bytes[i..end]);
      assert bytes[..end] == bytes[..i] + bytes[i..end];
      i := i + CHUNK;
    }
    assert bytes[..bytes.Length] == bytes[..];
    BinaryRoundTrip(bytes[..]);
    var encoded := Btoa(binary);
    text := StripPadding(ToUrl(encoded.value));
  }

  /** Without `ok` the decoding threw. */
  method Base64UrlToBytes(value: string) returns (ok: bool, bytes: array<Byte>)
    ensures fresh(bytes)
    ensures (if ok then Some(bytes[..]) else None) == Decode(value)
  {
    var std := ToStd(value);
    var decoded := Atob(PadEnd(std, RoundUpTo4(|std|)));
    if decoded.None? {
      ok, bytes := false, new Byte[0];
      return;
    }
    var binary := decoded.value;
    AtobIsBinary(PadEnd(std, RoundUpTo4(|std|)));
    ok, bytes := true, new Byte[|binary|];
    var i := 0;
    while i < |binary|
      invariant 0 <= i <= |binary|
      invariant bytes[..i] == CharCodes(binary)[..i]
    {
      bytes[i] := binary[i] as int;
      i := i + 1;
    }
    assert bytes[..] == bytes[..|binary|] && CharCodes(binary) == CharCodes(binary)[..|binary|];
  }

  lemma BinaryRoundTrip(bytes: seq<Byte>)
    ensures IsBinary(Binary(bytes)) && CharCodes(Binary(bytes)) == bytes
  {
  }

  lemma AtobIsBinary(s: string)
    ensures Atob(s).Some? ==> IsBinary(Atob(s).value)
  {
    var data := RemovePadding(RemoveSpaces(s));
    if Atob(s).Some? {
      BinaryRoundTrip(Bytes(StdValues(data)));
    }
  }

  // ---------- The codec on sextets ----------

  predicate InUrl(c: char) {
    'A' <= c <= 'Z' || 'a' <= c <= 'z' || '0' <= c <= '9' || c == '-' || c == '_'
  }

  predicate AllUrl(s: string) {
    forall i :: 0 <= i < |s| ==> InUrl(s[i])
  }

  function UrlValues(s: string): seq<Sextet>
    requires AllUrl(s)
  {
    StdValues(ToStd(s))
  }

  lemma {:induction false} StripPaddingStrips(s: string, n: nat)
    requires s != "" ==> s[|s| - 1] != '='
    ensures StripPadding(s + Repeat('=', n)) == s
  {
    var t := s + Repeat('=', n);
    if n > 0 {
      StripPaddingStrips(s, n - 1);
      assert t[..|t| - 1] == s + Repeat('=', n - 1);
    } else {
      assert t == s;
    }
  }

  lemma ToUrlAndBack(std: string)
    requires AllStd(std)
    ensures AllUrl(ToUrl(std)) && ToStd(ToUrl(std)) == std
  {
  }

  lemma ToUrlPadded(std: string, n: nat)
    ensures ToUrl(std + Repeat('=', n)) == ToUrl(std) + Repeat('=', n)
  {
  }

  lemma BtoaOfBinary(bytes: seq<Byte>)
    ensures Btoa(Binary(bytes)) == Some(PaddedStd(bytes))
  {
    BinaryRoundTrip(bytes);
  }

  lemma EncodeIsSextets(bytes: seq<Byte>)
    ensures Encode(bytes) == ToUrl(StdText(Sextets(bytes)))
    ensures AllUrl(Encode(bytes)) && UrlValues(Encode(bytes)) == Sextets(bytes)
  {
    var std, n := StdText(Sextets(bytes)), (3 - |bytes| % 3) % 3;
    BtoaOfBinary(bytes);
    StdTextRoundTrip(Sextets(bytes));
    ToUrlAndBack(std);
    ToUrlPadded(std, n);
    StripPaddingStrips(ToUrl(std), n);
    assert Encode(bytes) == StripPadding(ToUrl(std + Repeat('=', n)));
  }

  lemma {:induction false} NothingToRemove(s: string)
    requires forall i :: 0 <= i < |s| ==> !IsAsciiSpace(s[i])
    ensures RemoveSpaces(s) == s
  {
    if s != "" {
      NothingToRemove(s[1..]);
      assert s == [s[0]] + s[1..];
    }
  }

  /** How many padding characters complete the last group. */
  function Missing(n: nat): nat {
    (4 - n % 4) % 4
  }

  /**
   * Decoding text of the URL alphabet that is followed by any number of padding characters:
   * it succeeds exactly when the text is a whole number of bytes and no more than the missing
   * padding is there.
   */
  lemma DecodePadded(text: string, k: nat)
    requires AllUrl(text)
    ensures Decode(text + Repeat('=', k)) ==
            if |text| % 4 != 1 && k <= Missing(|text|) then Some(Bytes(UrlValues(text))) else None
  {
    var std, p := ToStd(text), PaddingInPlace(|text|, k);
    PaddedText(text, k);
    AtobPadded(std, p);
    AtobIsBinary(std + Repeat('=', p));
    BinaryRoundTrip(Bytes(StdValues(std)));
  }

  /** The padding after `padEnd` has completed the last group. */
  function PaddingInPlace(n: nat, k: nat): (p: nat)
    ensures (n + p) % 4 == 0
    ensures p <= 2 <==> n % 4 != 1 && k <= Missing(n)
  {
    RoundUpTo4(n + k) - n
  }

  lemma PaddedText(text: string, k: nat)
    requires AllUrl(text)
    ensures var std := ToStd(text + Repeat('=', k));
            PadEnd(std, RoundUpTo4(|std|)) == ToStd(text) + Repeat('=', PaddingInPlace(|text|, k))
    ensures AllStd(ToStd(text))
  {
    assert ToStd(text + Repeat('=', k)) == ToStd(text) + Repeat('=', k);
  }

  lemma AtobAccepts(s: string, data: string)
    requires RemovePadding(RemoveSpaces(s)) == data && |data| % 4 != 1 && AllStd(data)
    ensures Atob(s) == Some(Binary(Bytes(StdValues(data))))
  {
  }

  lemma AtobRejects(s: string, i: nat)
    requires i < |RemovePadding(RemoveSpaces(s))| && RemovePadding(RemoveSpaces(s))[i] == '='
    ensures Atob(s).None?
  {
  }

  lemma AtobPadded(std: string, p: nat)
    requires AllStd(std) && (|std| + p) % 4 == 0
    ensures Atob(std + Repeat('=', p)) ==
            if p <= 2 then Some(Binary(Bytes(StdValues(std)))) else None
  {
    NothingToRemove(std + Repeat('=', p));
    PaddingRemoved(std, p);
    if p > 2 {
      LeftoverIsPadding(std, p - 2);
      AtobRejects(std + Repeat('=', p), |std|);
    } else {
      assert std + Repeat('=', 0) == std;
      AtobAccepts(std + Repeat('=', p), std);
    }
  }

  lemma LeftoverIsPadding(std: string, n: nat)
    requires n > 0
    ensures |std + Repeat('=', n)| > |std| && (std + Repeat('=', n))[|std|] == '='
  {
  }

  lemma PaddingRemoved(std: string, p: nat)
    requires AllStd(std) && (|std| + p) % 4 == 0
    ensures RemovePadding(std + Repeat('=', p)) == std + Repeat('=', if p <= 2 then 0 else p - 2)
  {
    var s := std + Repeat('=', p);
    assert p > 0 ==> s[|s| - 1] == '=';
    assert p > 1 ==> s[|s| - 2] == '=';
    assert p == 1 ==> s[|s| - 2] == std[|std| - 1];
    assert p == 0 && s != "" ==> s[|s| - 1] == std[|std| - 1];
  }

  // ---------- Round trips ----------

  /** Decoding undoes encoding, with any part of the padding restored; more padding is refused. */
  lemma DecodeUndoesEncode(bytes: seq<Byte>, k: nat)
    ensures Decode(Encode(bytes) + Repeat('=', k)) ==
            if k <= Missing(|Encode(bytes)|) then Some(bytes) else None
    ensures Encode(bytes) + Repeat('=', 0) == Encode(bytes)
  {
    var text := Encode(bytes);
    EncodeIsSextets(bytes);
    BytesOfSextets(bytes);
    NoStrayLength(UrlValues(text));
    assert |UrlValues(text)| == |text|;
    DecodePadded(text, k);
  }

  lemma EncodeInjective(a: seq<Byte>, b: seq<Byte>)
    requires Encode(a) == Encode(b)
    ensures a == b
  {
    DecodeUndoesEncode(a, 0);
    DecodeUndoesEncode(b, 0);
  }

  /** Unpadded text of the URL alphabet with no stray bits. */
  predicate Canonical(s: string) {
    AllUrl(s) && NoStrayBits(UrlValues(s))
  }

  /** Encoding undoes decoding exactly on the canonical strings. */
  lemma EncodeUndoesDecodeIff(s: string)
    ensures Decode(s).Some? && Encode(Decode(s).value) == s <==> Canonical(s)
  {
    if Decode(s).Some? && Encode(Decode(s).value) == s {
      EncodeIsSextets(Decode(s).value);
      BytesOfSextets(Decode(s).value);
    }
    if Canonical(s) {
      NoStrayLength(UrlValues(s));
      DecodePadded(s, 0);
      assert s + Repeat('=', 0) == s;
      var bytes := Bytes(UrlValues(s));
      SextetsOfBytes(UrlValues(s));
      EncodeIsSextets(bytes);
      UrlValuesInjective(s, Encode(bytes));
    }
  }

  lemma UrlValuesInjective(s: string, t: string)
    requires AllUrl(s) && AllUrl(t) && UrlValues(s) == UrlValues(t)
    ensures s == t
  {
    var a, b := ToStd(s), ToStd(t);
    assert |s| == |UrlValues(s)| == |UrlValues(t)| == |t|;
    forall i | 0 <= i < |s|
      ensures s[i] == t[i]
    {
      assert StdChar(UrlValues(s)[i]) == a[i] && StdChar(UrlValues(t)[i]) == b[i];
    }
  }

  // ---------- Text of other alphabets ----------

  /** The standard alphabet is read like the URL alphabet. */
  lemma StandardAlphabetIsRead(s: string)
    ensures Decode(ToUrl(s)) == Decode(s)
  {
    assert ToStd(ToUrl(s)) == ToStd(s);
  }

  /** A character that no base64 text may hold: no letter of either alphabet, no padding, no whitespace. */
  predicate Foreign(c: char) {
    !InUrl(c) && c != '+' && c != '/' && c != '=' && c !in "\t\n\U{000C}\r "
  }

  lemma {:induction false} InkIsKept(s: string, c: char)
    requires c in s && !IsAsciiSpace(c)
    ensures c in RemoveSpaces(s)
  {
    if s[0] != c {
      InkIsKept(s[1..], c);
    }
  }

  lemma PaddingOnlyIsRemoved(s: string, c: char)
    requires c in s && c != '='
    ensures c in RemovePadding(s)
  {
    var i :| 0 <= i < |s| && s[i] == c;
    assert i < |RemovePadding(s)| && RemovePadding(s)[i] == c;
  }

  /** Text with a foreign character anywhere is refused. */
  lemma ForeignIsRefused(s: string, i: nat)
    requires i < |s| && Foreign(s[i])
    ensures Decode(s).None?
  {
    var std := ToStd(s);
    var padded := PadEnd(std, RoundUpTo4(|std|));
    assert padded[i] == std[i] == s[i];
    InkIsKept(padded, s[i]);
    PaddingOnlyIsRemoved(RemoveSpaces(padded), s[i]);
    var data := RemovePadding(RemoveSpaces(padded));
    var j :| 0 <= j < |data| && data[j] == s[i];
    assert !InStd(data[j]);
  }
}
