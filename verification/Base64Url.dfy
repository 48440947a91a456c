/** The URL-safe base64 codec of web/zp-core.js (section 5 of RFC 4648, without padding), over `btoa` and `atob`. */
module Base64Url {
  import opened Octets
  import opened Prelude

  type Sextet = x: int | 0 <= x < 64 witness 0

  // ----- alphabets -----

  function StdChar(v: Sextet): char {
    if v < 26 then 'A' + v as char
    else if v < 52 then 'a' + (v - 26) as char
    else if v < 62 then '0' + (v - 52) as char
    else if v == 62 then '+' else '/'
  }

  predicate StdAlphabet(c: char) {
    'A' <= c <= 'Z' || 'a' <= c <= 'z' || '0' <= c <= '9' || c == '+' || c == '/'
  }

  function StdValue(c: char): Sextet
    requires StdAlphabet(c)
  {
    if 'A' <= c <= 'Z' then (c - 'A') as int
    else if 'a' <= c <= 'z' then (c - 'a') as int + 26
    else if '0' <= c <= '9' then (c - '0') as int + 52
    else if c == '+' then 62 else 63
  }

  predicate UrlAlphabet(c: char) {
    'A' <= c <= 'Z' || 'a' <= c <= 'z' || '0' <= c <= '9' || c == '-' || c == '_'
  }

  lemma StdCharValue(v: Sextet)
    ensures StdAlphabet(StdChar(v)) && StdValue(StdChar(v)) == v
  {
  }

  lemma StdValueChar(c: char)
    requires StdAlphabet(c)
    ensures StdChar(StdValue(c)) == c
  {
  }

  function Replace(s: string, from: char, to: char): (r: string)
    ensures |r| == |s| && forall i :: 0 <= i < |s| ==> r[i] == if s[i] == from then to else s[i]
  {
    seq(|s|, i requires 0 <= i < |s| => if s[i] == from then to else s[i])
  }

  /** Without the padding at the end. */
  function StripPadding(s: string): string {
    if s != "" && s[|s| - 1] == '=' then StripPadding(s[..|s| - 1]) else s
  }

  // ----- bits -----

  function Bits1(a: Byte): Sextet { var x: int := a as int; x / 4 }
  function Bits2(a: Byte, b: Byte): Sextet { var x: int, y: int := a as int, b as int; x % 4 * 16 + y / 16 }
  function Bits3(b: Byte, c: Byte): Sextet { var y: int, z: int := b as int, c as int; y % 16 * 4 + z / 64 }
  function Bits4(c: Byte): Sextet { var z: int := c as int; z % 64 }

  function Byte1(p: Sextet, q: Sextet): Byte { var x: int, y: int := p, q; (x * 4 + y / 16) as Byte }
  function Byte2(q: Sextet, r: Sextet): Byte { var y: int, z: int := q, r; (y % 16 * 16 + z / 4) as Byte }
  function Byte3(r: Sextet, t: Sextet): Byte { var z: int, w: int := r, t; (z % 4 * 64 + w) as Byte }

  lemma BytesThroughSextets(a: Byte, b: Byte, c: Byte)
    ensures Byte1(Bits1(a), Bits2(a, b)) == a
    ensures Byte2(Bits2(a, b), Bits3(b, c)) == b
    ensures Byte3(Bits3(b, c), Bits4(c)) == c
  {
  }

  lemma SextetsThroughBytes(p: Sextet, q: Sextet, r: Sextet, t: Sextet)
    ensures Bits1(Byte1(p, q)) == p
    ensures Bits2(Byte1(p, q), Byte2(q, r)) == q
    ensures Bits3(Byte2(q, r), Byte3(r, t)) == r
    ensures Bits4(Byte3(r, t)) == t
  {
  }

  lemma LastSextet(p: Sextet, q: Sextet, r: Sextet)
    ensures Bits2(Byte1(p, q), 0) == q <==> q % 16 == 0
    ensures Bits3(Byte2(q, r), 0) == r <==> r % 4 == 0
  {
  }

  /** Six-bit groups of a byte string; the last group is filled up with zero bits. */
  function Sextets(b: Bytes): seq<Sextet> {
    if b == [] then []
    else if |b| == 1 then [Bits1(b[0]), Bits2(b[0], 0)]
    else if |b| == 2 then [Bits1(b[0]), Bits2(b[0], b[1]), Bits3(b[1], 0)]
    else [Bits1(b[0]), Bits2(b[0], b[1]), Bits3(b[1], b[2]), Bits4(b[2])] + Sextets(b[3..])
  }

  /** The bytes that whole eights of bits make; bits left over are dropped. */
  function Unpack(v: seq<Sextet>): Bytes {
    if |v| < 2 then []
    else if |v| == 2 then [Byte1(v[0], v[1])]
    else if |v| == 3 then [Byte1(v[0], v[1]), Byte2(v[1], v[2])]
    else [Byte1(v[0], v[1]), Byte2(v[1], v[2]), Byte3(v[2], v[3])] + Unpack(v[4..])
  }

  lemma {:induction false} UnpackSextets(b: Bytes)
    ensures Unpack(Sextets(b)) == b
  {
    if |b| == 1 {
      BytesThroughSextets(b[0], 0, 0);
    } else if |b| == 2 {
      BytesThroughSextets(b[0], b[1], 0);
    } else if |b| >= 3 {
      BytesThroughSextets(b[0], b[1], b[2]);
      UnpackSextets(b[3..]);
      assert Sextets(b)[4..] == Sextets(b[3..]);
      assert b == [b[0], b[1], b[2]] + b[3..];
    }
  }

  lemma {:induction false} SextetsLength(b: Bytes)
    ensures |Sextets(b)| == (4 * |b| + 2) / 3
    ensures |Sextets(b)| % 4 != 1
  {
    if |b| >= 3 {
      SextetsLength(b[3..]);
    }
  }

  /** The bits the decoder would drop are all zero. */
  predicate NoStrayBits(v: seq<Sextet>) {
    && (|v| % 4 == 2 ==> v[|v| - 1] % 16 == 0)
    && (|v| % 4 == 3 ==> v[|v| - 1] % 4 == 0)
  }

  lemma ShortUnpack(v: seq<Sextet>)
    requires |v| == 2 || |v| == 3
    ensures Sextets(Unpack(v)) == if |v| == 2 then [v[0], Bits2(Byte1(v[0], v[1]), 0)]
                                  else [v[0], v[1], Bits3(Byte2(v[1], v[2]), 0)]
  {
    SextetsThroughBytes(v[0], v[1], if |v| == 3 then v[2] else 0, 0);
  }

  /** Repacking gives the groups back exactly when no stray bits were dropped. */
  lemma {:induction false} SextetsUnpack(v: seq<Sextet>)
    requires |v| % 4 != 1
    ensures Sextets(Unpack(v)) == v <==> NoStrayBits(v)
  {
    if |v| == 2 {
      ShortUnpack(v);
      LastSextet(v[0], v[1], 0);
      assert v == [v[0], v[1]];
    } else if |v| == 3 {
      ShortUnpack(v);
      LastSextet(v[0], v[1], v[2]);
      assert v == [v[0], v[1], v[2]];
    } else if |v| >= 4 {
      SextetsUnpack(v[4..]);
      QuadUnpack(v);
      SamePrefix(v[..4], Sextets(Unpack(v[4..])), v[4..]);
      assert v == v[..4] + v[4..];
    }
  }

  lemma QuadUnpack(v: seq<Sextet>)
    requires |v| >= 4 && |v| % 4 != 1
    ensures Sextets(Unpack(v)) == v[..4] + Sextets(Unpack(v[4..]))
  {
    SextetsThroughBytes(v[0], v[1], v[2], v[3]);
    assert Unpack(v)[3..] == Unpack(v[4..]);
    assert v[..4] == [v[0], v[1], v[2], v[3]];
  }

  lemma SamePrefix(head: seq<Sextet>, a: seq<Sextet>, b: seq<Sextet>)
    ensures head + a == head + b <==> a == b
  {
    if head + a == head + b {
      assert a == (head + a)[|head|..];
      assert b == (head + b)[|head|..];
    }
  }

  // ----- btoa and atob -----

  function Chars(v: seq<Sextet>): (s: string)
    ensures |s| == |v| && forall i :: 0 <= i < |v| ==> s[i] == StdChar(v[i])
  {
    seq(|v|, i requires 0 <= i < |v| => StdChar(v[i]))
  }

  function Padding(n: nat): string {
    if n % 4 == 2 then "==" else if n % 4 == 3 then "=" else ""
  }

  /** The browser's encoder: standard alphabet, padded to a multiple of four. */
  function Btoa(b: Bytes): string {
    Chars(Sextets(b)) + Padding(|Sextets(b)|)
  }

  function Values(s: string): seq<Sextet>
    requires forall i :: 0 <= i < |s| ==> StdAlphabet(s[i])
  {
    seq(|s|, i requires 0 <= i < |s| => StdValue(s[i]))
  }

  /** Up to two padding characters come off a text whose length is a multiple of four. */
  function Unpadded(s: string): string {
    if |s| % 4 == 0 && |s| >= 1 && s[|s| - 1] == '=' then
      if s[|s| - 2] == '=' then s[..|s| - 2] else s[..|s| - 1]
    else s
  }

  /** The browser's decoder: fails on a stray length or character, and drops left-over bits. */
  function Atob(s: string): Option<Bytes> {
    var t := Unpadded(s);
    if |t| % 4 == 1 || !(forall i :: 0 <= i < |t| ==> StdAlphabet(t[i])) then None
    else Some(Unpack(Values(t)))
  }

  // ----- the codec -----

  function EncodeUrl(b: Bytes): string {
    StripPadding(Replace(Replace(Btoa(b), '+', '-'), '/', '_'))
  }

  predicate WellFormed(raw: string) {
    raw != "" && (forall i :: 0 <= i < |raw| ==> UrlAlphabet(raw[i])) && |raw| % 4 != 1
  }

  function DecodeUrl(raw: string): Option<Bytes> {
    if !WellFormed(raw) then None
    else Atob(Replace(Replace(raw + Padding(|raw|), '-', '+'), '_', '/'))
  }

  /** Bytes to text: the input is turned into a binary string piece by piece, then encoded. */
  method BytesToBase64Url(bytes: Bytes) returns (s: string)
    ensures s == EncodeUrl(bytes)
  {
    var bin: Bytes := [];
    var i := 0;
    while i < |bytes|
      invariant 0 <= i && bin == bytes[..if i < |bytes| then i else |bytes|]
    {
      var end := if i + 0x8000 < |bytes| then i + 0x8000 else |bytes|;
      assert bytes[..end] == bytes[..i] + bytes[i..end];
      bin := bin + bytes[i..end];
      i := i + 0x8000;
    }
    assert bin == bytes;
    s := StripPadding(Replace(Replace(Btoa(bin), '+', '-'), '/', '_'));
  }

  /** Concatenates chunks into one buffer of exactly their total length. */
  method ConcatBytes(chunks: seq<Bytes>) returns (out: array<Byte>)
    ensures fresh(out) && out[..] == Flat(chunks)
  {
    var n := 0;
    var k := 0;
    while k < |chunks|
      invariant 0 <= k <= |chunks| && n == |Flat(chunks[..k])|
    {
      assert chunks[..k + 1][..k] == chunks[..k];
      n := n + |chunks[k]|;
      k := k + 1;
    }
    assert chunks[..k] == chunks;
    out := new Byte[n](_ => 0);
    var o := 0;
    k := 0;
    while k < |chunks|
      invariant 0 <= k <= |chunks| && o == |Flat(chunks[..k])|
      invariant o <= out.Length && out[..o] == Flat(chunks[..k])
    {
      assert chunks[..k + 1][..k] == chunks[..k];
      FlatBound(chunks, k + 1);
      forall i | 0 <= i < |chunks[k]| {
        out[o + i] := chunks[k][i];
      }
      assert out[..o + |chunks[k]|] == out[..o] + chunks[k];
      o := o + |chunks[k]|;
      k := k + 1;
    }
    assert chunks[..k] == chunks;
  }

  // ----- round trips -----

  function UrlChars(v: seq<Sextet>): string {
    Replace(Replace(Chars(v), '+', '-'), '/', '_')
  }

  lemma StripPaddingKeeps(s: string, n: nat)
    requires s != "" ==> s[|s| - 1] != '='
    ensures StripPadding(s + Padding(n)) == s
  {
    StripOne(s);
    StripOne(s + "=");
    assert s + "" == s && s + "=" + "=" == s + "==";
  }

  lemma StripOne(s: string)
    ensures StripPadding(s + "=") == StripPadding(s)
  {
    assert (s + "=")[..|s|] == s;
  }

  /** The encoding is the six-bit groups in the URL-safe alphabet, and nothing else. */
  lemma EncodingShape(b: Bytes)
    ensures EncodeUrl(b) == UrlChars(Sextets(b))
    ensures forall i :: 0 <= i < |EncodeUrl(b)| ==> UrlAlphabet(EncodeUrl(b)[i])
    ensures |EncodeUrl(b)| == (4 * |b| + 2) / 3 && |EncodeUrl(b)| % 4 != 1
    ensures b != [] ==> WellFormed(EncodeUrl(b))
  {
    var v := Sextets(b);
    SextetsLength(b);
    forall i | 0 <= i < |v| ensures UrlAlphabet(UrlChars(v)[i]) {
      StdCharValue(v[i]);
    }
    assert Replace(Replace(Btoa(b), '+', '-'), '/', '_') == UrlChars(v) + Padding(|v|);
    StripPaddingKeeps(UrlChars(v), |v|);
  }

  /** The value of a character of the URL-safe alphabet. */
  function UrlValue(c: char): Sextet
    requires UrlAlphabet(c)
  {
    StdValue(if c == '-' then '+' else if c == '_' then '/' else c)
  }

  function UrlValues(s: string): seq<Sextet>
    requires forall i :: 0 <= i < |s| ==> UrlAlphabet(s[i])
  {
    seq(|s|, i requires 0 <= i < |s| => UrlValue(s[i]))
  }

  /** Decoding unpacks the values of the characters; it succeeds on exactly the well-formed texts. */
  lemma DecodingShape(raw: string)
    ensures DecodeUrl(raw).Some? <==> WellFormed(raw)
    ensures WellFormed(raw) ==> DecodeUrl(raw) == Some(Unpack(UrlValues(raw)))
  {
    if WellFormed(raw) {
      var t := Replace(Replace(raw, '-', '+'), '_', '/');
      var p := Padding(|raw|);
      var padded := Replace(Replace(raw + p, '-', '+'), '_', '/');
      assert padded == t + p;
      UnpaddedKeeps(t);
      assert Values(t) == UrlValues(raw);
    }
  }

  lemma UnpaddedKeeps(t: string)
    requires t != "" && |t| % 4 != 1 && forall i :: 0 <= i < |t| ==> StdAlphabet(t[i])
    ensures Unpadded(t + Padding(|t|)) == t
  {
    assert StdAlphabet(t[|t| - 1]);
    assert (t + "==")[..|t|] == t && (t + "=")[..|t|] == t && t + "" == t;
  }

  /** Decoding undoes encoding, for every nonempty byte string. */
  lemma DecodeEncode(b: Bytes)
    requires b != []
    ensures DecodeUrl(EncodeUrl(b)) == Some(b)
  {
    var v := Sextets(b);
    EncodingShape(b);
    DecodingShape(EncodeUrl(b));
    forall i | 0 <= i < |v| ensures UrlValue(UrlChars(v)[i]) == v[i] {
      StdCharValue(v[i]);
    }
    assert UrlValues(UrlChars(v)) == v;
    UnpackSextets(b);
  }

  /** Encoding undoes decoding exactly for the texts whose last character carries no stray bits. */
  lemma EncodeDecode(raw: string)
    requires WellFormed(raw)
    ensures EncodeUrl(DecodeUrl(raw).value) == raw <==> NoStrayBits(UrlValues(raw))
  {
    DecodingShape(raw);
    var v := UrlValues(raw);
    var w := Sextets(Unpack(v));
    EncodingShape(Unpack(v));
    SextetsUnpack(v);
    UrlCharsInjective(w, v);
    forall i | 0 <= i < |raw| ensures UrlChars(v)[i] == raw[i] {
      StdValueChar(if raw[i] == '-' then '+' else if raw[i] == '_' then '/' else raw[i]);
    }
    assert UrlChars(v) == raw;
  }

  lemma UrlCharsInjective(v: seq<Sextet>, w: seq<Sextet>)
    ensures UrlChars(v) == UrlChars(w) <==> v == w
  {
    if UrlChars(v) == UrlChars(w) {
      assert |UrlChars(v)| == |v| && |UrlChars(w)| == |w|;
      forall i | 0 <= i < |v| ensures v[i] == w[i] {
        StdCharValue(v[i]);
        StdCharValue(w[i]);
        assert UrlChars(v)[i] == UrlChars(w)[i];
      }
    }
  }
}
