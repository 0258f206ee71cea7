/** base64url (section 5 of RFC 4648) without padding, as JWS uses it (section 2 of
    RFC 7515), and the decoder of ctrd/image/converter.go. */
module Base64Url {
  type byte = x: int | 0 <= x < 256
  type sextet = x: int | 0 <= x < 64

  datatype Decoded = Ok(bytes: seq<byte>) | Err

  // ---- Alphabet -------------------------------------------------------------------------

  function Letter(v: sextet): char {
    if v < 26 then (v + 65) as char
    else if v < 52 then (v + 71) as char
    else if v < 62 then (v - 4) as char
    else if v == 62 then '-' else '_'
  }

  predicate InAlphabet(c: char) {
    'A' <= c <= 'Z' || 'a' <= c <= 'z' || '0' <= c <= '9' || c == '-' || c == '_'
  }

  function Value(c: char): sextet
    requires InAlphabet(c)
  {
    if 'A' <= c <= 'Z' then c as int - 65
    else if 'a' <= c <= 'z' then c as int - 71
    else if '0' <= c <= '9' then c as int + 4
    else if c == '-' then 62 else 63
  }

  lemma LetterValue(v: sextet)
    ensures InAlphabet(Letter(v)) && Value(Letter(v)) == v
  {
  }

  lemma ValueLetter(c: char)
    requires InAlphabet(c)
    ensures Letter(Value(c)) == c
  {
  }

  predicate Text(s: string) { forall i | 0 <= i < |s| :: InAlphabet(s[i]) }

  function Letters(v: seq<sextet>): (s: string)
    ensures Text(s) && |s| == |v|
  {
    seq(|v|, i requires 0 <= i < |v| => assert InAlphabet(Letter(v[i])) by { LetterValue(v[i]); } Letter(v[i]))
  }

  function Values(s: string): (v: seq<sextet>)
    requires Text(s)
    ensures |v| == |s|
  {
    seq(|s|, i requires 0 <= i < |s| => Value(s[i]))
  }

  lemma ValuesOfLetters(v: seq<sextet>)
    ensures Values(Letters(v)) == v
  {
    forall i | 0 <= i < |v| ensures Values(Letters(v))[i] == v[i] { LetterValue(v[i]); }
  }

  lemma LettersOfValues(s: string)
    requires Text(s)
    ensures Letters(Values(s)) == s
  {
    forall i | 0 <= i < |s| ensures Letters(Values(s))[i] == s[i] { ValueLetter(s[i]); }
  }

  // ---- Regrouping bits ------------------------------------------------------------------

  /** Three octets become four sextets; one or two left-over octets become two or three
      sextets whose spare low bits are zero. */
  function Sextets(b: seq<byte>): seq<sextet> {
    if |b| == 0 then []
    else if |b| == 1 then [b[0] / 4, b[0] % 4 * 16]
    else if |b| == 2 then [b[0] / 4, b[0] % 4 * 16 + b[1] / 16, b[1] % 16 * 4]
    else [b[0] / 4, b[0] % 4 * 16 + b[1] / 16, b[1] % 16 * 4 + b[2] / 64, b[2] % 64] + Sextets(b[3..])
  }

  function First(x: sextet, y: sextet): byte { x as int * 4 + y as int / 16 }

  function Second(y: sextet, z: sextet): byte { y as int % 16 * 16 + z as int / 4 }

  function Third(z: sextet, w: sextet): byte { z as int % 4 * 64 + w as int }

  /** The way back; spare bits are dropped. */
  function Octets(v: seq<sextet>): seq<byte> {
    if |v| < 2 then []
    else if |v| == 2 then [First(v[0], v[1])]
    else if |v| == 3 then [First(v[0], v[1]), Second(v[1], v[2])]
    else [First(v[0], v[1]), Second(v[1], v[2]), Third(v[2], v[3])] + Octets(v[4..])
  }

  lemma Regroup(a: byte, b: byte, c: byte)
    ensures First(a / 4, a % 4 * 16 + b / 16) == a
    ensures Second(a % 4 * 16 + b / 16, b % 16 * 4 + c / 64) == b
    ensures Third(b % 16 * 4 + c / 64, c % 64) == c
  {
  }

  lemma {:induction false} OctetsOfSextets(b: seq<byte>)
    ensures Octets(Sextets(b)) == b
  {
    if |b| == 1 {
      Regroup(b[0], 0, 0);
    } else if |b| == 2 {
      Regroup(b[0], b[1], 0);
    } else if |b| > 2 {
      Regroup(b[0], b[1], b[2]);
      OctetsOfSextets(b[3..]);
      assert Sextets(b)[4..] == Sextets(b[3..]);
    }
  }

  /** The spare low bits of a final partial group are zero. */
  predicate Canonical(v: seq<sextet>) {
    (|v| % 4 == 2 ==> v[|v| - 1] % 16 == 0) && (|v| % 4 == 3 ==> v[|v| - 1] % 4 == 0)
  }

  lemma RegroupBack(x: sextet, y: sextet, z: sextet, w: sextet)
    ensures var a, b, c := First(x, y), Second(y, z), Third(z, w);
            a / 4 == x && a % 4 * 16 + b / 16 == y && b % 16 * 4 + c / 64 == z && c % 64 == w
  {
  }

  lemma SextetsGroup(a: byte, b: byte, c: byte, rest: seq<byte>)
    ensures Sextets([a, b, c] + rest) == [a / 4, a % 4 * 16 + b / 16, b % 16 * 4 + c / 64, c % 64] + Sextets(rest)
  {
    assert ([a, b, c] + rest)[3..] == rest;
  }

  lemma GroupBack(x: sextet, y: sextet, z: sextet, w: sextet, rest: seq<byte>)
    ensures Sextets([First(x, y), Second(y, z), Third(z, w)] + rest) == [x, y, z, w] + Sextets(rest)
  {
    RegroupBack(x, y, z, w);
    SextetsGroup(First(x, y), Second(y, z), Third(z, w), rest);
  }

  lemma OctetsGroup(x: sextet, y: sextet, z: sextet, w: sextet, tail: seq<sextet>)
    ensures Octets([x, y, z, w] + tail) == [First(x, y), Second(y, z), Third(z, w)] + Octets(tail)
  {
    assert ([x, y, z, w] + tail)[4..] == tail;
  }

  lemma RegroupOne(x: sextet, y: sextet, z: sextet, w: sextet, tail: seq<sextet>, b: seq<byte>, s: seq<sextet>)
    requires b == Octets([x, y, z, w] + tail) && s == Sextets(b)
    ensures s == [x, y, z, w] + Sextets(Octets(tail))
  {
    OctetsGroup(x, y, z, w, tail);
    GroupBack(x, y, z, w, Octets(tail));
  }

  lemma SpareBits(x: sextet, y: sextet, z: sextet)
    ensures First(x, y) / 4 == x && First(x, y) % 4 * 16 == y / 16 * 16
    ensures First(x, y) % 4 * 16 + Second(y, z) / 16 == y && Second(y, z) % 16 * 4 == z / 4 * 4
    ensures (y / 16 * 16 == y <==> y % 16 == 0) && (z / 4 * 4 == z <==> z % 4 == 0)
  {
  }

  lemma RegroupTwo(x: sextet, y: sextet)
    ensures Sextets([First(x, y)]) == [x, y] <==> y % 16 == 0
  {
    SpareBits(x, y, 0);
    var a := First(x, y);
    assert Sextets([a]) == [a / 4, a % 4 * 16];
  }

  lemma RegroupThree(x: sextet, y: sextet, z: sextet)
    ensures Sextets([First(x, y), Second(y, z)]) == [x, y, z] <==> z % 4 == 0
  {
    SpareBits(x, y, z);
    var a, b := First(x, y), Second(y, z);
    assert Sextets([a, b]) == [a / 4, a % 4 * 16 + b / 16, b % 16 * 4];
  }

  lemma OctetsShort(x: sextet, y: sextet, z: sextet)
    ensures Octets([x, y]) == [First(x, y)]
    ensures Octets([x, y, z]) == [First(x, y), Second(y, z)]
  {
  }

  lemma ShortTwo(x: sextet, y: sextet, b: seq<byte>, s: seq<sextet>)
    requires b == Octets([x, y]) && s == Sextets(b)
    ensures s == [x, y] <==> y % 16 == 0
  {
    OctetsShort(x, y, 0);
    RegroupTwo(x, y);
  }

  lemma ShortThree(x: sextet, y: sextet, z: sextet, b: seq<byte>, s: seq<sextet>)
    requires b == Octets([x, y, z]) && s == Sextets(b)
    ensures s == [x, y, z] <==> z % 4 == 0
  {
    OctetsShort(x, y, z);
    RegroupThree(x, y, z);
  }

  lemma CanonicalTail(v: seq<sextet>)
    requires |v| >= 4
    ensures Canonical(v) <==> Canonical(v[4..])
    ensures |v| % 4 == |v[4..]| % 4
  {
  }

  lemma SamePrefix<T>(p: seq<T>, a: seq<T>, b: seq<T>)
    ensures p + a == p + b <==> a == b
  {
    assert (p + a)[|p|..] == a && (p + b)[|p|..] == b;
  }

  lemma {:induction false} SextetsOfOctets(v: seq<sextet>)
    requires |v| % 4 != 1
    ensures Sextets(Octets(v)) == v <==> Canonical(v)
  {
    if |v| == 0 {
    } else if |v| == 2 {
      assert v == [v[0], v[1]];
      ShortTwo(v[0], v[1], Octets(v), Sextets(Octets(v)));
    } else if |v| == 3 {
      assert v == [v[0], v[1], v[2]];
      ShortThree(v[0], v[1], v[2], Octets(v), Sextets(Octets(v)));
    } else {
      var tail := v[4..];
      assert v == [v[0], v[1], v[2], v[3]] + tail;
      RegroupOne(v[0], v[1], v[2], v[3], tail, Octets(v), Sextets(Octets(v)));
      CanonicalTail(v);
      SextetsOfOctets(tail);
      SamePrefix([v[0], v[1], v[2], v[3]], Sextets(Octets(tail)), tail);
    }
  }

  // ---- Encoding --------------------------------------------------------------------------

  function Encode(b: seq<byte>): string { Letters(Sextets(b)) }

  lemma {:induction false} EncodedLength(b: seq<byte>, q: nat)
    requires |b| / 3 == q
    ensures |Encode(b)| == 4 * q + if |b| % 3 == 0 then 0 else |b| % 3 + 1
    decreases q
  {
    if q > 0 {
      EncodedLength(b[3..], q - 1);
    }
  }

  /** The unpadded form never has a length of 1 modulo 4. */
  lemma NeverOneModuloFour(b: seq<byte>)
    ensures |Encode(b)| % 4 != 1
  {
    EncodedLength(b, |b| / 3);
  }

  // ---- Decoding ---------------------------------------------------------------------------

  /** Go's decoder skips line breaks. */
  function DropLineBreaks(s: string): string {
    if s == "" then ""
    else (if s[0] == '\r' || s[0] == '\n' then "" else [s[0]]) + DropLineBreaks(s[1..])
  }

  function Padding(t: string): (n: nat)
    ensures n <= |t|
  {
    if |t| >= 2 && t[|t| - 1] == '=' && t[|t| - 2] == '=' then 2
    else if |t| >= 1 && t[|t| - 1] == '=' then 1 else 0
  }

  /** base64.URLEncoding.DecodeString: without line breaks the text must be a multiple of
      four long, and letters only apart from at most two '=' at its end. */
  function DecodeString(s: string): Decoded { DecodeText(DropLineBreaks(s)) }

  function DecodeText(t: string): Decoded {
    var body := t[..|t| - Padding(t)];
    if |t| % 4 == 0 && Text(body) then Ok(Octets(Values(body))) else Err
  }

  /** joseBase64UrlDecode. */
  function JoseDecode(s: string): Decoded {
    if |s| % 4 == 1 then Err else DecodeString(s + Filler(|s| % 4))
  }

  /** What has to be appended to a text with this length modulo 4. */
  function Filler(r: nat): string {
    match r
    case 2 => "=="
    case 3 => "="
    case _ => ""
  }

  // ---- Round trips -------------------------------------------------------------------------

  lemma {:induction false} NoLineBreaks(s: string)
    requires forall i :: 0 <= i < |s| ==> InAlphabet(s[i]) || s[i] == '='
    ensures DropLineBreaks(s) == s
  {
    if s != "" {
      NoLineBreaks(s[1..]);
    }
  }

  lemma PaddingOf(s: string, pad: string)
    requires Text(s) && (pad == "" || pad == "=" || pad == "==")
    ensures Padding(s + pad) == |pad|
  {
    if s != "" {
      assert InAlphabet(s[|s| - 1]);
    }
  }

  lemma DecodePadded(s: string, pad: string)
    requires Text(s) && (pad == "" || pad == "=" || pad == "==")
    requires (|s| + |pad|) % 4 == 0
    ensures DecodeString(s + pad) == Ok(Octets(Values(s)))
  {
    var t := s + pad;
    NoLineBreaks(t);
    PaddingOf(s, pad);
    assert t[..|s|] == s;
  }

  /** On plain text the decoder is the regrouping, refusing only the impossible length. */
  lemma JoseOnText(s: string)
    requires Text(s)
    ensures JoseDecode(s) == if |s| % 4 == 1 then Err else Ok(Octets(Values(s)))
  {
    if |s| % 4 != 1 {
      DecodePadded(s, Filler(|s| % 4));
    }
  }

  /** Decoding the unpadded form of any byte string returns it. */
  lemma JoseRoundTrip(b: seq<byte>)
    ensures JoseDecode(Encode(b)) == Ok(b)
  {
    NeverOneModuloFour(b);
    JoseOnText(Encode(b));
    ValuesOfLetters(Sextets(b));
    OctetsOfSextets(b);
  }

  /** A text over the alphabet is accepted exactly when its length is not 1 modulo 4, and is
      the encoding of what it decodes to exactly when its spare bits are zero. */
  lemma JoseAccepts(s: string)
    requires Text(s)
    ensures JoseDecode(s).Ok? <==> |s| % 4 != 1
    ensures JoseDecode(s).Ok? ==> (Encode(JoseDecode(s).bytes) == s <==> Canonical(Values(s)))
  {
    JoseOnText(s);
    if |s| % 4 != 1 {
      var v := Values(s);
      SextetsOfOctets(v);
      LettersOfValues(s);
      ValuesOfLetters(Sextets(Octets(v)));
    }
  }

  // ---- Against the alphabet of RFC 4648 -----------------------------------------------------

  /** `a` is table 2 of RFC 4648: the letters in the order of their values. */
  ghost predicate IsAlphabet(a: string) {
    a == "ABCDEFGHIJKLMNOPQRSTUVWXYZ" + "abcdefghijklmnopqrstuvwxyz" + "0123456789" + "-_"
  }

  lemma Capitals(s: string, i: nat)
    requires s == "ABCDEFGHIJKLMNOPQRSTUVWXYZ" && i < 26
    ensures s[i] == Letter(i)
  {
  }

  lemma SmallLetters(s: string, i: nat)
    requires s == "abcdefghijklmnopqrstuvwxyz" && i < 26
    ensures s[i] == Letter(i + 26)
  {
  }

  lemma DigitLetters(s: string, i: nat)
    requires s == "0123456789" && i < 10
    ensures s[i] == Letter(i + 52)
  {
  }

  lemma AlphabetLetter(a: string, v: sextet)
    requires IsAlphabet(a)
    ensures |a| == 64 && a[v] == Letter(v)
  {
    if v < 26 {
      Capitals("ABCDEFGHIJKLMNOPQRSTUVWXYZ", v);
    } else if v < 52 {
      SmallLetters("abcdefghijklmnopqrstuvwxyz", v - 26);
    } else if v < 62 {
      DigitLetters("0123456789", v - 52);
    }
  }

  lemma AlphabetOrder(a: string)
    requires IsAlphabet(a)
    ensures |a| == 64 && forall v: sextet :: InAlphabet(a[v]) && Value(a[v]) == v
    ensures forall c :: InAlphabet(c) <==> c in a
  {
    forall v: sextet
      ensures |a| == 64 && a[v] == Letter(v) && InAlphabet(a[v]) && Value(a[v]) == v
    {
      AlphabetLetter(a, v);
      LetterValue(v);
    }
    forall c
      ensures InAlphabet(c) <==> c in a
    {
      if InAlphabet(c) {
        ValueLetter(c);
        assert a[Value(c)] == c;
      }
      if c in a {
        var v: sextet :| a[v] == c;
      }
    }
  }

  /** The octet at `k`: of every four sextets x, y, z, w, the first octet has the six bits of x
      and two of y, the second four of y and four of z, the third two of z and the six of w. */
  ghost predicate OctetAt(v: seq<sextet>, k: nat, octet: byte) {
    var g := k / 3 * 4;
    && |v| > g + k % 3 + 1
    && octet as int == if k % 3 == 0 then v[g] as int * 4 + v[g + 1] as int / 16
                       else if k % 3 == 1 then v[g + 1] as int % 16 * 16 + v[g + 2] as int / 4
                       else v[g + 2] as int % 4 * 64 + v[g + 3] as int
  }

  lemma OctetShifts(v: seq<sextet>, k: nat, octet: byte)
    requires |v| >= 4
    ensures OctetAt(v[4..], k, octet) <==> OctetAt(v, k + 3, octet)
  {
    assert (k + 3) / 3 == k / 3 + 1 && (k + 3) % 3 == k % 3;
  }

  lemma {:induction false} OctetsAre(v: seq<sextet>, bytes: seq<byte>)
    requires |v| % 4 != 1 && |bytes| == |v| * 3 / 4 && forall k :: 0 <= k < |bytes| ==> OctetAt(v, k, bytes[k])
    ensures Octets(v) == bytes
  {
    if |v| >= 4 {
      forall k | 0 <= k < |bytes| - 3
        ensures OctetAt(v[4..], k, bytes[3..][k])
      {
        OctetShifts(v, k, bytes[k + 3]);
      }
      OctetsAre(v[4..], bytes[3..]);
      FirstGroup(v, bytes);
    } else {
      ShortGroup(v, bytes);
    }
  }

  lemma FirstGroup(v: seq<sextet>, bytes: seq<byte>)
    requires |v| >= 4 && |bytes| >= 3 && forall k :: 0 <= k < 3 ==> OctetAt(v, k, bytes[k])
    ensures bytes == [First(v[0], v[1]), Second(v[1], v[2]), Third(v[2], v[3])] + bytes[3..]
  {
    assert OctetAt(v, 0, bytes[0]) && OctetAt(v, 1, bytes[1]) && OctetAt(v, 2, bytes[2]);
  }

  lemma ShortGroup(v: seq<sextet>, bytes: seq<byte>)
    requires |v| < 4 && |v| != 1 && |bytes| == |v| * 3 / 4 && forall k :: 0 <= k < |bytes| ==> OctetAt(v, k, bytes[k])
    ensures Octets(v) == bytes
  {
    assert |bytes| > 0 ==> OctetAt(v, 0, bytes[0]);
    assert |bytes| > 1 ==> OctetAt(v, 1, bytes[1]);
  }

  lemma DecodesTo(v: seq<sextet>, s: string, bytes: seq<byte>)
    requires |v| == |s| && |s| % 4 != 1 && bytes == Octets(v)
    requires forall i :: 0 <= i < |s| ==> InAlphabet(s[i]) && Value(s[i]) == v[i]
    ensures JoseDecode(s) == Ok(bytes)
  {
    JoseOnText(s);
    assert Values(s) == v;
  }

  /** Decoding against table 2 of RFC 4648: the values of the letters, regrouped. */
  lemma JoseDecodesTo(a: string, v: seq<sextet>, s: string, bytes: seq<byte>)
    requires a == "ABCDEFGHIJKLMNOPQRSTUVWXYZ" + "abcdefghijklmnopqrstuvwxyz" + "0123456789" + "-_" && |a| == 64
    requires |s| == |v| && (forall i :: 0 <= i < |s| ==> s[i] == a[v[i]]) && |s| % 4 != 1
    requires |bytes| == |s| * 3 / 4
    requires forall k :: 0 <= k < |bytes| ==>
               var g := k / 3 * 4;
               && |v| > g + k % 3 + 1
               && bytes[k] as int == if k % 3 == 0 then v[g] as int * 4 + v[g + 1] as int / 16
                                     else if k % 3 == 1 then v[g + 1] as int % 16 * 16 + v[g + 2] as int / 4
                                     else v[g + 2] as int % 4 * 64 + v[g + 3] as int
    ensures JoseDecode(s) == Ok(bytes)
  {
    assert forall k :: 0 <= k < |bytes| ==> OctetAt(v, k, bytes[k]);
    OctetsAre(v, bytes);
    AlphabetOrder(a);
    DecodesTo(v, s, bytes);
  }

  /** For instance "Cn0", the usual end of a signed manifest: a line feed and a closing brace. */
  lemma UsualTail(s: string)
    requires |s| == 3 && s[0] == 'C' && s[1] == 'n' && s[2] == '0'
    ensures JoseDecode(s) == Ok([10, 125])
  {
    var v: seq<sextet> := [2, 39, 52];
    ShortGroup(v, [10, 125]);
    DecodesTo(v, s, [10, 125]);
  }

  // ---- Other characters ---------------------------------------------------------------------

  lemma {:induction false} DropConcat(s: string, t: string, u: string)
    requires u == s + t
    ensures DropLineBreaks(u) == DropLineBreaks(s) + DropLineBreaks(t)
  {
    if s == "" {
      assert u == t;
    } else {
      assert u[1..] == s[1..] + t;
      DropConcat(s[1..], t, u[1..]);
    }
  }

  lemma {:induction false} DropKeeps(s: string, c: char)
    ensures c in DropLineBreaks(s) <==> c in s && c != '\r' && c != '\n'
  {
    if s != "" {
      DropKeeps(s[1..], c);
      assert s == [s[0]] + s[1..];
    }
  }

  /** A character that is neither a letter nor padding nor a line break is refused. */
  lemma OthersAreRefused(a: string, s: string, c: char)
    requires a == "ABCDEFGHIJKLMNOPQRSTUVWXYZ" + "abcdefghijklmnopqrstuvwxyz" + "0123456789" + "-_"
    requires c in s && c !in a && c != '=' && c != '\r' && c != '\n'
    ensures JoseDecode(s) == Err
  {
    AlphabetOrder(a);
    OtherIsRefused(s + Filler(|s| % 4), c);
  }

  lemma OtherIsRefused(s: string, c: char)
    requires c in s && !InAlphabet(c) && c != '=' && c != '\r' && c != '\n'
    ensures DecodeString(s) == Err
  {
    DropKeeps(s, c);
    OtherInBody(DropLineBreaks(s), c);
  }

  lemma OtherInBody(t: string, c: char)
    requires c in t && !InAlphabet(c) && c != '='
    ensures !Text(t[..|t| - Padding(t)])
  {
    var i :| 0 <= i < |t| && t[i] == c;
    var body := t[..|t| - Padding(t)];
    assert i < |body| && body[i] == c;
  }

  /** Padding that is already there makes no difference. */
  lemma PaddedAlready(s: string, pad: string)
    requires Text(s) && (pad == "=" || pad == "==") && (|s| + |pad|) % 4 == 0
    ensures JoseDecode(s + pad) == JoseDecode(s)
  {
    assert s + pad + "" == s + pad;
    assert pad == Filler(|s| % 4);
  }

  lemma SameWithoutBreaks(s: string, t: string)
    requires |s| % 4 == |t| % 4 && DropLineBreaks(s) == DropLineBreaks(t)
    ensures JoseDecode(s) == JoseDecode(t)
  {
    DropConcat(s, Filler(|s| % 4), s + Filler(|s| % 4));
    DropConcat(t, Filler(|s| % 4), t + Filler(|s| % 4));
  }

  /** Line breaks are skipped; only their effect on the length counts. */
  lemma LineBreaksAreSkipped(s: string, breaks: string, t: string)
    requires forall c :: c in breaks ==> c == '\r' || c == '\n'
    requires |breaks| % 4 == 0
    ensures JoseDecode(s + breaks + t) == JoseDecode(s + t)
  {
    SkipsBreaks(s, breaks, t);
    SameWithoutBreaks(s + breaks + t, s + t);
  }

  lemma SkipsBreaks(s: string, breaks: string, t: string)
    requires forall c :: c in breaks ==> c == '\r' || c == '\n'
    ensures DropLineBreaks(s + breaks + t) == DropLineBreaks(s + t)
  {
    DropConcat(s + breaks, t, s + breaks + t);
    DropConcat(s, breaks, s + breaks);
    DropConcat(s, t, s + t);
    if DropLineBreaks(breaks) != "" {
      var c := DropLineBreaks(breaks)[0];
      DropKeeps(breaks, c);
      assert false;
    }
    assert DropLineBreaks(s) + "" == DropLineBreaks(s);
  }
}
