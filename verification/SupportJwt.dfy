/** Tokens for the support: base64url without padding and the three-part compact form. */
module SupportJwt {
  import opened Options
  import Text

  type Byte = n: int | 0 <= n < 256
  type Sextet = n: int | 0 <= n < 64

  // Table 1 of RFC 4648, and back.

  function Letter(n: Sextet): char {
    if n < 26 then ('A' as int + n) as char
    else if n < 52 then ('a' as int + n - 26) as char
    else if n < 62 then ('0' as int + n - 52) as char
    else if n == 62 then '+'
    else '/'
  }

  function ValueOf(c: char): Option<Sextet> {
    if 'A' <= c <= 'Z' then Some(c as int - 'A' as int)
    else if 'a' <= c <= 'z' then Some(c as int - 'a' as int + 26)
    else if '0' <= c <= '9' then Some(c as int - '0' as int + 52)
    else if c == '+' then Some(62)
    else if c == '/' then Some(63)
    else None
  }

  lemma LetterHasValue(n: Sextet)
    ensures ValueOf(Letter(n)) == Some(n) && IsLetter(Letter(n))
  {
  }

  function First(a: Byte): Sextet { a / 4 }
  function Second(a: Byte, b: Byte): Sextet { a % 4 * 16 + b / 16 }
  function Third(b: Byte, c: Byte): Sextet { b % 16 * 4 + c / 64 }
  function Fourth(c: Byte): Sextet { c % 64 }

  // Four letters for up to three bytes, section 4 of RFC 4648.
  function Quad(group: seq<Byte>): string
    requires 1 <= |group| <= 3
  {
    var a, b, c := group[0], if |group| > 1 then group[1] else 0, if |group| > 2 then group[2] else 0;
    [Letter(First(a)), Letter(Second(a, b)), if |group| > 1 then Letter(Third(b, c)) else '=',
     if |group| > 2 then Letter(Fourth(c)) else '=']
  }

  function Base64(bytes: seq<Byte>): string {
    if bytes == [] then ""
    else if |bytes| <= 3 then Quad(bytes)
    else Quad(bytes[..3]) + Base64(bytes[3..])
  }

  // /=+$/ removed
  function StripPadding(s: string): string {
    if s != "" && s[|s| - 1] == '=' then StripPadding(s[..|s| - 1]) else s
  }

  function Replace(s: string, from: char, to: char): string {
    seq(|s|, i requires 0 <= i < |s| => if s[i] == from then to else s[i])
  }

  function Base64Url(bytes: seq<Byte>): string {
    Replace(Replace(StripPadding(Base64(bytes)), '+', '-'), '/', '_')
  }

  // Appendix C of RFC 7515: the letters back, the padding back, then base64 decoding.

  function Pad(s: string): Option<string> {
    if |s| % 4 == 0 then Some(s)
    else if |s| % 4 == 2 then Some(s + "==")
    else if |s| % 4 == 3 then Some(s + "=")
    else None
  }

  function DecodeQuad(s: string): Option<seq<Byte>>
    requires |s| == 4
  {
    var (v, w) := (ValueOf(s[0]), ValueOf(s[1]));
    var (x, y) := (ValueOf(s[2]), ValueOf(s[3]));
    if v.None? || w.None? then None
    else
      var a: Byte := v.value as int * 4 + w.value as int / 16;
      if s[2] == '=' && s[3] == '=' then Some([a])
      else if x.None? then None
      else
        var b: Byte := w.value as int % 16 * 16 + x.value as int / 4;
        if s[3] == '=' then Some([a, b])
        else if y.None? then None
        else
          var c: Byte := x.value as int % 4 * 64 + y.value as int;
          Some([a, b, c])
  }

  // Only the last group may be padded.
  function Decode(s: string): Option<seq<Byte>> {
    if s == "" then Some([])
    else if |s| < 4 then None
    else if |s| == 4 then DecodeQuad(s)
    else
      var group, rest := DecodeQuad(s[..4]), Decode(s[4..]);
      if group.None? || rest.None? || |group.value| < 3 then None else Some(group.value + rest.value)
  }

  function DecodeUrl(s: string): Option<seq<Byte>> {
    var padded := Pad(Replace(Replace(s, '-', '+'), '_', '/'));
    if padded.None? then None else Decode(padded.value)
  }

  lemma QuadDecodes(group: seq<Byte>)
    requires 1 <= |group| <= 3
    ensures DecodeQuad(Quad(group)) == Some(group)
  {
    var a, b, c := group[0], if |group| > 1 then group[1] else 0, if |group| > 2 then group[2] else 0;
    LetterHasValue(First(a));
    LetterHasValue(Second(a, b));
    LetterHasValue(Third(b, c));
    LetterHasValue(Fourth(c));
    SextetsJoin(a, b, c);
    assert group == if |group| == 1 then [a] else if |group| == 2 then [a, b] else [a, b, c];
  }

  lemma SextetsJoin(a: Byte, b: Byte, c: Byte)
    ensures First(a) as int * 4 + Second(a, b) as int / 16 == a
    ensures Second(a, b) as int % 16 * 16 + Third(b, c) as int / 4 == b
    ensures Third(b, c) as int % 4 * 64 + Fourth(c) as int == c
  {
  }

  lemma {:induction false} Base64Decodes(bytes: seq<Byte>)
    ensures Decode(Base64(bytes)) == Some(bytes) && (bytes != [] ==> |Base64(bytes)| >= 4)
    decreases |bytes|
  {
    if bytes != [] && |bytes| <= 3 {
      QuadDecodes(bytes);
    } else if bytes != [] {
      QuadDecodes(bytes[..3]);
      Base64Decodes(bytes[3..]);
      var s := Base64(bytes);
      assert s[..4] == Quad(bytes[..3]) && s[4..] == Base64(bytes[3..]);
      assert bytes == bytes[..3] + bytes[3..];
    }
  }

  lemma UnusedBits(a: Byte, b: Byte)
    ensures Second(a, 0) as int % 16 == 0 && Third(b, 0) as int % 4 == 0
  {
  }

  // The bits of a last group that no byte fills.
  predicate FilledWithZeros(s: string, n: nat)
    requires |s| >= 4
  {
    && (n % 3 == 1 ==> s[|s| - 1] == s[|s| - 2] == '=' && ValueOf(s[|s| - 3]).Some? && ValueOf(s[|s| - 3]).value as int % 16 == 0)
    && (n % 3 == 2 ==> s[|s| - 1] == '=' && ValueOf(s[|s| - 2]).Some? && ValueOf(s[|s| - 2]).value as int % 4 == 0)
  }

  lemma QuadFilled(group: seq<Byte>)
    requires 1 <= |group| <= 3
    ensures FilledWithZeros(Quad(group), |group|)
  {
    var quad := Quad(group);
    if |group| == 1 {
      UnusedBits(group[0], 0);
      LetterHasValue(Second(group[0], 0));
      assert quad[|quad| - 3] == Letter(Second(group[0], 0));
    } else if |group| == 2 {
      UnusedBits(0, group[1]);
      LetterHasValue(Third(group[1], 0));
      assert quad[|quad| - 2] == Letter(Third(group[1], 0));
    }
  }

  lemma FilledBehind(quad: string, s: string, n: nat)
    requires |quad| == 4 && |s| >= 4 && FilledWithZeros(s, n)
    ensures FilledWithZeros(quad + s, n + 3)
  {
    var t := quad + s;
    assert t[|t| - 1] == s[|s| - 1] && t[|t| - 2] == s[|s| - 2] && t[|t| - 3] == s[|s| - 3];
  }

  /** The bits that no byte fills are zero: four of them in the second letter of a last group of one byte, two in the third
      letter of a last group of two bytes. */
  lemma {:induction false} UnusedBitsAreZero(bytes: seq<Byte>)
    requires bytes != []
    ensures |Base64(bytes)| >= 4 && FilledWithZeros(Base64(bytes), |bytes|)
    decreases |bytes|
  {
    if |bytes| <= 3 {
      QuadFilled(bytes);
    } else {
      UnusedBitsAreZero(bytes[3..]);
      FilledBehind(Quad(bytes[..3]), Base64(bytes[3..]), |bytes[3..]|);
    }
  }

  // The examples of section 10 of RFC 4648, and one for the letters that are replaced.
  lemma StandardExamples()
    ensures Base64([102]) == "Zg==" && Base64([102, 111]) == "Zm8=" && Base64([102, 111, 111]) == "Zm9v"
    ensures Base64([255, 239]) == "/+8=" && Base64Url([255, 239]) == "_-8"
  {
    assert StripPadding("/+8") == "/+8" && "/+8="[..3] == "/+8";
    assert Replace("/+8", '+', '-') == "/-8" && Replace("/-8", '/', '_') == "_-8";
  }

  predicate IsLetter(c: char) {
    ValueOf(c).Some? && c != '-' && c != '_' && c != '.' && c != '='
  }

  predicate IsPadded(s: string, letters: string, padding: string) {
    && s == letters + padding && |s| % 4 == 0
    && (forall i :: 0 <= i < |letters| ==> IsLetter(letters[i]))
    && padding in {"", "=", "=="}
  }

  lemma QuadShape(group: seq<Byte>)
    requires 1 <= |group| <= 3
    ensures IsPadded(Quad(group), Quad(group)[..|group| + 1], if |group| == 1 then "==" else if |group| == 2 then "=" else "")
  {
    var a, quad := group[0], Quad(group);
    LetterHasValue(First(a));
    if |group| == 1 {
      LetterHasValue(Second(a, 0));
      assert quad == quad[..2] + "==";
    } else if |group| == 2 {
      LetterHasValue(Second(a, group[1]));
      LetterHasValue(Third(group[1], 0));
      assert quad == quad[..3] + "=";
    } else {
      LetterHasValue(Second(a, group[1]));
      LetterHasValue(Third(group[1], group[2]));
      LetterHasValue(Fourth(group[2]));
      assert quad == quad[..4] + "";
    }
  }

  lemma PaddedAfterQuad(quad: string, s: string, letters: string, padding: string)
    requires IsPadded(quad, quad, "") && |quad| == 4 && IsPadded(s, letters, padding)
    ensures IsPadded(quad + s, quad + letters, padding)
  {
    assert quad + s == quad + letters + padding;
  }

  // Letters, followed by the padding that makes the length a multiple of four.
  lemma {:induction false} Base64Shape(bytes: seq<Byte>) returns (letters: string, padding: string)
    ensures IsPadded(Base64(bytes), letters, padding)
    decreases |bytes|
  {
    if bytes == [] {
      letters, padding := "", "";
    } else if |bytes| <= 3 {
      QuadShape(bytes);
      letters := Quad(bytes)[..|bytes| + 1];
      padding := if |bytes| == 1 then "==" else if |bytes| == 2 then "=" else "";
    } else {
      QuadShape(bytes[..3]);
      letters, padding := Base64Shape(bytes[3..]);
      var quad := Quad(bytes[..3]);
      assert quad[..4] == quad;
      PaddedAfterQuad(quad, Base64(bytes[3..]), letters, padding);
      letters := quad + letters;
    }
  }

  lemma LettersAreNotStripped(letters: string)
    requires forall i :: 0 <= i < |letters| ==> IsLetter(letters[i])
    ensures StripPadding(letters) == letters
  {
    assert letters != "" ==> IsLetter(letters[|letters| - 1]);
  }

  lemma PaddingIsStrippedAndRestored(s: string, letters: string, padding: string)
    requires IsPadded(s, letters, padding)
    ensures StripPadding(s) == letters && Pad(letters) == Some(s)
  {
    LettersAreNotStripped(letters);
    assert |s| == |letters| + |padding|;
    if padding == "" {
      assert s == letters;
    } else {
      assert s[|s| - 1] == '=';
      if padding == "=" {
        assert s[..|s| - 1] == letters;
      } else {
        var t := s[..|s| - 1];
        assert t[|t| - 1] == '=' && t[..|t| - 1] == letters;
      }
    }
  }

  /** The unpadded base64url form decodes back to the bytes it was made from. */
  lemma Base64UrlRoundTrip(bytes: seq<Byte>)
    ensures DecodeUrl(Base64Url(bytes)) == Some(bytes)
  {
    var letters, padding := Base64Shape(bytes);
    PaddingIsStrippedAndRestored(Base64(bytes), letters, padding);
    var back := Replace(Replace(Base64Url(bytes), '-', '+'), '_', '/');
    forall i | 0 <= i < |letters|
      ensures back[i] == letters[i]
    {
      assert IsLetter(letters[i]);
    }
    assert back == letters;
    Base64Decodes(bytes);
  }

  /** It consists of letters, digits, '-' and '_' only; in particular it contains no dot. */
  lemma Base64UrlAlphabet(bytes: seq<Byte>)
    ensures forall c :: c in Base64Url(bytes) ==>
      'A' <= c <= 'Z' || 'a' <= c <= 'z' || '0' <= c <= '9' || c == '-' || c == '_'
  {
    var letters, padding := Base64Shape(bytes);
    PaddingIsStrippedAndRestored(Base64(bytes), letters, padding);
    forall i | 0 <= i < |letters|
      ensures IsLetter(letters[i])
    {
    }
  }

  lemma Base64UrlIsInjective(a: seq<Byte>, b: seq<Byte>)
    requires Base64Url(a) == Base64Url(b)
    ensures a == b
  {
    Base64UrlRoundTrip(a);
    Base64UrlRoundTrip(b);
  }

  function Compact(header: seq<Byte>, payload: seq<Byte>, signature: seq<Byte>): string {
    Base64Url(header) + "." + Base64Url(payload) + "." + Base64Url(signature)
  }

  // A text cut at its dots.
  function Parts(s: string): seq<string> {
    if s == "" then [""]
    else
      var rest := Parts(s[1..]);
      if s[0] == '.' then [""] + rest else if rest == [] then [[s[0]]] else [[s[0]] + rest[0]] + rest[1..]
  }

  lemma {:induction false} PartsOfJoin(a: string, b: string)
    requires '.' !in a
    ensures Parts(a + "." + b) == [a] + Parts(b)
  {
    if a == "" {
      assert a + "." + b == "." + b && ("." + b)[1..] == b;
    } else {
      assert (a + "." + b)[1..] == a[1..] + "." + b;
      PartsOfJoin(a[1..], b);
      assert [a[0]] + a[1..] == a && ([a[1..]] + Parts(b))[1..] == Parts(b);
    }
  }

  lemma {:induction false} PartsOfOne(a: string)
    requires '.' !in a
    ensures Parts(a) == [a]
  {
    if a != "" {
      PartsOfOne(a[1..]);
      assert [a[0]] + a[1..] == a;
    }
  }

  // JWT.create: the third part authenticates the first two as they stand in the token.
  function Create(header: seq<Byte>, payload: seq<Byte>, hmac: string -> seq<Byte>): string {
    var signed := Base64Url(header) + "." + Base64Url(payload);
    Compact(header, payload, hmac(signed))
  }

  lemma ThreeParts(a: string, b: string, c: string)
    requires '.' !in a && '.' !in b && '.' !in c
    ensures Parts(a + "." + b + "." + c) == [a, b, c]
  {
    assert a + "." + b + "." + c == a + "." + (b + "." + c);
    PartsOfJoin(a, b + "." + c);
    PartsOfJoin(b, c);
    PartsOfOne(c);
    assert [a] + ([b] + [c]) == [a, b, c];
  }

  lemma NoDots(bytes: seq<Byte>)
    ensures '.' !in Base64Url(bytes)
  {
    Base64UrlAlphabet(bytes);
  }

  /** What a reader of the token finds: three parts, which decode to the header, the payload, and the authentication code
      of the text in front of the last dot, in this order. */
  lemma TokenReads(header: seq<Byte>, payload: seq<Byte>, hmac: string -> seq<Byte>)
    ensures var parts := Parts(Create(header, payload, hmac));
            && |parts| == 3
            && DecodeUrl(parts[0]) == Some(header) && DecodeUrl(parts[1]) == Some(payload)
            && DecodeUrl(parts[2]) == Some(hmac(parts[0] + "." + parts[1]))
  {
    var code := hmac(Base64Url(header) + "." + Base64Url(payload));
    NoDots(header);
    NoDots(payload);
    NoDots(code);
    ThreeParts(Base64Url(header), Base64Url(payload), Base64Url(code));
    Base64UrlRoundTrip(header);
    Base64UrlRoundTrip(payload);
    Base64UrlRoundTrip(code);
  }

  /** A compact token determines its header, payload and signature. */
  lemma CompactIsInjective(h: seq<Byte>, p: seq<Byte>, s: seq<Byte>, h': seq<Byte>, p': seq<Byte>, s': seq<Byte>)
    requires Compact(h, p, s) == Compact(h', p', s')
    ensures h == h' && p == p' && s == s'
  {
    Base64UrlAlphabet(h);
    Base64UrlAlphabet(h');
    Base64UrlAlphabet(p);
    Base64UrlAlphabet(p');
    TripleSplits(Base64Url(h), Base64Url(p), Base64Url(s), Base64Url(h'), Base64Url(p'), Base64Url(s'));
    Base64UrlIsInjective(h, h');
    Base64UrlIsInjective(p, p');
    Base64UrlIsInjective(s, s');
  }

  lemma TripleSplits(a: string, b: string, c: string, a': string, b': string, c': string)
    requires '.' !in a && '.' !in b && '.' !in a' && '.' !in b'
    requires a + "." + b + "." + c == a' + "." + b' + "." + c'
    ensures a == a' && b == b' && c == c'
  {
    assert a + "." + b + "." + c == a + ['.'] + (b + ['.'] + c);
    assert a' + "." + b' + "." + c' == a' + ['.'] + (b' + ['.'] + c');
    Text.FirstSeparatorSplits('.', a, a', b + ['.'] + c, b' + ['.'] + c');
    Text.FirstSeparatorSplits('.', b, b', c, c');
  }
}
