/**
 * The names under which the settings service files its secrets:
 * `provider-env-<instance>-<variable>` and `usage-limit-source-<source>`, each part being
 * the base64url text (RFC 4648 section 5, without padding) of the UTF-8 bytes of an id.
 */
module SecretNames {
  import Texts

  type Byte = b: int | 0 <= b < 256
  type Sextet = v: int | 0 <= v < 64

  // ---------------------------------------------------------------- UTF-8

  function Utf8Char(c: char): (bytes: seq<Byte>)
  {
    var n := c as int;
    if n < 0x80 then [n]
    else if n < 0x800 then [0xC0 + n / 64, 0x80 + n % 64]
    else if n < 0x10000 then [0xE0 + n / 4096, 0x80 + n / 64 % 64, 0x80 + n % 64]
    else [0xF0 + n / 262144, 0x80 + n / 4096 % 64, 0x80 + n / 64 % 64, 0x80 + n % 64]
  }

  function Utf8(text: string): seq<Byte> {
    if text == "" then [] else Utf8Char(text[0]) + Utf8(text[1..])
  }

  /** What a UTF-8 reader makes of one character's bytes. */
  function Utf8Code(p: seq<int>): int {
    if |p| == 1 then p[0]
    else if |p| == 2 then (p[0] - 0xC0) * 64 + (p[1] - 0x80)
    else if |p| == 3 then (p[0] - 0xE0) * 4096 + (p[1] - 0x80) * 64 + (p[2] - 0x80)
    else if |p| == 4 then
      (p[0] - 0xF0) * 262144 + (p[1] - 0x80) * 4096 + (p[2] - 0x80) * 64 + (p[3] - 0x80)
    else -1
  }

  lemma Radix64(n: nat)
    ensures n == n / 64 * 64 + n % 64
    ensures n / 4096 == n / 64 / 64 && n / 262144 == n / 64 / 64 / 64
  {
  }

  lemma {:induction false} Utf8CharRoundTrip(c: char)
    ensures Utf8Code(Utf8Char(c)) == c as int
  {
    var n := c as int;
    Radix64(n);
    Radix64(n / 64);
    Radix64(n / 4096);
  }

  /** The first byte alone tells how many bytes the character takes. */
  function LeadLength(b: Byte): nat {
    if b < 0xC0 then 1 else if b < 0xE0 then 2 else if b < 0xF0 then 3 else 4
  }

  lemma Utf8CharLength(c: char)
    ensures |Utf8Char(c)| == LeadLength(Utf8Char(c)[0])
  {
  }

  /** No character's bytes start another's. */
  lemma Utf8CharPrefixFree(a: char, b: char, x: seq<Byte>, y: seq<Byte>)
    requires Utf8Char(a) + x == Utf8Char(b) + y
    ensures a == b && x == y
  {
    var p, q := Utf8Char(a), Utf8Char(b);
    Utf8CharLength(a);
    Utf8CharLength(b);
    assert p[0] == (p + x)[0] == (q + y)[0] == q[0];
    assert p == (p + x)[..|p|] == (q + y)[..|q|] == q;
    assert x == (p + x)[|p|..] == (q + y)[|q|..] == y;
    Utf8CharRoundTrip(a);
    Utf8CharRoundTrip(b);
  }

  lemma {:induction false} Utf8Injective(s: string, t: string)
    requires Utf8(s) == Utf8(t)
    ensures s == t
  {
    if s != "" && t != "" {
      Utf8CharPrefixFree(s[0], t[0], Utf8(s[1..]), Utf8(t[1..]));
      Utf8Injective(s[1..], t[1..]);
    }
  }

  // ---------------------------------------------------------------- base64url

  function Sextets(bytes: seq<Byte>): (v: seq<Sextet>) {
    if |bytes| == 0 then []
    else if |bytes| == 1 then [bytes[0] / 4, bytes[0] % 4 * 16]
    else if |bytes| == 2 then [bytes[0] / 4, bytes[0] % 4 * 16 + bytes[1] / 16, bytes[1] % 16 * 4]
    else
      [bytes[0] / 4, bytes[0] % 4 * 16 + bytes[1] / 16, bytes[1] % 16 * 4 + bytes[2] / 64, bytes[2] % 64]
      + Sextets(bytes[3..])
  }

  /** What a base64 reader does; the inverse that makes the encoding injective. */
  function Bytes(v: seq<Sextet>): seq<int> {
    if |v| < 2 then []
    else if |v| == 2 then [v[0] * 4 + v[1] / 16]
    else if |v| == 3 then [v[0] * 4 + v[1] / 16, v[1] % 16 * 16 + v[2] / 4]
    else [v[0] * 4 + v[1] / 16, v[1] % 16 * 16 + v[2] / 4, v[2] % 4 * 64 + v[3]] + Bytes(v[4..])
  }

  lemma {:induction false} SextetsRoundTrip(bytes: seq<Byte>)
    ensures Bytes(Sextets(bytes)) == bytes
  {
    if |bytes| >= 3 {
      var v := Sextets(bytes);
      assert v[4..] == Sextets(bytes[3..]);
      SextetsRoundTrip(bytes[3..]);
    }
  }

  function Digit(v: Sextet): char {
    if v < 26 then ('A' as int + v) as char
    else if v < 52 then ('a' as int + (v - 26)) as char
    else if v < 62 then ('0' as int + (v - 52)) as char
    else if v == 62 then '-' else '_'
  }

  lemma DigitInjective(v: Sextet, w: Sextet)
    requires Digit(v) == Digit(w)
    ensures v == w
  {
    assert Digit(v) as int == Digit(w) as int;
  }

  function Digits(v: seq<Sextet>): (text: string)
    ensures |text| == |v| && forall i :: 0 <= i < |v| ==> text[i] == Digit(v[i])
  {
    seq(|v|, i requires 0 <= i < |v| => Digit(v[i]))
  }

  function Base64Url(text: string): string {
    Digits(Sextets(Utf8(text)))
  }

  lemma Base64UrlInjective(s: string, t: string)
    requires Base64Url(s) == Base64Url(t)
    ensures s == t
  {
    var v, w := Sextets(Utf8(s)), Sextets(Utf8(t));
    forall i | 0 <= i < |v| ensures v[i] == w[i] {
      assert Digits(v)[i] == Digits(w)[i];
      DigitInjective(v[i], w[i]);
    }
    assert v == w;
    SextetsRoundTrip(Utf8(s));
    SextetsRoundTrip(Utf8(t));
    Utf8Injective(s, t);
  }

  // ---------------------------------------------------------------- where '-' comes from

  /** Positions whose low six bits are emitted alone: every third byte. */
  predicate DashByte(bytes: seq<Byte>, i: nat) {
    i < |bytes| && i % 3 == 2 && bytes[i] % 64 == 62
  }

  predicate Ascii(bytes: seq<Byte>) {
    forall i :: 0 <= i < |bytes| ==> bytes[i] < 128
  }

  /** For ASCII bytes the digit 62 appears exactly where a third byte is '>' or '~'. */
  lemma {:induction false} DashDigits(bytes: seq<Byte>)
    requires Ascii(bytes)
    ensures 62 in Sextets(bytes) <==> exists i: nat :: DashByte(bytes, i)
  {
    if |bytes| >= 3 {
      var rest := bytes[3..];
      DashDigits(rest);
      if i: nat :| DashByte(rest, i) {
        assert DashByte(bytes, i + 3);
      }
      if i: nat :| DashByte(bytes, i) && i >= 3 {
        assert DashByte(rest, i - 3);
      }
      if bytes[2] % 64 == 62 {
        assert DashByte(bytes, 2);
        assert Sextets(bytes)[3] == 62;
      }
      if 62 in Sextets(rest) {
        var k :| 0 <= k < |Sextets(rest)| && Sextets(rest)[k] == 62;
        assert Sextets(bytes)[k + 4] == 62;
      }
    }
  }

  predicate AsciiText(text: string) {
    forall i :: 0 <= i < |text| ==> text[i] as int < 128
  }

  lemma {:induction false} AsciiBytes(text: string)
    requires AsciiText(text)
    ensures |Utf8(text)| == |text| && forall i :: 0 <= i < |text| ==> Utf8(text)[i] == text[i] as int
  {
    if text != "" {
      AsciiBytes(text[1..]);
    }
  }

  /**
   * The exact condition under which the base64url text of an ASCII id contains the
   * separator: some character at an index congruent to 2 modulo 3 is '>' or '~'.
   */
  lemma DashExactly(text: string)
    requires AsciiText(text)
    ensures '-' in Base64Url(text)
            <==> exists i: nat :: i < |text| && i % 3 == 2 && (text[i] == '>' || text[i] == '~')
  {
    DashDigitsOf(text);
    if i: nat :| DashByte(Utf8(text), i) {
      DashChar(text, i);
    }
    if i: nat :| i < |text| && i % 3 == 2 && (text[i] == '>' || text[i] == '~') {
      DashChar(text, i);
    }
  }

  lemma DashDigitsOf(text: string)
    requires AsciiText(text)
    ensures '-' in Base64Url(text) <==> exists i: nat :: DashByte(Utf8(text), i)
  {
    AsciiBytes(text);
    DashDigits(Utf8(text));
    DashOfSextets(Sextets(Utf8(text)));
  }

  lemma {:induction false} DashChar(text: string, i: nat)
    requires AsciiText(text)
    ensures DashByte(Utf8(text), i) <==> i < |text| && i % 3 == 2 && (text[i] == '>' || text[i] == '~')
  {
    AsciiBytes(text);
    if i < |text| {
      MarkChar(text[i]);
    }
  }

  lemma MarkChar(c: char)
    requires c as int < 128
    ensures c as int % 64 == 62 <==> c == '>' || c == '~'
  {
  }

  lemma DashOfSextets(v: seq<Sextet>)
    ensures '-' in Digits(v) <==> 62 in v
  {
    if '-' in Digits(v) {
      var k :| 0 <= k < |v| && Digits(v)[k] == '-';
      DigitInjective(v[k], 62);
    }
    if 62 in v {
      var k :| 0 <= k < |v| && v[k] == 62;
      assert Digits(v)[k] == '-';
    }
  }

  // ---------------------------------------------------------------- names

  predicate SlugChar(c: char) {
    'a' <= c <= 'z' || 'A' <= c <= 'Z' || '0' <= c <= '9' || c == '_' || c == '-'
  }

  /** Instance ids are slugs: letters, digits, '_' and '-'. */
  predicate Slug(id: string) {
    forall i :: 0 <= i < |id| ==> SlugChar(id[i])
  }

  lemma SlugHasNoDash(id: string)
    requires Slug(id)
    ensures '-' !in Base64Url(id)
  {
    assert AsciiText(id);
    DashExactly(id);
    forall i: nat | i < |id| ensures id[i] != '>' && id[i] != '~' {
      assert SlugChar(id[i]);
    }
  }

  const ENV_PREFIX := "provider-env-"
  const SOURCE_PREFIX := "usage-limit-source-"

  function EnvName(instanceId: string, variable: string): string {
    ENV_PREFIX + Base64Url(instanceId) + "-" + Base64Url(variable)
  }

  function SourceName(sourceId: string): string {
    SOURCE_PREFIX + Base64Url(sourceId)
  }

  lemma SplitAtDash(a: string, b: string, x: string, y: string)
    requires '-' !in a && '-' !in b
    requires a + "-" + x == b + "-" + y
    ensures a == b && x == y
  {
    var s, t := a + "-" + x, b + "-" + y;
    assert s[|a|] == '-' && t[|b|] == '-';
    assert forall i :: 0 <= i < |a| ==> s[i] == a[i];
    assert forall i :: 0 <= i < |b| ==> t[i] == b[i];
    assert a == s[..|a|] == t[..|b|] == b;
    assert x == s[|a| + 1..] == t[|b| + 1..] == y;
  }

  lemma SplitAfterPrefix(p: string, a: string, b: string, x: string, y: string)
    requires '-' !in a && '-' !in b && p + a + "-" + x == p + b + "-" + y
    ensures a == b && x == y
  {
    var s, t := p + a + "-" + x, p + b + "-" + y;
    assert s[|p|..] == a + "-" + x && t[|p|..] == b + "-" + y;
    SplitAtDash(a, b, x, y);
  }

  /** Two slug instances never share a secret name, whatever their variables are called. */
  lemma EnvNameInjective(id1: string, name1: string, id2: string, name2: string)
    requires Slug(id1) && Slug(id2)
    requires EnvName(id1, name1) == EnvName(id2, name2)
    ensures id1 == id2 && name1 == name2
  {
    SlugHasNoDash(id1);
    SlugHasNoDash(id2);
    SplitAfterPrefix(ENV_PREFIX, Base64Url(id1), Base64Url(id2), Base64Url(name1), Base64Url(name2));
    Base64UrlInjective(id1, id2);
    Base64UrlInjective(name1, name2);
  }

  /** Source ids are arbitrary text; their names are still distinct. */
  lemma SourceNameInjective(s: string, t: string)
    requires SourceName(s) == SourceName(t)
    ensures s == t
  {
    var p := |SOURCE_PREFIX|;
    assert SourceName(s)[p..] == Base64Url(s) && SourceName(t)[p..] == Base64Url(t);
    Base64UrlInjective(s, t);
  }

  lemma FamiliesDisjoint(id: string, name: string, sourceId: string)
    ensures EnvName(id, name) != SourceName(sourceId)
  {
    assert EnvName(id, name)[0] == 'p' && SourceName(sourceId)[0] == 'u';
  }

  // ---------------------------------------------------------------- when names would collide

  /** Groups of three bytes are encoded one by one. */
  lemma SextetsGroup(s: seq<Byte>)
    requires |s| >= 3
    ensures Sextets(s) == Sextets(s[..3]) + Sextets(s[3..]) && |Sextets(s[..3])| == 4
  {
    assert s[..3][3..] == [];
  }

  lemma SpliceOne(p: seq<Byte>, q: seq<Byte>)
    requires |p| == 2
    ensures Sextets(p + [62] + q) == Sextets(p) + [62] + Sextets(q)
  {
    var s := p + [62] + q;
    SextetsGroup(s);
    assert s[..3] == p + [62] && s[3..] == q;
    MarkGroup(p);
  }

  lemma {:induction false} MarkGroup(p: seq<Byte>)
    requires |p| == 2
    ensures Sextets(p + [62]) == Sextets(p) + [62]
  {
    var s := p + [62];
    SextetsHead(s);
    assert s[3..] == [] && s[0] == p[0] && s[1] == p[1] && s[2] == 62;
    var v, w := Sextets(s), Sextets(p) + [62];
    assert |v| == 4 && |w| == 4;
    assert v[2] == p[1] % 16 * 4 == w[2] && v[3] == 62 == w[3];
    assert v[0] == w[0] && v[1] == w[1];
  }

  /** Across a '>' that ends a group, the encoding falls apart at a separator. */
  lemma {:induction false} SextetsSplice(p: seq<Byte>, q: seq<Byte>)
    requires |p| % 3 == 2
    ensures Sextets(p + [62] + q) == Sextets(p) + [62] + Sextets(q)
    decreases |p|
  {
    if |p| == 2 {
      SpliceOne(p, q);
    } else {
      var s := p + [62] + q;
      SextetsGroup(s);
      SextetsGroup(p);
      assert s[..3] == p[..3] && s[3..] == p[3..] + [62] + q;
      SextetsSplice(p[3..], q);
      Associate(Sextets(p[..3]), Sextets(p[3..]), Sextets(q));
    }
  }

  lemma Associate(a: seq<Sextet>, b: seq<Sextet>, c: seq<Sextet>)
    ensures a + (b + [62] + c) == a + b + [62] + c
  {
  }

  lemma {:induction false} Utf8Concat(s: string, t: string)
    ensures Utf8(s + t) == Utf8(s) + Utf8(t)
  {
    if s == "" {
      assert s + t == t;
    } else {
      assert (s + t)[1..] == s[1..] + t;
      Utf8Concat(s[1..], t);
    }
  }

  lemma DigitsConcat(v: seq<Sextet>, w: seq<Sextet>)
    ensures Digits(v + [62] + w) == Digits(v) + "-" + Digits(w)
  {
  }

  lemma Base64UrlSplice(a: string, w: string)
    requires AsciiText(a) && |a| % 3 == 2
    ensures Base64Url(a + ">" + w) == Base64Url(a) + "-" + Base64Url(w)
  {
    AsciiBytes(a);
    AsciiBytes(">");
    Utf8Concat(a + ">", w);
    Utf8Concat(a, ">");
    assert Utf8(">") == [62];
    SextetsSplice(Utf8(a), Utf8(w));
    DigitsConcat(Sextets(Utf8(a)), Sextets(Utf8(w)));
  }

  /** What UTF-8 rules out: bytes from 248 up, and a continuation byte after an ASCII one. */
  predicate Textual(bytes: seq<Byte>) {
    && (forall i :: 0 <= i < |bytes| ==> bytes[i] < 248)
    && (forall i :: 0 < i < |bytes| && bytes[i - 1] < 128 ==> bytes[i] < 128 || bytes[i] >= 192)
  }

  predicate Starts(bytes: seq<Byte>) {
    bytes == [] || bytes[0] < 128 || bytes[0] >= 192
  }

  lemma CharIsTextual(c: char)
    ensures Textual(Utf8Char(c)) && Starts(Utf8Char(c))
  {
  }

  lemma TextualConcat(a: seq<Byte>, b: seq<Byte>)
    requires Textual(a) && Textual(b) && Starts(b)
    ensures Textual(a + b)
  {
    var c := a + b;
    forall i | 0 < i < |c| && c[i - 1] < 128 ensures c[i] < 128 || c[i] >= 192 {
      if i < |a| {
        assert c[i - 1] == a[i - 1] && c[i] == a[i];
      } else if i > |a| {
        assert c[i - 1] == b[i - 1 - |a|] && c[i] == b[i - |a|];
      } else {
        assert c[i] == b[0];
      }
    }
  }

  lemma {:induction false} Utf8IsTextual(text: string)
    ensures Textual(Utf8(text)) && Starts(Utf8(text))
  {
    if text != "" {
      CharIsTextual(text[0]);
      Utf8IsTextual(text[1..]);
      TextualConcat(Utf8Char(text[0]), Utf8(text[1..]));
    }
  }

  lemma TextualTail(q: seq<Byte>, k: nat)
    requires Textual(q) && k <= |q|
    ensures Textual(q[k..])
  {
    var t := q[k..];
    forall i | 0 < i < |t| && t[i - 1] < 128 ensures t[i] < 128 || t[i] >= 192 {
      assert t[i - 1] == q[k + i - 1] && t[i] == q[k + i];
    }
  }

  lemma SextetsHead(q: seq<Byte>)
    requires |q| >= 3
    ensures var v := Sextets(q);
            && |v| >= 4 && v[0] == q[0] / 4 && v[1] == q[0] % 4 * 16 + q[1] / 16
            && v[2] == q[1] % 16 * 4 + q[2] / 64 && v[3] == q[2] % 64
            && v[4..] == Sextets(q[3..])
  {
  }

  /** The first group can be read back from its four digits. */
  lemma HeadBytes(q: seq<Byte>)
    requires |q| >= 3
    ensures |Sextets(q)| >= 4 && q[..3] == Bytes(Sextets(q)[..4])
  {
    SextetsHead(q);
    SextetsRoundTrip(q);
    HeadOfBytes(Sextets(q));
    assert Bytes(Sextets(q))[..3] == q[..3];
  }

  lemma HeadOfBytes(v: seq<Sextet>)
    requires |v| >= 4
    ensures |Bytes(v)| >= 3 && Bytes(v)[..3] == Bytes(v[..4])
  {
    var u := v[..4];
    assert u[4..] == [] && u[0] == v[0] && u[1] == v[1] && u[2] == v[2] && u[3] == v[3];
    assert |Bytes(u)| == 3;
    assert Bytes(u)[0] == Bytes(v)[0] && Bytes(u)[1] == Bytes(v)[1] && Bytes(u)[2] == Bytes(v)[2];
  }

  /** A whole first group of `p` is a first group of `q`. */
  lemma {:induction false} FirstGroup(p: seq<Byte>, q: seq<Byte>, rest: seq<Sextet>)
    requires |p| >= 3 && Sextets(q) == Sextets(p) + [62] + rest
    ensures |q| >= 3 && q[..3] == p[..3] && Sextets(q[3..]) == Sextets(p[3..]) + [62] + rest
  {
    HeadBytes(p);
    SamePrefix(Sextets(q), Sextets(p), rest);
    LongEnough(q);
    HeadBytes(q);
    SextetsTail(p);
    SextetsTail(q);
  }

  lemma LongEnough(q: seq<Byte>)
    ensures |Sextets(q)| > 3 ==> |q| >= 3
    ensures |Sextets(q)| > 2 ==> |q| >= 2
    ensures |Sextets(q)| > 0 ==> |q| >= 1
  {
  }

  lemma SamePrefix(v: seq<Sextet>, w: seq<Sextet>, rest: seq<Sextet>)
    requires |w| >= 4 && v == w + [62] + rest
    ensures |v| > 4 && v[..4] == w[..4] && v[4..] == w[4..] + [62] + rest
  {
  }

  lemma SextetsTail(q: seq<Byte>)
    requires |q| >= 3
    ensures |Sextets(q)| >= 4 && Sextets(q)[4..] == Sextets(q[3..])
  {
  }

  /**
   * A text's encoding continues another's after a separator only across a '>' that ends a
   * group, and what follows the separator is then the encoding of the rest.
   */
  lemma {:induction false} SextetsSplit(p: seq<Byte>, q: seq<Byte>, rest: seq<Sextet>) returns (w: seq<Byte>)
    requires Textual(q) && Sextets(q) == Sextets(p) + [62] + rest
    ensures EndsInTwo(p) && q == p + [62] + w && Sextets(w) == rest
    decreases |p|
  {
    if |p| >= 3 {
      var p', q' := p[3..], q[3..];
      FirstGroup(p, q, rest);
      TextualTail(q, 3);
      w := SextetsSplit(p', q', rest);
      Reassemble(p, q, p', q', w);
    } else {
      w := LastGroup(p, q, rest);
    }
  }

  /** The last, incomplete group has two bytes. */
  predicate EndsInTwo(p: seq<Byte>) {
    if |p| >= 3 then EndsInTwo(p[3..]) else |p| == 2
  }

  lemma {:induction false} EndsInTwoLength(p: seq<Byte>)
    ensures EndsInTwo(p) <==> |p| % 3 == 2
  {
    if |p| >= 3 {
      EndsInTwoLength(p[3..]);
    }
  }

  lemma Reassemble(p: seq<Byte>, q: seq<Byte>, p': seq<Byte>, q': seq<Byte>, w: seq<Byte>)
    requires |p| >= 3 && |q| >= 3 && q[..3] == p[..3] && p' == p[3..] && q' == q[3..]
    requires q' == p' + [62] + w && EndsInTwo(p')
    ensures q == p + [62] + w && EndsInTwo(p)
  {
    assert q == q[..3] + q';
    assert p == p[..3] + p';
  }

  lemma {:induction false} LastGroup(p: seq<Byte>, q: seq<Byte>, rest: seq<Sextet>) returns (w: seq<Byte>)
    requires |p| < 3 && Textual(q) && Sextets(q) == Sextets(p) + [62] + rest
    ensures |p| == 2 && q == p + [62] + w && Sextets(w) == rest
  {
    LongEnough(q);
    if |p| == 0 {
      assert Sextets(q)[0] == 62;
      NoLead(q);
    } else if |p| == 1 {
      assert Sextets(q)[1] == p[0] % 4 * 16 && Sextets(q)[2] == 62;
      NoSecond(q, p[0] % 4);
    } else {
      w := HalfGroup(p, q, rest);
    }
  }

  lemma HalfGroup(p: seq<Byte>, q: seq<Byte>, rest: seq<Sextet>) returns (w: seq<Byte>)
    requires |p| == 2 && |q| >= 3 && Sextets(q) == Sextets(p) + [62] + rest
    ensures q == p + [62] + w && Sextets(w) == rest
  {
    var v := Sextets(q);
    assert v[0] == p[0] / 4 && v[1] == p[0] % 4 * 16 + p[1] / 16 && v[2] == p[1] % 16 * 4 && v[3] == 62;
    SextetsHead(q);
    ThirdIsMark(q[0], q[1], q[2], p[0], p[1]);
    w := q[3..];
    assert v[4..] == rest;
    assert q == [q[0], q[1], q[2]] + w && p == [p[0], p[1]];
  }

  lemma NoLead(q: seq<Byte>)
    requires Textual(q) && q != []
    ensures Sextets(q)[0] != 62
  {
    assert q[0] < 248;
  }

  lemma NoSecond(q: seq<Byte>, low: nat)
    requires Textual(q) && |q| >= 2 && |Sextets(q)| > 2 && low < 4
    ensures !(Sextets(q)[1] == low * 16 && Sextets(q)[2] == 62)
  {
    var v := Sextets(q);
    if |q| >= 3 {
      SextetsHead(q);
      NoMark(q[0], q[1], q[2], low);
    }
  }

  lemma NoMark(q0: Byte, q1: Byte, q2: Byte, low: nat)
    requires q1 < 128 ==> q2 < 128 || q2 >= 192
    ensures !(q0 % 4 * 16 + q1 / 16 == low * 16 && q1 % 16 * 4 + q2 / 64 == 62)
  {
  }

  lemma ThirdIsMark(q0: Byte, q1: Byte, q2: Byte, p0: Byte, p1: Byte)
    requires q0 / 4 == p0 / 4 && q0 % 4 * 16 + q1 / 16 == p0 % 4 * 16 + p1 / 16
    requires q1 % 16 * 4 + q2 / 64 == p1 % 16 * 4 && q2 % 64 == 62
    ensures q0 == p0 && q1 == p1 && q2 == 62
  {
  }

  lemma SameDigits(v: seq<Sextet>, w: seq<Sextet>)
    requires Digits(v) == Digits(w)
    ensures v == w
  {
    forall i | 0 <= i < |v| ensures v[i] == w[i] {
      assert Digits(v)[i] == Digits(w)[i];
      DigitInjective(v[i], w[i]);
    }
  }

  /** The one id continues the other after a '>' in a way that lets their secret names meet. */
  predicate Meets(a: string, b: string) {
    && |a| % 3 == 2 && |b| % 3 == 2 && |b| > |a|
    && b[..|a|] == a && b[|a|] == '>'
  }

  lemma NamesMeet(a: string, b: string, y: string) returns (x: string)
    requires AsciiText(a) && AsciiText(b) && Meets(a, b)
    ensures EnvName(a, x) == EnvName(b, y)
  {
    var w := b[|a| + 1..];
    assert b == a + ">" + w;
    x := w + ">" + y;
    Base64UrlSplice(a, w);
    Base64UrlSplice(w, y);
    JoinedNames(Base64Url(a), Base64Url(w), Base64Url(y));
  }

  lemma PrefixFirst(p: string, a: string, b: string)
    ensures p + a + "-" + b == p + (a + "-" + b)
  {
  }

  lemma {:induction false} EnvSextets(id1: string, name1: string, id2: string, name2: string)
    requires EnvName(id1, name1) == EnvName(id2, name2)
    ensures Sextets(Utf8(id1)) + [62] + Sextets(Utf8(name1)) == Sextets(Utf8(id2)) + [62] + Sextets(Utf8(name2))
  {
    PrefixFirst(ENV_PREFIX, Base64Url(id1), Base64Url(name1));
    PrefixFirst(ENV_PREFIX, Base64Url(id2), Base64Url(name2));
    Texts.DropPrefix(ENV_PREFIX, Base64Url(id1) + "-" + Base64Url(name1), Base64Url(id2) + "-" + Base64Url(name2));
    JoinedDigits(Sextets(Utf8(id1)), Sextets(Utf8(name1)), Sextets(Utf8(id2)), Sextets(Utf8(name2)));
  }

  lemma JoinedDigits(v1: seq<Sextet>, w1: seq<Sextet>, v2: seq<Sextet>, w2: seq<Sextet>)
    requires Digits(v1) + "-" + Digits(w1) == Digits(v2) + "-" + Digits(w2)
    ensures v1 + [62] + w1 == v2 + [62] + w2
  {
    DigitsConcat(v1, w1);
    DigitsConcat(v2, w2);
    SameDigits(v1 + [62] + w1, v2 + [62] + w2);
  }

  lemma SplitAfter(v1: seq<Sextet>, w1: seq<Sextet>, v2: seq<Sextet>, w2: seq<Sextet>) returns (rest: seq<Sextet>)
    requires v1 + [62] + w1 == v2 + [62] + w2 && |v1| < |v2|
    ensures v2 == v1 + [62] + rest && w1 == rest + [62] + w2
  {
    var s := v1 + [62] + w1;
    rest := v2[|v1| + 1..];
    assert v2 == s[..|v2|] && v2[..|v1|] == s[..|v1|] == v1 && v2[|v1|] == s[|v1|] == 62;
    assert w1 == s[|v1| + 1..];
    assert s[|v1| + 1..] == (v2 + [62] + w2)[|v1| + 1..] == rest + [62] + w2;
  }

  lemma AsciiContinues(a: string, b: string, w: seq<Byte>)
    requires AsciiText(a) && AsciiText(b) && Utf8(b) == Utf8(a) + [62] + w
    ensures |b| == |a| + 1 + |w| && b[..|a|] == a && b[|a|] == '>' && |Utf8(a)| == |a|
  {
    AsciiBytes(a);
    AsciiBytes(b);
    forall i | 0 <= i < |a| ensures b[i] == a[i] {
      assert Utf8(b)[i] == Utf8(a)[i];
    }
    assert Utf8(b)[|a|] == 62;
  }

  lemma {:induction false} TwoSplits(p: seq<Byte>, x: seq<Byte>, q: seq<Byte>, y: seq<Byte>) returns (w: seq<Byte>)
    requires Textual(q) && Textual(x) && |Sextets(p)| < |Sextets(q)|
    requires Sextets(p) + [62] + Sextets(x) == Sextets(q) + [62] + Sextets(y)
    ensures |p| % 3 == 2 && |w| % 3 == 2 && q == p + [62] + w
  {
    var rest := SplitAfter(Sextets(p), Sextets(x), Sextets(q), Sextets(y));
    w := SextetsSplit(p, q, rest);
    var v := SextetsSplit(w, x, Sextets(y));
    EndsInTwoLength(p);
    EndsInTwoLength(w);
  }

  lemma MeetAcross(a: string, b: string, w: seq<Byte>)
    requires AsciiText(a) && AsciiText(b) && Utf8(b) == Utf8(a) + [62] + w
    requires |Utf8(a)| % 3 == 2 && |w| % 3 == 2
    ensures Meets(a, b)
  {
    AsciiContinues(a, b, w);
    GroupLengths(|a|, |w|);
  }

  lemma GroupLengths(m: nat, n: nat)
    requires m % 3 == 2 && n % 3 == 2
    ensures (m + 1 + n) % 3 == 2
  {
  }

  lemma ShorterMeets(a: string, x: string, b: string, y: string)
    requires AsciiText(a) && AsciiText(b) && |Sextets(Utf8(a))| < |Sextets(Utf8(b))|
    requires Sextets(Utf8(a)) + [62] + Sextets(Utf8(x)) == Sextets(Utf8(b)) + [62] + Sextets(Utf8(y))
    ensures Meets(a, b)
  {
    Utf8IsTextual(b);
    Utf8IsTextual(x);
    var w := TwoSplits(Utf8(a), Utf8(x), Utf8(b), Utf8(y));
    MeetAcross(a, b, w);
  }

  /**
   * Exactly when two distinct ASCII ids can have variables that share a secret name: one id is
   * the other followed by '>' and a rest, the other and the rest being two characters longer
   * than a multiple of three. A '~' never does it.
   */
  lemma NamesCollideExactly(a: string, b: string)
    requires AsciiText(a) && AsciiText(b) && a != b
    ensures (exists x, y :: EnvName(a, x) == EnvName(b, y)) <==> Meets(a, b) || Meets(b, a)
  {
    if x, y :| EnvName(a, x) == EnvName(b, y) {
      EnvSextets(a, x, b, y);
      var v, w := Sextets(Utf8(a)), Sextets(Utf8(b));
      if |v| == |w| {
        assert v == (v + [62] + Sextets(Utf8(x)))[..|v|] == (w + [62] + Sextets(Utf8(y)))[..|v|] == w;
        SextetsRoundTrip(Utf8(a));
        SextetsRoundTrip(Utf8(b));
        Utf8Injective(a, b);
        assert false;
      } else if |v| < |w| {
        ShorterMeets(a, x, b, y);
      } else {
        ShorterMeets(b, y, a, x);
      }
    }
    if Meets(a, b) {
      var x := NamesMeet(a, b, "");
    } else if Meets(b, a) {
      var y := NamesMeet(b, a, "");
      assert EnvName(a, "") == EnvName(b, y);
    }
  }

  /** The slug rule is needed: without it two different pairs share one name. */
  lemma NonSlugNamesCollide()
    ensures EnvName("aa", "bb>cc") == EnvName("aa>bb", "cc")
  {
    Base64UrlSplice("aa", "bb");
    Base64UrlSplice("bb", "cc");
    assert "aa>bb" == "aa" + ">" + "bb" && "bb>cc" == "bb" + ">" + "cc";
    JoinedNames(Base64Url("aa"), Base64Url("bb"), Base64Url("cc"));
  }

  lemma JoinedNames(p: string, q: string, r: string)
    ensures ENV_PREFIX + p + "-" + (q + "-" + r) == ENV_PREFIX + (p + "-" + q) + "-" + r
  {
  }
}
