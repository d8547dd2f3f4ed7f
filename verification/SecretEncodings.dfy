/**
 * The encodings behind secret names against their standards, and ids that are no Unicode text:
 * usage-limit sources are named by arbitrary JavaScript strings, and their secrets by what
 * encoding makes of them.
 */
module SecretEncodings {
  import opened SecretNames

  /** A character is encoded in the shortest of the forms of RFC 3629, from which its code reads back. */
  lemma Utf8Exactly(c: char)
    ensures var code, bytes := c as int, Utf8Char(c);
            && |bytes| == (if code < 128 then 1 else if code < 2048 then 2 else if code < 65536 then 3 else 4)
            && Utf8Code(bytes) == code && LeadLength(bytes[0]) == |bytes|
            && forall i :: 1 <= i < |bytes| ==> 128 <= bytes[i] < 192
  {
    Utf8CharRoundTrip(c);
  }

  /**
   * The digits are those of the URL-safe alphabet of section 5 of RFC 4648, by their codes: the
   * capital letters, the small ones, the figures, the minus sign and the underline.
   */
  lemma DigitExactly(v: Sextet)
    ensures Digit(v) as int
            == if v <= 25 then 65 + v else if v <= 51 then 71 + v else if v <= 61 then v - 4 else if v == 62 then 45 else 95
  {
    assert 'A' as int == 65 && 'a' as int == 97 && '0' as int == 48 && '-' as int == 45 && '_' as int == 95;
  }

  /** A JavaScript string is a sequence of UTF-16 code units; not all of them stand for characters. */
  type Unit = n: int | 0 <= n < 0x10000

  predicate High(u: Unit) {
    0xD800 <= u < 0xDC00
  }

  predicate Low(u: Unit) {
    0xDC00 <= u < 0xE000
  }

  const REPLACEMENT := 0xFFFD

  function Pair(high: int, low: int): char
    requires 0xD800 <= high < 0xDC00 <= low < 0xE000
  {
    (0x10000 + (high - 0xD800) * 0x400 + (low - 0xDC00)) as char
  }

  /** What encoding sees: pairs are one character, and a surrogate without its partner is replaced. */
  function Characters(units: seq<Unit>): string {
    if units == [] then ""
    else if |units| >= 2 && High(units[0]) && Low(units[1]) then
      [Pair(units[0], units[1])] + Characters(units[2..])
    else
      [(if High(units[0]) || Low(units[0]) then REPLACEMENT else units[0]) as char] + Characters(units[1..])
  }

  /** The unit is encoded as the replacement character: it is that, or a surrogate without its partner. */
  predicate Replaced(units: seq<Unit>, i: nat)
    requires i < |units|
  {
    || units[i] == REPLACEMENT
    || (High(units[i]) && !(i + 1 < |units| && Low(units[i + 1])))
    || (Low(units[i]) && !(i > 0 && High(units[i - 1])))
  }

  /** The strings differ at most in units that are encoded as the replacement character. */
  predicate SameButReplaced(a: seq<Unit>, b: seq<Unit>) {
    && |a| == |b|
    && forall i :: 0 <= i < |a| ==> a[i] == b[i] || (Replaced(a, i) && Replaced(b, i))
  }

  /** How many units the first character takes. */
  function FirstWidth(units: seq<Unit>): nat
    requires units != []
  {
    if |units| >= 2 && High(units[0]) && Low(units[1]) then 2 else 1
  }

  lemma PairInjective(h: int, l: int, h': int, l': int)
    requires 0xD800 <= h < 0xDC00 <= l < 0xE000 && 0xD800 <= h' < 0xDC00 <= l' < 0xE000
    ensures Pair(h, l) == Pair(h', l') <==> h == h' && l == l'
    ensures Pair(h, l) as int >= 0x10000
  {
    assert Pair(h, l) as int == 0x10000 + (h - 0xD800) * 0x400 + (l - 0xDC00);
    assert Pair(h', l') as int == 0x10000 + (h' - 0xD800) * 0x400 + (l' - 0xDC00);
  }

  lemma WidthsAgree(a: seq<Unit>, b: seq<Unit>)
    requires a != [] && SameButReplaced(a, b)
    ensures FirstWidth(a) == FirstWidth(b)
  {
    if FirstWidth(a) == 2 {
      assert a[1] == b[1] && a[0] == b[0];
    }
    if FirstWidth(b) == 2 {
      assert a[1] == b[1] && a[0] == b[0];
    }
  }

  lemma FirstCharacters(a: seq<Unit>, b: seq<Unit>)
    requires a != [] && b != []
    ensures var w := FirstWidth(a);
            Characters(a)[0] == Characters(b)[0]
            <==> w == FirstWidth(b) && (forall i :: 0 <= i < w ==> a[i] == b[i] || (Replaced(a, i) && Replaced(b, i)))
  {
    if FirstWidth(a) == 2 {
      PairInjective(a[0], a[1], a[0], a[1]);
    }
    if FirstWidth(b) == 2 {
      PairInjective(b[0], b[1], b[0], b[1]);
    }
    if FirstWidth(a) == 2 && FirstWidth(b) == 2 {
      PairInjective(a[0], a[1], b[0], b[1]);
    }
    assert Characters(a)[0] as int == Characters(b)[0] as int <==> Characters(a)[0] == Characters(b)[0];
  }

  lemma TailReplaced(units: seq<Unit>, i: nat)
    requires units != [] && FirstWidth(units) <= i < |units|
    ensures Replaced(units[FirstWidth(units)..], i - FirstWidth(units)) <==> Replaced(units, i)
  {
  }

  lemma TailsSame(a: seq<Unit>, b: seq<Unit>)
    requires a != [] && b != [] && FirstWidth(a) == FirstWidth(b) && |a| == |b|
    ensures var w := FirstWidth(a);
            SameButReplaced(a[w..], b[w..])
            <==> forall i :: w <= i < |a| ==> a[i] == b[i] || (Replaced(a, i) && Replaced(b, i))
  {
    var w := FirstWidth(a);
    forall i | w <= i < |a|
      ensures a[w..][i - w] == a[i] && b[w..][i - w] == b[i]
      ensures Replaced(a[w..], i - w) == Replaced(a, i) && Replaced(b[w..], i - w) == Replaced(b, i)
    {
      TailReplaced(a, i);
      TailReplaced(b, i);
    }
  }

  lemma FirstAndRest(units: seq<Unit>)
    requires units != []
    ensures |Characters(units)| > 0 && Characters(units)[1..] == Characters(units[FirstWidth(units)..])
    ensures Characters(units) == [Characters(units)[0]] + Characters(units)[1..]
  {
  }

  lemma {:induction false} CharactersExactly(a: seq<Unit>, b: seq<Unit>)
    ensures Characters(a) == Characters(b) <==> SameButReplaced(a, b)
    decreases |a|
  {
    if a != [] && b != [] {
      FirstCharacters(a, b);
      if SameButReplaced(a, b) {
        WidthsAgree(a, b);
      }
      var w := FirstWidth(a);
      if FirstWidth(b) == w {
        CharactersExactly(a[w..], b[w..]);
        FirstAndRest(a);
        FirstAndRest(b);
        if |a| == |b| {
          TailsSame(a, b);
        }
      }
    }
  }

  /**
   * Two usage-limit sources whose ids are arbitrary strings share a secret exactly when their
   * ids differ at most in units that encoding replaces.
   */
  lemma SourcesShareExactly(a: seq<Unit>, b: seq<Unit>)
    ensures SourceName(Characters(a)) == SourceName(Characters(b)) <==> SameButReplaced(a, b)
  {
    CharactersExactly(a, b);
    if SourceName(Characters(a)) == SourceName(Characters(b)) {
      SourceNameInjective(Characters(a), Characters(b));
    }
  }

  /** Two ids of one lone surrogate each, which differ and share a secret. */
  lemma LoneSurrogatesShare()
    ensures SourceName(Characters([0xD800])) == SourceName(Characters([0xD801]))
  {
    SourcesShareExactly([0xD800], [0xD801]);
  }
}
