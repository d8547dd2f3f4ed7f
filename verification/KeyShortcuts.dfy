/** Keyboard shortcuts: the parser of key texts, their canonical encoding, and contexts. */
module KeyShortcuts {
  import opened Options
  import opened Texts

  datatype Shortcut = Shortcut(key: string, meta: bool, ctrl: bool, shift: bool, alt: bool, mod: bool)

  // ---------------------------------------------------------------- encoding

  function If(b: bool, word: string): seq<string> {
    if b then [word] else []
  }

  function Modifiers(s: Shortcut): seq<string> {
    If(s.mod, "mod") + If(s.meta, "meta") + If(s.ctrl, "ctrl") + If(s.alt, "alt") + If(s.shift, "shift")
  }

  function KeyText(key: string): string {
    if key == " " then "space" else key
  }

  predicate Accepted(s: Shortcut) {
    s.key != "" && (s.key == "+" || '+' !in s.key)
  }

  function Encode(s: Shortcut): Option<string> {
    if Accepted(s) then Some(Join(Modifiers(s) + [KeyText(s.key)], "+")) else None
  }

  // ---------------------------------------------------------------- parsing

  function KeyTokens(value: string): (tokens: seq<string>)
    ensures |tokens| >= 1
  {
    var parts := Split(Lower(value), "+");
    seq(|parts|, i requires 0 <= i < |parts| => Trim(parts[i]))
  }

  function DropTrailingEmpty(tokens: seq<string>): seq<string> {
    if tokens != [] && tokens[|tokens| - 1] == "" then DropTrailingEmpty(tokens[..|tokens| - 1]) else tokens
  }

  /** A trailing plus sign is the plus key. */
  function WithPlus(tokens: seq<string>): seq<string> {
    var kept := DropTrailingEmpty(tokens);
    if |kept| < |tokens| then kept + ["+"] else kept
  }

  function NormalizeKey(token: string): string {
    if token == "space" then " " else if token == "esc" then "escape" else token
  }

  /** The shortcut read so far; the key is empty until one is found, `None` after a second key. */
  function Classify(tokens: seq<string>): Option<Shortcut> {
    if tokens == [] then Some(Shortcut("", false, false, false, false, false))
    else
      match Classify(tokens[..|tokens| - 1])
      case None => None
      case Some(s) => ClassifyOne(s, tokens[|tokens| - 1])
  }

  function ClassifyOne(s: Shortcut, token: string): Option<Shortcut> {
    if token == "cmd" || token == "meta" then Some(s.(meta := true))
    else if token == "ctrl" || token == "control" then Some(s.(ctrl := true))
    else if token == "shift" then Some(s.(shift := true))
    else if token == "alt" || token == "option" then Some(s.(alt := true))
    else if token == "mod" then Some(s.(mod := true))
    else if s.key != "" then None
    else Some(s.(key := NormalizeKey(token)))
  }

  function Parse(value: string): Option<Shortcut> {
    var tokens := WithPlus(KeyTokens(value));
    if exists i :: 0 <= i < |tokens| && tokens[i] == "" then None
    else
      match Classify(tokens)
      case None => None
      case Some(s) => if s.key == "" then None else Some(s)
  }

  // ---------------------------------------------------------------- what the parser produces

  predicate ModifierWord(w: string) {
    w == "cmd" || w == "meta" || w == "ctrl" || w == "control" || w == "shift" || w == "alt" || w == "option"
    || w == "mod"
  }

  predicate Tidy(w: string) {
    w != "" && '+' !in w && Trim(w) == w && Lower(w) == w
  }

  /** The keys a parsed shortcut can have. */
  predicate NormalKey(key: string) {
    key == " " || key == "+" || (Tidy(key) && !ModifierWord(key) && key != "space" && key != "esc")
  }

  predicate KeyToken(w: string) {
    w == "+" || Tidy(w)
  }

  lemma EscapeIsTidy()
    ensures Tidy("escape")
  {
    assert Lower("escape") == "escape";
    assert Trim("escape") == "escape";
  }

  lemma NormalizedKey(token: string)
    requires KeyToken(token) && !ModifierWord(token)
    ensures NormalKey(NormalizeKey(token))
  {
    EscapeIsTidy();
  }

  lemma {:induction false} ClassifiedKey(tokens: seq<string>)
    requires forall i :: 0 <= i < |tokens| ==> KeyToken(tokens[i])
    ensures Classify(tokens).Some? ==> Classify(tokens).value.key == "" || NormalKey(Classify(tokens).value.key)
  {
    if tokens != [] {
      var front, token := tokens[..|tokens| - 1], tokens[|tokens| - 1];
      ClassifiedKey(front);
      if !ModifierWord(token) {
        NormalizedKey(token);
      }
      if Classify(front).Some? {
        OneKey(Classify(front).value, token);
      }
    }
  }

  lemma OneKey(s: Shortcut, token: string)
    ensures var r := ClassifyOne(s, token);
            r.Some? ==> r.value.key == s.key || (!ModifierWord(token) && r.value.key == NormalizeKey(token))
  {
  }

  lemma {:induction false} TrimmedChars(s: string)
    ensures TrimStart(s) == s || |TrimStart(s)| < |s|
    ensures forall c :: c in Trim(s) ==> c in s
    ensures Trim(Trim(s)) == Trim(s)
  {
    StartSuffix(s);
    EndPrefix(TrimStart(s));
    var t := Trim(s);
    if t != "" {
      assert !IsSpace(t[|t| - 1]);
      assert t[0] == TrimStart(s)[0] && !IsSpace(t[0]);
    }
  }

  lemma {:induction false} StartSuffix(s: string)
    ensures TrimStart(s) != "" ==> !IsSpace(TrimStart(s)[0])
    ensures |TrimStart(s)| <= |s| && (TrimStart(s) == s || |TrimStart(s)| < |s|)
    ensures forall c :: c in TrimStart(s) ==> c in s
  {
    if s != "" && IsSpace(s[0]) {
      StartSuffix(s[1..]);
    }
  }

  lemma {:induction false} EndPrefix(s: string)
    ensures TrimEnd(s) <= s
    ensures TrimEnd(s) != "" ==> !IsSpace(TrimEnd(s)[|TrimEnd(s)| - 1])
  {
    if s != "" && IsSpace(s[|s| - 1]) {
      EndPrefix(s[..|s| - 1]);
    }
  }

  lemma {:induction false} SplitChars(text: string, c: char)
    ensures forall part :: part in Split(text, [c]) ==> c !in part
    ensures forall part, d :: part in Split(text, [c]) && d in part ==> d in text
  {
    if text != "" {
      if [c] <= text {
        SplitChars(text[1..], c);
      } else {
        SplitChars(text[1..], c);
        var rest := Split(text[1..], [c]);
        assert rest[0] in rest;
        assert text[0] != c;
      }
    }
  }

  lemma {:induction false} DropKeeps(tokens: seq<string>)
    ensures DropTrailingEmpty(tokens) <= tokens
  {
    if tokens != [] && tokens[|tokens| - 1] == "" {
      DropKeeps(tokens[..|tokens| - 1]);
    }
  }

  lemma TrimmedPartIsTidy(text: string, part: string)
    requires part in Split(Lower(text), "+") && Trim(part) != ""
    ensures Tidy(Trim(part)) && forall c :: c in Trim(part) ==> c in Lower(text)
  {
    SplitChars(Lower(text), '+');
    TrimmedChars(part);
    var token := Trim(part);
    forall k | 0 <= k < |token| ensures LowerChar(token[k]) == token[k] {
      LowerTwice(text, token[k]);
    }
  }

  lemma LowerTwice(text: string, c: char)
    requires c in Lower(text)
    ensures LowerChar(c) == c
  {
  }

  lemma TokensAreTidy(value: string, i: nat)
    requires i < |WithPlus(KeyTokens(value))| && WithPlus(KeyTokens(value))[i] != ""
    ensures KeyToken(WithPlus(KeyTokens(value))[i])
    ensures WithPlus(KeyTokens(value))[i] == "+"
            || forall c :: c in WithPlus(KeyTokens(value))[i] ==> c in Lower(value)
  {
    var tokens := KeyTokens(value);
    DropKeeps(tokens);
    if i < |DropTrailingEmpty(tokens)| {
      var part := Split(Lower(value), "+")[i];
      assert tokens[i] == Trim(part);
      TrimmedPartIsTidy(value, part);
    }
  }

  /** Whatever text is parsed, the key that results is a normal one. */
  lemma {:induction false} ParsedKeyIsNormal(value: string)
    requires Parse(value).Some?
    ensures NormalKey(Parse(value).value.key) && Accepted(Parse(value).value)
  {
    var tokens := WithPlus(KeyTokens(value));
    forall i | 0 <= i < |tokens| ensures KeyToken(tokens[i]) {
      TokensAreTidy(value, i);
    }
    ClassifiedKey(tokens);
  }

  // ---------------------------------------------------------------- the encoding reads back

  lemma ClassifySnoc(tokens: seq<string>, token: string)
    ensures Classify(tokens + [token])
            == match Classify(tokens) case None => None case Some(s) => ClassifyOne(s, token)
  {
    assert (tokens + [token])[..|tokens|] == tokens;
  }

  lemma ClassifyIf(tokens: seq<string>, b: bool, word: string)
    ensures Classify(tokens + If(b, word))
            == match Classify(tokens) case None => None case Some(s) => if b then ClassifyOne(s, word) else Some(s)
  {
    ClassifySnoc(tokens, word);
    assert tokens + [] == tokens;
  }

  lemma ClassifyFlag(tokens: seq<string>, t: Shortcut, b: bool, word: string, t': Shortcut)
    requires Classify(tokens) == Some(t) && ClassifyOne(t, word) == Some(t')
    ensures Classify(tokens + If(b, word)) == Some(if b then t' else t)
  {
    ClassifyIf(tokens, b, word);
  }

  lemma ClassifyModifiers(s: Shortcut, token: string)
    requires token != "" && !ModifierWord(token)
    ensures Classify(Modifiers(s) + [token]) == Some(s.(key := NormalizeKey(token)))
  {
    var t0 := Shortcut("", false, false, false, false, false);
    var t1 := t0.(mod := s.mod);
    var t2 := t1.(meta := s.meta);
    var t3 := t2.(ctrl := s.ctrl);
    var t4 := t3.(alt := s.alt);
    var m1 := [] + If(s.mod, "mod");
    var m2 := m1 + If(s.meta, "meta");
    var m3 := m2 + If(s.ctrl, "ctrl");
    var m4 := m3 + If(s.alt, "alt");
    var m5 := m4 + If(s.shift, "shift");
    ClassifyFlag([], t0, s.mod, "mod", t0.(mod := true));
    ClassifyFlag(m1, t1, s.meta, "meta", t1.(meta := true));
    ClassifyFlag(m2, t2, s.ctrl, "ctrl", t2.(ctrl := true));
    ClassifyFlag(m3, t3, s.alt, "alt", t3.(alt := true));
    ClassifyFlag(m4, t4, s.shift, "shift", t4.(shift := true));
    assert m1 == If(s.mod, "mod") && Modifiers(s) == m5;
    ClassifySnoc(m5, token);
  }

  predicate Word(w: string) {
    w == "mod" || w == "meta" || w == "ctrl" || w == "alt" || w == "shift"
  }

  lemma WordsAreTidy(w: string)
    requires Word(w) || w == "space"
    ensures Tidy(w)
  {
    assert Lower(w) == w;
    assert Trim(w) == w;
  }

  lemma ModifiersAreWords(s: Shortcut, i: nat)
    requires i < |Modifiers(s)|
    ensures Word(Modifiers(s)[i])
  {
  }

  lemma {:induction false} JoinIsLower(parts: seq<string>)
    requires forall k :: 0 <= k < |parts| ==> Lower(parts[k]) == parts[k]
    ensures Lower(Join(parts, "+")) == Join(parts, "+")
  {
    if |parts| > 1 {
      JoinIsLower(parts[1..]);
      assert Lower(parts[0] + "+" + Join(parts[1..], "+")) == Lower(parts[0]) + "+" + Lower(Join(parts[1..], "+"));
    }
  }

  predicate Piece(w: string) {
    w == "" || Tidy(w)
  }

  lemma {:induction false} TokensOfJoined(parts: seq<string>)
    requires |parts| >= 1 && forall k :: 0 <= k < |parts| ==> Piece(parts[k])
    ensures KeyTokens(Join(parts, "+")) == parts
  {
    assert Lower("") == "";
    forall k | 0 <= k < |parts| ensures Lower(parts[k]) == parts[k] && '+' !in parts[k] && Trim(parts[k]) == parts[k] {
      assert Piece(parts[k]);
    }
    JoinIsLower(parts);
    JoinSplits(parts, '+');
  }

  lemma {:induction false} JoinPlus(mods: seq<string>)
    ensures Join(mods + ["+"], "+") == Join(mods + ["", ""], "+")
  {
    if mods == [] {
      assert ["", ""][1..] == [""];
    } else {
      JoinPlus(mods[1..]);
      assert (mods + ["+"])[1..] == mods[1..] + ["+"];
      assert (mods + ["", ""])[1..] == mods[1..] + ["", ""];
    }
  }

  lemma DropPlain(tokens: seq<string>)
    requires tokens == [] || tokens[|tokens| - 1] != ""
    ensures DropTrailingEmpty(tokens) == tokens && DropTrailingEmpty(tokens + ["", ""]) == tokens
  {
    var two := tokens + ["", ""];
    assert two[..|two| - 1] == tokens + [""];
    assert (tokens + [""])[..|tokens|] == tokens;
  }

  lemma {:induction false} ModifiersAreTidy(s: Shortcut)
    ensures forall i :: 0 <= i < |Modifiers(s)| ==> Tidy(Modifiers(s)[i])
  {
    forall i | 0 <= i < |Modifiers(s)| ensures Tidy(Modifiers(s)[i]) {
      ModifiersAreWords(s, i);
      WordsAreTidy(Modifiers(s)[i]);
    }
  }

  lemma {:induction false} PlusTokens(mods: seq<string>)
    requires forall i :: 0 <= i < |mods| ==> Tidy(mods[i])
    ensures WithPlus(KeyTokens(Join(mods + ["+"], "+"))) == mods + ["+"]
  {
    var two := mods + ["", ""];
    JoinPlus(mods);
    WithTwoEmpty(mods);
    TokensOfJoined(two);
    PlusDropped(mods, two);
  }

  lemma {:induction false} WithTwoEmpty(mods: seq<string>)
    requires forall i :: 0 <= i < |mods| ==> Tidy(mods[i])
    ensures forall k :: 0 <= k < |mods| + 2 ==> Piece((mods + ["", ""])[k])
    ensures DropTrailingEmpty(mods + ["", ""]) == mods
  {
    DropPlain(mods);
    forall k | 0 <= k < |mods| + 2 ensures Piece((mods + ["", ""])[k]) {
      if k < |mods| {
        assert Tidy(mods[k]);
      }
    }
  }

  lemma PlusDropped(mods: seq<string>, tokens: seq<string>)
    requires DropTrailingEmpty(tokens) == mods && |mods| < |tokens|
    ensures WithPlus(tokens) == mods + ["+"]
  {
  }

  lemma {:induction false} WordTokens(mods: seq<string>, key: string)
    requires (forall i :: 0 <= i < |mods| ==> Tidy(mods[i])) && Tidy(key)
    ensures WithPlus(KeyTokens(Join(mods + [key], "+"))) == mods + [key]
  {
    var tokens := mods + [key];
    forall k | 0 <= k < |tokens| ensures Piece(tokens[k]) {
      assert k < |mods| ==> Tidy(mods[k]);
    }
    TokensOfJoined(tokens);
    DropPlain(tokens);
  }

  lemma EncodedTokens(s: Shortcut)
    requires NormalKey(s.key)
    ensures Accepted(s) && WithPlus(KeyTokens(Encode(s).value)) == Modifiers(s) + [KeyText(s.key)]
  {
    ModifiersAreTidy(s);
    if s.key == "+" {
      PlusTokens(Modifiers(s));
    } else {
      WordsAreTidy("space");
      WordTokens(Modifiers(s), KeyText(s.key));
    }
  }

  /** Reading back the encoding of a shortcut with a normal key gives the shortcut. */
  lemma ParseEncodes(s: Shortcut)
    requires NormalKey(s.key)
    ensures Encode(s).Some? && Parse(Encode(s).value) == Some(s)
  {
    EncodedTokens(s);
    TokensAreWords(s);
    ClassifyModifiers(s, KeyText(s.key));
  }

  lemma TokensAreWords(s: Shortcut)
    requires NormalKey(s.key)
    ensures forall i :: 0 <= i < |Modifiers(s) + [KeyText(s.key)]| ==> (Modifiers(s) + [KeyText(s.key)])[i] != ""
    ensures KeyText(s.key) != "" && !ModifierWord(KeyText(s.key)) && NormalizeKey(KeyText(s.key)) == s.key
  {
    var tokens := Modifiers(s) + [KeyText(s.key)];
    forall i | 0 <= i < |tokens| ensures tokens[i] != "" {
      if i < |Modifiers(s)| {
        ModifiersAreWords(s, i);
      }
    }
  }

  /** So encoding is a normal form: parsing, encoding and parsing again changes nothing. */
  lemma {:induction false} EncodeNormalizes(value: string)
    requires Parse(value).Some?
    ensures Encode(Parse(value).value).Some?
    ensures Parse(Encode(Parse(value).value).value) == Parse(value)
  {
    ParsedKeyIsNormal(value);
    ParseEncodes(Parse(value).value);
  }

  /** A text that names two keys is refused. */
  lemma TwoKeysRefused(a: string, b: string)
    requires Tidy(a) && !ModifierWord(a) && Tidy(b) && !ModifierWord(b)
    ensures Parse(a + "+" + b).None?
  {
    assert Join([a] + [b], "+") == a + "+" + b by {
      assert ([a] + [b])[1..] == [b];
    }
    WordTokens([a], b);
    assert Modifiers(NoKey()) + [a] == [a];
    ClassifyModifiers(NoKey(), a);
    ClassifySnoc([a], b);
    NormalizedKeyIsSome(a);
  }

  function NoKey(): Shortcut {
    Shortcut("", false, false, false, false, false)
  }

  lemma NormalizedKeyIsSome(token: string)
    requires token != ""
    ensures NormalizeKey(token) != ""
  {
  }

  // ---------------------------------------------------------------- injectivity, exactly

  lemma FlagsOf(s: Shortcut)
    ensures "mod" in Modifiers(s) <==> s.mod
    ensures "meta" in Modifiers(s) <==> s.meta
    ensures "ctrl" in Modifiers(s) <==> s.ctrl
    ensures "alt" in Modifiers(s) <==> s.alt
    ensures "shift" in Modifiers(s) <==> s.shift
  {
  }

  /** The pieces an encoding splits into. */
  function Pieces(s: Shortcut): seq<string> {
    if s.key == "+" then Modifiers(s) + ["", ""] else Modifiers(s) + [KeyText(s.key)]
  }

  lemma EncodedPieces(s: Shortcut)
    requires Accepted(s)
    ensures Split(Encode(s).value, "+") == Pieces(s)
  {
    JoinPlus(Modifiers(s));
    forall i | 0 <= i < |Pieces(s)| ensures '+' !in Pieces(s)[i] {
      if i < |Modifiers(s)| {
        ModifiersAreWords(s, i);
      }
    }
    JoinSplits(Pieces(s), '+');
  }

  lemma LastPiece(s: Shortcut)
    requires Accepted(s)
    ensures var p := Pieces(s);
            |p| > 0 && (p[|p| - 1] == "" <==> s.key == "+") && (s.key != "+" ==> p[|p| - 1] == KeyText(s.key))
  {
  }

  lemma SamePieces(a: Shortcut, b: Shortcut)
    requires Accepted(a) && Accepted(b) && Pieces(a) == Pieces(b)
    ensures KeyText(a.key) == KeyText(b.key) && Modifiers(a) == Modifiers(b)
  {
    LastPiece(a);
    LastPiece(b);
    if a.key == "+" {
      SameFront(Modifiers(a), ["", ""], Modifiers(b), ["", ""]);
    } else {
      SameFront(Modifiers(a), [KeyText(a.key)], Modifiers(b), [KeyText(b.key)]);
    }
  }

  lemma SameFront(a: seq<string>, x: seq<string>, b: seq<string>, y: seq<string>)
    requires a + x == b + y && |x| == |y|
    ensures a == b
  {
    assert a == (a + x)[..|a|] && b == (b + y)[..|b|];
  }

  /**
   * Two accepted shortcuts encode alike exactly when they agree in every modifier and in the
   * text of the key; the only distinct keys with one text are a blank and the word "space".
   */
  lemma EncodeInjectiveExactly(a: Shortcut, b: Shortcut)
    requires Accepted(a) && Accepted(b)
    ensures Encode(a) == Encode(b) <==> a.(key := KeyText(a.key)) == b.(key := KeyText(b.key))
  {
    if Encode(a) == Encode(b) {
      EncodedPieces(a);
      EncodedPieces(b);
      SamePieces(a, b);
      FlagsOf(a);
      FlagsOf(b);
    }
    if a.(key := KeyText(a.key)) == b.(key := KeyText(b.key)) {
      SameFlags(a, b);
    }
  }

  lemma SameFlags(a: Shortcut, b: Shortcut)
    requires a.mod == b.mod && a.meta == b.meta && a.ctrl == b.ctrl && a.alt == b.alt && a.shift == b.shift
    ensures Modifiers(a) == Modifiers(b)
  {
  }

  // ---------------------------------------------------------------- contexts

  function Tagged(text: string, when_: string): string {
    text + "\0" + when_
  }

  /** The text under which two rules are recognised as competing for one shortcut. */
  function Context(key: string, when_: string): Option<string> {
    match Parse(key)
    case None => None
    case Some(s) =>
      match Encode(s)
      case None => None
      case Some(text) => Some(Tagged(text, when_))
  }

  function SameContext(key1: string, when1: string, key2: string, when2: string): bool {
    Context(key1, when1).Some? && Context(key1, when1) == Context(key2, when2)
  }

  lemma ContextIs(key: string, when_: string)
    requires Parse(key).Some?
    ensures Encode(Parse(key).value).Some? && Context(key, when_) == Some(Tagged(Encode(Parse(key).value).value, when_))
  {
    ParsedKeyIsNormal(key);
  }

  lemma {:induction false} SameTextExactly(key1: string, key2: string)
    requires Parse(key1).Some? && Parse(key2).Some?
    ensures Encode(Parse(key1).value) == Encode(Parse(key2).value) <==> Parse(key1) == Parse(key2)
  {
    EncodeNormalizes(key1);
    EncodeNormalizes(key2);
  }

  lemma LaterNul(a: string, x: string, b: string, y: string)
    requires Tagged(a, x) == Tagged(b, y) && |b| > |a|
    ensures '\0' in x
  {
    assert Tagged(a, x)[|b|] == '\0' == x[|b| - |a| - 1];
  }

  lemma SplitAtLastNul(a: string, x: string, b: string, y: string)
    requires Tagged(a, x) == Tagged(b, y) && '\0' !in x && '\0' !in y
    ensures a == b && x == y
  {
    if |b| > |a| {
      LaterNul(a, x, b, y);
    } else if |a| > |b| {
      LaterNul(b, y, a, x);
    }
    var s := Tagged(a, x);
    assert a == s[..|a|] && x == s[|a| + 1..];
    assert b == s[..|b|] && y == s[|b| + 1..];
  }

  /** Under conditions without a NUL two keys compete exactly when shortcuts and conditions agree. */
  lemma SameContextUnderConditions(key1: string, when1: string, key2: string, when2: string)
    requires '\0' !in when1 && '\0' !in when2
    ensures SameContext(key1, when1, key2, when2)
            <==> Parse(key1).Some? && Parse(key1) == Parse(key2) && when1 == when2
  {
    if Parse(key1).Some? && Parse(key2).Some? {
      ContextIs(key1, when1);
      ContextIs(key2, when2);
      SameTextExactly(key1, key2);
      if SameContext(key1, when1, key2, when2) {
        SplitAtLastNul(
          Encode(Parse(key1).value).value, when1, Encode(Parse(key2).value).value, when2);
      }
    }
  }

  predicate BareKey(key: string) {
    Tidy(key) && key != " " && NormalKey(key)
  }

  lemma LowerLetter(key: string)
    requires key == "a" || key == "b"
    ensures BareKey(key)
  {
    assert !IsSpace(key[0]);
    assert TrimEnd(key) == key;
    assert Lower(key) == key;
  }
}
