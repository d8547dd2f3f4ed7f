/**
 * The `when` conditions of keybindings: their encoding as text, the tokenizer and the
 * recursive-descent parser that reads them, and the round trip between the two.
 */
module WhenExpressions {
  import opened Options
  import opened Texts

  datatype Node = Identifier(name: string) | Not(node: Node) | And(left: Node, right: Node) | Or(left: Node, right: Node)

  function Encode(n: Node): string {
    match n
    case Identifier(name) => name
    case Not(m) => "!(" + Encode(m) + ")"
    case And(l, r) => "(" + Encode(l) + " && " + Encode(r) + ")"
    case Or(l, r) => "(" + Encode(l) + " || " + Encode(r) + ")"
  }

  // ---------------------------------------------------------------- the encoding is unambiguous

  predicate Structural(c: char) {
    c == '!' || c == '(' || c == ')' || c == '&' || c == '|' || c == ' '
  }

  /** Names are not empty and contain no operator, parenthesis or space. */
  predicate PlainNames(n: Node) {
    match n
    case Identifier(name) => name != "" && forall i :: 0 <= i < |name| ==> !Structural(name[i])
    case Not(m) => PlainNames(m)
    case And(l, r) => PlainNames(l) && PlainNames(r)
    case Or(l, r) => PlainNames(l) && PlainNames(r)
  }

  predicate Delimited(rest: string) {
    rest == "" || Structural(rest[0])
  }

  lemma NameEnds(a: string, x: string, b: string, y: string)
    requires forall i :: 0 <= i < |a| ==> !Structural(a[i])
    requires forall i :: 0 <= i < |b| ==> !Structural(b[i])
    requires Delimited(x) && Delimited(y) && a + x == b + y
    ensures a == b && x == y
  {
    var s := a + x;
    assert forall i :: 0 <= i < |a| ==> s[i] == a[i];
    assert forall i :: 0 <= i < |b| ==> s[i] == b[i];
    assert |a| < |s| ==> s[|a|] == x[0];
    assert |b| < |s| ==> s[|b|] == y[0];
    assert |a| == |b|;
    assert a == s[..|a|] == b && x == s[|a|..] == y;
  }

  lemma FirstChar(n: Node, x: string)
    requires PlainNames(n)
    ensures |Encode(n) + x| > 0
    ensures match n
            case Identifier(name) => !Structural((Encode(n) + x)[0])
            case Not(_) => (Encode(n) + x)[0] == '!'
            case _ => (Encode(n) + x)[0] == '('
  {
  }

  /** What follows the opening parenthesis of a conjunction or disjunction. */
  lemma BinaryShape(l: Node, op: string, r: Node, x: string)
    ensures "(" + Encode(l) + op + Encode(r) + ")" + x == "(" + (Encode(l) + (op + (Encode(r) + (")" + x))))
  {
  }

  function Size(n: Node): nat {
    match n
    case Identifier(_) => 1
    case Not(m) => 1 + Size(m)
    case And(l, r) => 1 + Size(l) + Size(r)
    case Or(l, r) => 1 + Size(l) + Size(r)
  }

  lemma {:induction false} BinaryPrefixFree(
    l1: Node, op1: string, r1: Node, x: string, l2: Node, op2: string, r2: Node, y: string)
    requires PlainNames(l1) && PlainNames(r1) && PlainNames(l2) && PlainNames(r2) && Delimited(x) && Delimited(y)
    requires (op1 == " && " || op1 == " || ") && (op2 == " && " || op2 == " || ")
    requires "(" + Encode(l1) + op1 + Encode(r1) + ")" + x == "(" + Encode(l2) + op2 + Encode(r2) + ")" + y
    ensures l1 == l2 && op1 == op2 && r1 == r2 && x == y
    decreases Size(l1) + Size(r1), 2
  {
    BinaryShape(l1, op1, r1, x);
    BinaryShape(l2, op2, r2, y);
    var t1, t2 := Encode(r1) + (")" + x), Encode(r2) + (")" + y);
    DropPrefix("(", Encode(l1) + (op1 + t1), Encode(l2) + (op2 + t2));
    PrefixFree(l1, op1 + t1, l2, op2 + t2);
    assert (op1 + t1)[1] == op1[1] && (op2 + t2)[1] == op2[1];
    DropPrefix(op1, t1, t2);
    RightPrefixFree(r1, x, r2, y);
  }

  lemma {:induction false} RightPrefixFree(r1: Node, x: string, r2: Node, y: string)
    requires PlainNames(r1) && PlainNames(r2) && Encode(r1) + (")" + x) == Encode(r2) + (")" + y)
    ensures r1 == r2 && x == y
    decreases Size(r1), 1
  {
    PrefixFree(r1, ")" + x, r2, ")" + y);
    DropPrefix(")", x, y);
  }

  /** No encoding followed by a delimiter starts another: the text determines the tree. */
  lemma {:induction false} PrefixFree(a: Node, x: string, b: Node, y: string)
    requires PlainNames(a) && PlainNames(b) && Delimited(x) && Delimited(y)
    requires Encode(a) + x == Encode(b) + y
    ensures a == b && x == y
    decreases Size(a), 0
  {
    FirstChar(a, x);
    FirstChar(b, y);
    match a {
      case Identifier(name) =>
        NameEnds(name, x, Encode(b), y);
      case Not(m) =>
        assert Encode(a) + x == "!(" + (Encode(m) + (")" + x));
        assert Encode(b) + y == "!(" + (Encode(b.node) + (")" + y));
        DropPrefix("!(", Encode(m) + (")" + x), Encode(b.node) + (")" + y));
        RightPrefixFree(m, x, b.node, y);
      case And(l, r) =>
        if b.And? { BinaryPrefixFree(l, " && ", r, x, b.left, " && ", b.right, y); }
        else { BinaryPrefixFree(l, " && ", r, x, b.left, " || ", b.right, y); }
      case Or(l, r) =>
        if b.And? { BinaryPrefixFree(l, " || ", r, x, b.left, " && ", b.right, y); }
        else { BinaryPrefixFree(l, " || ", r, x, b.left, " || ", b.right, y); }
    }
  }

  lemma EncodeInjective(a: Node, b: Node)
    requires PlainNames(a) && PlainNames(b) && Encode(a) == Encode(b)
    ensures a == b
  {
    assert Encode(a) + "" == Encode(b) + "";
    PrefixFree(a, "", b, "");
  }

  // ---------------------------------------------------------------- the tokenizer

  datatype Token = Name(value: string) | NotOp | AndOp | OrOp | Open | Close

  predicate NameStart(c: char) {
    'A' <= c <= 'Z' || 'a' <= c <= 'z' || c == '_'
  }

  predicate NameChar(c: char) {
    NameStart(c) || '0' <= c <= '9' || c == '.' || c == '-'
  }

  function NameLength(s: string): (n: nat)
    ensures n <= |s| && forall i :: 0 <= i < n ==> NameChar(s[i])
    ensures n < |s| ==> !NameChar(s[n])
  {
    if s == "" || !NameChar(s[0]) then 0 else 1 + NameLength(s[1..])
  }

  function Cons(t: Token, ts: Option<seq<Token>>): Option<seq<Token>> {
    match ts
    case None => None
    case Some(rest) => Some([t] + rest)
  }

  function Tokenize(s: string): Option<seq<Token>>
    decreases |s|
  {
    if s == "" then Some([])
    else if IsSpace(s[0]) then Tokenize(s[1..])
    else if "&&" <= s then Cons(AndOp, Tokenize(s[2..]))
    else if "||" <= s then Cons(OrOp, Tokenize(s[2..]))
    else if s[0] == '!' then Cons(NotOp, Tokenize(s[1..]))
    else if s[0] == '(' then Cons(Open, Tokenize(s[1..]))
    else if s[0] == ')' then Cons(Close, Tokenize(s[1..]))
    else if NameStart(s[0]) then
      assert NameLength(s) >= 1;
      Cons(Name(s[..NameLength(s)]), Tokenize(s[NameLength(s)..]))
    else None
  }

  lemma {:induction false} TokenizedHasNoNul(s: string)
    requires Tokenize(s).Some?
    ensures '\0' !in s
    decreases |s|
  {
    if s != "" {
      var k := TokenEnd(s);
      TokenizedHasNoNul(s[k..]);
      assert s == s[..k] + s[k..];
    }
  }

  /** Where the first token, or the first blank, of a text that can be cut into tokens ends. */
  lemma TokenEnd(s: string) returns (k: nat)
    requires Tokenize(s).Some? && s != ""
    ensures 0 < k <= |s| && Tokenize(s[k..]).Some? && forall i :: 0 <= i < k ==> s[i] != '\0'
  {
    if IsSpace(s[0]) {
      k := 1;
    } else if "&&" <= s || "||" <= s {
      k := 2;
    } else if s[0] == '!' || s[0] == '(' || s[0] == ')' {
      k := 1;
    } else {
      k := NameLength(s);
    }
  }

  /** A condition that parses contains no NUL character. */
  lemma ParsedHasNoNul(s: string)
    requires Parse(s).Some?
    ensures '\0' !in s
  {
    TokenizedHasNoNul(s);
  }

  // ---------------------------------------------------------------- the parser

  /** A parsed node and the index after it. */
  type Parsed = Option<(Node, nat)>

  const MAX_DEPTH: nat := 64

  predicate Progress(r: Parsed, tokens: seq<Token>, i: nat) {
    r.Some? ==> i < r.value.1 <= |tokens|
  }

  function ParsePrimary(tokens: seq<Token>, i: nat, depth: nat): (r: Parsed)
    requires i <= |tokens|
    ensures Progress(r, tokens, i)
    decreases |tokens| - i, 0
  {
    if depth > MAX_DEPTH || i == |tokens| then None
    else
      match tokens[i]
      case Name(value) => Some((Identifier(value), i + 1))
      case Open =>
        (match ParseOr(tokens, i + 1, depth + 1)
         case None => None
         case Some((n, j)) => if j < |tokens| && tokens[j] == Close then Some((n, j + 1)) else None)
      case _ => None
  }

  function CountNots(tokens: seq<Token>, i: nat): (n: nat)
    requires i <= |tokens|
    ensures i + n <= |tokens|
    decreases |tokens| - i
  {
    if i < |tokens| && tokens[i] == NotOp then 1 + CountNots(tokens, i + 1) else 0
  }

  function Negate(n: Node, count: nat): Node {
    if count == 0 then n else Not(Negate(n, count - 1))
  }

  function ParseUnary(tokens: seq<Token>, i: nat, depth: nat): (r: Parsed)
    requires i <= |tokens|
    ensures Progress(r, tokens, i)
    decreases |tokens| - i, 1
  {
    var nots := CountNots(tokens, i);
    if nots > MAX_DEPTH then None
    else
      match ParsePrimary(tokens, i + nots, depth)
      case None => None
      case Some((n, j)) => Some((Negate(n, nots), j))
  }

  function ParseAndRest(tokens: seq<Token>, left: Node, i: nat, depth: nat): (r: Parsed)
    requires 0 < i <= |tokens|
    ensures Progress(r, tokens, i - 1)
    decreases |tokens| - i, 2
  {
    if i < |tokens| && tokens[i] == AndOp then
      match ParseUnary(tokens, i + 1, depth)
      case None => None
      case Some((right, j)) => ParseAndRest(tokens, And(left, right), j, depth)
    else Some((left, i))
  }

  function ParseAnd(tokens: seq<Token>, i: nat, depth: nat): (r: Parsed)
    requires i <= |tokens|
    ensures Progress(r, tokens, i)
    decreases |tokens| - i, 3
  {
    match ParseUnary(tokens, i, depth)
    case None => None
    case Some((left, j)) => ParseAndRest(tokens, left, j, depth)
  }

  function ParseOrRest(tokens: seq<Token>, left: Node, i: nat, depth: nat): (r: Parsed)
    requires 0 < i <= |tokens|
    ensures Progress(r, tokens, i - 1)
    decreases |tokens| - i, 4
  {
    if i < |tokens| && tokens[i] == OrOp then
      match ParseAnd(tokens, i + 1, depth)
      case None => None
      case Some((right, j)) => ParseOrRest(tokens, Or(left, right), j, depth)
    else Some((left, i))
  }

  function ParseOr(tokens: seq<Token>, i: nat, depth: nat): (r: Parsed)
    requires i <= |tokens|
    ensures Progress(r, tokens, i)
    decreases |tokens| - i, 5
  {
    match ParseAnd(tokens, i, depth)
    case None => None
    case Some((left, j)) => ParseOrRest(tokens, left, j, depth)
  }

  function Parse(s: string): Option<Node> {
    match Tokenize(s)
    case None => None
    case Some(tokens) =>
      if tokens == [] then None
      else
        match ParseOr(tokens, 0, 0)
        case None => None
        case Some((n, j)) => if j == |tokens| then Some(n) else None
  }

  // ---------------------------------------------------------------- the tokens of an encoding

  /** Names as the tokenizer accepts them. */
  predicate ValidNames(n: Node) {
    match n
    case Identifier(name) => name != "" && NameStart(name[0]) && forall i :: 0 <= i < |name| ==> NameChar(name[i])
    case Not(m) => ValidNames(m)
    case And(l, r) => ValidNames(l) && ValidNames(r)
    case Or(l, r) => ValidNames(l) && ValidNames(r)
  }

  function TokensOf(n: Node): (ts: seq<Token>)
    ensures |ts| > 0
  {
    match n
    case Identifier(name) => [Name(name)]
    case Not(m) => [NotOp] + ([Open] + TokensOf(m) + [Close])
    case And(l, r) => [Open] + TokensOf(l) + [AndOp] + TokensOf(r) + [Close]
    case Or(l, r) => [Open] + TokensOf(l) + [OrOp] + TokensOf(r) + [Close]
  }

  function Prepend(ts: seq<Token>, rest: Option<seq<Token>>): Option<seq<Token>> {
    match rest
    case None => None
    case Some(more) => Some(ts + more)
  }

  lemma PrependTwice(a: seq<Token>, b: seq<Token>, rest: Option<seq<Token>>)
    ensures Prepend(a, Prepend(b, rest)) == Prepend(a + b, rest)
  {
    if rest.Some? {
      assert a + (b + rest.value) == a + b + rest.value;
    }
  }

  predicate NoNameChar(rest: string) {
    rest == "" || !NameChar(rest[0])
  }

  lemma {:induction false} NameLengthOf(name: string, rest: string)
    requires forall i :: 0 <= i < |name| ==> NameChar(name[i])
    requires NoNameChar(rest)
    ensures NameLength(name + rest) == |name|
  {
    if name == "" {
      assert name + rest == rest;
    } else {
      assert (name + rest)[1..] == name[1..] + rest;
      NameLengthOf(name[1..], rest);
    }
  }

  lemma TokenizeOne(c: char, t: Token, rest: string)
    requires (c == '!' && t == NotOp) || (c == '(' && t == Open) || (c == ')' && t == Close)
    ensures Tokenize([c] + rest) == Prepend([t], Tokenize(rest))
  {
    assert ([c] + rest)[1..] == rest;
  }

  lemma TokenizeOperator(op: string, t: Token, rest: string)
    requires (op == " && " && t == AndOp) || (op == " || " && t == OrOp)
    ensures Tokenize(op + rest) == Prepend([t], Tokenize(rest))
  {
    var s := op + rest;
    var s1 := s[1..];
    assert s[0] == ' ' && Tokenize(s) == Tokenize(s1);
    assert s1[0] == op[1] && s1[1] == op[2] && s1[2..] == [' '] + rest;
    var s3 := s1[2..];
    assert s3[0] == ' ' && s3[1..] == rest;
    assert op[1] == '&' ==> "&&" <= s1;
    assert op[1] == '|' ==> "||" <= s1 && !("&&" <= s1);
    assert Tokenize(s3) == Tokenize(rest);
  }

  lemma {:induction false} TokenizeName(name: string, rest: string)
    requires ValidNames(Identifier(name)) && NoNameChar(rest)
    ensures Tokenize(name + rest) == Prepend([Name(name)], Tokenize(rest))
  {
    var s := name + rest;
    NameLengthOf(name, rest);
    assert s[0] == name[0];
    assert s[..|name|] == name && s[|name|..] == rest;
  }

  /** The tokenizer recovers exactly the tokens of an encoding, whatever follows it. */
  lemma {:induction false} TokenizeEncoding(n: Node, rest: string)
    requires ValidNames(n) && NoNameChar(rest)
    ensures Tokenize(Encode(n) + rest) == Prepend(TokensOf(n), Tokenize(rest))
    decreases n, 1
  {
    match n {
      case Identifier(name) =>
        TokenizeName(name, rest);
      case Not(m) =>
        TokenizeNegation(m, rest);
      case And(l, r) =>
        TokenizeBinary(n, l, " && ", AndOp, r, rest);
      case Or(l, r) =>
        TokenizeBinary(n, l, " || ", OrOp, r, rest);
    }
  }

  lemma NegationShape(m: Node, rest: string)
    ensures Encode(Not(m)) + rest == "!" + ("(" + (Encode(m) + (")" + rest)))
  {
    assert "!(" == "!" + "(";
  }

  /** A node and the parenthesis that closes its group. */
  lemma {:induction false} TokenizeClosed(m: Node, rest: string)
    requires ValidNames(m) && NoNameChar(rest)
    ensures Tokenize(Encode(m) + (")" + rest)) == Prepend(TokensOf(m) + [Close], Tokenize(rest))
    decreases m, 2
  {
    var tail := ")" + rest;
    assert tail[0] == ')';
    TokenizeEncoding(m, tail);
    TokenizeOne(')', Close, rest);
    PrependTwice(TokensOf(m), [Close], Tokenize(rest));
  }

  lemma {:induction false} TokenizeNegation(m: Node, rest: string)
    requires ValidNames(m) && NoNameChar(rest)
    ensures Tokenize(Encode(Not(m)) + rest) == Prepend(TokensOf(Not(m)), Tokenize(rest))
    decreases m, 3
  {
    var closed := Encode(m) + (")" + rest);
    var ts := TokensOf(m) + [Close];
    NegationShape(m, rest);
    TokenizeClosed(m, rest);
    TokenizeOne('(', Open, closed);
    PrependTwice([Open], ts, Tokenize(rest));
    TokenizeOne('!', NotOp, "(" + closed);
    PrependTwice([NotOp], [Open] + ts, Tokenize(rest));
    assert [Open] + ts == [Open] + TokensOf(m) + [Close];
  }

  /** An operator, its right operand and the parenthesis that closes the group. */
  lemma {:induction false} TokenizeRight(op: string, t: Token, r: Node, rest: string)
    requires (op == " && " && t == AndOp) || (op == " || " && t == OrOp)
    requires ValidNames(r) && NoNameChar(rest)
    ensures Tokenize(op + (Encode(r) + (")" + rest))) == Prepend([t] + (TokensOf(r) + [Close]), Tokenize(rest))
    decreases r, 3
  {
    TokenizeClosed(r, rest);
    TokenizeOperator(op, t, Encode(r) + (")" + rest));
    PrependTwice([t], TokensOf(r) + [Close], Tokenize(rest));
  }

  lemma JoinedTokens(a: seq<Token>, t: Token, b: seq<Token>)
    ensures [Open] + (a + ([t] + (b + [Close]))) == [Open] + a + [t] + b + [Close]
  {
  }

  lemma {:induction false} TokenizeBinary(n: Node, l: Node, op: string, t: Token, r: Node, rest: string)
    requires (n == And(l, r) && op == " && " && t == AndOp) || (n == Or(l, r) && op == " || " && t == OrOp)
    requires ValidNames(n) && NoNameChar(rest)
    ensures Tokenize(Encode(n) + rest) == Prepend(TokensOf(n), Tokenize(rest))
    decreases n, 0
  {
    var middle := op + (Encode(r) + (")" + rest));
    var right := [t] + (TokensOf(r) + [Close]);
    assert middle[0] == ' ';
    BinaryShape(l, op, r, rest);
    TokenizeRight(op, t, r, rest);
    TokenizeEncoding(l, middle);
    PrependTwice(TokensOf(l), right, Tokenize(rest));
    TokenizeOne('(', Open, Encode(l) + middle);
    PrependTwice([Open], TokensOf(l) + right, Tokenize(rest));
    JoinedTokens(TokensOf(l), t, TokensOf(r));
  }

  // ---------------------------------------------------------------- parsing the tokens of an encoding

  /** How deep the encoding nests parentheses. */
  function Nesting(n: Node): nat {
    match n
    case Identifier(_) => 0
    case Not(m) => 1 + Nesting(m)
    case And(l, r) => 1 + if Nesting(l) > Nesting(r) then Nesting(l) else Nesting(r)
    case Or(l, r) => 1 + if Nesting(l) > Nesting(r) then Nesting(l) else Nesting(r)
  }

  predicate At(tokens: seq<Token>, i: nat, ts: seq<Token>) {
    i + |ts| <= |tokens| && forall k :: 0 <= k < |ts| ==> tokens[i + k] == ts[k]
  }

  lemma AtSplit(tokens: seq<Token>, i: nat, a: seq<Token>, b: seq<Token>)
    requires At(tokens, i, a + b)
    ensures At(tokens, i, a) && At(tokens, i + |a|, b)
  {
    forall k | 0 <= k < |a| ensures tokens[i + k] == a[k] {
      assert (a + b)[k] == a[k];
    }
    forall k | 0 <= k < |b| ensures tokens[i + |a| + k] == b[k] {
      assert (a + b)[|a| + k] == b[k];
    }
  }

  lemma AtHead(tokens: seq<Token>, i: nat, ts: seq<Token>)
    requires At(tokens, i, ts) && ts != []
    ensures i < |tokens| && tokens[i] == ts[0]
  {
    assert tokens[i + 0] == ts[0];
  }

  predicate NoOperatorAt(tokens: seq<Token>, i: nat) {
    i < |tokens| ==> tokens[i] != AndOp && tokens[i] != OrOp
  }

  lemma RestsStop(tokens: seq<Token>, n: Node, i: nat, depth: nat)
    requires 0 < i <= |tokens| && NoOperatorAt(tokens, i)
    ensures ParseAndRest(tokens, n, i, depth) == Some((n, i))
    ensures ParseOrRest(tokens, n, i, depth) == Some((n, i))
  {
  }

  lemma NoOperand(tokens: seq<Token>, i: nat, depth: nat)
    requires i <= |tokens| && ParseUnary(tokens, i, depth).None?
    ensures ParseAnd(tokens, i, depth).None? && ParseOr(tokens, i, depth).None?
  {
  }

  /** An operand that no operator follows is a whole expression. */
  lemma OneOperand(tokens: seq<Token>, i: nat, depth: nat, n: Node, j: nat)
    requires i < j <= |tokens| && ParseUnary(tokens, i, depth) == Some((n, j)) && NoOperatorAt(tokens, j)
    ensures ParseAnd(tokens, i, depth) == ParseOr(tokens, i, depth) == Some((n, j))
  {
    RestsStop(tokens, n, j, depth);
  }

  /** Two operands joined by an operator, with no operator after them. */
  lemma TwoOperands(tokens: seq<Token>, i: nat, depth: nat, l: Node, m: nat, r: Node, j: nat)
    requires i < m < j <= |tokens| && ParseUnary(tokens, i, depth) == Some((l, m))
    requires ParseUnary(tokens, m + 1, depth) == Some((r, j)) && NoOperatorAt(tokens, j)
    ensures tokens[m] == AndOp ==> ParseOr(tokens, i, depth) == Some((And(l, r), j))
    ensures tokens[m] == OrOp ==> ParseOr(tokens, i, depth) == Some((Or(l, r), j))
  {
    RestsStop(tokens, And(l, r), j, depth);
    RestsStop(tokens, Or(l, r), j, depth);
    if tokens[m] == AndOp {
      assert ParseAndRest(tokens, l, m, depth) == ParseAndRest(tokens, And(l, r), j, depth);
      assert ParseAnd(tokens, i, depth) == Some((And(l, r), j));
    } else if tokens[m] == OrOp {
      OneOperand(tokens, m + 1, depth, r, j);
      assert ParseAndRest(tokens, l, m, depth) == Some((l, m));
      assert ParseAnd(tokens, i, depth) == Some((l, m));
      assert ParseOrRest(tokens, l, m, depth) == ParseOrRest(tokens, Or(l, r), j, depth);
    }
  }

  lemma NoSecondOperand(tokens: seq<Token>, i: nat, depth: nat, l: Node, m: nat)
    requires i < m < |tokens| && ParseUnary(tokens, i, depth) == Some((l, m))
    requires ParseUnary(tokens, m + 1, depth).None? && (tokens[m] == AndOp || tokens[m] == OrOp)
    ensures ParseOr(tokens, i, depth).None?
  {
    if tokens[m] == AndOp {
      assert ParseAndRest(tokens, l, m, depth).None?;
    } else {
      NoOperand(tokens, m + 1, depth);
      assert ParseAndRest(tokens, l, m, depth) == Some((l, m));
      assert ParseAnd(tokens, i, depth) == Some((l, m));
    }
  }

  /** Parsing the tokens of a node as an operand: it succeeds exactly within the depth limit. */
  lemma {:induction false} UnaryReads(n: Node, tokens: seq<Token>, i: nat, depth: nat)
    requires i <= |tokens| && At(tokens, i, TokensOf(n))
    ensures ParseUnary(tokens, i, depth)
            == if depth + Nesting(n) <= MAX_DEPTH then Some((n, i + |TokensOf(n)|)) else None
    decreases Size(n), 1
  {
    match n {
      case Identifier(name) =>
        assert tokens[i] == TokensOf(n)[0];
        NoNots(tokens, i, depth);
      case Not(m) =>
        AtSplit(tokens, i, [NotOp], [Open] + TokensOf(m) + [Close]);
        GroupReads(m, tokens, i + 1, depth);
        OneNot(tokens, i, depth);
      case And(l, r) =>
        BinaryReads(l, AndOp, r, tokens, i, depth);
        NoNots(tokens, i, depth);
      case Or(l, r) =>
        BinaryReads(l, OrOp, r, tokens, i, depth);
        NoNots(tokens, i, depth);
    }
  }

  lemma NoNots(tokens: seq<Token>, i: nat, depth: nat)
    requires i < |tokens| && tokens[i] != NotOp
    ensures ParseUnary(tokens, i, depth) == ParsePrimary(tokens, i, depth)
  {
    assert CountNots(tokens, i) == 0;
  }

  lemma OneNot(tokens: seq<Token>, i: nat, depth: nat)
    requires At(tokens, i, [NotOp]) && i + 1 < |tokens| && tokens[i + 1] == Open
    ensures ParseUnary(tokens, i, depth)
            == match ParsePrimary(tokens, i + 1, depth)
               case None => None
               case Some((n, j)) => Some((Not(n), j))
  {
    AtHead(tokens, i, [NotOp]);
    assert CountNots(tokens, i + 1) == 0 && CountNots(tokens, i) == 1;
    if ParsePrimary(tokens, i + 1, depth).Some? {
      assert Negate(ParsePrimary(tokens, i + 1, depth).value.0, 0) == ParsePrimary(tokens, i + 1, depth).value.0;
    }
  }

  lemma PrimaryGroup(tokens: seq<Token>, i: nat, depth: nat, n: Node, j: nat)
    requires i < j < |tokens| && tokens[i] == Open && tokens[j] == Close && depth < MAX_DEPTH
    requires ParseOr(tokens, i + 1, depth + 1) == Some((n, j))
    ensures ParsePrimary(tokens, i, depth) == Some((n, j + 1))
  {
  }

  lemma NoGroup(tokens: seq<Token>, i: nat, depth: nat)
    requires i < |tokens| && tokens[i] == Open && ParseOr(tokens, i + 1, depth + 1).None?
    ensures ParsePrimary(tokens, i, depth).None?
  {
  }

  /** A parenthesised node as a primary. */
  lemma {:induction false} GroupReads(m: Node, tokens: seq<Token>, i: nat, depth: nat)
    requires i <= |tokens| && At(tokens, i, [Open] + TokensOf(m) + [Close])
    ensures i < |tokens| && tokens[i] == Open
    ensures ParsePrimary(tokens, i, depth)
            == if depth + 1 + Nesting(m) <= MAX_DEPTH then Some((m, i + |TokensOf(m)| + 2)) else None
    decreases Size(m), 2
  {
    var j := i + 1 + |TokensOf(m)|;
    GroupLayout(TokensOf(m), tokens, i);
    UnaryReads(m, tokens, i + 1, depth + 1);
    GroupParses(tokens, i, depth, m, j, depth + 1 + Nesting(m) <= MAX_DEPTH);
  }

  lemma GroupLayout(ts: seq<Token>, tokens: seq<Token>, i: nat)
    requires At(tokens, i, [Open] + ts + [Close])
    ensures i + 1 + |ts| < |tokens| && tokens[i] == Open && tokens[i + 1 + |ts|] == Close && At(tokens, i + 1, ts)
  {
    AtSplit(tokens, i, [Open] + ts, [Close]);
    AtSplit(tokens, i, [Open], ts);
    AtHead(tokens, i, [Open]);
    AtHead(tokens, i + 1 + |ts|, [Close]);
  }

  lemma GroupParses(tokens: seq<Token>, i: nat, depth: nat, m: Node, j: nat, ok: bool)
    requires i + 1 < j < |tokens| && tokens[i] == Open && tokens[j] == Close && (ok ==> depth < MAX_DEPTH)
    requires ParseUnary(tokens, i + 1, depth + 1) == if ok then Some((m, j)) else None
    ensures ParsePrimary(tokens, i, depth) == if ok then Some((m, j + 1)) else None
  {
    if ok {
      OneOperand(tokens, i + 1, depth + 1, m, j);
      PrimaryGroup(tokens, i, depth, m, j);
    } else {
      NoOperand(tokens, i + 1, depth + 1);
      NoGroup(tokens, i, depth);
    }
  }

  /** Where the five pieces of a parenthesised pair lie. */
  lemma BinaryLayout(a: seq<Token>, t: Token, b: seq<Token>, tokens: seq<Token>, i: nat)
    requires At(tokens, i, [Open] + a + [t] + b + [Close])
    ensures var m, j := i + 1 + |a|, i + 2 + |a| + |b|;
            && j < |tokens| && tokens[i] == Open && tokens[m] == t && tokens[j] == Close
            && At(tokens, i + 1, a) && At(tokens, m + 1, b)
  {
    var m, j := i + 1 + |a|, i + 2 + |a| + |b|;
    AtSplit(tokens, i, [Open] + a + [t] + b, [Close]);
    AtSplit(tokens, i, [Open] + a + [t], b);
    AtSplit(tokens, i, [Open] + a, [t]);
    AtSplit(tokens, i, [Open], a);
    AtHead(tokens, i, [Open]);
    AtHead(tokens, m, [t]);
    AtHead(tokens, j, [Close]);
  }

  function Joined(l: Node, t: Token, r: Node): Node {
    if t == AndOp then And(l, r) else Or(l, r)
  }

  /** A parenthesised conjunction or disjunction as a primary. */
  lemma {:induction false} BinaryReads(l: Node, t: Token, r: Node, tokens: seq<Token>, i: nat, depth: nat)
    requires t == AndOp || t == OrOp
    requires i <= |tokens| && At(tokens, i, [Open] + TokensOf(l) + [t] + TokensOf(r) + [Close])
    ensures i < |tokens| && tokens[i] == Open
    ensures ParsePrimary(tokens, i, depth)
            == if depth + 1 + Nesting(l) <= MAX_DEPTH && depth + 1 + Nesting(r) <= MAX_DEPTH
               then Some((Joined(l, t, r), i + |TokensOf(l)| + |TokensOf(r)| + 3)) else None
    decreases Size(l) + Size(r), 2
  {
    BinaryLayout(TokensOf(l), t, TokensOf(r), tokens, i);
    var m, j := i + 1 + |TokensOf(l)|, i + 2 + |TokensOf(l)| + |TokensOf(r)|;
    UnaryReads(l, tokens, i + 1, depth + 1);
    UnaryReads(r, tokens, m + 1, depth + 1);
    BinaryParses(l, t, r, tokens, i, depth, m, j, depth + 1 + Nesting(l) <= MAX_DEPTH, depth + 1 + Nesting(r) <= MAX_DEPTH);
  }

  lemma BinaryParses(
    l: Node, t: Token, r: Node, tokens: seq<Token>, i: nat, depth: nat, m: nat, j: nat, left: bool, right: bool)
    requires i + 1 < m < m + 1 < j < |tokens| && tokens[i] == Open && tokens[m] == t && tokens[j] == Close
    requires (t == AndOp || t == OrOp) && (left ==> depth < MAX_DEPTH)
    requires ParseUnary(tokens, i + 1, depth + 1) == if left then Some((l, m)) else None
    requires ParseUnary(tokens, m + 1, depth + 1) == if right then Some((r, j)) else None
    ensures ParsePrimary(tokens, i, depth) == if left && right then Some((Joined(l, t, r), j + 1)) else None
  {
    if !left {
      NoOperand(tokens, i + 1, depth + 1);
      NoGroup(tokens, i, depth);
    } else if !right {
      NoSecondOperand(tokens, i + 1, depth + 1, l, m);
      NoGroup(tokens, i, depth);
    } else {
      TwoOperands(tokens, i + 1, depth + 1, l, m, r, j);
      PrimaryGroup(tokens, i, depth, Joined(l, t, r), j);
    }
  }

  /**
   * Round trip: a condition read back from its encoding is the same condition exactly when its
   * encoding nests at most 64 parentheses; a deeper one is rejected.
   */
  lemma ParseEncodes(n: Node)
    requires ValidNames(n)
    ensures Parse(Encode(n)) == if Nesting(n) <= MAX_DEPTH then Some(n) else None
  {
    TokenizeEncoding(n, "");
    assert Encode(n) + "" == Encode(n);
    var tokens := TokensOf(n);
    assert tokens + [] == tokens;
    assert Tokenize(Encode(n)) == Some(tokens);
    UnaryReads(n, tokens, 0, 0);
    if Nesting(n) <= MAX_DEPTH {
      OneOperand(tokens, 0, 0, n, |tokens|);
    } else {
      NoOperand(tokens, 0, 0);
    }
  }

  // ---------------------------------------------------------------- what does not read back

  function Bangs(count: nat): string {
    if count == 0 then "" else "!" + Bangs(count - 1)
  }

  function NotOps(count: nat): seq<Token> {
    if count == 0 then [] else [NotOp] + NotOps(count - 1)
  }

  lemma {:induction false} TokenizeBangs(count: nat, rest: string)
    ensures Tokenize(Bangs(count) + rest) == Prepend(NotOps(count), Tokenize(rest))
  {
    if count == 0 {
      assert "" + rest == rest;
      assert Tokenize(rest).Some? ==> [] + Tokenize(rest).value == Tokenize(rest).value;
    } else {
      assert Bangs(count) + rest == "!" + (Bangs(count - 1) + rest);
      TokenizeOne('!', NotOp, Bangs(count - 1) + rest);
      TokenizeBangs(count - 1, rest);
      PrependTwice([NotOp], NotOps(count - 1), Tokenize(rest));
    }
  }

  lemma {:induction false} CountsNots(count: nat, rest: seq<Token>, done: nat)
    requires done <= count && (rest != [] ==> rest[0] != NotOp)
    ensures |NotOps(count)| == count
    ensures CountNots(NotOps(count) + rest, done) == count - done
    decreases count - done
  {
    AllNotOps(count);
    if done < count {
      CountsNots(count, rest, done + 1);
      assert (NotOps(count) + rest)[done] == NotOp;
    }
  }

  lemma {:induction false} AllNotOps(count: nat)
    ensures |NotOps(count)| == count && forall i :: 0 <= i < count ==> NotOps(count)[i] == NotOp
  {
    if count > 0 {
      AllNotOps(count - 1);
    }
  }

  lemma {:induction false} NegateNests(n: Node, count: nat)
    ensures Nesting(Negate(n, count)) == count + Nesting(n)
    ensures ValidNames(n) ==> ValidNames(Negate(n, count))
  {
    if count > 0 {
      NegateNests(n, count - 1);
    }
  }

  lemma {:induction false} AfterNots(tokens: seq<Token>, nots: nat, depth: nat)
    requires nots <= |tokens| && CountNots(tokens, 0) == nots <= MAX_DEPTH
    ensures ParseUnary(tokens, 0, depth)
            == match ParsePrimary(tokens, nots, depth)
               case None => None
               case Some((n, j)) => Some((Negate(n, nots), j))
  {
  }

  lemma GroupAfterNots(n: Node, tokens: seq<Token>, count: nat)
    requires Nesting(n) <= MAX_DEPTH && (n.And? || n.Or?) && count <= |tokens| && At(tokens, count, TokensOf(n))
    ensures ParsePrimary(tokens, count, 0) == Some((n, count + |TokensOf(n)|))
  {
    UnaryReads(n, tokens, count, 0);
    AtHead(tokens, count, TokensOf(n));
    NoNots(tokens, count, 0);
  }

  lemma NotsThen(count: nat, ts: seq<Token>)
    requires ts != [] && ts[0] != NotOp
    ensures |NotOps(count)| == count && CountNots(NotOps(count) + ts, 0) == count
    ensures At(NotOps(count) + ts, count, ts)
  {
    AllNotOps(count);
    CountsNots(count, ts, 0);
  }

  lemma BangsUnary(n: Node, count: nat)
    requires Nesting(n) <= MAX_DEPTH && count <= MAX_DEPTH && (n.And? || n.Or?)
    ensures ParseUnary(NotOps(count) + TokensOf(n), 0, 0) == Some((Negate(n, count), count + |TokensOf(n)|))
  {
    var tokens := NotOps(count) + TokensOf(n);
    NotsThen(count, TokensOf(n));
    GroupAfterNots(n, tokens, count);
    AfterNots(tokens, count, 0);
  }

  lemma BangsTokens(n: Node, count: nat)
    requires ValidNames(n)
    ensures Tokenize(Bangs(count) + Encode(n)) == Some(NotOps(count) + TokensOf(n))
  {
    assert Encode(n) + "" == Encode(n);
    TokenizeEncoding(n, "");
    TokenizeBangs(count, Encode(n));
    assert TokensOf(n) + [] == TokensOf(n);
  }

  /** Up to 64 negations in front of a group are read without any parenthesis. */
  lemma BangsParse(n: Node, count: nat)
    requires ValidNames(n) && Nesting(n) <= MAX_DEPTH && count <= MAX_DEPTH && (n.And? || n.Or?)
    ensures Parse(Bangs(count) + Encode(n)) == Some(Negate(n, count))
  {
    var tokens := NotOps(count) + TokensOf(n);
    BangsTokens(n, count);
    AllNotOps(count);
    BangsUnary(n, count);
    OneOperand(tokens, 0, 0, Negate(n, count), |tokens|);
  }

  /**
   * So a condition the parser accepts can be lost when it is encoded again: the encoding puts
   * a parenthesis around every negated operand, and 64 negations of a group nest too deep.
   */
  lemma DeepNegationIsLost(a: string, b: string)
    requires ValidNames(Identifier(a)) && ValidNames(Identifier(b))
    ensures var n := And(Identifier(a), Identifier(b));
            Parse(Bangs(64) + Encode(n)) == Some(Negate(n, 64)) && Parse(Encode(Negate(n, 64))) == None
  {
    var n := And(Identifier(a), Identifier(b));
    BangsParse(n, 64);
    NegateNests(n, 64);
    ParseEncodes(Negate(n, 64));
  }
}
