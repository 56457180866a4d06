/** Printing a rule with only the parentheses it needs, and reading it back. */
module RulePrinter {
  import opened Options
  import opened Utf8
  import opened RuleSyntax
  import opened RuleLexer
  import opened RuleParser
  import opened RuleGrammar
  import opened RuleArguments

  /** Where a rule stands: as an expression, as a term, or as a factor. */
  datatype Place = AsExpression | AsTerm | AsFactor

  function Print(r: Rule, place: Place): string {
    match r
    case Match(m) => PrintMatcher(m)
    case And(left, right) =>
      Wrap(Print(left, AsTerm) + (Operator('&') + Print(right, AsFactor)), place == AsFactor)
    case Or(left, right) =>
      Wrap(Print(left, AsExpression) + (Operator('|') + Print(right, AsTerm)), place != AsExpression)
  }

  function Wrap(s: string, parens: bool): string {
    if parens then "(" + (s + ")") else s
  }

  function PrintMatcher(m: Matcher): string {
    Call(Name(m), PrintArgs(m))
  }

  function PrintArgs(m: Matcher): string {
    match m
    case Header(key, value) => Quote(key) + (", " + Quote(value))
    case _ => Quote(Args(m)[0])
  }

  /** Quoted with a mark that does not occur in the argument; an argument that contains both marks is
      written as adjacent quoted pieces. The empty argument is a quoted blank. */
  function Quote(a: string): string
    decreases |a|
  {
    if a == "" then "\" \""
    else if '"' !in a then "\"" + (a + "\"")
    else if '\'' !in a then "'" + (a + "'")
    else Quote(a[..1]) + Quote(a[1..])
  }

  /** What the quoted form contributes to the argument being read. */
  function Quotable(a: string): string {
    if a == "" then " " else a
  }

  // ------------------------------------------------------------------ the lexer on printed rules

  /** Reading `x` turns quote state `q` into `q'` without meeting a `)` outside quotes. */
  ghost predicate Passes(x: Bytes, q: Quote, q': Quote) {
    if x == [] then q == q'
    else !(q == Unquoted && x[0] == ')') && Passes(x[1..], Toggle(q, x[0]), q')
  }

  lemma {:induction false} PassesConcat(x: Bytes, y: Bytes, q: Quote, q1: Quote, q2: Quote)
    requires Passes(x, q, q1) && Passes(y, q1, q2)
    ensures Passes(x + y, q, q2)
  {
    if x == [] {
      assert x + y == y;
    } else {
      assert (x + y)[1..] == x[1..] + y;
      PassesConcat(x[1..], y, Toggle(q, x[0]), q1, q2);
    }
  }

  lemma {:induction false} ScanPast(x: Bytes, q: Quote, q': Quote, t: Bytes)
    requires Passes(x, q, q')
    ensures ScanWidth(x + t, q) == (var n := ScanWidth(t, q'); if n == -1 then -1 else |x| + n)
  {
    if x == [] {
      assert x + t == t;
    } else {
      assert (x + t)[1..] == x[1..] + t;
      ScanPast(x[1..], Toggle(q, x[0]), q', t);
    }
  }

  lemma {:induction false} PassesInside(x: Bytes, mark: char)
    requires mark !in x
    ensures Passes(x, Quoted(mark), Quoted(mark))
  {
    if x != [] {
      PassesInside(x[1..], mark);
    }
  }

  lemma PassesMarked(a: string, mark: char)
    requires IsQuote(mark) && mark !in a
    ensures Passes(Encode([mark] + (a + [mark])), Unquoted, Unquoted)
  {
    var inside := Encode(a);
    AsciiByteOfText(a, mark);
    PassesInside(inside, mark);
    EncodeAscii([mark]);
    EncodeConcat([mark], a + [mark]);
    EncodeConcat(a, [mark]);
    assert Passes([mark], Unquoted, Quoted(mark));
    assert Passes([mark], Quoted(mark), Unquoted);
    PassesConcat(inside, [mark], Quoted(mark), Quoted(mark), Unquoted);
    PassesConcat([mark], inside + [mark], Unquoted, Quoted(mark), Unquoted);
  }

  lemma {:induction false} PassesQuoted(a: string)
    ensures Passes(Encode(Quote(a)), Unquoted, Unquoted)
    decreases |a|
  {
    if a == "" {
      PassesMarked(" ", '"');
      assert "\" \"" == ['"'] + (" " + ['"']);
    } else if '"' !in a {
      PassesMarked(a, '"');
    } else if '\'' !in a {
      PassesMarked(a, '\'');
    } else {
      assert 1 < |a|;
      PassesQuoted(a[..1]);
      PassesQuoted(a[1..]);
      EncodeConcat(Quote(a[..1]), Quote(a[1..]));
      PassesConcat(Encode(Quote(a[..1])), Encode(Quote(a[1..])), Unquoted, Unquoted, Unquoted);
    }
  }

  lemma {:induction false} PassesPlain(x: Bytes)
    requires forall i :: 0 <= i < |x| ==> !IsQuote(x[i]) && x[i] != ')'
    ensures Passes(x, Unquoted, Unquoted)
  {
    if x != [] {
      PassesPlain(x[1..]);
    }
  }

  lemma PassesArgs(m: Matcher)
    ensures Passes(Encode(PrintArgs(m)), Unquoted, Unquoted)
  {
    match m
    case Header(key, value) =>
      EncodeConcat(Quote(key), ", " + Quote(value));
      EncodeConcat(", ", Quote(value));
      EncodeAscii(", ");
      PassesQuoted(key);
      PassesQuoted(value);
      PassesPlain(", ");
      PassesConcat(", ", Encode(Quote(value)), Unquoted, Unquoted, Unquoted);
      PassesConcat(Encode(Quote(key)), Encode(", " + Quote(value)), Unquoted, Unquoted, Unquoted);
    case _ =>
      PassesQuoted(Args(m)[0]);
  }

  predicate Plain(x: Bytes) {
    forall i :: 0 <= i < |x| ==> x[i] < '\U{80}' && !IsQuote(x[i]) && x[i] != '(' && x[i] != ')' && !IsSpace(x[i])
  }

  lemma NameIsPlain(m: Matcher)
    ensures Name(m) != [] && ByteIsLetter(Name(m)[0])
    ensures Plain(Name(m))
  {
  }

  /** A name applied to arguments. */
  function Call(name: string, args: string): string {
    name + ("(" + (args + ")"))
  }

  lemma CallBytes(name: Bytes, args: string)
    requires Plain(name)
    ensures Encode(Call(name, args)) == Call(name, Encode(args))
  {
    EncodeConcat(name, "(" + (args + ")"));
    EncodeConcat("(", args + ")");
    EncodeConcat(args, ")");
    EncodeAscii(name);
    EncodeAscii("(");
    EncodeAscii(")");
  }

  lemma CallScans(name: Bytes, args: Bytes, t: Bytes)
    requires Plain(name) && Passes(args, Unquoted, Unquoted)
    ensures ScanWidth(Call(name, args) + t, Unquoted) == |Call(name, args)|
  {
    PassesPlain(name);
    PassesPlain("(");
    PassesConcat("(", args, Unquoted, Unquoted, Unquoted);
    PassesConcat(name, "(" + args, Unquoted, Unquoted, Unquoted);
    var open, close := name + ("(" + args), ")" + t;
    ScanPast(open, Unquoted, Unquoted, close);
    CallSplits(name, args, t);
  }

  lemma CallSplits(name: Bytes, args: Bytes, t: Bytes)
    ensures Call(name, args) + t == (name + ("(" + args)) + (")" + t)
  {
    var paren, close := "(", ")";
    assert name + (paren + (args + close)) + t == (name + (paren + args)) + (close + t);
  }

  lemma TokensStep(s: Bytes, tok: Token, x: Bytes, t: Bytes)
    requires s == x + t && x != [] && !ByteIsSpace(x[0])
    requires TokenAt(s) == (tok, |x|) && tok != Eof && tok != Illegal
    ensures Tokens(s) == [tok] + Tokens(t)
  {
    assert s[0] == x[0] && SpaceWidth(s) == 0;
    assert s[0..] == s && s[|x|..] == t;
  }

  lemma TokensOfCall(x: Bytes, t: Bytes)
    requires x != [] && ByteIsLetter(x[0]) && ScanWidth(x + t, Unquoted) == |x|
    ensures Tokens(x + t) == [MatcherText(x)] + Tokens(t)
  {
    var s := x + t;
    assert s[0] == x[0] && s[..|x|] == x;
    TokensStep(s, MatcherText(x), x, t);
  }

  /** Blanks before a token do not matter. */
  lemma TokensAfterBlank(t: Bytes)
    ensures Tokens(" " + t) == Tokens(t)
  {
    var s := " " + t;
    assert s[1..] == t;
    assert SpaceWidth(s) == 1 + SpaceWidth(t);
    assert s[SpaceWidth(s)..] == t[SpaceWidth(t)..];
  }

  lemma TokensOfParen(p: char, t: Bytes)
    requires p == '(' || p == ')'
    ensures Tokens([p] + t) == [TokenFor(p)] + Tokens(t)
  {
    TokensStep([p] + t, TokenFor(p), [p], t);
  }

  lemma TokensOfDouble(c: char, t: Bytes)
    requires c == '&' || c == '|'
    ensures Tokens([c, c] + t) == [TokenFor(c)] + Tokens(t)
  {
    TokensStep([c, c] + t, TokenFor(c), [c, c], t);
  }

  function TokenFor(c: char): Token {
    if c == '(' then LParen else if c == ')' then RParen else if c == '&' then AndAnd else OrOr
  }

  function Operator(c: char): string {
    [' '] + ([c, c] + [' '])
  }

  lemma TokensOfOperator(c: char, t: Bytes)
    requires c == '&' || c == '|'
    ensures Tokens(Operator(c) + t) == [TokenFor(c)] + Tokens(t)
  {
    var after := [' '] + t;
    assert Operator(c) + t == [' '] + ([c, c] + after);
    TokensAfterBlank([c, c] + after);
    TokensOfDouble(c, after);
    TokensAfterBlank(t);
  }

  /** Text that always lexes to the same tokens, whatever follows. */
  ghost predicate LexesTo(x: string, toks: seq<Token>) {
    forall t: Bytes :: LexesBefore(x, toks, t)
  }

  ghost predicate LexesBefore(x: string, toks: seq<Token>, t: Bytes) {
    Tokens(Encode(x) + t) == toks + Tokens(t)
  }

  lemma LexesConcat(x: string, xs: seq<Token>, y: string, ys: seq<Token>)
    requires LexesTo(x, xs) && LexesTo(y, ys)
    ensures LexesTo(x + y, xs + ys)
  {
    EncodeConcat(x, y);
    forall t: Bytes
      ensures LexesBefore(x + y, xs + ys, t)
    {
      assert LexesBefore(y, ys, t);
      assert LexesBefore(x, xs, Encode(y) + t);
      Regroup(Encode(x), Encode(y), t);
      Regroup(xs, ys, Tokens(t));
    }
  }

  lemma Regroup<T>(a: seq<T>, b: seq<T>, c: seq<T>)
    ensures a + b + c == a + (b + c)
  {
  }

  lemma LexesParen(p: char)
    requires p == '(' || p == ')'
    ensures LexesTo([p], [TokenFor(p)])
  {
    EncodeAscii([p]);
    forall t: Bytes
      ensures LexesBefore([p], [TokenFor(p)], t)
    {
      TokensOfParen(p, t);
    }
  }

  lemma LexesOperator(c: char)
    requires c == '&' || c == '|'
    ensures LexesTo(Operator(c), [TokenFor(c)])
  {
    EncodeAscii(Operator(c));
    forall t: Bytes
      ensures LexesBefore(Operator(c), [TokenFor(c)], t)
    {
      TokensOfOperator(c, t);
    }
  }

  lemma LexesMatcher(m: Matcher)
    ensures LexesTo(PrintMatcher(m), [MatcherText(Encode(PrintMatcher(m)))])
  {
    NameIsPlain(m);
    LexesCall(Name(m), PrintArgs(m), m);
  }

  lemma LexesCall(name: Bytes, args: string, m: Matcher)
    requires name == Name(m) && args == PrintArgs(m)
    requires Plain(name) && name != [] && ByteIsLetter(name[0])
    ensures LexesTo(Call(name, args), [MatcherText(Encode(Call(name, args)))])
  {
    CallBytes(name, args);
    PassesArgs(m);
    forall t: Bytes
      ensures LexesBefore(Call(name, args), [MatcherText(Encode(Call(name, args)))], t)
    {
      CallScans(name, Encode(args), t);
      TokensOfCall(Call(name, Encode(args)), t);
    }
  }

  /** The tokens of a printed rule. */
  function PrintedTokens(r: Rule, place: Place): seq<Token> {
    match r
    case Match(m) => [MatcherText(Encode(PrintMatcher(m)))]
    case And(left, right) =>
      WrapTokens(PrintedTokens(left, AsTerm) + ([AndAnd] + PrintedTokens(right, AsFactor)), place == AsFactor)
    case Or(left, right) =>
      WrapTokens(PrintedTokens(left, AsExpression) + ([OrOr] + PrintedTokens(right, AsTerm)), place != AsExpression)
  }

  function WrapTokens(toks: seq<Token>, parens: bool): seq<Token> {
    if parens then [LParen] + (toks + [RParen]) else toks
  }

  lemma LexesWrapped(s: string, toks: seq<Token>, parens: bool)
    requires LexesTo(s, toks)
    ensures LexesTo(Wrap(s, parens), WrapTokens(toks, parens))
  {
    if parens {
      LexesParen('(');
      LexesParen(')');
      LexesConcat(s, toks, [')'], [RParen]);
      LexesConcat(['('], [LParen], s + [')'], toks + [RParen]);
    }
  }

  lemma LexesBinary(a: string, as': seq<Token>, c: char, b: string, bs: seq<Token>)
    requires c == '&' || c == '|'
    requires LexesTo(a, as') && LexesTo(b, bs)
    ensures LexesTo(a + (Operator(c) + b), as' + ([TokenFor(c)] + bs))
  {
    var op := [TokenFor(c)];
    LexesOperator(c);
    LexesConcat(Operator(c), op, b, bs);
    LexesConcat(a, as', Operator(c) + b, op + bs);
  }

  /** Lexing what was printed gives the tokens that were meant, whatever follows. */
  lemma {:induction false} LexesPrinted(r: Rule, place: Place)
    ensures LexesTo(Print(r, place), PrintedTokens(r, place))
    decreases r
  {
    match r
    case Match(m) =>
      LexesMatcher(m);
    case And(left, right) =>
      LexesPrinted(left, AsTerm);
      LexesPrinted(right, AsFactor);
      var a, as' := Print(left, AsTerm), PrintedTokens(left, AsTerm);
      var b, bs := Print(right, AsFactor), PrintedTokens(right, AsFactor);
      LexesBinary(a, as', '&', b, bs);
      LexesWrapped(a + (Operator('&') + b), as' + ([AndAnd] + bs), place == AsFactor);
    case Or(left, right) =>
      LexesPrinted(left, AsExpression);
      LexesPrinted(right, AsTerm);
      var a, as' := Print(left, AsExpression), PrintedTokens(left, AsExpression);
      var b, bs := Print(right, AsTerm), PrintedTokens(right, AsTerm);
      LexesBinary(a, as', '|', b, bs);
      LexesWrapped(a + (Operator('|') + b), as' + ([OrOr] + bs), place != AsExpression);
  }

  // ------------------------------------------------------------------ matcher texts

  /** Reading a quoted argument adds its text to the argument being read. */
  lemma {:induction false} SplitQuoted(a: string, t: string, cur: string)
    ensures SplitArgs(Quote(a) + t, cur, Unquoted) == SplitArgs(t, cur + Quotable(a), Unquoted)
    decreases |a|
  {
    if a == "" {
      SplitMarked(" ", '"', t, cur);
      assert "\" \"" == ['"'] + (" " + ['"']);
    } else if '"' !in a {
      SplitMarked(a, '"', t, cur);
    } else if '\'' !in a {
      SplitMarked(a, '\'', t, cur);
    } else {
      assert 1 < |a| && a == a[..1] + a[1..];
      SplitQuoted(a[..1], Quote(a[1..]) + t, cur);
      SplitQuoted(a[1..], t, cur + a[..1]);
      SplitPieces(Quote(a[..1]), Quote(a[1..]), t, cur, a[..1], a[1..]);
    }
  }

  lemma SplitPieces(p: string, q: string, t: string, cur: string, x: string, y: string)
    requires SplitArgs(p + (q + t), cur, Unquoted) == SplitArgs(q + t, cur + x, Unquoted)
    requires SplitArgs(q + t, cur + x, Unquoted) == SplitArgs(t, (cur + x) + y, Unquoted)
    ensures SplitArgs((p + q) + t, cur, Unquoted) == SplitArgs(t, cur + (x + y), Unquoted)
  {
    Regroup(p, q, t);
    Regroup(cur, x, y);
  }

  lemma TrimQuotable(a: string)
    requires Trimmed(a)
    ensures Trim(Quotable(a)) == a && Trim(" " + Quotable(a)) == a
  {
    TrimIsTrimmed(a);
    assert (" " + Quotable(a))[1..] == Quotable(a);
    if a == "" {
      assert TrimLeft(" ") == TrimLeft("");
    }
  }

  lemma SplitOne(a: string)
    requires Trimmed(a)
    ensures SplitArgs(Quote(a), [], Unquoted) == Some([a])
  {
    assert Quote(a) == Quote(a) + [];
    SplitQuoted(a, [], []);
    assert [] + Quotable(a) == Quotable(a);
    TrimQuotable(a);
  }

  lemma SplitTwo(a: string, b: string)
    requires Trimmed(a) && Trimmed(b)
    ensures SplitArgs(Quote(a) + (", " + Quote(b)), [], Unquoted) == Some([a, b])
  {
    SplitQuoted(a, ", " + Quote(b), []);
    assert [] + Quotable(a) == Quotable(a);
    TrimQuotable(a);
    SplitSecond(b);
    SplitComma(" " + Quote(b), Quotable(a), [b]);
    assert ", " + Quote(b) == [','] + (" " + Quote(b));
    assert [a] + [b] == [a, b];
  }

  lemma SplitComma(t: string, cur: string, rest: seq<string>)
    requires SplitArgs(t, [], Unquoted) == Some(rest)
    ensures SplitArgs([','] + t, cur, Unquoted) == Some([Trim(cur)] + rest)
  {
    assert ([','] + t)[1..] == t;
  }

  lemma SplitSecond(b: string)
    requires Trimmed(b)
    ensures SplitArgs(" " + Quote(b), [], Unquoted) == Some([b])
  {
    assert (" " + Quote(b))[1..] == Quote(b);
    assert [] + [' '] == " ";
    assert Quote(b) == Quote(b) + [];
    SplitQuoted(b, [], " ");
    TrimQuotable(b);
  }

  lemma SplitPrintedArgs(m: Matcher)
    requires AllTrimmed(Match(m))
    ensures SplitArgs(PrintArgs(m), [], Unquoted) == Some(Args(m))
  {
    assert Trimmed(Args(m)[0]);
    match m
    case Header(key, value) =>
      assert Trimmed(Args(m)[1]);
      SplitTwo(key, value);
    case _ =>
      SplitOne(Args(m)[0]);
  }

  lemma {:induction false} QuoteEnds(a: string)
    ensures var s := Quote(a); s != [] && IsQuote(s[0]) && IsQuote(s[|s| - 1])
    decreases |a|
  {
    if a != "" && '"' in a && '\'' in a {
      assert 1 < |a|;
      QuoteEnds(a[..1]);
      QuoteEnds(a[1..]);
    }
  }

  lemma BetweenQuotesTrimmed(a: string, mid: string, b: string)
    ensures Trimmed(Quote(a)) && Trimmed(Quote(a) + (mid + Quote(b)))
    ensures Quote(a) != []
  {
    QuoteEnds(a);
    QuoteEnds(b);
    var s := Quote(a) + (mid + Quote(b));
    assert s[0] == Quote(a)[0] && s[|s| - 1] == Quote(b)[|Quote(b)| - 1];
  }

  lemma PrintedArgsTrimmed(m: Matcher)
    ensures Trimmed(PrintArgs(m)) && PrintArgs(m) != []
  {
    match m
    case Header(key, value) => BetweenQuotesTrimmed(key, ", ", value);
    case _ => BetweenQuotesTrimmed(Args(m)[0], [], []);
  }

  lemma {:induction false} ParenAfter(name: Bytes, t: Bytes)
    requires '(' !in name
    ensures IndexOfParen(name + ("(" + t)) == |name|
  {
    if name == [] {
      assert name + ("(" + t) == "(" + t;
    } else {
      assert (name + ("(" + t))[1..] == name[1..] + ("(" + t);
      ParenAfter(name[1..], t);
    }
  }

  lemma {:induction false} PlainIsTrimmed(name: Bytes)
    requires Plain(name)
    ensures Trim(name) == name && '(' !in name && Decode(name) == name
  {
    TrimIsTrimmed(name);
    EncodeAscii(name);
    DecodeEncode(name);
  }

  lemma CallParts(name: Bytes, inside: Bytes)
    ensures var x := Call(name, inside);
            && |x| == |name| + |inside| + 2 && x[|x| - 1] == ')'
            && x[..|name|] == name && x[|name| + 1..|x| - 1] == inside
  {
  }

  lemma MatcherOfCall(name: Bytes, inside: Bytes, args: string, values: seq<string>)
    requires Plain(name) && Decode(inside) == args && Trimmed(args) && args != []
    requires SplitArgs(args, [], Unquoted) == Some(values)
    ensures MatcherOf(Call(name, inside)) == Dispatch(name, values)
  {
    PlainIsTrimmed(name);
    ParenAfter(name, inside + ")");
    CallParts(name, inside);
    TrimIsTrimmed(args);
    assert ArgsOf(args) == Some(values);
    assert Call(name, inside) == name + ("(" + (inside + ")"));
    MatcherOfParts(Call(name, inside), |name|, name, inside, name, args, values);
  }

  lemma MatcherOfParts(x: Bytes, idx: nat, before: Bytes, inside: Bytes,
                       name: string, args: string, values: seq<string>)
    requires idx + 1 < |x| && IndexOfParen(x) == idx && x[|x| - 1] == ')'
    requires x[..idx] == before && x[idx + 1..|x| - 1] == inside
    requires Trim(Decode(before)) == name && Trim(Decode(inside)) == args
    requires ArgsOf(args) == Some(values)
    ensures MatcherOf(x) == Dispatch(name, values)
  {
  }

  /** A printed matcher denotes the matcher. */
  lemma MatcherOfPrinted(m: Matcher)
    requires AllTrimmed(Match(m))
    ensures MatcherOf(Encode(PrintMatcher(m))) == Some(m)
  {
    NameIsPlain(m);
    CallBytes(Name(m), PrintArgs(m));
    PrintedArgsTrimmed(m);
    SplitPrintedArgs(m);
    DecodeEncode(PrintArgs(m));
    MatcherOfCall(Name(m), Encode(PrintArgs(m)), PrintArgs(m), Args(m));
    DispatchName(m);
  }

  lemma DispatchName(m: Matcher)
    ensures Dispatch(Name(m), Args(m)) == Some(m)
  {
  }

  // ------------------------------------------------------------------ round trip

  lemma WrappedDerives(toks: seq<Token>, r: Rule)
    requires DerivesExpression(toks, r)
    ensures DerivesFactor(WrapTokens(toks, true), r)
  {
    var wrapped := WrapTokens(toks, true);
    assert wrapped[1..|wrapped| - 1] == toks;
  }

  lemma AndDerives(l: Rule, a: seq<Token>, r: Rule, b: seq<Token>)
    requires DerivesTerm(a, l) && DerivesFactor(b, r)
    ensures DerivesTerm(a + ([AndAnd] + b), And(l, r))
  {
    var toks := a + ([AndAnd] + b);
    assert toks[..|a|] == a && toks[|a| + 1..] == b;
    assert SplitsAtAnd(toks, |a|, And(l, r));
  }

  lemma OrDerives(l: Rule, a: seq<Token>, r: Rule, b: seq<Token>)
    requires DerivesExpression(a, l) && DerivesTerm(b, r)
    ensures DerivesExpression(a + ([OrOr] + b), Or(l, r))
  {
    var toks := a + ([OrOr] + b);
    assert toks[..|a|] == a && toks[|a| + 1..] == b;
    assert SplitsAtOr(toks, |a|, Or(l, r));
  }

  ghost predicate DerivesAt(toks: seq<Token>, r: Rule, place: Place) {
    match place
    case AsExpression => DerivesExpression(toks, r)
    case AsTerm => DerivesTerm(toks, r)
    case AsFactor => DerivesFactor(toks, r)
  }

  /** The grammar derives a rule from its printed tokens, at each place. */
  lemma {:induction false} PrintedDerives(r: Rule, place: Place)
    requires AllTrimmed(r)
    ensures DerivesAt(PrintedTokens(r, place), r, place)
    decreases r
  {
    match r
    case Match(m) =>
      MatcherOfPrinted(m);
    case And(left, right) =>
      var a, b := PrintedTokens(left, AsTerm), PrintedTokens(right, AsFactor);
      PrintedDerives(left, AsTerm);
      PrintedDerives(right, AsFactor);
      AndDerives(left, a, right, b);
      WrappedDerives(a + ([AndAnd] + b), r);
    case Or(left, right) =>
      var a, b := PrintedTokens(left, AsExpression), PrintedTokens(right, AsTerm);
      PrintedDerives(left, AsExpression);
      PrintedDerives(right, AsTerm);
      OrDerives(left, a, right, b);
      WrappedDerives(a + ([OrOr] + b), r);
  }

  // ------------------------------------------------------------------ no parenthesis too many

  /** A place that takes more rules needs no more tokens. */
  lemma PlaceCosts(r: Rule)
    ensures |PrintedTokens(r, AsExpression)| <= |PrintedTokens(r, AsTerm)| <= |PrintedTokens(r, AsFactor)|
    ensures |PrintedTokens(r, AsFactor)| <= |PrintedTokens(r, AsExpression)| + 2
  {
  }

  /** No token sequence that derives a rule is shorter than the printed one, at any place. */
  lemma {:induction false} PrintIsShortest(toks: seq<Token>, r: Rule, place: Place)
    requires DerivesAt(toks, r, place)
    ensures |PrintedTokens(r, place)| <= |toks|
    decreases |toks|, match place case AsFactor => 0 case AsTerm => 1 case AsExpression => 2
  {
    PlaceCosts(r);
    match place
    case AsFactor =>
      if 2 <= |toks| {
        PrintIsShortest(toks[1..|toks| - 1], r, AsExpression);
      }
    case AsTerm =>
      assert DerivesTerm(toks, r);
      if DerivesFactor(toks, r) {
        PrintIsShortest(toks, r, AsFactor);
      } else {
        var i: nat :| i < |toks| && SplitsAtAnd(toks, i, r);
        PrintIsShortest(toks[..i], r.left, AsTerm);
        PrintIsShortest(toks[i + 1..], r.right, AsFactor);
      }
    case AsExpression =>
      assert DerivesExpression(toks, r);
      if DerivesTerm(toks, r) {
        PrintIsShortest(toks, r, AsTerm);
      } else {
        var i: nat :| i < |toks| && SplitsAtOr(toks, i, r);
        PrintIsShortest(toks[..i], r.left, AsExpression);
        PrintIsShortest(toks[i + 1..], r.right, AsTerm);
      }
  }

  /** Dropping any two tokens of the printed form, a pair of parentheses in particular, gives something else:
      it no longer derives the rule. */
  lemma EveryParenthesisIsNeeded(r: Rule, i: nat, j: nat)
    requires i < j < |PrintedTokens(r, AsExpression)|
    ensures var toks := PrintedTokens(r, AsExpression);
            !DerivesExpression(toks[..i] + toks[i + 1..j] + toks[j + 1..], r)
  {
    var toks := PrintedTokens(r, AsExpression);
    var fewer := toks[..i] + toks[i + 1..j] + toks[j + 1..];
    if DerivesExpression(fewer, r) {
      PrintIsShortest(fewer, r, AsExpression);
    }
  }

  /** A printed rule parses to the rule. */
  lemma RoundTrip(r: Rule)
    requires AllTrimmed(r)
    ensures Parse(Encode(Print(r, AsExpression))) == Some(r)
  {
    LexesPrinted(r, AsExpression);
    assert LexesBefore(Print(r, AsExpression), PrintedTokens(r, AsExpression), []);
    assert Encode(Print(r, AsExpression)) + [] == Encode(Print(r, AsExpression));
    assert Tokens([]) == [Eof];
    PrintedDerives(r, AsExpression);
    DerivedIsParsed(PrintedTokens(r, AsExpression), r);
  }

  // ------------------------------------------------------------------ the range of the parser

  lemma {:induction false} SplitIsTrimmed(s: string, cur: string, q: Quote, args: seq<string>)
    requires SplitArgs(s, cur, q) == Some(args)
    ensures forall i :: 0 <= i < |args| ==> Trimmed(args[i])
    decreases |s|
  {
    TrimIsTrimmed(cur);
    if s != [] {
      if q == Unquoted && s[0] == ',' {
        SplitIsTrimmed(s[1..], [], Unquoted, SplitArgs(s[1..], [], Unquoted).value);
      } else {
        SplitIsTrimmed(s[1..], if Toggle(q, s[0]) == q then cur + [s[0]] else cur, Toggle(q, s[0]), args);
      }
    }
  }

  lemma MatcherOfIsTrimmed(text: Bytes, m: Matcher)
    requires MatcherOf(text) == Some(m)
    ensures AllTrimmed(Match(m))
  {
    var s := Trim(Decode(text[IndexOfParen(text) + 1..|text| - 1]));
    if Trim(s) != "" {
      SplitIsTrimmed(s, [], Unquoted, ArgsOf(s).value);
    }
  }

  lemma {:induction false} FactorIsTrimmed(toks: seq<Token>, r: Rule)
    requires DerivesFactor(toks, r)
    ensures AllTrimmed(r)
    decreases |toks|, 0
  {
    if |toks| == 1 {
      MatcherOfIsTrimmed(toks[0].text, r.m);
    } else {
      DerivedIsTrimmed(toks[1..|toks| - 1], r);
    }
  }

  lemma {:induction false} TermIsTrimmed(toks: seq<Token>, r: Rule)
    requires DerivesTerm(toks, r)
    ensures AllTrimmed(r)
    decreases |toks|, 1
  {
    if DerivesFactor(toks, r) {
      FactorIsTrimmed(toks, r);
    } else {
      var i: nat :| i < |toks| && SplitsAtAnd(toks, i, r);
      TermIsTrimmed(toks[..i], r.left);
      FactorIsTrimmed(toks[i + 1..], r.right);
    }
  }

  lemma {:induction false} DerivedIsTrimmed(toks: seq<Token>, r: Rule)
    requires DerivesExpression(toks, r)
    ensures AllTrimmed(r)
    decreases |toks|, 2
  {
    if DerivesTerm(toks, r) {
      TermIsTrimmed(toks, r);
    } else {
      var i: nat :| i < |toks| && SplitsAtOr(toks, i, r);
      DerivedIsTrimmed(toks[..i], r.left);
      TermIsTrimmed(toks[i + 1..], r.right);
    }
  }

  /** Whatever the parser accepts, its tree prints to a rule that parses to the same tree. */
  lemma AcceptedRoundTrips(rule: Bytes, r: Rule)
    requires Parse(rule) == Some(r)
    ensures Parse(Encode(Print(r, AsExpression))) == Some(r)
  {
    ParsedIsDerived(rule, r);
    DerivedIsTrimmed(Before(Tokens(rule), [Eof]), r);
    RoundTrip(r);
  }

  /** The trees that survive printing and parsing, which are also the trees the parser can return at all,
      are those whose arguments carry no white space at their ends. */
  lemma RoundTripsExactly(r: Rule)
    ensures Parse(Encode(Print(r, AsExpression))) == Some(r) <==> AllTrimmed(r)
    ensures (exists rule :: Parse(rule) == Some(r)) <==> AllTrimmed(r)
  {
    if AllTrimmed(r) {
      RoundTrip(r);
    }
    if rule :| Parse(rule) == Some(r) {
      ParsedIsDerived(rule, r);
      DerivedIsTrimmed(Before(Tokens(rule), [Eof]), r);
    }
  }
}
