/** The recursive-descent parser of the rule language, and the object that runs it token by token. */
module RuleParser {
  import opened Options
  import opened Utf8
  import opened RuleSyntax
  import opened RuleLexer

  // ------------------------------------------------------------------ matcher arguments

  /** Arguments are separated by commas outside quotes and trimmed; quotes themselves are dropped. `cur` is
      the text of the argument being read. */
  function SplitArgs(s: string, cur: string, q: Quote): Option<seq<string>> {
    if s == [] then
      if q != Unquoted then None else Some(if cur == [] then [] else [Trim(cur)])
    else if q == Unquoted && s[0] == ',' then
      var rest :- SplitArgs(s[1..], [], Unquoted);
      Some([Trim(cur)] + rest)
    else
      SplitArgs(s[1..], if Toggle(q, s[0]) == q then cur + [s[0]] else cur, Toggle(q, s[0]))
  }

  function ArgsOf(s: string): Option<seq<string>> {
    if Trim(s) == "" then Some([]) else SplitArgs(s, [], Unquoted)
  }

  method ParseArgs(s: string) returns (r: Option<seq<string>>)
    ensures r == ArgsOf(s)
  {
    if Trim(s) == "" {
      return Some([]);
    }
    var args: seq<string>, current: string := [], [];
    var inQuotes, quoteChar := false, ' ';
    ghost var q := Unquoted;
    var i := 0;
    assert s[0..] == s;
    PrependNone(SplitArgs(s, [], Unquoted));
    while i < |s|
      invariant 0 <= i <= |s|
      invariant q == if inQuotes then Quoted(quoteChar) else Unquoted
      invariant inQuotes ==> IsQuote(quoteChar)
      invariant SplitArgs(s, [], Unquoted) == Prepend(args, SplitArgs(s[i..], current, q))
    {
      var c := s[i];
      assert s[i..][1..] == s[i + 1..];
      if inQuotes {
        if c == quoteChar {
          inQuotes := false;
        } else {
          current := current + [c];
        }
      } else {
        if c == '\'' || c == '"' {
          inQuotes, quoteChar := true, c;
        } else if c == ',' {
          PrependOne(args, Trim(current), SplitArgs(s[i + 1..], [], Unquoted));
          args, current := args + [Trim(current)], [];
        } else {
          current := current + [c];
        }
      }
      q := Toggle(q, c);
      i := i + 1;
    }
    assert s[i..] == [] && args + [] == args;
    if inQuotes {
      return None;
    }
    if |current| > 0 {
      args := args + [Trim(current)];
    }
    assert SplitArgs(s, [], Unquoted) == Some(args);
    r := Some(args);
  }

  function Prepend(args: seq<string>, r: Option<seq<string>>): Option<seq<string>> {
    match r
    case None => None
    case Some(rest) => Some(args + rest)
  }

  lemma PrependNone(r: Option<seq<string>>)
    ensures Prepend([], r) == r
  {
    if r.Some? {
      assert [] + r.value == r.value;
    }
  }

  lemma PrependOne(args: seq<string>, arg: string, r: Option<seq<string>>)
    ensures Prepend(args, Prepend([arg], r)) == Prepend(args + [arg], r)
  {
    if r.Some? {
      assert args + ([arg] + r.value) == args + [arg] + r.value;
    }
  }

  function IndexOfParen(s: Bytes): (i: int)
    ensures i == -1 ==> '(' !in s
    ensures i != -1 ==> 0 <= i < |s| && s[i] == '(' && '(' !in s[..i]
  {
    if s == [] then -1
    else if s[0] == '(' then 0
    else
      var i := IndexOfParen(s[1..]);
      if i == -1 then -1 else i + 1
  }

  /** Which matcher a name and its arguments denote. */
  function Dispatch(name: string, args: seq<string>): Option<Matcher> {
    if name == "PathPrefix" then if |args| == 1 then Some(PathPrefix(args[0])) else None
    else if name == "Path" then if |args| == 1 then Some(Path(args[0])) else None
    else if name == "Method" then if |args| == 1 then Some(Method(args[0])) else None
    else if name == "Header" then if |args| == 2 then Some(Header(args[0], args[1])) else None
    else if name == "ClientIP" then if |args| == 1 then Some(ClientIP(args[0])) else None
    else None
  }

  /** The matcher a matcher token denotes, if any. */
  function MatcherOf(s: Bytes): Option<Matcher> {
    var idx := IndexOfParen(s);
    if idx == -1 || s[|s| - 1] != ')' then None else
      var args :- ArgsOf(Trim(Decode(s[idx + 1..|s| - 1])));
      Dispatch(Trim(Decode(s[..idx])), args)
  }

  method CreateMatcher(s: Bytes) returns (m: Option<Matcher>)
    ensures m == MatcherOf(s)
  {
    var idx := IndexOfParen(s);
    if idx == -1 || s[|s| - 1] != ')' {
      return None;
    }
    var name := Trim(Decode(s[..idx]));
    var args := ParseArgs(Trim(Decode(s[idx + 1..|s| - 1])));
    if args == None {
      return None;
    }
    m := Dispatch(name, args.value);
  }

  // ------------------------------------------------------------------ the parser on a token sequence

  type Parsed = Option<(Rule, seq<Token>)>

  /** One token further, unless the next token is illegal. The first token of a sequence is the current one. */
  function Advance(ts: seq<Token>): Option<seq<Token>> {
    if |ts| <= 1 || ts[1] == Illegal then None else Some(ts[1..])
  }

  predicate AtToken(ts: seq<Token>, tok: Token) {
    ts != [] && ts[0] == tok
  }

  /** The end of a group. */
  function Close(m: Rule, ts: seq<Token>): (r: Parsed)
    ensures r.Some? ==> |r.value.1| < |ts|
  {
    if !AtToken(ts, RParen) then None else
      var rest :- Advance(ts);
      Some((m, rest))
  }

  function Factor(ts: seq<Token>): (r: Parsed)
    ensures r.Some? ==> |r.value.1| < |ts|
    decreases |ts|, 0
  {
    if ts == [] then None
    else match ts[0]
      case LParen =>
        var t1 :- Advance(ts);
        var (m, t2) :- Expression(t1);
        Close(m, t2)
      case MatcherText(text) =>
        var m :- MatcherOf(text);
        var t1 :- Advance(ts);
        Some((Match(m), t1))
      case _ => None
  }

  function Term(ts: seq<Token>): (r: Parsed)
    ensures r.Some? ==> |r.value.1| < |ts|
    decreases |ts|, 1
  {
    var (m, rest) :- Factor(ts);
    TermTail(m, rest)
  }

  /** Further factors, folded to the left onto `m`. */
  function TermTail(m: Rule, ts: seq<Token>): (r: Parsed)
    ensures r.Some? ==> |r.value.1| <= |ts|
    decreases |ts|, 1
  {
    if !AtToken(ts, AndAnd) then Some((m, ts)) else
      var t1 :- Advance(ts);
      var (right, t2) :- Factor(t1);
      TermTail(And(m, right), t2)
  }

  function Expression(ts: seq<Token>): (r: Parsed)
    ensures r.Some? ==> |r.value.1| < |ts|
    decreases |ts|, 2
  {
    var (m, rest) :- Term(ts);
    ExpressionTail(m, rest)
  }

  /** Further terms, folded to the left onto `m`. */
  function ExpressionTail(m: Rule, ts: seq<Token>): (r: Parsed)
    ensures r.Some? ==> |r.value.1| <= |ts|
    decreases |ts|, 2
  {
    if !AtToken(ts, OrOr) then Some((m, ts)) else
      var t1 :- Advance(ts);
      var (right, t2) :- Term(t1);
      ExpressionTail(Or(m, right), t2)
  }

  /** The rule a whole token sequence denotes. */
  function ParseTokens(ts: seq<Token>): Option<Rule> {
    if ts == [] || ts[0] == Illegal then None else
      var (m, rest) :- Expression(ts);
      if AtToken(rest, Eof) then Some(m) else None
  }

  function Parse(rule: Bytes): Option<Rule> {
    ParseTokens(Tokens(rule))
  }

  // ------------------------------------------------------------------ the parser object

  class Parser {
    const lex: Lexer
    var curTok: Token

    constructor (rule: Bytes)
      ensures Valid() && fresh(this) && fresh(lex)
      ensures lex.input == rule && lex.pos == 0
    {
      lex := new Lexer(rule);
      curTok := Eof;
    }

    ghost predicate Valid()
      reads this, lex
    {
      lex.Valid()
    }

    /** The tokens still to be parsed, the current one first. */
    ghost function Rest(): seq<Token>
      requires Valid()
      reads this, lex
    {
      if curTok == Eof then [Eof] else [curTok] + Tokens(lex.input[lex.pos..])
    }

    /** False on a lexical error. */
    method Next() returns (ok: bool)
      requires Valid()
      modifies this, lex
      ensures Valid()
      ensures ok <==> Tokens(old(lex.input[lex.pos..]))[0] != Illegal
      ensures ok ==> Rest() == Tokens(old(lex.input[lex.pos..]))
    {
      var tok := lex.NextToken();
      ok := tok != Illegal;
      curTok := if ok then tok else Eof;
    }

    /** Next, seen from a current token other than Eof. */
    method Move() returns (ok: bool)
      requires Valid() && curTok != Eof
      modifies this, lex
      ensures Valid()
      ensures ok <==> Advance(old(Rest())).Some?
      ensures ok ==> Rest() == Advance(old(Rest())).value && |Rest()| < |old(Rest())|
    {
      ok := Next();
    }

    method ParseExpression() returns (r: Option<Rule>)
      requires Valid()
      modifies this, lex
      ensures Valid()
      ensures r == None <==> Expression(old(Rest())) == None
      ensures r.Some? ==> Expression(old(Rest())) == Some((r.value, Rest()))
      decreases |Rest()|, 3
    {
      ghost var start := Rest();
      var m := ParseTerm();
      if m == None {
        return None;
      }
      while curTok == OrOr
        invariant Valid() && m.Some?
        invariant |Rest()| < |start|
        invariant Expression(start) == ExpressionTail(m.value, Rest())
        decreases |Rest()|
      {
        var ok := Move();
        if !ok {
          return None;
        }
        var right := ParseTerm();
        if right == None {
          return None;
        }
        m := Some(Or(m.value, right.value));
      }
      r := m;
    }

    method ParseTerm() returns (r: Option<Rule>)
      requires Valid()
      modifies this, lex
      ensures Valid()
      ensures r == None <==> Term(old(Rest())) == None
      ensures r.Some? ==> Term(old(Rest())) == Some((r.value, Rest()))
      decreases |Rest()|, 2
    {
      ghost var start := Rest();
      var m := ParseFactor();
      if m == None {
        return None;
      }
      while curTok == AndAnd
        invariant Valid() && m.Some?
        invariant |Rest()| < |start|
        invariant Term(start) == TermTail(m.value, Rest())
        decreases |Rest()|
      {
        var ok := Move();
        if !ok {
          return None;
        }
        var right := ParseFactor();
        if right == None {
          return None;
        }
        m := Some(And(m.value, right.value));
      }
      r := m;
    }

    /** The parenthesised alternative of a factor. */
    method ParseGroup() returns (r: Option<Rule>)
      requires Valid() && curTok == LParen
      modifies this, lex
      ensures Valid()
      ensures r == None <==> Factor(old(Rest())) == None
      ensures r.Some? ==> Factor(old(Rest())) == Some((r.value, Rest()))
      decreases |Rest()|, 0
    {
      var ok := Move();
      if !ok {
        return None;
      }
      var m := ParseExpression();
      if m == None {
        return None;
      }
      r := CloseGroup(m.value);
    }

    method CloseGroup(m: Rule) returns (r: Option<Rule>)
      requires Valid()
      modifies this, lex
      ensures Valid()
      ensures r == None <==> Close(m, old(Rest())) == None
      ensures r.Some? ==> Close(m, old(Rest())) == Some((r.value, Rest()))
    {
      if curTok != RParen {
        return None;
      }
      var ok := Move();
      if !ok {
        return None;
      }
      r := Some(m);
    }

    method ParseFactor() returns (r: Option<Rule>)
      requires Valid()
      modifies this, lex
      ensures Valid()
      ensures r == None <==> Factor(old(Rest())) == None
      ensures r.Some? ==> Factor(old(Rest())) == Some((r.value, Rest()))
      decreases |Rest()|, 1
    {
      if curTok == LParen {
        r := ParseGroup();
        return;
      }
      if curTok.MatcherText? {
        var m := CreateMatcher(curTok.text);
        if m == None {
          return None;
        }
        var ok := Move();
        if !ok {
          return None;
        }
        return Some(Match(m.value));
      }
      return None;
    }
  }

  method ParseRule(rule: Bytes) returns (r: Option<Rule>)
    ensures r == Parse(rule)
  {
    var p := new Parser(rule);
    assert rule[0..] == rule;
    var ok := p.Next();
    if !ok {
      return None;
    }
    var m := p.ParseExpression();
    if m == None || p.curTok != Eof {
      return None;
    }
    r := m;
  }
}
