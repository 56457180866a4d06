/** The hand-written lexer of the rule language: what it produces, and the object that advances a position. */
module RuleLexer {
  import opened Utf8

  datatype Token = Eof | AndAnd | OrOr | LParen | RParen | MatcherText(text: Bytes) | Illegal

  /** White space and letters among single bytes, read as Latin-1 characters. */
  predicate ByteIsSpace(b: char) {
    '\t' <= b <= '\r' || b == ' ' || b == '\U{85}' || b == '\U{A0}'
  }

  predicate ByteIsLetter(b: char) {
    || 'a' <= b <= 'z' || 'A' <= b <= 'Z'
    || b == '\U{AA}' || b == '\U{B5}' || b == '\U{BA}'
    || '\U{C0}' <= b <= '\U{D6}' || '\U{D8}' <= b <= '\U{F6}' || '\U{F8}' <= b <= '\U{FF}'
  }

  datatype Quote = Unquoted | Quoted(mark: char)

  predicate IsQuote(b: char) {
    b == '\'' || b == '"'
  }

  /** The quote state after one more character. */
  function Toggle(q: Quote, b: char): Quote {
    match q
    case Quoted(mark) => if b == mark then Unquoted else q
    case Unquoted => if IsQuote(b) then Quoted(b) else Unquoted
  }

  function SpaceWidth(s: Bytes): (n: nat)
    ensures n <= |s|
    ensures n < |s| ==> !ByteIsSpace(s[n])
    ensures forall i :: 0 <= i < n ==> ByteIsSpace(s[i])
  {
    if s != [] && ByteIsSpace(s[0]) then 1 + SpaceWidth(s[1..]) else 0
  }

  /** The width of the shortest prefix that ends with a `)` outside quotes, -1 if there is none. */
  function ScanWidth(s: Bytes, q: Quote): (n: int)
    ensures n == -1 || 1 <= n <= |s|
  {
    if s == [] then -1
    else if q == Unquoted && s[0] == ')' then 1
    else
      var n := ScanWidth(s[1..], Toggle(q, s[0]));
      if n == -1 then -1 else 1 + n
  }

  /** A matcher does not start with a parenthesis. */
  function MatcherWidth(s: Bytes): int {
    if s != [] && s[0] == '(' then -1 else ScanWidth(s, Unquoted)
  }

  /** The token at the start of `s` and its width. */
  function TokenAt(s: Bytes): (r: (Token, nat))
    ensures r.1 <= |s|
    ensures r.0 != Eof && r.0 != Illegal ==> 1 <= r.1
  {
    if s == [] then (Eof, 0)
    else if s[0] == '(' then (LParen, 1)
    else if s[0] == ')' then (RParen, 1)
    else if s[0] == '&' && 1 < |s| && s[1] == '&' then (AndAnd, 2)
    else if s[0] == '|' && 1 < |s| && s[1] == '|' then (OrOr, 2)
    else if ByteIsLetter(s[0]) && MatcherWidth(s) != -1 then (MatcherText(s[..MatcherWidth(s)]), MatcherWidth(s))
    else (Illegal, 0)
  }

  /** All tokens of `s`; the last one is Eof, or Illegal where lexing breaks down. */
  function Tokens(s: Bytes): (toks: seq<Token>)
    ensures toks != []
    decreases |s|
  {
    var t := s[SpaceWidth(s)..];
    var (tok, width) := TokenAt(t);
    if tok == Eof || tok == Illegal then [tok] else [tok] + Tokens(t[width..])
  }

  class Lexer {
    const input: Bytes
    var pos: nat

    constructor (input: Bytes)
      ensures this.input == input && pos == 0 && Valid()
    {
      this.input, pos := input, 0;
    }

    ghost predicate Valid()
      reads this
    {
      pos <= |input|
    }

    method SkipWhitespace()
      requires Valid()
      modifies this
      ensures Valid() && pos == old(pos) + SpaceWidth(input[old(pos)..])
    {
      ghost var s := input[pos..];
      ghost var start := pos;
      while pos < |input| && ByteIsSpace(input[pos])
        invariant start <= pos <= |input|
        invariant SpaceWidth(s) == pos - start + SpaceWidth(input[pos..])
      {
        assert input[pos..][1..] == input[pos + 1..];
        pos := pos + 1;
      }
    }

    /** Reads up to the first `)` outside quotes. */
    method ReadMatcher() returns (tok: Token)
      requires Valid()
      modifies this
      ensures Valid() && old(pos) <= pos
      ensures var s := input[old(pos)..];
              if MatcherWidth(s) == -1 then tok == Illegal
              else tok == MatcherText(s[..MatcherWidth(s)]) && pos == old(pos) + MatcherWidth(s)
    {
      var start := pos;
      var inQuotes, quoteChar := false, ' ';
      ghost var q := Unquoted;
      ghost var s := input[start..];
      while pos < |input|
        invariant start <= pos <= |input|
        invariant q == if inQuotes then Quoted(quoteChar) else Unquoted
        invariant start < pos ==> s[0] != '('
        invariant start == pos ==> q == Unquoted
        invariant var n := ScanWidth(input[pos..], q);
                  ScanWidth(s, Unquoted) == if n == -1 then -1 else pos - start + n
      {
        var c := input[pos];
        assert input[pos..][1..] == input[pos + 1..];
        q := Toggle(q, c);
        if inQuotes {
          if c == quoteChar {
            inQuotes := false;
          }
        } else {
          if c == '\'' || c == '"' {
            inQuotes := true;
            quoteChar := c;
          } else if c == ')' {
            pos := pos + 1;
            return MatcherText(input[start..pos]);
          } else if c == '(' || c == '&' || c == '|' {
            if c == '(' && pos == start {
              return Illegal;
            }
          }
        }
        pos := pos + 1;
      }
      return Illegal;
    }

    /** Every token other than Eof moves the position forward, and no token moves it past the end. */
    method NextToken() returns (tok: Token)
      requires Valid()
      modifies this
      ensures Valid() && old(pos) <= pos
      ensures tok != Eof && tok != Illegal ==> old(pos) < pos
      ensures Tokens(input[old(pos)..])
           == if tok == Eof || tok == Illegal then [tok] else [tok] + Tokens(input[pos..])
    {
      ghost var s := input[pos..];
      SkipWhitespace();
      assert s[SpaceWidth(s)..] == input[pos..];
      ghost var t, start := input[pos..], pos;
      tok := ReadToken();
      assert tok != Illegal ==> t[pos - start..] == input[pos..];
    }

    /** The token at the current position, which is not white space. */
    method ReadToken() returns (tok: Token)
      requires Valid()
      modifies this
      ensures Valid() && old(pos) <= pos
      ensures tok == TokenAt(input[old(pos)..]).0
      ensures tok != Illegal ==> pos == old(pos) + TokenAt(input[old(pos)..]).1
    {
      if pos >= |input| {
        return Eof;
      }
      var c := input[pos];
      if c == '(' {
        pos := pos + 1;
        return LParen;
      }
      if c == ')' {
        pos := pos + 1;
        return RParen;
      }
      if c == '&' && pos + 1 < |input| && input[pos + 1] == '&' {
        pos := pos + 2;
        return AndAnd;
      }
      if c == '|' && pos + 1 < |input| && input[pos + 1] == '|' {
        pos := pos + 2;
        return OrOr;
      }
      if ByteIsLetter(c) {
        tok := ReadMatcher();
        return;
      }
      return Illegal;
    }
  }
}
