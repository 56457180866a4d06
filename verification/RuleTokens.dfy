/** Which token starts a text, said without the lexer. */
module RuleTokens {
  import opened Options
  import opened Utf8
  import opened RuleLexer

  /** The quote mark that is open after `x`, if any. */
  function OpenMark(x: Bytes): Option<Byte> {
    if x == [] then None else
      var mark, b := OpenMark(x[..|x| - 1]), x[|x| - 1];
      match mark
      case None => if b == '\'' || b == '"' then Some(b) else None
      case Some(c) => if b == c then None else mark
  }

  /** `x` ends with a `)` outside quotes and has no other one. */
  ghost predicate EndsMatcher(x: Bytes) {
    && x != [] && x[|x| - 1] == ')' && OpenMark(x[..|x| - 1]) == None
    && forall k :: 0 <= k < |x| - 1 && x[k] == ')' ==> OpenMark(x[..k]) != None
  }

  function MarkOf(q: Quote): Option<char> {
    match q
    case Unquoted => None
    case Quoted(mark) => Some(mark)
  }

  /** The quote state after `x`. */
  function QuoteAfter(x: Bytes, q: Quote): Quote {
    if x == [] then q else QuoteAfter(x[1..], Toggle(q, x[0]))
  }

  lemma {:induction false} QuoteAfterLast(x: Bytes, b: Byte, q: Quote)
    ensures QuoteAfter(x + [b], q) == Toggle(QuoteAfter(x, q), b)
  {
    if x == [] {
      assert [b][1..] == [];
    } else {
      assert (x + [b])[1..] == x[1..] + [b];
      QuoteAfterLast(x[1..], b, Toggle(q, x[0]));
    }
  }

  lemma {:induction false} OpenMarkIsQuote(x: Bytes)
    ensures MarkOf(QuoteAfter(x, Unquoted)) == OpenMark(x)
  {
    if x != [] {
      var front := x[..|x| - 1];
      assert x == front + [x[|x| - 1]];
      OpenMarkIsQuote(front);
      QuoteAfterLast(front, x[|x| - 1], Unquoted);
    }
  }

  /** The scan stops at the first `)` that is outside quotes. */
  lemma {:induction false} ScanStops(s: Bytes, q: Quote)
    ensures var n := ScanWidth(s, q);
            && (n != -1 ==> s[n - 1] == ')' && QuoteAfter(s[..n - 1], q) == Unquoted)
            && forall k :: 0 <= k < (if n == -1 then |s| else n - 1) && s[k] == ')' ==> QuoteAfter(s[..k], q) != Unquoted
  {
    if s != [] && !(q == Unquoted && s[0] == ')') {
      var t, q' := s[1..], Toggle(q, s[0]);
      ScanStops(t, q');
      forall k | 1 <= k <= |s|
        ensures QuoteAfter(s[..k], q) == QuoteAfter(t[..k - 1], q')
      {
        assert s[..k][1..] == t[..k - 1];
      }
      assert forall k :: 1 <= k < |s| ==> s[k] == t[k - 1];
    }
  }

  /** The matcher at the start of `s` is the prefix that ends at its first `)` outside quotes. */
  lemma MatcherExactly(s: Bytes, n: nat)
    requires s != [] && s[0] != '('
    ensures MatcherWidth(s) == n <==> n <= |s| && EndsMatcher(s[..n])
  {
    var w := ScanWidth(s, Unquoted);
    ScanStops(s, Unquoted);
    forall k | 0 <= k <= |s|
      ensures QuoteAfter(s[..k], Unquoted) == Unquoted <==> OpenMark(s[..k]) == None
    {
      OpenMarkIsQuote(s[..k]);
    }
    if w == n {
      PrefixEnds(s, n);
    }
    if n <= |s| && EndsMatcher(s[..n]) {
      EndsAt(s, n);
    }
  }

  lemma PrefixEnds(s: Bytes, n: nat)
    requires 1 <= n <= |s| && s[n - 1] == ')' && OpenMark(s[..n - 1]) == None
    requires forall k :: 0 <= k < n - 1 && s[k] == ')' ==> OpenMark(s[..k]) != None
    ensures EndsMatcher(s[..n])
  {
    var x := s[..n];
    assert x[..n - 1] == s[..n - 1];
    forall k | 0 <= k < n - 1 && x[k] == ')'
      ensures OpenMark(x[..k]) != None
    {
      assert x[..k] == s[..k] && x[k] == s[k];
    }
  }

  lemma EndsAt(s: Bytes, n: nat)
    requires n <= |s| && EndsMatcher(s[..n])
    ensures 1 <= n && s[n - 1] == ')' && OpenMark(s[..n - 1]) == None
    ensures forall k :: 0 <= k < n - 1 && s[k] == ')' ==> OpenMark(s[..k]) != None
  {
    var x := s[..n];
    assert x[..n - 1] == s[..n - 1];
    forall k | 0 <= k < n - 1 && s[k] == ')'
      ensures OpenMark(s[..k]) != None
    {
      assert x[..k] == s[..k] && x[k] == s[k];
    }
  }

  /** Exactly which token starts a text that does not start with white space; in all other cases lexing breaks
      down. */
  lemma TokenAtExactly(s: Bytes)
    ensures TokenAt(s).0 == Eof <==> s == []
    ensures TokenAt(s) == (LParen, 1) <==> "(" <= s
    ensures TokenAt(s) == (RParen, 1) <==> ")" <= s
    ensures TokenAt(s) == (AndAnd, 2) <==> "&&" <= s
    ensures TokenAt(s) == (OrOr, 2) <==> "||" <= s
    ensures forall x: Bytes :: TokenAt(s) == (MatcherText(x), |x|) <==> s != [] && ByteIsLetter(s[0]) && x <= s && EndsMatcher(x)
    ensures TokenAt(s).0 == LParen || TokenAt(s).0 == RParen ==> TokenAt(s).1 == 1
    ensures TokenAt(s).0 == AndAnd || TokenAt(s).0 == OrOr ==> TokenAt(s).1 == 2
    ensures TokenAt(s).0.MatcherText? ==> TokenAt(s).1 == |TokenAt(s).0.text|
  {
    forall x: Bytes
      ensures TokenAt(s) == (MatcherText(x), |x|) <==> s != [] && ByteIsLetter(s[0]) && x <= s && EndsMatcher(x)
    {
      if s != [] && s[0] != '(' {
        MatcherExactly(s, |x|);
        assert x <= s ==> s[..|x|] == x;
      }
    }
  }
}
