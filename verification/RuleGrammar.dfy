/** The parser agrees with the grammar
      Expression -> Term ( "||" Term )*,  Term -> Factor ( "&&" Factor )*,  Factor -> Matcher | "(" Expression ")"
    with both operators associating to the left. */
module RuleGrammar {
  import opened Options
  import opened Utf8
  import opened RuleSyntax
  import opened RuleLexer
  import opened RuleParser

  ghost predicate DerivesExpression(toks: seq<Token>, r: Rule)
    decreases |toks|, 3
  {
    DerivesTerm(toks, r) || exists i: nat :: i < |toks| && SplitsAtOr(toks, i, r)
  }

  ghost predicate SplitsAtOr(toks: seq<Token>, i: nat, r: Rule)
    requires i < |toks|
    decreases |toks|, 2
  {
    r.Or? && toks[i] == OrOr && DerivesExpression(toks[..i], r.left) && DerivesTerm(toks[i + 1..], r.right)
  }

  ghost predicate DerivesTerm(toks: seq<Token>, r: Rule)
    decreases |toks|, 2
  {
    DerivesFactor(toks, r) || exists i: nat :: i < |toks| && SplitsAtAnd(toks, i, r)
  }

  ghost predicate SplitsAtAnd(toks: seq<Token>, i: nat, r: Rule)
    requires i < |toks|
    decreases |toks|, 1
  {
    r.And? && toks[i] == AndAnd && DerivesTerm(toks[..i], r.left) && DerivesFactor(toks[i + 1..], r.right)
  }

  ghost predicate DerivesFactor(toks: seq<Token>, r: Rule)
    decreases |toks|, 0
  {
    || (|toks| == 1 && toks[0].MatcherText? && r.Match? && MatcherOf(toks[0].text) == Some(r.m))
    || (2 <= |toks| && toks[0] == LParen && toks[|toks| - 1] == RParen
        && DerivesExpression(toks[1..|toks| - 1], r))
  }

  // ------------------------------------------------------------------ what is derived is parsed

  ghost predicate Starts(toks: seq<Token>) {
    toks != [] && (toks[0] == LParen || toks[0].MatcherText?)
  }

  lemma {:induction false} TermStarts(toks: seq<Token>, r: Rule)
    requires DerivesTerm(toks, r)
    ensures Starts(toks)
    decreases |toks|
  {
    if !DerivesFactor(toks, r) {
      var i: nat :| i < |toks| && SplitsAtAnd(toks, i, r);
      TermStarts(toks[..i], r.left);
    }
  }

  lemma {:induction false} ExpressionStarts(toks: seq<Token>, r: Rule)
    requires DerivesExpression(toks, r)
    ensures Starts(toks)
    decreases |toks|
  {
    if DerivesTerm(toks, r) {
      TermStarts(toks, r);
    } else {
      var i: nat :| i < |toks| && SplitsAtOr(toks, i, r);
      ExpressionStarts(toks[..i], r.left);
    }
  }

  /** What may follow: something, and no lexical error right away. */
  ghost predicate Follow(rest: seq<Token>) {
    rest != [] && rest[0] != Illegal
  }

  lemma AdvanceOne(tok: Token, toks: seq<Token>)
    requires Follow(toks)
    ensures Advance([tok] + toks) == Some(toks)
  {
    assert ([tok] + toks)[1..] == toks;
  }

  lemma {:induction false} ParsesFactor(toks: seq<Token>, r: Rule, rest: seq<Token>)
    requires DerivesFactor(toks, r) && Follow(rest)
    ensures Factor(toks + rest) == Some((r, rest))
    decreases |toks|, 0
  {
    if |toks| == 1 {
      assert toks + rest == [toks[0]] + rest;
      AdvanceOne(toks[0], rest);
    } else {
      var inner := toks[1..|toks| - 1];
      var close := [RParen] + rest;
      assert toks + rest == [LParen] + (inner + close);
      ExpressionStarts(inner, r);
      AdvanceOne(LParen, inner + close);
      ParsesExpression(inner, r, close);
      AdvanceOne(RParen, rest);
    }
  }

  /** A derived term is read and handed to whatever factors follow. */
  lemma {:induction false} ParsesTerm(toks: seq<Token>, r: Rule, rest: seq<Token>)
    requires DerivesTerm(toks, r) && Follow(rest)
    ensures Term(toks + rest) == TermTail(r, rest)
    decreases |toks|, 1
  {
    if DerivesFactor(toks, r) {
      ParsesFactor(toks, r, rest);
    } else {
      var i: nat :| i < |toks| && SplitsAtAnd(toks, i, r);
      var right := toks[i + 1..];
      assert toks + rest == toks[..i] + ([AndAnd] + (right + rest));
      ParsesTerm(toks[..i], r.left, [AndAnd] + (right + rest));
      TermStarts(right, r.right);
      AdvanceOne(AndAnd, right + rest);
      ParsesFactor(right, r.right, rest);
    }
  }

  /** A derived expression is read and handed to whatever terms follow. */
  lemma {:induction false} ParsesExpression(toks: seq<Token>, r: Rule, rest: seq<Token>)
    requires DerivesExpression(toks, r) && Follow(rest) && rest[0] != AndAnd
    ensures Expression(toks + rest) == ExpressionTail(r, rest)
    decreases |toks|, 2
  {
    if DerivesTerm(toks, r) {
      ParsesTerm(toks, r, rest);
    } else {
      var i: nat :| i < |toks| && SplitsAtOr(toks, i, r);
      var right := toks[i + 1..];
      assert toks + rest == toks[..i] + ([OrOr] + (right + rest));
      ParsesExpression(toks[..i], r.left, [OrOr] + (right + rest));
      TermStarts(right, r.right);
      AdvanceOne(OrOr, right + rest);
      ParsesTerm(right, r.right, rest);
    }
  }

  // ------------------------------------------------------------------ what is parsed is derived

  /** `rest` is the end of `ts`; what is before it. */
  ghost predicate IsEnd(ts: seq<Token>, rest: seq<Token>) {
    |rest| <= |ts| && ts[|ts| - |rest|..] == rest
  }

  function Before(ts: seq<Token>, rest: seq<Token>): seq<Token>
    requires |rest| <= |ts|
  {
    ts[..|ts| - |rest|]
  }

  /** What lies between two ends: a first token and the rest. */
  lemma Pieces(ts: seq<Token>, at: seq<Token>, t2: seq<Token>)
    requires IsEnd(ts, at) && at != [] && IsEnd(at[1..], t2)
    ensures IsEnd(ts, t2)
    ensures var toks, i := Before(ts, t2), |ts| - |at|;
            && i < |toks| && toks[i] == at[0]
            && toks[..i] == Before(ts, at)
            && toks[i + 1..] == Before(at[1..], t2)
  {
    var toks, i, right := Before(ts, t2), |ts| - |at|, Before(at[1..], t2);
    assert forall k :: 0 <= k < |at| ==> ts[i + k] == at[k];
    forall k | 0 <= k < |right|
      ensures toks[i + 1..][k] == right[k]
    {
      assert at[1..][k] == at[k + 1];
      assert ts[i + (k + 1)] == at[k + 1];
    }
    assert toks[i + 1..] == right;
    forall k | 0 <= k < |t2|
      ensures ts[|ts| - |t2| + k] == t2[k]
    {
      var j := |at| - |t2| + k;
      assert at[1..][j - 1] == t2[k];
      assert ts[i + j] == at[j];
    }
  }

  lemma TermGrows(toks: seq<Token>, i: nat, m: Rule, right: Rule)
    requires i < |toks| && toks[i] == AndAnd
    requires DerivesTerm(toks[..i], m) && DerivesFactor(toks[i + 1..], right)
    ensures DerivesTerm(toks, And(m, right))
  {
    assert SplitsAtAnd(toks, i, And(m, right));
  }

  lemma ExpressionGrows(toks: seq<Token>, i: nat, m: Rule, right: Rule)
    requires i < |toks| && toks[i] == OrOr
    requires DerivesExpression(toks[..i], m) && DerivesTerm(toks[i + 1..], right)
    ensures DerivesExpression(toks, Or(m, right))
  {
    assert SplitsAtOr(toks, i, Or(m, right));
  }

  lemma {:induction false} FactorDerived(ts: seq<Token>)
    requires Factor(ts).Some?
    ensures var (r, rest) := Factor(ts).value;
            IsEnd(ts, rest) && DerivesFactor(Before(ts, rest), r)
    decreases |ts|, 0
  {
    var (r, rest) := Factor(ts).value;
    if ts[0] == LParen {
      var t1 := Advance(ts).value;
      var (m, t2) := Expression(t1).value;
      ExpressionDerived(t1);
      assert t1 == ts[1..] && rest == t2[1..];
      Pieces(ts, ts, t2);
      Pieces(ts, t2, rest);
      var toks := Before(ts, rest);
      assert toks[1..|toks| - 1] == toks[..|toks| - 1][1..] == Before(t1, t2);
    }
  }

  lemma {:induction false} TermDerived(ts: seq<Token>)
    requires Term(ts).Some?
    ensures var (r, rest) := Term(ts).value;
            IsEnd(ts, rest) && DerivesTerm(Before(ts, rest), r)
    decreases |ts|, 1
  {
    var (m, rest) := Factor(ts).value;
    FactorDerived(ts);
    TermTailDerived(ts, m, rest);
  }

  lemma {:induction false} TermTailDerived(ts: seq<Token>, m: Rule, at: seq<Token>)
    requires IsEnd(ts, at) && |at| < |ts| && DerivesTerm(Before(ts, at), m)
    requires TermTail(m, at).Some?
    ensures var (r, rest) := TermTail(m, at).value;
            IsEnd(ts, rest) && DerivesTerm(Before(ts, rest), r)
    decreases |at|, 1
  {
    if AtToken(at, AndAnd) {
      var t1 := Advance(at).value;
      var (right, t2) := Factor(t1).value;
      FactorDerived(t1);
      var toks, i := Before(ts, t2), |ts| - |at|;
      assert t1 == at[1..];
      Pieces(ts, at, t2);
      TermGrows(toks, i, m, right);
      TermTailDerived(ts, And(m, right), t2);
    }
  }

  lemma {:induction false} ExpressionDerived(ts: seq<Token>)
    requires Expression(ts).Some?
    ensures var (r, rest) := Expression(ts).value;
            IsEnd(ts, rest) && DerivesExpression(Before(ts, rest), r)
    decreases |ts|, 3
  {
    var (m, rest) := Term(ts).value;
    TermDerived(ts);
    ExpressionTailDerived(ts, m, rest);
  }

  lemma {:induction false} ExpressionTailDerived(ts: seq<Token>, m: Rule, at: seq<Token>)
    requires IsEnd(ts, at) && |at| < |ts| && DerivesExpression(Before(ts, at), m)
    requires ExpressionTail(m, at).Some?
    ensures var (r, rest) := ExpressionTail(m, at).value;
            IsEnd(ts, rest) && DerivesExpression(Before(ts, rest), r)
    decreases |at|, 2
  {
    if AtToken(at, OrOr) {
      var t1 := Advance(at).value;
      var (right, t2) := Term(t1).value;
      TermDerived(t1);
      var toks, i := Before(ts, t2), |ts| - |at|;
      assert t1 == at[1..];
      Pieces(ts, at, t2);
      ExpressionGrows(toks, i, m, right);
      ExpressionTailDerived(ts, Or(m, right), t2);
    }
  }

  // ------------------------------------------------------------------ main results

  /** Eof and Illegal end a token sequence. */
  lemma {:induction false} OnlyLastEnds(s: Bytes)
    ensures forall i :: 0 <= i < |Tokens(s)| - 1 ==> Tokens(s)[i] != Eof && Tokens(s)[i] != Illegal
    decreases |s|
  {
    var t := s[SpaceWidth(s)..];
    var (tok, width) := TokenAt(t);
    if tok != Eof && tok != Illegal {
      OnlyLastEnds(t[width..]);
    }
  }

  lemma DerivedIsParsed(toks: seq<Token>, r: Rule)
    requires DerivesExpression(toks, r)
    ensures ParseTokens(toks + [Eof]) == Some(r)
  {
    ExpressionStarts(toks, r);
    ParsesExpression(toks, r, [Eof]);
  }

  lemma ParsedIsDerived(rule: Bytes, r: Rule)
    requires Parse(rule) == Some(r)
    ensures var toks := Before(Tokens(rule), [Eof]);
            Tokens(rule) == toks + [Eof] && DerivesExpression(toks, r)
  {
    var ts := Tokens(rule);
    var (m, rest) := Expression(ts).value;
    ExpressionDerived(ts);
    OnlyLastEnds(rule);
    assert ts[|ts| - |rest|] == Eof;
  }

  /** A rule is accepted, with the tree `r`, exactly when it lexes completely to tokens from which the
      grammar derives `r`. */
  lemma ParsesExactlyTheGrammar(rule: Bytes, r: Rule)
    ensures Parse(rule) == Some(r)
       <==> exists toks :: Tokens(rule) == toks + [Eof] && DerivesExpression(toks, r)
  {
    if toks :| Tokens(rule) == toks + [Eof] && DerivesExpression(toks, r) {
      DerivedIsParsed(toks, r);
    }
    if Parse(rule) == Some(r) {
      ParsedIsDerived(rule, r);
    }
  }

  /** The grammar is unambiguous. */
  lemma Unambiguous(toks: seq<Token>, r: Rule, r': Rule)
    requires DerivesExpression(toks, r) && DerivesExpression(toks, r')
    ensures r == r'
  {
    DerivedIsParsed(toks, r);
    DerivedIsParsed(toks, r');
  }
}
