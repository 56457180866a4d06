/** What a matcher text denotes, said without the parser: its name, and its arguments as pieces of text. */
module RuleArguments {
  import opened Options
  import opened Utf8
  import opened RuleSyntax
  import opened RuleLexer
  import opened RuleParser

  // ------------------------------------------------------------------ arguments as pieces

  /** A character of its own, or a quoted segment. */
  datatype Piece = Plain(c: char) | Segment(mark: char, text: string)

  predicate WellFormed(p: Piece) {
    match p
    case Plain(c) => c != '\'' && c != '"' && c != ','
    case Segment(mark, text) => (mark == '\'' || mark == '"') && mark !in text
  }

  function RenderPiece(p: Piece): string {
    match p
    case Plain(c) => [c]
    case Segment(mark, text) => [mark] + (text + [mark])
  }

  type Argument = seq<Piece>

  function RenderArgument(a: Argument): string {
    if a == [] then [] else RenderPiece(a[0]) + RenderArgument(a[1..])
  }

  /** The text of an argument: its pieces without the quotes. */
  function ValueOf(a: Argument): string {
    if a == [] then [] else (if a[0].Plain? then [a[0].c] else a[0].text) + ValueOf(a[1..])
  }

  /** Arguments separated by commas. */
  function Render(args: seq<Argument>): string
    requires args != []
  {
    if |args| == 1 then RenderArgument(args[0]) else RenderArgument(args[0]) + ([','] + Render(args[1..]))
  }

  /** The trimmed texts; a last argument without any text does not count. */
  function ValuesOf(args: seq<Argument>): seq<string>
    requires args != []
  {
    if |args| == 1 then if ValueOf(args[0]) == [] then [] else [Trim(ValueOf(args[0]))]
    else [Trim(ValueOf(args[0]))] + ValuesOf(args[1..])
  }

  predicate Formed(a: Argument) {
    forall j :: 0 <= j < |a| ==> WellFormed(a[j])
  }

  predicate AllFormed(args: seq<Argument>) {
    forall i :: 0 <= i < |args| ==> Formed(args[i])
  }

  /** `s` is the text of these arguments. */
  predicate Reads(args: seq<Argument>, s: string) {
    args != [] && AllFormed(args) && Render(args) == s
  }

  // ------------------------------------------------------------------ pieces are read as such

  lemma {:induction false} SplitInside(seg: string, mark: char, t: string, cur: string)
    requires mark !in seg
    ensures SplitArgs(seg + t, cur, Quoted(mark)) == SplitArgs(t, cur + seg, Quoted(mark))
  {
    if seg == [] {
      assert seg + t == t && cur + seg == cur;
    } else {
      assert (seg + t)[1..] == seg[1..] + t;
      assert cur + [seg[0]] + seg[1..] == cur + seg;
      SplitInside(seg[1..], mark, t, cur + [seg[0]]);
    }
  }

  lemma SplitMarked(a: string, mark: char, t: string, cur: string)
    requires IsQuote(mark) && mark !in a
    ensures SplitArgs([mark] + (a + [mark]) + t, cur, Unquoted) == SplitArgs(t, cur + a, Unquoted)
  {
    var s := [mark] + (a + [mark]) + t;
    assert s[1..] == a + ([mark] + t);
    SplitInside(a, mark, [mark] + t, cur);
    assert ([mark] + t)[1..] == t;
  }

  lemma {:induction false} SplitArgument(a: Argument, t: string, cur: string)
    requires Formed(a)
    ensures SplitArgs(RenderArgument(a) + t, cur, Unquoted) == SplitArgs(t, cur + ValueOf(a), Unquoted)
  {
    if a == [] {
      assert RenderArgument(a) + t == t && cur + ValueOf(a) == cur;
    } else {
      var rest := RenderArgument(a[1..]) + t;
      assert RenderArgument(a) + t == RenderPiece(a[0]) + rest;
      match a[0]
      case Plain(c) =>
        assert ([c] + rest)[1..] == rest;
        SplitArgument(a[1..], t, cur + [c]);
        assert cur + [c] + ValueOf(a[1..]) == cur + ValueOf(a);
      case Segment(mark, text) =>
        SplitMarked(text, mark, rest, cur);
        SplitArgument(a[1..], t, cur + text);
        assert cur + text + ValueOf(a[1..]) == cur + ValueOf(a);
    }
  }

  /** The arguments with some text already read before the first one. */
  function ValuesFrom(cur: string, args: seq<Argument>): seq<string>
    requires args != []
  {
    if |args| == 1 then if cur + ValueOf(args[0]) == [] then [] else [Trim(cur + ValueOf(args[0]))]
    else [Trim(cur + ValueOf(args[0]))] + ValuesOf(args[1..])
  }

  lemma {:induction false} SplitRendered(args: seq<Argument>, cur: string)
    requires args != [] && AllFormed(args)
    ensures SplitArgs(Render(args), cur, Unquoted) == Some(ValuesFrom(cur, args))
    decreases |args|
  {
    var a := args[0];
    if |args| == 1 {
      SplitArgument(a, [], cur);
      assert RenderArgument(a) + [] == RenderArgument(a);
    } else {
      var rest := Render(args[1..]);
      SplitArgument(a, [','] + rest, cur);
      assert ([','] + rest)[1..] == rest;
      SplitRendered(args[1..], []);
      NothingBefore(args[1..]);
    }
  }

  lemma NothingBefore(args: seq<Argument>)
    requires args != []
    ensures ValuesFrom([], args) == ValuesOf(args)
  {
    assert [] + ValueOf(args[0]) == ValueOf(args[0]);
  }

  // ------------------------------------------------------------------ and nothing else is

  /** A quote that is open is closed by the next mark. */
  lemma {:induction false} CloseQuote(s: string, cur: string, mark: char) returns (k: nat)
    requires SplitArgs(s, cur, Quoted(mark)).Some?
    ensures k < |s| && s[k] == mark && mark !in s[..k]
    ensures SplitArgs(s, cur, Quoted(mark)) == SplitArgs(s[k + 1..], cur + s[..k], Unquoted)
  {
    if s[0] == mark {
      k := 0;
      assert cur + s[..0] == cur;
    } else {
      var j := CloseQuote(s[1..], cur + [s[0]], mark);
      k := j + 1;
      assert s[..k] == [s[0]] + s[1..][..j];
      assert cur + [s[0]] + s[1..][..j] == cur + s[..k];
      assert s[1..][j + 1..] == s[k + 1..];
    }
  }

  /** One more piece in front of the first argument. */
  lemma PieceBefore(p: Piece, args: seq<Argument>, s: string, cur: string, text: string) returns (more: seq<Argument>)
    requires WellFormed(p) && Reads(args, s) && text == if p.Plain? then [p.c] else p.text
    ensures Reads(more, RenderPiece(p) + s) && ValuesFrom(cur, more) == ValuesFrom(cur + text, args)
  {
    var first := [p] + args[0];
    more := [first] + args[1..];
    assert first[1..] == args[0] && more[1..] == args[1..];
    assert Formed(args[0]) && Formed(first);
    forall i | 0 <= i < |more|
      ensures Formed(more[i])
    {
      assert i == 0 || more[i] == args[i];
    }
    Regrouped(cur, text, ValueOf(args[0]));
    if |args| != 1 {
      Regrouped(RenderPiece(p), RenderArgument(args[0]), [','] + Render(args[1..]));
    }
  }

  lemma Regrouped(a: string, b: string, c: string)
    ensures a + (b + c) == a + b + c
  {
  }

  /** An empty argument in front. */
  lemma CommaBefore(args: seq<Argument>, s: string, cur: string)
    requires Reads(args, s)
    ensures Reads([[]] + args, [','] + s) && ValuesFrom(cur, [[]] + args) == [Trim(cur)] + ValuesOf(args)
  {
    var more := [[]] + args;
    assert more[1..] == args && cur + [] == cur;
    forall i | 0 <= i < |more|
      ensures Formed(more[i])
    {
      assert i == 0 || more[i] == args[i - 1];
    }
    assert [] + ([','] + s) == [','] + s;
  }

  lemma {:induction false} SplitReads(s: string, cur: string, values: seq<string>) returns (args: seq<Argument>)
    requires SplitArgs(s, cur, Unquoted) == Some(values)
    ensures Reads(args, s) && values == ValuesFrom(cur, args)
    decreases |s|
  {
    if s == [] {
      args := [[]];
      assert cur + [] == cur;
    } else {
      assert s == [s[0]] + s[1..];
      if s[0] == ',' {
        var rest := SplitReads(s[1..], [], values[1..]);
        args := [[]] + rest;
        CommaBefore(rest, s[1..], cur);
        NothingBefore(rest);
      } else if IsQuote(s[0]) {
        var k := CloseQuote(s[1..], cur, s[0]);
        var text, rest := s[1..][..k], s[1..][k + 1..];
        var more := SplitReads(rest, cur + text, values);
        args := PieceBefore(Segment(s[0], text), more, rest, cur, text);
        AroundQuote(s, k);
      } else {
        var more := SplitReads(s[1..], cur + [s[0]], values);
        args := PieceBefore(Plain(s[0]), more, s[1..], cur, [s[0]]);
      }
    }
  }

  lemma AroundQuote(s: string, k: nat)
    requires s != [] && k < |s[1..]| && s[1..][k] == s[0]
    ensures s == [s[0]] + (s[1..][..k] + [s[0]]) + s[1..][k + 1..]
  {
    assert s[1..] == s[1..][..k] + [s[1..][k]] + s[1..][k + 1..];
  }

  /** The exact meaning of an argument text: it splits into these values if and only if it consists of comma
      separated arguments, made of plain characters and closed quoted segments, whose trimmed texts they are. */
  lemma SplitExactly(s: string, values: seq<string>)
    ensures SplitArgs(s, [], Unquoted) == Some(values) <==> exists args :: Reads(args, s) && ValuesOf(args) == values
  {
    if SplitArgs(s, [], Unquoted) == Some(values) {
      var args := SplitReads(s, [], values);
      NothingBefore(args);
    }
    if args :| Reads(args, s) && ValuesOf(args) == values {
      SplitRendered(args, []);
      NothingBefore(args);
    }
  }

  function PlainPieces(s: string): (a: Argument)
    ensures |a| == |s| && forall i :: 0 <= i < |s| ==> a[i] == Plain(s[i])
  {
    seq(|s|, i requires 0 <= i < |s| => Plain(s[i]))
  }

  lemma {:induction false} PlainPiecesRead(s: string)
    ensures RenderArgument(PlainPieces(s)) == s && ValueOf(PlainPieces(s)) == s
  {
    if s != [] {
      PlainPiecesRead(s[1..]);
      assert PlainPieces(s)[1..] == PlainPieces(s[1..]);
    }
  }

  /** Text without quotes and commas is one argument, its own trimmed form. */
  lemma PlainTextIsOneArgument(s: string)
    requires s != [] && forall i :: 0 <= i < |s| ==> s[i] != '\'' && s[i] != '"' && s[i] != ','
    ensures SplitArgs(s, [], Unquoted) == Some([Trim(s)])
  {
    PlainPiecesRead(s);
    var args := [PlainPieces(s)];
    assert Reads(args, s) && ValuesOf(args) == [Trim(s)];
    SplitExactly(s, [Trim(s)]);
  }

  // ------------------------------------------------------------------ matchers

  /** A matcher text: a name, the first parenthesis, arguments, and a parenthesis at the end. */
  ghost predicate Denotes(s: Bytes, m: Matcher) {
    exists i, args :: CallOf(s, i, m) && Reads(args, Trim(Decode(s[i + 1..|s| - 1]))) && ValuesOf(args) == Args(m)
  }

  ghost predicate CallOf(s: Bytes, i: nat, m: Matcher) {
    i + 1 < |s| && s[i] == '(' && '(' !in s[..i] && s[|s| - 1] == ')' && Trim(Decode(s[..i])) == Name(m)
  }

  lemma DispatchExactly(name: string, args: seq<string>, m: Matcher)
    ensures Dispatch(name, args) == Some(m) <==> name == Name(m) && args == Args(m)
  {
  }

  lemma AcceptedDenotes(s: Bytes, m: Matcher)
    requires MatcherOf(s) == Some(m)
    ensures Denotes(s, m)
  {
    var idx := IndexOfParen(s);
    var name, text := Trim(Decode(s[..idx])), Trim(Decode(s[idx + 1..|s| - 1]));
    var args := ArgsOf(text).value;
    DispatchExactly(name, args, m);
    SplitExactly(text, args);
    var pieces :| Reads(pieces, text) && ValuesOf(pieces) == args;
    assert CallOf(s, idx, m);
  }

  lemma DenotedAccepted(s: Bytes, m: Matcher, i: nat, pieces: seq<Argument>)
    requires CallOf(s, i, m)
    requires Reads(pieces, Trim(Decode(s[i + 1..|s| - 1]))) && ValuesOf(pieces) == Args(m)
    ensures MatcherOf(s) == Some(m)
  {
    var inside := Decode(s[i + 1..|s| - 1]);
    FirstParen(s, i);
    SplitExactly(Trim(inside), Args(m));
    BlankHasNoArguments(inside);
    assert ArgsOf(Trim(inside)) == Some(Args(m));
    DispatchExactly(Name(m), Args(m), m);
  }

  /** A matcher text is accepted as a matcher if and only if it denotes it: a text with another name, another
      number of arguments or an open quote is refused. */
  lemma MatcherOfExactly(s: Bytes, m: Matcher)
    ensures MatcherOf(s) == Some(m) <==> Denotes(s, m)
  {
    if MatcherOf(s) == Some(m) {
      AcceptedDenotes(s, m);
    }
    if Denotes(s, m) {
      var i, pieces :| CallOf(s, i, m) && Reads(pieces, Trim(Decode(s[i + 1..|s| - 1]))) && ValuesOf(pieces) == Args(m);
      DenotedAccepted(s, m, i, pieces);
    }
  }

  lemma {:induction false} FirstParen(s: Bytes, i: nat)
    requires i < |s| && s[i] == '(' && '(' !in s[..i]
    ensures IndexOfParen(s) == i
  {
    if i != 0 {
      assert s[0] == s[..i][0];
      assert s[1..][..i - 1] == s[..i][1..];
      FirstParen(s[1..], i - 1);
    }
  }

  /** A trimmed text that is blank is empty. */
  lemma BlankHasNoArguments(s: string)
    ensures Trim(Trim(s)) == [] ==> Trim(s) == [] && SplitArgs(Trim(s), [], Unquoted) == Some([])
  {
    TrimIsTrimmed(s);
  }

  /** White space is the same thing for the lexer and for trimming. */
  lemma SpacesAgree(b: Byte)
    ensures ByteIsSpace(b) <==> IsSpace(b)
  {
  }
}
