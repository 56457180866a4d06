/** The routing rules as trees, and what they mean for a request. */
module RuleSyntax {
  import opened Utf8

  datatype Matcher =
    | PathPrefix(prefix: string)
    | Path(path: string)
    | Method(method': string)
    | Header(key: string, value: string)
    | ClientIP(range: string)

  datatype Rule =
    | Match(m: Matcher)
    | And(left: Rule, right: Rule)
    | Or(left: Rule, right: Rule)

  /** What a rule may look at. `header` is the lookup with its key normalisation, `clientIn` the test of the
      client address against an address range. */
  datatype Request = Request(path: Bytes, method': Bytes, header: string -> Bytes, clientIn: string -> bool)

  predicate Satisfies(req: Request, m: Matcher) {
    match m
    case PathPrefix(prefix) => Encode(prefix) <= req.path
    case Path(path) => req.path == Encode(path)
    case Method(name) => req.method' == ToUpper(Encode(name))
    case Header(key, value) => req.header(key) == Encode(value)
    case ClientIP(range) => req.clientIn(range)
  }

  predicate Eval(rule: Rule, req: Request) {
    match rule
    case Match(m) => Satisfies(req, m)
    case And(l, r) => Eval(l, req) && Eval(r, req)
    case Or(l, r) => Eval(l, req) || Eval(r, req)
  }

  function ToUpper(s: Bytes): Bytes {
    seq(|s|, i requires 0 <= i < |s| => if 'a' <= s[i] <= 'z' then (s[i] as int - 32) as char else s[i])
  }

  // ------------------------------------------------------------------ white space

  /** Unicode white space. */
  predicate IsSpace(c: char) {
    || '\t' <= c <= '\r' || c == ' ' || c == '\U{85}' || c == '\U{A0}' || c == '\U{1680}'
    || '\U{2000}' <= c <= '\U{200A}' || c == '\U{2028}' || c == '\U{2029}' || c == '\U{202F}'
    || c == '\U{205F}' || c == '\U{3000}'
  }

  function TrimLeft(s: string): string {
    if s != [] && IsSpace(s[0]) then TrimLeft(s[1..]) else s
  }

  function TrimRight(s: string): string {
    if s != [] && IsSpace(s[|s| - 1]) then TrimRight(s[..|s| - 1]) else s
  }

  function Trim(s: string): string {
    TrimRight(TrimLeft(s))
  }

  predicate Trimmed(s: string) {
    s == [] || (!IsSpace(s[0]) && !IsSpace(s[|s| - 1]))
  }

  lemma {:induction false} TrimRightKeepsFirst(s: string)
    requires s == [] || !IsSpace(s[0])
    ensures Trimmed(TrimRight(s))
  {
    if s != [] && IsSpace(s[|s| - 1]) {
      TrimRightKeepsFirst(s[..|s| - 1]);
    }
  }

  lemma {:induction false} TrimLeftDropsSpaces(s: string)
    ensures TrimLeft(s) == [] || !IsSpace(TrimLeft(s)[0])
  {
    if s != [] && IsSpace(s[0]) {
      TrimLeftDropsSpaces(s[1..]);
    }
  }

  ghost predicate Blank(s: string) {
    forall i :: 0 <= i < |s| ==> IsSpace(s[i])
  }

  /** Only white space is taken off the front. */
  lemma {:induction false} TrimLeftCuts(s: string) returns (before: string)
    ensures Blank(before) && s == before + TrimLeft(s)
  {
    if s != [] && IsSpace(s[0]) {
      var rest := TrimLeftCuts(s[1..]);
      before := [s[0]] + rest;
    } else {
      before := [];
    }
  }

  lemma {:induction false} TrimRightCuts(s: string) returns (after: string)
    ensures Blank(after) && s == TrimRight(s) + after
  {
    if s != [] && IsSpace(s[|s| - 1]) {
      var rest := TrimRightCuts(s[..|s| - 1]);
      after := rest + [s[|s| - 1]];
    } else {
      after := [];
    }
  }

  /** Trimming yields trimmed text and leaves trimmed text alone. */
  lemma TrimIsTrimmed(s: string)
    ensures Trimmed(Trim(s))
    ensures Trimmed(s) ==> Trim(s) == s
  {
    TrimLeftDropsSpaces(s);
    TrimRightKeepsFirst(TrimLeft(s));
  }

  /** Trimming takes off white space at the two ends and nothing else. */
  lemma TrimCutsBlanks(s: string) returns (before: string, after: string)
    ensures Blank(before) && Blank(after) && s == before + Trim(s) + after
  {
    before := TrimLeftCuts(s);
    after := TrimRightCuts(TrimLeft(s));
  }

  function Name(m: Matcher): Bytes {
    match m
    case PathPrefix(_) => "PathPrefix"
    case Path(_) => "Path"
    case Method(_) => "Method"
    case Header(_, _) => "Header"
    case ClientIP(_) => "ClientIP"
  }

  function Args(m: Matcher): seq<string> {
    match m
    case PathPrefix(prefix) => [prefix]
    case Path(path) => [path]
    case Method(name) => [name]
    case Header(key, value) => [key, value]
    case ClientIP(range) => [range]
  }

  /** No argument has white space at either end. */
  predicate AllTrimmed(rule: Rule) {
    match rule
    case Match(m) => forall i :: 0 <= i < |Args(m)| ==> Trimmed(Args(m)[i])
    case And(l, r) => AllTrimmed(l) && AllTrimmed(r)
    case Or(l, r) => AllTrimmed(l) && AllTrimmed(r)
  }
}
