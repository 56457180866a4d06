/** What a rule means for a request, said by alternatives. */
module RuleMeaning {
  import opened Utf8
  import opened RuleSyntax

  /** A rule as alternatives, each a list of matchers that all have to hold. */
  function Clauses(rule: Rule): seq<seq<Matcher>> {
    match rule
    case Match(m) => [[m]]
    case And(l, r) => Combine(Clauses(l), Clauses(r))
    case Or(l, r) => Clauses(l) + Clauses(r)
  }

  /** Every alternative on the left joined with every one on the right. */
  function Combine(a: seq<seq<Matcher>>, b: seq<seq<Matcher>>): seq<seq<Matcher>> {
    if a == [] then [] else JoinEach(a[0], b) + Combine(a[1..], b)
  }

  function JoinEach(c: seq<Matcher>, b: seq<seq<Matcher>>): seq<seq<Matcher>> {
    if b == [] then [] else [c + b[0]] + JoinEach(c, b[1..])
  }

  ghost predicate AllHold(c: seq<Matcher>, req: Request) {
    forall m :: m in c ==> Satisfies(req, m)
  }

  ghost predicate SomeHolds(cs: seq<seq<Matcher>>, req: Request) {
    exists i :: 0 <= i < |cs| && AllHold(cs[i], req)
  }

  lemma HoldsEither(a: seq<seq<Matcher>>, b: seq<seq<Matcher>>, req: Request)
    ensures SomeHolds(a + b, req) <==> SomeHolds(a, req) || SomeHolds(b, req)
  {
    if i :| 0 <= i < |a| && AllHold(a[i], req) {
      assert (a + b)[i] == a[i];
    }
    if i :| 0 <= i < |b| && AllHold(b[i], req) {
      assert (a + b)[|a| + i] == b[i];
    }
    if i :| 0 <= i < |a + b| && AllHold((a + b)[i], req) {
      assert if i < |a| then AllHold(a[i], req) else AllHold(b[i - |a|], req);
    }
  }

  lemma HoldsBoth(c: seq<Matcher>, d: seq<Matcher>, req: Request)
    ensures AllHold(c + d, req) <==> AllHold(c, req) && AllHold(d, req)
  {
    assert forall m :: m in c + d <==> m in c || m in d;
  }

  lemma {:induction false} JoinEachHolds(c: seq<Matcher>, b: seq<seq<Matcher>>, req: Request)
    ensures SomeHolds(JoinEach(c, b), req) <==> AllHold(c, req) && SomeHolds(b, req)
  {
    if b != [] {
      JoinEachHolds(c, b[1..], req);
      HoldsBoth(c, b[0], req);
      HoldsEither([c + b[0]], JoinEach(c, b[1..]), req);
      HoldsEither([b[0]], b[1..], req);
      assert [b[0]] + b[1..] == b;
      OneHolds(c + b[0], req);
      OneHolds(b[0], req);
    }
  }

  lemma OneHolds(c: seq<Matcher>, req: Request)
    ensures SomeHolds([c], req) <==> AllHold(c, req)
  {
    assert [c][0] == c;
  }

  lemma {:induction false} CombineHolds(a: seq<seq<Matcher>>, b: seq<seq<Matcher>>, req: Request)
    ensures SomeHolds(Combine(a, b), req) <==> SomeHolds(a, req) && SomeHolds(b, req)
  {
    if a != [] {
      CombineHolds(a[1..], b, req);
      JoinEachHolds(a[0], b, req);
      HoldsEither(JoinEach(a[0], b), Combine(a[1..], b), req);
      HoldsEither([a[0]], a[1..], req);
      assert [a[0]] + a[1..] == a;
      OneHolds(a[0], req);
    }
  }

  /** A rule holds for a request exactly if all matchers of one of its alternatives do. */
  lemma {:induction false} EvalByClauses(rule: Rule, req: Request)
    ensures Eval(rule, req) <==> SomeHolds(Clauses(rule), req)
  {
    match rule
    case Match(m) =>
      OneHolds([m], req);
      assert AllHold([m], req) <==> Satisfies(req, m);
    case And(l, r) =>
      EvalByClauses(l, req);
      EvalByClauses(r, req);
      CombineHolds(Clauses(l), Clauses(r), req);
    case Or(l, r) =>
      EvalByClauses(l, req);
      EvalByClauses(r, req);
      HoldsEither(Clauses(l), Clauses(r), req);
  }

  /** A prefix matcher accepts the paths that continue its text, a path matcher only the text itself. */
  lemma PathsAccepted(req: Request, path: string)
    ensures Satisfies(req, PathPrefix(path)) <==> exists rest: Bytes :: req.path == Encode(path) + rest
    ensures Satisfies(req, Path(path)) <==> Satisfies(req, PathPrefix(path)) && |req.path| == |Encode(path)|
  {
    if Encode(path) <= req.path {
      var rest := req.path[|Encode(path)|..];
      assert req.path == Encode(path) + rest;
    }
  }

  /** A method matcher ignores the case of its own argument, not that of the request. */
  lemma MethodsAccepted(req: Request, name: string)
    ensures Satisfies(req, Method(name)) ==> forall i :: 0 <= i < |req.method'| ==> !('a' <= req.method'[i] <= 'z')
    ensures Satisfies(req, Method(name)) <==>
              && |req.method'| == |Encode(name)|
              && forall i :: 0 <= i < |req.method'| ==>
                   if 'a' <= Encode(name)[i] <= 'z' then req.method'[i] as int + 32 == Encode(name)[i] as int
                   else req.method'[i] == Encode(name)[i]
  {
  }

  /** A header matcher accepts exactly one value. */
  lemma HeadersAccepted(req: Request, key: string, value: string, other: string)
    ensures req.header(key) == Encode(value) ==> Satisfies(req, Header(key, value))
    ensures Satisfies(req, Header(key, value)) ==> Decode(req.header(key)) == value
    ensures Satisfies(req, Header(key, value)) && Satisfies(req, Header(key, other)) ==> value == other
  {
    DecodeEncode(value);
    DecodeEncode(other);
  }
}
