/** The route table: routes are kept sorted, and a request goes to the first route that matches. */
module RouteTable {
  import opened Options
  import opened Utf8
  import opened RuleSyntax
  import RuleParser

  datatype Route = Route(name: string, rule: Bytes, priority: int, middlewares: seq<string>, service: string, match': Rule)

  predicate Matches(r: Route, req: Request) {
    Eval(r.match', req)
  }

  /** Higher priority first; among equals the longer rule. */
  predicate Beats(a: Route, b: Route) {
    if a.priority == b.priority then |a.rule| > |b.rule| else a.priority > b.priority
  }

  predicate Tied(a: Route, b: Route) {
    a.priority == b.priority && |a.rule| == |b.rule|
  }

  ghost predicate Sorted(table: seq<Route>) {
    forall i, j :: 0 <= i < j < |table| ==> !Beats(table[j], table[i])
  }

  /** The first route of the table that matches. */
  function FirstMatch(table: seq<Route>, req: Request): Option<Route> {
    if table == [] then None
    else if Matches(table[0], req) then Some(table[0])
    else FirstMatch(table[1..], req)
  }

  /** A matching route of the collection that no other matching one beats. */
  ghost predicate IsBest(routes: multiset<Route>, req: Request, r: Route) {
    r in routes && Matches(r, req) && forall o :: o in routes && Matches(o, req) ==> !Beats(o, r)
  }

  // ------------------------------------------------------------------ sorting

  /** Puts `r` in front of the first route that it ties with or beats. */
  function Insert(r: Route, table: seq<Route>): seq<Route> {
    if table == [] || !Beats(table[0], r) then [r] + table else [table[0]] + Insert(r, table[1..])
  }

  function SortRoutes(table: seq<Route>): seq<Route> {
    if table == [] then [] else Insert(table[0], SortRoutes(table[1..]))
  }

  lemma {:induction false} InsertPermutes(r: Route, table: seq<Route>)
    ensures multiset(Insert(r, table)) == multiset(table) + multiset{r}
  {
    if table != [] && Beats(table[0], r) {
      InsertPermutes(r, table[1..]);
      assert table == [table[0]] + table[1..];
    }
  }

  lemma {:induction false} InsertSorted(r: Route, table: seq<Route>)
    requires Sorted(table)
    ensures Sorted(Insert(r, table))
  {
    if table != [] && Beats(table[0], r) {
      var rest := Insert(r, table[1..]);
      InsertSorted(r, table[1..]);
      InsertPermutes(r, table[1..]);
      forall j | 0 <= j < |rest|
        ensures !Beats(rest[j], table[0])
      {
        assert rest[j] in multiset(rest);
        if rest[j] != r {
          var k :| 0 <= k < |table[1..]| && table[1..][k] == rest[j];
          assert table[k + 1] == rest[j];
        }
      }
    }
  }

  lemma {:induction false} SortPermutes(table: seq<Route>)
    ensures multiset(SortRoutes(table)) == multiset(table)
  {
    if table != [] {
      SortPermutes(table[1..]);
      InsertPermutes(table[0], SortRoutes(table[1..]));
      assert table == [table[0]] + table[1..];
    }
  }

  lemma {:induction false} SortRoutesSorts(table: seq<Route>)
    ensures Sorted(SortRoutes(table)) && multiset(SortRoutes(table)) == multiset(table)
  {
    SortPermutes(table);
    if table != [] {
      SortRoutesSorts(table[1..]);
      InsertSorted(table[0], SortRoutes(table[1..]));
    }
  }

  // ------------------------------------------------------------------ the best match

  /** In a sorted table the first match is a best one, and there is one exactly when something matches. */
  lemma {:induction false} FirstIsBest(table: seq<Route>, req: Request)
    requires Sorted(table)
    ensures match FirstMatch(table, req)
            case Some(r) => IsBest(multiset(table), req, r)
            case None => forall r :: r in table ==> !Matches(r, req)
  {
    if table != [] {
      var rest := table[1..];
      assert table == [table[0]] + rest;
      assert Sorted(rest) by {
        forall i, j | 0 <= i < j < |rest|
          ensures !Beats(rest[j], rest[i])
        {
          assert rest[i] == table[i + 1] && rest[j] == table[j + 1];
        }
      }
      FirstIsBest(rest, req);
    }
  }

  /** A route that no matching route beats can be brought to the front of the matches. */
  lemma BestCanComeFirst(routes: seq<Route>, req: Request, r: Route) returns (table: seq<Route>)
    requires IsBest(multiset(routes), req, r)
    ensures multiset(table) == multiset(routes) && Sorted(table)
    ensures FirstMatch(table, req) == Some(r)
  {
    var i :| 0 <= i < |routes| && routes[i] == r;
    var others := routes[..i] + routes[i + 1..];
    assert routes == routes[..i] + [r] + routes[i + 1..];
    var sorted := SortRoutes(others);
    SortRoutesSorts(others);
    table := Insert(r, sorted);
    InsertSorted(r, sorted);
    InsertPermutes(r, sorted);
    assert multiset(sorted) <= multiset(routes);
    FoundFirst(r, sorted, multiset(routes), req);
  }

  lemma {:induction false} FoundFirst(r: Route, table: seq<Route>, routes: multiset<Route>, req: Request)
    requires IsBest(routes, req, r) && multiset(table) <= routes
    ensures FirstMatch(Insert(r, table), req) == Some(r)
  {
    if table != [] && Beats(table[0], r) {
      assert table == [table[0]] + table[1..];
      assert table[0] in multiset(table);
      FoundFirst(r, table[1..], routes, req);
      assert Insert(r, table)[1..] == Insert(r, table[1..]);
    }
  }

  /** All tables give the same answer. */
  ghost predicate OneAnswer(routes: seq<Route>, req: Request) {
    forall a, b :: IsTable(a, routes) && IsTable(b, routes) ==> FirstMatch(a, req) == FirstMatch(b, req)
  }

  /** No two different routes are best matches. */
  ghost predicate OneBest(routes: seq<Route>, req: Request) {
    forall r, o :: IsBest(multiset(routes), req, r) && IsBest(multiset(routes), req, o) ==> r == o
  }

  /** The answer does not depend on the order in which the routes were added, nor on how the sort orders
      ties, exactly when at most one route is a best match. */
  lemma AnswerIndependentIffBestUnique(routes: seq<Route>, req: Request)
    ensures OneAnswer(routes, req) <==> OneBest(routes, req)
  {
    if OneAnswer(routes, req) {
      forall r, o | IsBest(multiset(routes), req, r) && IsBest(multiset(routes), req, o)
        ensures r == o
      {
        OneAnswerOneBest(routes, req, r, o);
      }
    }
    if OneBest(routes, req) {
      forall a, b | IsTable(a, routes) && IsTable(b, routes)
        ensures FirstMatch(a, req) == FirstMatch(b, req)
      {
        OneBestOneAnswer(routes, req, a, b);
      }
    }
  }

  lemma OneAnswerOneBest(routes: seq<Route>, req: Request, r: Route, o: Route)
    requires OneAnswer(routes, req)
    requires IsBest(multiset(routes), req, r) && IsBest(multiset(routes), req, o)
    ensures r == o
  {
    var a := BestCanComeFirst(routes, req, r);
    var b := BestCanComeFirst(routes, req, o);
    assert IsTable(a, routes) && IsTable(b, routes);
  }

  lemma OneBestOneAnswer(routes: seq<Route>, req: Request, a: seq<Route>, b: seq<Route>)
    requires OneBest(routes, req) && IsTable(a, routes) && IsTable(b, routes)
    ensures FirstMatch(a, req) == FirstMatch(b, req)
  {
    FirstIsBest(a, req);
    FirstIsBest(b, req);
    SameMembers(a, b);
  }

  /** Any table the manager may hold after these routes were added. */
  ghost predicate IsTable(table: seq<Route>, routes: seq<Route>) {
    Sorted(table) && multiset(table) == multiset(routes)
  }

  lemma SameMembers(a: seq<Route>, b: seq<Route>)
    requires multiset(a) == multiset(b)
    ensures forall r :: r in a <==> r in b
  {
    forall r
      ensures r in a <==> r in b
    {
      assert r in a <==> r in multiset(a);
      assert r in b <==> r in multiset(b);
    }
  }

  lemma BestTie(routes: multiset<Route>, req: Request, r: Route, o: Route)
    requires IsBest(routes, req, r) && IsBest(routes, req, o)
    ensures Tied(r, o)
  {
    assert !Beats(o, r) && !Beats(r, o);
  }

  /** When no two different routes tie on priority and rule length, the order of adding does not matter. */
  lemma DistinctRanksDecide(routes: seq<Route>, a: seq<Route>, b: seq<Route>, req: Request)
    requires forall r, o :: r in routes && o in routes && r.priority == o.priority && |r.rule| == |o.rule| ==> r == o
    requires IsTable(a, routes) && IsTable(b, routes)
    ensures FirstMatch(a, req) == FirstMatch(b, req)
  {
    forall r, o | IsBest(multiset(routes), req, r) && IsBest(multiset(routes), req, o)
      ensures r == o
    {
      BestTie(multiset(routes), req, r, o);
      assert r in multiset(routes) && o in multiset(routes);
    }
    AnswerIndependentIffBestUnique(routes, req);
  }

  /** The first match of a sorted table has the highest priority of all matches and, among those, the longest
      rule. */
  lemma FirstMatchRanksHighest(table: seq<Route>, req: Request, o: Route)
    requires Sorted(table) && o in table && Eval(o.match', req)
    ensures FirstMatch(table, req).Some?
    ensures var r := FirstMatch(table, req).value;
            && r in table && Eval(r.match', req)
            && o.priority <= r.priority && (o.priority == r.priority ==> |o.rule| <= |r.rule|)
  {
    FirstIsBest(table, req);
    assert o in multiset(table);
    assert Matches(o, req);
  }

  // ------------------------------------------------------------------ the table object

  class Manager {
    var routes: seq<Route>
    ghost var added: seq<Route>  // everything accepted so far, in order

    constructor ()
      ensures Valid() && added == []
    {
      routes, added := [], [];
    }

    /** The table holds exactly what was added, best first. */
    ghost predicate Valid()
      reads this
    {
      IsTable(routes, added)
    }

    /** Any sort may be used here; nothing is promised about the order of ties. */
    static method SortSlice(table: seq<Route>) returns (sorted: seq<Route>)
      ensures Sorted(sorted) && multiset(sorted) == multiset(table)
    {
      SortRoutesSorts(table);
      sorted := SortRoutes(table);
    }

    /** A rule that does not parse changes nothing; otherwise the route is added and the table is sorted. */
    method AddRoute(name: string, rule: Bytes, priority: int, middlewares: seq<string>, service: string)
      returns (ok: bool)
      requires Valid()
      modifies this
      ensures Valid()
      ensures ok <==> RuleParser.Parse(rule).Some?
      ensures !ok ==> routes == old(routes) && added == old(added)
      ensures ok ==>
                added == old(added) + [Route(name, rule, priority, middlewares, service, RuleParser.Parse(rule).value)]
    {
      var m := RuleParser.ParseRule(rule);
      if m == None {
        return false;
      }
      var route := Route(name, rule, priority, middlewares, service, m.value);
      routes := routes + [route];
      routes := SortSlice(routes);
      added := added + [route];
      return true;
    }

    /** The first match of the table: a best match out of everything added, None when nothing matches. */
    method FindRoute(req: Request) returns (r: Option<Route>)
      requires Valid()
      ensures r == FirstMatch(routes, req)
      ensures r.Some? ==> IsBest(multiset(added), req, r.value)
      ensures r == None <==> forall o :: o in added ==> !Eval(o.match', req)
      ensures r.Some? ==> r.value in added && Eval(r.value.match', req)
      ensures r.Some? ==> forall o :: o in added && Eval(o.match', req) ==>
                            o.priority <= r.value.priority
                            && (o.priority == r.value.priority ==> |o.rule| <= |r.value.rule|)
    {
      var i := 0;
      assert routes[0..] == routes;
      FirstIsBest(routes, req);
      SameMembers(routes, added);
      forall o | o in added && Eval(o.match', req)
        ensures FirstMatch(routes, req).Some?
        ensures var b := FirstMatch(routes, req).value;
                b in added && Eval(b.match', req)
                && o.priority <= b.priority && (o.priority == b.priority ==> |o.rule| <= |b.rule|)
      {
        FirstMatchRanksHighest(routes, req, o);
      }
      while i < |routes|
        invariant 0 <= i <= |routes|
        invariant FirstMatch(routes, req) == FirstMatch(routes[i..], req)
      {
        if Eval(routes[i].match', req) {
          return Some(routes[i]);
        }
        assert routes[i..][1..] == routes[i + 1..];
        i := i + 1;
      }
      return None;
    }
  }
}
