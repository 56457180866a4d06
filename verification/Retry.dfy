/** The retry middleware: each attempt writes into a buffer, and only one buffer reaches the client. */
module Retrying {
  import opened Options

  /** Headers by their canonical names. */
  type Headers = map<string, seq<string>>
  type Body = string

  /** What a handler may do with its response writer. */
  datatype WriteOp =
    | SetHeader(key: string, values: seq<string>)
    | AddHeader(key: string, value: string)
    | WriteHeader(code: int)
    | Write(bytes: Body)

  datatype Response = Response(status: int, headers: Headers, body: Body)

  const Blank := Response(200, map[], "")

  function Values(h: Headers, key: string): seq<string> {
    if key in h then h[key] else []
  }

  function PlayOne(r: Response, op: WriteOp): Response {
    match op
    case SetHeader(key, values) => r.(headers := r.headers[key := values])
    case AddHeader(key, value) => r.(headers := r.headers[key := Values(r.headers, key) + [value]])
    case WriteHeader(code) => r.(status := code)
    case Write(bytes) => r.(body := r.body + bytes)
  }

  /** The response a handler has built with these calls. */
  function Play(ops: seq<WriteOp>): Response {
    if ops == [] then Blank else PlayOne(Play(ops[..|ops| - 1]), ops[|ops| - 1])
  }

  // ------------------------------------------------------------------ what a handler's calls amount to

  /** All bytes written, in order. */
  function Written(ops: seq<WriteOp>): Body {
    if ops == [] then "" else
      var last := ops[|ops| - 1];
      Written(ops[..|ops| - 1]) + (if last.Write? then last.bytes else "")
  }

  /** The code of the last WriteHeader, 200 if there is none. */
  function LastStatus(ops: seq<WriteOp>): int {
    if ops == [] then 200
    else if ops[|ops| - 1].WriteHeader? then ops[|ops| - 1].code
    else LastStatus(ops[..|ops| - 1])
  }

  /** The values given to one header: those of the last SetHeader, followed by those added since. */
  function HeaderValues(ops: seq<WriteOp>, key: string): seq<string> {
    if ops == [] then [] else
      var earlier, last := HeaderValues(ops[..|ops| - 1], key), ops[|ops| - 1];
      if last.SetHeader? && last.key == key then last.values
      else if last.AddHeader? && last.key == key then earlier + [last.value]
      else earlier
  }

  /** The response played has everything that was written, the last status, and the values of every header. */
  lemma {:induction false} PlayedResponse(ops: seq<WriteOp>)
    ensures Play(ops).body == Written(ops)
    ensures Play(ops).status == LastStatus(ops)
    ensures forall key :: Values(Play(ops).headers, key) == HeaderValues(ops, key)
  {
    if ops != [] {
      PlayedResponse(ops[..|ops| - 1]);
    }
  }

  /** Bytes written in several pieces arrive as one text. */
  lemma {:induction false} WrittenInPieces(pieces: seq<Body>, more: Body)
    ensures Written(Writes(pieces + [more])) == Written(Writes(pieces)) + more
  {
    assert Writes(pieces + [more])[..|pieces|] == Writes(pieces);
  }

  function Writes(pieces: seq<Body>): (ops: seq<WriteOp>)
    ensures |ops| == |pieces|
  {
    seq(|pieces|, i requires 0 <= i < |pieces| => Write(pieces[i]))
  }

  /** `extra` added to `h`, value by value. */
  function AddAll(h: Headers, extra: Headers): Headers {
    map k | k in h.Keys + extra.Keys && (k in h || extra[k] != []) :: Values(h, k) + Values(extra, k)
  }

  // ------------------------------------------------------------------ the writers

  /** The connection to the client. */
  class ClientWriter {
    var headers: Headers
    var status: Option<int>
    var body: Body

    method WriteHeader(code: int)
      modifies this`status
      ensures status == if old(status) == None then Some(code) else old(status)
    {
      if status == None {
        status := Some(code);
      }
    }

    method Write(bytes: Body)
      modifies this`body
      ensures body == old(body) + bytes
    {
      body := body + bytes;
    }

    method AddHeaders(extra: Headers)
      modifies this`headers
      ensures headers == AddAll(old(headers), extra)
    {
      var keys := extra.Keys;
      ghost var h := headers;
      AddNone(h);
      assert extra - keys == map[];
      while keys != {}
        invariant keys <= extra.Keys
        invariant headers == AddAll(h, extra - keys)
        decreases keys
      {
        var k :| k in keys;
        AddKey(h, extra, keys, k);
        if extra[k] != [] {
          headers := headers[k := Values(headers, k) + extra[k]];
        }
        keys := keys - {k};
      }
      assert extra - keys == extra;
    }

    /** The plain-text error page. */
    method Error(message: string, code: int)
      modifies this
      ensures headers == old(headers)["Content-Type" := ["text/plain; charset=utf-8"]]["X-Content-Type-Options" := ["nosniff"]]
      ensures status == if old(status) == None then Some(code) else old(status)
      ensures body == old(body) + message + "\n"
    {
      headers := headers["Content-Type" := ["text/plain; charset=utf-8"]]["X-Content-Type-Options" := ["nosniff"]];
      WriteHeader(code);
      Write(message + "\n");
      assert old(body) + (message + "\n") == old(body) + message + "\n";
    }
  }

  /** Added headers come after the values that were there. */
  lemma AddedValues(h: Headers, extra: Headers)
    ensures forall key :: Values(AddAll(h, extra), key) == Values(h, key) + Values(extra, key)
  {
    forall key
      ensures Values(AddAll(h, extra), key) == Values(h, key) + Values(extra, key)
    {
      if key !in AddAll(h, extra) {
        assert Values(h, key) == [] && Values(extra, key) == [];
      }
    }
  }

  lemma AddNone(h: Headers)
    ensures AddAll(h, map[]) == h
  {
    var r := AddAll(h, map[]);
    assert r.Keys == h.Keys;
    forall k | k in h
      ensures r[k] == h[k]
    {
      assert Values(map[], k) == [];
    }
  }

  lemma AddKeyValue(h: Headers, extra: Headers, keys: set<string>, k: string, j: string)
    requires keys <= extra.Keys && k in keys
    ensures Values(AddAll(h, extra - (keys - {k})), j)
         == if j == k then Values(AddAll(h, extra - keys), k) + extra[k] else Values(AddAll(h, extra - keys), j)
    ensures j in AddAll(h, extra - (keys - {k})) <==> j in AddAll(h, extra - keys) || (j == k && extra[k] != [])
  {
    assert Values(extra - keys, k) == [];
  }

  lemma AddKey(h: Headers, extra: Headers, keys: set<string>, k: string)
    requires keys <= extra.Keys && k in keys
    ensures var before := AddAll(h, extra - keys);
            AddAll(h, extra - (keys - {k}))
              == if extra[k] == [] then before else before[k := Values(before, k) + extra[k]]
  {
    var before, after := AddAll(h, extra - keys), AddAll(h, extra - (keys - {k}));
    var expected := if extra[k] == [] then before else before[k := Values(before, k) + extra[k]];
    forall j
      ensures (j in after <==> j in expected) && (j in after ==> after[j] == expected[j])
    {
      AddKeyValue(h, extra, keys, k, j);
    }
  }

  /** Captures one attempt. */
  class RetryWriter {
    const client: ClientWriter
    var statusCode: int
    var body: Body
    var headers: Headers
    var committed: bool

    constructor (client: ClientWriter)
      ensures this.client == client && Captured() == Blank && !committed
    {
      this.client := client;
      statusCode, body, headers, committed := 200, "", map[], false;
    }

    function Captured(): Response
      reads this
    {
      Response(statusCode, headers, body)
    }

    /** Before the response is committed everything is captured; afterwards the body passes through. */
    method Handle(op: WriteOp)
      modifies this, client
      ensures committed == old(committed)
      ensures !committed ==> Captured() == PlayOne(old(Captured()), op) && unchanged(client)
      ensures committed ==>
                && statusCode == old(statusCode) && body == old(body)
                && headers == PlayOne(old(Captured()), op).headers
                && client.headers == old(client.headers) && client.status == old(client.status)
                && client.body == old(client.body) + (if op.Write? then op.bytes else "")
    {
      match op
      case SetHeader(key, values) =>
        headers := headers[key := values];
      case AddHeader(key, value) =>
        headers := headers[key := Values(headers, key) + [value]];
      case WriteHeader(code) =>
        if !committed {
          statusCode := code;
        }
      case Write(bytes) =>
        if !committed {
          body := body + bytes;
        } else {
          client.Write(bytes);
        }
    }

    /** The captured response goes to the client, once. */
    method Flush()
      modifies this`committed, client
      ensures committed && Captured() == old(Captured())
      ensures old(committed) ==> unchanged(client)
      ensures !old(committed) ==>
                && client.headers == AddAll(old(client.headers), headers)
                && client.status == (if old(client.status) == None then Some(statusCode) else old(client.status))
                && client.body == old(client.body) + body
    {
      if committed {
        return;
      }
      committed := true;
      client.AddHeaders(headers);
      client.WriteHeader(statusCode);
      if |body| > 0 {
        client.Write(body);
      }
    }
  }

  // ------------------------------------------------------------------ the attempts

  predicate IsRetryable(status: int) {
    status >= 500
  }

  /** What the context of a request says: the attempt, and the backends to avoid. */
  datatype Context = Context(attempt: nat, excluded: seq<string>)

  /** What the downstream handler does when it is invoked in a context, whatever it is. */
  type Downstream = Context -> seq<WriteOp>

  predicate GivesUp(d: Downstream, outer: Context, max: nat, a: nat) {
    !IsRetryable(Play(d(outer.(attempt := a))).status) || a == max
  }

  /** The first attempt from `a` on that is not retried. */
  function LastAttempt(d: Downstream, outer: Context, max: nat, a: nat): (n: nat)
    requires 1 <= a <= max
    ensures a <= n <= max && GivesUp(d, outer, max, n)
    ensures forall i :: a <= i < n ==> IsRetryable(Play(d(outer.(attempt := i))).status)
    decreases max - a
  {
    if GivesUp(d, outer, max, a) then a else LastAttempt(d, outer, max, a + 1)
  }

  /** The last attempt is the first one whose status is below 500, or the last one allowed. */
  lemma LastAttemptExactly(d: Downstream, outer: Context, max: nat)
    requires 1 <= max
    ensures var n := LastAttempt(d, outer, max, 1);
            && 1 <= n <= max
            && (LastStatus(d(outer.(attempt := n))) < 500 || n == max)
            && forall i :: 1 <= i < n ==> LastStatus(d(outer.(attempt := i))) >= 500
  {
    var n := LastAttempt(d, outer, max, 1);
    PlayedResponse(d(outer.(attempt := n)));
    forall i | 1 <= i < n
      ensures LastStatus(d(outer.(attempt := i))) >= 500
    {
      PlayedResponse(d(outer.(attempt := i)));
    }
  }

  /** The response of the last attempt. */
  function FinalResponse(d: Downstream, outer: Context, max: nat): Response
    requires 1 <= max
  {
    Play(d(outer.(attempt := LastAttempt(d, outer, max, 1))))
  }

  function Pow2(n: nat): (p: nat)
    ensures 1 <= p
  {
    if n == 0 then 1 else 2 * Pow2(n - 1)
  }

  /** A random number as the library draws it. */
  type Fraction = f: real | 0.0 <= f < 1.0

  /** Whole milliseconds: the base plus a random part of a quarter of it. */
  function Jittered(base: int, random: Fraction): int {
    (base as real + random * 0.25 * base as real).Floor
  }

  /** The wait before the attempt after `a`: the interval doubled a - 1 times, jittered. */
  function Backoff(init: int, a: nat, random: Fraction): int
    requires 1 <= a
  {
    Jittered(init * Pow2(a - 1), random)
  }

  /** The wait is the doubled interval times 1 + random / 4, cut to whole milliseconds: at least the doubled
      interval and less than 1.25 times that. */
  lemma BackoffBounds(init: int, a: nat, random: Fraction)
    requires 1 <= init && 1 <= a
    ensures var exact := (init * Pow2(a - 1)) as real * (1.0 + random / 4.0);
            Backoff(init, a, random) as real <= exact < Backoff(init, a, random) as real + 1.0
    ensures init * Pow2(a - 1) <= Backoff(init, a, random)
    ensures 4 * Backoff(init, a, random) < 5 * (init * Pow2(a - 1))
  {
    ProductPositive(init, Pow2(a - 1));
    JitteredBounds(init * Pow2(a - 1), random);
    JitteredExact(init * Pow2(a - 1), random);
  }

  lemma JitteredExact(base: int, random: Fraction)
    ensures var exact := base as real * (1.0 + random / 4.0);
            Jittered(base, random) as real <= exact < Jittered(base, random) as real + 1.0
  {
    var b: real, r: real := base as real, random;
    Quarter(b, r);
  }

  lemma Quarter(b: real, r: real)
    ensures b + r * 0.25 * b == b * (1.0 + r / 4.0)
  {
  }

  lemma ProductPositive(a: int, b: int)
    requires 1 <= a && 1 <= b
    ensures 1 <= a * b
  {
  }

  lemma JitteredBounds(base: int, random: Fraction)
    requires 1 <= base
    ensures base <= Jittered(base, random) && 4 * Jittered(base, random) < 5 * base
  {
    var p: real, b := random * 0.25, base as real;
    PartOf(p, 0.25, b);
    FloorBounds(base, p * b);
  }

  lemma PartOf(p: real, q: real, b: real)
    requires 0.0 <= p < q && 0.0 < b
    ensures 0.0 <= p * b && p * b < q * b
  {
    assert (q - p) * b > 0.0;
  }

  lemma FloorBounds(base: int, x: real)
    requires 0.0 <= x && x < 0.25 * base as real
    ensures base <= (base as real + x).Floor && 4 * (base as real + x).Floor < 5 * base
  {
    var f := (base as real + x).Floor;
    assert f as real <= base as real + x;
    assert 4.0 * f as real < 5.0 * base as real;
  }

  /** The first `k` invocations: the attempts are counted, the exclusions are those of the outer request. */
  function Invocations(k: nat, outer: Context): (r: seq<Context>)
    ensures |r| == k
  {
    if k == 0 then [] else Invocations(k - 1, outer) + [outer.(attempt := k)]
  }

  /** The first `k` waits. */
  function Waits(init: int, random: nat -> Fraction, k: nat): (r: seq<int>)
    ensures |r| == k
  {
    if k == 0 then [] else Waits(init, random, k - 1) + [Backoff(init, k, random(k))]
  }

  /** The first value of a header, "" for none. */
  function Get(h: Headers, key: string): string {
    if Values(h, key) == [] then "" else Values(h, key)[0]
  }

  function Decimal(n: nat): string {
    if n < 10 then [('0' as int + n) as char] else Decimal(n / 10) + [('0' as int + n % 10) as char]
  }

  /** Reads a number back. */
  function ReadDecimal(s: string): int {
    if s == [] then 0 else ReadDecimal(s[..|s| - 1]) * 10 + (s[|s| - 1] as int - '0' as int)
  }

  lemma {:induction false} DecimalIsRead(n: nat)
    ensures ReadDecimal(Decimal(n)) == n && Decimal(n) != []
    ensures forall i :: 0 <= i < |Decimal(n)| ==> '0' <= Decimal(n)[i] <= '9'
  {
    if n < 10 {
      assert Decimal(n)[..0] == [];
      assert ReadDecimal([]) == 0;
    } else {
      DecimalIsRead(n / 10);
      assert Decimal(n)[..|Decimal(n)| - 1] == Decimal(n / 10);
    }
  }

  const BACKEND_HEADER := "X-Backend-Url"
  const DISCONNECTED := "Client disconnected during retry backoff"

  /** The client does not go away during any wait before attempt `n`. */
  ghost predicate ClientStays(gone: nat -> bool, n: nat) {
    forall a :: 1 <= a < n ==> !gone(a)
  }

  class Retry {
    const maxAttempts: int
    const initialIntervalMs: int

    predicate Valid() {
      1 <= maxAttempts && 1 <= initialIntervalMs
    }

    constructor (maxAttempts: int, initialIntervalMs: int)
      ensures Valid()
      ensures this.maxAttempts == (if maxAttempts <= 0 then 3 else maxAttempts)
      ensures this.initialIntervalMs == (if initialIntervalMs <= 0 then 100 else initialIntervalMs)
    {
      this.maxAttempts := if maxAttempts <= 0 then 3 else maxAttempts;
      this.initialIntervalMs := if initialIntervalMs <= 0 then 100 else initialIntervalMs;
    }

    method CalculateBackoff(attempt: nat, random: Fraction) returns (ms: int)
      requires Valid() && 1 <= attempt
      ensures initialIntervalMs * Pow2(attempt - 1) <= ms
      ensures 4 * ms < 5 * (initialIntervalMs * Pow2(attempt - 1))
      ensures ms == Backoff(initialIntervalMs, attempt, random)
    {
      var base := initialIntervalMs * Pow2(attempt - 1);
      var jitter := random * 0.25 * base as real;
      ms := (base as real + jitter).Floor;
      assert ms == Jittered(base, random);
      BackoffBounds(initialIntervalMs, attempt, random);
    }

    /** Runs the handler into a fresh buffer. */
    method Attempt(client: ClientWriter, ops: seq<WriteOp>) returns (w: RetryWriter)
      modifies client
      ensures fresh(w) && w.client == client && !w.committed && w.Captured() == Play(ops)
      ensures unchanged(client)
    {
      w := new RetryWriter(client);
      var i := 0;
      assert ops[..0] == [];
      while i < |ops|
        invariant 0 <= i <= |ops|
        invariant !w.committed && w.Captured() == Play(ops[..i])
        invariant unchanged(client)
      {
        assert ops[..i + 1][..i] == ops[..i];
        w.Handle(ops[i]);
        i := i + 1;
      }
      assert ops[..i] == ops;
    }

    /** The captured response goes out with an X-Attempts header. */
    method Commit(w: RetryWriter, outer: Context)
      requires !w.committed
      modifies w, w.client
      ensures var r := old(w.Captured());
              && w.client.status == (if old(w.client.status) == None then Some(r.status) else old(w.client.status))
              && w.client.headers == AddAll(old(w.client.headers), r.headers["X-Attempts" := [Decimal(outer.attempt)]])
              && w.client.body == old(w.client.body) + r.body
    {
      w.Handle(SetHeader("X-Attempts", [Decimal(outer.attempt)]));
      w.Flush();
    }

    /** The attempt loop. If the client stays, the last attempt's writer comes back, still uncommitted, and the
        client has seen nothing; otherwise the client has been given the error page. `invocations` holds the
        contexts the handler was invoked in. */
    method RunAttempts(client: ClientWriter, d: Downstream, random: nat -> Fraction, gone: nat -> bool, outer: Context)
      returns (lastWriter: RetryWriter?, ghost invocations: seq<Context>, ghost waits: seq<int>)
      requires Valid()
      modifies client
      ensures invocations == Invocations(|invocations|, outer)
      ensures waits == Waits(initialIntervalMs, random, |waits|)
      ensures ClientStays(gone, LastAttempt(d, outer, maxAttempts, 1)) ==>
                && |invocations| == LastAttempt(d, outer, maxAttempts, 1) == |waits| + 1
                && unchanged(client)
                && lastWriter != null && fresh(lastWriter) && lastWriter.client == client && !lastWriter.committed
                && lastWriter.Captured() == FinalResponse(d, outer, maxAttempts)
      ensures !ClientStays(gone, LastAttempt(d, outer, maxAttempts, 1)) ==>
                && lastWriter == null
                && 1 <= |invocations| == |waits| < LastAttempt(d, outer, maxAttempts, 1)
                && gone(|waits|) && ClientStays(gone, |waits|)
                && client.status == (if old(client.status) == None then Some(504) else old(client.status))
                && client.body == old(client.body) + DISCONNECTED + "\n"
    {
      invocations, waits := Invocations(0, outer), Waits(initialIntervalMs, random, 0);
      ghost var n := LastAttempt(d, outer, maxAttempts, 1);
      lastWriter := null;
      var attempt := 1;
      while attempt <= maxAttempts
        invariant 1 <= attempt <= n && n == LastAttempt(d, outer, maxAttempts, attempt)
        invariant invocations == Invocations(attempt - 1, outer)
        invariant waits == Waits(initialIntervalMs, random, if attempt == 1 then 0 else attempt - 2)
        invariant attempt > 1 ==> ClientStays(gone, attempt - 1)
        invariant unchanged(client)
        decreases n - attempt
      {
        if attempt > 1 {
          var backoff := CalculateBackoff(attempt - 1, random(attempt - 1));
          waits := waits + [backoff];
          if gone(attempt - 1) {
            client.Error(DISCONNECTED, 504);
            lastWriter := null;
            return;
          }
        }
        var attemptReq := outer.(attempt := attempt);
        lastWriter := Attempt(client, d(attemptReq));
        invocations := invocations + [attemptReq];
        if !IsRetryable(lastWriter.statusCode) || attempt == maxAttempts {
          break;
        }
        var backendURL := Get(lastWriter.headers, BACKEND_HEADER);
        if backendURL != "" {
          // nothing reads this before the next attempt overwrites it
          attemptReq := outer.(excluded := attemptReq.excluded + [backendURL]);
        }
        lastWriter := null;
        attempt := attempt + 1;
      }
    }

    /** For any downstream behaviour: if the client stays, the handler is invoked up to the first attempt with
        a status below 500 or up to the maximum, and the client receives the response of exactly that attempt
        with an X-Attempts header; if the client goes away during the wait after some attempt, it gets the 504
        page and nothing of any attempt. Every attempt is given the exclusions of the outer request. */
    method Serve(client: ClientWriter, d: Downstream, random: nat -> Fraction, gone: nat -> bool, outer: Context)
      returns (ghost invocations: seq<Context>, ghost waits: seq<int>)
      requires Valid()
      modifies client
      ensures invocations == Invocations(|invocations|, outer)
      ensures waits == Waits(initialIntervalMs, random, |waits|)
      ensures ClientStays(gone, LastAttempt(d, outer, maxAttempts, 1)) ==>
                && |invocations| == LastAttempt(d, outer, maxAttempts, 1) == |waits| + 1
                && var ops := d(outer.(attempt := LastAttempt(d, outer, maxAttempts, 1)));
                   && client.status == (if old(client.status) == None then Some(LastStatus(ops)) else old(client.status))
                   && client.body == old(client.body) + Written(ops)
                   && (forall key :: Values(client.headers, key) == Values(old(client.headers), key)
                         + (if key == "X-Attempts" then [Decimal(outer.attempt)] else HeaderValues(ops, key)))
      ensures !ClientStays(gone, LastAttempt(d, outer, maxAttempts, 1)) ==>
                && 1 <= |invocations| == |waits| < LastAttempt(d, outer, maxAttempts, 1)
                && gone(|waits|) && ClientStays(gone, |waits|)
                && client.status == (if old(client.status) == None then Some(504) else old(client.status))
                && client.body == old(client.body) + DISCONNECTED + "\n"
    {
      var lastWriter;
      lastWriter, invocations, waits := RunAttempts(client, d, random, gone, outer);
      if lastWriter != null {
        ghost var r := lastWriter.Captured();
        PlayedResponse(d(outer.(attempt := LastAttempt(d, outer, maxAttempts, 1))));
        AddedValues(client.headers, r.headers["X-Attempts" := [Decimal(outer.attempt)]]);
        Commit(lastWriter, outer);
      }
    }
  }

  /** Whatever backend an attempt failed on, a later invocation is told to avoid it only if the outer request
      was: the exclusion meant for the retry is lost. */
  lemma {:induction false} RetryMayReuseBackend(k: nat, outer: Context, i: nat, backend: string)
    requires i < k
    ensures Invocations(k, outer)[i].attempt == i + 1
    ensures backend in Invocations(k, outer)[i].excluded <==> backend in outer.excluded
  {
    if i < k - 1 {
      RetryMayReuseBackend(k - 1, outer, i, backend);
    }
  }

  // ------------------------------------------------------------------ the waits

  /** The time waited before attempt a. */
  function TotalWait(init: int, random: nat -> Fraction, a: nat): int
    requires 1 <= a
  {
    if a == 1 then 0 else TotalWait(init, random, a - 1) + Backoff(init, a - 1, random(a - 1))
  }

  /** Each wait is longer than the one before, whatever was drawn. */
  lemma WaitsIncrease(init: int, random: nat -> Fraction, a: nat)
    requires 1 <= init && 1 <= a
    ensures Backoff(init, a, random(a)) < Backoff(init, a + 1, random(a + 1))
  {
    BackoffBounds(init, a, random(a));
    BackoffBounds(init, a + 1, random(a + 1));
    assert Pow2(a) == 2 * Pow2(a - 1);
    assert init * (2 * Pow2(a - 1)) == 2 * (init * Pow2(a - 1));
    ProductPositive(init, Pow2(a - 1));
  }

  /** The time waited before attempt a is at least init * (2^(a-1) - 1) and at most 1.25 times that. */
  lemma {:induction false} TotalWaitBounds(init: int, random: nat -> Fraction, a: nat)
    requires 1 <= init && 1 <= a
    ensures init * (Pow2(a - 1) - 1) <= TotalWait(init, random, a)
    ensures 4 * TotalWait(init, random, a) <= 5 * (init * (Pow2(a - 1) - 1))
  {
    if a != 1 {
      TotalWaitBounds(init, random, a - 1);
      BackoffBounds(init, a - 1, random(a - 1));
      var p := Pow2(a - 2);
      assert Pow2(a - 1) == 2 * p;
      assert init * (2 * p - 1) == init * (p - 1) + init * p;
    }
  }

  function SumOf(waits: seq<int>): int {
    if waits == [] then 0 else SumOf(waits[..|waits| - 1]) + waits[|waits| - 1]
  }

  /** The waits of the loop add up to the time waited. */
  lemma {:induction false} WaitsAddUp(init: int, random: nat -> Fraction, a: nat)
    requires 1 <= a
    ensures SumOf(Waits(init, random, a - 1)) == TotalWait(init, random, a)
  {
    if a != 1 {
      WaitsAddUp(init, random, a - 1);
      var waits := Waits(init, random, a - 1);
      assert waits[..|waits| - 1] == Waits(init, random, a - 2);
    }
  }
}
