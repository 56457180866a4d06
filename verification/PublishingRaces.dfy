/** Publishing without atomicity: recording a result, reading the state and publishing what was read are three
    critical sections, and the balancer may ask the breaker between any two of them. */
module PublishingRaces {
  import opened Publishing
  import opened CircuitBreaker

  /** One critical section. `who` is the publisher, a request or the health monitor. */
  datatype Micro =
    | RecordResult(success: bool, at: int)
    | Ask(at: int)
    | ReadState(who: nat)
    | PublishRead(who: nat)

  /** The breaker, the state shown by the collector, and what each publisher has read. */
  datatype Split = Split(core: Core, shown: string, read: map<nat, string>)

  function MicroStep(s: Split, limits: Limits, m: Micro): Split {
    match m
    case RecordResult(success, at) =>
      s.(core := if success then AfterSuccess(s.core) else AfterFailure(s.core, limits.threshold, at))
    case Ask(at) => s.(core := AfterAsk(s.core, limits.timeout, at))
    case ReadState(who) => s.(read := s.read[who := StateName(s.core.state)])
    case PublishRead(who) => if who in s.read then s.(shown := s.read[who]) else s
  }

  function MicroRun(s: Split, limits: Limits, ms: seq<Micro>): Split {
    if ms == [] then s
    else MicroStep(MicroRun(s, limits, ms[..|ms| - 1]), limits, ms[|ms| - 1])
  }

  /** The three sections of one publisher without interruption: the result is recorded and the new state shown. */
  lemma {:induction false} OneTurn(s: Split, limits: Limits, success: bool, at: int, who: nat)
    ensures var r := MicroRun(s, limits, [RecordResult(success, at), ReadState(who), PublishRead(who)]);
            && r.core == (if success then AfterSuccess(s.core) else AfterFailure(s.core, limits.threshold, at))
            && r.shown == StateName(r.core.state)
  {
    var m1 := [RecordResult(success, at)];
    var m2 := [RecordResult(success, at), ReadState(who)];
    var m3 := [RecordResult(success, at), ReadState(who), PublishRead(who)];
    assert m1[..0] == [] && m2[..1] == m1 && m3[..2] == m2;
    assert MicroRun(s, limits, m1) == MicroStep(s, limits, RecordResult(success, at));
    assert MicroRun(s, limits, m2) == MicroStep(MicroRun(s, limits, m1), limits, ReadState(who));
  }

  // ------------------------------------------------------------------ schedules

  /** A critical section without the result and the time. */
  datatype Kind = Recording | Asking | Reading(who: nat) | Publishing(who: nat)

  function KindOf(m: Micro): Kind {
    match m
    case RecordResult(_, _) => Recording
    case Ask(_) => Asking
    case ReadState(who) => Reading(who)
    case PublishRead(who) => Publishing(who)
  }

  ghost predicate Fits(ms: seq<Micro>, sched: seq<Kind>) {
    |ms| == |sched| && forall i :: 0 <= i < |ms| ==> KindOf(ms[i]) == sched[i]
  }

  /** The latest read of a publisher, -1 for none. */
  function LastRead(sched: seq<Kind>, who: nat): (r: int)
    ensures -1 <= r < |sched|
  {
    if sched == [] then -1
    else if sched[|sched| - 1] == Reading(who) then |sched| - 1
    else LastRead(sched[..|sched| - 1], who)
  }

  /** The read whose value was published last, -1 for none. */
  function Source(sched: seq<Kind>): (r: int)
    ensures -1 <= r < |sched|
  {
    if sched == [] then -1 else
      var front, last := sched[..|sched| - 1], sched[|sched| - 1];
      if last.Publishing? && LastRead(front, last.who) != -1 then LastRead(front, last.who) else Source(front)
  }

  lemma {:induction false} LastReadReads(sched: seq<Kind>, who: nat)
    ensures LastRead(sched, who) != -1 ==> sched[LastRead(sched, who)] == Reading(who)
  {
    if sched != [] && sched[|sched| - 1] != Reading(who) {
      LastReadReads(sched[..|sched| - 1], who);
    }
  }

  lemma {:induction false} SourceReads(sched: seq<Kind>)
    ensures Source(sched) != -1 ==> sched[Source(sched)].Reading?
  {
    if sched != [] {
      var front, last := sched[..|sched| - 1], sched[|sched| - 1];
      SourceReads(front);
      if last.Publishing? {
        LastReadReads(front, last.who);
      }
    }
  }

  /** The state the breaker is in before the k-th section. */
  function NameAt(s: Split, limits: Limits, ms: seq<Micro>, k: nat): string
    requires k <= |ms|
  {
    StateName(MicroRun(s, limits, ms[..k]).core.state)
  }

  lemma {:induction false} NameInPrefix(s: Split, limits: Limits, ms: seq<Micro>, n: nat, k: nat)
    requires k <= n <= |ms|
    ensures NameAt(s, limits, ms[..n], k) == NameAt(s, limits, ms, k)
  {
    assert ms[..n][..k] == ms[..k];
  }

  lemma {:induction false} ReadIsLastRead(s: Split, limits: Limits, ms: seq<Micro>, sched: seq<Kind>, who: nat)
    requires Fits(ms, sched) && s.read == map[]
    ensures var r := MicroRun(s, limits, ms).read;
            if LastRead(sched, who) == -1 then who !in r
            else who in r && r[who] == NameAt(s, limits, ms, LastRead(sched, who))
  {
    if ms != [] {
      var n := |ms| - 1;
      ReadIsLastRead(s, limits, ms[..n], sched[..n], who);
      var k := LastRead(sched[..n], who);
      if k != -1 {
        NameInPrefix(s, limits, ms, n, k);
      }
      assert KindOf(ms[n]) == sched[n];
    }
  }

  /** What is shown is the breaker's state at the read that was published last. */
  lemma {:induction false} ShownIsSource(s: Split, limits: Limits, ms: seq<Micro>, sched: seq<Kind>)
    requires Fits(ms, sched) && s.read == map[]
    ensures MicroRun(s, limits, ms).shown
         == if Source(sched) == -1 then s.shown else NameAt(s, limits, ms, Source(sched))
  {
    if ms != [] {
      var n := |ms| - 1;
      ShownIsSource(s, limits, ms[..n], sched[..n]);
      var k := Source(sched[..n]);
      if k != -1 {
        NameInPrefix(s, limits, ms, n, k);
      }
      assert KindOf(ms[n]) == sched[n];
      if ms[n].PublishRead? {
        var j := LastRead(sched[..n], ms[n].who);
        ReadIsLastRead(s, limits, ms[..n], sched[..n], ms[n].who);
        if j != -1 {
          NameInPrefix(s, limits, ms, n, j);
        }
      }
    }
  }

  // ------------------------------------------------------------------ when the shown state is right

  /** No record and no question after the read that was published last. */
  ghost predicate UpToDate(sched: seq<Kind>) {
    forall k :: Source(sched) < k < |sched| ==> sched[k] != Recording && sched[k] != Asking
  }

  /** No record after it. */
  ghost predicate NoLaterRecord(sched: seq<Kind>) {
    forall k :: Source(sched) < k < |sched| ==> sched[k] != Recording
  }

  ghost predicate ShowsState(s: Split) {
    s.shown == StateName(s.core.state)
  }

  ghost predicate ShowsClosed(s: Split) {
    s.shown == "CLOSED" <==> s.core.state == Closed
  }

  /** Where a run may start: the breaker has the given history and its state is shown, nothing is being
      published; from there on the clock does not run backwards. */
  ghost predicate Start(h: History, s: Split, limits: Limits, ms: seq<Micro>) {
    && Answered(h, limits.threshold, limits.timeout) && s.core == CoreOf(h, limits)
    && ShowsState(s) && s.read == map[]
    && InOrder(s.core.lastFailureTime, ms)
  }

  ghost predicate InOrder(start: int, ms: seq<Micro>) {
    && (forall i :: 0 <= i < |ms| && Timed(ms[i]) ==> start <= ms[i].at)
    && forall i, j :: 0 <= i < j < |ms| && Timed(ms[i]) && Timed(ms[j]) ==> ms[i].at <= ms[j].at
  }

  predicate Timed(m: Micro) {
    m.RecordResult? || m.Ask?
  }

  /** Whatever the results and the times, the schedule ends with the breaker's state shown. */
  ghost predicate AlwaysShowsState(limits: Limits, sched: seq<Kind>) {
    forall h, s, ms :: Start(h, s, limits, ms) && Fits(ms, sched) ==> ShowsState(MicroRun(s, limits, ms))
  }

  /** Or at least with CLOSED shown exactly for a closed breaker. */
  ghost predicate AlwaysShowsClosed(limits: Limits, sched: seq<Kind>) {
    forall h, s, ms :: Start(h, s, limits, ms) && Fits(ms, sched) ==> ShowsClosed(MicroRun(s, limits, ms))
  }

  lemma {:induction false} CoreKept(s: Split, limits: Limits, ms: seq<Micro>, sched: seq<Kind>, k: nat)
    requires Fits(ms, sched) && k <= |ms|
    requires forall i :: k <= i < |ms| ==> sched[i] != Recording
    ensures var before, after := MicroRun(s, limits, ms[..k]).core, MicroRun(s, limits, ms).core;
            && (before.state == Closed <==> after.state == Closed)
            && ((forall i :: k <= i < |ms| ==> sched[i] != Asking) ==> after == before)
  {
    if k == |ms| {
      assert ms[..k] == ms;
    } else {
      var n := |ms| - 1;
      CoreKept(s, limits, ms[..n], sched[..n], k);
      assert ms[..n][..k] == ms[..k];
      assert KindOf(ms[n]) == sched[n];
    }
  }

  /** An up-to-date schedule ends with the breaker's state shown, from any state and for any results. */
  lemma {:induction false} UpToDateShowsState(s: Split, limits: Limits, ms: seq<Micro>, sched: seq<Kind>)
    requires Fits(ms, sched) && ShowsState(s) && s.read == map[] && UpToDate(sched)
    ensures ShowsState(MicroRun(s, limits, ms))
  {
    ShownIsSource(s, limits, ms, sched);
    SourceReads(sched);
    CoreKept(s, limits, ms, sched, if Source(sched) == -1 then 0 else Source(sched));
    assert ms[..0] == [];
  }

  /** Without a later record, CLOSED is shown exactly for a closed breaker. */
  lemma {:induction false} NoLaterRecordShowsClosed(s: Split, limits: Limits, ms: seq<Micro>, sched: seq<Kind>)
    requires Fits(ms, sched) && ShowsState(s) && s.read == map[] && NoLaterRecord(sched)
    ensures ShowsClosed(MicroRun(s, limits, ms))
  {
    ShownIsSource(s, limits, ms, sched);
    SourceReads(sched);
    CoreKept(s, limits, ms, sched, if Source(sched) == -1 then 0 else Source(sched));
    assert ms[..0] == [];
  }

  // ------------------------------------------------------------------ and when it can be wrong

  /** Failures at one time up to the cut, successes afterwards, and questions late enough to be admitted. */
  function Fill(sched: seq<Kind>, cut: int, early: int, late: int): (ms: seq<Micro>)
    ensures |ms| == |sched|
    ensures forall i :: 0 <= i < |ms| ==> ms[i] == FillOne(sched[i], i > cut, if i > cut then late else early)
  {
    seq(|sched|, i requires 0 <= i < |sched| => FillOne(sched[i], i > cut, if i > cut then late else early))
  }

  function FillOne(k: Kind, success: bool, at: int): Micro {
    match k
    case Recording => RecordResult(success, at)
    case Asking => Ask(at)
    case Reading(who) => ReadState(who)
    case Publishing(who) => PublishRead(who)
  }

  lemma {:induction false} FillFits(sched: seq<Kind>, cut: int, early: int, late: int)
    requires early <= late
    ensures Fits(Fill(sched, cut, early, late), sched) && InOrder(early, Fill(sched, cut, early, late))
  {
    var ms := Fill(sched, cut, early, late);
    forall i | 0 <= i < |ms|
      ensures KindOf(ms[i]) == sched[i]
    {
      assert ms[i] == FillOne(sched[i], i > cut, if i > cut then late else early);
    }
  }

  /** Up to the cut the breaker does not close, and stays open if the questions come before the timeout. */
  lemma {:induction false} OpenUpToCut(s: Split, limits: Limits, ms: seq<Micro>, early: int)
    requires s.core.state == Open && s.core.lastFailureTime == early
    requires forall i :: 0 <= i < |ms| && Timed(ms[i]) ==> ms[i] == RecordResult(false, early) || ms[i] == Ask(early)
    ensures var c := MicroRun(s, limits, ms).core;
            c.state != Closed && c.lastFailureTime == early && (0 <= limits.timeout ==> c.state == Open)
  {
    if ms != [] {
      OpenUpToCut(s, limits, ms[..|ms| - 1], early);
      assert Timed(ms[|ms| - 1]) || MicroRun(s, limits, ms).core == MicroRun(s, limits, ms[..|ms| - 1]).core;
    }
  }

  /** After the cut one success closes the breaker for good. */
  lemma {:induction false} ClosedAfterCut(s: Split, limits: Limits, ms: seq<Micro>, cut: nat, k: nat)
    requires cut <= k < |ms| && ms[k].RecordResult?
    requires forall i :: cut <= i < |ms| && ms[i].RecordResult? ==> ms[i].success
    ensures MicroRun(s, limits, ms).core.state == Closed
  {
    if k < |ms| - 1 {
      ClosedAfterCut(s, limits, ms[..|ms| - 1], cut, k);
    }
  }

  /** After the cut one admitted question leaves an open breaker half open. */
  lemma {:induction false} HalfOpenAfterCut(s: Split, limits: Limits, ms: seq<Micro>, cut: nat, k: nat, late: int)
    requires cut <= k < |ms| && ms[k] == Ask(late)
    requires forall i :: cut <= i < |ms| && Timed(ms[i]) ==> ms[i] == Ask(late)
    requires var c := MicroRun(s, limits, ms[..cut]).core;
             c.state == Open && late - c.lastFailureTime > limits.timeout
    ensures MicroRun(s, limits, ms).core.state == HalfOpen
  {
    var n := |ms| - 1;
    var front := MicroRun(s, limits, ms[..n]).core;
    assert ms[..n][..cut] == ms[..cut];
    if k < n {
      HalfOpenAfterCut(s, limits, ms[..n], cut, k, late);
      assert Timed(ms[n]) || MicroRun(s, limits, ms).core == front;
    } else {
      AsksOnly(s, limits, ms[..n], cut, late);
    }
  }

  /** Questions change an open breaker to a half-open one or not at all. */
  lemma {:induction false} AsksOnly(s: Split, limits: Limits, ms: seq<Micro>, cut: nat, late: int)
    requires cut <= |ms| && MicroRun(s, limits, ms[..cut]).core.state == Open
    requires forall i :: cut <= i < |ms| && Timed(ms[i]) ==> ms[i] == Ask(late)
    ensures var before, after := MicroRun(s, limits, ms[..cut]).core, MicroRun(s, limits, ms).core;
            after == before || after == before.(state := HalfOpen)
  {
    if cut == |ms| {
      assert ms[..cut] == ms;
    } else {
      var n := |ms| - 1;
      assert ms[..n][..cut] == ms[..cut];
      AsksOnly(s, limits, ms[..n], cut, late);
      assert Timed(ms[n]) || MicroRun(s, limits, ms).core == MicroRun(s, limits, ms[..n]).core;
    }
  }

  /** The history of an open breaker: just enough failures, all at one time. */
  function Failures(n: nat, at: int): History {
    if n == 0 then [] else Failures(n - 1, at) + [Failed(at)]
  }

  lemma {:induction false} FailuresOpen(n: nat, at: int, limits: Limits)
    ensures Answered(Failures(n, at), limits.threshold, limits.timeout)
    ensures FailuresSinceSuccess(Failures(n, at)) == n
    ensures n >= 1 ==> LatestFailure(Failures(n, at)) == at && !AdmittedSinceFailure(Failures(n, at))
  {
    if n != 0 {
      FailuresOpen(n - 1, at, limits);
      assert Failures(n, at)[..|Failures(n, at)| - 1] == Failures(n - 1, at);
    }
  }

  lemma {:induction false} OpenStart(limits: Limits, at: int) returns (h: History, s: Split)
    ensures Answered(h, limits.threshold, limits.timeout) && s.core == CoreOf(h, limits)
    ensures ShowsState(s) && s.read == map[]
    ensures s.core.state == Open && s.core.lastFailureTime == at
  {
    h := Failures(TripsAt(limits.threshold), at);
    FailuresOpen(TripsAt(limits.threshold), at, limits);
    RefinesHistory(h, limits.threshold, limits.timeout);
    s := Split(CoreOf(h, limits), "OPEN", map[]);
  }

  /** If a record comes after the read that was published last, some results leave a closed breaker shown as
      something else. */
  lemma {:induction false} LaterRecordCanMislead(limits: Limits, sched: seq<Kind>, k: nat)
    returns (h: History, s: Split, ms: seq<Micro>)
    requires Source(sched) < k < |sched| && sched[k] == Recording
    ensures Start(h, s, limits, ms) && Fits(ms, sched)
    ensures MicroRun(s, limits, ms).core.state == Closed && MicroRun(s, limits, ms).shown != "CLOSED"
  {
    var cut := Source(sched);
    h, s := OpenStart(limits, 0);
    ms := Fill(sched, cut, 0, 0);
    FillFits(sched, cut, 0, 0);
    ShownIsSource(s, limits, ms, sched);
    if cut != -1 {
      OpenUpToCut(s, limits, ms[..cut], 0);
    }
    ClosedAfterCut(s, limits, ms, cut + 1, k);
  }

  /** If only questions come after it, some times leave a half-open breaker shown as open. */
  lemma {:induction false} LaterQuestionCanMislead(limits: Limits, sched: seq<Kind>, k: nat)
    returns (h: History, s: Split, ms: seq<Micro>)
    requires 0 <= limits.timeout && NoLaterRecord(sched)
    requires Source(sched) < k < |sched| && sched[k] == Asking
    ensures Start(h, s, limits, ms) && Fits(ms, sched)
    ensures MicroRun(s, limits, ms).core.state == HalfOpen && MicroRun(s, limits, ms).shown == "OPEN"
  {
    var cut, late := Source(sched), limits.timeout + 1;
    h, s := OpenStart(limits, 0);
    ms := Fill(sched, cut, 0, late);
    FillFits(sched, cut, 0, late);
    ShownIsSource(s, limits, ms, sched);
    OpenUpToCut(s, limits, ms[..cut + 1], 0);
    if cut != -1 {
      OpenUpToCut(s, limits, ms[..cut], 0);
    }
    HalfOpenAfterCut(s, limits, ms, cut + 1, k, late);
  }

  // ------------------------------------------------------------------ exactly then

  /** CLOSED is shown exactly for a closed breaker, whatever the results and the times, if and only if no
      record comes after the read that was published last. */
  lemma {:induction false} ShowsClosedExactly(limits: Limits, sched: seq<Kind>)
    ensures AlwaysShowsClosed(limits, sched) <==> NoLaterRecord(sched)
  {
    if NoLaterRecord(sched) {
      forall h, s, ms | Start(h, s, limits, ms) && Fits(ms, sched)
        ensures ShowsClosed(MicroRun(s, limits, ms))
      {
        NoLaterRecordShowsClosed(s, limits, ms, sched);
      }
    } else {
      var k :| Source(sched) < k < |sched| && sched[k] == Recording;
      var h, s, ms := LaterRecordCanMislead(limits, sched, k);
      assert Start(h, s, limits, ms) && !ShowsClosed(MicroRun(s, limits, ms));
    }
  }

  /** The breaker's very state is shown, whatever the results and the times, if and only if neither a record
      nor a question comes after that read. */
  lemma {:induction false} ShowsStateExactly(limits: Limits, sched: seq<Kind>)
    requires 0 <= limits.timeout
    ensures AlwaysShowsState(limits, sched) <==> UpToDate(sched)
  {
    if UpToDate(sched) {
      forall h, s, ms | Start(h, s, limits, ms) && Fits(ms, sched)
        ensures ShowsState(MicroRun(s, limits, ms))
      {
        UpToDateShowsState(s, limits, ms, sched);
      }
    } else if NoLaterRecord(sched) {
      var k :| Source(sched) < k < |sched| && sched[k] == Asking;
      var h, s, ms := LaterQuestionCanMislead(limits, sched, k);
      assert Start(h, s, limits, ms) && !ShowsState(MicroRun(s, limits, ms));
    } else {
      var k :| Source(sched) < k < |sched| && sched[k] == Recording;
      var h, s, ms := LaterRecordCanMislead(limits, sched, k);
      assert Start(h, s, limits, ms) && !ShowsState(MicroRun(s, limits, ms));
    }
  }

  // ------------------------------------------------------------------ the same with a negative timeout

  /** A question at j, and no record between it and the end. */
  ghost predicate AskedSince(sched: seq<Kind>, end: int, j: int) {
    0 <= j < end <= |sched| && sched[j] == Asking && forall i :: j < i < end ==> sched[i] != Recording
  }

  /** The latest failure is never later than what follows. */
  lemma {:induction false} FailureIsPast(s: Split, limits: Limits, ms: seq<Micro>, at: int)
    requires InOrder(s.core.lastFailureTime, ms) && s.core.lastFailureTime <= at
    requires forall i :: 0 <= i < |ms| && Timed(ms[i]) ==> ms[i].at <= at
    ensures MicroRun(s, limits, ms).core.lastFailureTime <= at
  {
    if ms != [] {
      FailureIsPast(s, limits, ms[..|ms| - 1], at);
      assert ms[|ms| - 1].RecordResult? ==> Timed(ms[|ms| - 1]);
    }
  }

  /** With a negative timeout no breaker is open after a question, until the next record. */
  lemma {:induction false} NotOpenAfterQuestion(s: Split, limits: Limits, ms: seq<Micro>, sched: seq<Kind>, j: nat)
    requires limits.timeout < 0 && Fits(ms, sched) && InOrder(s.core.lastFailureTime, ms)
    requires AskedSince(sched, |sched|, j)
    ensures MicroRun(s, limits, ms).core.state != Open
  {
    var n := |ms| - 1;
    if j < n {
      assert InOrder(s.core.lastFailureTime, ms[..n]);
      NotOpenAfterQuestion(s, limits, ms[..n], sched[..n], j);
      assert KindOf(ms[n]) == sched[n];
    } else {
      assert KindOf(ms[n]) == sched[n] && Timed(ms[n]);
      FailureIsPast(s, limits, ms[..n], ms[n].at);
    }
  }

  lemma {:induction false} QuestionsChangeNothing(s: Split, limits: Limits, ms: seq<Micro>, sched: seq<Kind>, k: nat)
    requires Fits(ms, sched) && k <= |ms|
    requires forall i :: k <= i < |ms| ==> sched[i] != Recording
    requires MicroRun(s, limits, ms[..k]).core.state != Open
    ensures MicroRun(s, limits, ms).core == MicroRun(s, limits, ms[..k]).core
  {
    if k == |ms| {
      assert ms[..k] == ms;
    } else {
      var n := |ms| - 1;
      assert ms[..n][..k] == ms[..k] && KindOf(ms[n]) == sched[n];
      QuestionsChangeNothing(s, limits, ms[..n], sched[..n], k);
    }
  }

  /** A question comes before the read that was published last, after the latest record before it. */
  ghost predicate AskedBefore(sched: seq<Kind>) {
    exists j :: AskedSince(sched, Source(sched), j)
  }

  lemma {:induction false} AskedBeforeShowsState(s: Split, limits: Limits, ms: seq<Micro>, sched: seq<Kind>)
    requires limits.timeout < 0 && Fits(ms, sched) && InOrder(s.core.lastFailureTime, ms) && s.read == map[]
    requires NoLaterRecord(sched) && AskedBefore(sched)
    ensures ShowsState(MicroRun(s, limits, ms))
  {
    var k := Source(sched);
    var j :| AskedSince(sched, k, j);
    ShownIsSource(s, limits, ms, sched);
    SourceReads(sched);
    NotOpenAfterQuestion(s, limits, ms[..k], sched[..k], j);
    QuestionsChangeNothing(s, limits, ms, sched, k);
  }

  /** Failures re-open a breaker, so without a question since the latest record it is open. */
  lemma {:induction false} OpenUnlessAsked(s: Split, limits: Limits, ms: seq<Micro>, early: int)
    requires s.core.state == Open && s.core.lastFailureTime == early
    requires forall i :: 0 <= i < |ms| && Timed(ms[i]) ==> ms[i] == RecordResult(false, early) || ms[i] == Ask(early)
    ensures var c := MicroRun(s, limits, ms).core;
            && c.state != Closed && c.lastFailureTime == early
            && (c.state == HalfOpen ==>
                  exists j :: 0 <= j < |ms| && ms[j].Ask? && forall i :: j < i < |ms| ==> !ms[i].RecordResult?)
  {
    if ms != [] {
      var n := |ms| - 1;
      OpenUnlessAsked(s, limits, ms[..n], early);
      assert Timed(ms[n]) || MicroRun(s, limits, ms).core == MicroRun(s, limits, ms[..n]).core;
      if MicroRun(s, limits, ms).core.state == HalfOpen && !ms[n].Ask? {
        var j :| 0 <= j < n && ms[..n][j].Ask? && forall i :: j < i < n ==> !ms[..n][i].RecordResult?;
        assert forall i :: j < i < |ms| ==> i == n || ms[i] == ms[..n][i];
        assert ms[j].Ask?;
      }
    }
  }

  lemma {:induction false} OpenAtSource(s: Split, limits: Limits, ms: seq<Micro>, sched: seq<Kind>, cut: nat)
    requires Fits(ms, sched) && cut <= |ms| && s.core.state == Open
    requires forall i :: 0 <= i < cut && Timed(ms[i]) ==>
               ms[i] == RecordResult(false, s.core.lastFailureTime) || ms[i] == Ask(s.core.lastFailureTime)
    requires forall j :: !AskedSince(sched, cut, j)
    ensures var c := MicroRun(s, limits, ms[..cut]).core; c.state == Open && c.lastFailureTime == s.core.lastFailureTime
  {
    OpenUnlessAsked(s, limits, ms[..cut], s.core.lastFailureTime);
    if MicroRun(s, limits, ms[..cut]).core.state == HalfOpen {
      var j :| 0 <= j < cut && ms[..cut][j].Ask? && forall i :: j < i < cut ==> !ms[..cut][i].RecordResult?;
      assert forall i :: j < i < cut ==> ms[..cut][i] == ms[i] && KindOf(ms[i]) == sched[i];
      assert AskedSince(sched, cut, j);
    }
  }

  lemma {:induction false} LaterQuestionCanMisleadAtOnce(limits: Limits, sched: seq<Kind>, k: nat)
    returns (h: History, s: Split, ms: seq<Micro>)
    requires limits.timeout < 0 && NoLaterRecord(sched)
    requires Source(sched) < k < |sched| && sched[k] == Asking
    requires !AskedBefore(sched)
    ensures Start(h, s, limits, ms) && Fits(ms, sched)
    ensures MicroRun(s, limits, ms).core.state == HalfOpen && MicroRun(s, limits, ms).shown == "OPEN"
  {
    var cut := Source(sched);
    h, s := OpenStart(limits, 0);
    ms := Fill(sched, cut, 0, 0);
    FillFits(sched, cut, 0, 0);
    ShownIsSource(s, limits, ms, sched);
    SourceReads(sched);
    if cut != -1 {
      OpenAtSource(s, limits, ms, sched, cut);
      assert ms[..cut + 1][..cut] == ms[..cut];
    }
    HalfOpenAfterCut(s, limits, ms, cut + 1, k, 0);
  }

  /** With a negative timeout a later question also does no harm if another one came before the read, after
      the latest record; this too is exact. */
  lemma {:induction false} ShowsStateExactlyAtOnce(limits: Limits, sched: seq<Kind>)
    requires limits.timeout < 0
    ensures AlwaysShowsState(limits, sched)
       <==> UpToDate(sched) || (NoLaterRecord(sched) && AskedBefore(sched))
  {
    if UpToDate(sched) {
      forall h, s, ms | Start(h, s, limits, ms) && Fits(ms, sched)
        ensures ShowsState(MicroRun(s, limits, ms))
      {
        UpToDateShowsState(s, limits, ms, sched);
      }
    } else if !NoLaterRecord(sched) {
      var k :| Source(sched) < k < |sched| && sched[k] == Recording;
      var h, s, ms := LaterRecordCanMislead(limits, sched, k);
      assert Start(h, s, limits, ms) && !ShowsState(MicroRun(s, limits, ms));
    } else if AskedBefore(sched) {
      forall h, s, ms | Start(h, s, limits, ms) && Fits(ms, sched)
        ensures ShowsState(MicroRun(s, limits, ms))
      {
        AskedBeforeShowsState(s, limits, ms, sched);
      }
    } else {
      var k :| Source(sched) < k < |sched| && sched[k] == Asking;
      var h, s, ms := LaterQuestionCanMisleadAtOnce(limits, sched, k);
      assert Start(h, s, limits, ms) && !ShowsState(MicroRun(s, limits, ms));
    }
  }

  // ------------------------------------------------------------------ publishers that do not overlap

  /** What happens one after the other: a question, or a publisher's three sections. */
  datatype Turn = Question | Turn(who: nat)

  function Sections(turns: seq<Turn>): seq<Kind> {
    if turns == [] then [] else
      var t := turns[|turns| - 1];
      Sections(turns[..|turns| - 1])
      + (if t.Question? then [Asking] else [Recording, Reading(t.who), Publishing(t.who)])
  }

  /** Publishers that do not overlap show CLOSED exactly for a closed breaker, wherever questions are asked. */
  lemma {:induction false} TurnsShowClosed(limits: Limits, turns: seq<Turn>)
    ensures NoLaterRecord(Sections(turns)) && AlwaysShowsClosed(limits, Sections(turns))
  {
    if turns != [] {
      var front, t := Sections(turns[..|turns| - 1]), turns[|turns| - 1];
      TurnsShowClosed(limits, turns[..|turns| - 1]);
      var sched := Sections(turns);
      if t.Question? {
        assert sched[..|sched| - 1] == front;
      } else {
        var n := |front|;
        assert sched[..n + 2] == front + [Recording, Reading(t.who)] && sched[n + 1] == Reading(t.who);
        assert Source(sched) == n + 1;
      }
    }
    ShowsClosedExactly(limits, Sections(turns));
  }

  /** Two publishers that overlap do not: the first reads, the second records, reads and publishes, and then
      the first publishes what it read. */
  lemma {:induction false} OverlapCanMislead(limits: Limits)
    ensures !AlwaysShowsClosed(limits, [Recording, Reading(0), Recording, Reading(1), Publishing(1), Publishing(0)])
  {
    var r0, s2 := [Recording, Reading(0)], [Recording, Reading(0), Recording];
    var s3, s4 := s2 + [Reading(1)], s2 + [Reading(1), Publishing(1)];
    var sched := [Recording, Reading(0), Recording, Reading(1), Publishing(1), Publishing(0)];
    assert s2[..2] == r0 && s3[..3] == s2 && s4[..4] == s3 && sched[..5] == s4;
    assert LastRead(r0, 0) == 1;
    assert LastRead(s2, 0) == 1;
    assert LastRead(s3, 0) == 1;
    assert LastRead(s4, 0) == 1;
    assert Source(sched) == 1 && sched[2] == Recording;
    ShowsClosedExactly(limits, sched);
  }

  // ------------------------------------------------------------------ HALF_OPEN

  /** A half-open breaker can be published: a tripping failure is recorded, a question is asked once the
      timeout has passed, and only then the publisher reads. */
  lemma {:induction false} HalfOpenCanBePublished(s: Split, limits: Limits, at: int, later: int)
    requires s.core.failureCount + 1 >= limits.threshold && later - at > limits.timeout
    ensures var ms := [RecordResult(false, at), Ask(later), ReadState(0), PublishRead(0)];
            MicroRun(s, limits, ms).shown == "HALF_OPEN"
  {
    var s1 := MicroStep(s, limits, RecordResult(false, at));
    var s2 := MicroStep(s1, limits, Ask(later));
    var s3 := MicroStep(s2, limits, ReadState(0));
    var m1, m2 := [RecordResult(false, at)], [RecordResult(false, at), Ask(later)];
    var m3 := [RecordResult(false, at), Ask(later), ReadState(0)];
    var ms := [RecordResult(false, at), Ask(later), ReadState(0), PublishRead(0)];
    assert m1[..0] == [] && m2[..1] == m1 && m3[..2] == m2 && ms[..3] == m3;
    assert MicroRun(s, limits, m1) == s1;
    assert MicroRun(s, limits, m2) == s2;
    assert MicroRun(s, limits, m3) == s3;
  }

  /** But only by a question between the latest record and the read that was published last. */
  lemma {:induction false} HalfOpenNeedsQuestion(s: Split, limits: Limits, ms: seq<Micro>, sched: seq<Kind>, k: nat)
    requires Fits(ms, sched) && s.read == map[]
    requires k < Source(sched) && sched[k] == Recording
    requires forall i :: k < i < Source(sched) ==> sched[i] != Asking
    ensures MicroRun(s, limits, ms).shown != "HALF_OPEN"
  {
    ShownIsSource(s, limits, ms, sched);
    NotHalfOpen(s, limits, ms[..Source(sched)], k);
  }

  lemma {:induction false} NotHalfOpen(s: Split, limits: Limits, ms: seq<Micro>, k: nat)
    requires k < |ms| && ms[k].RecordResult?
    requires forall i :: k < i < |ms| ==> !ms[i].Ask?
    ensures MicroRun(s, limits, ms).core.state != HalfOpen
  {
    if k < |ms| - 1 {
      NotHalfOpen(s, limits, ms[..|ms| - 1], k);
    }
  }
}
