/**
 What a round of the transfer loop does with each report it reads, and when a denied transfer is
 handed to cURL again: never before its back-off is over, and in the first round after that.
 Source: rest_vol.c, RV_curl_multi_perform.
 */
module RetryTiming {
  import Numbers
  import opened Retry

  // ----- The reports -----

  // What makes the loop give up at a report.
  predicate Ends(t: Transfer, m: Report) {
    || (m.code != 200 && m.code != 201 && m.code != 503)
    || (m.code == 200 && !m.callbackOk)
    || (m.code == 503 && NextBackoff(t.backoff, m.random) >= MAX)
  }

  // What becomes of the transfer otherwise; `retry` says whether it waits then.
  predicate ActedOn(m: Report, t: Transfer, after: Transfer, retry: bool) {
    match m.code
    case 503 =>
      && retry && after.failedAt == m.clock && after.backoff == NextBackoff(t.backoff, m.random)
      && after.denied == t.denied + 1 && after.calls == t.calls && !after.closed && !after.other
    case 200 => !retry && after == t.(calls := t.calls + 1, closed := true)
    case 201 => !retry && after == t.(other := true)
    case _ => false
  }

  // Every length from the shortest on is some random number's.
  lemma EveryBackoff(backoff: nat, d: nat)
    requires Base(backoff) <= d <= 2 * Base(backoff)
    ensures NextBackoff(backoff, d - Base(backoff)) == d
  {
    var n, m := d - Base(backoff), Base(backoff) + 1;
    assert n % m == n by { Numbers.ModRange(n, m); }
  }

  lemma FirstReport(s: State)
    requires Placed(s) && s.queue != [] && s.status == Going
    ensures var m, n := s.queue[0], Read(s);
      && (n.status == Failed <==> Ends(s.info[m.index], m))
      && (n.status == Going ==> ActedOn(m, s.info[m.index], n.info[m.index], n.retry[m.index]))
      && (forall i :: 0 <= i < |s.info| && i != m.index ==> n.info[i] == s.info[i] && n.retry[i] == s.retry[i])
  {
    hide Base, NextBackoff, Bounded, Indices;
    var m := s.queue[0];
    IndicesFirst(s.queue);
    assert Places(s, m.index) == 1;
  }

  // All reports are acted on, each on its own transfer, unless one of them ends the loop.
  predicate AllActedOn(s: State, n: State)
    requires Shape(s) && Shape(n) && |n.info| == |s.info|
  {
    && (forall k :: 0 <= k < |s.queue| ==>
          var m := s.queue[k]; ActedOn(m, s.info[m.index], n.info[m.index], n.retry[m.index]))
    && (forall i :: 0 <= i < |s.info| && i !in Indices(s.queue) ==>
          n.info[i] == s.info[i] && n.retry[i] == s.retry[i])
  }

  predicate SomeEnds(s: State)
    requires Shape(s)
  {
    exists k :: 0 <= k < |s.queue| && Ends(s.info[s.queue[k].index], s.queue[k])
  }

  /** Reading the reports fails exactly if one of them ends the loop; otherwise every transfer
      reported on becomes what its report says, and all others stay as they were. */
  lemma {:induction false} ReportsAreActedOn(s: State)
    requires Placed(s) && s.status == Going
    ensures ReadAll(s).status == Failed <==> SomeEnds(s)
    ensures ReadAll(s).status == Going ==> AllActedOn(s, ReadAll(s))
    ensures ReadAll(s).running == s.running
    decreases |s.queue|
  {
    if s.queue != [] {
      hide Read, Ends, ActedOn, Places, Good, Indices;
      var n := Read(s);
      FirstReport(s);
      ReadKeeps(s);
      IndicesFirst(s.queue);
      if n.status == Going {
        ReportsAreActedOn(n);
        LaterReports(s, n);
        if ReadAll(n).status == Going { AllReports(s, n, ReadAll(n)); }
      } else {
        assert Ends(s.info[s.queue[0].index], s.queue[0]);
      }
    }
  }

  lemma LaterIndex(q: seq<Report>, k: nat)
    requires Distinct(q) && 0 < k < |q|
    ensures q[k].index != q[0].index && q[k] == q[1..][k - 1] && q[k].index in Indices(q[1..])
  {
    assert q[1..][k - 1].index == q[k].index;
  }

  lemma LaterReports(s: State, n: State)
    requires Placed(s) && s.queue != [] && Shape(n) && n.queue == s.queue[1..] && |n.info| == |s.info|
    requires forall i :: 0 <= i < |s.info| && i != s.queue[0].index ==> n.info[i] == s.info[i]
    requires !Ends(s.info[s.queue[0].index], s.queue[0])
    ensures SomeEnds(n) <==> SomeEnds(s)
  {
    hide Ends, Places, Good, Indices;
    if SomeEnds(s) {
      var k :| 0 <= k < |s.queue| && Ends(s.info[s.queue[k].index], s.queue[k]);
      LaterIndex(s.queue, k);
      assert Ends(n.info[n.queue[k - 1].index], n.queue[k - 1]);
    }
    if SomeEnds(n) {
      var k :| 0 <= k < |n.queue| && Ends(n.info[n.queue[k].index], n.queue[k]);
      LaterIndex(s.queue, k + 1);
      assert Ends(s.info[s.queue[k + 1].index], s.queue[k + 1]);
    }
  }

  lemma AllReports(s: State, n: State, r: State)
    requires Placed(s) && s.queue != [] && Shape(n) && Shape(r) && n.queue == s.queue[1..]
    requires |n.info| == |s.info| == |r.info| && AllActedOn(n, r)
    requires forall i :: 0 <= i < |s.info| && i != s.queue[0].index ==>
      n.info[i] == s.info[i] && n.retry[i] == s.retry[i]
    requires var m := s.queue[0]; ActedOn(m, s.info[m.index], n.info[m.index], n.retry[m.index])
    ensures AllActedOn(s, r)
  {
    hide ActedOn, Places, Good, Indices;
    IndicesFirst(s.queue);
    forall k | 0 <= k < |s.queue|
      ensures var m := s.queue[k]; ActedOn(m, s.info[m.index], r.info[m.index], r.retry[m.index])
    {
      if k > 0 {
        LaterIndex(s.queue, k);
        assert n.queue[k - 1] == s.queue[k];
      }
    }
  }

  // ----- One round -----

  // The state once a round has read its reports, if it reads them: not when as many transfers are
  // under way as in the round before.
  function AfterReports(s: State, r: Round): (q: State)
    requires Shape(s) && Possible(s, r)
    ensures Shape(q) && |q.info| == |s.info|
  {
    var p := Perform(s, r);
    if s.prev != |p.running| then ReadAll(p) else p
  }

  /** In a round that does not fail, a transfer that waits once the reports have been read is handed
      to cURL again exactly if its back-off is over by the clock of the round; otherwise it goes on
      waiting, and nothing else changes. */
  lemma HandedBackExactlyWhenDue(s: State, r: Round, i: nat)
    requires Inv(s) && s.status == Going && Possible(s, r) && i < |s.info| && Next(s, r).status != Failed
    ensures var q, n := AfterReports(s, r), Next(s, r);
      && n.info[i] == q.info[i]
      && (q.retry[i] ==>
            && i !in q.running
            && (if r.now - q.info[i].failedAt >= q.info[i].backoff then i in n.running && !n.retry[i]
                else i !in n.running && n.retry[i]))
      && (!q.retry[i] ==> !n.retry[i] && (i in n.running <==> i in s.running - Indices(r.reports)))
  {
    hide Good, Read, ReadAll, Indices;
    var p := Perform(s, r);
    PerformKeeps(s, r);
    ReadAllKeeps(p);
    var q := AfterReports(s, r);
    assert Placed(q) && Places(q, i) == 1;
  }

  // When a round reads its reports, when it fails, and when it is the last: as soon as nothing is
  // under way before the due transfers are added.
  lemma RoundReads(s: State, r: Round)
    requires Inv(s) && s.status == Going && Possible(s, r)
    ensures var p := Perform(s, r);
      (if s.prev == |p.running| then AfterReports(s, r) == p && Next(s, r).status != Failed
       else && (Next(s, r).status == Failed <==> SomeEnds(p))
            && (Next(s, r).status != Failed ==> AllActedOn(p, AfterReports(s, r))))
    ensures Next(s, r).status != Failed ==>
      && (Next(s, r).status == Succeeded <==> s.running <= Indices(r.reports))
      && Next(s, r).prev == |s.running - Indices(r.reports)|
  {
    hide Read, ReadAll, Places, Good, Ends, ActedOn, AddDue, Indices;
    var p := Perform(s, r);
    PerformKeeps(s, r);
    ReportsAreActedOn(p);
    ReadAllKeeps(p);
    Emptied(s.running, Indices(r.reports));
  }

  lemma Emptied(a: set<nat>, b: set<nat>)
    ensures |a - b| == 0 <==> a <= b
  {
    if a <= b {
      assert a - b == {};
    } else {
      var x :| x in a && x !in b;
      assert x in a - b;
    }
  }

  // ----- Whole runs -----

  // When the back-off of a transfer is over.
  function DueAt(t: Transfer): nat {
    t.failedAt + t.backoff
  }

  // A waiting transfer is not heard of.
  lemma StillWaiting(s: State, r: Round, i: nat)
    requires Inv(s) && s.status == Going && Possible(s, r) && i < |s.info| && s.retry[i]
    requires Next(s, r).status != Failed
    ensures AfterReports(s, r).retry[i] && AfterReports(s, r).info[i] == s.info[i]
  {
    hide Read, ReadAll, Good, Ends, ActedOn, AddDue, Indices, Next, AfterReports;
    var p := Perform(s, r);
    RoundReads(s, r);
    IndicesJoin(s.queue, r.reports);
    assert Places(s, i) == 1;
  }

  lemma WaitsOneRound(s: State, r: Round, i: nat)
    requires Inv(s) && s.status == Going && Possible(s, r) && i < |s.info| && s.retry[i]
    requires Next(s, r).status != Failed
    ensures var n := Next(s, r);
      && n.info[i] == s.info[i] && Inv(n)
      && (n.retry[i] <==> r.now < DueAt(s.info[i])) && (i in n.running <==> r.now >= DueAt(s.info[i]))
  {
    hide Next, AfterReports, Possible, Places, Good;
    StillWaiting(s, r, i);
    HandedBackExactlyWhenDue(s, r, i);
    RoundKeeps(s, r);
  }

  /** A transfer denied at clock t with back-off d stays out of cURL in every round before t + d. */
  lemma {:induction false} NotBeforeItsTime(s: State, rounds: seq<Round>, i: nat)
    requires Inv(s) && PossibleRun(s, rounds) && i < |s.info| && s.retry[i]
    requires forall k :: 0 <= k < |rounds| ==> rounds[k].now < DueAt(s.info[i])
    requires Run(s, rounds).status != Failed
    ensures var n := Run(s, rounds);
      Inv(n) && n.retry[i] && i !in n.running && n.info[i] == s.info[i]
    decreases |rounds|
  {
    hide Next, Possible, Good;
    if rounds == [] {
      assert Places(s, i) == 1;
    } else {
      FailedStays(s, rounds);
      WaitsOneRound(s, rounds[0], i);
      NotBeforeItsTime(Next(s, rounds[0]), rounds[1..], i);
    }
  }

  lemma FailedStays(s: State, rounds: seq<Round>)
    requires Shape(s) && rounds != [] && PossibleRun(s, rounds) && Run(s, rounds).status != Failed
    ensures Next(s, rounds[0]).status != Failed
  {
    hide Next, Possible;
    var rest := rounds[1..];
    if rest == [] { assert Run(Next(s, rounds[0]), rest) == Next(s, rounds[0]); }
  }

  /** It is handed to cURL again in the first round that reaches t + d, as it was denied. */
  lemma RetriedAtItsTime(s: State, rounds: seq<Round>, last: Round, i: nat)
    requires Inv(s) && PossibleRun(s, rounds) && i < |s.info| && s.retry[i]
    requires forall k :: 0 <= k < |rounds| ==> rounds[k].now < DueAt(s.info[i])
    requires Run(s, rounds).status == Going && Possible(Run(s, rounds), last)
    requires last.now >= DueAt(s.info[i]) && Next(Run(s, rounds), last).status != Failed
    ensures var n := Next(Run(s, rounds), last);
      i in n.running && !n.retry[i] && n.info[i] == s.info[i]
  {
    hide Next, Possible, Places, Good;
    NotBeforeItsTime(s, rounds, i);
    WaitsOneRound(Run(s, rounds), last, i);
  }
}
