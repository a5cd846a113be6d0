/**
 The loop that drives many transfers at once, with its back-off after "503 service
 unavailable".  One round of the loop is one step; what cURL, the clock, the random numbers
 and the caller's callback do is a parameter of the round.
 Source: rest_vol.c, RV_curl_multi_perform.
 */
module Retry {

  const INITIAL := 10_000_000
  const MAX := 3_000_000_000

  // A finished transfer that cURL reports: its index and response code, and what happens
  // when the report is read: the clock, the random number, the callback's verdict.
  datatype Report = Report(index: nat, code: nat, clock: nat, random: nat, callbackOk: bool)

  // One round: the transfers cURL finishes in it, and the clock at its end.
  datatype Round = Round(reports: seq<Report>, now: nat)

  // `closed` is the null handle of a transfer that has been dealt with. `other` marks a
  // transfer whose report (201) has been read without any effect. `calls`, `denied` and
  // `waited` count the success callbacks, the 503 responses and the accepted back-off time.
  datatype Transfer = Transfer(backoff: nat, failedAt: nat, closed: bool, other: bool,
                               calls: nat, denied: nat, waited: nat)

  datatype Status = Going | Succeeded | Failed

  // `running` and `queue` are inside cURL: the transfers under way and the unread reports.
  // `retry` says which handles have been taken out to be added again later.
  datatype State = State(running: set<nat>, queue: seq<Report>, retry: seq<bool>, info: seq<Transfer>,
                         prev: nat, status: Status)

  const FRESH := Transfer(0, 0, false, false, 0, 0, 0)

  function Below(n: nat): (r: set<nat>)
    ensures forall i: nat :: i in r <==> i < n
  {
    if n == 0 then {} else Below(n - 1) + {n - 1}
  }

  function Start(count: nat): State {
    State(Below(count), [], seq(count, _ => false), seq(count, _ => FRESH), 0, Going)
  }

  // ----- One round -----

  function Indices(q: seq<Report>): set<nat> {
    set k | 0 <= k < |q| :: q[k].index
  }

  predicate Distinct(q: seq<Report>) {
    forall j, k :: 0 <= j < k < |q| ==> q[j].index != q[k].index
  }

  predicate Shape(s: State) {
    && |s.info| == |s.retry|
    && (forall i :: i in s.running ==> i < |s.info|)
    && (forall k :: 0 <= k < |s.queue| ==> s.queue[k].index < |s.info|)
  }

  // cURL reports only transfers that are under way, each once.
  predicate Possible(s: State, r: Round) {
    Distinct(r.reports) && Indices(r.reports) <= s.running
  }

  function Perform(s: State, r: Round): (p: State)
    requires Shape(s) && Possible(s, r)
    ensures Shape(p) && |p.info| == |s.info|
  {
    assert forall k :: 0 <= k < |r.reports| ==> r.reports[k].index in Indices(r.reports);
    s.(running := s.running - Indices(r.reports), queue := s.queue + r.reports)
  }

  // The first back-off, or half as much again.
  function Base(backoff: nat): nat {
    if backoff == 0 then INITIAL else backoff * 3 / 2
  }

  // A random number stretches it to up to twice that.
  function NextBackoff(backoff: nat, random: nat): (d: nat)
    ensures Base(backoff) <= d <= 2 * Base(backoff)
  {
    Base(backoff) + random % (Base(backoff) + 1)
  }

  function Denied(t: Transfer, m: Report): Transfer {
    var d := NextBackoff(t.backoff, m.random);
    t.(backoff := d, failedAt := m.clock, denied := t.denied + 1,
       waited := if d >= MAX then t.waited else t.waited + d)
  }

  // The first report of the queue is taken out and acted on.
  function Read(s: State): (n: State)
    requires Shape(s) && s.queue != []
    ensures Shape(n) && n.queue == s.queue[1..] && |n.info| == |s.info|
  {
    var m := s.queue[0];
    var i := m.index;
    var t := s.info[i];
    var rest := s.(queue := s.queue[1..]);
    if m.code == 503 then
      var after := Denied(t, m);
      rest.(retry := s.retry[i := true], info := s.info[i := after],
            status := if after.backoff >= MAX then Failed else s.status)
    else if m.code == 200 then
      if m.callbackOk then rest.(info := s.info[i := t.(calls := t.calls + 1, closed := true)])
      else rest.(info := s.info[i := t.(calls := t.calls + 1)], status := Failed)
    else if m.code == 201 then rest.(info := s.info[i := t.(other := true)])
    else rest.(status := Failed)
  }

  // The reports are read one after the other, until one of them ends the loop.
  function ReadAll(s: State): (n: State)
    requires Shape(s)
    ensures Shape(n) && |n.info| == |s.info|
    decreases |s.queue|
  {
    if s.status != Going || s.queue == [] then s else ReadAll(Read(s))
  }

  predicate Due(s: State, i: nat, now: nat)
    requires i < |s.info| == |s.retry|
  {
    s.retry[i] && now - s.info[i].failedAt >= s.info[i].backoff
  }

  // The waiting transfers whose time has come are handed to cURL again.
  function AddDue(s: State, now: nat): (n: State)
    requires Shape(s)
    ensures Shape(n) && n.info == s.info
  {
    s.(running := s.running + (set i | 0 <= i < |s.info| && Due(s, i, now)),
       retry := seq(|s.info|, i requires 0 <= i < |s.info| => s.retry[i] && !Due(s, i, now)))
  }

  // The reports are read only if the number of transfers under way differs from the round
  // before, and the loop ends when that number, taken before the waiting ones are added, is 0.
  function Next(s: State, r: Round): (n: State)
    requires Shape(s) && Possible(s, r)
    ensures Shape(n) && |n.info| == |s.info|
  {
    var p := Perform(s, r);
    var q := if s.prev != |p.running| then ReadAll(p) else p;
    if q.status == Failed then q
    else AddDue(q, r.now).(prev := |p.running|, status := if |p.running| == 0 then Succeeded else Going)
  }

  // ----- What holds after every round -----

  function One(b: bool): nat {
    if b then 1 else 0
  }

  // In how many places a transfer is.
  function Places(s: State, i: nat): nat
    requires i < |s.info| == |s.retry|
  {
    One(i in s.running) + One(i in Indices(s.queue)) + One(s.retry[i]) + One(s.info[i].closed) + One(s.info[i].other)
  }

  // The shortest and the longest back-off after `k` denials.
  function Shortest(k: nat): nat {
    if k == 0 then 0 else Base(Shortest(k - 1))
  }

  function Longest(k: nat): nat {
    if k == 0 then 0 else 2 * Base(Longest(k - 1))
  }

  predicate Bounded(t: Transfer) {
    && Shortest(t.denied) <= t.backoff <= Longest(t.denied)
    && (t.denied == 0 <==> t.backoff == 0)
    && t.backoff < MAX
    && t.waited <= 3 * t.backoff + t.denied
  }

  predicate Good(t: Transfer) {
    t.calls == One(t.closed) && Bounded(t)
  }

  // Every transfer is in exactly one place, and its callback has run exactly if it is closed.
  predicate Placed(s: State) {
    && Shape(s) && Distinct(s.queue)
    && (forall i :: 0 <= i < |s.info| ==> Places(s, i) == 1)
    && (forall i :: 0 <= i < |s.info| ==> Good(s.info[i]))
  }

  // Besides, the recorded number of transfers under way is 0 only before the first round.
  predicate Inv(s: State) {
    && Placed(s)
    && (s.status == Going && s.prev == 0 ==> forall i :: 0 <= i < |s.info| ==> i in s.running)
  }

  // Also when the loop gives up, no callback has run twice.
  predicate CalledOnce(s: State) {
    forall i :: 0 <= i < |s.info| ==> s.info[i].calls <= 1
  }

  lemma {:induction false} ShortestIsPositive(k: nat)
    requires k > 0
    ensures Shortest(k) >= INITIAL
  {
    if k > 1 {
      ShortestIsPositive(k - 1);
    }
  }

  lemma BackoffBounds(t: Transfer, m: Report)
    requires Bounded(t)
    ensures var d := Denied(t, m);
            && Shortest(d.denied) <= d.backoff <= Longest(d.denied)
            && (d.backoff < MAX ==> Bounded(d))
  {
    if t.denied > 0 {
      ShortestIsPositive(t.denied);
    }
  }

  lemma {:induction false} MoreDenialsLongerWaits(j: nat, k: nat)
    requires j <= k
    ensures Shortest(j) <= Shortest(k) && Longest(j) <= Longest(k)
    decreases k
  {
    if j < k {
      MoreDenialsLongerWaits(j, k - 1);
    }
  }

  lemma Limits()
    ensures Longest(5) < MAX <= Longest(6)
    ensures Shortest(15) < MAX <= Shortest(16)
  {
    assert Longest(4) == 540_000_000;
    assert Shortest(4) == 33_750_000;
    assert Shortest(8) == 170_859_375;
    LastLimits();
  }

  lemma LastLimits()
    requires Shortest(8) == 170_859_375
    ensures Shortest(15) == 2_919_292_591 && Shortest(16) == 4_378_938_886
  {
    assert Shortest(12) == 864_975_583;
  }

  // Five denials never end the loop and sixteen always do (and by Limits no smaller gap can
  // be stated). What has been waited for stays below nine seconds and a fraction.
  lemma BackoffEnds(t: Transfer)
    requires Shortest(t.denied) <= t.backoff <= Longest(t.denied)
    ensures t.denied <= 5 ==> t.backoff < MAX
    ensures t.denied >= 16 ==> t.backoff >= MAX
    ensures Bounded(t) ==> t.waited < 3 * MAX + 15
  {
    Limits();
    if t.denied <= 5 {
      MoreDenialsLongerWaits(t.denied, 5);
    } else if t.denied >= 16 {
      MoreDenialsLongerWaits(16, t.denied);
    }
  }

  // ----- A round keeps it -----

  lemma PerformKeeps(s: State, r: Round)
    requires Placed(s) && Possible(s, r)
    ensures Placed(Perform(s, r))
  {
    var p := Perform(s, r);
    forall k | 0 <= k < |r.reports| ensures r.reports[k].index in s.running {
      assert r.reports[k].index in Indices(r.reports);
    }
    IndicesJoin(s.queue, r.reports);
    forall i | 0 <= i < |p.info| ensures Places(p, i) == 1 {
      assert Places(s, i) == 1;
    }
    assert Distinct(p.queue) by {
      forall j, k | 0 <= j < k < |p.queue| ensures p.queue[j].index != p.queue[k].index {
        if j < |s.queue| <= k {
          assert s.queue[j].index in Indices(s.queue);
          assert Places(s, s.queue[j].index) == 1;
        }
      }
    }
  }

  lemma IndicesJoin(a: seq<Report>, b: seq<Report>)
    ensures Indices(a + b) == Indices(a) + Indices(b)
  {
    var c := a + b;
    forall i ensures i in Indices(c) <==> i in Indices(a) + Indices(b) {
      if i in Indices(a) {
        var k :| 0 <= k < |a| && a[k].index == i;
        assert c[k].index == i;
      }
      if i in Indices(b) {
        var k :| 0 <= k < |b| && b[k].index == i;
        assert c[|a| + k].index == i;
      }
    }
  }

  lemma IndicesFirst(q: seq<Report>)
    requires q != [] && Distinct(q)
    ensures Indices(q) == Indices(q[1..]) + {q[0].index}
    ensures q[0].index !in Indices(q[1..])
  {
    IndicesJoin([q[0]], q[1..]);
    assert q == [q[0]] + q[1..];
    assert Indices([q[0]]) == {q[0].index};
  }

  lemma ReadKeeps(s: State)
    requires Placed(s) && s.queue != [] && s.status == Going
    ensures CalledOnce(Read(s))
    ensures Read(s).status == Going ==> Placed(Read(s))
  {
    hide Bounded, Base, NextBackoff, Indices;
    var m := s.queue[0];
    IndicesFirst(s.queue);
    assert Places(s, m.index) == 1 && Good(s.info[m.index]);
    ReadOneKeeps(s);
    ReadOthersKeep(s);
  }

  // The transfer of the report read.
  lemma ReadOneKeeps(s: State)
    requires Shape(s) && s.queue != [] && s.status == Going
    requires var i := s.queue[0].index;
      Good(s.info[i]) && Places(s, i) == 1 && i in Indices(s.queue) && i !in Indices(s.queue[1..])
    ensures var i := s.queue[0].index;
      && Read(s).info[i].calls <= 1
      && (Read(s).status == Going ==> Good(Read(s).info[i]) && Places(Read(s), i) == 1)
  {
    hide Base, NextBackoff, Indices, Shortest, Longest;
    BackoffBounds(s.info[s.queue[0].index], s.queue[0]);
  }

  // All others are where they were.
  lemma ReadOthersKeep(s: State)
    requires Shape(s) && s.queue != []
    requires Indices(s.queue) == Indices(s.queue[1..]) + {s.queue[0].index}
    ensures forall i :: 0 <= i < |s.info| && i != s.queue[0].index ==>
      Read(s).info[i] == s.info[i] && Places(Read(s), i) == Places(s, i)
  {
    hide Denied, Indices;
  }

  lemma {:induction false} ReadAllKeeps(s: State)
    requires Placed(s) && s.status == Going
    ensures CalledOnce(ReadAll(s))
    ensures ReadAll(s).running == s.running && |ReadAll(s).info| == |s.info| && ReadAll(s).status != Succeeded
    ensures ReadAll(s).status == Going ==> Placed(ReadAll(s)) && ReadAll(s).queue == []
    decreases |s.queue|
  {
    hide Places, Good;
    if s.queue != [] {
      ReadKeeps(s);
      if Read(s).status == Going {
        ReadAllKeeps(Read(s));
      }
    } else {
      PlacedMeansCalledOnce(s);
    }
  }

  lemma PlacedMeansCalledOnce(s: State)
    requires Placed(s)
    ensures CalledOnce(s)
  {
  }

  lemma AddDueKeeps(s: State, now: nat)
    requires Placed(s)
    ensures Placed(AddDue(s, now))
  {
    var n := AddDue(s, now);
    forall i | 0 <= i < |n.info| ensures Places(n, i) == 1 {
      assert Places(s, i) == 1;
    }
  }

  lemma RoundKeeps(s: State, r: Round)
    requires Inv(s) && s.status == Going && Possible(s, r)
    ensures CalledOnce(Next(s, r)) && |Next(s, r).info| == |s.info|
    ensures Next(s, r).status != Failed ==> Inv(Next(s, r))
  {
    hide Places, Good, Read, ReadAll, AddDue, Distinct, Indices;
    var p := Perform(s, r);
    PerformKeeps(s, r);
    ReadAllKeeps(p);
    PlacedMeansCalledOnce(p);
    var q := if s.prev != |p.running| then ReadAll(p) else p;
    if q.status != Failed {
      AddDueKeeps(q, r.now);
      Relabel(AddDue(q, r.now), Next(s, r));
    }
  }

  lemma Relabel(a: State, b: State)
    requires Placed(a) && b == a.(prev := b.prev, status := b.status)
    ensures Placed(b) && CalledOnce(b)
  {
    forall i | 0 <= i < |b.info| ensures Places(b, i) == 1 {
      assert Places(a, i) == 1;
    }
  }

  // ----- Whole runs -----

  predicate PossibleRun(s: State, rounds: seq<Round>)
    requires Shape(s)
    decreases |rounds|
  {
    rounds == [] ||
    (s.status == Going && Possible(s, rounds[0]) && PossibleRun(Next(s, rounds[0]), rounds[1..]))
  }

  function Run(s: State, rounds: seq<Round>): (n: State)
    requires Shape(s) && PossibleRun(s, rounds)
    ensures Shape(n) && |n.info| == |s.info|
    decreases |rounds|
  {
    if rounds == [] then s else Run(Next(s, rounds[0]), rounds[1..])
  }

  lemma {:induction false} RunKeeps(s: State, rounds: seq<Round>)
    requires Inv(s) && PossibleRun(s, rounds)
    ensures CalledOnce(Run(s, rounds)) && |Run(s, rounds).info| == |s.info|
    ensures Run(s, rounds).status != Failed ==> Inv(Run(s, rounds))
    decreases |rounds|
  {
    hide Places, Good, Next, Possible;
    if rounds == [] {
      PlacedMeansCalledOnce(s);
    } else {
      RoundKeeps(s, rounds[0]);
      if Next(s, rounds[0]).status != Failed {
        RunKeeps(Next(s, rounds[0]), rounds[1..]);
      } 
    }
  }

  lemma StartIsPlaced(count: nat)
    ensures Inv(Start(count))
  {
    var s := Start(count);
    forall i | 0 <= i < count ensures Places(s, i) == 1 && Good(s.info[i]) {
    }
  }

  // In every run, whatever cURL, the clock and the random numbers do: no success callback runs
  // twice; and unless the loop has given up, every transfer is in exactly one place, its
  // callback has run exactly if it is closed, it has been denied at most 15 times and it has
  // been told to wait for less than 9 seconds and 15 nanoseconds in all.
  lemma TransfersAreNeverLostInside(count: nat, rounds: seq<Round>)
    requires PossibleRun(Start(count), rounds)
    ensures var n := Run(Start(count), rounds);
            && |n.info| == |n.retry| == count
            && (forall i :: 0 <= i < count ==> n.info[i].calls <= 1)
            && (n.status != Failed ==> forall i :: 0 <= i < count ==>
                  && Places(n, i) == 1
                  && n.info[i].calls == One(n.info[i].closed)
                  && n.info[i].denied <= 15
                  && n.info[i].waited < 3 * MAX + 15)
  {
    hide Next, Possible;
    StartIsPlaced(count);
    RunKeeps(Start(count), rounds);
    var n := Run(Start(count), rounds);
    if n.status != Failed {
      forall i | 0 <= i < count ensures Places(n, i) == 1 && n.info[i].denied <= 15 && n.info[i].waited < 3 * MAX + 15 {
        assert Good(n.info[i]);
        BackoffEnds(n.info[i]);
      }
    }
  }

  // ----- What success of the loop means -----

  predicate AllClosed(s: State) {
    forall i :: 0 <= i < |s.info| ==> s.info[i].closed
  }

  // Nobody waits for a retry, nobody has been answered 201, and every unread report is a 200.
  predicate Clean(s: State)
    requires Shape(s)
  {
    && (forall i :: 0 <= i < |s.info| ==> !s.retry[i] && !s.info[i].other)
    && (forall k :: 0 <= k < |s.queue| ==> s.queue[k].code == 200)
  }

  lemma ReadClean(s: State)
    requires Placed(s) && s.queue != [] && s.status == Going && Read(s).status == Going
    ensures Clean(Read(s)) <==> Clean(s)
  {
    var m, n := s.queue[0], Read(s);
    IndicesFirst(s.queue);
    assert Places(s, m.index) == 1;
    if Clean(n) {
      assert !n.retry[m.index] && !n.info[m.index].other;
      forall i | 0 <= i < |s.info| ensures !s.retry[i] && !s.info[i].other {
        assert !n.retry[i] && !n.info[i].other;
      }
      forall k | 0 <= k < |s.queue| ensures s.queue[k].code == 200 {
        if k > 0 {
          assert n.queue[k - 1] == s.queue[k];
        }
      }
    }
  }

  lemma {:induction false} ReadAllClean(s: State)
    requires Placed(s) && s.status == Going && ReadAll(s).status == Going
    ensures Clean(ReadAll(s)) <==> Clean(s)
    decreases |s.queue|
  {
    hide Places, Good, Clean;
    if s.queue != [] {
      ReadKeeps(s);
      ReadClean(s);
      ReadAllClean(Read(s));
    }
  }

  // The loop reports success as soon as nothing is under way. That means success of every
  // transfer exactly when it is not the first round (whose reports are not read when all
  // transfers finish in it), nobody had been waiting for a retry or answered 201 before, and
  // every report of this round is a 200. In particular, a 503 that comes when nothing else is
  // under way, or a transfer still waiting then, ends the loop with success unretried.
  lemma SuccessMeans(s: State, r: Round)
    requires Inv(s) && s.status == Going && Possible(s, r) && |s.info| > 0
    requires Next(s, r).status == Succeeded
    ensures AllClosed(Next(s, r)) <==> s.prev != 0 && Clean(Perform(s, r))
  {
    hide ReadAll, Good;
    var p := Perform(s, r);
    PerformKeeps(s, r);
    ReadAllKeeps(p);
    if s.prev != 0 {
      var q := ReadAll(p);
      ReadAllClean(p);
      CleanIsClosed(q);
      assert Next(s, r).info == q.info;
    } else {
      assert Places(s, 0) == 1;
      assert 0 in s.running;
    }
  }

  lemma CleanIsClosed(q: State)
    requires Placed(q) && q.running == {} && q.queue == []
    ensures Clean(q) <==> AllClosed(q)
  {
    forall i | 0 <= i < |q.info| ensures q.info[i].closed <==> !q.retry[i] && !q.info[i].other {
      assert Places(q, i) == 1;
    }
  }

  lemma OneReport(p: State)
    requires Shape(p) && p.status == Going && |p.queue| == 1 && |p.info| == 1 && p.info[0] == FRESH
    ensures var n := ReadAll(p);
            n.info[0].denied <= 1 && (n.info[0].denied == 1 ==> n.info[0].calls == 0)
  {
    assert ReadAll(p) == ReadAll(Read(p)) == Read(p);
  }

  lemma OneIndexOneReport(q: seq<Report>)
    requires |q| >= 2 && forall k :: 0 <= k < |q| ==> q[k].index == 0
    ensures !Distinct(q)
  {
    assert q[0].index == q[1].index;
  }

  lemma SinglePlace(p: State)
    requires Placed(p) && |p.info| == 1 && p.info[0] == FRESH && !p.retry[0]
    ensures (p.running == {0} && p.queue == []) || (p.running == {} && |p.queue| == 1)
  {
    assert Places(p, 0) == 1;
    if |p.queue| >= 2 {
      OneIndexOneReport(p.queue);
    }
    if p.queue != [] {
      assert p.queue[0].index in Indices(p.queue);
    }
  }

  // A single transfer whose report is still to come has never been denied.
  lemma SingleRound(s: State, r: Round)
    requires Inv(s) && s.status == Going && Possible(s, r) && |s.info| == 1 && s.info[0] == FRESH && !s.retry[0]
    ensures var n := Next(s, r);
            && (n.status == Going ==> n.info == s.info && n.retry == s.retry)
            && n.info[0].denied <= 1 && (n.info[0].denied == 1 ==> n.info[0].calls == 0)
  {
    hide Places, Good, Read, AddDue, Indices;
    var p := Perform(s, r);
    PerformKeeps(s, r);
    SinglePlace(p);
    if |p.queue| == 1 {
      OneReport(p);
    } else {
      NothingDue(p, r.now);
    }
  }

  lemma NothingDue(p: State, now: nat)
    requires Shape(p) && forall i :: 0 <= i < |p.info| ==> !p.retry[i]
    ensures AddDue(p, now) == p
  {
  }

  // With a single transfer the back-off is never used: a 503 ends the loop at once, with
  // success unless something else is wrong, and the callback does not run.
  lemma {:induction false} SingleTransferIsNeverRetried(s: State, rounds: seq<Round>)
    requires Inv(s) && |s.info| == 1 && s.info[0] == FRESH && !s.retry[0] && PossibleRun(s, rounds)
    ensures var n := Run(s, rounds);
            n.info[0].denied <= 1 && (n.info[0].denied == 1 ==> n.status != Going && n.info[0].calls == 0)
    decreases |rounds|
  {
    hide Places, Good, Next, Possible;
    if rounds != [] {
      SingleRound(s, rounds[0]);
      RoundKeeps(s, rounds[0]);
      if Next(s, rounds[0]).status == Going {
        SingleTransferIsNeverRetried(Next(s, rounds[0]), rounds[1..]);
      }
    }
  }

  // One transfer, answered 503 in the second round: the loop reports success.
  lemma DeniedTransferReportsSuccess()
    ensures var rounds := [Round([], 0), Round([Report(0, 503, 0, 0, true)], 0)];
            && PossibleRun(Start(1), rounds)
            && Run(Start(1), rounds).status == Succeeded && Run(Start(1), rounds).info[0].calls == 0
  {
    var s, r := Start(1), Round([Report(0, 503, 0, 0, true)], 0);
    var first := State({0}, [], [false], [FRESH], 1, Going);
    QuietRound();
    DeniedRound();
    assert Run(s, [Round([], 0), r]) == Run(first, [r]) == Next(first, r);
  }

  lemma QuietRound()
    ensures Start(1).running == {0}
    ensures Possible(Start(1), Round([], 0))
    ensures Next(Start(1), Round([], 0)) == State({0}, [], [false], [FRESH], 1, Going)
  {
    var s := Start(1);
    assert s.running == {0};
    assert Perform(s, Round([], 0)) == s && ReadAll(s) == s;
    NothingDue(s, 0);
  }

  lemma DeniedRound()
    ensures var s, r := State({0}, [], [false], [FRESH], 1, Going), Round([Report(0, 503, 0, 0, true)], 0);
      && Possible(s, r) && Next(s, r).status == Succeeded && Next(s, r).info[0].calls == 0
  {
    var s, r := State({0}, [], [false], [FRESH], 1, Going), Round([Report(0, 503, 0, 0, true)], 0);
    assert Indices(r.reports) == {r.reports[0].index};
    var p := Perform(s, r);
    assert p.running == {} && p.queue == r.reports;
    var q := Read(p);
    assert q.queue == [] && q.status == Going && ReadAll(p) == ReadAll(q) == q;
  }
}
