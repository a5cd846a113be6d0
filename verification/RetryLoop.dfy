// One turn of the do-while loop of RV_curl_multi_perform on its arrays: the handles to retry
// and the transfers are updated in place.
// Source: rest_vol.c.

module RetryLoop {
  import opened Retry

  class Loop {
    const info: array<Transfer>
    const retry: array<bool>
    var running: set<nat>
    var queue: seq<Report>
    var prev: nat
    var status: Status

    constructor (count: nat)
      ensures State() == Start(count) && fresh(info) && fresh(retry)
    {
      info := new Transfer[count](_ => FRESH);
      retry := new bool[count](_ => false);
      running, queue, prev, status := Below(count), [], 0, Going;
    }

    ghost function State(): State
      reads this, info, retry
    {
      Retry.State(running, queue, retry[..], info[..], prev, status)
    }

    method ReadOne()
      requires Shape(State()) && queue != [] && status == Going
      modifies this`queue, this`status, info, retry
      ensures State() == Read(old(State()))
    {
      var m := queue[0];
      queue := queue[1..];
      var i := m.index;
      var t := info[i];
      if m.code == 503 {
        retry[i] := true;
        var backoff := if t.backoff == 0 then INITIAL else t.backoff * 3 / 2;
        backoff := backoff + m.random % (backoff + 1);
        info[i] := t.(backoff := backoff, failedAt := m.clock, denied := t.denied + 1,
                      waited := if backoff >= MAX then t.waited else t.waited + backoff);
        if backoff >= MAX {
          status := Failed;
        }
      } else if m.code == 200 {
        if m.callbackOk {
          info[i] := t.(calls := t.calls + 1, closed := true);
        } else {
          info[i] := t.(calls := t.calls + 1);
          status := Failed;
        }
      } else if m.code == 201 {
        info[i] := t.(other := true);
      } else {
        status := Failed;
      }
    }

    method AddDueHandles(now: nat)
      requires Shape(State())
      modifies this`running, retry
      ensures State() == AddDue(old(State()), now)
      ensures forall i: nat :: i in running <==>
        i in old(running) || (i < info.Length && old(retry[i]) && now - info[i].failedAt >= info[i].backoff)
      ensures forall i :: 0 <= i < info.Length ==>
        (retry[i] <==> old(retry[i]) && now - info[i].failedAt < info[i].backoff)
    {
      ghost var s := State();
      var i := 0;
      while i < info.Length
        modifies this`running, retry
        invariant i <= info.Length
        invariant running == s.running + (set k | 0 <= k < i && Due(s, k, now))
        invariant forall k :: 0 <= k < info.Length ==> retry[k] == (s.retry[k] && !(k < i && Due(s, k, now)))
      {
        if retry[i] && now - info[i].failedAt >= info[i].backoff {
          running := running + {i};
          retry[i] := false;
        }
        i := i + 1;
      }
      assert retry[..] == AddDue(s, now).retry;
    }

    method OneRound(r: Round)
      requires Shape(State()) && Possible(State(), r) && status == Going
      modifies this`running, this`queue, this`prev, this`status, info, retry
      ensures State() == Next(old(State()), r)
    {
      ghost var s := State();
      assert State() == s;
      running := running - Indices(r.reports);
      queue := queue + r.reports;
      var stillRunning := |running|;
      assert State() == Perform(s, r);
      while prev != stillRunning && queue != [] && status == Going
        modifies this`queue, this`status, info, retry
        invariant Shape(State()) && running == s.running - Indices(r.reports) && prev == s.prev
        invariant prev != stillRunning ==> ReadAll(State()) == ReadAll(Perform(s, r))
        invariant prev == stillRunning ==> State() == Perform(s, r)
        decreases |queue|
      {
        ReadOne();
      }
      if status == Failed {
        return;
      }
      AddDueHandles(r.now);
      prev := stillRunning;
      status := if stillRunning == 0 then Succeeded else Going;
    }
  }
}
