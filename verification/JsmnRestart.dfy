/**
 Running out of tokens and counting without tokens, related to one call with enough tokens.
 */
module JsmnRestart {
  import opened JsmnSpec
  import opened Texts

  // A step that has room does not depend on how much more room there is.
  lemma StepMoreRoom(js: string, cap: nat, cap': nat, s: State)
    requires InRange(s) && !AtEnd(js, s.pos) && cap <= cap'
    requires Step(js, cap, s) != Stop(ERROR_NOMEM)
    ensures Step(js, cap', s) == Step(js, cap, s)
  {
  }

  /** A call that ran out of tokens stopped at a state from which any larger array continues as
      if the larger array had been there from the start. */
  lemma {:induction false} ResumeAfterNoMem(js: string, cap: nat, cap': nat, s: State)
    requires InRange(s) && cap <= cap'
    requires Run(js, cap, s).code == ERROR_NOMEM
    ensures Run(js, cap', Run(js, cap, s).st) == Run(js, cap', s)
    decreases |js| - s.pos
  {
    var r := Step(js, cap, s);
    if r.Next? {
      StepMoreRoom(js, cap, cap', s);
      ResumeAfterNoMem(js, cap, cap', r.st);
    }
  }

  // A caller that answers each NOMEM with the next array size, and stops at any other result.
  function Retry(js: string, caps: seq<nat>, s: State): Outcome
    requires InRange(s) && caps != []
    decreases |caps|
  {
    var r := Run(js, caps[0], s);
    if r.code != ERROR_NOMEM || |caps| == 1 then r else Retry(js, caps[1..], r.st)
  }

  predicate Growing(caps: seq<nat>) {
    forall i, j :: 0 <= i < j < |caps| ==> caps[i] <= caps[j]
  }

  // With at least as much room, a call that did not run out gives the same outcome.
  lemma {:induction false} MoreRoomSameOutcome(js: string, cap: nat, cap': nat, s: State)
    requires InRange(s) && cap <= cap'
    requires Run(js, cap, s).code != ERROR_NOMEM
    ensures Run(js, cap', s) == Run(js, cap, s)
    decreases |js| - s.pos
  {
    if !AtEnd(js, s.pos) {
      StepMoreRoom(js, cap, cap', s);
      var r := Step(js, cap, s);
      if r.Next? { MoreRoomSameOutcome(js, cap, cap', r.st); }
    }
  }

  /** Any sequence of restarts with growing arrays ends exactly where one call with the last
      array ends: same result, same position, same tokens. */
  lemma {:induction false} RetryIsOneShot(js: string, caps: seq<nat>, s: State)
    requires InRange(s) && caps != [] && Growing(caps)
    ensures Retry(js, caps, s) == Run(js, caps[|caps| - 1], s)
    decreases |caps|
  {
    var last := caps[|caps| - 1];
    var r := Run(js, caps[0], s);
    if r.code != ERROR_NOMEM {
      MoreRoomSameOutcome(js, caps[0], last, s);
    } else if |caps| > 1 {
      RetryIsOneShot(js, caps[1..], r.st);
      ResumeAfterNoMem(js, caps[0], last, s);
    }
  }

  // A counting call that stands where the state `s` stands and has counted its tokens.
  function Counting(js: string, next: nat, super: int, s: State): CountOutcome {
    CountRun(js, next, CountState(s.pos, super, |s.toks|))
  }

  /** Counting agrees with tokenising: an accepted text has the same count, and a text whose
      count is `n` never exhausts an array of `n` tokens. */
  lemma {:induction false} CountingAgrees(js: string, cap: nat, s: State, next: nat, super: int)
    requires InRange(s)
    ensures Run(js, cap, s).code >= 0 ==> Counting(js, next, super, s).code == Run(js, cap, s).code
    ensures Counting(js, next, super, s).code >= 0 ==>
      && |Run(js, cap, s).st.toks| <= Counting(js, next, super, s).code
      && (Counting(js, next, super, s).code <= cap ==> Run(js, cap, s).code != ERROR_NOMEM)
    decreases |js| - s.pos
  {
    hide Step, CountRun, Bump, LastOpen;
    if AtEnd(js, s.pos) {
      CountEnds(js, next, super, s);
    } else {
      var r := Step(js, cap, s);
      if r.Next? {
        StepCounts(js, cap, s, next, super);
        CountingAgrees(js, cap, r.st, next, if js[s.pos] == ':' then next - 1 else super);
      } else {
        StopCounts(js, cap, s, next, super);
      }
    }
  }

  lemma CountEnds(js: string, next: nat, super: int, s: State)
    requires AtEnd(js, s.pos)
    ensures Counting(js, next, super, s).code == |s.toks|
  {
  }

  // An iteration that goes on makes the same progress in both modes.
  lemma StepCounts(js: string, cap: nat, s: State, next: nat, super: int)
    requires InRange(s) && !AtEnd(js, s.pos) && Step(js, cap, s).Next?
    ensures Counting(js, next, super, s)
         == Counting(js, next, if js[s.pos] == ':' then next - 1 else super, Step(js, cap, s).st)
  {
    hide ScanString, ScanPrimitive, LastOpen, LastOpenContainer, Bump, AfterComma, IsBlank;
  }

  // One that stops for lack of a token would have counted one more.
  lemma StopCounts(js: string, cap: nat, s: State, next: nat, super: int)
    requires InRange(s) && !AtEnd(js, s.pos) && Step(js, cap, s).Stop?
    ensures Counting(js, next, super, s).code >= 0 ==>
      && |s.toks| <= Counting(js, next, super, s).code
      && (Step(js, cap, s).code == ERROR_NOMEM ==> cap < Counting(js, next, super, s).code)
  {
    hide ScanString, ScanPrimitive, LastOpen, LastOpenContainer, Bump, AfterComma, IsBlank;
  }

  /** The two-pass use of the parser: count first, allocate that many tokens, then tokenise. */
  lemma CountThenParse(js: string)
    ensures var c := CountRun(js, 0, CountState(0, -1, 0));
      c.code >= 0 ==>
        var r := Run(js, c.code, INITIAL);
        r.code == c.code || r.code == ERROR_INVAL || r.code == ERROR_PART
  {
    var c := CountRun(js, 0, CountState(0, -1, 0));
    if c.code >= 0 {
      CountingAgrees(js, c.code, INITIAL, 0, -1);
      RunCodes(js, c.code, INITIAL);
    }
  }

  lemma {:induction false} RunCodes(js: string, cap: nat, s: State)
    requires InRange(s)
    ensures var code := Run(js, cap, s).code;
      code >= 0 || code == ERROR_NOMEM || code == ERROR_INVAL || code == ERROR_PART
    decreases |js| - s.pos
  {
    if !AtEnd(js, s.pos) {
      var r := Step(js, cap, s);
      if r.Next? { RunCodes(js, cap, r.st); }
    }
  }
}
