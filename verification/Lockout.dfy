/** Password verification with a failed-attempt counter and a lockout clock. Times are microseconds. */
module Lockout {
  import opened Collections
  import opened Wrappers

  const MAX_FAILED := 5
  const LOCKOUT := 900_000_000

  datatype Account = Account(password: string, failed: nat, lockedUntil: Option<int>)

  /** Whose hash an attempt was compared with. */
  datatype Hash = Own | Dummy

  predicate Locked(a: Account, now: int) { a.lockedUntil.Some? && now < a.lockedUntil.value }

  function Compared(a: Account, now: int): Hash { if Locked(a, now) then Dummy else Own }

  predicate Succeeds(a: Account, password: string, now: int) { !Locked(a, now) && password == a.password }

  function AfterTry(a: Account, password: string, now: int): Account {
    if Locked(a, now) then a
    else if password == a.password then a.(failed := 0, lockedUntil := None)
    else
      a.(failed := a.failed + 1,
         lockedUntil := if a.failed + 1 >= MAX_FAILED then Some(now + LOCKOUT) else a.lockedUntil)
  }

  class User {
    const password: string
    var failed: nat
    var lockedUntil: Option<int>

    constructor (password: string)
      ensures Row() == Account(password, 0, None)
    {
      this.password, failed, lockedUntil := password, 0, None;
    }

    function Row(): Account reads this { Account(password, failed, lockedUntil) }
  }

  /** Exactly one hash comparison whatever the user's state; an unknown user pays it too. */
  method VerifyUser(user: User?, password: string, now: int) returns (ok: bool, compared: seq<Hash>)
    modifies user
    ensures user == null ==> !ok && compared == [Dummy]
    ensures user != null ==>
      && ok == Succeeds(old(user.Row()), password, now)
      && compared == [Compared(old(user.Row()), now)]
      && user.Row() == AfterTry(old(user.Row()), password, now)
    ensures user != null && old(user.lockedUntil.Some? && now < user.lockedUntil.value) ==>
      !ok && compared == [Dummy] && user.failed == old(user.failed) && user.lockedUntil == old(user.lockedUntil)
    ensures user != null && !old(user.lockedUntil.Some? && now < user.lockedUntil.value) ==>
      && ok == (password == user.password) && compared == [Own]
      && user.failed == (if ok then 0 else old(user.failed) + 1)
      && user.lockedUntil == (if ok then None else if old(user.failed) + 1 >= 5 then Some(now + 900_000_000)
                              else old(user.lockedUntil))
  {
    if user != null && user.lockedUntil.Some? && now < user.lockedUntil.value {
      return false, [Dummy];
    }
    compared := [if user != null then Own else Dummy];
    if user == null {
      return false, compared;
    }
    if password == user.password {
      if user.failed != 0 || user.lockedUntil.Some? {
        user.failed, user.lockedUntil := 0, None;
      }
      return true, compared;
    }
    user.failed := user.failed + 1;
    if user.failed >= MAX_FAILED {
      user.lockedUntil := Some(now + LOCKOUT);
    }
    ok := false;
  }

  // ----- runs

  datatype Try = Try(now: int, password: string)

  function After(a: Account, tries: seq<Try>): Account {
    if tries == [] then a
    else
      var t := tries[|tries| - 1];
      AfterTry(After(a, tries[..|tries| - 1]), t.password, t.now)
  }

  /** The times of the attempts that were compared with the user's own hash. */
  function OwnTimes(a: Account, tries: seq<Try>): seq<int> {
    if tries == [] then []
    else
      var init, t := tries[..|tries| - 1], tries[|tries| - 1];
      OwnTimes(a, init) + if Compared(After(a, init), t.now) == Own then [t.now] else []
  }

  ghost predicate InOrder(tries: seq<Try>) { forall i, j | 0 <= i <= j < |tries| :: tries[i].now <= tries[j].now }

  ghost predicate SucceedsAt(a: Account, tries: seq<Try>, i: int) {
    0 <= i < |tries| && Succeeds(After(a, tries[..i]), tries[i].password, tries[i].now)
  }

  ghost predicate NoneSucceeds(a: Account, tries: seq<Try>) { forall i :: !SucceedsAt(a, tries, i) }

  /** The gaps: from the fifth comparison on, each next one is at least a lockout later. */
  ghost predicate Spaced(ts: seq<int>) {
    && (forall k | 0 < k < |ts| :: ts[k - 1] <= ts[k])
    && (forall k | MAX_FAILED <= k < |ts| :: ts[k - 1] + LOCKOUT <= ts[k])
  }

  ghost predicate Tracks(a: Account, ts: seq<int>, now: int) {
    && Spaced(ts) && a.failed == |ts|
    && (ts != [] ==> ts[|ts| - 1] <= now)
    && a.lockedUntil == if |ts| >= MAX_FAILED then Some(ts[|ts| - 1] + LOCKOUT) else None
  }

  lemma TracksOn(a: Account, ts: seq<int>, before: int, t: Try)
    requires Tracks(a, ts, before) && before <= t.now && !Succeeds(a, t.password, t.now)
    ensures Tracks(AfterTry(a, t.password, t.now), ts + if Compared(a, t.now) == Own then [t.now] else [], t.now)
  {
    if Compared(a, t.now) == Own {
      var ts' := ts + [t.now];
      assert forall k | 0 <= k < |ts| :: ts'[k] == ts[k];
    } else {
      assert ts + [] == ts;
    }
  }

  lemma NoneSnoc(a: Account, tries: seq<Try>)
    requires tries != []
    ensures var n := |tries| - 1;
      NoneSucceeds(a, tries)
      <==> NoneSucceeds(a, tries[..n]) && !Succeeds(After(a, tries[..n]), tries[n].password, tries[n].now)
  {
    hide After, Succeeds;
    var n := |tries| - 1;
    var init := tries[..n];
    forall i | 0 <= i < n ensures SucceedsAt(a, tries, i) <==> SucceedsAt(a, init, i) {
      assert init[..i] == tries[..i];
    }
    assert SucceedsAt(a, tries, n) <==> Succeeds(After(a, init), tries[n].password, tries[n].now);
  }

  lemma {:induction false} RunTracks(a: Account, tries: seq<Try>, now: int)
    requires a.failed == 0 && a.lockedUntil == None && InOrder(tries) && NoneSucceeds(a, tries)
    requires forall t | t in tries :: t.now <= now
    ensures Tracks(After(a, tries), OwnTimes(a, tries), now)
  {
    hide AfterTry, Succeeds, Compared;
    if tries != [] {
      hide Tracks;
      var n := |tries| - 1;
      var init, t := tries[..n], tries[n];
      NoneSnoc(a, tries);
      RunTracks(a, init, t.now);
      TracksOn(After(a, init), OwnTimes(a, init), t.now, t);
      Later(After(a, tries), OwnTimes(a, tries), t.now, now);
    }
  }

  lemma Later(a: Account, ts: seq<int>, now: int, later: int)
    requires Tracks(a, ts, now) && now <= later
    ensures Tracks(a, ts, later)
  {
  }

  lemma {:induction false} GapsAdd(ts: seq<int>, i: nat, j: nat)
    requires Spaced(ts) && i <= j < |ts|
    ensures ts[j] - ts[i] >= 0
    ensures j + 1 >= MAX_FAILED && i + 1 <= MAX_FAILED ==> ts[j] - ts[i] >= (j + 1 - MAX_FAILED) * LOCKOUT
    ensures i + 1 >= MAX_FAILED ==> ts[j] - ts[i] >= (j - i) * LOCKOUT
    decreases j
  {
    if i < j {
      GapsAdd(ts, i, j - 1);
    }
  }

  lemma PairBound(ts: seq<int>, i: nat, j: nat, span: nat)
    requires Spaced(ts) && i <= j < |ts| && ts[j] - ts[i] <= span
    ensures j - i + 1 <= MAX_FAILED + span / LOCKOUT
  {
    GapsAdd(ts, i, j);
  }

  ghost function InWindow(ts: seq<int>, start: int, span: nat): set<int> {
    set k | 0 <= k < |ts| && start <= ts[k] <= start + span
  }

  lemma {:induction false} Interval(i: int, j: int) returns (s: set<int>)
    requires i <= j
    ensures |s| == j - i && forall k :: k in s <==> i <= k < j
    decreases j - i
  {
    if i == j {
      s := {};
    } else {
      var rest := Interval(i, j - 1);
      s := rest + {j - 1};
    }
  }

  lemma Bounds(ts: seq<int>, start: int, end: int) returns (lo: nat, hi: nat)
    ensures lo <= |ts| && hi <= |ts|
    ensures forall k | 0 <= k < |ts| && start <= ts[k] <= end :: lo <= k < hi
    ensures lo < hi ==> start <= ts[lo] && ts[hi - 1] <= end
  {
    lo := 0;
    while lo < |ts| && ts[lo] < start
      invariant lo <= |ts| && forall k | 0 <= k < lo :: ts[k] < start
    {
      lo := lo + 1;
    }
    hi := |ts|;
    while hi > 0 && ts[hi - 1] > end
      invariant hi <= |ts| && forall k | hi <= k < |ts| :: ts[k] > end
    {
      hi := hi - 1;
    }
  }

  /** In every run of attempts none of which succeeds, on a nondecreasing clock, from a clear counter, the
      attempts compared with the user's own hash in any window number at most 5 + floor(span / 15 min). */
  lemma GuessesPerWindow(a: Account, tries: seq<Try>, start: int, span: nat)
    requires a.failed == 0 && a.lockedUntil == None && InOrder(tries) && NoneSucceeds(a, tries)
    ensures |InWindow(OwnTimes(a, tries), start, span)| <= 5 + span / 900_000_000
  {
    hide OwnTimes, After, Spaced;
    var ts := OwnTimes(a, tries);
    RunTracks(a, tries, if tries == [] then 0 else tries[|tries| - 1].now);
    var lo, hi := Bounds(ts, start, start + span);
    if lo < hi {
      PairBound(ts, lo, hi - 1, span);
    }
    var all := Interval(lo, if lo < hi then hi else lo);
    SubsetSize(InWindow(ts, start, span), all);
  }

  // ----- runs with successes

  function Successes(a: Account, tries: seq<Try>): nat {
    if tries == [] then 0
    else
      var init, t := tries[..|tries| - 1], tries[|tries| - 1];
      Successes(a, init) + if Succeeds(After(a, init), t.password, t.now) then 1 else 0
  }

  lemma {:induction false} AfterSplits(a: Account, before: seq<Try>, tries: seq<Try>)
    ensures After(a, before + tries) == After(After(a, before), tries)
    ensures OwnTimes(a, before + tries) == OwnTimes(a, before) + OwnTimes(After(a, before), tries)
    ensures Successes(a, before + tries) == Successes(a, before) + Successes(After(a, before), tries)
  {
    if tries == [] {
      assert before + tries == before;
    } else {
      hide AfterTry, Compared, Succeeds;
      var init := tries[..|tries| - 1];
      AfterSplits(a, before, init);
      assert (before + tries)[..|before + tries| - 1] == before + init;
    }
  }

  lemma WindowJoins(ts: seq<int>, more: seq<int>, start: int, span: nat)
    ensures |InWindow(ts + more, start, span)| == |InWindow(ts, start, span)| + |InWindow(more, start, span)|
    decreases |more|
  {
    if more == [] {
      assert ts + more == ts && InWindow(more, start, span) == {};
    } else {
      var init, t := more[..|more| - 1], more[|more| - 1];
      WindowJoins(ts, init, start, span);
      WindowSnoc(init, t, start, span);
      WindowSnoc(ts + init, t, start, span);
      assert init + [t] == more && ts + init + [t] == ts + more;
    }
  }

  lemma WindowSnoc(ts: seq<int>, t: int, start: int, span: nat)
    ensures |InWindow(ts + [t], start, span)|
      == |InWindow(ts, start, span)| + if start <= t <= start + span then 1 else 0
  {
    var before, after := InWindow(ts, start, span), InWindow(ts + [t], start, span);
    assert forall k | 0 <= k < |ts| :: (ts + [t])[k] == ts[k];
    assert forall k | k != |ts| :: k in after <==> k in before;
    if |ts| in after {
      assert after == before + {|ts|};
    } else {
      assert after == before;
    }
  }

  lemma {:induction false} SuccessesCounted(a: Account, tries: seq<Try>)
    ensures Successes(a, tries) == 0 <==> NoneSucceeds(a, tries)
  {
    if tries != [] {
      hide NoneSucceeds, Succeeds, After;
      SuccessesCounted(a, tries[..|tries| - 1]);
      NoneSnoc(a, tries);
    }
  }

  lemma LastSuccess(a: Account, tries: seq<Try>) returns (i: nat)
    requires Successes(a, tries) > 0
    ensures i < |tries| && Succeeds(After(a, tries[..i]), tries[i].password, tries[i].now)
    ensures Successes(After(a, tries[..i + 1]), tries[i + 1..]) == 0
  {
    hide Succeeds, After, OwnTimes;
    var n := |tries| - 1;
    if Succeeds(After(a, tries[..n]), tries[n].password, tries[n].now) {
      i := n;
      assert tries[n + 1..] == [];
    } else {
      i := LastSuccess(a, tries[..n]);
      Prefixes(tries, i);
      var head, rest := tries[..i + 1], tries[..n][i + 1..];
      AfterSplits(a, head, rest);
      StillNone(After(a, head), rest, tries[n]);
    }
  }

  lemma Prefixes(tries: seq<Try>, i: nat)
    requires i < |tries| - 1
    ensures var n := |tries| - 1;
      && tries[..n][..i] == tries[..i] && tries[..n][..i + 1] == tries[..i + 1]
      && tries[..i + 1] + tries[..n][i + 1..] == tries[..n]
      && tries[..n][i + 1..] + [tries[n]] == tries[i + 1..]
  {
  }

  lemma StillNone(a: Account, tries: seq<Try>, t: Try)
    requires Successes(a, tries) == 0 && !Succeeds(After(a, tries), t.password, t.now)
    ensures Successes(a, tries + [t]) == 0
  {
    hide Succeeds, After;
    assert (tries + [t])[..|tries|] == tries;
  }

  /** What a run of stretch, success and stretch adds up to. */
  lemma SplitAtSuccess(a: Account, before: seq<Try>, t: Try, rest: seq<Try>, start: int, span: nat)
    requires Succeeds(After(a, before), t.password, t.now)
    ensures var clear := Account(After(a, before).password, 0, None);
      && After(a, before + [t]) == clear
      && Successes(a, before + [t] + rest) == Successes(a, before) + 1 + Successes(clear, rest)
      && |InWindow(OwnTimes(a, before + [t] + rest), start, span)|
         <= |InWindow(OwnTimes(a, before), start, span)| + 1 + |InWindow(OwnTimes(clear, rest), start, span)|
  {
    hide OwnTimes, InWindow, Successes, After, Succeeds;
    OneSuccess(After(a, before), t, start, span);
    AfterSplits(a, before, [t]);
    AfterSplits(a, before + [t], rest);
    WindowJoins(OwnTimes(a, before), OwnTimes(After(a, before), [t]), start, span);
    WindowJoins(OwnTimes(a, before + [t]), OwnTimes(After(a, before + [t]), rest), start, span);
  }

  /** Over every run from a clear counter on a nondecreasing clock, successes included: the attempts compared with
      the user's own hash in any window number at most 5 + floor(span / 15 min) for each stretch between
      successes, and the successes themselves; a success clears the counter and the lock. */
  lemma {:induction false} GuessesBetweenSuccesses(a: Account, tries: seq<Try>, start: int, span: nat)
    requires a.failed == 0 && a.lockedUntil == None && InOrder(tries)
    ensures var n := Successes(a, tries);
      |InWindow(OwnTimes(a, tries), start, span)| <= (n + 1) * (5 + span / 900_000_000) + n
    decreases |tries|
  {
    hide OwnTimes, InWindow, NoneSucceeds, Successes, After, Succeeds;
    SuccessesCounted(a, tries);
    if NoneSucceeds(a, tries) {
      GuessesPerWindow(a, tries, start, span);
    } else {
      var i := LastSuccess(a, tries);
      var before, t, rest := tries[..i], tries[i], tries[i + 1..];
      assert tries == before + [t] + rest && before + [t] == tries[..i + 1];
      SplitAtSuccess(a, before, t, rest, start, span);
      GuessesBetweenSuccesses(a, before, start, span);
      var clear := Account(After(a, before).password, 0, None);
      SuccessesCounted(clear, rest);
      GuessesPerWindow(clear, rest, start, span);
      OneMore(Successes(a, before), 5 + span / 900_000_000);
    }
  }

  lemma OneMore(n: nat, bound: nat)
    ensures (n + 1) * bound + bound == (n + 2) * bound
  {
  }

  lemma OneSuccess(a: Account, t: Try, start: int, span: nat)
    requires Succeeds(a, t.password, t.now)
    ensures After(a, [t]) == Account(a.password, 0, None) && Successes(a, [t]) == 1
    ensures |InWindow(OwnTimes(a, [t]), start, span)| <= 1
  {
    assert [t][..0] == [] && After(a, []) == a;
    assert OwnTimes(a, [t]) == [] + [t.now];
    WindowSnoc([], t.now, start, span);
    assert InWindow([], start, span) == {};
  }

  // ----- the bound is reached

  function GuessTime(k: nat): int { if k < MAX_FAILED then 0 else (k + 1 - MAX_FAILED) * LOCKOUT }

  function Schedule(n: nat): seq<Try> { seq(n, k requires 0 <= k < n => Try(GuessTime(k), "wrong")) }

  /** The row after `n` scheduled guesses. */
  function Guessed(a: Account, n: nat): Account {
    Account(a.password, n, if n < MAX_FAILED then None else Some(GuessTime(n - 1) + LOCKOUT))
  }

  lemma GuessOnce(a: Account, n: nat)
    requires a.password != "wrong"
    ensures !Locked(Guessed(a, n), GuessTime(n))
    ensures AfterTry(Guessed(a, n), "wrong", GuessTime(n)) == Guessed(a, n + 1)
  {
  }

  function GuessTimes(n: nat): seq<int> { seq(n, k requires 0 <= k < n => GuessTime(k)) }

  lemma ScheduleSnoc(n: nat)
    ensures Schedule(n + 1) == Schedule(n) + [Try(GuessTime(n), "wrong")] && Schedule(n + 1)[..n] == Schedule(n)
    ensures GuessTimes(n + 1) == GuessTimes(n) + [GuessTime(n)]
  {
    hide GuessTime;
  }

  lemma {:induction false} ScheduleRuns(a: Account, n: nat)
    requires a.failed == 0 && a.lockedUntil == None && a.password != "wrong"
    ensures OwnTimes(a, Schedule(n)) == GuessTimes(n)
    ensures After(a, Schedule(n)) == Guessed(a, n) && NoneSucceeds(a, Schedule(n))
  {
    if n > 0 {
      hide NoneSucceeds, AfterTry, Guessed, GuessTime, GuessTimes, Locked, Schedule;
      ScheduleRuns(a, n - 1);
      ScheduleSnoc(n - 1);
      NoneSnoc(a, Schedule(n));
      GuessOnce(a, n - 1);
    }
  }

  /** The bound is tight: for every span some run of wrong guesses reaches it. */
  lemma BoundIsReached(a: Account, span: nat) returns (tries: seq<Try>)
    requires a.failed == 0 && a.lockedUntil == None && a.password != "wrong"
    ensures InOrder(tries) && NoneSucceeds(a, tries)
    ensures |InWindow(OwnTimes(a, tries), 0, span)| == 5 + span / 900_000_000
  {
    var n := MAX_FAILED + span / LOCKOUT;
    tries := Schedule(n);
    ScheduleRuns(a, n);
    hide OwnTimes, After;
    var all := Interval(0, n);
    assert InWindow(OwnTimes(a, tries), 0, span) == all;
  }

  // ----- while locked

  /** No attempt before `locked_until` succeeds, is compared with the user's own hash or changes the row,
      the right password included. */
  lemma {:induction false} LockedIsFrozen(a: Account, tries: seq<Try>)
    requires a.lockedUntil.Some? && forall t | t in tries :: t.now < a.lockedUntil.value
    ensures After(a, tries) == a && OwnTimes(a, tries) == [] && NoneSucceeds(a, tries)
  {
    if tries != [] {
      var n := |tries| - 1;
      var init, t := tries[..n], tries[n];
      LockedIsFrozen(a, init);
      assert t in tries;
      NoneSnoc(a, tries);
    }
  }
}
