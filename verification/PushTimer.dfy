/**
  The push timer: a 32-bit millisecond clock that rolls over, compared with the
  time of the last successful connection.
*/
module PushTimer {
  import opened Decimal

  function Unsigned32(n: int): (r: nat)
    ensures r < TWO32
    ensures 0 <= n < TWO32 ==> r == n
  {
    n % TWO32
  }

  /** One look at the clock: the times are real milliseconds since power-up. */
  datatype Attempt = Attempt(check: nat, connect: nat, succeeds: bool)

  /** `millis() - lLastConnectionTime > iPushFreq * 1000`, all in unsigned 32 bits. */
  predicate Due(last: nat, pushFreq: int, check: nat) {
    Unsigned32(Unsigned32(check) - last) > Unsigned32(pushFreq * 1000)
  }

  predicate Pushes(last: nat, pushFreq: int, a: Attempt) {
    Due(last, pushFreq, a.check) && a.succeeds
  }

  /** Only a successful connection moves the timer. */
  function AfterAttempt(last: nat, pushFreq: int, a: Attempt): nat {
    if Pushes(last, pushFreq, a) then Unsigned32(a.connect) else last
  }

  /** The timer moves exactly when an attempt succeeds later than the period, in unsigned 32-bit arithmetic. */
  lemma AfterAttemptIs(last: nat, pushFreq: int, a: Attempt)
    ensures AfterAttempt(last, pushFreq, a) ==
            if a.succeeds && (a.check - last) % 0x1_0000_0000 > (pushFreq * 1000) % 0x1_0000_0000
            then a.connect % 0x1_0000_0000
            else last
  {
  }

  /** Unsigned clock differences never exceed the real time that went by. */
  lemma ClockDifference(from: nat, check: nat)
    requires from <= check
    ensures Unsigned32(Unsigned32(check) - Unsigned32(from)) <= check - from
  {
  }

  // ---- Runs of attempts, each with the frequency in force at the time

  datatype Timed = Timed(pushFreq: int, attempt: Attempt)

  /** The timer after a run of attempts. */
  function TimerAfter(last: nat, run: seq<Timed>): nat {
    if run == [] then last
    else
      var t := run[|run| - 1];
      AfterAttempt(TimerAfter(last, run[..|run| - 1]), t.pushFreq, t.attempt)
  }

  /** A successful push: its real time, and the period in force, in unsigned milliseconds. */
  datatype Push = Push(at: nat, period: nat)

  /** The successful pushes of a run of attempts. */
  function PushLog(last: nat, run: seq<Timed>): seq<Push> {
    if run == [] then []
    else
      var before, t := run[..|run| - 1], run[|run| - 1];
      PushLog(last, before)
      + if Pushes(TimerAfter(last, before), t.pushFreq, t.attempt)
        then [Push(t.attempt.connect, Unsigned32(t.pushFreq * 1000))]
        else []
  }

  /** Real time never runs backwards. */
  ghost predicate InOrder(from: nat, run: seq<Timed>) {
    && (forall i :: 0 <= i < |run| ==> from <= run[i].attempt.check <= run[i].attempt.connect)
    && (forall i, j :: 0 <= i < j < |run| ==> run[i].attempt.connect <= run[j].attempt.check)
  }

  /** The real time of the last push, or `from` before the first. */
  function LastPush(from: nat, log: seq<Push>): nat {
    if log == [] then from else log[|log| - 1].at
  }

  /** Each push comes more than its period after the one before. */
  ghost predicate Spaced(from: nat, log: seq<Push>) {
    log == [] ||
    var n := |log| - 1;
    Spaced(from, log[..n]) && log[n].at > LastPush(from, log[..n]) + log[n].period
  }

  /** Successful pushes are more than the period in force apart, whatever the frequencies and across clock rollovers. */
  lemma {:induction false} PushesAreSpaced(from: nat, run: seq<Timed>)
    requires InOrder(from, run)
    ensures var log := PushLog(Unsigned32(from), run);
            && Spaced(from, log)
            && TimerAfter(Unsigned32(from), run) == Unsigned32(LastPush(from, log))
            && LastPush(from, log) <= if run == [] then from else run[|run| - 1].attempt.connect
  {
    if run != [] {
      var n := |run| - 1;
      var before, t := run[..n], run[n];
      PushesAreSpaced(from, before);
      var log := PushLog(Unsigned32(from), before);
      ClockDifference(LastPush(from, log), t.attempt.check);
      if Pushes(TimerAfter(Unsigned32(from), before), t.pushFreq, t.attempt) {
        LogPush(from, log, Push(t.attempt.connect, Unsigned32(t.pushFreq * 1000)));
      } else {
        assert log + [] == log;
      }
    }
  }

  lemma DifferenceOfRemainders(a: nat, b: nat)
    ensures (a % 0x1_0000_0000 - b % 0x1_0000_0000) % 0x1_0000_0000 == (a - b) % 0x1_0000_0000
  {
  }

  /** The stored time decides like the real time of the last push, modulo 2^32. */
  lemma PushesIff(last: nat, pushFreq: int, a: Attempt)
    ensures Pushes(Unsigned32(last), pushFreq, a) <==>
            a.succeeds && (a.check - last) % 0x1_0000_0000 > (pushFreq * 1000) % 0x1_0000_0000
  {
    DifferenceOfRemainders(a.check, last);
  }

  lemma InOrderBefore(from: nat, before: seq<Timed>, t: Timed)
    requires InOrder(from, before + [t])
    ensures InOrder(from, before)
  {
    assert forall i :: 0 <= i < |before| ==> (before + [t])[i] == before[i];
  }

  lemma LogOfOneMore(last: nat, before: seq<Timed>, t: Timed)
    ensures PushLog(last, before + [t]) ==
            PushLog(last, before)
            + if Pushes(TimerAfter(last, before), t.pushFreq, t.attempt)
              then [Push(t.attempt.connect, (t.pushFreq * 1000) % 0x1_0000_0000)]
              else []
  {
    assert (before + [t])[..|before|] == before;
  }

  /** The log grows exactly when an attempt succeeds more than its period, modulo 2^32, after the last push. */
  lemma {:induction false} LogGrowsIff(from: nat, before: seq<Timed>, t: Timed)
    requires InOrder(from, before + [t])
    ensures var start := from % 0x1_0000_0000; var log, a := PushLog(start, before), t.attempt;
            PushLog(start, before + [t]) ==
            log + if a.succeeds
                     && (a.check - LastPush(from, log)) % 0x1_0000_0000 > (t.pushFreq * 1000) % 0x1_0000_0000
                  then [Push(a.connect, (t.pushFreq * 1000) % 0x1_0000_0000)]
                  else []
  {
    InOrderBefore(from, before, t);
    PushesAreSpaced(from, before);
    PushesIff(LastPush(from, PushLog(Unsigned32(from), before)), t.pushFreq, t.attempt);
    LogOfOneMore(Unsigned32(from), before, t);
  }

  lemma SmallRemainder(n: int)
    requires 0 <= n < 0x1_0000_0000
    ensures n % 0x1_0000_0000 == n
  {
  }

  /** A successful attempt more than one period but less than 2^32 ms after the last push always pushes. */
  lemma {:induction false} DueAttemptPushes(from: nat, before: seq<Timed>, t: Timed)
    requires InOrder(from, before + [t])
    ensures var log, period := PushLog(from % 0x1_0000_0000, before), t.pushFreq * 1000;
            t.attempt.succeeds && 0 <= period < t.attempt.check - LastPush(from, log) < 0x1_0000_0000 ==>
              PushLog(from % 0x1_0000_0000, before + [t]) == log + [Push(t.attempt.connect, period)]
  {
    var period, gone := t.pushFreq * 1000, t.attempt.check - LastPush(from, PushLog(from % 0x1_0000_0000, before));
    LogGrowsIff(from, before, t);
    if 0 <= period < gone < 0x1_0000_0000 {
      SmallRemainder(period);
      SmallRemainder(gone);
    }
  }

  lemma LogPush(from: nat, log: seq<Push>, p: Push)
    requires Spaced(from, log) && p.at > LastPush(from, log) + p.period
    ensures Spaced(from, log + [p]) && LastPush(from, log + [p]) == p.at
  {
    assert (log + [p])[..|log|] == log;
  }

  ghost predicate PeriodsAtLeast(log: seq<Push>, gap: nat) {
    forall i :: 0 <= i < |log| ==> log[i].period >= gap
  }

  /** With every period at least `gap`, the `k`-th push comes no earlier than `k` times `gap + 1`. */
  lemma {:induction false} PushesTakeTime(from: nat, log: seq<Push>, gap: nat)
    requires Spaced(from, log) && PeriodsAtLeast(log, gap)
    ensures LastPush(from, log) >= from + |log| * (gap + 1)
  {
    if log != [] {
      var n := |log| - 1;
      PushesTakeTime(from, log[..n], gap);
      assert |log| * (gap + 1) == n * (gap + 1) + (gap + 1);
    }
  }

  lemma {:induction false} RunAppend(last: nat, a: seq<Timed>, b: seq<Timed>)
    ensures TimerAfter(last, a + b) == TimerAfter(TimerAfter(last, a), b)
    ensures PushLog(last, a + b) == PushLog(last, a) + PushLog(TimerAfter(last, a), b)
  {
    if b == [] {
      assert a + b == a;
    } else {
      var n := |b| - 1;
      RunAppend(last, a, b[..n]);
      assert (a + b)[..|a + b| - 1] == a + b[..n];
    }
  }

  lemma {:induction false} FailuresPushNothing(last: nat, failures: seq<Timed>)
    requires forall i :: 0 <= i < |failures| ==> !failures[i].attempt.succeeds
    ensures TimerAfter(last, failures) == last && PushLog(last, failures) == []
  {
    if failures != [] {
      FailuresPushNothing(last, failures[..|failures| - 1]);
    }
  }

  /** Failed connections, anywhere in a run, leave the timer and every other push alone. */
  lemma FailuresLeaveTheTimer(last: nat, a: seq<Timed>, failures: seq<Timed>, b: seq<Timed>)
    requires forall i :: 0 <= i < |failures| ==> !failures[i].attempt.succeeds
    ensures PushLog(last, a + failures + b) == PushLog(last, a + b)
    ensures TimerAfter(last, a + failures + b) == TimerAfter(last, a + b)
  {
    FailuresPushNothing(TimerAfter(last, a), failures);
    RunAppend(last, a, failures);
    RunAppend(last, a + failures, b);
    RunAppend(last, a, b);
    assert PushLog(last, a) + [] == PushLog(last, a);
  }
}
