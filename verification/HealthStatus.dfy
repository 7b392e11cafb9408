/** Rise/fall hysteresis of one upstream's health. */
module HealthStatus {
  datatype Status = Status(healthy: bool, count: int)

  /** One check result with the thresholds in force at that moment. */
  datatype Sample = Sample(passed: bool, rise: int, fall: int) {
    function Threshold(): int {
      if passed then rise else fall
    }
  }

  function Observe(s: Status, c: Sample): Status {
    if c.passed then
      var count := if s.count < 0 then 1 else s.count + 1;
      Status(s.healthy || count >= c.rise, count)
    else
      var count := if s.count > 0 then -1 else s.count - 1;
      Status(s.healthy && -count < c.fall, count)
  }

  function History(init: bool, cs: seq<Sample>): Status {
    if cs == [] then Status(init, 0) else Observe(History(init, cs[..|cs| - 1]), cs[|cs| - 1])
  }

  function ObserveAll(s: Status, cs: seq<Sample>): Status {
    if cs == [] then s else Observe(ObserveAll(s, cs[..|cs| - 1]), cs[|cs| - 1])
  }

  /** A status that is kept carries its history on. */
  lemma {:induction false} HistoryContinues(init: bool, a: seq<Sample>, b: seq<Sample>)
    ensures History(init, a + b) == ObserveAll(History(init, a), b)
    decreases |b|
  {
    if b == [] {
      assert a + b == a;
    } else {
      assert (a + b)[..|a + b| - 1] == a + b[..|b| - 1];
      HistoryContinues(init, a, b[..|b| - 1]);
    }
  }

  // ----- The trace specification --------------------------------------------------------

  /** The last n results of cs are of one kind and the one before them, if any, is not. */
  ghost predicate IsStreak(cs: seq<Sample>, n: nat) {
    && n <= |cs| && (cs != [] ==> n > 0)
    && (forall j :: |cs| - n <= j < |cs| ==> cs[j].passed == cs[|cs| - 1].passed)
    && (n < |cs| ==> cs[|cs| - n - 1].passed != cs[|cs| - 1].passed)
  }

  /** The results up to position i end in at least as many of one kind as its threshold. */
  ghost predicate Reached(cs: seq<Sample>, i: nat)
    requires i < |cs|
  {
    && cs[i].Threshold() <= i + 1
    && forall j :: 0 <= j <= i && i + 1 - cs[i].Threshold() <= j ==> cs[j].passed == cs[i].passed
  }

  ghost predicate LastReached(cs: seq<Sample>, i: nat) {
    i < |cs| && Reached(cs, i) && forall j :: i < j < |cs| ==> !Reached(cs, j)
  }

  /** v is the kind of the last position that reached its threshold, or init if none did. */
  ghost predicate IsVerdict(init: bool, cs: seq<Sample>, v: bool) {
    || (v == init && forall i :: 0 <= i < |cs| ==> !Reached(cs, i))
    || exists i: nat :: LastReached(cs, i) && v == cs[i].passed
  }

  function Abs(x: int): nat {
    if x < 0 then -x else x
  }

  lemma {:induction false} CountIsStreak(init: bool, cs: seq<Sample>)
    ensures IsStreak(cs, Abs(History(init, cs).count))
    ensures cs != [] ==> (History(init, cs).count > 0 <==> cs[|cs| - 1].passed)
    ensures cs != [] ==> History(init, cs).count != 0
  {
    if cs != [] {
      var m := |cs| - 1;
      CountIsStreak(init, cs[..m]);
      assert forall j :: 0 <= j < m ==> cs[..m][j] == cs[j];
      if m > 0 && cs[m].passed == cs[m - 1].passed {
        var n := Abs(History(init, cs[..m]).count);
        assert forall j :: m - n <= j < m ==> cs[..m][j].passed == cs[m - 1].passed;
      }
    }
  }

  lemma StreakReaches(cs: seq<Sample>, n: nat)
    requires cs != [] && IsStreak(cs, n)
    ensures Reached(cs, |cs| - 1) <==> n >= cs[|cs| - 1].Threshold()
  {
    var m := |cs| - 1;
    if n < cs[m].Threshold() && n < |cs| {
      assert cs[|cs| - n - 1].passed != cs[m].passed;
    }
  }

  lemma ReachedPrefix(cs: seq<Sample>, m: nat, i: nat)
    requires i < m <= |cs|
    ensures Reached(cs[..m], i) <==> Reached(cs, i)
  {
    assert forall j :: 0 <= j <= i ==> cs[..m][j] == cs[j];
  }

  lemma VerdictStep(init: bool, cs: seq<Sample>, v: bool)
    requires cs != [] && IsVerdict(init, cs[..|cs| - 1], v)
    ensures IsVerdict(init, cs, if Reached(cs, |cs| - 1) then cs[|cs| - 1].passed else v)
  {
    var m := |cs| - 1;
    forall i | 0 <= i < m ensures Reached(cs[..m], i) <==> Reached(cs, i) {
      ReachedPrefix(cs, m, i);
    }
    if Reached(cs, m) {
      assert LastReached(cs, m);
    } else if i: nat :| LastReached(cs[..m], i) && v == cs[..m][i].passed {
      assert LastReached(cs, i) && v == cs[i].passed;
    }
  }

  /** After any results under any thresholds, the counter is the signed length of the
      trailing streak and the status is the last verdict a streak reached. */
  lemma {:induction false} HistoryMeetsTrace(init: bool, cs: seq<Sample>)
    ensures IsStreak(cs, Abs(History(init, cs).count))
    ensures cs != [] ==> (History(init, cs).count > 0 <==> cs[|cs| - 1].passed)
    ensures IsVerdict(init, cs, History(init, cs).healthy)
  {
    CountIsStreak(init, cs);
    if cs != [] {
      HistoryMeetsTrace(init, cs[..|cs| - 1]);
      StreakReaches(cs, Abs(History(init, cs).count));
      VerdictStep(init, cs, History(init, cs[..|cs| - 1]).healthy);
    }
  }

  /** The trace specification leaves no choice. */
  lemma VerdictUnique(init: bool, cs: seq<Sample>, u: bool, v: bool)
    requires IsVerdict(init, cs, u) && IsVerdict(init, cs, v)
    ensures u == v
  {
    if (exists i: nat :: LastReached(cs, i) && u == cs[i].passed) && exists j: nat :: LastReached(cs, j) && v == cs[j].passed {
      var i: nat :| LastReached(cs, i) && u == cs[i].passed;
      var j: nat :| LastReached(cs, j) && v == cs[j].passed;
      assert i == j;
    }
  }

  class Entry {
    var isHealthy: bool
    var healthCount: int

    function Value(): Status
      reads this
    {
      Status(isHealthy, healthCount)
    }

    constructor (initial: bool)
      ensures Value() == History(initial, [])
    {
      isHealthy, healthCount := initial, 0;
    }

    /** Reports true exactly when the status flipped. */
    method UpdateHealthCheckStatus(passed: bool, rise: int, fall: int) returns (flipped: bool)
      modifies this
      ensures Value() == Observe(old(Value()), Sample(passed, rise, fall))
      ensures flipped <==> isHealthy != old(isHealthy)
    {
      if passed {
        healthCount := if healthCount < 0 then 1 else healthCount + 1;
        if !isHealthy && healthCount >= rise {
          isHealthy := true;
          return true;
        }
        return false;
      }
      healthCount := if healthCount > 0 then -1 else healthCount - 1;
      if isHealthy && -healthCount >= fall {
        isHealthy := false;
        return true;
      }
      return false;
    }
  }
}
