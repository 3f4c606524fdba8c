/** NVMe completion queues: the phase tag tells a new completion from a stale one (section 4.6 of the NVM
    Express Base Specification 1.4). */
module NvmeQueue {

  const ENTRIES: nat := 16

  /** The status word of a completion: its phase bit and the status above it. */
  datatype Completion = Completion(phase: nat, status: nat)

  /** What the controller reported: the command it belongs to and its status. */
  datatype Report = Report(command: nat, status: nat)

  /** The phase of the k-th completion: inverted on every pass over the queue, 1 on the first. */
  function PhaseOf(k: nat): nat {
    if k / ENTRIES % 2 == 0 then 1 else 0
  }

  /** The last of the first n completions that went into slot i, or -1. */
  function Latest(n: nat, i: nat): (k: int)
    requires i < ENTRIES
    ensures -1 <= k < n && (k >= 0 ==> k % ENTRIES == i)
  {
    if n == 0 then -1 else if (n - 1) % ENTRIES == i then n - 1 else Latest(n - 1, i)
  }

  lemma {:induction false} LatestIs(n: nat, i: nat, k: nat)
    requires i < ENTRIES && k % ENTRIES == i && k < n <= k + ENTRIES
    ensures Latest(n, i) == k
  {
    if n - 1 > k {
      LatestIs(n - 1, i, k);
    }
  }

  lemma {:induction false} LatestNone(n: nat, i: nat)
    requires i < ENTRIES && n <= i
    ensures Latest(n, i) == -1
  {
    if n > 0 {
      LatestNone(n - 1, i);
    }
  }

  /** The queue holds, slot by slot, the latest reports; slots never written are zero. */
  ghost predicate Holds(cq: seq<Completion>, reports: seq<Report>) {
    && |cq| == ENTRIES
    && forall i :: 0 <= i < ENTRIES ==> cq[i] == Shown(reports, i)
  }

  ghost function Shown(reports: seq<Report>, i: nat): Completion
    requires i < ENTRIES
  {
    var k := Latest(|reports|, i);
    if k < 0 then Completion(0, 0) else Completion(PhaseOf(k), reports[k].status)
  }

  /** The slot at the head matches the expected phase exactly when there is a report not yet accepted,
      and then it is the next one. */
  lemma HeadShowsNext(cq: seq<Completion>, reports: seq<Report>, n: nat)
    requires Holds(cq, reports) && n <= |reports| <= n + ENTRIES
    ensures cq[n % ENTRIES].phase == PhaseOf(n) <==> n < |reports|
    ensures n < |reports| ==> cq[n % ENTRIES].status == reports[n].status
  {
    var i := n % ENTRIES;
    assert cq[i] == Shown(reports, i);
    if n < |reports| {
      LatestIs(|reports|, i, n);
    } else if n < ENTRIES {
      LatestNone(|reports|, i);
    } else {
      LatestIs(|reports|, i, n - ENTRIES);
      assert (n - ENTRIES) / ENTRIES == n / ENTRIES - 1;
    }
  }

  /** The controller posts a report into the next slot, with the phase of its pass. */
  lemma PostHolds(cq: seq<Completion>, reports: seq<Report>, r: Report)
    requires Holds(cq, reports)
    ensures Holds(cq[|reports| % ENTRIES := Completion(PhaseOf(|reports|), r.status)], reports + [r])
  {
    var n, more := |reports|, reports + [r];
    var cq' := cq[n % ENTRIES := Completion(PhaseOf(n), r.status)];
    forall i | 0 <= i < ENTRIES
      ensures cq'[i] == Shown(more, i)
    {
      assert Latest(n + 1, i) == if n % ENTRIES == i then n else Latest(n, i);
      assert cq[i] == Shown(reports, i);
    }
  }

  /** A submission and a completion queue as the driver keeps them, with the controller on the other side. */
  class QueuePair {
    var cq: seq<Completion>
    var sqTail: nat
    var cqHead: nat
    var phase: nat
    /** Commands submitted, reports posted by the controller, and how many of these were accepted. */
    var submitted: nat
    var reports: seq<Report>
    var accepted: nat

    /** At most 16 reports wait, every report is for its own submitted command, and the indices and the
        phase are those of the next report. */
    ghost predicate Valid()
      reads this
    {
      && Holds(cq, reports) && accepted <= |reports| <= accepted + ENTRIES
      && cqHead == accepted % ENTRIES && phase == PhaseOf(accepted) && sqTail == submitted % ENTRIES
      && (forall k :: 0 <= k < |reports| ==> reports[k].command < submitted)
      && (forall k, l :: 0 <= k < l < |reports| ==> reports[k].command != reports[l].command)
    }

    /** Every command has been reported and the report accepted. */
    ghost predicate Quiet()
      reads this
    {
      accepted == |reports| && forall c :: 0 <= c < submitted ==> Reported(reports, c)
    }

    constructor ()
      ensures Valid() && Quiet() && submitted == 0 && reports == [] && accepted == 0
    {
      cq := seq(ENTRIES, _ => Completion(0, 0));
      sqTail, cqHead, phase := 0, 0, 1;
      submitted, reports, accepted := 0, [], 0;
    }

    /** The controller may finish a command, in any order, as long as the queue has room. */
    method Controller()
      requires Valid()
      modifies this`cq, this`reports
      ensures Valid() && old(reports) <= reports
    {
      hide Holds;
      var command: nat, status: nat := *, *;
      if |reports| < accepted + ENTRIES && command < submitted && forall k :: 0 <= k < |reports| ==>
          reports[k].command != command {
        Post(command, status);
      }
    }

    /** The controller finishes one command that it has not finished before. */
    method Post(command: nat, status: nat)
      requires Valid() && |reports| < accepted + ENTRIES && command < submitted
      requires forall k :: 0 <= k < |reports| ==> reports[k].command != command
      modifies this`cq, this`reports
      ensures Valid() && reports == old(reports) + [Report(command, status)]
    {
      hide Holds;
      PostHolds(cq, reports, Report(command, status));
      QueueShape(cq, reports);
      cq := cq[|reports| % ENTRIES := Completion(PhaseOf(|reports|), status)];
      reports := reports + [Report(command, status)];
    }

    /** wait_completion: the k-th completion accepted is the k-th one posted; a stale slot never is.  It gives up
        only after looking timeout times, and then nothing is waiting. */
    method WaitCompletion(timeout: nat) returns (arrived: bool, status: nat, ghost looks: nat)
      requires Valid()
      modifies this`cq, this`reports, this`cqHead, this`phase, this`accepted
      ensures Valid() && old(reports) <= reports
      ensures arrived ==>
                accepted == old(accepted) + 1 && old(accepted) < |reports| && status == reports[old(accepted)].status
      ensures !arrived ==> accepted == old(accepted)
      ensures timeout == 0 ==> !arrived && reports == old(reports)
      ensures old(accepted < |reports|) && timeout > 0 ==> arrived
      ensures !arrived ==> looks == timeout && (timeout > 0 ==> accepted == |reports|)
    {
      hide Holds;
      arrived, status, looks := false, 0, 0;
      for tick := 0 to timeout
        invariant Valid() && old(reports) <= reports && accepted == old(accepted) && !arrived
        invariant tick > 0 ==> old(accepted == |reports|)
        invariant tick == 0 ==> reports == old(reports)
        invariant looks == tick && (tick > 0 ==> accepted == |reports|)
      {
        looks := looks + 1;
        Controller();
        HeadShowsNext(cq, reports, accepted);
        QueueShape(cq, reports);
        if cq[cqHead].phase == phase {
          arrived, status := true, cq[cqHead].status;
          NextPhase(accepted);
          cqHead := cqHead + 1;
          if cqHead == ENTRIES {
            cqHead := 0;
            phase := 1 - phase;
          }
          accepted := accepted + 1;
          return;
        }
      }
    }

    /** admin_command and nvme_transfer, as far as the queues go.  When every earlier command has been
        answered, the status returned is the one of this command. */
    method Command(timeout: nat) returns (arrived: bool, status: nat, ghost command: nat)
      requires Valid()
      modifies this
      ensures Valid() && command == old(submitted) && submitted == old(submitted) + 1 && old(reports) <= reports
      ensures arrived ==>
                accepted == old(accepted) + 1 && old(accepted) < |reports| && status == reports[old(accepted)].status
      ensures old(Quiet()) && arrived ==> Quiet() && reports[old(accepted)] == Report(command, status)
      ensures old(accepted < |reports|) ==> reports[old(accepted)].command != command && (timeout > 0 ==> arrived)
      ensures timeout == 0 ==> !arrived && reports == old(reports) && accepted == old(accepted)
      ensures !arrived && timeout > 0 ==> accepted == |reports|
    {
      hide Holds;
      command := submitted;
      sqTail := (sqTail + 1) % ENTRIES;
      submitted := submitted + 1;
      ghost var before := reports;
      ghost var looks;
      arrived, status, looks := WaitCompletion(timeout);
      if arrived && old(Quiet()) {
        OnlyNew(before, reports, command, accepted - 1);
      }
    }
  }

  ghost predicate Reported(reports: seq<Report>, c: nat) {
    exists k :: 0 <= k < |reports| && reports[k].command == c
  }

  lemma QueueShape(cq: seq<Completion>, reports: seq<Report>)
    requires Holds(cq, reports)
    ensures |cq| == ENTRIES
  {
  }

  lemma NextPhase(n: nat)
    ensures n % ENTRIES + 1 < ENTRIES ==> (n + 1) % ENTRIES == n % ENTRIES + 1 && PhaseOf(n + 1) == PhaseOf(n)
    ensures n % ENTRIES + 1 == ENTRIES ==> (n + 1) % ENTRIES == 0 && PhaseOf(n + 1) == 1 - PhaseOf(n)
  {
    if n % ENTRIES + 1 == ENTRIES {
      assert (n + 1) / ENTRIES == n / ENTRIES + 1;
    } else {
      assert (n + 1) / ENTRIES == n / ENTRIES;
    }
  }

  lemma NotAgain(before: seq<Report>, now: seq<Report>, l: nat, c: nat)
    requires before <= now && |before| <= l < |now| && Reported(before, c)
    requires forall k, l :: 0 <= k < l < |now| ==> now[k].command != now[l].command
    ensures now[l].command != c
  {
    var k :| 0 <= k < |before| && before[k].command == c;
    assert now[k] == before[k];
  }

  /** With all earlier commands reported, the only report that can come is that of the new command. */
  lemma OnlyNew(before: seq<Report>, now: seq<Report>, command: nat, n: nat)
    requires before <= now && n == |before| < |now|
    requires forall c :: 0 <= c < command ==> Reported(before, c)
    requires forall k :: 0 <= k < |now| ==> now[k].command < command + 1
    requires forall k, l :: 0 <= k < l < |now| ==> now[k].command != now[l].command
    ensures now[n].command == command && |now| == n + 1
    ensures forall c :: 0 <= c < command + 1 ==> Reported(now, c)
  {
    forall l | n <= l < |now|
      ensures now[l].command == command
    {
      if now[l].command < command {
        NotAgain(before, now, l, now[l].command);
      }
    }
    assert now[n].command == command && now[|now| - 1].command == command;
    forall c | 0 <= c < command + 1
      ensures Reported(now, c)
    {
      if c < command {
        assert Reported(before, c);
        var k :| 0 <= k < |before| && before[k].command == c;
        assert now[k] == before[k];
      }
    }
  }

  /** The condition is exact.  When an earlier command has not been answered, the head of the queue
      offers the status of an earlier command, at once or after a report that the controller may post. */
  lemma EarlierMayAnswer(cq: seq<Completion>, reports: seq<Report>, accepted: nat, submitted: nat)
      returns (command: nat)
    requires Holds(cq, reports) && accepted <= |reports| <= accepted + ENTRIES
    requires forall k :: 0 <= k < |reports| ==> reports[k].command < submitted
    requires !(accepted == |reports| && forall c :: 0 <= c < submitted ==> Reported(reports, c))
    ensures command < submitted
    ensures accepted < |reports| ==>
              && reports[accepted].command == command && cq[accepted % ENTRIES].phase == PhaseOf(accepted)
              && cq[accepted % ENTRIES].status == reports[accepted].status
    ensures accepted == |reports| ==>
              && !Reported(reports, command)
              && forall status: nat ::
                   var cq' := cq[accepted % ENTRIES := Completion(PhaseOf(accepted), status)];
                   Holds(cq', reports + [Report(command, status)]) && cq'[accepted % ENTRIES].phase == PhaseOf(accepted)
  {
    if accepted < |reports| {
      HeadShowsNext(cq, reports, accepted);
      command := reports[accepted].command;
    } else {
      command :| 0 <= command < submitted && !Reported(reports, command);
      forall status: nat
        ensures var cq' := cq[accepted % ENTRIES := Completion(PhaseOf(accepted), status)];
                Holds(cq', reports + [Report(command, status)]) && cq'[accepted % ENTRIES].phase == PhaseOf(accepted)
      {
        PostHolds(cq, reports, Report(command, status));
      }
    }
  }

  /** A run in which this happens: the wait for command 0 times out, its report comes late, and command 1
      is answered with the status of command 0. */
  method LateReport(status: nat) returns (q: QueuePair, arrived: bool, answer: nat, ghost command: nat)
    ensures q.Valid() && arrived && command == 1 && answer == status && |q.reports| > 0
            && q.reports[0] == Report(0, status)
  {
    q := new QueuePair();
    arrived, answer, command := q.Command(0);
    q.Post(0, status);
    arrived, answer, command := q.Command(1);
  }
}
