/** The history stays truthful: exit and wait deliver exactly once. */
module LogProofs {
  import opened Common
  import opened Machine
  import opened ProcInv

  /** How one record may change in one step, short of a new process taking the slot: it is
      released, or keeps its pid, keeps or loses its parent, and once exited stays so. */
  predicate LifeStep(q: Process, q': Process)
  {
    || q'.state == Vacant
    || (q.state != Vacant && q'.pid == q.pid && (q'.parent == q.parent || q'.parent == 0)
        && (q.state == Exited ==> q'.state == Exited && q'.status == q.status))
  }

  predicate LifeSteps(procs: seq<Process>, procs': seq<Process>)
  {
    |procs'| == |procs| && forall t :: 0 <= t < |procs| ==> LifeStep(procs[t], procs'[t])
  }

  predicate UniquePids(procs: seq<Process>)
  {
    forall s, t :: 0 <= s < t < |procs| && procs[s].state != Vacant && procs[t].state != Vacant ==> procs[s].pid != procs[t].pid
  }

  lemma GoneStays(procs: seq<Process>, procs': seq<Process>, nextPid: nat, pid: nat)
    requires LifeSteps(procs, procs') && Gone(procs, nextPid, pid)
    ensures Gone(procs', nextPid, pid)
  {
    forall t | 0 <= t < |procs'| ensures !(procs'[t].state != Vacant && procs'[t].pid == pid) {
      assert LifeStep(procs[t], procs'[t]);
    }
  }

  lemma OverStays(procs: seq<Process>, procs': seq<Process>, nextPid: nat, pid: nat, status: Word32)
    requires LifeSteps(procs, procs') && UniquePids(procs) && Over(procs, nextPid, pid, status) && 1 <= pid < nextPid
    ensures Over(procs', nextPid, pid, status)
  {
    if Gone(procs, nextPid, pid) {
      GoneStays(procs, procs', nextPid, pid);
    } else {
      var s :| 0 <= s < |procs| && procs[s].state == Exited && procs[s].pid == pid && procs[s].status == status;
      assert LifeStep(procs[s], procs'[s]);
      if procs'[s].state == Vacant {
        forall t | 0 <= t < |procs'| ensures !(procs'[t].state != Vacant && procs'[t].pid == pid) {
          assert LifeStep(procs[t], procs'[t]);
        }
        assert Gone(procs', nextPid, pid);
      } else {
        assert procs'[s].state == Exited && procs'[s].pid == pid && procs'[s].status == status;
      }
    }
  }

  lemma EventStays(e: Event, procs: seq<Process>, procs': seq<Process>, nextPid: nat)
    requires LifeSteps(procs, procs') && UniquePids(procs) && EventOk(e, procs, nextPid)
    requires forall s :: 0 <= s < |procs| ==> procs[s].state != Vacant ==> 1 <= procs[s].pid < nextPid
    ensures EventOk(e, procs', nextPid)
  {
    match e
    case ExecFailed(pid) => GoneStays(procs, procs', nextPid, pid);
    case DidExit(pid, status) => OverStays(procs, procs', nextPid, pid, status);
    case Collected(_, child, _) => GoneStays(procs, procs', nextPid, child);
    case _ =>
  }

  /** One more event: every record that turned exited is the one the event speaks of. */
  lemma LogGrows(log: seq<Event>, e: Event, procs: seq<Process>, procs': seq<Process>, nextPid: nat)
    requires LogOk(log, procs, nextPid) && UniquePids(procs) && LifeSteps(procs, procs')
    requires forall s :: 0 <= s < |procs| ==> procs[s].state != Vacant ==> 1 <= procs[s].pid < nextPid
    requires EventOk(e, procs', nextPid)
    requires forall s :: 0 <= s < |procs| && procs'[s].state == Exited && procs[s].state != Exited ==>
               e == DidExit(procs'[s].pid, procs'[s].status)
    ensures LogOk(log + [e], procs', nextPid)
  {
    var log' := log + [e];
    forall j | 0 <= j < |log'| ensures EventOk(log'[j], procs', nextPid) {
      if j < |log| { EventStays(log[j], procs, procs', nextPid); }
    }
    forall s | 0 <= s < |procs'| && procs'[s].state != Vacant
      ensures procs'[s].parent != 0 ==> Spawned(procs'[s].parent, procs'[s].pid) in log'
      ensures procs'[s].state == Exited ==> DidExit(procs'[s].pid, procs'[s].status) in log'
    {
      assert LifeStep(procs[s], procs'[s]);
      assert log'[|log|] == e;
      assert forall x :: x in log ==> x in log';
    }
  }

  /** The table moves on, the history does not. */
  lemma LogSame(log: seq<Event>, procs: seq<Process>, procs': seq<Process>, nextPid: nat)
    requires LogOk(log, procs, nextPid) && UniquePids(procs) && LifeSteps(procs, procs')
    requires forall s :: 0 <= s < |procs| ==> procs[s].state != Vacant ==> 1 <= procs[s].pid < nextPid
    requires forall s :: 0 <= s < |procs| && procs'[s].state == Exited ==> procs[s].state == Exited
    ensures LogOk(log, procs', nextPid)
  {
    forall j | 0 <= j < |log| ensures EventOk(log[j], procs', nextPid) {
      EventStays(log[j], procs, procs', nextPid);
    }
    forall s | 0 <= s < |procs'| && procs'[s].state != Vacant
      ensures procs'[s].parent != 0 ==> Spawned(procs'[s].parent, procs'[s].pid) in log
      ensures procs'[s].state == Exited ==> DidExit(procs'[s].pid, procs'[s].status) in log
    {
      assert LifeStep(procs[s], procs'[s]);
    }
  }

  /** A new process takes a vacant slot under the next pid. */
  lemma LogSpawn(log: seq<Event>, procs: seq<Process>, nextPid: nat, slot: nat, q: Process)
    requires LogOk(log, procs, nextPid) && slot < |procs| && procs[slot].state == Vacant
    requires q.state == Created && q.pid == nextPid && nextPid >= 1 && q.parent < nextPid
    ensures LogOk(log + [Spawned(q.parent, nextPid)], procs[slot := q], nextPid + 1)
  {
    var e := Spawned(q.parent, nextPid);
    var log' := log + [e];
    var procs' := procs[slot := q];
    forall j | 0 <= j < |log'| ensures EventOk(log'[j], procs', nextPid + 1) {
      if j < |log| {
        assert EventOk(log[j], procs, nextPid);
        if log[j].DidExit? && !Gone(procs, nextPid, log[j].pid) {
          var s :| 0 <= s < |procs| && procs[s].state == Exited && procs[s].pid == log[j].pid && procs[s].status == log[j].status;
          assert procs'[s] == procs[s];
        }
      }
    }
    assert log'[|log|] == e;
    assert forall x :: x in log ==> x in log';
  }

  lemma LogNextPid(log: seq<Event>, procs: seq<Process>, nextPid: nat)
    requires LogOk(log, procs, nextPid)
    ensures LogOk(log, procs, nextPid + 1)
  {
    forall j | 0 <= j < |log| ensures EventOk(log[j], procs, nextPid + 1) {
      assert EventOk(log[j], procs, nextPid);
    }
  }

  // ---------------------------------------------------------------- the history itself

  lemma HistoryPlain(log: seq<Event>, e: Event)
    requires HistoryOk(log) && !e.DidExit? && !e.Collected? && !e.ExecFailed?
    ensures HistoryOk(log + [e])
  {
    var log' := log + [e];
    assert forall j :: 0 <= j < |log| ==> log'[j] == log[j] && log'[..j] == log[..j];
  }

  predicate EndOf(e: Event, pid: nat) { (e.DidExit? || e.ExecFailed?) && e.pid == pid }

  /** A process that still has its space has neither exited nor failed to start. */
  lemma NotEnded(log: seq<Event>, procs: seq<Process>, nextPid: nat, s: nat, j: nat)
    requires LogOk(log, procs, nextPid) && UniquePids(procs) && s < |procs| && Owning(procs[s]) && j < |log|
    ensures !EndOf(log[j], procs[s].pid)
  {
    assert EventOk(log[j], procs, nextPid);
  }

  lemma HistoryExit(log: seq<Event>, procs: seq<Process>, nextPid: nat, s: nat, status: Word32)
    requires HistoryOk(log) && LogOk(log, procs, nextPid) && UniquePids(procs)
    requires s < |procs| && Owning(procs[s])
    ensures HistoryOk(log + [DidExit(procs[s].pid, status)])
  {
    var log' := log + [DidExit(procs[s].pid, status)];
    forall j | 0 <= j < |log| ensures !EndOf(log[j], procs[s].pid) {
      NotEnded(log, procs, nextPid, s, j);
    }
    hide LogOk; hide UniquePids;
    assert forall j :: 0 <= j < |log| ==> log'[j] == log[j] && log'[..j] == log[..j];
  }

  lemma HistoryExecFailed(log: seq<Event>, procs: seq<Process>, nextPid: nat, s: nat)
    requires HistoryOk(log) && LogOk(log, procs, nextPid) && UniquePids(procs)
    requires s < |procs| && Owning(procs[s])
    ensures HistoryOk(log + [ExecFailed(procs[s].pid)])
  {
    var log' := log + [ExecFailed(procs[s].pid)];
    forall j | 0 <= j < |log| ensures !EndOf(log[j], procs[s].pid) {
      NotEnded(log, procs, nextPid, s, j);
    }
    hide LogOk; hide UniquePids;
    assert forall j :: 0 <= j < |log| ==> log'[j] == log[j] && log'[..j] == log[..j];
  }

  /** A collected status is the one the child exited with, the collector is the process that
      spawned it, and it had not been collected before. */
  lemma HistoryCollect(log: seq<Event>, procs: seq<Process>, nextPid: nat, c: nat)
    requires HistoryOk(log) && LogOk(log, procs, nextPid)
    requires c < |procs| && procs[c].state == Exited && procs[c].parent != 0
    ensures HistoryOk(log + [Collected(procs[c].parent, procs[c].pid, procs[c].status)])
  {
    var log' := log + [Collected(procs[c].parent, procs[c].pid, procs[c].status)];
    forall j | 0 <= j < |log| ensures log[j].Collected? ==> log[j].child != procs[c].pid {
      assert EventOk(log[j], procs, nextPid);
    }
    assert forall j :: 0 <= j < |log| ==> log'[j] == log[j] && log'[..j] == log[..j];
    assert log'[..|log|] == log;
  }
}
