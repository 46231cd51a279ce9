/**
 * The job table of ca$h as values: a fixed array of MAX_JOBS slots plus the
 * next job id, and what each bookkeeping operation does to them. The class
 * JobControl.JobTable updates an array in place and is proved to follow
 * these functions; the lemmas here state what the functions guarantee.
 */
module Jobs {
  import opened Wrappers

  /** MAX_JOBS: the number of slots in the job table. */
  const MaxJobs: nat := 32

  /** JOB_STATE_INVALID marks a free slot; a reaped job is also INVALID until reported. */
  datatype JobState = Invalid | Running | Stopped

  /** One slot of job_list; `command` is None where the C pointer is NULL. */
  datatype Job = Job(jid: int, pgid: int, state: JobState, command: Option<string>, notified: bool)

  /** A slot as the zero-initialised global array holds it, and as remove_job_by_pgid leaves it. */
  const EmptySlot: Job := Job(0, 0, Invalid, None, false)

  /** job_list together with next_jid. */
  datatype Table = Table(slots: seq<Job>, nextJid: int)

  predicate IsLive(j: Job) {
    j.state != Invalid
  }

  // ---------------------------------------------------------------------
  // Lookups
  // ---------------------------------------------------------------------

  /** What a slot search looks for: a free slot, or a live slot with a given jid or pgid. */
  datatype Key = FreeSlot | ByJid(jid: int) | ByPgid(pgid: int)

  predicate Matches(j: Job, k: Key) {
    match k
    case FreeSlot => j.state == Invalid
    case ByJid(id) => j.state != Invalid && j.jid == id
    case ByPgid(g) => j.state != Invalid && j.pgid == g
  }

  /** The first index at or after `from` whose slot matches `k`, or -1. */
  function FirstMatchFrom(s: seq<Job>, k: Key, from: nat): (r: int)
    requires from <= |s|
    ensures r == -1 || from <= r < |s|
    ensures r == -1 <==> forall i :: from <= i < |s| ==> !Matches(s[i], k)
    ensures r != -1 ==> Matches(s[r], k) && forall i :: from <= i < r ==> !Matches(s[i], k)
    decreases |s| - from
  {
    if from == |s| then -1
    else if Matches(s[from], k) then from
    else FirstMatchFrom(s, k, from + 1)
  }

  /** The lowest index whose slot matches `k`, and -1 exactly when no slot does. */
  function FirstMatch(s: seq<Job>, k: Key): (r: int)
    ensures -1 <= r < |s|
    ensures r == -1 <==> forall i :: 0 <= i < |s| ==> !Matches(s[i], k)
    ensures r != -1 ==> Matches(s[r], k) && forall i :: 0 <= i < r ==> !Matches(s[i], k)
  {
    FirstMatchFrom(s, k, 0)
  }

  /** The live slots in index order: what `jobs` lists. */
  function LiveJobs(s: seq<Job>): (r: seq<Job>)
    ensures |r| <= |s|
    ensures forall j {:trigger j in r} :: j in r <==> j in s && IsLive(j)
    decreases |s|
  {
    if s == [] then []
    else
      var last := s[|s| - 1];
      LiveJobs(s[..|s| - 1]) + (if IsLive(last) then [last] else [])
  }

  /** A job is listed exactly when it is held by a live slot. */
  lemma {:induction false} LiveJobsMembers(s: seq<Job>, j: Job)
    ensures j in LiveJobs(s) <==> j in s && IsLive(j)
    decreases |s|
  {
    if s != [] {
      var init := s[..|s| - 1];
      LiveJobsMembers(init, j);
      assert s == init + [s[|s| - 1]];
    }
  }

  /** Two tables whose live slots agree index by index list the same jobs. */
  lemma {:induction false} LiveJobsAgree(s: seq<Job>, u: seq<Job>)
    requires |s| == |u|
    requires forall i :: 0 <= i < |s| ==> IsLive(s[i]) == IsLive(u[i])
    requires forall i :: 0 <= i < |s| && IsLive(s[i]) ==> s[i] == u[i]
    ensures LiveJobs(s) == LiveJobs(u)
    decreases |s|
  {
    if s != [] {
      LiveJobsAgree(s[..|s| - 1], u[..|u| - 1]);
    }
  }

  // ---------------------------------------------------------------------
  // The table invariant
  // ---------------------------------------------------------------------

  /** What every live slot satisfies: an id already handed out, a positive pgid, a command. */
  predicate WellFormedLive(j: Job, nextJid: int) {
    0 < j.jid < nextJid && j.pgid > 0 && j.command.Some?
  }

  /**
   * MAX_JOBS slots, next_jid positive, every live slot well formed, and no two
   * live slots with the same jid.
   */
  predicate Inv(t: Table) {
    && |t.slots| == MaxJobs
    && t.nextJid >= 1
    && (forall i :: 0 <= i < |t.slots| && IsLive(t.slots[i]) ==> WellFormedLive(t.slots[i], t.nextJid))
    && (forall i, j :: 0 <= i < j < |t.slots| && IsLive(t.slots[i]) && IsLive(t.slots[j]) ==>
          t.slots[i].jid != t.slots[j].jid)
  }

  /** Under the invariant a jid names at most one live slot, so a jid lookup finds that slot. */
  lemma JidLookupUnique(t: Table, i: nat)
    requires Inv(t) && i < |t.slots| && IsLive(t.slots[i])
    ensures FirstMatch(t.slots, ByJid(t.slots[i].jid)) == i
  {
    var k := FirstMatch(t.slots, ByJid(t.slots[i].jid));
    assert Matches(t.slots[i], ByJid(t.slots[i].jid));
    assert k != -1 && k <= i;
  }

  // ---------------------------------------------------------------------
  // init_jobs, add_job, remove_job_by_pgid
  // ---------------------------------------------------------------------

  /** init_jobs: every slot becomes INVALID with a NULL command (other fields kept), next_jid becomes 1. */
  function Init(t: Table): (r: Table)
    ensures |r.slots| == |t.slots| && r.nextJid == 1
    ensures forall i :: 0 <= i < |r.slots| ==> !IsLive(r.slots[i]) && r.slots[i].command.None?
  {
    Table(seq(|t.slots|, i requires 0 <= i < |t.slots| => t.slots[i].(state := Invalid, command := None)), 1)
  }

  lemma InitEmpties(t: Table)
    requires |t.slots| == MaxJobs
    ensures Inv(Init(t))
    ensures LiveJobs(Init(t).slots) == []
    ensures FirstMatch(Init(t).slots, FreeSlot) == 0
  {
    var s := Init(t).slots;
    if LiveJobs(s) != [] {
      LiveJobsMembers(s, LiveJobs(s)[0]);
    }
  }

  /**
   * add_job: rejects pgid <= 0 and a table without an INVALID slot; otherwise
   * fills the lowest INVALID slot, hands out next_jid and increments it.
   * `dupOk` is whether strdup of the command succeeded: when it fails the slot
   * is put back to INVALID, -1 is returned, and next_jid stays incremented.
   */
  function Add(t: Table, pgid: int, cmd: string, state: JobState, dupOk: bool): (r: (Table, int))
    ensures |r.0.slots| == |t.slots|
    ensures r.1 != -1 ==> r.1 == t.nextJid && r.0.nextJid == t.nextJid + 1
    ensures r.0 != t ==> r.0.nextJid == t.nextJid + 1
    ensures !dupOk ==> r.1 == -1
  {
    if pgid <= 0 then (t, -1)
    else
      var k := FirstMatch(t.slots, FreeSlot);
      if k == -1 then (t, -1)
      else
        var j := Job(t.nextJid, pgid, state, if dupOk then Some(cmd) else None, state == Running);
        var j' := if dupOk then j else j.(state := Invalid);
        (Table(t.slots[k := j'], t.nextJid + 1), if dupOk then t.nextJid else -1)
  }

  /** add_job returns -1 and changes nothing when pgid <= 0 or every slot is live. */
  lemma AddRejects(t: Table, pgid: int, cmd: string, state: JobState, dupOk: bool)
    requires pgid <= 0 || forall i :: 0 <= i < |t.slots| ==> IsLive(t.slots[i])
    ensures Add(t, pgid, cmd, state, dupOk) == (t, -1)
  {
  }

  /** With all MAX_JOBS slots live, one more registration fails and leaves the table alone. */
  lemma AddWhenFull(t: Table, pgid: int, cmd: string)
    requires Inv(t)
    requires |LiveJobs(t.slots)| == MaxJobs
    ensures Add(t, pgid, cmd, Running, true) == (t, -1)
  {
    AllLiveWhenFull(t.slots);
  }

  lemma {:induction false} AllLiveWhenFull(s: seq<Job>)
    requires |LiveJobs(s)| == |s|
    ensures forall i :: 0 <= i < |s| ==> IsLive(s[i])
    decreases |s|
  {
    if s != [] {
      var init := s[..|s| - 1];
      assert |LiveJobs(init)| <= |init|;
      AllLiveWhenFull(init);
      assert forall i :: 0 <= i < |init| ==> s[i] == init[i];
    }
  }

  /**
   * A successful add_job writes the lowest free slot with the given pgid and
   * state, the command, and notified set iff the job is RUNNING; it returns the
   * old next_jid, increments next_jid, and leaves every other slot unchanged.
   */
  lemma AddFillsLowestFree(t: Table, pgid: int, cmd: string, state: JobState)
    requires pgid > 0
    requires exists i :: 0 <= i < |t.slots| && !IsLive(t.slots[i])
    ensures var (t', jid) := Add(t, pgid, cmd, state, true);
      var k := FirstMatch(t.slots, FreeSlot);
      && 0 <= k < |t.slots|
      && (forall i :: 0 <= i < k ==> IsLive(t.slots[i]))
      && !IsLive(t.slots[k])
      && jid == t.nextJid && t'.nextJid == t.nextJid + 1
      && |t'.slots| == |t.slots|
      && t'.slots[k] == Job(jid, pgid, state, Some(cmd), state == Running)
      && (forall i :: 0 <= i < |t.slots| && i != k ==> t'.slots[i] == t.slots[i])
  {
    var i :| 0 <= i < |t.slots| && !IsLive(t.slots[i]);
    assert Matches(t.slots[i], FreeSlot);
  }

  /** next_jid never decreases: a failed strdup still consumes an id, and ids are never handed out twice. */
  lemma AddNeverReusesIds(t: Table, pgid: int, cmd: string, state: JobState, dupOk: bool)
    ensures var (t', jid) := Add(t, pgid, cmd, state, dupOk);
      && t'.nextJid >= t.nextJid
      && (jid != -1 ==> jid == t.nextJid && t'.nextJid == jid + 1)
  {
  }

  lemma AddKeepsInv(t: Table, pgid: int, cmd: string, state: JobState, dupOk: bool)
    requires Inv(t)
    ensures Inv(Add(t, pgid, cmd, state, dupOk).0)
  {
  }

  /** remove_job_by_pgid: the first live slot with this pgid becomes an empty slot; true iff there was one. */
  function Remove(s: seq<Job>, pgid: int): (r: (seq<Job>, bool))
    ensures |r.0| == |s|
    ensures !r.1 ==> r.0 == s
    ensures r.1 ==> exists i :: 0 <= i < |s| && IsLive(s[i]) && s[i].pgid == pgid && r.0[i] == EmptySlot
  {
    var k := FirstMatch(s, ByPgid(pgid));
    if k == -1 then (s, false) else (s[k := EmptySlot], true)
  }

  /**
   * remove_job_by_pgid reports 1 iff a live slot has this pgid; that slot (the
   * lowest such) becomes INVALID with jid 0, pgid 0, a NULL command and
   * notified 0, and every other slot is unchanged.
   */
  lemma RemoveClearsFirstMatch(s: seq<Job>, pgid: int)
    ensures var (s', found) := Remove(s, pgid);
      && |s'| == |s|
      && (found <==> exists i :: 0 <= i < |s| && IsLive(s[i]) && s[i].pgid == pgid)
      && (!found ==> s' == s)
      && (found ==> var k := FirstMatch(s, ByPgid(pgid));
            s'[k] == EmptySlot && s[k].pgid == pgid && IsLive(s[k])
            && forall i :: 0 <= i < |s| && i != k ==> s'[i] == s[i])
  {
    var k := FirstMatch(s, ByPgid(pgid));
    if k == -1 {
      forall i | 0 <= i < |s| && IsLive(s[i]) ensures s[i].pgid != pgid {
        assert !Matches(s[i], ByPgid(pgid));
      }
    }
  }

  lemma RemoveKeepsInv(t: Table, pgid: int)
    requires Inv(t)
    ensures Inv(Table(Remove(t.slots, pgid).0, t.nextJid))
  {
  }

  // ---------------------------------------------------------------------
  // The SIGCHLD reaper
  // ---------------------------------------------------------------------

  /** Why waitpid reported a child: WIFEXITED, WIFSIGNALED or WIFSTOPPED. */
  datatype WaitStatus = Exited | Signaled | Suspended

  /** One reaped child: the pgid getpgid gave for it (<= 0 when that failed) and its status. */
  datatype ChildEvent = ChildEvent(pgid: int, status: WaitStatus)

  /** The same job in a slot: the reaper writes only `state` and `notified`. */
  predicate SameJob(a: Job, b: Job) {
    a.jid == b.jid && a.pgid == b.pgid && a.command == b.command
  }

  /**
   * handle_sigchld for one child: find the live job with that pgid; a
   * terminated job becomes INVALID with notified cleared (its command and jid
   * stay for the "Done" line), a stopped job becomes STOPPED with notified
   * cleared unless it already was STOPPED and reported.
   */
  function Reap(s: seq<Job>, pgid: int, status: WaitStatus): (r: seq<Job>)
    ensures |r| == |s|
    ensures forall i :: 0 <= i < |s| ==> SameJob(r[i], s[i])
  {
    var k := if pgid > 0 then FirstMatch(s, ByPgid(pgid)) else -1;
    if k == -1 then s
    else
      var j := s[k];
      match status
      case Exited => s[k := j.(state := Invalid, notified := false)]
      case Signaled => s[k := j.(state := Invalid, notified := false)]
      case Suspended =>
        if j.state != Stopped || !j.notified then s[k := j.(state := Stopped, notified := false)] else s
  }

  /** The reaper's drain loop: every reported child in order. */
  function ReapAll(s: seq<Job>, events: seq<ChildEvent>): (r: seq<Job>)
    ensures |r| == |s|
    ensures forall i :: 0 <= i < |s| ==> SameJob(r[i], s[i])
    decreases |events|
  {
    if events == [] then s
    else ReapAll(Reap(s, events[0].pgid, events[0].status), events[1..])
  }

  /** A child whose pgid is unknown or names no live job changes nothing. */
  lemma ReapUntracked(s: seq<Job>, pgid: int, status: WaitStatus)
    requires pgid <= 0 || forall i :: 0 <= i < |s| ==> !(IsLive(s[i]) && s[i].pgid == pgid)
    ensures Reap(s, pgid, status) == s
  {
    if pgid > 0 {
      assert forall i :: 0 <= i < |s| ==> !Matches(s[i], ByPgid(pgid));
    }
  }

  /**
   * A tracked job that exited or was killed becomes INVALID and unnotified but
   * keeps jid, pgid and command: no lookup finds it any more, yet it is a free
   * slot for add_job, and it is staged for exactly one "Done" line.
   */
  lemma ReapTerminated(s: seq<Job>, pgid: int, status: WaitStatus)
    requires pgid > 0 && status != Suspended
    requires FirstMatch(s, ByPgid(pgid)) != -1
    ensures var k := FirstMatch(s, ByPgid(pgid));
      var s' := Reap(s, pgid, status);
      && |s'| == |s|
      && s'[k] == s[k].(state := Invalid, notified := false)
      && (forall key :: key != FreeSlot ==> !Matches(s'[k], key))
      && Matches(s'[k], FreeSlot)
      && (s[k].command.Some? ==> PendingDone(s'[k]))
      && (forall i :: 0 <= i < |s| && i != k ==> s'[i] == s[i])
  {
  }

  /**
   * A tracked job that stopped becomes STOPPED with notified cleared, unless it
   * was already STOPPED and reported, in which case nothing changes.
   */
  lemma ReapStopped(s: seq<Job>, pgid: int)
    requires pgid > 0
    requires FirstMatch(s, ByPgid(pgid)) != -1
    ensures var k := FirstMatch(s, ByPgid(pgid));
      var s' := Reap(s, pgid, Suspended);
      && (s[k].state == Stopped && s[k].notified ==> s' == s)
      && (!(s[k].state == Stopped && s[k].notified) ==>
            s' == s[k := s[k].(state := Stopped, notified := false)] && PendingStop(s'[k]))
  {
  }

  lemma ReapKeepsInv(t: Table, pgid: int, status: WaitStatus)
    requires Inv(t)
    ensures Inv(Table(Reap(t.slots, pgid, status), t.nextJid))
  {
  }

  lemma {:induction false} ReapAllKeepsInv(t: Table, events: seq<ChildEvent>)
    requires Inv(t)
    ensures Inv(Table(ReapAll(t.slots, events), t.nextJid))
    decreases |events|
  {
    if events != [] {
      ReapKeepsInv(t, events[0].pgid, events[0].status);
      ReapAllKeepsInv(Table(Reap(t.slots, events[0].pgid, events[0].status), t.nextJid), events[1..]);
    }
  }

  // ---------------------------------------------------------------------
  // check_jobs_status: the notification drain
  // ---------------------------------------------------------------------

  datatype NoteKind = DoneNote | StoppedNote

  /** One "[jid] Done\tcommand" or "[jid] Stopped\tcommand" line. */
  datatype Notification = Notification(jid: int, command: Option<string>, kind: NoteKind)

  /** A reaped job whose "Done" line has not been printed. */
  predicate PendingDone(j: Job) {
    j.state == Invalid && j.command.Some? && !j.notified
  }

  /** A stopped job whose "Stopped" line has not been printed. */
  predicate PendingStop(j: Job) {
    j.state == Stopped && !j.notified
  }

  predicate Pending(j: Job) {
    PendingDone(j) || PendingStop(j)
  }

  /** One iteration of check_jobs_status's loop. */
  function DrainSlot(j: Job): (r: (Job, seq<Notification>))
    ensures !Pending(r.0)
    ensures |r.1| <= 1 && (r.1 == [] <==> !Pending(j))
    ensures IsLive(r.0) == IsLive(j)
  {
    if PendingDone(j) then
      (j.(command := None, notified := true, jid := 0, pgid := 0), [Notification(j.jid, j.command, DoneNote)])
    else if PendingStop(j) then
      (j.(notified := true), [Notification(j.jid, j.command, StoppedNote)])
    else (j, [])
  }

  /** check_jobs_status over the slots in index order: the new slots and the lines printed. */
  function Drain(s: seq<Job>): (r: (seq<Job>, seq<Notification>))
    ensures |r.0| == |s|
    ensures forall i :: 0 <= i < |s| ==> r.0[i] == DrainSlot(s[i]).0
    decreases |s|
  {
    if s == [] then ([], [])
    else
      var (a, n) := Drain(s[..|s| - 1]);
      var (j, m) := DrainSlot(s[|s| - 1]);
      (a + [j], n + m)
  }

  /** The number of slots with a line to report. */
  function PendingCount(s: seq<Job>): nat
    decreases |s|
  {
    if s == [] then 0
    else PendingCount(s[..|s| - 1]) + (if Pending(s[|s| - 1]) then 1 else 0)
  }

  /** Exactly one line per pending slot. */
  lemma {:induction false} DrainOneLinePerPending(s: seq<Job>)
    ensures |Drain(s).1| == PendingCount(s)
    decreases |s|
  {
    if s != [] {
      DrainOneLinePerPending(s[..|s| - 1]);
    }
  }

  /**
   * Each pending "Done" slot yields a Done line with its jid and command, and
   * the slot is left INVALID, notified, with jid 0, pgid 0 and no command;
   * each unreported STOPPED slot yields a Stopped line and is marked notified.
   */
  lemma {:induction false} DrainReportsPending(s: seq<Job>, i: nat)
    requires i < |s|
    ensures PendingDone(s[i]) ==>
      && Notification(s[i].jid, s[i].command, DoneNote) in Drain(s).1
      && Drain(s).0[i] == Job(0, 0, Invalid, None, true)
    ensures PendingStop(s[i]) ==>
      && Notification(s[i].jid, s[i].command, StoppedNote) in Drain(s).1
      && Drain(s).0[i] == s[i].(notified := true)
    ensures !Pending(s[i]) ==> Drain(s).0[i] == s[i]
    decreases |s|
  {
    if i < |s| - 1 {
      DrainReportsPending(s[..|s| - 1], i);
    }
  }

  /** A table with nothing pending drains to itself and prints nothing. */
  lemma {:induction false} DrainQuiet(s: seq<Job>)
    requires forall i :: 0 <= i < |s| ==> !Pending(s[i])
    ensures Drain(s) == (s, [])
    decreases |s|
  {
    if s != [] {
      var init := s[..|s| - 1];
      var last := s[|s| - 1];
      DrainQuiet(init);
      assert DrainSlot(last) == (last, []);
      assert Drain(s).0 == Drain(init).0 + [last] == s;
      assert Drain(s).1 == Drain(init).1 + [] == [];
    }
  }

  /**
   * The lines come in slot order: those of the slots before `i` precede those
   * of slot `i`, which precede those of the slots after it.
   */
  lemma {:induction false} DrainInOrder(s: seq<Job>, i: nat)
    requires i < |s|
    ensures Drain(s).1 == Drain(s[..i]).1 + DrainSlot(s[i]).1 + Drain(s[i + 1..]).1
    decreases |s|
  {
    var n := |s|;
    if i == n - 1 {
      assert s[..n - 1] == s[..i];
      assert s[i + 1..] == [];
    } else {
      DrainInOrder(s[..n - 1], i);
      assert s[..n - 1][..i] == s[..i];
      assert s[..n - 1][i + 1..] == s[i + 1..n - 1];
      assert s[i + 1..][..|s[i + 1..]| - 1] == s[i + 1..n - 1];
      assert s[i + 1..][|s[i + 1..]| - 1] == s[n - 1];
    }
  }

  /** Calling check_jobs_status a second time straight after the first prints nothing and changes nothing. */
  lemma DrainTwice(s: seq<Job>)
    ensures var s' := Drain(s).0; Drain(s') == (s', [])
  {
    var s' := Drain(s).0;
    forall i | 0 <= i < |s'| ensures !Pending(s'[i]) {
      assert s'[i] == DrainSlot(s[i]).0;
    }
    DrainQuiet(s');
  }

  lemma DrainKeepsInv(t: Table)
    requires Inv(t)
    ensures Inv(Table(Drain(t.slots).0, t.nextJid))
  {
  }

  // ---------------------------------------------------------------------
  // wait_for_job, put_job_in_foreground, put_job_in_background
  // ---------------------------------------------------------------------

  /** How the blocking waitpid on the job's group returned: with a status, or with an error. */
  datatype WaitResult = Reaped(status: WaitStatus) | WaitFailed

  /**
   * The job pointer these routines take: NULL, a slot of job_list, or the
   * temporary job_t a foreground launch builds on its stack (not in the table).
   */
  datatype JobRef = NoJob | TableJob(slot: nat) | Untracked(job: Job)

  predicate RefOk(s: seq<Job>, r: JobRef) {
    r.TableJob? ==> r.slot < |s|
  }

  function Deref(s: seq<Job>, r: JobRef): Job
    requires RefOk(s, r) && !r.NoJob?
  {
    if r.TableJob? then s[r.slot] else r.job
  }

  /** Writing through a job reference: only a table slot is part of the table. */
  function Store(s: seq<Job>, r: JobRef, j: Job): seq<Job>
    requires RefOk(s, r)
  {
    if r.TableJob? then s[r.slot := j] else s
  }

  /**
   * wait_for_job's bookkeeping once waitpid returns: a terminated group, or a
   * failed wait, removes the live job with the job's pgid; a stopped group marks
   * the job STOPPED and unreported.
   */
  function WaitForJob(s: seq<Job>, r: JobRef, res: WaitResult): (s': seq<Job>)
    requires RefOk(s, r)
    ensures |s'| == |s|
    ensures forall i :: 0 <= i < |s| ==>
      s'[i] == s[i] || s'[i] == EmptySlot || s'[i] == s[i].(state := Stopped, notified := false)
  {
    if r.NoJob? then s
    else
      var j := Deref(s, r);
      if j.pgid <= 0 || j.state == Invalid then s
      else if res == Reaped(Suspended) then Store(s, r, j.(state := Stopped, notified := false))
      else Remove(s, j.pgid).0
  }

  /**
   * put_job_in_foreground: on an interactive shell and a live job, mark it
   * RUNNING and reported, send SIGCONT when `cont` is set (the second result),
   * then wait for it.
   */
  function Foreground(s: seq<Job>, r: JobRef, cont: bool, interactive: bool, res: WaitResult): (f: (seq<Job>, bool))
    requires RefOk(s, r)
    ensures |f.0| == |s|
    ensures f.1 ==> cont && interactive
  {
    if r.NoJob? || !interactive || Deref(s, r).state == Invalid then (s, false)
    else
      var j := Deref(s, r).(state := Running, notified := true);
      var r' := if r.Untracked? then Untracked(j) else r;
      (WaitForJob(Store(s, r, j), r', res), cont)
  }

  /** What put_job_in_background did: nothing, the "already running" message, or a resume. */
  datatype BgOutcome = NotResumed | AlreadyRunning(jid: int) | Continued(signalSent: bool, reverted: bool)

  /**
   * put_job_in_background: a RUNNING job only gets a message; a STOPPED job
   * becomes RUNNING and reported, and goes back to STOPPED if the SIGCONT
   * fails (`killOk` is the result of kill).
   */
  function Background(s: seq<Job>, r: JobRef, cont: bool, killOk: bool): (b: (seq<Job>, BgOutcome))
    requires RefOk(s, r)
    ensures |b.0| == |s|
    ensures forall i :: 0 <= i < |s| && !(r.TableJob? && i == r.slot) ==> b.0[i] == s[i]
    ensures b.0 != s ==> b.1.Continued?
  {
    if r.NoJob? || Deref(s, r).state == Invalid then (s, NotResumed)
    else
      var j := Deref(s, r);
      if j.state == Running then (s, AlreadyRunning(j.jid))
      else
        var j' := j.(state := if cont && !killOk then Stopped else Running, notified := true);
        (Store(s, r, j'), Continued(cont, cont && !killOk))
  }

  /** bg on a RUNNING job changes nothing and sends no signal; on a STOPPED one it resumes it. */
  lemma BackgroundCases(s: seq<Job>, i: nat, cont: bool, killOk: bool)
    requires i < |s| && IsLive(s[i])
    ensures var (s', out) := Background(s, TableJob(i), cont, killOk);
      && (s[i].state == Running ==> s' == s && out == AlreadyRunning(s[i].jid))
      && (s[i].state == Stopped ==>
            && out == Continued(cont, cont && !killOk)
            && s'[i].notified
            && (s'[i].state == Running <==> !cont || killOk)
            && (s'[i].state == Stopped <==> cont && !killOk)
            && s' == s[i := s'[i]])
  {
  }

  /**
   * A NULL pointer or an INVALID job is left alone by all three routines;
   * put_job_in_foreground also does nothing on a shell without job control,
   * and wait_for_job nothing for a pgid that is not positive.
   */
  lemma DeadJobIgnored(s: seq<Job>, r: JobRef, cont: bool, killOk: bool, interactive: bool, res: WaitResult)
    requires RefOk(s, r)
    ensures (r.NoJob? || Deref(s, r).state == Invalid) ==>
      && Background(s, r, cont, killOk) == (s, NotResumed)
      && Foreground(s, r, cont, interactive, res) == (s, false)
      && WaitForJob(s, r, res) == s
    ensures !interactive ==> Foreground(s, r, cont, interactive, res) == (s, false)
    ensures !r.NoJob? && Deref(s, r).pgid <= 0 ==> WaitForJob(s, r, res) == s
  {
  }

  /**
   * fg on a table job: it becomes RUNNING and reported, and SIGCONT goes out
   * iff asked for. If the group stops, the job is STOPPED and staged for a
   * "Stopped" line. Otherwise the first live slot with the job's pgid is
   * emptied; when no other live slot shares that pgid, this is the job itself,
   * and its jid no longer resolves.
   */
  lemma ForegroundOutcome(t: Table, i: nat, cont: bool, res: WaitResult)
    requires Inv(t) && i < |t.slots| && IsLive(t.slots[i])
    ensures var (s', sent) := Foreground(t.slots, TableJob(i), cont, true, res);
      && sent == cont
      && (res == Reaped(Suspended) ==>
            s' == t.slots[i := t.slots[i].(state := Stopped, notified := false)])
      && (res != Reaped(Suspended) ==>
            s' == Remove(t.slots[i := t.slots[i].(state := Running, notified := true)], t.slots[i].pgid).0)
      && (res != Reaped(Suspended) &&
          (forall m :: 0 <= m < |t.slots| && m != i && IsLive(t.slots[m]) ==> t.slots[m].pgid != t.slots[i].pgid) ==>
            FirstMatch(s', ByJid(t.slots[i].jid)) == -1 && |LiveJobs(s')| < |LiveJobs(t.slots)|)
  {
    var s := t.slots;
    var j := s[i].(state := Running, notified := true);
    var s1 := s[i := j];
    if res != Reaped(Suspended) &&
       (forall m :: 0 <= m < |s| && m != i && IsLive(s[m]) ==> s[m].pgid != s[i].pgid) {
      var k := FirstMatch(s1, ByPgid(j.pgid));
      assert Matches(s1[i], ByPgid(j.pgid));
      assert k == i;
      var s' := s1[k := EmptySlot];
      forall m | 0 <= m < |s'| ensures !Matches(s'[m], ByJid(s[i].jid)) {
        if m != i && IsLive(s'[m]) {
          assert s'[m] == s[m];
        }
      }
      LiveJobsShrinks(s1, k);
      LiveJobsSameCount(s, s1);
    }
  }

  /** The length of the listing depends only on which slots are live. */
  lemma {:induction false} LiveJobsSameCount(s: seq<Job>, u: seq<Job>)
    requires |s| == |u|
    requires forall i :: 0 <= i < |s| ==> IsLive(s[i]) == IsLive(u[i])
    ensures |LiveJobs(s)| == |LiveJobs(u)|
    decreases |s|
  {
    if s != [] {
      LiveJobsSameCount(s[..|s| - 1], u[..|u| - 1]);
    }
  }

  /** Emptying a live slot shortens the listing. */
  lemma {:induction false} LiveJobsShrinks(s: seq<Job>, k: nat)
    requires k < |s| && IsLive(s[k])
    ensures |LiveJobs(s[k := EmptySlot])| < |LiveJobs(s)|
    decreases |s|
  {
    var u := s[k := EmptySlot];
    var n := |s| - 1;
    if k < n {
      assert |LiveJobs(u[..n])| < |LiveJobs(s[..n])| by {
        LiveJobsShrinks(s[..n], k);
        assert u[..n] == s[..n][k := EmptySlot];
      }
      assert u[n] == s[n];
    } else {
      assert |LiveJobs(u[..n])| == |LiveJobs(s[..n])| by {
        assert u[..n] == s[..n];
      }
      assert !IsLive(u[n]) && IsLive(s[n]);
    }
  }

  lemma WaitForJobKeepsInv(t: Table, r: JobRef, res: WaitResult)
    requires Inv(t) && RefOk(t.slots, r)
    ensures Inv(Table(WaitForJob(t.slots, r, res), t.nextJid))
  {
  }

  lemma ForegroundKeepsInv(t: Table, r: JobRef, cont: bool, interactive: bool, res: WaitResult)
    requires Inv(t) && RefOk(t.slots, r)
    ensures Inv(Table(Foreground(t.slots, r, cont, interactive, res).0, t.nextJid))
  {
    if !r.NoJob? && interactive && Deref(t.slots, r).state != Invalid {
      var j := Deref(t.slots, r).(state := Running, notified := true);
      var r' := if r.Untracked? then Untracked(j) else r;
      var t1 := Table(Store(t.slots, r, j), t.nextJid);
      assert Inv(t1);
      WaitForJobKeepsInv(t1, r', res);
    }
  }

  lemma BackgroundKeepsInv(t: Table, r: JobRef, cont: bool, killOk: bool)
    requires Inv(t) && RefOk(t.slots, r)
    ensures Inv(Table(Background(t.slots, r, cont, killOk).0, t.nextJid))
  {
  }

  // ---------------------------------------------------------------------
  // Life cycle of one background job
  // ---------------------------------------------------------------------

  /**
   * A background job registered with add_job, reaped after it exits and then
   * drained is reported once as "Done" with its id and command, no lookup finds
   * its id afterwards, and the `jobs` listing is what draining the original
   * table would list; its id is not handed out again.
   */
  lemma BackgroundJobLifeCycle(t: Table, pgid: int, cmd: string)
    requires Inv(t) && pgid > 0
    requires forall i :: 0 <= i < |t.slots| ==> !(IsLive(t.slots[i]) && t.slots[i].pgid == pgid)
    requires exists i :: 0 <= i < |t.slots| && !IsLive(t.slots[i])
    ensures var (t1, jid) := Add(t, pgid, cmd, Running, true);
      var (s3, notes) := Drain(Reap(t1.slots, pgid, Exited));
      && jid == t.nextJid
      && Notification(jid, Some(cmd), DoneNote) in notes
      && FirstMatch(s3, ByJid(jid)) == -1
      && LiveJobs(s3) == LiveJobs(Drain(t.slots).0)
      && t1.nextJid > jid
  {
    AddFillsLowestFree(t, pgid, cmd, Running);
    var (t1, jid) := Add(t, pgid, cmd, Running, true);
    var k := FirstMatch(t.slots, FreeSlot);
    assert FirstMatch(t1.slots, ByPgid(pgid)) == k by {
      assert Matches(t1.slots[k], ByPgid(pgid));
      forall i | 0 <= i < k ensures !Matches(t1.slots[i], ByPgid(pgid)) {
        assert t1.slots[i] == t.slots[i];
      }
    }
    var s2 := Reap(t1.slots, pgid, Exited);
    assert s2[k] == t1.slots[k].(state := Invalid, notified := false);
    DrainReportsPending(s2, k);
    var s3 := Drain(s2).0;
    var d := Drain(t.slots).0;
    forall i | 0 <= i < |s3| ensures !Matches(s3[i], ByJid(jid)) {
      if i != k && IsLive(s3[i]) {
        assert s3[i] == DrainSlot(s2[i]).0 == DrainSlot(t.slots[i]).0;
        assert s3[i].jid == t.slots[i].jid;
      }
    }
    forall i | 0 <= i < |s3| ensures IsLive(s3[i]) == IsLive(d[i]) && (IsLive(s3[i]) ==> s3[i] == d[i]) {
      if i != k {
        assert s2[i] == t.slots[i];
      }
    }
    LiveJobsAgree(s3, d);
  }

  /**
   * The reaper as written asks getpgid for the group of a child that waitpid
   * has already reaped, so for an exited child it gets -1 and the update is
   * never made: a background job that exits stays live and RUNNING in its
   * slot, is still found by its id and listed, and the drain prints no line
   * for it; the lines printed are only those of the other slots.
   */
  lemma ExitedJobNeverReported(t: Table, pgid: int, cmd: string, failed: int)
    requires Inv(t) && pgid > 0 && failed <= 0
    requires exists i :: 0 <= i < |t.slots| && !IsLive(t.slots[i])
    ensures var (t1, jid) := Add(t, pgid, cmd, Running, true);
      var k := FirstMatch(t.slots, FreeSlot);
      var (s3, notes) := Drain(Reap(t1.slots, failed, Exited));
      && 0 <= k < |s3|
      && s3[k] == Job(jid, pgid, Running, Some(cmd), true)
      && FirstMatch(s3, ByJid(jid)) == k
      && s3[k] in LiveJobs(s3)
      && notes == Drain(t1.slots[..k]).1 + Drain(t1.slots[k + 1..]).1
  {
    AddFillsLowestFree(t, pgid, cmd, Running);
    AddKeepsInv(t, pgid, cmd, Running, true);
    var t1 := Add(t, pgid, cmd, Running, true).0;
    ReapUntracked(t1.slots, failed, Exited);
    DrainKeepsReportedJob(t1, FirstMatch(t.slots, FreeSlot));
  }

  /** A slot with nothing to report is left as it is and adds no line between those of its neighbours. */
  lemma {:induction false} DrainSkipsQuietSlot(s: seq<Job>, k: nat)
    requires k < |s| && !Pending(s[k])
    ensures Drain(s).0[k] == s[k]
    ensures Drain(s).1 == Drain(s[..k]).1 + Drain(s[k + 1..]).1
  {
    var quiet := DrainSlot(s[k]);
    assert quiet == (s[k], []);
    DrainInOrder(s, k);
    var before, after := Drain(s[..k]).1, Drain(s[k + 1..]).1;
    assert before + quiet.1 + after == before + after;
  }

  /** A live, RUNNING, already reported job survives the drain: still found by its id, listed, and silent. */
  lemma {:induction false} DrainKeepsReportedJob(t: Table, k: nat)
    requires Inv(t) && k < |t.slots| && IsLive(t.slots[k])
    requires t.slots[k].state == Running && t.slots[k].notified
    ensures Drain(t.slots).0[k] == t.slots[k]
    ensures FirstMatch(Drain(t.slots).0, ByJid(t.slots[k].jid)) == k
    ensures t.slots[k] in LiveJobs(Drain(t.slots).0)
    ensures Drain(t.slots).1 == Drain(t.slots[..k]).1 + Drain(t.slots[k + 1..]).1
  {
    DrainSkipsQuietSlot(t.slots, k);
    var s' := Drain(t.slots).0;
    DrainKeepsInv(t);
    JidLookupUnique(Table(s', t.nextJid), k);
    LiveJobsMembers(s', t.slots[k]);
  }

  /**
   * A reaped job that is still waiting for its "Done" line counts as a free slot:
   * if add_job takes that slot, the line is never printed.
   */
  lemma AddOverwritesPendingDone(t: Table, pgid: int, cmd: string)
    requires pgid > 0
    requires FirstMatch(t.slots, FreeSlot) != -1
    requires PendingDone(t.slots[FirstMatch(t.slots, FreeSlot)])
    ensures var k := FirstMatch(t.slots, FreeSlot);
      var t1 := Add(t, pgid, cmd, Running, true).0;
      && t1.slots[k].jid == t.nextJid
      && !Pending(t1.slots[k])
      && DrainSlot(t1.slots[k]).1 == []
  {
  }
}
