/**
 * The shell's job table as the C code keeps it: the global array job_list of
 * MAX_JOBS slots and the counter next_jid, updated in place. Every method is
 * proved against the specification function of the Jobs module it implements,
 * and the mutating ones keep the table invariant Jobs.Inv.
 */
module JobControl {
  import opened Wrappers
  import opened Jobs
  import CStrings
  import CommandLine

  /** What fg or bg reports before it touches a job, or the job it resumes. */
  datatype JobCommandOutcome =
    | NoJobControl                                 // the shell is not interactive
    | BadArgument(error: CommandLine.JobArgError)  // usage error or invalid id
    | NoSuchJob(jid: int)                          // no live job has the id
    | Resumed(jid: int, command: Option<string>)   // the job line printed before resuming

  /** The checks fg and bg make on their argument, in order; Ok is the slot of the job named. */
  function ResolveJob(s: seq<Job>, args: seq<string>, interactive: bool): (r: Result<nat, JobCommandOutcome>)
    ensures r.Ok? ==> r.value < |s|
  {
    if !interactive then Err(NoJobControl)
    else
      match CommandLine.JobArg(args)
      case Err(e) => Err(BadArgument(e))
      case Ok(jid) =>
        var k := FirstMatch(s, ByJid(jid));
        if k == -1 then Err(NoSuchJob(jid)) else Ok(k)
  }

  /**
   * fg and bg act on a live job exactly when the shell is interactive, the
   * argument is `%` followed by a positive id, and a live job has that id; the
   * job acted on is the lowest slot with it. Otherwise the outcome names the
   * first check that failed.
   */
  lemma ResolveJobCases(s: seq<Job>, args: seq<string>, interactive: bool)
    ensures var r := ResolveJob(s, args, interactive);
      && (r.Ok? <==>
            && interactive && CommandLine.JobArg(args).Ok?
            && exists i :: 0 <= i < |s| && IsLive(s[i]) && s[i].jid == CommandLine.JobArg(args).value)
      && (r.Ok? ==>
            && IsLive(s[r.value]) && s[r.value].jid == CommandLine.JobArg(args).value
            && forall i :: 0 <= i < r.value ==> !(IsLive(s[i]) && s[i].jid == s[r.value].jid))
      && (!interactive ==> r == Err(NoJobControl))
      && (interactive && CommandLine.JobArg(args).Err? ==> r == Err(BadArgument(CommandLine.JobArg(args).error)))
  {
    var r := ResolveJob(s, args, interactive);
    if interactive && CommandLine.JobArg(args).Ok? {
      var jid := CommandLine.JobArg(args).value;
      if r.Err? {
        forall i | 0 <= i < |s| ensures !(IsLive(s[i]) && s[i].jid == jid) {
          assert !Matches(s[i], ByJid(jid));
        }
      } else {
        forall i | 0 <= i < r.value ensures !(IsLive(s[i]) && s[i].jid == jid) {
          assert !Matches(s[i], ByJid(jid));
        }
      }
    }
  }

  /** On a well-formed table, `%n` names the live job with id n. */
  lemma ResolveJobById(t: Table, args: seq<string>, i: nat)
    requires Inv(t) && i < |t.slots| && IsLive(t.slots[i])
    requires |args| >= 2 && args[1] == ['%'] + CStrings.Decimal(t.slots[i].jid)
    ensures ResolveJob(t.slots, args, true) == Ok(i)
  {
    CommandLine.JobArgAccepts(args, t.slots[i].jid);
    JidLookupUnique(t, i);
  }

  class JobTable {
    /** job_list. */
    const slots: array<Job>
    /** next_jid: the id the next added job receives. */
    var nextJid: int

    ghost predicate Valid()
      reads this
    {
      slots.Length == MaxJobs
    }

    /** The table as a value, as the Jobs functions take it. */
    ghost function Model(): Table
      reads this, slots
    {
      Table(slots[..], nextJid)
    }

    /** The zero-initialised globals: every slot all zero (INVALID), next_jid 1. */
    constructor ()
      ensures Valid() && fresh(slots)
      ensures Model() == Table(seq(MaxJobs, _ => EmptySlot), 1)
      ensures Inv(Model())
    {
      slots := new Job[MaxJobs](_ => EmptySlot);
      nextJid := 1;
      new;
      assert slots[..] == seq(MaxJobs, _ => EmptySlot);
    }

    /** init_jobs: every slot INVALID with no command; next_jid back to 1. */
    method InitJobs()
      requires Valid()
      modifies this, slots
      ensures Valid()
      ensures Model() == Init(old(Model()))
      ensures Inv(Model()) && LiveJobs(slots[..]) == []
    {
      for i := 0 to slots.Length
        invariant forall k :: 0 <= k < i ==> slots[k] == old(slots[k]).(state := Invalid, command := None)
        invariant forall k :: i <= k < slots.Length ==> slots[k] == old(slots[k])
      {
        slots[i] := slots[i].(state := Invalid, command := None);
      }
      nextJid := 1;
      assert slots[..] == Init(old(Model())).slots;
      InitEmpties(old(Model()));
    }

    /** The loop the find_* routines share: the first slot matching `key`, or -1. */
    method FindSlot(key: Key) returns (slot: int)
      ensures slot == FirstMatch(slots[..], key)
    {
      for i := 0 to slots.Length
        invariant forall k :: 0 <= k < i ==> !Matches(slots[k], key)
      {
        if Matches(slots[i], key) {
          return i;
        }
      }
      return -1;
    }

    /** find_free_job_slot: the lowest INVALID slot, and -1 exactly when every slot is live. */
    method FindFreeJobSlot() returns (slot: int)
      ensures -1 <= slot < slots.Length
      ensures slot == -1 <==> forall i :: 0 <= i < slots.Length ==> IsLive(slots[i])
      ensures slot != -1 ==> !IsLive(slots[slot]) && forall i :: 0 <= i < slot ==> IsLive(slots[i])
    {
      slot := FindSlot(FreeSlot);
    }

    /** find_job_slot_by_jid: the lowest live slot with this jid, and -1 exactly when there is none. */
    method FindJobSlotByJid(jid: int) returns (slot: int)
      ensures -1 <= slot < slots.Length
      ensures slot == -1 <==> forall i :: 0 <= i < slots.Length ==> !(IsLive(slots[i]) && slots[i].jid == jid)
      ensures slot != -1 ==>
        IsLive(slots[slot]) && slots[slot].jid == jid &&
        forall i :: 0 <= i < slot ==> !(IsLive(slots[i]) && slots[i].jid == jid)
    {
      slot := FindSlot(ByJid(jid));
      assert forall i :: 0 <= i < slots.Length ==> (Matches(slots[i], ByJid(jid)) <==> IsLive(slots[i]) && slots[i].jid == jid);
    }

    /** find_job_slot_by_pgid: the lowest live slot with this pgid, and -1 exactly when there is none. */
    method FindJobSlotByPgid(pgid: int) returns (slot: int)
      ensures -1 <= slot < slots.Length
      ensures slot == -1 <==> forall i :: 0 <= i < slots.Length ==> !(IsLive(slots[i]) && slots[i].pgid == pgid)
      ensures slot != -1 ==>
        IsLive(slots[slot]) && slots[slot].pgid == pgid &&
        forall i :: 0 <= i < slot ==> !(IsLive(slots[i]) && slots[i].pgid == pgid)
    {
      slot := FindSlot(ByPgid(pgid));
      assert forall i :: 0 <= i < slots.Length ==> (Matches(slots[i], ByPgid(pgid)) <==> IsLive(slots[i]) && slots[i].pgid == pgid);
    }

    /** get_job_by_jid: a pointer to the slot find_job_slot_by_jid finds, NULL exactly when it finds none. */
    method GetJobByJid(jid: int) returns (job: JobRef)
      ensures job == if FirstMatch(slots[..], ByJid(jid)) == -1 then NoJob else TableJob(FirstMatch(slots[..], ByJid(jid)))
      ensures job.NoJob? <==> forall i :: 0 <= i < slots.Length ==> !(IsLive(slots[i]) && slots[i].jid == jid)
    {
      var slot := FindJobSlotByJid(jid);
      job := if slot != -1 then TableJob(slot) else NoJob;
    }

    /** get_job_by_pgid: a pointer to the slot find_job_slot_by_pgid finds, NULL exactly when it finds none. */
    method GetJobByPgid(pgid: int) returns (job: JobRef)
      ensures job == if FirstMatch(slots[..], ByPgid(pgid)) == -1 then NoJob else TableJob(FirstMatch(slots[..], ByPgid(pgid)))
      ensures job.NoJob? <==> forall i :: 0 <= i < slots.Length ==> !(IsLive(slots[i]) && slots[i].pgid == pgid)
    {
      var slot := FindJobSlotByPgid(pgid);
      job := if slot != -1 then TableJob(slot) else NoJob;
    }

    /** add_job; `dupOk` is whether strdup of the command succeeded. */
    method AddJob(pgid: int, cmd: string, state: JobState, dupOk: bool) returns (jid: int)
      requires Valid()
      modifies this, slots
      ensures Valid()
      ensures (Model(), jid) == Add(old(Model()), pgid, cmd, state, dupOk)
      ensures old(Inv(Model())) ==> Inv(Model())
    {
      ghost var before := Model();
      if pgid <= 0 {
        return -1;
      }
      var slot := FindFreeJobSlot();
      if slot == -1 {
        return -1;
      }
      jid := nextJid;
      nextJid := nextJid + 1;
      slots[slot] := Job(jid, pgid, state, if dupOk then Some(cmd) else None, state == Running);
      if !dupOk {
        slots[slot] := slots[slot].(state := Invalid);
        jid := -1;
      }
      ghost var j := Job(before.nextJid, pgid, state, if dupOk then Some(cmd) else None, state == Running);
      assert slots[..] == before.slots[slot := if dupOk then j else j.(state := Invalid)];
      assert Add(before, pgid, cmd, state, dupOk).0 == Model();
      if Inv(before) {
        AddKeepsInv(before, pgid, cmd, state, dupOk);
      }
    }

    /** remove_job_by_pgid: true for the C result 1. */
    method RemoveJobByPgid(pgid: int) returns (removed: bool)
      modifies slots
      ensures (slots[..], removed) == Remove(old(slots[..]), pgid)
      ensures old(Inv(Model())) ==> Inv(Model())
    {
      ghost var before := Model();
      var slot := FindJobSlotByPgid(pgid);
      if slot == -1 {
        return false;
      }
      slots[slot] := EmptySlot;
      removed := true;
      if Inv(before) {
        RemoveKeepsInv(before, pgid);
      }
    }

    /** list_jobs: the lines printed, and whether "No active jobs." follows. */
    method ListJobs(interactive: bool) returns (listing: seq<Job>, noActiveJobs: bool)
      ensures listing == LiveJobs(slots[..])
      ensures noActiveJobs <==> listing == [] && interactive
    {
      var found := false;
      listing := [];
      for i := 0 to slots.Length
        invariant listing == LiveJobs(slots[..i])
        invariant found <==> listing != []
      {
        assert slots[..i + 1][..i] == slots[..i];
        if slots[i].state != Invalid {
          found := true;
          listing := listing + [slots[i]];
        }
      }
      assert slots[..slots.Length] == slots[..];
      noActiveJobs := !found && interactive;
    }

    /** check_jobs_status: the "Done" and "Stopped" lines in slot order. */
    method CheckJobsStatus() returns (notes: seq<Notification>)
      modifies slots
      ensures (slots[..], notes) == Drain(old(slots[..]))
      ensures old(Inv(Model())) ==> Inv(Model())
    {
      ghost var before := Model();
      ghost var s := slots[..];
      notes := [];
      for i := 0 to slots.Length
        invariant forall k :: 0 <= k < i ==> slots[k] == DrainSlot(s[k]).0
        invariant forall k :: i <= k < slots.Length ==> slots[k] == s[k]
        invariant notes == Drain(s[..i]).1
      {
        assert s[..i + 1][..i] == s[..i];
        var j := slots[i];
        if j.state == Invalid && j.command.Some? && !j.notified {
          notes := notes + [Notification(j.jid, j.command, DoneNote)];
          slots[i] := j.(command := None, notified := true, jid := 0, pgid := 0);
        } else if j.state == Stopped && !j.notified {
          notes := notes + [Notification(j.jid, j.command, StoppedNote)];
          slots[i] := j.(notified := true);
        }
      }
      assert s[..slots.Length] == s;
      assert slots[..] == Drain(s).0;
      if Inv(before) {
        DrainKeepsInv(before);
      }
    }

    /** handle_sigchld's update for one reaped child, given the pgid getpgid returned for it. */
    method ReapChild(pgid: int, status: WaitStatus)
      modifies slots
      ensures slots[..] == Reap(old(slots[..]), pgid, status)
      ensures old(Inv(Model())) ==> Inv(Model())
    {
      ghost var before := Model();
      var job := NoJob;
      if pgid > 0 {
        job := GetJobByPgid(pgid);
      }
      if job.TableJob? {
        var k := job.slot;
        if status == Exited || status == Signaled {
          slots[k] := slots[k].(state := Invalid, notified := false);
        } else if slots[k].state != Stopped || !slots[k].notified {
          slots[k] := slots[k].(state := Stopped, notified := false);
        }
      }
      if Inv(before) {
        ReapKeepsInv(before, pgid, status);
      }
    }

    /** handle_sigchld: the waitpid loop over every child reported, as one atomic step. */
    method HandleSigchld(events: seq<ChildEvent>)
      modifies slots
      ensures slots[..] == ReapAll(old(slots[..]), events)
      ensures old(Inv(Model())) ==> Inv(Model())
    {
      ghost var before := Model();
      var n := 0;
      while n < |events|
        invariant n <= |events|
        invariant ReapAll(slots[..], events[n..]) == ReapAll(old(slots[..]), events)
      {
        assert events[n..][1..] == events[n + 1..];
        ReapChild(events[n].pgid, events[n].status);
        n := n + 1;
      }
      assert events[n..] == [];
      if Inv(before) {
        ReapAllKeepsInv(before, events);
      }
    }

    /** wait_for_job's bookkeeping once waitpid returned `res`. */
    method WaitForJob(job: JobRef, res: WaitResult)
      requires RefOk(slots[..], job)
      modifies slots
      ensures slots[..] == Jobs.WaitForJob(old(slots[..]), job, res)
      ensures old(Inv(Model())) ==> Inv(Model())
    {
      ghost var before := Model();
      if job.NoJob? {
        return;
      }
      var j := if job.TableJob? then slots[job.slot] else job.job;
      if j.pgid <= 0 || j.state == Invalid {
        return;
      }
      match res {
        case Reaped(status) =>
          if status == Exited || status == Signaled {
            var _ := RemoveJobByPgid(j.pgid);
          } else if job.TableJob? {
            slots[job.slot] := j.(state := Stopped, notified := false);
          }
        case WaitFailed =>
          var _ := RemoveJobByPgid(j.pgid);
      }
      if Inv(before) {
        WaitForJobKeepsInv(before, job, res);
      }
    }

    /** put_job_in_foreground; the result is whether SIGCONT was sent. */
    method PutJobInForeground(job: JobRef, cont: bool, interactive: bool, res: WaitResult) returns (sentCont: bool)
      requires RefOk(slots[..], job)
      modifies slots
      ensures (slots[..], sentCont) == Foreground(old(slots[..]), job, cont, interactive, res)
      ensures old(Inv(Model())) ==> Inv(Model())
    {
      ghost var before := Model();
      if job.NoJob? || !interactive {
        return false;
      }
      var j := if job.TableJob? then slots[job.slot] else job.job;
      if j.state == Invalid {
        return false;
      }
      j := j.(state := Running, notified := true);
      var target := job;
      if job.TableJob? {
        slots[job.slot] := j;
      } else {
        target := Untracked(j);
      }
      sentCont := cont;
      WaitForJob(target, res);
      if Inv(before) {
        ForegroundKeepsInv(before, job, cont, interactive, res);
      }
    }

    /** put_job_in_background; `killOk` is whether kill(SIGCONT) succeeded. */
    method PutJobInBackground(job: JobRef, cont: bool, killOk: bool) returns (outcome: BgOutcome)
      requires RefOk(slots[..], job)
      modifies slots
      ensures (slots[..], outcome) == Background(old(slots[..]), job, cont, killOk)
      ensures old(Inv(Model())) ==> Inv(Model())
    {
      ghost var before := Model();
      if job.NoJob? {
        return NotResumed;
      }
      var j := if job.TableJob? then slots[job.slot] else job.job;
      if j.state == Invalid {
        return NotResumed;
      }
      if j.state == Running {
        return AlreadyRunning(j.jid);
      }
      j := j.(state := Running, notified := true);
      var reverted := false;
      if cont && !killOk {
        j := j.(state := Stopped);
        reverted := true;
      }
      if job.TableJob? {
        slots[job.slot] := j;
      }
      outcome := Continued(cont, reverted);
      if Inv(before) {
        BackgroundKeepsInv(before, job, cont, killOk);
      }
    }

    /** The `jobs` built-in: report pending changes (interactive shells only), then list. */
    method JobsBuiltin(interactive: bool) returns (notes: seq<Notification>, listing: seq<Job>, noActiveJobs: bool)
      modifies slots
      ensures interactive ==> (slots[..], notes) == Drain(old(slots[..]))
      ensures !interactive ==> slots[..] == old(slots[..]) && notes == []
      ensures listing == LiveJobs(slots[..])
      ensures noActiveJobs <==> listing == [] && interactive
      ensures old(Inv(Model())) ==> Inv(Model())
    {
      notes := [];
      if interactive {
        notes := CheckJobsStatus();
      }
      listing, noActiveJobs := ListJobs(interactive);
    }

    /** The `fg` built-in; `res` is what waitpid reports for the job. */
    method Fg(args: seq<string>, interactive: bool, res: WaitResult) returns (outcome: JobCommandOutcome, sentCont: bool)
      requires Valid()
      modifies slots
      ensures match ResolveJob(old(slots[..]), args, interactive)
        case Err(e) => outcome == e && slots[..] == old(slots[..]) && !sentCont
        case Ok(k) =>
          && outcome == Resumed(old(slots[k]).jid, old(slots[k]).command)
          && (slots[..], sentCont) == Foreground(old(slots[..]), TableJob(k), old(slots[k]).state == Stopped, true, res)
      ensures old(Inv(Model())) ==> Inv(Model())
    {
      if !interactive {
        return NoJobControl, false;
      }
      match CommandLine.JobArg(args) {
        case Err(e) =>
          return BadArgument(e), false;
        case Ok(jid) =>
          var job := GetJobByJid(jid);
          if job.NoJob? {
            return NoSuchJob(jid), false;
          }
          var j := slots[job.slot];
          outcome := Resumed(j.jid, j.command);
          sentCont := PutJobInForeground(job, j.state == Stopped, interactive, res);
      }
    }

    /** The `bg` built-in; `killOk` is whether kill(SIGCONT) succeeded. */
    method Bg(args: seq<string>, interactive: bool, killOk: bool) returns (outcome: JobCommandOutcome, resumed: BgOutcome)
      requires Valid()
      modifies slots
      ensures match ResolveJob(old(slots[..]), args, interactive)
        case Err(e) => outcome == e && slots[..] == old(slots[..]) && resumed == NotResumed
        case Ok(k) =>
          && outcome == Resumed(old(slots[k]).jid, old(slots[k]).command)
          && (slots[..], resumed) == Background(old(slots[..]), TableJob(k), true, killOk)
      ensures old(Inv(Model())) ==> Inv(Model())
    {
      if !interactive {
        return NoJobControl, NotResumed;
      }
      match CommandLine.JobArg(args) {
        case Err(e) =>
          return BadArgument(e), NotResumed;
        case Ok(jid) =>
          var job := GetJobByJid(jid);
          if job.NoJob? {
            return NoSuchJob(jid), NotResumed;
          }
          var j := slots[job.slot];
          outcome := Resumed(j.jid, j.command);
          resumed := PutJobInBackground(job, true, killOk);
      }
    }

    /** A background launch: an interactive shell records the child's group as a RUNNING job; the id is printed when positive. */
    method LaunchBackground(pgid: int, cmd: string, interactive: bool, dupOk: bool) returns (jid: int)
      requires Valid()
      modifies this, slots
      ensures Valid()
      ensures interactive ==> (Model(), jid) == Add(old(Model()), pgid, cmd, Running, dupOk)
      ensures !interactive ==> Model() == old(Model()) && jid == -1
      ensures old(Inv(Model())) ==> Inv(Model())
    {
      jid := -1;
      if interactive && pgid > 0 {
        jid := AddJob(pgid, cmd, Running, dupOk);
      }
    }

    /**
     * A foreground launch: the job is a temporary record outside the table
     * (jid 0, RUNNING), handed to put_job_in_foreground without SIGCONT.
     */
    method LaunchForeground(pgid: int, cmd: string, interactive: bool, res: WaitResult)
      modifies slots
      ensures interactive && pgid > 0 && res != Reaped(Suspended) ==> slots[..] == Remove(old(slots[..]), pgid).0
      ensures !(interactive && pgid > 0 && res != Reaped(Suspended)) ==> slots[..] == old(slots[..])
      ensures old(Inv(Model())) ==> Inv(Model())
    {
      if interactive && pgid > 0 {
        var fgJob := Job(0, pgid, Running, Some(cmd), false);
        var _ := PutJobInForeground(Untracked(fgJob), false, interactive, res);
      }
    }
  }
}
