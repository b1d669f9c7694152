/**
 * The task service of the current shim: a registry from task id to the
 * record of its init process, and the lifecycle calls over it. The reaper
 * that records a process's exit is the method Finalize. Locks are left out:
 * every call runs to completion before the next, and a call that would block
 * on the task's completion answers Blocked instead, changing nothing.
 */
module ShimService {
  import opened Wrappers
  import opened ExitStatus
  import opened TaskApi
  import ShimConfig

  /** The record of one task's init process. `done` is the one-shot completion
      flag; `exitStatus` and `exitTime` keep their zero values until it is set. */
  datatype Proc = Proc(pid: int, done: bool, exitStatus: int, exitTime: Time, stdout: string, stdin: string)

  /** Every record in the registry has completed. */
  ghost predicate AllDone(procs: map<string, Proc>)
  {
    forall id :: id in procs ==> procs[id].done
  }

  /** The record as the reaper leaves it. */
  function Completed(p: Proc, status: int, now: Time): (q: Proc)
    ensures q.done && q.pid == p.pid && q.stdout == p.stdout && q.stdin == p.stdin
    ensures q.exitStatus == status && q.exitTime == now
  {
    p.(done := true, exitStatus := status, exitTime := now)
  }

  class TaskService {
    var procs: map<string, Proc>
    /** How many times the shutdown service has been asked to shut the shim down. */
    var shutdowns: nat
    /** The tasks whose reaper is armed and has not yet recorded an exit. */
    ghost var reapers: set<string>

    /** Exactly the records that have not completed have a reaper waiting on them. */
    ghost predicate Valid()
      reads this
    {
      reapers == set id | id in procs && !procs[id].done
    }

    constructor ()
      ensures Valid() && procs == map[] && shutdowns == 0
    {
      procs := map[];
      shutdowns := 0;
      reapers := {};
    }

    /** Registers a task. A known id is refused before anything else is done;
        then the bundle's configuration is resolved and the suspended process
        launched. On success the reaper is armed and the one new record holds
        the pid and the stdio paths, not completed. */
    method Create(id: string, bundle: ShimConfig.ConfigFile, script: ShimConfig.ScriptStat,
                  launch: Launch, stdout: string, stdin: string) returns (r: Result<int, Error>)
      requires Valid()
      modifies this
      ensures Valid() && shutdowns == old(shutdowns)
      ensures id in old(procs) ==> r == Failure(AlreadyExists)
      ensures id !in old(procs) && ShimConfig.ReadConfig(bundle, script).Failure?
              ==> r == Failure(ConfigInvalid(ShimConfig.ReadConfig(bundle, script).error))
      ensures r.Success? <==> id !in old(procs) && ShimConfig.ReadConfig(bundle, script).Success? && launch.Launched?
      ensures r.Success? ==> r.value == launch.pid
                             && procs == old(procs)[id := Proc(launch.pid, false, 0, ZeroTime, stdout, stdin)]
                             && reapers == old(reapers) + {id}
      ensures r.Failure? ==> procs == old(procs) && reapers == old(reapers)
    {
      if id in procs {
        return Failure(AlreadyExists);
      }
      var config := ShimConfig.ReadConfig(bundle, script);
      if config.Failure? {
        return Failure(ConfigInvalid(config.error));
      }
      if launch.LaunchFailed? {
        return Failure(IoFailed);
      }
      reapers := reapers + {id};
      procs := procs[id := Proc(launch.pid, false, 0, ZeroTime, stdout, stdin)];
      r := Success(launch.pid);
    }

    /** Resumes the suspended init process (by running `kill -CONT`, whose
        launch succeeds when `resumed`). Nothing in the registry changes. */
    method Start(id: string, resumed: bool) returns (r: Result<int, Error>)
      ensures id !in procs ==> r == Failure(NotFound)
      ensures id in procs && resumed ==> r == Success(procs[id].pid)
      ensures id in procs && !resumed ==> r == Failure(IoFailed)
    {
      if id !in procs {
        return Failure(NotFound);
      }
      if !resumed {
        return Failure(IoFailed);
      }
      r := Success(procs[id].pid);
    }

    /** Removes a completed task and reports how it ended. A task that has not
        completed stays registered and the call fails. */
    method Delete(id: string) returns (r: Result<DeleteResponse, Error>)
      requires Valid()
      modifies this
      ensures Valid() && shutdowns == old(shutdowns) && reapers == old(reapers)
      ensures id !in old(procs) ==> r == Failure(NotFound) && procs == old(procs)
      ensures id in old(procs) && !old(procs)[id].done ==> r == Failure(FailedPrecondition) && procs == old(procs)
      ensures id in old(procs) && old(procs)[id].done ==>
                var p := old(procs)[id];
                r == Success(DeleteResponse(p.pid, p.exitStatus, p.exitTime)) && procs == old(procs) - {id}
    {
      if id !in procs {
        return Failure(NotFound);
      }
      var p := procs[id];
      if !p.done {
        return Failure(FailedPrecondition);
      }
      procs := procs - {id};
      r := Success(DeleteResponse(p.pid, p.exitStatus, p.exitTime));
    }

    /** A snapshot of one task: stopped exactly when it has completed. */
    method State(id: string) returns (r: Result<StateResponse, Error>)
      ensures id !in procs ==> r == Failure(NotFound)
      ensures id in procs ==> r.Success?
      ensures r.Success? ==>
                var p := procs[id];
                && r.value.id == id && r.value.pid == p.pid
                && (r.value.status == Stopped <==> p.done)
                && r.value.stdout == p.stdout && r.value.stdin == p.stdin
                && r.value.exitStatus == p.exitStatus && r.value.exitTime == p.exitTime
    {
      if id !in procs {
        return Failure(NotFound);
      }
      var p := procs[id];
      var status := if p.done then Stopped else Running;
      r := Success(StateResponse(id, p.pid, status, p.stdout, p.stdin, p.exitStatus, p.exitTime));
    }

    /** Kills a task. A completed task is left alone. Otherwise, when the pid is
        positive and the null-signal probe finds the process (`alive`), SIGKILL
        is sent whatever signal was asked for; `delivered` tells whether that
        send worked. Then the call waits for completion. `sent` is the signal
        the process received, if any. */
    method Kill(id: string, signal: nat, alive: bool, delivered: bool, cancelled: bool)
      returns (r: Reply<()>, sent: Option<nat>)
      ensures id !in procs ==> r == Err(NotFound) && sent == None
      ensures id in procs && procs[id].done ==> r == Ok(()) && sent == None
      ensures sent.Some? <==> id in procs && !procs[id].done && procs[id].pid > 0 && alive
      ensures sent.Some? ==> sent.value == SigKill
      ensures sent.Some? && !delivered ==> r == Err(IoFailed)
      ensures id in procs && !procs[id].done && (sent.None? || delivered)
              ==> r == (if cancelled then Err(Cancelled) else Blocked)
    {
      if id !in procs {
        return Err(NotFound), None;
      }
      var p := procs[id];
      if p.done {
        return Ok(()), None;
      }
      sent := None;
      if p.pid > 0 && alive {
        sent := Some(SigKill);
        if !delivered {
          return Err(IoFailed), sent;
        }
      }
      r := if cancelled then Err(Cancelled) else Blocked;
    }

    /** Waits for a task and reports how it ended: only once it has completed,
        unless the caller gives up first. When both have happened the source
        may answer either way. */
    method Wait(id: string, cancelled: bool) returns (r: Reply<WaitResponse>)
      ensures id !in procs ==> r == Err(NotFound)
      ensures r.Ok? ==> id in procs && procs[id].done
                        && r.value == WaitResponse(procs[id].exitStatus, procs[id].exitTime)
      ensures id in procs && procs[id].done && !cancelled ==> r.Ok?
      ensures id in procs && procs[id].done && cancelled ==> r.Ok? || r == Err(Cancelled)
      ensures id in procs && !procs[id].done ==> r == (if cancelled then Err(Cancelled) else Blocked)
    {
      if id !in procs {
        return Err(NotFound);
      }
      if !procs[id].done {
        return if cancelled then Err(Cancelled) else Blocked;
      }
      var p := procs[id];
      r := Ok(WaitResponse(p.exitStatus, p.exitTime));
    }

    /** The shim's own pid and the task's pid. */
    method Connect(id: string, shimPid: int) returns (r: Result<ConnectResponse, Error>)
      ensures id !in procs ==> r == Failure(NotFound)
      ensures id in procs ==> r == Success(ConnectResponse(shimPid, procs[id].pid))
    {
      if id !in procs {
        return Failure(NotFound);
      }
      r := Success(ConnectResponse(shimPid, procs[id].pid));
    }

    /** Asks the shutdown service to shut the shim down, unconditionally. */
    method Shutdown()
      modifies this
      ensures procs == old(procs) && reapers == old(reapers) && shutdowns == old(shutdowns) + 1
    {
      shutdowns := shutdowns + 1;
    }

    /** Whether every registered task has completed, by a scan of the registry
        that stops at the first one still running. */
    method AllExited() returns (allExited: bool)
      ensures allExited <==> AllDone(procs)
    {
      var pending := procs.Keys;
      allExited := true;
      while pending != {}
        invariant pending <= procs.Keys
        invariant forall id :: id in procs && id !in pending ==> procs[id].done
        decreases pending
      {
        var id :| id in pending;
        if !procs[id].done {
          return false;
        }
        pending := pending - {id};
      }
    }

    /** The reaper of task `id`, run once its process has been waited on:
        records the decoded exit status and the time, marks the task completed,
        and asks for shutdown exactly when every task has now completed. The
        record is always there: a record is removed only once completed. */
    method Finalize(id: string, st: ProcessState, now: Time) returns (shutdown: bool)
      requires Valid() && id in reapers
      modifies this
      ensures Valid()
      ensures id in old(procs)
      ensures procs == old(procs)[id := Completed(old(procs)[id], Decode(st), now)]
      ensures reapers == old(reapers) - {id}
      ensures shutdown <==> AllDone(procs)
      ensures shutdowns == old(shutdowns) + (if shutdown then 1 else 0)
    {
      var p := procs[id];
      procs := procs[id := Completed(p, Decode(st), now)];
      reapers := reapers - {id};
      shutdown := AllExited();
      if shutdown {
        shutdowns := shutdowns + 1;
      }
    }
  }

  /** The life of one task, from registration to removal. */
  method Lifecycle(bundle: ShimConfig.ConfigFile, script: ShimConfig.ScriptStat, t: Time)
    requires ShimConfig.ReadConfig(bundle, script).Success?
  {
    var s := new TaskService();
    var created := s.Create("t1", bundle, script, Launched(42), "out", "in");
    assert created == Success(42);
    var again := s.Create("t1", bundle, script, Launched(43), "out", "in");
    assert again == Failure(AlreadyExists);
    var state := s.State("t1");
    assert state.Success? && state.value.status == Running;
    var early := s.Delete("t1");
    assert early == Failure(FailedPrecondition);
    var waiting := s.Wait("t1", false);
    assert waiting == Blocked;
    var started := s.Start("t1", true);
    assert started == Success(42);
    var shutdown := s.Finalize("t1", Exited(0), t);
    assert shutdown && s.shutdowns == 1;
    var waited := s.Wait("t1", false);
    assert waited == Ok(WaitResponse(0, t));
    var killed, sent := s.Kill("t1", 15, true, true, false);
    assert killed == Ok(()) && sent == None;
    var deleted := s.Delete("t1");
    assert deleted == Success(DeleteResponse(42, 0, t));
    var gone := s.State("t1");
    assert gone == Failure(NotFound);
    var twice := s.Delete("t1");
    assert twice == Failure(NotFound);
  }
}
