/**
 * The older example task service. It differs from the current one in its
 * configuration (no validation; a missing config.json is not an error), in
 * the script path (root path and argument concatenated), in its records (no
 * stdin path), in Delete (a running task is kept and success is answered
 * all the same), and in Create, which can fail after arming the reaper.
 */
module FoobarService {
  import opened Wrappers
  import opened ExitStatus
  import opened TaskApi
  import ShimConfig

  /** The fields of config.json this service decodes: `root.path` and `process.args`. */
  datatype Config = Config(rootPath: string, args: seq<string>)

  /** What the file system gave back for `<bundle>/config.json`. */
  datatype ConfigFile = NotExist | StatError | ReadError | Malformed | Decoded(config: Config)

  /** Reads the configuration; no configuration and no error when the file
      does not exist. */
  function ReadConfig(file: ConfigFile): (r: Result<Option<Config>, ShimConfig.ConfigError>)
    ensures r == Success(None) <==> file == NotExist
    ensures r.Success? && r.value.Some? <==> file.Decoded?
    ensures file.Decoded? ==> r.value.value == file.config
  {
    match file
    case NotExist => Success(None)
    case StatError => Failure(ShimConfig.ConfigStatFailed)
    case ReadError => Failure(ShimConfig.ConfigReadFailed)
    case Malformed => Failure(ShimConfig.ConfigMalformed)
    case Decoded(config) => Success(Some(config))
  }

  /** How the computation of the script path ends as written: with a path, or
      with a runtime panic (a nil configuration dereferenced, or an empty
      argument list indexed). */
  datatype ScriptOutcome = ScriptAt(path: string) | Panicked

  /** The script path as written: `Root.Path + Args[0]` on whatever ReadConfig returned. */
  function ScriptPathAsWritten(config: Option<Config>): (r: ScriptOutcome)
    ensures r.Panicked? <==> config.None? || config.value.args == []
  {
    if config.None? || config.value.args == [] then Panicked
    else ScriptAt(config.value.rootPath + config.value.args[0])
  }

  /** The script path with the missing configuration and the missing argument
      reported as errors. The path is the root path followed directly by the
      first argument: no separator is put between them. */
  function ScriptPath(config: Option<Config>): (r: Result<string, ShimConfig.ConfigError>)
    ensures config.None? ==> r == Failure(ShimConfig.ConfigNotFound)
    ensures config.Some? && config.value.args == [] ==> r == Failure(ShimConfig.WrongArgCount(0))
    ensures r.Success? ==>
              var root, arg := config.value.rootPath, config.value.args[0];
              |r.value| == |root| + |arg| && ShimConfig.HasPrefix(r.value, root) && ShimConfig.EndsWith(r.value, arg)
  {
    if config.None? then Failure(ShimConfig.ConfigNotFound)
    else if config.value.args == [] then Failure(ShimConfig.WrongArgCount(0))
    else Success(config.value.rootPath + config.value.args[0])
  }

  /** The corrected path agrees with the path as written wherever the latter
      does not panic, and reports an error exactly where it panics. */
  lemma ScriptPathCorrectsPanic(config: Option<Config>)
    ensures ScriptPathAsWritten(config).Panicked? <==> ScriptPath(config).Failure?
    ensures ScriptPathAsWritten(config).ScriptAt? ==> ScriptPath(config) == Success(ScriptPathAsWritten(config).path)
  {
  }

  /** A bundle without config.json: ReadConfig answers no configuration and no
      error, and the path as written then dereferences the missing configuration. */
  lemma MissingConfigPanics()
    ensures ReadConfig(NotExist) == Success(None)
    ensures ScriptPathAsWritten(ReadConfig(NotExist).value) == Panicked
    ensures ScriptPath(ReadConfig(NotExist).value) == Failure(ShimConfig.ConfigNotFound)
  {
  }

  /** A root path without a trailing separator runs into the file name. */
  lemma ScriptPathNoSeparator()
    ensures ScriptPath(Some(Config("/rootfs", ["hello.bf"]))) == Success("/rootfshello.bf")
  {
    var root: string, arg: string := "/rootfs", "hello.bf";
    assert ["hello.bf"][0] == arg;
    assert root + arg == "/rootfshello.bf";
  }

  /** The completion context Create makes for one launch, named by a number
      unique among the contexts of the service. */
  type Context = nat

  /** The record of one init process: like the current shim's, without a stdin
      path, and with the completion context of the Create that inserted it;
      `done` tells whether that context has been cancelled. */
  datatype Proc = Proc(pid: int, ctx: Context, done: bool, exitStatus: int, exitTime: Time, stdout: string)

  ghost predicate AllDone(procs: map<string, Proc>)
  {
    forall id :: id in procs ==> procs[id].done
  }

  /** How a reaper ends: having recorded the exit (and whether it asked for
      shutdown), or by a runtime panic on a record that is not there. */
  datatype ReapOutcome = Recorded(shutdown: bool) | Crashed

  class TaskService {
    var procs: map<string, Proc>
    var shutdowns: nat
    /** The number of completion contexts made so far; the next one is named by it. */
    var contexts: nat
    /** The armed reapers that have not yet run: the task id each looks up and
        the context it cancels. A reaper can outlive a failed Create, so an
        entry need not match a record. */
    ghost var reapers: set<(string, Context)>

    /** Every record that has not completed has its own reaper waiting on it,
        and every context in use has been made. */
    ghost predicate Valid()
      reads this
    {
      && (forall id :: id in procs && !procs[id].done ==> (id, procs[id].ctx) in reapers)
      && (forall id :: id in procs ==> procs[id].ctx < contexts)
      && (forall r :: r in reapers ==> r.1 < contexts)
    }

    constructor ()
      ensures Valid() && procs == map[] && shutdowns == 0 && contexts == 0 && reapers == {}
    {
      procs := map[];
      shutdowns := 0;
      contexts := 0;
      reapers := {};
    }

    /** Registers a task. A known id is refused first. `scriptWritten` tells
        whether the start-stopped script could be written, `pidFileWritten`
        whether the working directory could be read and the pid file written.
        Those come after a new completion context is made and the reaper armed
        with it, so their failure leaves that reaper behind with no record. */
    method Create(id: string, bundle: ConfigFile, scriptWritten: bool, launch: Launch,
                  pidFileWritten: bool, stdout: string) returns (r: Result<int, Error>)
      requires Valid()
      modifies this
      ensures Valid() && shutdowns == old(shutdowns)
      ensures id in old(procs) ==> r == Failure(AlreadyExists)
      ensures id !in old(procs) && ReadConfig(bundle).Failure?
              ==> r == Failure(ConfigInvalid(ReadConfig(bundle).error))
      ensures var armed := && id !in old(procs) && ReadConfig(bundle).Success? && scriptWritten
                           && ScriptPath(ReadConfig(bundle).value).Success? && launch.Launched?;
              && (r.Success? <==> armed && pidFileWritten)
              && (armed && !pidFileWritten ==> r == Failure(IoFailed))
              && contexts == old(contexts) + (if armed then 1 else 0)
              && reapers == if armed then old(reapers) + {(id, old(contexts))} else old(reapers)
      ensures r.Success? ==> r.value == launch.pid
                             && procs == old(procs)[id := Proc(launch.pid, old(contexts), false, 0, ZeroTime, stdout)]
      ensures r.Failure? ==> procs == old(procs)
    {
      if id in procs {
        return Failure(AlreadyExists);
      }
      var config := ReadConfig(bundle);
      if config.Failure? {
        return Failure(ConfigInvalid(config.error));
      }
      if !scriptWritten {
        return Failure(IoFailed);
      }
      var script := ScriptPath(config.value);
      if script.Failure? {
        return Failure(ConfigInvalid(script.error));
      }
      if launch.LaunchFailed? {
        return Failure(IoFailed);
      }
      var ctx := contexts;
      contexts := contexts + 1;
      reapers := reapers + {(id, ctx)};
      if !pidFileWritten {
        return Failure(IoFailed);
      }
      procs := procs[id := Proc(launch.pid, ctx, false, 0, ZeroTime, stdout)];
      r := Success(launch.pid);
    }

    method Start(id: string, resumed: bool) returns (r: Result<int, Error>)
      ensures id !in procs ==> r == Failure(NotFound)
      ensures id in procs && resumed ==> r == Success(procs[id].pid)
      ensures id in procs && !resumed ==> r == Failure(IoFailed)
    {
      if id !in procs {
        return Failure(NotFound);
      }
      if !resumed {
        return Failure(IoFailed);
      }
      r := Success(procs[id].pid);
    }

    /** Removes a completed task; a task still running is kept. Either way the
        answer is an empty success. */
    method Delete(id: string) returns (r: Result<DeleteResponse, Error>)
      requires Valid()
      modifies this
      ensures Valid() && shutdowns == old(shutdowns) && reapers == old(reapers) && contexts == old(contexts)
      ensures id !in old(procs) ==> r == Failure(NotFound) && procs == old(procs)
      ensures id in old(procs) ==> r == Success(DeleteResponse(0, 0, ZeroTime))
      ensures id in old(procs) && old(procs)[id].done ==> procs == old(procs) - {id}
      ensures id in old(procs) && !old(procs)[id].done ==> procs == old(procs)
    {
      if id !in procs {
        return Failure(NotFound);
      }
      if procs[id].done {
        procs := procs - {id};
      }
      r := Success(DeleteResponse(0, 0, ZeroTime));
    }

    /** A snapshot of one task, with no stdin path. */
    method State(id: string) returns (r: Result<StateResponse, Error>)
      ensures id !in procs ==> r == Failure(NotFound)
      ensures id in procs ==> r.Success?
      ensures r.Success? ==>
                var p := procs[id];
                && r.value.id == id && r.value.pid == p.pid
                && (r.value.status == Stopped <==> p.done)
                && r.value.stdout == p.stdout && r.value.stdin == ""
                && r.value.exitStatus == p.exitStatus && r.value.exitTime == p.exitTime
    {
      if id !in procs {
        return Failure(NotFound);
      }
      var p := procs[id];
      var status := if p.done then Stopped else Running;
      r := Success(StateResponse(id, p.pid, status, p.stdout, "", p.exitStatus, p.exitTime));
    }

    /** Kills a task as the current shim does: nothing for a completed task,
        otherwise SIGKILL whatever was asked, then a wait for completion. */
    method Kill(id: string, signal: nat, alive: bool, delivered: bool, cancelled: bool)
      returns (r: Reply<()>, sent: Option<nat>)
      ensures id !in procs ==> r == Err(NotFound) && sent == None
      ensures id in procs && procs[id].done ==> r == Ok(()) && sent == None
      ensures sent.Some? <==> id in procs && !procs[id].done && procs[id].pid > 0 && alive
      ensures sent.Some? ==> sent.value == SigKill
      ensures sent.Some? && !delivered ==> r == Err(IoFailed)
      ensures id in procs && !procs[id].done && (sent.None? || delivered)
              ==> r == (if cancelled then Err(Cancelled) else Blocked)
    {
      if id !in procs {
        return Err(NotFound), None;
      }
      var p := procs[id];
      if p.done {
        return Ok(()), None;
      }
      sent := None;
      if p.pid > 0 && alive {
        sent := Some(SigKill);
        if !delivered {
          return Err(IoFailed), sent;
        }
      }
      r := if cancelled then Err(Cancelled) else Blocked;
    }

    /** Waits for a task: its exit status and time once completed. */
    method Wait(id: string, cancelled: bool) returns (r: Reply<WaitResponse>)
      ensures id !in procs ==> r == Err(NotFound)
      ensures r.Ok? ==> id in procs && procs[id].done
                        && r.value == WaitResponse(procs[id].exitStatus, procs[id].exitTime)
      ensures id in procs && procs[id].done && !cancelled ==> r.Ok?
      ensures id in procs && procs[id].done && cancelled ==> r.Ok? || r == Err(Cancelled)
      ensures id in procs && !procs[id].done ==> r == (if cancelled then Err(Cancelled) else Blocked)
    {
      if id !in procs {
        return Err(NotFound);
      }
      if !procs[id].done {
        return if cancelled then Err(Cancelled) else Blocked;
      }
      var p := procs[id];
      r := Ok(WaitResponse(p.exitStatus, p.exitTime));
    }

    method Connect(id: string, shimPid: int) returns (r: Result<ConnectResponse, Error>)
      ensures id !in procs ==> r == Failure(NotFound)
      ensures id in procs ==> r == Success(ConnectResponse(shimPid, procs[id].pid))
    {
      if id !in procs {
        return Failure(NotFound);
      }
      r := Success(ConnectResponse(shimPid, procs[id].pid));
    }

    method Shutdown()
      modifies this
      ensures procs == old(procs) && reapers == old(reapers) && contexts == old(contexts)
      ensures shutdowns == old(shutdowns) + 1
    {
      shutdowns := shutdowns + 1;
    }

    /** Whether every registered task has completed. */
    method AllExited() returns (allExited: bool)
      ensures allExited <==> AllDone(procs)
    {
      var pending := procs.Keys;
      allExited := true;
      while pending != {}
        invariant pending <= procs.Keys
        invariant forall id :: id in procs && id !in pending ==> procs[id].done
        decreases pending
      {
        var id :| id in pending;
        if !procs[id].done {
          return false;
        }
        pending := pending - {id};
      }
    }

    /** The reaper armed by Create for task `id` with completion context `ctx`,
        once its process has been waited on. It looks the task up by id: with no
        record it dereferences nothing and panics. Otherwise it writes the
        decoded status and the time into whatever record holds that id, and
        cancels its own context, which completes the record only when the
        record is the one its own Create inserted. Then it asks for shutdown
        exactly when every task has completed. */
    method Finalize(id: string, ctx: Context, st: ProcessState, now: Time) returns (r: ReapOutcome)
      requires Valid() && (id, ctx) in reapers
      modifies this
      ensures Valid() && contexts == old(contexts)
      ensures reapers == old(reapers) - {(id, ctx)}
      ensures r.Crashed? <==> id !in old(procs)
      ensures r.Crashed? ==> procs == old(procs) && shutdowns == old(shutdowns)
      ensures r.Recorded? ==>
                var p := old(procs)[id];
                && procs == old(procs)[id := p.(done := p.done || p.ctx == ctx, exitStatus := Decode(st), exitTime := now)]
                && (r.shutdown <==> AllDone(procs))
                && shutdowns == old(shutdowns) + (if r.shutdown then 1 else 0)
    {
      reapers := reapers - {(id, ctx)};
      if id !in procs {
        return Crashed;
      }
      var p := procs[id];
      procs := procs[id := p.(done := p.done || p.ctx == ctx, exitStatus := Decode(st), exitTime := now)];
      var shutdown := AllExited();
      if shutdown {
        shutdowns := shutdowns + 1;
      }
      r := Recorded(shutdown);
    }
  }

  /** A failed pid-file write leaves a reaper without a record; when the
      process exits, that reaper panics. */
  method CrashingReaper(bundle: Config, t: Time)
    requires bundle.args != []
  {
    var s := new TaskService();
    var created := s.Create("t1", Decoded(bundle), true, Launched(42), false, "out");
    assert created == Failure(IoFailed) && "t1" !in s.procs && ("t1", 0) in s.reapers;
    var reaped := s.Finalize("t1", 0, Exited(0), t);
    assert reaped == Crashed;
  }

  /** If instead a second Create of the same id succeeds before the orphaned
      reaper runs, that reaper overwrites the new record's exit status and time
      without completing it, and no shutdown follows; the new record's own
      reaper then completes it. */
  method OrphanedReaper(bundle: Config, t: Time)
    requires bundle.args != []
  {
    var s := new TaskService();
    var failed := s.Create("t1", Decoded(bundle), true, Launched(42), false, "out");
    var again := s.Create("t1", Decoded(bundle), true, Launched(43), true, "out");
    assert again == Success(43) && s.procs["t1"].ctx == 1;
    var orphan := s.Finalize("t1", 0, Signaled(SigKill), t);
    assert orphan == Recorded(false) && s.shutdowns == 0;
    var state := s.State("t1");
    assert state.Success? && state.value.status == Running && state.value.exitStatus == 137;
    var own := s.Finalize("t1", 1, Exited(0), t + 1);
    assert own == Recorded(true) && s.shutdowns == 1;
  }


  /** Deleting a running task answers success and removes nothing. */
  method DeleteWhileRunning(bundle: Config)
    requires bundle.args != []
  {
    var s := new TaskService();
    var created := s.Create("t1", Decoded(bundle), true, Launched(42), true, "out");
    assert created == Success(42);
    var deleted := s.Delete("t1");
    assert deleted.Success? && "t1" in s.procs;
    var state := s.State("t1");
    assert state.Success? && state.value.status == Running;
  }
}
