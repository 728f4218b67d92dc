/**
 * Per-script run state and the run protocol of runScript (main.go:382-454),
 * with the spinner's start/stop reference count (main.go:493-516). The
 * subprocess is an abstract outcome; the SyncFunc apply runs as a step of
 * its own.
 */
module Runner {
  import opened Wrappers
  import opened Triggers

  /** What the subprocess did: exited cleanly with its stdout lines, or failed. */
  datatype ExitStatus =
    | Exited(output: seq<string>)
    | Failed(reason: string)

  /** The `script` record: its configuration and its mutable run state. */
  class Script {
    const conf: ScriptConf
    var running: bool
    /** Time of the last applied load; 0 is Go's zero time.Time (never loaded). */
    var lastLoaded: int
    var lines: seq<string>

    constructor (conf: ScriptConf)
      ensures this.conf == conf
      ensures !running && lastLoaded == 0 && lines == []
    {
      this.conf := conf;
      running := false;
      lastLoaded := 0;
      lines := [];
    }

    /** Take the running claim under the lock; fails if a run is in progress. */
    method TryClaim() returns (claimed: bool)
      modifies this`running
      ensures claimed <==> !old(running)
      ensures running
    {
      if running {
        return false;
      }
      running := true;
      claimed := true;
    }

    /** The deferred release of the claim. */
    method Release()
      modifies this`running
      ensures !running
    {
      running := false;
    }

    /**
     * The SyncFunc body: keep the old lines when the output is empty; stamp
     * the load time. time.Now() is never the zero time, so `now` is not 0.
     */
    method Apply(output: seq<string>, now: int)
      requires now != 0
      modifies this`lines, this`lastLoaded
      ensures lines == (if |output| > 0 then output else old(lines))
      ensures lastLoaded == now
    {
      if |output| > 0 {
        lines := output;
      }
      lastLoaded := now;
    }

    /** The start of runScript: take the claim, then start the spinner if there is one. */
    method BeginRun(spinner: Spinner?) returns (claimed: bool)
      requires spinner != null ==> spinner.Valid()
      modifies this`running, spinner
      ensures claimed <==> !old(running)
      ensures running
      ensures spinner != null ==>
                spinner.Valid() && spinner.count == old(spinner.count) + (if claimed then 1 else 0)
    {
      claimed := TryClaim();
      if claimed && spinner != null {
        spinner.Start();
      }
    }

    /**
     * The end of a run that holds the claim: a failure is reported and
     * changes no lines and no load time; a clean exit is applied at `now`.
     * Then the spinner is stopped and the claim released.
     */
    method FinishRun(spinner: Spinner?, status: ExitStatus, now: int) returns (err: Option<string>)
      requires running && now != 0
      requires spinner != null ==> spinner.Valid()
      modifies this`running, this`lines, this`lastLoaded, spinner
      ensures !running
      ensures spinner != null ==> spinner.Valid() && spinner.count == old(spinner.count) - 1
      ensures status.Failed? ==>
                err == Some(status.reason) && lines == old(lines) && lastLoaded == old(lastLoaded)
      ensures status.Exited? ==>
                err == None && lastLoaded == now &&
                lines == (if |status.output| > 0 then status.output else old(lines))
    {
      match status {
        case Failed(reason) =>
          err := Some(reason);
        case Exited(output) =>
          Apply(output, now);
          err := None;
      }
      if spinner != null {
        spinner.Stop();
      }
      Release();
    }

    /**
     * runScript: a script that is already running is left alone and the call
     * succeeds. Otherwise the claim is held for the run and released on
     * every path; a failed run changes no lines and no load time; a
     * successful one is applied (at time `now`). The spinner, if there is
     * one, is started for the run and stopped again.
     */
    method RunScript(spinner: Spinner?, status: ExitStatus, now: int) returns (err: Option<string>)
      requires now != 0
      requires spinner != null ==> spinner.Valid()
      modifies this`running, this`lines, this`lastLoaded, spinner
      ensures spinner != null ==> spinner.Valid() && spinner.count == old(spinner.count)
      ensures old(running) ==> err == None && running && lines == old(lines) && lastLoaded == old(lastLoaded)
      ensures !old(running) ==> !running
      ensures !old(running) && status.Failed? ==>
                err == Some(status.reason) && lines == old(lines) && lastLoaded == old(lastLoaded)
      ensures !old(running) && status.Exited? ==>
                err == None && lastLoaded == now &&
                lines == (if |status.output| > 0 then status.output else old(lines))
    {
      var claimed := BeginRun(spinner);
      if !claimed {
        return None;
      }
      err := FinishRun(spinner, status, now);
    }
  }

  /**
   * The spinner's reference count: the animation runs while at least one
   * run holds it. `animating` stands for the foreign animation model.
   */
  class Spinner {
    var count: int
    var animating: bool

    ghost predicate Valid()
      reads this
    {
      animating <==> count > 0
    }

    constructor ()
      ensures Valid() && count == 0 && !animating
    {
      count := 0;
      animating := false;
    }

    /** start: the first holder starts the animation. */
    method Start()
      requires Valid()
      modifies this
      ensures Valid()
      ensures count == old(count) + 1
      ensures animating == (old(animating) || count == 1)
    {
      count := count + 1;
      if count == 1 {
        animating := true;
      }
    }

    /** stop: the last holder stops it. */
    method Stop()
      requires Valid()
      modifies this
      ensures Valid()
      ensures count == old(count) - 1
      ensures animating == (old(animating) && count != 0)
    {
      count := count - 1;
      if count == 0 {
        animating := false;
      }
    }
  }

  /**
   * A second load of a script that starts while a first one holds the claim
   * is a no-op: the script ends up exactly as after the first run alone, so
   * at most one run of a script is in progress at a time.
   */
  method OverlappingRuns(s: Script, first: ExitStatus, second: ExitStatus, now: int, later: int)
    returns (err: Option<string>, err2: Option<string>)
    requires !s.running && now != 0 && later != 0
    modifies s
    ensures err2 == None && !s.running
    ensures first.Failed? ==> err == Some(first.reason) && s.lines == old(s.lines) && s.lastLoaded == old(s.lastLoaded)
    ensures first.Exited? ==>
              err == None && s.lastLoaded == later &&
              s.lines == (if |first.output| > 0 then first.output else old(s.lines))
  {
    var claimed := s.BeginRun(null);
    err2 := s.RunScript(null, second, now);
    err := s.FinishRun(null, first, later);
  }
}
