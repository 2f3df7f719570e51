/**
 The debug session: run levels of the main window, what the buttons do, and what they make the
 debuggee save, redirect, record and restore. Commands succeed, except that setting the debug target
 may be refused; the program to be debugged is any list of calls, marked as the function table marks them.
 */
module DebugSession {
  import opened Wrappers
  import opened CallFlow

  // ---------- The debuggee ----------

  /** What the debugger has saved and redirected. `fault` is set by a restore without a save, a save over
      a save, or a recording over a recording. */
  datatype Holds = Holds(queriesInterrupted: bool, shaderSaved: bool, live: bool, redirected: Option<Target>,
                         fault: bool)

  class Debuggee {
    const calls: Program
    var alive: bool
    /** The call at which the program has stopped. */
    var current: nat
    var executed: seq<int>
    /** Behind how many executed calls a `glEnd` was inserted. */
    var inserted: seq<nat>
    /** The recorded stream. */
    var stream: seq<int>
    var live: bool
    var queriesInterrupted: bool
    var shaderSaved: bool
    var redirected: Option<Target>
    /** The recorded calls that were thrown away. */
    var lost: seq<int>
    var fault: bool

    constructor (program: Program)
      ensures calls == program && !alive && current == 0 && executed == [] && inserted == [] && lost == [] && Clean()
      ensures !fault
    {
      calls := program;
      alive, current, executed, inserted, stream, live, lost := false, 0, [], [], [], false, [];
      queriesInterrupted, shaderSaved, redirected, fault := false, false, None, false;
    }

    /** The state of a program that runs undisturbed. */
    ghost predicate Clean()
      reads this
    {
      !queriesInterrupted && !shaderSaved && !live && stream == [] && redirected == None
    }

    function Saved(): Holds
      reads this
    {
      Holds(queriesInterrupted, shaderSaved, live, redirected, fault)
    }

    method Run()
      modifies this
      ensures alive && current == 0 && executed == [] && inserted == [] && lost == [] && Clean() && !fault
    {
      alive, current, executed, inserted, stream, live, lost := true, 0, [], [], [], false, [];
      queriesInterrupted, shaderSaved, redirected, fault := false, false, None, false;
    }

    /** The program goes, and with it the calls that were recorded and not yet executed. */
    method KillProgram()
      requires alive
      modifies this
      ensures !alive && Clean() && fault == old(fault) && lost == old(lost + stream)
      ensures executed == old(executed) && inserted == old(inserted) && current == old(current)
    {
      alive, live, lost, stream := false, false, lost + stream, [];
      queriesInterrupted, shaderSaved, redirected := false, false, None;
    }

    method SaveAndInterruptQueries()
      modifies this`queriesInterrupted, this`fault
      ensures queriesInterrupted && fault == (old(fault) || old(queriesInterrupted))
    {
      fault := fault || queriesInterrupted;
      queriesInterrupted := true;
    }

    method RestartQueries()
      modifies this`queriesInterrupted, this`fault
      ensures !queriesInterrupted && fault == (old(fault) || !old(queriesInterrupted))
    {
      fault := fault || !queriesInterrupted;
      queriesInterrupted := false;
    }

    method SaveActiveShader()
      modifies this`shaderSaved, this`fault
      ensures shaderSaved && fault == (old(fault) || old(shaderSaved))
    {
      fault := fault || shaderSaved;
      shaderSaved := true;
    }

    method RestoreActiveShader()
      modifies this`shaderSaved, this`fault
      ensures !shaderSaved && fault == (old(fault) || !old(shaderSaved))
    {
      fault := fault || !shaderSaved;
      shaderSaved := false;
    }

    method SetDbgTarget(t: Target)
      modifies this`redirected, this`fault
      ensures redirected == Some(t) && fault == (old(fault) || old(redirected).Some?)
    {
      fault := fault || redirected.Some?;
      redirected := Some(t);
    }

    method RestoreRenderTarget(t: Target)
      modifies this`redirected, this`fault
      ensures redirected == None && fault == (old(fault) || old(redirected) != Some(t))
    {
      fault := fault || redirected != Some(t);
      redirected := None;
    }

    /** Starting a recording forgets the calls of an earlier one. */
    method StartRecording()
      modifies this`stream, this`live, this`lost, this`fault
      ensures live && stream == [] && lost == old(lost + stream)
      ensures fault == (old(fault) || old(live) || old(stream) != [])
    {
      fault := fault || live || stream != [];
      live, lost, stream := true, lost + stream, [];
    }

    method RecordCall()
      modifies this`stream
      ensures stream == old(stream) + [current]
    {
      stream := stream + [current];
    }

    /** The final replay executes the recorded calls. */
    method EndReplay()
      modifies this`executed, this`stream, this`live, this`fault
      ensures executed == old(executed + stream) && stream == [] && !live && fault == (old(fault) || !old(live))
    {
      fault := fault || !live;
      executed, stream, live := executed + stream, [], false;
    }

    method InsertGlEnd()
      modifies this`inserted
      ensures inserted == old(inserted + [|executed|])
    {
      inserted := inserted + [|executed|];
    }

    method CallOrig()
      modifies this`executed
      ensures executed == old(executed) + [current]
    {
      executed := executed + [current];
    }

    /** Finishes the current call; the program goes on to its next call, or ends. */
    method CallDone() returns (more: bool)
      requires current < |calls|
      modifies this`current
      ensures current == old(current) + 1 && more == (current < |calls|)
    {
      current := current + 1;
      more := current < |calls|;
    }
  }

  // ---------- The main window ----------

  /** The holds after leaving the debug state. */
  function Left(l: Level, h: Holds): Holds {
    if l.Restart? || l.Recording? then
      Holds(false, false, false, h.redirected, h.fault || !h.shaderSaved || !h.queriesInterrupted || !h.live)
    else h
  }

  /** The holds after a debug run. */
  function Cleaned(l: Level, h: Holds): Holds {
    if l.Debugging? then h.(redirected := None, fault := h.fault || h.redirected != Some(l.target)) else h
  }

  /** The holds when a recording begins. */
  function Taping(h: Holds, leftover: bool): Holds {
    h.(live := true, fault := h.fault || h.live || leftover)
  }

  /** The holds when the shader is saved and a recording begins. */
  function Entered(h: Holds, leftover: bool): Holds {
    Taping(h.(shaderSaved := true, fault := h.fault || h.shaderSaved), leftover)
  }

  /** The holds after a recording that was broken off while a shader was shown. */
  function Broken(h: Holds, shown: Target): Holds {
    Holds(h.queriesInterrupted, false, false, None,
          h.fault || h.redirected != Some(shown) || !h.shaderSaved || !h.live)
  }

  /** No target is refused among the first `n` events. */
  predicate NoRefusal(events: seq<Event>, n: nat) {
    forall i :: 0 <= i < n && i < |events| && events[i].ShaderButton? ==> !events[i].click.error.Refused?
  }

  class MainWindow {
    const debuggee: Debuggee
    var level: Level
    var skipped: set<int>

    constructor (d: Debuggee)
      requires !d.alive && d.Clean() && !d.fault && d.current == 0 && d.executed == [] && d.inserted == []
      requires d.lost == []
      ensures debuggee == d && Sound() && Paired() && InOrder()
      ensures Now() == State(Setup, Flow([], [], [], [], 0, {}))
    {
      debuggee, level, skipped := d, Setup, {};
    }

    function Calls(): Flow
      reads this, debuggee
    {
      Flow(debuggee.executed, debuggee.inserted, debuggee.stream, debuggee.lost, debuggee.current, skipped)
    }

    function Now(): State
      reads this, debuggee
    {
      State(level, Calls())
    }

    ghost predicate Stopped()
      reads this, debuggee
    {
      debuggee.alive && debuggee.current < |debuggee.calls|
    }

    /** The program has gone, and nothing is held of it. */
    ghost predicate Gone()
      reads this, debuggee
    {
      level.Setup? && !debuggee.alive && debuggee.Clean()
    }

    /** Between events. */
    ghost predicate Sound()
      reads this, debuggee
    {
      Sane(debuggee.calls, Now()) && if level.Setup? then Gone() else Stopped()
    }

    /** The calls are executed once and in order, and in the step mode none is waiting. */
    ghost predicate InOrder()
      reads this, debuggee
    {
      Regular(debuggee.calls, Now()) && Whole(Now())
    }

    /** What is saved, redirected and recorded fits the run level. */
    ghost predicate Paired()
      reads this, debuggee
    {
      && Sound() && !debuggee.fault
      && match level
         case Setup => true
         case NotDebugable => debuggee.Clean()
         case IsDebugable => debuggee.Clean() && debuggee.calls[debuggee.current].debuggable
         case Running => false
         case Recording => false
         case Debugging(t) => debuggee.stream != [] && debuggee.Saved() == Holds(true, true, true, Some(t), false)
         case Restart => debuggee.stream != [] && debuggee.Saved() == Holds(true, true, true, None, false)
    }

    /** The step mode: the sub-level depends on the current call and on whether shader code is known. */
    method SetTraceLevel()
      requires Stopped()
      modifies this`level
      ensures StepLevel(debuggee.calls, debuggee.current, level)
    {
      var haveValidShaderCode: bool := *;
      if debuggee.calls[debuggee.current].debuggable && haveValidShaderCode {
        level := IsDebugable;
      } else {
        level := NotDebugable;
      }
    }

    method Kill()
      requires debuggee.alive
      modifies this`level, debuggee
      ensures Gone() && Calls() == Killed(old(Calls())) && debuggee.fault == old(debuggee.fault)
    {
      debuggee.KillProgram();
      level := Setup;
    }

    /** Behind a debug run the shader, the queries and the recorded calls are given back. */
    method LeaveDBGState()
      modifies debuggee
      ensures debuggee.alive == old(debuggee.alive) && Calls() == Replayed(level, old(Calls()))
      ensures debuggee.Saved() == Left(level, old(debuggee.Saved()))
    {
      if level == Restart || level == Recording {
        debuggee.RestoreActiveShader();
        debuggee.RestartQueries();
        debuggee.EndReplay();
      }
    }

    /** Takes the render target back when a shader is being debugged. */
    method CleanupDBGShader()
      modifies debuggee`redirected, debuggee`fault
      ensures debuggee.Saved() == Cleaned(level, old(debuggee.Saved()))
    {
      if level.Debugging? {
        debuggee.RestoreRenderTarget(level.target);
      }
    }

    /** Executes and finishes one call. The program may end on it. */
    method SingleStep()
      requires Stopped() && level == Running
      modifies this`level, debuggee
      ensures var f := old(Calls());
              var g := f.(executed := f.executed + [f.current], current := f.current + 1);
              if g.current < |debuggee.calls| then
                level == Running && Stopped() && Calls() == g && debuggee.Saved() == old(debuggee.Saved())
              else Gone() && Calls() == Killed(g) && debuggee.fault == old(debuggee.fault)
    {
      debuggee.CallOrig();
      var more := debuggee.CallDone();
      if !more {
        Kill();
      }
    }

    method OnStart(started: bool)
      requires Sound() && level == Setup
      modifies this, debuggee
      ensures Sound() && Next(debuggee.calls, old(Now()), Start(started), Now())
      ensures old(Paired()) || (started && |debuggee.calls| > 0) ==> Paired()
    {
      if started && |debuggee.calls| > 0 {
        debuggee.Run();
        skipped := {};
        SetTraceLevel();
      }
    }

    /** The execute button while a program runs. */
    method OnKill()
      requires Sound() && level != Setup
      modifies this`level, debuggee
      ensures Sound() && Next(debuggee.calls, old(Now()), Event.Kill, Now())
      ensures old(Paired()) ==> Paired()
    {
      CleanupDBGShader();
      LeaveDBGState();
      Kill();
    }

    /** The loop over single steps. */
    method StepOn(count: nat)
      requires Stopped() && level == Running
      modifies this`level, debuggee
      ensures var f, n := old(Calls()), StepCount(debuggee.calls, old(Calls()), count);
              var g := f.(executed := f.executed + Range(f.current, n), current := f.current + n);
              if g.current < |debuggee.calls| then
                level == Running && Stopped() && Calls() == g && debuggee.Saved() == old(debuggee.Saved())
              else Gone() && Calls() == Killed(g) && debuggee.fault == old(debuggee.fault)
    {
      ghost var f, b := Calls(), debuggee.current;
      SingleStep();
      assert Range(b, 1) == [b];
      var k := 1;
      while k < count && level == Running
        invariant 1 <= k <= AtLeastOne(count)
        invariant level == Running ==>
                    && Stopped() && debuggee.Saved() == old(debuggee.Saved())
                    && Calls() == f.(executed := f.executed + Range(b, k), current := b + k)
        invariant level != Running ==>
                    && Gone() && debuggee.fault == old(debuggee.fault) && b + k == |debuggee.calls|
                    && Calls() == Killed(f.(executed := f.executed + Range(b, k), current := b + k))
        decreases count - k
      {
        SingleStep();
        assert f.executed + Range(b, k) + [b + k] == f.executed + Range(b, k + 1);
        k := k + 1;
      }
    }

    /** Steps: one call, and more calls until one is shown that the filter does not hide. */
    method OnStep(count: nat)
      requires Sound() && (Stepping(level) || level == Restart)
      modifies this`level, debuggee
      ensures Sound() && Next(debuggee.calls, old(Now()), Step(count), Now())
      ensures old(Paired()) ==> Paired()
    {
      LeaveDBGState();
      level := Running;
      StepOn(count);
      if level == Running {
        SetTraceLevel();
      }
    }

    /** Finishes the current call without executing it. */
    method OnSkip()
      requires Sound() && (Stepping(level) || level == Restart)
      modifies this, debuggee
      ensures Sound() && Next(debuggee.calls, old(Now()), Skip, Now())
      ensures old(Paired()) ==> Paired()
    {
      LeaveDBGState();
      skipped := skipped + {debuggee.current};
      var more := debuggee.CallDone();
      if more {
        SetTraceLevel();
      } else {
        Kill();
      }
    }

    /** Records and finishes the current call. The program may end on it. */
    method RecordCall() returns (ok: bool)
      requires Stopped()
      modifies this`level, debuggee
      ensures var f := old(Calls());
              var g := f.(stream := f.stream + [f.current], current := f.current + 1);
              && ok == (g.current < |debuggee.calls|)
              && if ok then Stopped() && level == old(level) && Calls() == g
                && debuggee.Saved() == old(debuggee.Saved())
                 else Gone() && Calls() == Killed(g) && debuggee.fault == old(debuggee.fault)
    {
      debuggee.RecordCall();
      ok := debuggee.CallDone();
      if !ok {
        Kill();
      }
    }

    /** The first loop: calls are recorded until a `glEnd` is reached, the user pauses, or the program ends. */
    method RecordToEnd(pause: Option<nat>) returns (n: nat)
      requires level == Recording && Stopped() && debuggee.stream == [] && IsBegin(debuggee.calls[debuggee.current])
      modifies this`level, debuggee
      ensures var b, calls, f := old(debuggee.current), debuggee.calls, old(Calls());
              var size := BlockLength(calls, b);
              if PausedIn(calls, b, pause) then
                && n == pause.value && Stopped() && debuggee.Saved() == old(debuggee.Saved())
                && Calls() == Taped(f, n) && StepLevel(calls, b + n, level)
              else if HasEnd(calls, b) then
                && n == size - 1 && Stopped() && debuggee.Saved() == old(debuggee.Saved())
                && Calls() == Taped(f, n) && level == Recording && IsEnd(calls[b + n])
              else Gone() && Calls() == Killed(Taped(f, size)) && debuggee.fault == old(debuggee.fault)
    {
      ghost var b, calls, f, h := debuggee.current, debuggee.calls, Calls(), debuggee.Saved();
      n := 0;
      while level == Recording && !IsEnd(debuggee.calls[debuggee.current])
        invariant Stopped() && Calls() == Taped(f, n) && debuggee.Saved() == h
        invariant level == Recording ==> !PausedBefore(pause, n)
        invariant level != Recording ==> pause == Some(n) && n > 0 && StepLevel(calls, b + n, level)
        invariant BlockLength(calls, b) == n + BlockLength(calls, b + n) && HasEnd(calls, b) == HasEnd(calls, b + n)
        decreases |debuggee.calls| - debuggee.current, level == Recording
      {
        var ok := RecordCall();
        if !ok {
          return;
        }
        n := n + 1;
        if pause == Some(n) {
          SetTraceLevel();
        }
      }
    }

    static predicate PausedBefore(pause: Option<nat>, n: nat) {
      pause.Some? && 0 < pause.value <= n
    }

    /** The user has stopped the recording in front of its `glEnd`: one is inserted, and the recorded calls
        are executed. The queries are not restarted. */
    method BreakOff(shown: Target)
      modifies debuggee
      ensures debuggee.alive == old(debuggee.alive) && debuggee.Saved() == Broken(old(debuggee.Saved()), shown)
      ensures var f := old(Calls());
              Calls() == f.(inserted := f.inserted + [|f.executed|], executed := f.executed + f.stream, stream := [])
    {
      debuggee.InsertGlEnd();
      debuggee.RestoreRenderTarget(shown);
      debuggee.RestoreActiveShader();
      debuggee.EndReplay();
    }

    /** What a recording comes to that begins with nothing in the stream. */
    ghost predicate RecordedFrom(f: Flow, h: Holds, c: Click)
      requires f.current < |debuggee.calls|
      reads this, debuggee
    {
      var b, calls := f.current, debuggee.calls;
      && Calls() == RecordedOn(calls, f, c.pause)
      && if Interrupted(calls, b, c.pause) then
           && Stopped() && StepLevel(calls, b + c.pause.value, level)
           && debuggee.Saved() == if IsEnd(calls[b + c.pause.value]) then h else Broken(h, c.shown)
         else if RecordsWhole(calls, b) then level == Recording && Stopped() && debuggee.Saved() == h
         else Gone() && debuggee.fault == h.fault
    }

    /** A `glBegin` and what follows up to its `glEnd`. */
    method RecordBlock(c: Click)
      requires level == Recording && Stopped() && debuggee.stream == [] && IsBegin(debuggee.calls[debuggee.current])
      modifies this`level, debuggee
      ensures RecordedFrom(old(Calls()), old(debuggee.Saved()), c)
    {
      ghost var b, calls := debuggee.current, debuggee.calls;
      BlockFits(calls, b);
      var n := RecordToEnd(c.pause);
      if level == Setup {
        return;
      }
      if IsEnd(debuggee.calls[debuggee.current]) {
        EndIsLast(calls, b, b + n);
        var ok := RecordCall();
      } else {
        if HasEnd(calls, b) {
          BlockEndsOnFirstEnd(calls, b);
        }
        BreakOff(c.shown);
      }
    }

    method RecordDrawCall(c: Click)
      requires level == Recording && Stopped()
      modifies this`level, debuggee
      ensures RecordedFrom(Killed(old(Calls())), Taping(old(debuggee.Saved()), old(debuggee.stream) != []), c)
    {
      debuggee.StartRecording();
      if IsBegin(debuggee.calls[debuggee.current]) {
        RecordBlock(c);
      } else {
        assert Range(debuggee.current, 1) == [debuggee.current];
        var ok := RecordCall();
      }
    }

    /** A step of the shader. When it fails the debug run is left, or the program is killed. */
    method OnShaderStep(outcome: StepOutcome)
      requires Stopped() && level.Debugging?
      modifies this`level, debuggee
      ensures Sound() && Next(debuggee.calls, old(Now()), Event.ShaderStep(outcome), Now())
      ensures debuggee.Saved() == if outcome.StepOk? then old(debuggee.Saved())
                                  else if outcome.StepFailed? then Cleaned(old(level), old(debuggee.Saved()))
                                  else Holds(false, false, false, None,
                                             Cleaned(old(level), old(debuggee.Saved())).fault)
    {
      match outcome
      case StepOk =>
      case StepFailed =>
        CleanupDBGShader();
        level := Restart;
      case StepKilled =>
        CleanupDBGShader();
        Kill();
    }

    /** The compiler and the first step of a debug run. */
    method StartDebugging(c: Click)
      requires Stopped() && debuggee.redirected == Some(c.target)
      modifies this`level, debuggee
      ensures level == LevelOfRun(c) && Calls() == Begun(old(Calls()), c) && debuggee.fault == old(debuggee.fault)
      ensures if level.Setup? then Gone()
              else Stopped() && debuggee.Saved() == if level.Restart? then old(debuggee.Saved()).(redirected := None)
                                                    else old(debuggee.Saved())
    {
      level := Debugging(c.target);
      if !c.constructed {
        Kill();
        return;
      }
      if !c.compiled {
        CleanupDBGShader();
        level := Restart;
        return;
      }
      OnShaderStep(c.first);
    }

    /** Saves the shader and records the draw call, when a shader is executed for the first time. */
    method EnterDebugState(c: Click)
      requires Stopped()
      modifies this`level, debuggee
      ensures RecordedFrom(Killed(old(Calls())), Entered(old(debuggee.Saved()), old(debuggee.stream) != []), c)
    {
      level := Recording;
      debuggee.SaveActiveShader();
      RecordDrawCall(c);
    }

    /** The target is set: the draw call is recorded if it is not yet, and the debug run begins. If all is
        held that should be, pairing is kept unless the recording is interrupted. */
    method RunShader(c: Click)
      requires Stopped() && debuggee.redirected == Some(c.target) && (level == IsDebugable || level == Restart)
      modifies this`level, debuggee
      ensures Sound() && Calls() == Launched(debuggee.calls, old(level), old(Calls()), c)
      ensures LaunchLevel(debuggee.calls, old(level), old(debuggee.current), c, level)
      ensures old(debuggee.Saved()) == Holds(true, old(level) == Restart, old(level) == Restart, Some(c.target), false)
              && (old(debuggee.stream) == [] <==> old(level) == IsDebugable) ==>
                (Paired() <==>
                   !(old(level) == IsDebugable && Interrupted(debuggee.calls, old(debuggee.current), c.pause)))
    {
      if level == IsDebugable {
        EnterDebugState(c);
        if level != Recording {
          if Interrupted(debuggee.calls, old(debuggee.current), c.pause)
             && IsEnd(debuggee.calls[old(debuggee.current) + c.pause.value]) {
            PauseOnEnd(debuggee.calls, old(debuggee.current), c.pause);
          }
          return;
        }
      }
      StartDebugging(c);
    }

    /** The branches of the execute button. */
    method PressShaderButton(c: Click)
      requires Sound() && (level == IsDebugable || level.Debugging? || level == Restart)
      modifies this`level, debuggee
      ensures Sound() && Next(debuggee.calls, old(Now()), ShaderButton(c), Now())
      ensures old(Paired()) && old(level) == IsDebugable ==> (Paired() <==> !c.error.Refused?)
      ensures old(Paired()) && old(level) != IsDebugable ==> Paired()
    {
      if level.Debugging? {
        CleanupDBGShader();
        level := Restart;
        return;
      }
      if level == IsDebugable {
        if debuggee.calls[debuggee.current].debuggable {
          OneCall(debuggee.calls, debuggee.current, c.pause);
        }
        debuggee.SaveAndInterruptQueries();
      }
      if c.error.Critical? {
        Kill();
        return;
      }
      if c.error.Refused? {
        level := Restart;
        return;
      }
      debuggee.SetDbgTarget(c.target);
      RunShader(c);
    }

    /** The execute button of the shader tools. In the step mode it saves, redirects, records and goes
        into a debug run; in a debug run it leaves the run; after a run it starts the next one. From
        the step mode the pairing is kept if and only if the target is not refused. When the target is
        set and the draw call is recorded, the program is killed if there is no compiler, a shader with
        errors leads to the restart level, and otherwise the first step decides. */
    method OnShaderButton(c: Click)
      requires Sound() && (level == IsDebugable || level.Debugging? || level == Restart)
      modifies this`level, debuggee
      ensures Sound() && Next(debuggee.calls, old(Now()), ShaderButton(c), Now())
      ensures old(Paired()) && old(level) == IsDebugable ==> (Paired() <==> !c.error.Refused?)
      ensures old(Paired()) && old(level) != IsDebugable ==> Paired()
      ensures old(level).Debugging? ==> level == Restart && Stopped() && Calls() == old(Calls())
      ensures !old(level).Debugging? && c.error == Critical ==> Gone()
      ensures !old(level).Debugging? && c.error == Refused ==> level == Restart && Stopped() && Calls() == old(Calls())
      ensures c.error == NoError
              && old(level == Restart || (level == IsDebugable && debuggee.calls[debuggee.current].debuggable
                                          && debuggee.current + 1 < |debuggee.calls|)) ==>
                && (!c.constructed ==> Gone())
                && (c.constructed && !c.compiled ==> level == Restart && Stopped())
                && (c.constructed && c.compiled && c.first == StepOk ==> level == Debugging(c.target) && Stopped())
                && (c.constructed && c.compiled && c.first == StepFailed ==> level == Restart && Stopped())
                && (c.constructed && c.compiled && c.first == StepKilled ==> Gone())
                && debuggee.executed == old(debuggee.executed)
                && (level != Setup ==>
                      debuggee.stream == old(if level == Restart then debuggee.stream else [debuggee.current]))
    {
      ghost var was := Now();
      PressShaderButton(c);
      if c.error == NoError
         && (was.level == Restart || (was.level == IsDebugable && debuggee.calls[was.flow.current].debuggable)) {
        AfterClick(debuggee.calls, was, c, Now());
      } else if was.level.Debugging? || c.error != NoError {
        AfterNoTarget(debuggee.calls, was, c, Now());
      }
    }

    /** A step that handled the last events in its loop returns: it sets the step mode. From a debug run or
        behind one, everything stays saved and recorded. */
    method OnStepReturns()
      requires Sound() && level != Setup
      modifies this`level
      ensures Sound() && Returned(debuggee.calls, old(Now()), Now())
      ensures old(Paired()) ==> (Paired() <==> Stepping(old(level)))
      ensures old(InOrder()) ==> (InOrder() <==> debuggee.stream == [])
    {
      SetTraceLevel();
    }

    /** The event is not a click in the step mode on which the target is refused. */
    predicate Smooth(e: Event)
      reads this
    {
      e.ShaderButton? && level == IsDebugable ==> !e.click.error.Refused?
    }

    method Dispatch(e: Event)
      requires Sound() && Enabled(level, e)
      modifies this, debuggee
      ensures Sound() && Next(debuggee.calls, old(Now()), e, Now())
      ensures old(Paired()) ==> (Paired() <==> old(Smooth(e)))
      ensures e.Start? && e.started && |debuggee.calls| > 0 ==> Paired()
    {
      match e
      case Start(started) => OnStart(started);
      case Kill => OnKill();
      case Step(count) => OnStep(count);
      case Skip => OnSkip();
      case ShaderButton(click) => OnShaderButton(click);
      case ShaderStep(outcome) => OnShaderStep(outcome);
    }

    /** From every state an event takes the calls and the level on as `Next` says, and calls that are
        complete and in order stay so. Saves and restores that are paired stay paired if and only if no
        target is refused in the step mode. A start pairs them again. */
    method Handle(e: Event)
      requires Sound() && Enabled(level, e)
      modifies this, debuggee
      ensures Sound() && Next(debuggee.calls, old(Now()), e, Now())
      ensures old(InOrder()) ==> InOrder()
      ensures old(Paired()) ==> (Paired() <==> old(Smooth(e)))
      ensures e.Start? && e.started && |debuggee.calls| > 0 ==> Paired()
    {
      ghost var was, inOrder := Now(), InOrder();
      Dispatch(e);
      if inOrder {
        RegularAfter(debuggee.calls, was, e, Now());
        WholeAfter(debuggee.calls, was, e, Now());
      }
    }

    /** Any run of events: those are taken whose buttons are enabled when they come. They make a run of
        the state machine, over which every call is accounted for; calls are executed in order, and pairing
        ends on refused targets only. */
    method Session(events: seq<Event>) returns (ghost states: seq<State>, ghost taken: seq<Event>)
      requires Sound() && Accounted(Calls())
      modifies this, debuggee
      ensures Sound() && Accounted(Calls())
      ensures Run(debuggee.calls, states, taken) && states[0] == old(Now()) && states[|taken|] == Now()
      ensures old(InOrder()) ==> InOrder()
      ensures old(Paired()) && NoRefusal(events, |events|) ==> Paired()
    {
      states, taken := [Now()], [];
      var i := 0;
      while i < |events|
        invariant 0 <= i <= |events| && Sound()
        invariant Run(debuggee.calls, states, taken) && states[0] == old(Now()) && states[|taken|] == Now()
        invariant old(InOrder()) ==> InOrder()
        invariant old(Paired()) && NoRefusal(events, i) ==> Paired()
      {
        if Enabled(level, events[i]) {
          Handle(events[i]);
          states, taken := OneMore(debuggee.calls, states, taken, events[i], Now());
        }
        i := i + 1;
      }
      AlwaysAccounted(debuggee.calls, states, taken, |taken|);
    }
  }
}
