/**
 What becomes of the calls of the debugged program. Every call is finished in turn; it is executed,
 recorded to be executed later, lost, or skipped. The module says what every button does with the
 calls, from any state of the main window, and what holds of them over whole sessions.
 */
module CallFlow {
  import opened Wrappers

  datatype Target = VertexShader | GeometryShader | FragmentShader

  datatype Level = Setup | NotDebugable | IsDebugable | Running | Recording | Debugging(target: Target) | Restart

  /** A call of the program: its name, and whether a shader can be debugged on it. */
  datatype Call = Call(name: string, debuggable: bool)

  predicate IsBegin(c: Call) {
    c.name == "glBegin"
  }

  predicate IsEnd(c: Call) {
    c.name == "glEnd"
  }

  /** No shader can be debugged on a `glBegin`. */
  predicate BeginsUnmarked(calls: seq<Call>) {
    forall i :: 0 <= i < |calls| && IsBegin(calls[i]) ==> !calls[i].debuggable
  }

  /** The calls of a program, marked from the table of functions. */
  type Program = calls: seq<Call> | BeginsUnmarked(calls)

  /** The draw calls that the table of functions marks as debuggable. `glBegin` is not among them. */
  function DebuggableDrawCalls(): set<string> {
    {"glDrawArrays", "glDrawArraysInstanced", "glDrawElements", "glDrawElementsInstanced", "glDrawRangeElements",
     "glMultiDrawArrays", "glMultiDrawElements", "glDrawArraysEXT", "glDrawRangeElementsEXT", "glMultiDrawArraysEXT",
     "glMultiDrawElementsEXT", "glMultiModeDrawArraysIBM", "glMultiModeDrawElementsIBM", "glDrawElementArrayATI",
     "glDrawRangeElementArrayATI", "glDrawMeshArraysSUN", "glDrawElementArrayAPPLE", "glDrawRangeElementArrayAPPLE",
     "glMultiDrawElementArrayAPPLE", "glMultiDrawRangeElementArrayAPPLE", "glDrawArraysInstancedEXT",
     "glDrawElementsInstancedEXT"}
  }

  /** The table marks no `glBegin`. */
  lemma {:induction false} TableMarks(calls: seq<Call>)
    requires forall i :: 0 <= i < |calls| ==> (calls[i].debuggable <==> calls[i].name in DebuggableDrawCalls())
    ensures BeginsUnmarked(calls)
  {
    forall i | 0 <= i < |calls| && calls[i].debuggable ensures !IsBegin(calls[i]) {
      assert calls[i].name[2] in {'D', 'M'};
    }
  }

  datatype TargetError = NoError | Refused | Critical

  datatype StepOutcome = StepOk | StepFailed | StepKilled

  /** What the user and the environment do to a click on the shader button: the shown shader, the
      answer to the target command, whether the compiler works and accepts, how the first step ends,
      after how many recorded calls the user pauses, if at all, and which shader is shown then. */
  datatype Click = Click(target: Target, error: TargetError, constructed: bool, compiled: bool, first: StepOutcome,
                         pause: Option<nat>, shown: Target)

  datatype Event =
    | Start(started: bool)
    | Kill
    | Step(count: nat)
    | Skip
    | ShaderButton(click: Click)
    | ShaderStep(outcome: StepOutcome)

  // ---------- Sequences of calls ----------

  /** Calls `0` to `n - 1` that were not skipped, in order. */
  function Kept(n: nat, skipped: set<int>): seq<int> {
    if n == 0 then [] else Kept(n - 1, skipped) + if n - 1 in skipped then [] else [n - 1]
  }

  function Range(i: int, n: nat): (r: seq<int>)
    ensures |r| == n
  {
    if n == 0 then [] else Range(i, n - 1) + [i + n - 1]
  }

  lemma {:induction false} KeptMore(i: nat, n: nat, skipped: set<int>)
    requires forall k :: k in skipped ==> k < i
    ensures Kept(i + n, skipped) == Kept(i, skipped) + Range(i, n)
  {
    if n == 0 {
    } else {
      KeptMore(i, n - 1, skipped);
    }
  }

  lemma {:induction false} KeptSkip(n: nat, m: nat, skipped: set<int>)
    requires n <= m
    ensures Kept(n, skipped + {m}) == Kept(n, skipped)
  {
    if n == 0 {
    } else {
      KeptSkip(n - 1, m, skipped);
    }
  }

  /** Every call that was not skipped occurs, once and in order. */
  lemma {:induction false} KeptInOrder(n: nat, skipped: set<int>)
    ensures forall k :: k in Kept(n, skipped) <==> 0 <= k < n && k !in skipped
    ensures forall i, j :: 0 <= i < j < |Kept(n, skipped)| ==> Kept(n, skipped)[i] < Kept(n, skipped)[j]
  {
    if n == 0 {
    } else {
      KeptInOrder(n - 1, skipped);
      var before := Kept(n - 1, skipped);
      forall i | 0 <= i < |before| ensures before[i] < n - 1 {
        assert before[i] in before;
      }
    }
  }

  lemma {:induction false} RangeAt(i: int, n: nat, k: nat)
    requires k < n
    ensures Range(i, n)[k] == i + k
  {
    if k == n - 1 {
    } else {
      RangeAt(i, n - 1, k);
    }
  }

  /** Of consecutive numbers each occurs once. */
  lemma {:induction false} ConsecutiveCopies(r: seq<int>, i: int, k: int)
    requires forall j :: 0 <= j < |r| ==> r[j] == i + j
    ensures multiset(r)[k] == if i <= k < i + |r| then 1 else 0
  {
    if r == [] {
    } else {
      var front, last := r[..|r| - 1], r[|r| - 1];
      ConsecutiveCopies(front, i, k);
      assert r == front + [last];
    }
  }

  lemma {:induction false} RangeCopies(i: int, n: nat, k: int)
    ensures multiset(Range(i, n))[k] == if i <= k < i + n then 1 else 0
  {
    forall j | 0 <= j < n ensures Range(i, n)[j] == i + j {
      RangeAt(i, n, j);
    }
    ConsecutiveCopies(Range(i, n), i, k);
  }

  /** Calls in the order of the program. */
  ghost predicate Ordered(s: seq<int>) {
    forall i, j :: 0 <= i < j < |s| ==> s[i] < s[j]
  }

  ghost predicate Before(s: seq<int>, t: seq<int>) {
    forall i, j :: 0 <= i < |s| && 0 <= j < |t| ==> s[i] < t[j]
  }

  lemma {:induction false} OrderedConcat(s: seq<int>, t: seq<int>)
    ensures Ordered(s + t) <==> Ordered(s) && Ordered(t) && Before(s, t)
  {
    var r := s + t;
    if Ordered(r) {
      forall i, j | 0 <= i < j < |s| ensures s[i] < s[j] {
        assert r[i] < r[j];
      }
      forall i, j | 0 <= i < j < |t| ensures t[i] < t[j] {
        assert r[|s| + i] < r[|s| + j];
      }
      forall i, j | 0 <= i < |s| && 0 <= j < |t| ensures s[i] < t[j] {
        assert r[i] < r[|s| + j];
      }
    }
  }

  ghost predicate Within(s: seq<int>, t: seq<int>) {
    forall i :: 0 <= i < |s| ==> s[i] in t
  }

  /** The front of an ordered sequence holds everything but the last element. */
  lemma {:induction false} FrontWithin(s: seq<int>, t: seq<int>)
    requires Ordered(s) && Ordered(t) && Within(s, t) && s != [] && t != [] && s[|s| - 1] == t[|t| - 1]
    ensures Within(s[..|s| - 1], t[..|t| - 1])
  {
    var a, b := s[..|s| - 1], t[..|t| - 1];
    forall i | 0 <= i < |a| ensures a[i] in b {
      assert s[i] in t && s[i] < s[|s| - 1];
      var j :| 0 <= j < |t| && t[j] == s[i];
      assert b[j] == a[i];
    }
  }

  lemma {:induction false} LastsAgree(s: seq<int>, t: seq<int>)
    requires Ordered(s) && Ordered(t) && Within(s, t) && s != []
    ensures t != [] && s[|s| - 1] <= t[|t| - 1]
  {
    var x := s[|s| - 1];
    assert x in t;
    var j :| 0 <= j < |t| && t[j] == x;
  }

  /** In order, a sequence is known by its elements. */
  lemma {:induction false} SameOrdered(s: seq<int>, t: seq<int>)
    requires Ordered(s) && Ordered(t) && Within(s, t) && Within(t, s)
    ensures s == t
  {
    if s == [] && t == [] {
    } else if s == [] {
      LastsAgree(t, s);
    } else {
      LastsAgree(s, t);
      LastsAgree(t, s);
      FrontWithin(s, t);
      FrontWithin(t, s);
      SameOrdered(s[..|s| - 1], t[..|t| - 1]);
      assert s == s[..|s| - 1] + [s[|s| - 1]] && t == t[..|t| - 1] + [t[|t| - 1]];
    }
  }

  // ---------- Blocks ----------

  /** The number of calls from `i` up to and including the first `glEnd`; if there is none, up to the end. */
  function BlockLength(calls: seq<Call>, i: nat): nat
    decreases |calls| - i
  {
    if i >= |calls| then 0 else if IsEnd(calls[i]) then 1 else 1 + BlockLength(calls, i + 1)
  }

  predicate HasEnd(calls: seq<Call>, i: nat)
    decreases |calls| - i
  {
    i < |calls| && (IsEnd(calls[i]) || HasEnd(calls, i + 1))
  }

  /** The block ends on the first `glEnd`. */
  lemma {:induction false} BlockEndsOnFirstEnd(calls: seq<Call>, i: nat)
    requires i <= |calls| && HasEnd(calls, i)
    ensures var n := BlockLength(calls, i);
            && 0 < n && i + n <= |calls| && calls[i + n - 1].name == "glEnd"
            && forall k :: i <= k < i + n - 1 ==> calls[k].name != "glEnd"
    decreases |calls| - i
  {
    if IsEnd(calls[i]) {
    } else {
      BlockEndsOnFirstEnd(calls, i + 1);
    }
  }

  lemma {:induction false} BlockFits(calls: seq<Call>, i: nat)
    ensures i <= |calls| ==> i + BlockLength(calls, i) <= |calls|
    ensures i <= |calls| && !HasEnd(calls, i) ==> i + BlockLength(calls, i) == |calls|
    decreases |calls| - i
  {
    if i >= |calls| {
    } else {
      BlockFits(calls, i + 1);
    }
  }

  /** The only `glEnd` of a block is its last call. */
  lemma {:induction false} EndIsLast(calls: seq<Call>, i: nat, k: nat)
    requires i <= k < |calls| && k < i + BlockLength(calls, i) && IsEnd(calls[k])
    ensures HasEnd(calls, i) && k == i + BlockLength(calls, i) - 1
    decreases |calls| - i
  {
    if IsEnd(calls[i]) {
    } else {
      EndIsLast(calls, i + 1, k);
    }
  }

  /** The user pauses while a block is recorded, before its `glEnd` is recorded. */
  predicate PausedIn(calls: seq<Call>, b: nat, pause: Option<nat>) {
    pause.Some? && 0 < pause.value < BlockLength(calls, b)
  }

  /** A pause leaves the recording unless the program ends on the `glEnd` that is recorded then. */
  predicate Interrupted(calls: seq<Call>, b: nat, pause: Option<nat>)
    ensures Interrupted(calls, b, pause) ==> pause.Some? && 0 < pause.value && b + pause.value < |calls|
  {
    BlockFits(calls, b);
    && b < |calls| && IsBegin(calls[b]) && PausedIn(calls, b, pause)
    && !(HasEnd(calls, b) && pause.value == BlockLength(calls, b) - 1 && b + BlockLength(calls, b) == |calls|)
  }

  lemma {:induction false} PauseOnEnd(calls: seq<Call>, b: nat, pause: Option<nat>)
    requires b < |calls| && Interrupted(calls, b, pause) && IsEnd(calls[b + pause.value])
    ensures b + pause.value + 1 < |calls|
  {
    BlockFits(calls, b);
    EndIsLast(calls, b, b + pause.value);
  }

  /** How many calls a recording takes. */
  function RecordLength(calls: seq<Call>, b: nat): (r: nat)
    requires b < |calls|
    ensures 0 < r && b + r <= |calls|
  {
    BlockFits(calls, b);
    if IsBegin(calls[b]) then BlockLength(calls, b) else 1
  }

  /** The program reaches a call behind the recorded ones. */
  predicate RecordsWhole(calls: seq<Call>, b: nat) {
    b < |calls| && (IsBegin(calls[b]) ==> HasEnd(calls, b)) && b + RecordLength(calls, b) < |calls|
  }

  /** A recording begins at a debuggable call, so it takes that call alone, and no pause can interrupt it. */
  lemma {:induction false} OneCall(calls: Program, b: nat, pause: Option<nat>)
    requires b < |calls| && calls[b].debuggable
    ensures !IsBegin(calls[b]) && !Interrupted(calls, b, pause)
    ensures RecordLength(calls, b) == 1 && (RecordsWhole(calls, b) <==> b + 1 < |calls|)
  {
  }

  // ---------- Levels ----------

  predicate Stepping(l: Level) {
    l.NotDebugable? || l.IsDebugable?
  }

  /** The buttons that the run level enables. */
  predicate Enabled(l: Level, e: Event) {
    match e
    case Start(_) => l.Setup?
    case Kill => !l.Setup?
    case Step(_) => Stepping(l) || l.Restart?
    case Skip => Stepping(l) || l.Restart?
    case ShaderButton(_) => l.IsDebugable? || l.Debugging? || l.Restart?
    case ShaderStep(_) => l.Debugging?
  }

  function LevelOfStep(target: Target, outcome: StepOutcome): Level {
    match outcome
    case StepOk => Debugging(target)
    case StepFailed => Restart
    case StepKilled => Setup
  }

  /** The level that the compiler and the first step lead to. */
  function LevelOfRun(c: Click): Level {
    if !c.constructed then Setup else if !c.compiled then Restart else LevelOfStep(c.target, c.first)
  }

  // ---------- What the buttons do with the calls ----------

  /** `current` is the call at which the program has stopped; all calls before it are finished. `inserted`
      says behind how many executed calls the debugger inserted a `glEnd` of its own. */
  datatype Flow = Flow(executed: seq<int>, inserted: seq<nat>, stream: seq<int>, lost: seq<int>, current: nat,
                       skipped: set<int>)

  datatype State = State(level: Level, flow: Flow)

  /** Between events the program waits in front of a call, or there is no program. */
  predicate Sane(calls: seq<Call>, s: State) {
    match s.level
    case Setup => s.flow.stream == []
    case Running => false
    case Recording => false
    case _ => s.flow.current < |calls|
  }

  /** Only from the restart level (and while recording) leaving the debug state executes the recorded calls. */
  function Replayed(l: Level, f: Flow): Flow {
    if l.Restart? || l.Recording? then f.(executed := f.executed + f.stream, stream := []) else f
  }

  /** The recorded calls go with the program. */
  function Killed(f: Flow): Flow {
    f.(stream := [], lost := f.lost + f.stream)
  }

  /** Behind its last call the program ends. */
  function GoneOn(calls: seq<Call>, f: Flow): Flow {
    if f.current >= |calls| then Killed(f) else f
  }

  function AtLeastOne(count: nat): nat {
    if count == 0 then 1 else count
  }

  function StepCount(calls: seq<Call>, f: Flow, count: nat): nat
    requires f.current < |calls|
  {
    if f.current + AtLeastOne(count) <= |calls| then AtLeastOne(count) else |calls| - f.current
  }

  function Stepped(calls: seq<Call>, l: Level, f: Flow, count: nat): Flow
    requires f.current < |calls|
  {
    var g, n := Replayed(l, f), StepCount(calls, f, count);
    GoneOn(calls, g.(executed := g.executed + Range(f.current, n), current := f.current + n))
  }

  function PassedOver(f: Flow): Flow {
    f.(current := f.current + 1, skipped := f.skipped + {f.current})
  }

  function Skipped(calls: seq<Call>, l: Level, f: Flow): Flow {
    GoneOn(calls, PassedOver(Replayed(l, f)))
  }

  /** The next `n` calls are recorded. */
  function Taped(f: Flow, n: nat): Flow {
    f.(stream := Range(f.current, n), current := f.current + n)
  }

  /** The next `n` calls are recorded, a `glEnd` is inserted, and they are executed. */
  function BrokenOff(f: Flow, n: nat): Flow {
    f.(executed := f.executed + Range(f.current, n), inserted := f.inserted + [|f.executed|], current := f.current + n)
  }

  /** A pause in front of the `glEnd` inserts one and executes what was recorded, a pause on it still
      records it. */
  function RecordedOn(calls: seq<Call>, g: Flow, pause: Option<nat>): Flow
    requires g.current < |calls|
  {
    var b := g.current;
    if Interrupted(calls, b, pause) then
      if IsEnd(calls[b + pause.value]) then Taped(g, pause.value + 1) else BrokenOff(g, pause.value)
    else
      var h := Taped(g, RecordLength(calls, b));
      if RecordsWhole(calls, b) then h else Killed(h)
  }

  /** A recording forgets the calls of an earlier one. */
  function Recorded(calls: seq<Call>, f: Flow, pause: Option<nat>): Flow
    requires f.current < |calls|
  {
    RecordedOn(calls, Killed(f), pause)
  }

  /** The debug run begins: the recorded calls are kept unless the program is killed at once. */
  function Begun(f: Flow, c: Click): Flow {
    if LevelOfRun(c).Setup? then Killed(f) else f
  }

  /** The target is set: in the step mode the draw call is recorded first. */
  function Launched(calls: seq<Call>, l: Level, f: Flow, c: Click): Flow
    requires f.current < |calls|
  {
    if l.Restart? then Begun(f, c)
    else if Interrupted(calls, f.current, c.pause) || !RecordsWhole(calls, f.current) then Recorded(calls, f, c.pause)
    else Begun(Recorded(calls, f, c.pause), c)
  }

  function Clicked(calls: seq<Call>, l: Level, f: Flow, c: Click): Flow
    requires f.current < |calls|
  {
    if l.Debugging? || c.error.Refused? then f
    else if c.error.Critical? then Killed(f)
    else Launched(calls, l, f, c)
  }

  /** The calls after an event. */
  function After(calls: seq<Call>, s: State, e: Event): Flow
    requires Sane(calls, s) && Enabled(s.level, e)
  {
    var l, f := s.level, s.flow;
    match e
    case Start(started) => if started && |calls| > 0 then Flow([], [], [], [], 0, {}) else f
    case Kill => Killed(Replayed(l, f))
    case Step(count) => Stepped(calls, l, f, count)
    case Skip => Skipped(calls, l, f)
    case ShaderButton(c) => Clicked(calls, l, f, c)
    case ShaderStep(outcome) => if outcome.StepKilled? then Killed(f) else f
  }

  /** In the step mode the sub-level depends on call `n` and on whether shader code is known. */
  predicate StepLevel(calls: seq<Call>, n: nat, l: Level) {
    l.NotDebugable? || (l.IsDebugable? && n < |calls| && calls[n].debuggable)
  }

  /** The levels that a click leads to when the target is set. After a pause it is the level of the call
      at which the user paused. */
  predicate LaunchLevel(calls: seq<Call>, from: Level, b: nat, c: Click, l: Level) {
    if from.Restart? then l == LevelOfRun(c)
    else if Interrupted(calls, b, c.pause) then StepLevel(calls, b + c.pause.value, l)
    else l == if RecordsWhole(calls, b) then LevelOfRun(c) else Setup
  }

  /** The levels that an event can lead to; `f` are the calls after it. */
  predicate LevelAfter(calls: seq<Call>, s: State, e: Event, f: Flow, l: Level) {
    match e
    case Start(started) => if started && |calls| > 0 then StepLevel(calls, 0, l) else l.Setup?
    case Kill => l.Setup?
    case Step(_) => if f.current < |calls| then StepLevel(calls, f.current, l) else l.Setup?
    case Skip => if f.current < |calls| then StepLevel(calls, f.current, l) else l.Setup?
    case ShaderButton(c) =>
      if s.level.Debugging? || c.error.Refused? then l.Restart?
      else if c.error.Critical? then l.Setup?
      else LaunchLevel(calls, s.level, s.flow.current, c, l)
    case ShaderStep(outcome) => s.level.Debugging? && l == LevelOfStep(s.level.target, outcome)
  }

  /** One event of a session. */
  predicate Next(calls: seq<Call>, s: State, e: Event, t: State) {
    && Sane(calls, s) && Enabled(s.level, e)
    && t.flow == After(calls, s, e) && LevelAfter(calls, s, e, t.flow, t.level)
  }

  /** Any run of enabled events: `states` are the states around them. */
  ghost predicate Run(calls: seq<Call>, states: seq<State>, events: seq<Event>) {
    && |states| == |events| + 1
    && forall i :: 0 <= i < |events| ==> Taken(calls, states, events, i)
  }

  ghost predicate Taken(calls: seq<Call>, states: seq<State>, events: seq<Event>, i: nat) {
    i < |events| < |states| && Next(calls, states[i], events[i], states[i + 1])
  }

  /** A run goes on. */
  lemma {:induction false} OneMore(calls: seq<Call>, states: seq<State>, events: seq<Event>, e: Event, t: State)
    returns (moreStates: seq<State>, moreEvents: seq<Event>)
    requires Run(calls, states, events) && Next(calls, states[|events|], e, t)
    ensures Run(calls, moreStates, moreEvents) && |moreEvents| == |events| + 1
    ensures moreStates[0] == states[0] && moreStates[|moreEvents|] == t
    ensures states <= moreStates && events <= moreEvents && moreEvents[|events|] == e
  {
    moreStates, moreEvents := states + [t], events + [e];
    forall i | 0 <= i < |events + [e]| ensures Taken(calls, states + [t], events + [e], i) {
      if i < |events| {
        assert Taken(calls, states, events, i);
      }
    }
  }

  lemma {:induction false} StaysSane(calls: seq<Call>, s: State, e: Event, t: State)
    requires Next(calls, s, e, t)
    ensures Sane(calls, t)
  {
    var f := s.flow;
    if e.ShaderButton? && s.level.IsDebugable? && Interrupted(calls, f.current, e.click.pause)
       && IsEnd(calls[f.current + e.click.pause.value]) {
      PauseOnEnd(calls, f.current, e.click.pause);
    }
  }

  // ---------- Every call is accounted for ----------

  function Copies(f: Flow, k: int): nat {
    multiset(f.executed)[k] + multiset(f.stream)[k] + multiset(f.lost)[k]
  }

  /** Every finished call that was not skipped is exactly once among the executed, the recorded and the
      lost ones, and no other call is. */
  ghost predicate Accounted(f: Flow) {
    && (forall k :: Copies(f, k) == if 0 <= k < f.current && k !in f.skipped then 1 else 0)
    && forall k :: k in f.skipped ==> 0 <= k < f.current
  }

  lemma {:induction false} ReplayedAccounted(l: Level, f: Flow)
    requires Accounted(f)
    ensures Accounted(Replayed(l, f))
  {
    forall k ensures Copies(Replayed(l, f), k) == Copies(f, k) {
    }
  }

  lemma {:induction false} KilledAccounted(f: Flow)
    requires Accounted(f)
    ensures Accounted(Killed(f))
  {
    forall k ensures Copies(Killed(f), k) == Copies(f, k) {
    }
  }

  /** Calls are executed or recorded: `more` are new copies of the next `n` calls. */
  lemma {:induction false} ForwardAccounted(f: Flow, g: Flow, n: nat)
    requires Accounted(f) && g.current == f.current + n && g.skipped == f.skipped && g.lost == f.lost
    requires || (g.stream == f.stream && g.executed == f.executed + Range(f.current, n))
             || (g.executed == f.executed && g.stream == f.stream + Range(f.current, n))
    ensures Accounted(g)
  {
    forall k ensures Copies(g, k) == if 0 <= k < g.current && k !in g.skipped then 1 else 0 {
      RangeCopies(f.current, n, k);
      assert Copies(f, k) == if 0 <= k < f.current && k !in f.skipped then 1 else 0;
    }
  }

  lemma {:induction false} PassedOverAccounted(f: Flow)
    requires Accounted(f)
    ensures Accounted(PassedOver(f))
  {
    var h := PassedOver(f);
    forall k ensures Copies(h, k) == if 0 <= k < h.current && k !in h.skipped then 1 else 0 {
      assert Copies(h, k) == Copies(f, k);
    }
  }

  lemma {:induction false} SkippedAccounted(calls: seq<Call>, l: Level, f: Flow)
    requires Accounted(f)
    ensures Accounted(Skipped(calls, l, f))
  {
    ReplayedAccounted(l, f);
    PassedOverAccounted(Replayed(l, f));
    KilledAccounted(PassedOver(Replayed(l, f)));
  }

  lemma {:induction false} SteppedAccounted(calls: seq<Call>, l: Level, f: Flow, count: nat)
    requires Accounted(f) && f.current < |calls|
    ensures Accounted(Stepped(calls, l, f, count))
  {
    var g, n := Replayed(l, f), StepCount(calls, f, count);
    ReplayedAccounted(l, f);
    var h := g.(executed := g.executed + Range(f.current, n), current := f.current + n);
    ForwardAccounted(g, h, n);
    KilledAccounted(h);
  }

  lemma {:induction false} TapedAccounted(f: Flow, n: nat)
    requires Accounted(f) && f.stream == []
    ensures Accounted(Taped(f, n))
  {
    ForwardAccounted(f, Taped(f, n), n);
  }

  lemma {:induction false} BrokenOffAccounted(f: Flow, n: nat)
    requires Accounted(f) && f.stream == []
    ensures Accounted(BrokenOff(f, n))
  {
    ForwardAccounted(f, BrokenOff(f, n), n);
  }

  lemma {:induction false} RecordedAccounted(calls: seq<Call>, f: Flow, pause: Option<nat>)
    requires Accounted(f) && f.current < |calls|
    ensures Accounted(Recorded(calls, f, pause))
  {
    KilledAccounted(f);
    if Interrupted(calls, f.current, pause) {
      TapedAccounted(Killed(f), pause.value + 1);
      BrokenOffAccounted(Killed(f), pause.value);
    } else {
      var h := Taped(Killed(f), RecordLength(calls, f.current));
      TapedAccounted(Killed(f), RecordLength(calls, f.current));
      KilledAccounted(h);
    }
  }

  /** No event forgets a call or gives it two fates. */
  lemma {:induction false} AccountedAfter(calls: seq<Call>, s: State, e: Event)
    requires Sane(calls, s) && Enabled(s.level, e) && Accounted(s.flow)
    ensures Accounted(After(calls, s, e))
  {
    var l, f := s.level, s.flow;
    match e
    case Start(_) =>
    case Kill =>
      ReplayedAccounted(l, f);
      KilledAccounted(Replayed(l, f));
    case Step(count) => SteppedAccounted(calls, l, f, count);
    case Skip => SkippedAccounted(calls, l, f);
    case ShaderButton(c) =>
      KilledAccounted(f);
      if l.IsDebugable? {
        RecordedAccounted(calls, f, c.pause);
        KilledAccounted(Recorded(calls, f, c.pause));
      }
    case ShaderStep(_) => KilledAccounted(f);
  }

  /** Over any run of enabled events every finished call is executed, recorded, lost or skipped. */
  lemma {:induction false} AlwaysAccounted(calls: seq<Call>, states: seq<State>, events: seq<Event>, n: nat)
    requires Run(calls, states, events) && n <= |events| && Sane(calls, states[0]) && Accounted(states[0].flow)
    ensures Sane(calls, states[n]) && Accounted(states[n].flow)
  {
    if n == 0 {
    } else {
      AlwaysAccounted(calls, states, events, n - 1);
      assert Taken(calls, states, events, n - 1);
      AccountedAfter(calls, states[n - 1], events[n - 1]);
      StaysSane(calls, states[n - 1], events[n - 1], states[n]);
    }
  }

  // ---------- When calls are lost ----------

  /** Recorded calls that leaving the debug state does not execute. */
  predicate Leftover(s: State) {
    !s.level.Restart? && s.flow.stream != []
  }

  /** The event loses calls: the program ends while they are recorded, or a recording that was left over
      is forgotten by the next one. */
  predicate Loses(calls: seq<Call>, s: State, e: Event) {
    var b := s.flow.current;
    match e
    case Start(_) => false
    case Kill => Leftover(s)
    case Step(count) => Leftover(s) && b + AtLeastOne(count) >= |calls|
    case Skip => Leftover(s) && b + 1 >= |calls|
    case ShaderButton(c) =>
      if s.level.Debugging? || c.error.Refused? then false
      else if c.error.Critical? then s.flow.stream != []
      else if s.level.Restart? then s.flow.stream != [] && LevelOfRun(c).Setup?
      else s.flow.stream != []
           || (!Interrupted(calls, b, c.pause) && (!RecordsWhole(calls, b) || LevelOfRun(c).Setup?))
    case ShaderStep(outcome) => outcome.StepKilled? && s.flow.stream != []
  }

  /** From every state, exactly these events lose calls; what is lost stays lost until the next start. */
  lemma {:induction false} LostIff(calls: seq<Call>, s: State, e: Event)
    requires Sane(calls, s) && Enabled(s.level, e) && !e.Start?
    ensures s.flow.lost <= After(calls, s, e).lost
    ensures After(calls, s, e).lost != s.flow.lost <==> Loses(calls, s, e)
  {
  }

  /** The user clicks in the step mode and pauses when the `glEnd` of the block is the current call. */
  predicate PausesOnEnd(calls: seq<Call>, s: State, e: Event) {
    && e.ShaderButton? && s.level.IsDebugable? && e.click.error.NoError?
    && Interrupted(calls, s.flow.current, e.click.pause) && IsEnd(calls[s.flow.current + e.click.pause.value])
  }

  /** A pause on the `glEnd` is the only event that leaves a recording over in the step mode. It would need
      a debuggable `glBegin`, so it does not happen with the table as it is. */
  lemma {:induction false} LeftoverIff(calls: seq<Call>, s: State, e: Event, t: State)
    requires Next(calls, s, e, t) && !(Stepping(s.level) && Leftover(s))
    ensures Stepping(t.level) && Leftover(t) <==> PausesOnEnd(calls, s, e)
  {
  }

  /** What such a pause would do: killing the program or recording again would lose the whole block. */
  lemma {:induction false} PausedBlockIsLost(calls: seq<Call>, s: State, e: Event, t: State, following: Event)
    requires Next(calls, s, e, t) && PausesOnEnd(calls, s, e)
    requires following.Kill? || (following.ShaderButton? && following.click.error.NoError?)
    requires Enabled(t.level, following)
    ensures Sane(calls, t) && s.flow.lost + s.flow.stream + Range(s.flow.current, e.click.pause.value + 1)
                              <= After(calls, t, following).lost
  {
    StaysSane(calls, s, e, t);
  }

  // ---------- Once and in order ----------

  /** The executed, the recorded and the lost calls. */
  function Fates(f: Flow): seq<int> {
    f.executed + f.stream + f.lost
  }

  /** The finished calls, without the skipped ones, were executed in order, and the others are still
      recorded or were lost at the end. */
  ghost predicate Conserved(f: Flow) {
    Fates(f) == Kept(f.current, f.skipped)
  }

  lemma {:induction false} FateCopies(f: Flow, k: int)
    ensures multiset(Fates(f))[k] == Copies(f, k)
  {
  }

  /** Being conserved is being accounted for, in order. */
  lemma {:induction false} ConservedIff(f: Flow)
    requires Accounted(f)
    ensures Conserved(f) <==> Ordered(Fates(f))
  {
    var kept := Kept(f.current, f.skipped);
    KeptInOrder(f.current, f.skipped);
    if Ordered(Fates(f)) {
      forall k ensures k in Fates(f) <==> k in kept {
        FateCopies(f, k);
        assert k in Fates(f) <==> k in multiset(Fates(f));
      }
      SameOrdered(Fates(f), kept);
    }
  }

  /** Calls are executed or recorded in front of others that are left over. */
  predicate Overtakes(calls: seq<Call>, s: State, e: Event) {
    && Stepping(s.level) && s.flow.stream != []
    && match e
       case Step(_) => true
       case ShaderButton(c) =>
         && c.error.NoError?
         && (Interrupted(calls, s.flow.current, c.pause)
             || (RecordsWhole(calls, s.flow.current) && !LevelOfRun(c).Setup?))
       case _ => false
  }

  /** Conserved, and while a program runs nothing is lost. */
  ghost predicate Whole(s: State) {
    Conserved(s.flow) && Accounted(s.flow) && (s.level.Setup? || s.flow.lost == [])
  }

  /** Calls in front of older ones are out of order. */
  lemma {:induction false} Overtaken(before: seq<int>, old0: seq<int>, b: nat, n: nat, skipped: set<int>)
    requires before + old0 == Kept(b, skipped) && old0 != [] && n > 0
    ensures before + Range(b, n) + old0 != Kept(b, skipped) + Range(b, n)
  {
    KeptInOrder(b, skipped);
    assert Kept(b, skipped)[|before|] == old0[0];
    assert old0[0] in Kept(b, skipped);
    RangeAt(b, n, 0);
    var x, y := before + Range(b, n) + old0, Kept(b, skipped) + Range(b, n);
    assert x[|before|] == b && y[|before|] == old0[0];
  }

  lemma {:induction false} ForwardConserved(f: Flow, g: Flow, n: nat)
    requires Conserved(f) && Accounted(f) && f.lost == [] && g.current == f.current + n && g.skipped == f.skipped
    requires Fates(g) == f.executed + f.stream + Range(f.current, n)
    ensures Conserved(g)
  {
    KeptMore(f.current, n, f.skipped);
  }

  lemma {:induction false} ForwardBroken(f: Flow, g: Flow, n: nat)
    requires Conserved(f) && Accounted(f) && f.lost == [] && g.current == f.current + n && g.skipped == f.skipped
    requires f.stream != [] && n > 0 && Fates(g) == f.executed + Range(f.current, n) + f.stream
    ensures !Conserved(g)
  {
    KeptMore(f.current, n, f.skipped);
    Overtaken(f.executed, f.stream, f.current, n, f.skipped);
  }

  lemma {:induction false} SteppedConserved(calls: seq<Call>, l: Level, f: Flow, count: nat)
    requires Conserved(f) && Accounted(f) && f.lost == [] && f.current < |calls| && !l.Recording?
    ensures Conserved(Stepped(calls, l, f, count)) <==> l.Restart? || f.stream == []
  {
    var n, g := StepCount(calls, f, count), Replayed(l, f);
    var h := g.(executed := g.executed + Range(f.current, n), current := f.current + n);
    if l.Restart? || f.stream == [] {
      ForwardConserved(f, h, n);
    } else {
      ForwardBroken(f, h, n);
    }
  }

  lemma {:induction false} LeftConserved(l: Level, f: Flow)
    requires Conserved(f) && f.lost == []
    ensures Conserved(Killed(f)) && Conserved(Killed(Replayed(l, f)))
  {
  }

  lemma {:induction false} SkippedConserved(calls: seq<Call>, l: Level, f: Flow)
    requires Conserved(f) && f.lost == []
    ensures Conserved(Skipped(calls, l, f))
  {
    KeptSkip(f.current, f.current, f.skipped);
  }

  lemma {:induction false} TapedConserved(f: Flow, n: nat)
    requires Conserved(f) && Accounted(f) && f.lost == [] && n > 0
    ensures Conserved(Taped(Killed(f), n)) <==> f.stream == []
    ensures Conserved(Killed(Taped(Killed(f), n)))
  {
    var g := Taped(Killed(f), n);
    ForwardConserved(f, Killed(g), n);
    if f.stream == [] {
      ForwardConserved(f, g, n);
    } else {
      ForwardBroken(f, g, n);
    }
  }

  lemma {:induction false} BrokenOffConserved(f: Flow, n: nat)
    requires Conserved(f) && Accounted(f) && f.lost == [] && n > 0
    ensures Conserved(BrokenOff(Killed(f), n)) <==> f.stream == []
  {
    var g := BrokenOff(Killed(f), n);
    if f.stream == [] {
      ForwardConserved(f, g, n);
    } else {
      ForwardBroken(f, g, n);
    }
  }

  /** What a click in the step mode comes to, when the target is set. */
  lemma {:induction false} ClickedIs(calls: seq<Call>, f: Flow, c: Click)
    requires f.current < |calls| && c.error.NoError?
    ensures var b, g := f.current, Clicked(calls, IsDebugable, f, c);
            if Interrupted(calls, b, c.pause) then
              if IsEnd(calls[b + c.pause.value]) then g == Taped(Killed(f), c.pause.value + 1)
              else g == BrokenOff(Killed(f), c.pause.value)
            else if RecordsWhole(calls, b) && !LevelOfRun(c).Setup? then g == Taped(Killed(f), RecordLength(calls, b))
            else g == Killed(Taped(Killed(f), RecordLength(calls, b)))
  {
  }

  lemma {:induction false} RecordedConserved(calls: seq<Call>, f: Flow, c: Click, g: Flow)
    requires Conserved(f) && Accounted(f) && f.lost == [] && f.current < |calls| && c.error.NoError?
    requires g == Clicked(calls, IsDebugable, f, c)
    ensures Conserved(g) <==>
              f.stream == []
              || (!Interrupted(calls, f.current, c.pause)
                  && (!RecordsWhole(calls, f.current) || LevelOfRun(c).Setup?))
  {
    ClickedIs(calls, f, c);
    if Interrupted(calls, f.current, c.pause) {
      if IsEnd(calls[f.current + c.pause.value]) {
        TapedConserved(f, c.pause.value + 1);
      } else {
        BrokenOffConserved(f, c.pause.value);
      }
    } else {
      TapedConserved(f, RecordLength(calls, f.current));
    }
  }

  lemma {:induction false} ClickedConserved(calls: seq<Call>, l: Level, f: Flow, c: Click, g: Flow)
    requires Conserved(f) && Accounted(f) && f.lost == [] && f.current < |calls|
    requires (l.IsDebugable? || l.Debugging? || l.Restart?) && g == Clicked(calls, l, f, c)
    ensures Conserved(g) <==>
              || !(l.IsDebugable? && c.error.NoError?) || f.stream == []
              || (!Interrupted(calls, f.current, c.pause)
                  && (!RecordsWhole(calls, f.current) || LevelOfRun(c).Setup?))
  {
    if l.IsDebugable? && c.error.NoError? {
      RecordedConserved(calls, f, c, g);
    } else {
      LeftConserved(l, f);
    }
  }

  /** From a whole state, order and completeness are kept by exactly the events that overtake nothing. */
  lemma {:induction false} ConservedAfterIff(calls: seq<Call>, s: State, e: Event)
    requires Sane(calls, s) && Enabled(s.level, e) && Whole(s)
    ensures Conserved(After(calls, s, e)) <==> !Overtakes(calls, s, e)
  {
    var l, f, g := s.level, s.flow, After(calls, s, e);
    match e
    case Start(_) =>
    case Kill =>
      LeftConserved(l, f);
      assert g == Killed(Replayed(l, f));
    case Step(count) =>
      SteppedConserved(calls, l, f, count);
      assert g == Stepped(calls, l, f, count);
    case Skip =>
      SkippedConserved(calls, l, f);
      assert g == Skipped(calls, l, f);
    case ShaderButton(c) => ClickedConserved(calls, l, f, c, g);
    case ShaderStep(_) => LeftConserved(l, f);
  }

  lemma {:induction false} NothingLost(calls: seq<Call>, s: State, e: Event, t: State)
    requires Next(calls, s, e, t) && (s.level.Setup? || s.flow.lost == []) && !Overtakes(calls, s, e)
    ensures t.level.Setup? || t.flow.lost == []
  {
  }

  lemma {:induction false} WholeAfter(calls: seq<Call>, s: State, e: Event, t: State)
    requires Next(calls, s, e, t) && Whole(s) && !Overtakes(calls, s, e)
    ensures Whole(t)
  {
    ConservedAfterIff(calls, s, e);
    AccountedAfter(calls, s, e);
    NothingLost(calls, s, e, t);
  }

  /** Without a recording that is left over, every event keeps the calls complete and in order. */
  lemma {:induction false} KeepsWhole(calls: seq<Call>, s: State, e: Event, t: State)
    requires Next(calls, s, e, t) && (Stepping(s.level) ==> s.flow.stream == [])
    ensures Whole(s) ==> Whole(t)
  {
    if Whole(s) {
      WholeAfter(calls, s, e, t);
    }
  }

  lemma {:induction false} EndsClean(calls: seq<Call>, s: State, e: Event, t: State)
    requires Next(calls, s, e, t) && (Stepping(s.level) ==> s.flow.stream == []) && s.flow.lost == []
    requires (e.Step? || e.Skip?) && t.level.Setup?
    ensures t.flow.current == |calls| && t.flow.stream == [] && t.flow.lost == []
  {
  }

  /** When the program runs to its end, every call that was not skipped has been executed, in order. */
  lemma {:induction false} RanToEnd(calls: seq<Call>, s: State, e: Event, t: State)
    requires Next(calls, s, e, t) && Whole(s) && (Stepping(s.level) ==> s.flow.stream == [])
    requires (e.Step? || e.Skip?) && t.level.Setup?
    ensures t.flow.executed == Kept(|calls|, t.flow.skipped) && t.flow.lost == []
  {
    EndsClean(calls, s, e, t);
    KeepsWhole(calls, s, e, t);
  }

  /** From any state and for any marks of the calls: over a run in which nothing is overtaken, calls are
      executed once and in order, and none is lost while its program runs. */
  lemma {:induction false} AlwaysWhole(calls: seq<Call>, states: seq<State>, events: seq<Event>, n: nat)
    requires Run(calls, states, events) && n <= |events| && Sane(calls, states[0]) && Whole(states[0])
    requires forall i :: 0 <= i < n ==> Taken(calls, states, events, i) && !Overtakes(calls, states[i], events[i])
    ensures Sane(calls, states[n]) && Whole(states[n])
  {
    if n == 0 {
    } else {
      AlwaysWhole(calls, states, events, n - 1);
      assert Taken(calls, states, events, n - 1);
      WholeAfter(calls, states[n - 1], events[n - 1], states[n]);
      StaysSane(calls, states[n - 1], events[n - 1], states[n]);
    }
  }

  // ---------- Sessions with the table as it is ----------

  /** What holds between events: in the step mode nothing is recorded, a shader can be debugged only on a
      debuggable call, and the debugger has inserted nothing. */
  predicate Regular(calls: seq<Call>, s: State) {
    && Sane(calls, s) && s.flow.inserted == []
    && (Stepping(s.level) ==> s.flow.stream == [])
    && (s.level.IsDebugable? ==> calls[s.flow.current].debuggable)
  }

  lemma {:induction false} RegularAfter(calls: Program, s: State, e: Event, t: State)
    requires Regular(calls, s) && Next(calls, s, e, t)
    ensures Regular(calls, t) && !Overtakes(calls, s, e) && !PausesOnEnd(calls, s, e)
  {
    if s.level.IsDebugable? && e.ShaderButton? {
      OneCall(calls, s.flow.current, e.click.pause);
    }
    StaysSane(calls, s, e, t);
  }

  // ---------- What the events come to ----------

  /** Starting a program that has calls begins with its first call, and nothing is kept of an earlier run. */
  lemma {:induction false} AfterStart(calls: Program, s: State, started: bool, t: State)
    requires Next(calls, s, Start(started), t)
    ensures if started && |calls| > 0 then
              && (t.level == NotDebugable || (t.level == IsDebugable && calls[0].debuggable))
              && t.flow.current == 0 && t.flow.executed == [] && t.flow.stream == [] && t.flow.lost == []
              && t.flow.skipped == {}
            else t == s
  {
  }

  /** Killing the program behind a debug run executes the recorded calls before; in a debug run they are lost. */
  lemma {:induction false} AfterKill(calls: Program, s: State, t: State)
    requires Next(calls, s, Kill, t)
    ensures t.level == Setup && t.flow.stream == [] && t.flow.current == s.flow.current
    ensures t.flow.skipped == s.flow.skipped
    ensures if s.level == Restart then
              t.flow.executed == s.flow.executed + s.flow.stream && t.flow.lost == s.flow.lost
            else t.flow.executed == s.flow.executed && t.flow.lost == s.flow.lost + s.flow.stream
  {
  }

  /** A step over `count` calls: behind a debug run the recorded calls come first; then the next calls follow
      one by one, at least one and at most those that are left. */
  lemma {:induction false} AfterSteps(calls: Program, s: State, count: nat, t: State)
    requires Regular(calls, s) && Next(calls, s, Step(count), t)
    ensures var n := t.flow.current - s.flow.current;
            var before := s.flow.executed + s.flow.stream;
            && 1 <= n && (n == count || (n < count && t.flow.current == |calls|) || (n == 1 && count == 0))
            && |t.flow.executed| == |before| + n && before <= t.flow.executed
            && forall k :: |before| <= k < |before| + n ==> t.flow.executed[k] == s.flow.current + k - |before|
    ensures t.flow.stream == [] && t.flow.lost == s.flow.lost && t.flow.skipped == s.flow.skipped
    ensures if t.flow.current == |calls| then t.level == Setup
            else t.flow.current < |calls| && t.level in {NotDebugable, IsDebugable}
    ensures t.level == IsDebugable ==> calls[t.flow.current].debuggable
  {
    var n := StepCount(calls, s.flow, count);
    forall k | 0 <= k < n ensures Range(s.flow.current, n)[k] == s.flow.current + k {
      RangeAt(s.flow.current, n, k);
    }
  }

  /** Skipping finishes the current call and executes the recorded ones only. */
  lemma {:induction false} AfterSkip(calls: Program, s: State, t: State)
    requires Regular(calls, s) && Next(calls, s, Skip, t)
    ensures t.flow.current == s.flow.current + 1 && t.flow.skipped == s.flow.skipped + {s.flow.current}
    ensures t.flow.executed == s.flow.executed + s.flow.stream
    ensures t.flow.stream == [] && t.flow.lost == s.flow.lost
    ensures if t.flow.current == |calls| then t.level == Setup
            else t.flow.current < |calls| && t.level in {NotDebugable, IsDebugable}
    ensures t.level == IsDebugable ==> calls[t.flow.current].debuggable
  {
  }

  /** A step of the shader that fails leads to the restart level, one that ends the program loses what is
      recorded. */
  lemma {:induction false} AfterShaderStep(calls: Program, s: State, outcome: StepOutcome, t: State)
    requires Next(calls, s, ShaderStep(outcome), t)
    ensures outcome == StepOk ==> t == s
    ensures outcome == StepFailed ==> t == State(Restart, s.flow)
    ensures outcome == StepKilled ==> t == State(Setup, s.flow.(stream := [], lost := s.flow.lost + s.flow.stream))
  {
  }

  /** A click that sets no target. */
  lemma {:induction false} AfterNoTarget(calls: Program, s: State, c: Click, t: State)
    requires Next(calls, s, ShaderButton(c), t) && (s.level.Debugging? || c.error != NoError)
    ensures if s.level.Debugging? || c.error == Refused then t == State(Restart, s.flow)
            else t == State(Setup, s.flow.(stream := [], lost := s.flow.lost + s.flow.stream))
  {
  }

  /** A click that sets the target. In the step mode the draw call is recorded; if it is the last call, the
      program ends. Without a compiler the program is killed, a shader with errors leads to the restart level,
      and otherwise the first step decides. What is recorded stays so unless the program ends; a recording
      that was left over is lost. */
  lemma {:induction false} AfterClick(calls: Program, s: State, c: Click, t: State)
    requires Next(calls, s, ShaderButton(c), t) && c.error == NoError
    requires s.level == Restart || (s.level == IsDebugable && calls[s.flow.current].debuggable)
    ensures var again := s.level == Restart;
            var b := s.flow.current;
            var lost := if again then s.flow.lost else s.flow.lost + s.flow.stream;
            var recorded := if again then s.flow.stream else [b];
            && t.flow.current == (if again then b else b + 1)
            && (!again && b + 1 == |calls| ==> t.level == Setup)
            && (again || b + 1 < |calls| ==>
                  && (!c.constructed ==> t.level == Setup)
                  && (c.constructed && !c.compiled ==> t.level == Restart)
                  && (c.constructed && c.compiled && c.first == StepOk ==> t.level == Debugging(c.target))
                  && (c.constructed && c.compiled && c.first == StepFailed ==> t.level == Restart)
                  && (c.constructed && c.compiled && c.first == StepKilled ==> t.level == Setup))
            && t.flow.executed == s.flow.executed && t.flow.inserted == s.flow.inserted
            && t.flow.skipped == s.flow.skipped
            && (if t.level == Setup then t.flow.stream == [] && t.flow.lost == lost + recorded
                else t.flow.stream == recorded && t.flow.lost == lost)
  {
    if s.level == IsDebugable {
      OneCall(calls, s.flow.current, c.pause);
      assert Range(s.flow.current, 1) == [s.flow.current];
    }
  }

  lemma {:induction false} ExecutedInOrder(f: Flow)
    requires Conserved(f)
    ensures Ordered(f.executed)
  {
    KeptInOrder(f.current, f.skipped);
    assert Fates(f) == f.executed + (f.stream + f.lost);
    OrderedConcat(f.executed, f.stream + f.lost);
  }

  /** Over every run: the calls are executed once and in the order of the program, with nothing in between
      that the debugger inserted; none is lost while the program runs, and in the step mode none is
      waiting. */
  lemma {:induction false} AlwaysInOrder(calls: Program, states: seq<State>, events: seq<Event>, n: nat)
    requires Run(calls, states, events) && n <= |events|
    requires Regular(calls, states[0]) && Whole(states[0])
    ensures Regular(calls, states[n]) && Whole(states[n]) && Ordered(states[n].flow.executed)
  {
    if n == 0 {
    } else {
      AlwaysInOrder(calls, states, events, n - 1);
      assert Taken(calls, states, events, n - 1);
      RegularAfter(calls, states[n - 1], events[n - 1], states[n]);
      WholeAfter(calls, states[n - 1], events[n - 1], states[n]);
    }
    ExecutedInOrder(states[n].flow);
  }

  /** The program ends while calls are recorded: it is killed in a debug run or while one begins, or the
      draw call is its last call. */
  predicate EndsRecorded(calls: seq<Call>, s: State, e: Event) {
    match e
    case Start(_) => false
    case Kill => s.level.Debugging? && s.flow.stream != []
    case Step(_) => false
    case Skip => false
    case ShaderButton(c) =>
      if s.level.Debugging? || c.error.Refused? then false
      else if c.error.Critical? then s.level.Restart? && s.flow.stream != []
      else if s.level.Restart? then s.flow.stream != [] && LevelOfRun(c).Setup?
      else s.flow.current + 1 == |calls| || LevelOfRun(c).Setup?
    case ShaderStep(outcome) => outcome.StepKilled? && s.flow.stream != []
  }

  /** Exactly these events of a session lose calls. */
  lemma {:induction false} LostInSession(calls: Program, s: State, e: Event)
    requires Regular(calls, s) && Enabled(s.level, e) && !e.Start?
    ensures After(calls, s, e).lost != s.flow.lost <==> EndsRecorded(calls, s, e)
  {
    LostIff(calls, s, e);
    if s.level.IsDebugable? && e.ShaderButton? {
      OneCall(calls, s.flow.current, e.click.pause);
    }
  }

  // ---------- The order of execution ----------

  ghost predicate Below(s: seq<int>, n: int) {
    forall i :: 0 <= i < |s| ==> s[i] < n
  }

  lemma {:induction false} FinishedBelow(f: Flow)
    requires Accounted(f)
    ensures Below(f.executed, f.current) && Below(f.stream, f.current)
  {
    forall i | 0 <= i < |f.executed| ensures f.executed[i] < f.current {
      assert f.executed[i] in f.executed && Copies(f, f.executed[i]) > 0;
    }
    forall i | 0 <= i < |f.stream| ensures f.stream[i] < f.current {
      assert f.stream[i] in f.stream && Copies(f, f.stream[i]) > 0;
    }
  }

  lemma {:induction false} RangeOrdered(b: int, n: nat)
    ensures Ordered(Range(b, n))
  {
    forall i, j | 0 <= i < j < n ensures Range(b, n)[i] < Range(b, n)[j] {
      RangeAt(b, n, i);
      RangeAt(b, n, j);
    }
  }

  lemma {:induction false} BelowRange(s: seq<int>, b: int, n: nat)
    requires Below(s, b)
    ensures Before(s, Range(b, n)) && (Ordered(s) <==> Ordered(s + Range(b, n)))
  {
    forall i, j | 0 <= i < |s| && 0 <= j < n ensures s[i] < Range(b, n)[j] {
      RangeAt(b, n, j);
    }
    RangeOrdered(b, n);
    OrderedConcat(s, Range(b, n));
  }

  lemma {:induction false} SteppedOrdered(calls: seq<Call>, l: Level, f: Flow, count: nat)
    requires f.current < |calls| && Accounted(f)
    ensures Ordered(Stepped(calls, l, f, count).executed) <==> Ordered(Replayed(l, f).executed)
  {
    var g := Replayed(l, f);
    ReplayedAccounted(l, f);
    FinishedBelow(g);
    BelowRange(g.executed, f.current, StepCount(calls, f, count));
  }

  lemma {:induction false} RecordedOrdered(calls: seq<Call>, f: Flow, pause: Option<nat>)
    requires f.current < |calls| && Below(f.executed, f.current) && Ordered(f.executed)
    ensures Ordered(Recorded(calls, f, pause).executed) && Ordered(Recorded(calls, f, pause).stream)
    ensures Before(Recorded(calls, f, pause).executed, Recorded(calls, f, pause).stream)
  {
    var b := f.current;
    if Interrupted(calls, b, pause) {
      RangeOrdered(b, pause.value + 1);
      BelowRange(f.executed, b, pause.value + 1);
      BelowRange(f.executed, b, pause.value);
    } else {
      RangeOrdered(b, RecordLength(calls, b));
      BelowRange(f.executed, b, RecordLength(calls, b));
    }
  }

  predicate Leaves(s: State, e: Event) {
    s.level.Restart? && (e.Kill? || e.Step? || e.Skip?)
  }

  /** From any state: calls are executed in the order of the program, unless leaving the debug state
      executes recorded calls too late. */
  lemma {:induction false} OrderIff(calls: seq<Call>, s: State, e: Event)
    requires Sane(calls, s) && Enabled(s.level, e) && Accounted(s.flow)
    requires Ordered(s.flow.executed) && Ordered(s.flow.stream)
    ensures Ordered(After(calls, s, e).stream)
    ensures Ordered(After(calls, s, e).executed) <==> (Leaves(s, e) ==> Before(s.flow.executed, s.flow.stream))
  {
    var f := s.flow;
    FinishedBelow(f);
    match e
    case Start(_) =>
    case Kill => OrderedConcat(f.executed, f.stream);
    case Step(count) =>
      SteppedOrdered(calls, s.level, f, count);
      OrderedConcat(f.executed, f.stream);
    case Skip => OrderedConcat(f.executed, f.stream);
    case ShaderButton(c) =>
      if s.level.IsDebugable? {
        RecordedOrdered(calls, f, c.pause);
      }
    case ShaderStep(_) =>
  }

  /** Recorded calls come to be late when the program goes on past a recording that is left over. */
  lemma {:induction false} LateIff(calls: seq<Call>, s: State, e: Event)
    requires Sane(calls, s) && Enabled(s.level, e) && Accounted(s.flow)
    requires Ordered(s.flow.executed) && Before(s.flow.executed, s.flow.stream)
    ensures var g := After(calls, s, e);
            Before(g.executed, g.stream) <==> !(e.Step? && Leftover(s) && g.current < |calls|)
  {
    var f := s.flow;
    FinishedBelow(f);
    if e.Step? && Leftover(s) {
      var n := StepCount(calls, f, e.count);
      RangeAt(f.current, n, 0);
      assert (f.executed + Range(f.current, n))[|f.executed|] == f.current && f.stream[0] < f.current;
    } else if e.ShaderButton? && s.level.IsDebugable? {
      RecordedOrdered(calls, f, e.click.pause);
    }
  }

  // ---------- Events inside a step ----------

  /** A step that handled events in its loop returns: it sets the step mode, whatever the events led to. */
  predicate Returned(calls: seq<Call>, s: State, t: State) {
    && Sane(calls, s) && !s.level.Setup?
    && t.flow == s.flow && StepLevel(calls, s.flow.current, t.level)
  }

  /** Exactly when calls are recorded, such a return leaves the recording over. */
  lemma {:induction false} ReturnedIff(calls: seq<Call>, s: State, t: State)
    requires Regular(calls, s) && Returned(calls, s, t)
    ensures Sane(calls, t) && (Regular(calls, t) <==> s.flow.stream == [])
    ensures Stepping(t.level) && (Leftover(t) <==> s.flow.stream != [])
  {
  }

  /** A recording that is left over is lost when the program is killed or another recording begins. */
  lemma {:induction false} LeftoverIsLost(calls: seq<Call>, s: State, e: Event)
    requires Sane(calls, s) && Enabled(s.level, e) && Stepping(s.level)
    requires e.Kill? || (e.ShaderButton? && e.click.error.NoError?)
    ensures s.flow.lost + s.flow.stream <= After(calls, s, e).lost
  {
  }

  lemma {:induction false} StepsOn(calls: seq<Call>, s: State, count: nat, t: State)
    requires Sane(calls, s) && Enabled(s.level, Step(count)) && 0 < count && s.flow.current + count < |calls|
    requires StepLevel(calls, s.flow.current + count, t.level)
    requires var g := Replayed(s.level, s.flow);
             t.flow == g.(executed := g.executed + Range(s.flow.current, count), current := s.flow.current + count)
    ensures Next(calls, s, Step(count), t)
  {
  }

  lemma {:induction false} ClicksOn(calls: Program, s: State, c: Click, t: State)
    requires Sane(calls, s) && s.level == IsDebugable && s.flow.current + 1 < |calls|
    requires calls[s.flow.current].debuggable && c.error == NoError && c.constructed && c.compiled && c.first == StepOk
    requires t.level == Debugging(c.target)
    requires t.flow == s.flow.(stream := [s.flow.current], lost := s.flow.lost + s.flow.stream,
                               current := s.flow.current + 1)
    ensures Next(calls, s, ShaderButton(c), t)
  {
    OneCall(calls, s.flow.current, c.pause);
    assert Range(s.flow.current, 1) == [s.flow.current];
  }

  function LateCalls(): Program {
    [Call("glUseProgram", false), Call("glClear", false), Call("glDrawArrays", true), Call("glClear", false),
     Call("glDrawElements", true), Call("glFlush", false)]
  }

  /** Up to the return: a program is started, and a step over two calls handles a pause and a click on the
      shader button before it returns. */
  lemma {:induction false} LateBegin() returns (states: seq<State>, events: seq<Event>, t: State)
    ensures Run(LateCalls(), states, events) && |events| == 3
    ensures states[0] == State(Setup, Flow([], [], [], [], 0, {}))
    ensures events[1] == Step(2) && events[2].ShaderButton? && Returned(LateCalls(), states[3], t)
    ensures t == State(NotDebugable, Flow([0, 1], [], [2], [], 3, {}))
  {
    var calls := LateCalls();
    var click := Click(FragmentShader, NoError, true, true, StepOk, None, FragmentShader);
    var s0, s1 := State(Setup, Flow([], [], [], [], 0, {})), State(NotDebugable, Flow([], [], [], [], 0, {}));
    var s2 := State(IsDebugable, Flow([0, 1], [], [], [], 2, {}));
    var s3 := State(Debugging(FragmentShader), Flow([0, 1], [], [2], [], 3, {}));
    t := State(NotDebugable, s3.flow);
    assert Range(0, 2) == [0, 1];
    StepsOn(calls, s1, 2, s2);
    ClicksOn(calls, s2, click, s3);
    states, events := OneMore(calls, [s0], [], Start(true), s1);
    states, events := OneMore(calls, states, events, Step(2), s2);
    states, events := OneMore(calls, states, events, ShaderButton(click), s3);
  }

  /** From there the user steps on, and comes to the restart level because the next target is refused: the
      recorded draw call 2 is executed behind call 3. */
  lemma {:induction false} TooLate() returns (states: seq<State>, events: seq<Event>)
    ensures Run(LateCalls(), states, events) && |events| == 3
    ensures states[0] == State(NotDebugable, Flow([0, 1], [], [2], [], 3, {}))
    ensures states[3].flow.executed == [0, 1, 3, 2, 4]
  {
    var calls := LateCalls();
    var refused := Click(FragmentShader, Refused, true, true, StepOk, None, FragmentShader);
    var s0 := State(NotDebugable, Flow([0, 1], [], [2], [], 3, {}));
    var s1 := State(IsDebugable, Flow([0, 1, 3], [], [2], [], 4, {}));
    var s2 := State(Restart, s1.flow);
    var s3 := State(NotDebugable, Flow([0, 1, 3, 2, 4], [], [], [], 5, {}));
    assert Range(3, 1) == [3] && Range(4, 1) == [4];
    StepsOn(calls, s0, 1, s1);
    states, events := OneMore(calls, [s0], [], Step(1), s1);
    states, events := OneMore(calls, states, events, ShaderButton(refused), s2);
    StepsOn(calls, s2, 1, s3);
    states, events := OneMore(calls, states, events, Step(1), s3);
  }
}
