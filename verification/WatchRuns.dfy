/**
 Whole debug runs of one watched variable: steps, watching, unwatching and resets in any order. The
 debugger state is the model's; what the shader does to the variable, and what the graphics card
 delivers on a readback, are arbitrary inputs under stated assumptions.
 */
module WatchRuns {
  import opened Wrappers
  import opened PixelBoxes
  import opened VarScope
  import opened WatchCache

  /** `values` are the real values of the variable, which the debugger does not know. A variable
      below a built-in root is not tracked: its scope never changes. */
  datatype Session = Session(coverage: seq<bool>, oldCount: nat, values: seq<Texel>, scope: Scope, builtIn: bool,
                             tracked: bool, box: Option<Box>)

  datatype Event =
    | Step(seen: Sighting, changed: bool, force: bool, newCoverage: seq<bool>, newValues: seq<Texel>, image: seq<Texel>)
    | Watch(image: seq<Texel>)
    | Unwatch
    | ResetData(image: seq<Texel>)

  ghost predicate Fit(s: Session) {
    && |s.values| == |s.coverage| && (s.box.Some? ==> SizedFor(s.box.value, |s.coverage|))
    && (s.builtIn ==> !s.tracked && s.scope.InScope?)
    && (s.box.Some? ==> s.oldCount == CountTrue(s.coverage, |s.coverage|))
  }

  ghost predicate EventFits(e: Event, n: nat) {
    match e
    case Step(_, _, _, cov, values, image) => |cov| == |values| == |image| == n
    case Watch(image) => |image| == n
    case Unwatch => true
    case ResetData(image) => |image| == n
  }

  ghost function ScopeNext(s: Session, e: Event): Scope
    requires e.Step?
  {
    if s.tracked then NextScope(s.scope, e.seen) else s.scope
  }

  /** Whether the step reads the watched values again whatever the cache holds. */
  ghost predicate Triggered(s: Session, e: Event) {
    e.Step? && (e.force || e.changed || ScopeNext(s, e).NewInScope?)
  }

  /** The box after a step: the new coverage is counted and installed, then the box is refreshed. */
  ghost function BoxNext(s: Session, e: Event): (r: Box)
    requires Fit(s) && e.Step? && EventFits(e, |s.coverage|) && s.box.Some?
    ensures SizedFor(r, |s.coverage|)
  {
    NextBox(s.box.value, s.oldCount, ScopeNext(s, e), e.changed, s.builtIn, e.force, e.newCoverage, e.image)
  }

  ghost function After(s: Session, e: Event): (r: Session)
    requires Fit(s) && EventFits(e, |s.coverage|)
    requires e.Watch? ==> s.oldCount == CountTrue(s.coverage, |s.coverage|)
    ensures Fit(r) && |r.coverage| == |s.coverage|
  {
    match e
    case Step(_, _, _, cov, values, _) =>
      Session(cov, CountTrue(cov, |cov|), values, ScopeNext(s, e), s.builtIn, s.tracked,
              if s.box.Some? then Some(BoxNext(s, e)) else None)
    case Watch(image) => s.(box := Some(Box(image, s.coverage)))
    case Unwatch => s.(box := None)
    case ResetData(image) =>
      if s.box.None? then s
      else
        var a := if IsInScope(s.scope) || s.builtIn then ReadBack else Drop;
        s.(box := Some(Act(a, s.box.value, s.coverage, image)))
  }

  // ---------- Assumptions ----------

  /** A readback delivers the values of a live variable on the covered pixels. */
  ghost predicate Faithful(image: seq<Texel>, values: seq<Texel>, coverage: seq<bool>, scope: Scope)
    requires |image| == |values| == |coverage|
  {
    Live(scope) ==> forall p :: 0 <= p < |coverage| && coverage[p] ==> image[p] == values[p]
  }

  /** While a variable is live, a step changes it only if it says so, and only on covered pixels. */
  ghost predicate Announced(s: Session, e: Event)
    requires Fit(s) && e.Step? && EventFits(e, |s.coverage|)
  {
    Live(s.scope) && Live(ScopeNext(s, e)) ==>
      forall p :: 0 <= p < |s.coverage| && e.newValues[p] != s.values[p] ==>
        (e.changed || ScopeNext(s, e).NewInScope?) && e.newCoverage[p]
  }

  /** The events a run may hold: the variable is first watched while it is live. */
  ghost predicate Legal(s: Session, e: Event) {
    && Fit(s) && EventFits(e, |s.coverage|)
    && match e
       case Step(_, _, _, cov, values, image) => Announced(s, e) && Faithful(image, values, cov, ScopeNext(s, e))
       case Watch(image) =>
         && s.box.None? && Live(s.scope) && s.oldCount == CountTrue(s.coverage, |s.coverage|)
         && Faithful(image, s.values, s.coverage, s.scope)
       case Unwatch => true
       case ResetData(image) => Faithful(image, s.values, s.coverage, s.scope)
  }

  ghost predicate Taken(states: seq<Session>, events: seq<Event>, i: nat) {
    i < |events| < |states| && Legal(states[i], events[i]) && states[i + 1] == After(states[i], events[i])
  }

  /** Any run from `s` on: `states` are the states around the events. */
  ghost predicate Goes(s: Session, states: seq<Session>, events: seq<Event>) {
    && |states| == |events| + 1 && states[0] == s
    && forall i :: 0 <= i < |events| ==> Taken(states, events, i)
  }

  /** A run of a variable that is not watched at first. */
  ghost predicate Run(states: seq<Session>, events: seq<Event>) {
    |states| > 0 && Fit(states[0]) && states[0].box.None? && Goes(states[0], states, events)
  }

  // ---------- The cache never lies ----------

  /** What is known about a live variable is true; about another variable nothing is known. */
  ghost predicate Honest(s: Session) {
    && Fit(s)
    && (s.box.Some? ==>
          forall p :: 0 <= p < |s.coverage| && s.box.value.known[p] ==>
            Live(s.scope) && s.box.value.texels[p] == s.values[p])
  }

  lemma {:induction false} HonestStep(s: Session, e: Event)
    requires Honest(s) && Legal(s, e) && e.Step?
    ensures Honest(After(s, e))
  {
    if s.box.Some? {
      var next := ScopeNext(s, e);
      var b, r := s.box.value, BoxNext(s, e);
      if !Live(next) {
        assert next.LeftScope? || (next.OutOfScope? && !Live(s.scope));
      }
      forall p | 0 <= p < |s.coverage| && r.known[p] ensures Live(next) && r.texels[p] == e.newValues[p] {
      }
    }
  }

  lemma {:induction false} HonestAfter(s: Session, e: Event)
    requires Honest(s) && Legal(s, e)
    ensures Honest(After(s, e))
  {
    if e.Step? {
      HonestStep(s, e);
    }
  }

  lemma {:induction false} HonestRun(states: seq<Session>, events: seq<Event>, n: nat)
    requires Run(states, events) && n <= |events|
    ensures Honest(states[n])
  {
    if n == 0 {
    } else {
      HonestRun(states, events, n - 1);
      assert Taken(states, events, n - 1);
      HonestAfter(states[n - 1], events[n - 1]);
    }
  }

  /** Over every run: a value shown for a pixel is the value the variable has there now. */
  lemma {:induction false} NeverLies(states: seq<Session>, events: seq<Event>, n: nat, p: nat)
    requires Run(states, events) && n <= |events| && states[n].box.Some? && p < |states[n].coverage|
    ensures Fit(states[n])
    ensures ValueAt(states[n].box.value, states[n].coverage, p).Some? ==>
              ValueAt(states[n].box.value, states[n].coverage, p).value == states[n].values[p]
  {
    HonestRun(states, events, n);
  }

  // ---------- The cache is complete while coverage grows and shrinks ----------

  ghost predicate Within(a: seq<bool>, b: seq<bool>)
    requires |a| == |b|
  {
    forall p :: 0 <= p < |a| && a[p] ==> b[p]
  }

  ghost predicate Comparable(a: seq<bool>, b: seq<bool>)
    requires |a| == |b|
  {
    Within(a, b) || Within(b, a)
  }

  lemma {:induction false} CountWithin(a: seq<bool>, b: seq<bool>, n: nat)
    requires |a| == |b| && Within(a, b) && n <= |a|
    ensures CountTrue(a, n) <= CountTrue(b, n)
    ensures CountTrue(a, n) == CountTrue(b, n) ==> forall p :: 0 <= p < n ==> a[p] == b[p]
  {
    if n == 0 {
    } else {
      CountWithin(a, b, n - 1);
    }
  }

  /** For comparable maps a larger map has a larger count. */
  lemma {:induction false} NotGrown(old0: seq<bool>, cov: seq<bool>)
    requires |old0| == |cov| && Comparable(old0, cov) && CountTrue(cov, |cov|) <= CountTrue(old0, |old0|)
    ensures Within(cov, old0)
  {
    if Within(old0, cov) {
      CountWithin(old0, cov, |cov|);
    }
  }

  /** Exactly when a watched variable that is live has data for all covered pixels after a step. */
  lemma {:induction false} CompleteIff(s: Session, e: Event)
    requires Fit(s) && EventFits(e, |s.coverage|) && e.Step? && s.box.Some? && Live(ScopeNext(s, e))
    ensures Available(e.newCoverage, After(s, e).box.value.known) <==>
              || Triggered(s, e)
              || CountTrue(e.newCoverage, |e.newCoverage|) > CountTrue(s.coverage, |s.coverage|)
              || Within(e.newCoverage, s.box.value.known)
  {
  }

  ghost predicate Complete(s: Session) {
    && Fit(s)
    && (s.box.Some? && IsInScope(s.scope) ==> Available(s.coverage, s.box.value.known))
  }

  lemma {:induction false} CompleteAfter(s: Session, e: Event)
    requires Complete(s) && Legal(s, e)
    requires e.Step? ==> Comparable(s.coverage, e.newCoverage)
    ensures Complete(After(s, e))
  {
    if e.Step? && s.box.Some? && IsInScope(ScopeNext(s, e)) {
      CompleteIff(s, e);
      if CountTrue(e.newCoverage, |e.newCoverage|) <= CountTrue(s.coverage, |s.coverage|) {
        NotGrown(s.coverage, e.newCoverage);
      }
    }
  }

  ghost predicate Chained(states: seq<Session>, events: seq<Event>, i: nat)
    requires i < |events| < |states|
  {
    events[i].Step? ==>
      |states[i].coverage| == |events[i].newCoverage| && Comparable(states[i].coverage, events[i].newCoverage)
  }

  /** Counting pixels is enough if successive coverage maps are comparable: after every event a
      watched variable that is in scope has data for all covered pixels. */
  lemma {:induction false} AlwaysComplete(states: seq<Session>, events: seq<Event>, n: nat)
    requires Run(states, events) && n <= |events|
    requires forall i :: 0 <= i < |events| ==> Chained(states, events, i)
    ensures Complete(states[n])
  {
    if n == 0 {
    } else {
      AlwaysComplete(states, events, n - 1);
      assert Taken(states, events, n - 1) && Chained(states, events, n - 1);
      CompleteAfter(states[n - 1], events[n - 1]);
    }
  }

  /** A live variable, in scope or on the stack, has data for all covered pixels. */
  ghost predicate CompleteLive(s: Session) {
    && Fit(s)
    && (s.box.Some? && Live(s.scope) ==> Available(s.coverage, s.box.value.known))
  }

  /** A reset drops the data of a variable on the stack, for it reads back variables in scope only. A step
      onto the stack, of a variable that was not live before, reads nothing back unless coverage grows. */
  ghost predicate Misses(s: Session, e: Event)
    requires Fit(s) && EventFits(e, |s.coverage|)
  {
    s.box.Some? &&
    match e
    case Step(_, changed, force, cov, _, _) =>
      && ScopeNext(s, e).InScopeStack? && !Live(s.scope) && !force && !changed
      && CountTrue(cov, |cov|) <= CountTrue(s.coverage, |s.coverage|) && !Within(cov, s.box.value.known)
    case ResetData(_) =>
      s.scope.InScopeStack? && !s.builtIn && exists p :: 0 <= p < |s.coverage| && s.coverage[p]
    case _ => false
  }

  /** With comparable coverage, exactly these events end the completeness of live variables. */
  lemma {:induction false} CompleteLiveIff(s: Session, e: Event)
    requires CompleteLive(s) && Legal(s, e)
    requires e.Step? ==> Comparable(s.coverage, e.newCoverage)
    ensures CompleteLive(After(s, e)) <==> !Misses(s, e)
  {
    if e.Step? && s.box.Some? && Live(ScopeNext(s, e)) {
      CompleteIff(s, e);
      if CountTrue(e.newCoverage, |e.newCoverage|) <= CountTrue(s.coverage, |s.coverage|) {
        NotGrown(s.coverage, e.newCoverage);
      }
    }
  }

  /** Over runs without such events, counting is enough for variables on the stack, too. */
  lemma {:induction false} AlwaysCompleteLive(states: seq<Session>, events: seq<Event>, n: nat)
    requires Run(states, events) && n <= |events|
    requires forall i :: 0 <= i < |events| ==>
               Chained(states, events, i) && Taken(states, events, i) && !Misses(states[i], events[i])
    ensures CompleteLive(states[n])
  {
    if n == 0 {
    } else {
      AlwaysCompleteLive(states, events, n - 1);
      assert Taken(states, events, n - 1) && Chained(states, events, n - 1);
      CompleteLiveIff(states[n - 1], events[n - 1]);
    }
  }

  // ---------- Where the promises end ----------

  /** Counting is not enough in general: coverage moves from one pixel to another, the counts are
      equal, and a variable in scope has no data on the covered pixel. */
  lemma {:induction false} MovedCoverage(v: Texel)
    ensures exists states, events ::
              Run(states, events) && |events| == 3 && !Complete(states[3])
  {
    var left, right, values := [true, false], [false, true], [v, v];
    var s0 := Session(left, 1, values, OutOfScope, false, true, None);
    var e0 := Step(Sighting(true, false), false, false, left, values, values);
    var e1 := Watch(values);
    var e2 := Step(Sighting(true, false), false, false, right, values, values);
    assert CountTrue(left, 1) == 1 && CountTrue(left, 2) == 1;
    assert CountTrue(right, 1) == 0 && CountTrue(right, 2) == 1;
    assert Legal(s0, e0);
    var s1 := After(s0, e0);
    assert Legal(s1, e1);
    var s2 := After(s1, e1);
    assert Legal(s2, e2);
    var s3 := After(s2, e2);
    var states, events := [s0, s1, s2, s3], [e0, e1, e2];
    assert s3.coverage[1] && !s3.box.value.known[1];
    forall i | 0 <= i < |events| ensures Taken(states, events, i) {
    }
    assert Run(states, events) && !Complete(states[3]);
  }

  /** The pixel shows a value that a live variable does not have. */
  ghost predicate Lies(s: Session, p: nat) {
    && Fit(s) && s.box.Some? && p < |s.coverage| && Live(s.scope)
    && ValueAt(s.box.value, s.coverage, p).Some? && ValueAt(s.box.value, s.coverage, p).value != s.values[p]
  }

  /** A variable that can be watched: it has no box yet. */
  ghost predicate Watchable(s: Session) {
    Fit(s) && s.box.None? && s.oldCount == CountTrue(s.coverage, |s.coverage|)
  }

  /** Whatever the first readback delivers and whatever comes then, the cache does not lie. */
  ghost predicate SafeToWatch(s: Session)
    requires Watchable(s)
  {
    forall image: seq<Texel>, states: seq<Session>, events: seq<Event>, p: nat ::
      (|image| == |s.coverage| && Faithful(image, s.values, s.coverage, s.scope)
       && Goes(After(s, Watch(image)), states, events))
      ==> !Lies(states[|events|], p)
  }

  /** The variable is live, or it never will be, or nothing is covered. */
  ghost predicate WatchGuard(s: Session) {
    Live(s.scope) || !s.tracked || forall p :: 0 <= p < |s.coverage| ==> !s.coverage[p]
  }

  /** What is kept on the way: the cache is honest, or the variable is never live. */
  lemma {:induction false} StaysSafe(s: Session, states: seq<Session>, events: seq<Event>, n: nat)
    requires Goes(s, states, events) && n <= |events|
    requires Honest(s) || (Fit(s) && !s.tracked && !Live(s.scope))
    ensures Honest(states[n]) || (Fit(states[n]) && !states[n].tracked && !Live(states[n].scope))
  {
    if n == 0 {
    } else {
      StaysSafe(s, states, events, n - 1);
      assert Taken(states, events, n - 1);
      if Honest(states[n - 1]) {
        HonestAfter(states[n - 1], events[n - 1]);
      }
    }
  }

  /** Watching a variable that is not live, but can become live, while a pixel is covered: what the first
      readback delivers can survive. The variable enters scope while the pixel is not covered, and when
      it is covered again its entry counts as available. */
  lemma {:induction false} WatchedTooEarly(s: Session, p: nat)
    returns (image: seq<Texel>, states: seq<Session>, events: seq<Event>)
    requires Watchable(s) && !WatchGuard(s) && p < |s.coverage| && s.coverage[p]
    ensures |image| == |s.coverage| && Faithful(image, s.values, s.coverage, s.scope)
    ensures Goes(After(s, Watch(image)), states, events) && Lies(states[|events|], p)
  {
    var n, listed := |s.coverage|, Sighting(true, false);
    var none := seq(n, i => false);
    image := seq(n, i => s.values[p] + [0.0]);
    var e1 := Step(listed, false, false, none, s.values, s.values);
    var e2 := Step(listed, false, false, s.coverage, s.values, s.values);
    var s1 := After(s, Watch(image));
    var s2 := After(s1, e1);
    var s3 := After(s2, e2);
    assert s2.box.value.known == s.coverage;
    assert Available(s.coverage, s2.box.value.known);
    states, events := [s1, s2, s3], [e1, e2];
    assert Legal(s1, e1) && Legal(s2, e2);
    forall i | 0 <= i < |events| ensures Taken(states, events, i) {
    }
  }

  /** Exactly when a variable may be watched: it is live, or its scope never changes, or no pixel is
      covered. */
  lemma {:induction false} WatchSafeIff(s: Session)
    requires Watchable(s)
    ensures SafeToWatch(s) <==> WatchGuard(s)
  {
    if WatchGuard(s) {
      forall image: seq<Texel>, states: seq<Session>, events: seq<Event>, p: nat
        | |image| == |s.coverage| && Faithful(image, s.values, s.coverage, s.scope)
          && Goes(After(s, Watch(image)), states, events)
        ensures !Lies(states[|events|], p)
      {
        StaysSafe(After(s, Watch(image)), states, events, |events|);
      }
    } else {
      var p: nat :| p < |s.coverage| && s.coverage[p];
      var image, states, events := WatchedTooEarly(s, p);
    }
  }
}
