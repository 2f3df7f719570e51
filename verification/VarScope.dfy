/**
 The scope of a shader variable, as the variable model tracks it from step to step.
 */
module VarScope {
  datatype Scope = NewInScope | InScope | InScopeStack | LeftScope | OutOfScope

  /** One debug step: whether the variable is in the scope list, and whether it is on the scope stack. */
  datatype Sighting = Sighting(listed: bool, stacked: bool)

  predicate IsInScope(s: Scope) {
    s.InScope? || s.NewInScope?
  }

  /** The variable has a value that can be read: it is in scope or in the scope of a caller. */
  predicate Live(s: Scope) {
    IsInScope(s) || s.InScopeStack?
  }

  function NextScope(s: Scope, seen: Sighting): Scope {
    if seen.listed then (if s.InScope? || s.NewInScope? then InScope else NewInScope)
    else if seen.stacked then InScopeStack
    else if s.LeftScope? then OutOfScope
    else LeftScope
  }

  function ScopeAfter(h: seq<Sighting>, n: nat): Scope
    requires n <= |h|
  {
    if n == 0 then OutOfScope else NextScope(ScopeAfter(h, n - 1), h[n - 1])
  }

  predicate Absent(seen: Sighting) {
    !seen.listed && !seen.stacked
  }

  /** The number of steps, up to step `n`, since the variable was last seen. */
  function AbsentRun(h: seq<Sighting>, n: nat): nat
    requires n <= |h|
  {
    if n == 0 || !Absent(h[n - 1]) then 0 else AbsentRun(h, n - 1) + 1
  }

  predicate Listed(h: seq<Sighting>, n: nat) {
    0 < n <= |h| && h[n - 1].listed
  }

  /** The scope after any history. A stay in the scope list starts with one NewInScope; a caller's
      variable is on the stack; an absent variable alternates between LeftScope and OutOfScope. */
  lemma {:induction false} ScopeHistory(h: seq<Sighting>, n: nat)
    requires 0 < n <= |h|
    ensures ScopeAfter(h, n).NewInScope? <==> Listed(h, n) && !Listed(h, n - 1)
    ensures ScopeAfter(h, n).InScope? <==> Listed(h, n) && Listed(h, n - 1)
    ensures ScopeAfter(h, n).InScopeStack? <==> !Listed(h, n) && h[n - 1].stacked
    ensures ScopeAfter(h, n).LeftScope? <==> AbsentRun(h, n) % 2 == 1
    ensures ScopeAfter(h, n).OutOfScope? <==> AbsentRun(h, n) > 0 && AbsentRun(h, n) % 2 == 0
  {
    if n == 1 {
    } else {
      ScopeHistory(h, n - 1);
    }
  }

  /** A variable is out of scope only after it has left scope, or if it was never in scope. */
  lemma {:induction false} OutOnlyAfterLeft(h: seq<Sighting>, n: nat)
    requires n < |h| && ScopeAfter(h, n + 1).OutOfScope?
    ensures n > 0 && ScopeAfter(h, n).LeftScope?
  {
    ScopeHistory(h, n + 1);
  }
}
