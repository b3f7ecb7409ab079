/**
  Two checks of the structural verifier modelled exactly as the source writes them, next to the
  definitions the rest of the model uses, with an input on which they differ.
*/
module AsWritten {
  import opened Util
  import opened Ast
  import opened Diagnostics
  import opened VerifierState

  // ---------------------------------------------------------------- input choice guards

  /** The guard check as written: the operation name is a variable shared by all branches, so a
      guard that is not a receive leaves the previous branch's name in place (no name at all
      before the first receive), and the duplicate test runs on that name anyway. */
  function CheckGuardAsWritten(seen: set<Option<string>>, name: Option<string>, g: Stmt)
    : (res: (multiset<SemanticError>, set<Option<string>>, Option<string>))
    ensures IsInput(g) ==> res.2 == ReceivedOperation(g)
    ensures !IsInput(g) ==> res.2 == name && GuardNotInput in res.0
    ensures DuplicateGuard(res.2) in res.0 <==> res.2 in seen
  {
    var current := if IsInput(g) then ReceivedOperation(g) else name;
    var notInput: multiset<SemanticError> := if IsInput(g) then multiset{} else multiset{GuardNotInput};
    if current in seen then (notInput + multiset{DuplicateGuard(current)}, seen, current)
    else (notInput, seen + {current}, current)
  }

  function GuardErrorsAsWritten(guards: seq<Stmt>, seen: set<Option<string>>, name: Option<string>)
    : multiset<SemanticError>
    decreases guards
  {
    if guards == [] then multiset{}
    else
      var step := CheckGuardAsWritten(seen, name, guards[0]);
      step.0 + GuardErrorsAsWritten(guards[1..], step.1, step.2)
  }

  /** A receive on `a` followed by a guard that is not a receive: the source reports `a` as a
      duplicate guard although it occurs once; the corrected check reports only the bad guard. */
  lemma StaleGuardNameReported()
    ensures var guards := [Basic(OneWayIn("a", None)), Basic(NullProcess)];
      GuardErrorsAsWritten(guards, {}, None) == multiset{GuardNotInput, DuplicateGuard(Some("a"))} &&
      GuardErrors(guards, {}) == multiset{GuardNotInput}
  {
    StaleAsWritten();
    StaleCorrected();
  }

  lemma StaleAsWritten()
    ensures GuardErrorsAsWritten([Basic(OneWayIn("a", None)), Basic(NullProcess)], {}, None) ==
      multiset{GuardNotInput, DuplicateGuard(Some("a"))}
  {
    var guards := [Basic(OneWayIn("a", None)), Basic(NullProcess)];
    var s1 := CheckGuardAsWritten({}, None, guards[0]);
    assert {} + {Some("a")} == {Some("a")};
    assert s1 == (multiset{}, {Some("a")}, Some("a"));
    var s2 := CheckGuardAsWritten(s1.1, s1.2, guards[1]);
    assert s2.0 == multiset{GuardNotInput, DuplicateGuard(Some("a"))};
    assert guards[1..][1..] == [];
    assert GuardErrorsAsWritten(guards, {}, None) == s1.0 + (s2.0 + GuardErrorsAsWritten([], s2.1, s2.2));
  }

  lemma StaleCorrected()
    ensures GuardErrors([Basic(OneWayIn("a", None)), Basic(NullProcess)], {}) == multiset{GuardNotInput}
  {
    var guards := [Basic(OneWayIn("a", None)), Basic(NullProcess)];
    var c1 := CheckGuard({}, guards[0]);
    assert {} + {"a"} == {"a"};
    assert c1 == (multiset{}, {"a"});
    assert CheckGuard(c1.1, guards[1]) == (multiset{GuardNotInput}, {"a"});
    assert guards[1..][1..] == [];
    assert GuardErrors(guards, {}) == c1.0 + (multiset{GuardNotInput} + GuardErrors([], {"a"}));
  }

  /** The guard operations seen so far, as the source's set of possibly null names. */
  function Lift(seen: set<string>): set<Option<string>>
  {
    set x | x in seen :: Some(x)
  }

  /** When every guard is a receive, the stale name is never used and the check as written gives
      exactly the corrected check's diagnostics. */
  lemma {:induction false} GuardsAgreeOnReceives(guards: seq<Stmt>, seen: set<string>, name: Option<string>)
    requires forall i :: 0 <= i < |guards| ==> IsInput(guards[i])
    ensures GuardErrorsAsWritten(guards, Lift(seen), name) == GuardErrors(guards, seen)
    decreases guards
  {
    if guards != [] {
      var op := ReceivedOperation(guards[0]).value;
      var aw := CheckGuardAsWritten(Lift(seen), name, guards[0]);
      var c := CheckGuard(seen, guards[0]);
      assert Some(op) in Lift(seen) <==> op in seen;
      assert Lift(seen + {op}) == Lift(seen) + {Some(op)};
      assert aw.0 == c.0 && aw.1 == Lift(c.1);
      GuardsAgreeOnReceives(guards[1..], c.1, aw.2);
    }
  }

  // ---------------------------------------------------------------- correlation aliases

  /** The alias check as written: the csets test looks at the correlation variable's path `v`
      instead of the alias path. */
  function AliasScopeErrorAsWritten(v: VarPath, a: Alias): (r: Option<SemanticError>)
    ensures !a.path.IsGlobal() && v.IsCSet() ==> r == Some(CSetCorrelationVariable)
    ensures !a.path.IsGlobal() && !v.IsCSet() && a.path.IsStatic() ==> r.None?
  {
    if a.path.IsGlobal() then Some(GlobalCorrelationVariable)
    else if v.IsCSet() then Some(CSetCorrelationVariable)
    else if !a.path.IsStatic() then Some(DynamicAlias)
    else None
  }

  /** The two alias checks differ only when exactly one of the variable path and the alias path
      reaches into `csets`. */
  lemma AliasRulesAgree(v: VarPath, a: Alias)
    requires v.IsCSet() == a.path.IsCSet()
    ensures AliasScopeErrorAsWritten(v, a) == AliasScopeError(a)
  {
  }

  /** An ordinary correlation variable with an alias inside `csets`: the source accepts the
      alias; the corrected check, which judges the alias path, rejects it. */
  lemma CSetAliasAccepted()
    ensures var v := VarPath(Step(Named("id"), false), [], LocalPath);
      var a := Alias("Request", VarPath(Step(Named("id"), false), [], CSetPath));
      AliasScopeErrorAsWritten(v, a).None? && AliasScopeError(a) == Some(CSetCorrelationVariable)
  {
    var a := Alias("Request", VarPath(Step(Named("id"), false), [], CSetPath));
    assert a.path.Steps() == [Step(Named("id"), false)];
  }
}
