/**
  The checks the structural verifier runs after the walk, in this order: link resolution, the
  queued equivalence checks, the correlation-set checks that also build the correlation function,
  and the check that `main` is defined. Validation fails exactly when some diagnostic was recorded,
  and the failure carries all of them.
*/
module Finalization {
  import opened Util
  import opened Ast
  import opened Diagnostics
  import opened TypeRules
  import opened VerifierState
  import opened Declarations

  // ---------------------------------------------------------------- link resolution

  /** One diagnostic for every collected link whose target is not a defined type. */
  function LinkErrors(types: map<string, TypeDef>, links: seq<TypeLink>): (es: multiset<SemanticError>)
    decreases links
    ensures forall e :: e in es ==> e.UndefinedLinkedType?
  {
    if links == [] then multiset{}
    else (if links[0].target in types then multiset{} else multiset{UndefinedLinkedType(links[0].id, links[0].target)}) +
         LinkErrors(types, links[1..])
  }

  /** A link is reported once per collection when its target is undefined after the walk, else
      never; in particular a link to a type defined later in the document resolves. */
  lemma {:induction false} LinkErrorsCount(types: map<string, TypeDef>, links: seq<TypeLink>, l: TypeLink)
    ensures LinkErrors(types, links)[UndefinedLinkedType(l.id, l.target)] ==
      if l.target in types then 0 else Count(links, l)
    decreases links
  {
    if links != [] {
      LinkErrorsCount(types, links[1..], l);
    }
  }

  // ---------------------------------------------------------------- equivalence checks

  /** A redeclared type must be equivalent to the definition it replaced; the diagnostic names the
      redeclaration. */
  function TypeCheckErrors(checks: seq<(TypeDef, TypeDef)>): (es: multiset<SemanticError>)
    decreases checks
    ensures forall e :: e in es ==> e.TypeRedefined?
    ensures |es| == 0 <==> forall i :: 0 <= i < |checks| ==> Equivalent(checks[i].0, checks[i].1)
  {
    if checks == [] then multiset{}
    else
      assert forall i :: 1 <= i < |checks| ==> checks[i] == checks[1..][i - 1];
      (if Equivalent(checks[0].0, checks[0].1) then multiset{} else multiset{TypeRedefined(checks[0].1.id)}) +
      TypeCheckErrors(checks[1..])
  }

  /** A redeclared one-way operation must have an equivalent request type. */
  function OneWayCheckErrors(checks: seq<(OperationDecl, OperationDecl)>): (es: multiset<SemanticError>)
    decreases checks
    ensures forall e :: e in es ==> e.OneWayRequestMismatch?
    ensures |es| == 0 <==> forall i :: 0 <= i < |checks| ==> Equivalent(checks[i].0.request, checks[i].1.request)
  {
    if checks == [] then multiset{}
    else
      assert forall i :: 1 <= i < |checks| ==> checks[i] == checks[1..][i - 1];
      (if Equivalent(checks[0].0.request, checks[0].1.request) then multiset{}
       else multiset{OneWayRequestMismatch(checks[0].0.id)}) +
      OneWayCheckErrors(checks[1..])
  }

  /** The faults of `n` that `other` does not declare with an equivalent type. */
  function MismatchedFaults(n: map<string, TypeDef>, other: map<string, TypeDef>): set<string>
  {
    set f | f in n && (f !in other || !Equivalent(other[f], n[f]))
  }

  /** Reference: two fault maps declare the same names with equivalent types. */
  predicate FaultsEquivalent(n: map<string, TypeDef>, other: map<string, TypeDef>)
  {
    n.Keys == other.Keys && forall f :: f in n ==> Equivalent(other[f], n[f])
  }

  /** The size comparison and the per-fault comparison together detect exactly the fault maps that
      are not equivalent. */
  lemma FaultChecksIff(n: map<string, TypeDef>, other: map<string, TypeDef>)
    ensures (|n| == |other| && |MismatchedFaults(n, other)| == 0) <==> FaultsEquivalent(n, other)
  {
    var m := MismatchedFaults(n, other);
    assert forall f :: f in m <==> f in n && (f !in other || !Equivalent(other[f], n[f]));
    if FaultsEquivalent(n, other) {
      assert |n| == |n.Keys| == |other.Keys| == |other|;
      assert m == {};
    }
    if |n| == |other| && |m| == 0 {
      assert m == {};
      assert n.Keys <= other.Keys;
      SubsetOfSameSize(n.Keys, other.Keys);
    }
  }

  lemma SubsetOfSameSize<T>(a: set<T>, b: set<T>)
    requires a <= b && |a| == |b|
    ensures a == b
  {
    var missing := b - a;
    assert b == a + missing;
    assert |missing| == 0;
  }

  /** A redeclared request-response operation must have equivalent request and response types and
      the same faults with equivalent types. Each mismatching fault is reported on its own, and a
      different number of faults once more. */
  function RequestResponseMismatch(n: OperationDecl, other: OperationDecl): (es: multiset<SemanticError>)
    requires n.RequestResponseDecl? && other.RequestResponseDecl?
    ensures forall e :: e in es ==> e == RequestMismatch(n.id) || e == ResponseMismatch(n.id) || e == FaultsMismatch(n.id)
    ensures es[FaultsMismatch(n.id)] ==
      (if |n.faults| != |other.faults| then 1 else 0) + |MismatchedFaults(n.faults, other.faults)|
    ensures |es| == 0 <==>
      Equivalent(n.request, other.request) && Equivalent(n.response, other.response) &&
      FaultsEquivalent(n.faults, other.faults)
  {
    FaultChecksIff(n.faults, other.faults);
    (if Equivalent(n.request, other.request) then multiset{} else multiset{RequestMismatch(n.id)}) +
    (if Equivalent(n.response, other.response) then multiset{} else multiset{ResponseMismatch(n.id)}) +
    (if |n.faults| != |other.faults| then multiset{FaultsMismatch(n.id)} else multiset{}) +
    multiset{}[FaultsMismatch(n.id) := |MismatchedFaults(n.faults, other.faults)|]
  }

  function RequestResponseCheckErrors(checks: seq<(OperationDecl, OperationDecl)>): (es: multiset<SemanticError>)
    decreases checks
    ensures forall e :: e in es ==> e.RequestMismatch? || e.ResponseMismatch? || e.FaultsMismatch?
  {
    if checks == [] then multiset{}
    else
      (if checks[0].0.RequestResponseDecl? && checks[0].1.RequestResponseDecl?
       then RequestResponseMismatch(checks[0].0, checks[0].1) else multiset{}) +
      RequestResponseCheckErrors(checks[1..])
  }

  // ---------------------------------------------------------------- correlation sets

  /** A correlation pair: a correlation variable and the alias path that feeds it. */
  datatype CorrelationPair = CorrelationPair(variable: VarPath, alias: VarPath)

  /** The correlation function built for the runtime: the correlation sets in declaration order,
      the index of the set each correlating operation belongs to, and the pairs of each operation. */
  datatype CorrelationFunction = CorrelationFunction(
    sets: seq<CorrelationSet>,
    owner: map<string, nat>,
    pairs: map<string, seq<CorrelationPair>>)

  /** An alias's guard must be a defined type that contains the alias path. */
  function AliasCheck(types: map<string, TypeDef>, a: Alias): (r: Option<SemanticError>)
    ensures r.None? <==> a.guard in types && ContainsPath(types[a.guard], a.path)
  {
    if a.guard !in types then Some(UndefinedGuardType(a.guard))
    else if !ContainsPath(types[a.guard], a.path) then Some(GuardLacksPath(a.guard))
    else None
  }

  /** The input operations whose request type is an alias's guard. */
  function GuardOperations(ops: map<string, seq<string>>, a: Alias): seq<string>
  {
    if a.guard in ops then ops[a.guard] else []
  }

  /** The aliases of a correlation set, in declaration order, each with its variable. */
  function SetAliases(cs: CorrelationSet): seq<(VarPath, Alias)>
  {
    VariablesAliases(cs.variables)
  }

  function VariablesAliases(vs: seq<CorrelationVariable>): seq<(VarPath, Alias)>
    decreases vs
  {
    if vs == [] then [] else VariableAliases(vs[0].path, vs[0].aliases) + VariablesAliases(vs[1..])
  }

  function VariableAliases(v: VarPath, aliases: seq<Alias>): (r: seq<(VarPath, Alias)>)
    decreases aliases
    ensures |r| == |aliases| && forall i :: 0 <= i < |aliases| ==> r[i] == (v, aliases[i])
  {
    if aliases == [] then [] else [(v, aliases[0])] + VariableAliases(v, aliases[1..])
  }

  function AliasesCheckErrors(types: map<string, TypeDef>, entries: seq<(VarPath, Alias)>): (es: multiset<SemanticError>)
    decreases entries
    ensures forall e :: e in es ==> e.UndefinedGuardType? || e.GuardLacksPath?
  {
    if entries == [] then multiset{}
    else OptionalError(AliasCheck(types, entries[0].1)) + AliasesCheckErrors(types, entries[1..])
  }

  /** The aliases raise no diagnostic exactly when every guard is defined and contains its path. */
  lemma {:induction false} AliasesCheckErrorsEmptyIff(types: map<string, TypeDef>, entries: seq<(VarPath, Alias)>)
    ensures |AliasesCheckErrors(types, entries)| == 0 <==>
      forall i :: 0 <= i < |entries| ==> entries[i].1.guard in types && ContainsPath(types[entries[i].1.guard], entries[i].1.path)
    decreases entries
  {
    if entries != [] {
      AliasesCheckErrorsEmptyIff(types, entries[1..]);
      assert forall i :: 1 <= i < |entries| ==> entries[i] == entries[1..][i - 1];
      var head := AliasCheck(types, entries[0].1);
      assert |OptionalError(head)| == 0 <==> head.None?;
    }
  }

  /** The operations a correlation set correlates: those whose request type guards one of its aliases. */
  function SetOperations(ops: map<string, seq<string>>, entries: seq<(VarPath, Alias)>): set<string>
  {
    set i, k | 0 <= i < |entries| && 0 <= k < |GuardOperations(ops, entries[i].1)| :: GuardOperations(ops, entries[i].1)[k]
  }

  /** Appends a correlation pair for each listed operation. */
  function AddPairs(pairs: map<string, seq<CorrelationPair>>, names: seq<string>, p: CorrelationPair)
    : (r: map<string, seq<CorrelationPair>>)
    decreases names
  {
    if names == [] then pairs
    else AddPairs(pairs[names[0] := (if names[0] in pairs then pairs[names[0]] else []) + [p]], names[1..], p)
  }

  function AliasesPairs(pairs: map<string, seq<CorrelationPair>>, ops: map<string, seq<string>>,
                        entries: seq<(VarPath, Alias)>): map<string, seq<CorrelationPair>>
    decreases entries
  {
    if entries == [] then pairs
    else AliasesPairs(AddPairs(pairs, GuardOperations(ops, entries[0].1), CorrelationPair(entries[0].0, entries[0].1.path)),
                      ops, entries[1..])
  }

  /** A correlation set claims its operations: an operation already claimed by an earlier set is an
      error and keeps its first set, every other operation is assigned to set `index`. */
  function Claim(owner: map<string, nat>, names: set<string>, index: nat): (res: (map<string, nat>, multiset<SemanticError>))
    ensures res.0.Keys == owner.Keys + names
    ensures forall e :: e in res.1 ==> e.MultipleCorrelationSets?
  {
    var claimed := set x | x in names && x in owner;
    (owner + map x | x in names && x !in owner :: index, multiset(set x | x in claimed :: MultipleCorrelationSets(x)))
  }

  /** A claim keeps the owner of an operation claimed before and gives the others to set `index`. */
  lemma ClaimOwner(owner: map<string, nat>, names: set<string>, index: nat, x: string)
    requires x in owner || x in names
    ensures Claim(owner, names, index).0[x] == if x in owner then owner[x] else index
  {
  }

  /** A claim reports an operation exactly when it was claimed before. */
  lemma ClaimErrors(owner: map<string, nat>, names: set<string>, index: nat, x: string)
    ensures Claim(owner, names, index).1[MultipleCorrelationSets(x)] == if x in names && x in owner then 1 else 0
  {
    var claimed := set y | y in names && y in owner;
    if x in claimed {
      assert MultipleCorrelationSets(x) in set y | y in claimed :: MultipleCorrelationSets(y);
    }
  }

  /** A claim by set `index` keeps every owner below `index + 1`. */
  lemma ClaimBelow(owner: map<string, nat>, names: set<string>, index: nat)
    requires forall y :: y in owner ==> owner[y] < index
    ensures forall y :: y in Claim(owner, names, index).0 ==> Claim(owner, names, index).0[y] < index + 1
  {
  }

  /** The claims of the sets from position `index` on, `claims[i]` being the operations set `i`
      correlates: the owner of every correlating operation and the diagnostics of repeated claims. */
  function Owners(claims: seq<set<string>>, index: nat, owner: map<string, nat>)
    : (res: (map<string, nat>, multiset<SemanticError>))
    requires index <= |claims|
    requires forall x :: x in owner ==> owner[x] < index
    decreases |claims| - index
    ensures forall x :: x in res.0 ==> res.0[x] < |claims|
    ensures forall e :: e in res.1 ==> e.MultipleCorrelationSets?
  {
    if index == |claims| then (owner, multiset{})
    else
      var claim := Claim(owner, claims[index], index);
      var rest := Owners(claims, index + 1, claim.0);
      (rest.0, claim.1 + rest.1)
  }

  /** Later sets never take an operation away from the set that owns it. */
  lemma {:induction false} OwnersKeep(claims: seq<set<string>>, index: nat, owner: map<string, nat>, x: string)
    requires index <= |claims|
    requires forall y :: y in owner ==> owner[y] < index
    requires x in owner
    ensures x in Owners(claims, index, owner).0 && Owners(claims, index, owner).0[x] == owner[x]
    decreases |claims| - index
  {
    if index < |claims| {
      var claim := Claim(owner, claims[index], index);
      ClaimBelow(owner, claims[index], index);
      ClaimOwner(owner, claims[index], index, x);
      OwnersKeep(claims, index + 1, claim.0, x);
    }
  }

  /** The operations each correlation set correlates, set by set. */
  function SetsOperations(ops: map<string, seq<string>>, sets: seq<CorrelationSet>): (claims: seq<set<string>>)
    decreases sets
    ensures |claims| == |sets|
    ensures forall i :: 0 <= i < |sets| ==> claims[i] == SetOperations(ops, SetAliases(sets[i]))
  {
    if sets == [] then [] else [SetOperations(ops, SetAliases(sets[0]))] + SetsOperations(ops, sets[1..])
  }

  /** The alias checks of all sets. */
  function SetsAliasErrors(types: map<string, TypeDef>, sets: seq<CorrelationSet>): (es: multiset<SemanticError>)
    decreases sets
    ensures forall e :: e in es ==> e.UndefinedGuardType? || e.GuardLacksPath?
  {
    if sets == [] then multiset{} else AliasesCheckErrors(types, SetAliases(sets[0])) + SetsAliasErrors(types, sets[1..])
  }

  /** The correlation pairs of all sets, whether or not a set keeps its claim on an operation. */
  function SetsPairs(pairs: map<string, seq<CorrelationPair>>, ops: map<string, seq<string>>, sets: seq<CorrelationSet>)
    : map<string, seq<CorrelationPair>>
    decreases sets
  {
    if sets == [] then pairs else SetsPairs(AliasesPairs(pairs, ops, SetAliases(sets[0])), ops, sets[1..])
  }

  function PairCount(pairs: map<string, seq<CorrelationPair>>, x: string): nat
  {
    if x in pairs then |pairs[x]| else 0
  }

  /** After all sets are processed, every correlating operation must have one pair per variable of
      its set; pairs contributed by a set that lost the claim count too. */
  function IncompleteErrors(sets: seq<CorrelationSet>, owner: map<string, nat>, pairs: map<string, seq<CorrelationPair>>)
    : (es: multiset<SemanticError>)
    requires forall x :: x in owner ==> owner[x] < |sets|
    ensures forall x :: (es[IncompleteAliases(x)] ==
      if x in owner && PairCount(pairs, x) != |sets[owner[x]].variables| then 1 else 0)
    ensures forall e :: e in es ==> e.IncompleteAliases?
  {
    var bad := set x | x in owner && PairCount(pairs, x) != |sets[owner[x]].variables|;
    var es := multiset(set x | x in bad :: IncompleteAliases(x));
    assert forall x :: x in bad ==> IncompleteAliases(x) in es;
    es
  }

  /** The correlation checks: alias checks and claims set by set, then the completeness check. The
      source interleaves the first two per alias; only the multiset of diagnostics is kept, so they
      are computed apart. */
  function CheckCorrelationSets(env: Env): (res: (multiset<SemanticError>, CorrelationFunction))
    ensures forall x :: x in res.1.owner ==> res.1.owner[x] < |res.1.sets|
    ensures res.1.sets == env.correlationSets
  {
    var sets := env.correlationSets;
    var owners := Owners(SetsOperations(env.inputTypeOperations, sets), 0, map[]);
    var pairs := SetsPairs(map[], env.inputTypeOperations, sets);
    (SetsAliasErrors(env.definedTypes, sets) + owners.1 + IncompleteErrors(sets, owners.0, pairs),
     CorrelationFunction(sets, owners.0, pairs))
  }

  // ---------------------------------------------------------------- claims

  /** Reference: the first position at or after `index` whose set correlates `x`, or |claims|. */
  function FirstClaim(claims: seq<set<string>>, index: nat, x: string): (i: nat)
    requires index <= |claims|
    decreases |claims| - index
    ensures index <= i <= |claims|
  {
    if index == |claims| then |claims|
    else if x in claims[index] then index
    else FirstClaim(claims, index + 1, x)
  }

  /** Reference: the number of sets at or after `index` that correlate `x`. */
  function Claims(claims: seq<set<string>>, index: nat, x: string): nat
    requires index <= |claims|
    decreases |claims| - index
  {
    if index == |claims| then 0
    else (if x in claims[index] then 1 else 0) + Claims(claims, index + 1, x)
  }

  /** An operation not claimed before belongs to the first set that correlates it, if any. */
  lemma {:induction false} OwnerIsFirstClaim(claims: seq<set<string>>, index: nat, owner: map<string, nat>, x: string)
    requires index <= |claims|
    requires forall y :: y in owner ==> owner[y] < index
    requires x !in owner
    ensures x in Owners(claims, index, owner).0 <==> FirstClaim(claims, index, x) < |claims|
    ensures x in Owners(claims, index, owner).0 ==> Owners(claims, index, owner).0[x] == FirstClaim(claims, index, x)
    decreases |claims| - index
  {
    if index < |claims| {
      var claim := Claim(owner, claims[index], index);
      ClaimBelow(owner, claims[index], index);
      var rest := Owners(claims, index + 1, claim.0).0;
      assert Owners(claims, index, owner).0 == rest;
      if x in claims[index] {
        ClaimOwner(owner, claims[index], index, x);
        OwnersKeep(claims, index + 1, claim.0, x);
      } else {
        assert x !in claim.0;
        OwnerIsFirstClaim(claims, index + 1, claim.0, x);
      }
    }
  }

  /** An operation is reported once for every claim after its first. */
  lemma {:induction false} RepeatedClaims(claims: seq<set<string>>, index: nat, owner: map<string, nat>, x: string)
    requires index <= |claims|
    requires forall y :: y in owner ==> owner[y] < index
    ensures Owners(claims, index, owner).1[MultipleCorrelationSets(x)] ==
      if x in owner then Claims(claims, index, x)
      else if Claims(claims, index, x) == 0 then 0 else Claims(claims, index, x) - 1
    decreases |claims| - index
  {
    if index < |claims| {
      var claim := Claim(owner, claims[index], index);
      ClaimBelow(owner, claims[index], index);
      ClaimErrors(owner, claims[index], index, x);
      RepeatedClaims(claims, index + 1, claim.0, x);
      assert Owners(claims, index, owner).1 == claim.1 + Owners(claims, index + 1, claim.0).1;
    }
  }

  /** Reference: the number of times `x` is listed under the guards of the aliases in `entries`. */
  function GuardListings(ops: map<string, seq<string>>, entries: seq<(VarPath, Alias)>, x: string): nat
    decreases entries
  {
    if entries == [] then 0 else Count(GuardOperations(ops, entries[0].1), x) + GuardListings(ops, entries[1..], x)
  }

  lemma {:induction false} AddPairsCount(pairs: map<string, seq<CorrelationPair>>, names: seq<string>,
                                         p: CorrelationPair, x: string)
    ensures PairCount(AddPairs(pairs, names, p), x) == PairCount(pairs, x) + Count(names, x)
    decreases names
  {
    if names != [] {
      var next := pairs[names[0] := (if names[0] in pairs then pairs[names[0]] else []) + [p]];
      AddPairsCount(next, names[1..], p, x);
    }
  }

  /** An operation receives one pair for every alias whose guard lists it. */
  lemma {:induction false} AliasesPairsCount(pairs: map<string, seq<CorrelationPair>>, ops: map<string, seq<string>>,
                                             entries: seq<(VarPath, Alias)>, x: string)
    ensures PairCount(AliasesPairs(pairs, ops, entries), x) == PairCount(pairs, x) + GuardListings(ops, entries, x)
    decreases entries
  {
    if entries != [] {
      var p := CorrelationPair(entries[0].0, entries[0].1.path);
      AddPairsCount(pairs, GuardOperations(ops, entries[0].1), p, x);
      AliasesPairsCount(AddPairs(pairs, GuardOperations(ops, entries[0].1), p), ops, entries[1..], x);
    }
  }

  /** Reference: the number of times `x` is listed under the guards of the aliases of `sets`. */
  function SetsListings(ops: map<string, seq<string>>, sets: seq<CorrelationSet>, x: string): nat
    decreases sets
  {
    if sets == [] then 0 else GuardListings(ops, SetAliases(sets[0]), x) + SetsListings(ops, sets[1..], x)
  }

  lemma {:induction false} SetsPairsCount(pairs: map<string, seq<CorrelationPair>>, ops: map<string, seq<string>>,
                                          sets: seq<CorrelationSet>, x: string)
    ensures PairCount(SetsPairs(pairs, ops, sets), x) == PairCount(pairs, x) + SetsListings(ops, sets, x)
    decreases sets
  {
    if sets != [] {
      AliasesPairsCount(pairs, ops, SetAliases(sets[0]), x);
      SetsPairsCount(AliasesPairs(pairs, ops, SetAliases(sets[0])), ops, sets[1..], x);
    }
  }

  /** An operation belongs to the first declared set that correlates it, and to none when no set
      does. */
  lemma CorrelationOwner(env: Env, x: string)
    ensures var claims := SetsOperations(env.inputTypeOperations, env.correlationSets);
      var owner := CheckCorrelationSets(env).1.owner;
      (x in owner <==> FirstClaim(claims, 0, x) < |claims|) && (x in owner ==> owner[x] == FirstClaim(claims, 0, x))
  {
    var claims := SetsOperations(env.inputTypeOperations, env.correlationSets);
    assert CheckCorrelationSets(env).1.owner == Owners(claims, 0, map[]).0;
    OwnerIsFirstClaim(claims, 0, map[], x);
  }

  /** An operation gets one correlation pair for every listing under an alias guard of any set. */
  lemma CorrelationPairs(env: Env, x: string)
    ensures PairCount(CheckCorrelationSets(env).1.pairs, x) == SetsListings(env.inputTypeOperations, env.correlationSets, x)
  {
    assert CheckCorrelationSets(env).1.pairs == SetsPairs(map[], env.inputTypeOperations, env.correlationSets);
    SetsPairsCount(map[], env.inputTypeOperations, env.correlationSets, x);
  }

  /** An operation is reported once for every set after the first that correlates it. */
  lemma CorrelationRepeats(env: Env, x: string)
    ensures var claims := SetsOperations(env.inputTypeOperations, env.correlationSets);
      CheckCorrelationSets(env).0[MultipleCorrelationSets(x)] ==
        if Claims(claims, 0, x) == 0 then 0 else Claims(claims, 0, x) - 1
  {
    var sets := env.correlationSets;
    var claims := SetsOperations(env.inputTypeOperations, sets);
    var owners := Owners(claims, 0, map[]);
    var aliases := SetsAliasErrors(env.definedTypes, sets);
    var incomplete := IncompleteErrors(sets, owners.0, SetsPairs(map[], env.inputTypeOperations, sets));
    assert CheckCorrelationSets(env).0 == aliases + owners.1 + incomplete;
    assert aliases[MultipleCorrelationSets(x)] == 0 && incomplete[MultipleCorrelationSets(x)] == 0;
    RepeatedClaims(claims, 0, map[], x);
  }

  /** An owned operation is reported once when its pairs do not match its set's variables. */
  lemma CorrelationIncomplete(env: Env, x: string)
    ensures var res := CheckCorrelationSets(env);
      res.0[IncompleteAliases(x)] ==
        if x in res.1.owner && PairCount(res.1.pairs, x) != |res.1.sets[res.1.owner[x]].variables| then 1 else 0
  {
    var sets := env.correlationSets;
    var claims := SetsOperations(env.inputTypeOperations, sets);
    var owners := Owners(claims, 0, map[]);
    var aliases := SetsAliasErrors(env.definedTypes, sets);
    var incomplete := IncompleteErrors(sets, owners.0, SetsPairs(map[], env.inputTypeOperations, sets));
    assert CheckCorrelationSets(env).0 == aliases + owners.1 + incomplete;
    assert aliases[IncompleteAliases(x)] == 0 && owners.1[IncompleteAliases(x)] == 0;
  }

  // ---------------------------------------------------------------- validation

  /** What a successful validation hands to the interpreter. */
  datatype Outcome = Outcome(
    mode: ExecutionMode,
    constants: map<string, bool>,
    correlation: CorrelationFunction,
    warnings: multiset<SemanticWarning>)

  /** The diagnostics of the checks after the walk, in the order they run. */
  function FinalErrors(st: State, checkForMain: bool): multiset<SemanticError>
  {
    LinkErrors(st.env.definedTypes, st.env.typeLinks) +
    TypeCheckErrors(st.env.typeChecks) +
    OneWayCheckErrors(st.env.oneWayChecks) +
    RequestResponseCheckErrors(st.env.requestResponseChecks) +
    CheckCorrelationSets(st.env).0 +
    (if checkForMain && !st.env.mainDefined then multiset{MainNotDefined} else multiset{})
  }

  /** The walk over a program from the parser's type map. */
  function Walk(prog: Program, declaredTypes: map<string, TypeDef>): State
  {
    VisitProgram(Initial(declaredTypes), prog)
  }

  /** Every diagnostic of a validation: those of the walk, then those of the final checks. */
  function AllErrors(prog: Program, declaredTypes: map<string, TypeDef>, checkForMain: bool): multiset<SemanticError>
  {
    Walk(prog, declaredTypes).errors + FinalErrors(Walk(prog, declaredTypes), checkForMain)
  }

  /** Validation never stops early: it fails exactly when some diagnostic was recorded, and the
      failure carries every one of them. */
  function Validate(prog: Program, declaredTypes: map<string, TypeDef>, checkForMain: bool)
    : (r: Result<Outcome, multiset<SemanticError>>)
    ensures r.Failure? <==> |AllErrors(prog, declaredTypes, checkForMain)| > 0
    ensures r.Failure? ==> r.error == AllErrors(prog, declaredTypes, checkForMain)
    ensures r.Success? ==> r.value.correlation.sets == Walk(prog, declaredTypes).env.correlationSets
  {
    var st := Walk(prog, declaredTypes);
    var errors := st.errors + FinalErrors(st, checkForMain);
    if |errors| > 0 then Failure(errors)
    else Success(Outcome(st.env.mode, st.constants, CheckCorrelationSets(st.env).1, st.warnings))
  }

  /** Whenever main must be defined and the program does not define it, validation fails and
      reports it. */
  lemma MainMissingFails(prog: Program, declaredTypes: map<string, TypeDef>)
    requires !Defines(prog, "main")
    ensures Validate(prog, declaredTypes, true).Failure?
    ensures MainNotDefined in Validate(prog, declaredTypes, true).error
  {
    MainDefinedIff(Initial(declaredTypes), prog);
  }

  /** The final checks report a missing main only when the program does not define it. */
  lemma MainDefinedNotReported(prog: Program, declaredTypes: map<string, TypeDef>, checkForMain: bool)
    requires Defines(prog, "main")
    ensures MainNotDefined !in FinalErrors(Walk(prog, declaredTypes), checkForMain)
  {
    MainDefinedIff(Initial(declaredTypes), prog);
  }

  /** A forward call makes validation fail. */
  lemma ForwardCallFails(prog: Program, declaredTypes: map<string, TypeDef>, checkForMain: bool, x: string)
    requires CallsBeforeDefinition(prog, x) > 0
    ensures Validate(prog, declaredTypes, checkForMain).Failure?
    ensures Validate(prog, declaredTypes, checkForMain).error[UndefinedProcedure(x)] >= CallsBeforeDefinition(prog, x)
  {
    ProgramCallErrors(Initial(declaredTypes), prog, x);
  }

  /** The final checks pass only when every link resolves, every queued redeclaration is
      equivalent to what it replaced, no operation is correlated by two sets, and main is defined
      when it is required. */
  lemma FinalChecksClean(st: State, checkForMain: bool)
    requires |FinalErrors(st, checkForMain)| == 0
    ensures forall i :: 0 <= i < |st.env.typeLinks| ==> st.env.typeLinks[i].target in st.env.definedTypes
    ensures forall i :: 0 <= i < |st.env.typeChecks| ==> Equivalent(st.env.typeChecks[i].0, st.env.typeChecks[i].1)
    ensures forall i :: 0 <= i < |st.env.oneWayChecks| ==>
      Equivalent(st.env.oneWayChecks[i].0.request, st.env.oneWayChecks[i].1.request)
    ensures forall x :: Claims(SetsOperations(st.env.inputTypeOperations, st.env.correlationSets), 0, x) <= 1
    ensures checkForMain ==> st.env.mainDefined
  {
    var links := st.env.typeLinks;
    assert |LinkErrors(st.env.definedTypes, links)| == 0;
    assert |TypeCheckErrors(st.env.typeChecks)| == 0;
    assert |OneWayCheckErrors(st.env.oneWayChecks)| == 0;
    assert |CheckCorrelationSets(st.env).0| == 0;
    forall i | 0 <= i < |links| ensures links[i].target in st.env.definedTypes {
      LinkErrorsCount(st.env.definedTypes, links, links[i]);
      CountPositiveIffIn(links, links[i]);
    }
    forall x ensures Claims(SetsOperations(st.env.inputTypeOperations, st.env.correlationSets), 0, x) <= 1 {
      CorrelationRepeats(st.env, x);
    }
  }

  /** A validation that succeeds has no forward call, defines main when it is required, and passes
      every final check. */
  lemma ValidationSucceeds(prog: Program, declaredTypes: map<string, TypeDef>, checkForMain: bool)
    requires Validate(prog, declaredTypes, checkForMain).Success?
    ensures forall x :: CallsBeforeDefinition(prog, x) == 0
    ensures checkForMain ==> Defines(prog, "main")
    ensures var st := Walk(prog, declaredTypes);
      (forall i :: 0 <= i < |st.env.typeLinks| ==> st.env.typeLinks[i].target in st.env.definedTypes) &&
      (forall i :: 0 <= i < |st.env.typeChecks| ==> Equivalent(st.env.typeChecks[i].0, st.env.typeChecks[i].1)) &&
      (forall x :: Claims(SetsOperations(st.env.inputTypeOperations, st.env.correlationSets), 0, x) <= 1)
  {
    var st := Walk(prog, declaredTypes);
    assert |FinalErrors(st, checkForMain)| == 0;
    FinalChecksClean(st, checkForMain);
    forall x ensures CallsBeforeDefinition(prog, x) == 0 {
      if CallsBeforeDefinition(prog, x) > 0 {
        ForwardCallFails(prog, declaredTypes, checkForMain, x);
      }
    }
    if checkForMain && !Defines(prog, "main") {
      MainMissingFails(prog, declaredTypes);
    }
  }
}
