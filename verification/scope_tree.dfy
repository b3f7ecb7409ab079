/**
  The scope tree of the fault-flow verifier. Every scope records the faults that may be thrown
  inside it and the fault names its installed handlers catch; resolution runs bottom-up, removes
  what a scope catches, and hands what is left to the scope above.

  A scope is linked to the tree twice in the source: through its parent's list of children, which
  decides when it is resolved, and through its own parent reference, which decides whether its
  residual faults go anywhere. The two agree except for handler scopes created at the root level,
  which are listed under the root but have no parent; `promotes` records which case applies.
*/
module Scopes {
  import opened Util

  /** Where a thrown fault comes from: `None` for a `throw` statement, `Some("op@port")` for a fault
      declared on a solicit-response operation the scope calls. */
  type Origin = Option<string>

  /** The faults a scope may let escape, by name. */
  type Thrown = map<string, Origin>

  /** A scope: whether it has a parent to promote its residual faults to, the faults thrown inside
      it, the names its handlers catch in installation order, and its children in creation order. */
  datatype ScopeTree = ScopeTree(promotes: bool, thrown: Thrown, caught: seq<string>, children: seq<ScopeTree>)

  /** The handler name that catches every fault. */
  const CatchAll := "default"

  /** The names listed in `s`. */
  function Names(s: seq<string>): (r: set<string>)
    ensures forall x :: x in r <==> x in s
  {
    set x | x in s
  }

  /** Records a thrown fault; a name already recorded keeps its first origin. */
  function AddThrown(m: Thrown, name: string, origin: Origin): (r: Thrown)
    ensures r.Keys == m.Keys + {name}
    ensures forall x :: x in m ==> r[x] == m[x]
    ensures name !in m ==> r[name] == origin
  {
    if name in m then m else m[name := origin]
  }

  /** Records a caught name unless it is already listed. */
  function AddCaught(caught: seq<string>, name: string): (r: seq<string>)
    ensures Names(r) == Names(caught) + {name}
    ensures NoDuplicates(caught) ==> NoDuplicates(r)
    ensures |caught| <= |r| && r[..|caught|] == caught
  {
    if name in caught then caught else caught + [name]
  }

  /** Records every fault of `incoming` that is not recorded yet, keeping the entries of `m`. */
  function Merge(m: Thrown, incoming: Thrown): (r: Thrown)
    ensures r.Keys == m.Keys + incoming.Keys
    ensures forall x :: x in m ==> r[x] == m[x]
    ensures forall x :: x in incoming && x !in m ==> r[x] == incoming[x]
  {
    incoming + m
  }

  /** What a handler removes from the faults of its scope: everything when a catch-all is
      installed, otherwise the names it catches. */
  function Catch(m: Thrown, caught: seq<string>): (r: Thrown)
    ensures CatchAll in caught ==> r == map[]
    ensures CatchAll !in caught ==> r.Keys == m.Keys - Names(caught)
    ensures forall x :: x in r ==> x in m && r[x] == m[x]
  {
    if CatchAll in caught then map[] else m - Names(caught)
  }

  /** The faults a scope hands to the scope that lists it: its residual when it has a parent,
      nothing otherwise. */
  function Handed(t: ScopeTree): Thrown
    decreases t, 2
  {
    if t.promotes then Resolve(t) else map[]
  }

  /** Resolution of a scope: its children are resolved first, in creation order, each handing its
      residual faults up; then the scope's handlers remove what they catch. */
  function Resolve(t: ScopeTree): (r: Thrown)
    decreases t, 1
    ensures CatchAll in t.caught ==> r == map[]
    ensures forall x :: x in r ==> x !in t.caught
  {
    Catch(Promote(t.thrown, t.children), t.caught)
  }

  /** The faults of a scope after its children in `cs` have handed up theirs, in order. */
  function Promote(m: Thrown, cs: seq<ScopeTree>): Thrown
    decreases cs, 0
  {
    if cs == [] then m else Promote(Merge(m, Handed(cs[0])), cs[1..])
  }

  // ---------------------------------------------------------------- reference definitions

  /** Reference: some child in `cs` that has a parent lets `x` escape. */
  predicate Escapes(cs: seq<ScopeTree>, x: string)
  {
    exists i :: 0 <= i < |cs| && cs[i].promotes && x in Resolve(cs[i])
  }

  /** Reference: the position of the first child of `cs` that hands `x` up, or |cs|. */
  function FirstEscape(cs: seq<ScopeTree>, x: string): (i: nat)
    decreases cs
    ensures i <= |cs|
    ensures i < |cs| ==> x in Handed(cs[i])
    ensures forall j :: 0 <= j < i ==> x !in Handed(cs[j])
  {
    if cs == [] then 0
    else if x in Handed(cs[0]) then 0
    else 1 + FirstEscape(cs[1..], x)
  }

  /** Reference: every fault thrown in a scope or in any scope below it. */
  function TreeFaults(t: ScopeTree): set<string>
    decreases t, 1
  {
    t.thrown.Keys + TreesFaults(t.children)
  }

  function TreesFaults(ts: seq<ScopeTree>): set<string>
    decreases ts, 0
  {
    if ts == [] then {} else TreeFaults(ts[0]) + TreesFaults(ts[1..])
  }

  lemma {:induction false} TreesFaultsConcat(a: seq<ScopeTree>, b: seq<ScopeTree>)
    ensures TreesFaults(a + b) == TreesFaults(a) + TreesFaults(b)
    decreases a
  {
    if a == [] {
      assert a + b == b;
    } else {
      assert (a + b)[0] == a[0] && (a + b)[1..] == a[1..] + b;
      TreesFaultsConcat(a[1..], b);
    }
  }

  lemma {:induction false} TreesFaultsElement(ts: seq<ScopeTree>, i: nat)
    requires i < |ts|
    ensures TreeFaults(ts[i]) <= TreesFaults(ts)
    decreases ts
  {
    if i > 0 {
      TreesFaultsElement(ts[1..], i - 1);
    }
  }

  // ---------------------------------------------------------------- promotion

  /** Promotion never changes a fault the scope already records. */
  lemma {:induction false} PromoteKeeps(m: Thrown, cs: seq<ScopeTree>, x: string)
    requires x in m
    ensures x in Promote(m, cs) && Promote(m, cs)[x] == m[x]
    decreases cs
  {
    if cs != [] {
      PromoteKeeps(Merge(m, Handed(cs[0])), cs[1..], x);
    }
  }

  /** After promotion a scope records exactly its own faults and those escaping a child with a
      parent. */
  lemma {:induction false} PromoteNames(m: Thrown, cs: seq<ScopeTree>, x: string)
    ensures x in Promote(m, cs) <==> x in m || Escapes(cs, x)
    decreases cs
  {
    if cs != [] {
      var m1 := Merge(m, Handed(cs[0]));
      PromoteNames(m1, cs[1..], x);
      if Escapes(cs[1..], x) {
        var i :| 0 <= i < |cs[1..]| && cs[1..][i].promotes && x in Resolve(cs[1..][i]);
        assert cs[i + 1] == cs[1..][i];
      }
      if Escapes(cs, x) && !(x in m) && !(x in Handed(cs[0])) {
        var i :| 0 <= i < |cs| && cs[i].promotes && x in Resolve(cs[i]);
        assert i != 0;
        assert cs[1..][i - 1] == cs[i];
      }
    }
  }

  /** A fault the scope does not record itself takes the origin given by the first child that
      hands it up: later children never overwrite it. */
  lemma {:induction false} PromoteFirstOrigin(m: Thrown, cs: seq<ScopeTree>, x: string)
    requires x !in m
    requires FirstEscape(cs, x) < |cs|
    ensures x in Promote(m, cs) && Promote(m, cs)[x] == Handed(cs[FirstEscape(cs, x)])[x]
    decreases cs
  {
    var m1 := Merge(m, Handed(cs[0]));
    if x in Handed(cs[0]) {
      PromoteKeeps(m1, cs[1..], x);
    } else {
      assert x !in m1;
      PromoteFirstOrigin(m1, cs[1..], x);
      assert cs[1..][FirstEscape(cs[1..], x)] == cs[FirstEscape(cs, x)];
    }
  }

  // ---------------------------------------------------------------- resolution

  /** Without a catch-all, a scope's residual is its own and its children's escaping faults minus
      the names it catches; with one, the residual is empty. */
  lemma ResolveNames(t: ScopeTree, x: string)
    ensures x in Resolve(t) <==>
      CatchAll !in t.caught && x !in t.caught && (x in t.thrown || Escapes(t.children, x))
  {
    PromoteNames(t.thrown, t.children, x);
  }

  /** A fault thrown directly in a scope and not caught there escapes it with its first origin. */
  lemma ResolveKeepsOwn(t: ScopeTree, x: string)
    requires x in t.thrown
    requires CatchAll !in t.caught && x !in t.caught
    ensures x in Resolve(t) && Resolve(t)[x] == t.thrown[x]
  {
    PromoteKeeps(t.thrown, t.children, x);
  }

  /** A scope lets escape only faults thrown in it or in some scope below it. */
  lemma {:induction false} ResolveWithin(t: ScopeTree)
    ensures Resolve(t).Keys <= TreeFaults(t)
    decreases t
  {
    forall x | x in Resolve(t)
      ensures x in TreeFaults(t)
    {
      ResolveNames(t, x);
      if x !in t.thrown {
        var i :| 0 <= i < |t.children| && t.children[i].promotes && x in Resolve(t.children[i]);
        ResolveWithin(t.children[i]);
        TreesFaultsElement(t.children, i);
      }
    }
  }

  /** A child without a parent never contributes to the scope that lists it. */
  lemma OrphanIgnored(m: Thrown, c: ScopeTree, cs: seq<ScopeTree>)
    requires !c.promotes
    ensures Promote(m, [c] + cs) == Promote(m, cs)
  {
    assert ([c] + cs)[1..] == cs;
    assert Merge(m, Handed(c)) == m;
  }
}
