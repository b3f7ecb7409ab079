/**
  The two type predicates the structural verifier calls but whose definitions live outside its
  source file: equivalence of two type definitions and containment of a variable path in a type.
  Both are given a plain structural meaning here.
*/
module TypeRules {
  import opened Ast

  /** Structural equivalence: same kind, same cardinality, same native type, and sub-definitions
      with the same names in the same positions whose definitions are again equivalent. Links are
      equivalent when they name the same target. Identifiers of the two definitions are not compared. */
  predicate Equivalent(a: TypeDef, b: TypeDef)
    decreases a
  {
    match a
    case InlineType(_, c1, n1, f1) =>
      b.InlineType? && c1 == b.card && n1 == b.native && FieldsEquivalent(f1, b.fields)
    case LinkType(_, c1, t1) =>
      b.LinkType? && c1 == b.card && t1 == b.linkedName
    case ChoiceType(_, c1, l1, r1) =>
      b.ChoiceType? && c1 == b.card && Equivalent(l1, b.left) && Equivalent(r1, b.right)
  }

  predicate FieldsEquivalent(fs: seq<Field>, gs: seq<Field>)
    decreases fs
  {
    |fs| == |gs| &&
    (fs != [] ==> fs[0].name == gs[0].name && Equivalent(fs[0].def, gs[0].def) && FieldsEquivalent(fs[1..], gs[1..]))
  }

  /** Every definition is equivalent to itself, so an identical redeclaration is accepted. */
  lemma {:induction false} EquivalentReflexive(t: TypeDef)
    ensures Equivalent(t, t)
    decreases t
  {
    match t
    case InlineType(_, _, _, fs) => FieldsEquivalentReflexive(fs);
    case LinkType(_, _, _) =>
    case ChoiceType(_, _, l, r) => EquivalentReflexive(l); EquivalentReflexive(r);
  }

  lemma {:induction false} FieldsEquivalentReflexive(fs: seq<Field>)
    ensures FieldsEquivalent(fs, fs)
    decreases fs
  {
    if fs != [] {
      EquivalentReflexive(fs[0].def);
      FieldsEquivalentReflexive(fs[1..]);
    }
  }

  /** Equivalence does not depend on which declaration is the canonical one. */
  lemma {:induction false} EquivalentSymmetric(a: TypeDef, b: TypeDef)
    requires Equivalent(a, b)
    ensures Equivalent(b, a)
    decreases a
  {
    match a
    case InlineType(_, _, _, fs) => FieldsEquivalentSymmetric(fs, b.fields);
    case LinkType(_, _, _) =>
    case ChoiceType(_, _, l, r) => EquivalentSymmetric(l, b.left); EquivalentSymmetric(r, b.right);
  }

  lemma {:induction false} FieldsEquivalentSymmetric(fs: seq<Field>, gs: seq<Field>)
    requires FieldsEquivalent(fs, gs)
    ensures FieldsEquivalent(gs, fs)
    decreases fs
  {
    if fs != [] {
      EquivalentSymmetric(fs[0].def, gs[0].def);
      FieldsEquivalentSymmetric(fs[1..], gs[1..]);
    }
  }

  /** A type contains a path when each step names a sub-definition of the type reached so far;
      a choice contains what either alternative contains. Links are not followed. */
  predicate ContainsSteps(t: TypeDef, steps: seq<PathStep>)
    decreases t, 1
  {
    if steps == [] then true
    else match t
      case InlineType(_, _, _, fs) => steps[0].key.Named? && FieldsContain(fs, steps[0].key.name, steps[1..])
      case LinkType(_, _, _) => false
      case ChoiceType(_, _, l, r) => ContainsSteps(l, steps) || ContainsSteps(r, steps)
  }

  predicate FieldsContain(fs: seq<Field>, name: string, steps: seq<PathStep>)
    decreases fs, 0
  {
    fs != [] && ((fs[0].name == name && ContainsSteps(fs[0].def, steps)) || FieldsContain(fs[1..], name, steps))
  }

  predicate ContainsPath(t: TypeDef, p: VarPath)
  {
    ContainsSteps(t, p.Steps())
  }
}
