/**
  Expressions in the structural verifier. An expression never changes the verifier's state
  except through the diagnostics of the variable paths it mentions, so its visit is modelled as
  the list of those paths, in visit order, and the diagnostics each of them raises.
*/
module Expressions {
  import opened Util
  import opened Ast
  import opened Diagnostics
  import opened VerifierState

  /** Every variable path an expression mentions, in visit order, including the paths and
      targets of inline-tree operations. */
  function ExprPaths(e: Expr): seq<VarPath>
    decreases e
  {
    match e
    case Variable(p) => [p]
    case Sum(xs) => ExprsPaths(xs)
    case Product(xs) => ExprsPaths(xs)
    case Or(xs) => ExprsPaths(xs)
    case And(xs) => ExprsPaths(xs)
    case Not(x) => ExprPaths(x)
    case Compare(a, b) => ExprPaths(a) + ExprPaths(b)
    case InstanceOf(x) => ExprPaths(x)
    case IsType(p) => [p]
    case TypeCast(x) => ExprPaths(x)
    case VectorSize(p) => [p]
    case InstallFixedVariable(p) => [p]
    case InlineTree(root, ops) => ExprPaths(root) + TreeOpsPaths(ops)
    case _ => []
  }

  function ExprsPaths(xs: seq<Expr>): seq<VarPath>
    decreases xs
  {
    if xs == [] then [] else ExprPaths(xs[0]) + ExprsPaths(xs[1..])
  }

  function TreeOpPaths(op: TreeOperation): seq<VarPath>
    decreases op
  {
    match op
    case TreeAssign(p, v) => [p] + ExprPaths(v)
    case TreeDeepCopy(p, v) => [p] + ExprPaths(v)
    case TreePointsTo(p, t) => [p, t]
  }

  function TreeOpsPaths(ops: seq<TreeOperation>): seq<VarPath>
    decreases ops
  {
    if ops == [] then [] else TreeOpPaths(ops[0]) + TreeOpsPaths(ops[1..])
  }

  /** The diagnostics of a list of paths, each checked on its own. */
  function PathsErrors(insideInit: bool, ps: seq<VarPath>): (es: multiset<SemanticError>)
    decreases ps
    ensures forall x :: x in es ==> IsPathError(x)
    ensures NoCallErrors(es)
  {
    if ps == [] then multiset{} else PathErrors(insideInit, ps[0]) + PathsErrors(insideInit, ps[1..])
  }

  /** The diagnostics of visiting an expression. */
  function ExprErrors(insideInit: bool, e: Expr): multiset<SemanticError>
  {
    PathsErrors(insideInit, ExprPaths(e))
  }

  function OptionalExprErrors(insideInit: bool, e: Option<Expr>): multiset<SemanticError>
  {
    if e.Some? then ExprErrors(insideInit, e.value) else multiset{}
  }

  // ---------------------------------------------------------------- acceptance

  predicate AllAccepted(insideInit: bool, ps: seq<VarPath>)
  {
    forall i :: 0 <= i < |ps| ==> PathAccepted(insideInit, ps[i])
  }

  /** A list of paths raises no diagnostic exactly when every path in it is accepted. */
  lemma {:induction false} PathsErrorsEmptyIff(insideInit: bool, ps: seq<VarPath>)
    ensures |PathsErrors(insideInit, ps)| == 0 <==> AllAccepted(insideInit, ps)
    decreases ps
  {
    if ps != [] {
      PathsErrorsEmptyIff(insideInit, ps[1..]);
      assert AllAccepted(insideInit, ps) <==>
        PathAccepted(insideInit, ps[0]) && AllAccepted(insideInit, ps[1..]) by {
        if AllAccepted(insideInit, ps[1..]) && PathAccepted(insideInit, ps[0]) {
          forall i | 0 <= i < |ps|
            ensures PathAccepted(insideInit, ps[i])
          {
            if i > 0 {
              assert ps[i] == ps[1..][i - 1];
            }
          }
        }
      }
    }
  }

  /** The diagnostics of a concatenation are those of its parts. */
  lemma {:induction false} PathsErrorsConcat(insideInit: bool, a: seq<VarPath>, b: seq<VarPath>)
    ensures PathsErrors(insideInit, a + b) == PathsErrors(insideInit, a) + PathsErrors(insideInit, b)
    decreases a
  {
    if a == [] {
      assert a + b == b;
    } else {
      assert (a + b)[0] == a[0] && (a + b)[1..] == a[1..] + b;
      PathsErrorsConcat(insideInit, a[1..], b);
    }
  }

  /** An expression raises no diagnostic exactly when every path it mentions is accepted. */
  lemma ExprErrorsEmptyIff(insideInit: bool, e: Expr)
    ensures |ExprErrors(insideInit, e)| == 0 <==> AllAccepted(insideInit, ExprPaths(e))
  {
    PathsErrorsEmptyIff(insideInit, ExprPaths(e));
  }
}
