/** `cfg` expressions and their meaning under an assignment of configuration options. */
module CfgSyntax {
  /** `Const` never comes from a source text; only simplification produces it. */
  datatype Expr =
    | Atom(name: string)
    | Not(arg: Expr)
    | All(args: seq<Expr>)
    | Any(args: seq<Expr>)
    | Const(value: bool)

  const TEST := "test"

  /** An assignment is the set of options that are switched on. */
  predicate Eval(e: Expr, on: set<string>) {
    match e
    case Atom(name) => name in on
    case Not(arg) => !Eval(arg, on)
    case All(args) => forall i :: 0 <= i < |args| ==> Eval(args[i], on)
    case Any(args) => exists i :: 0 <= i < |args| && Eval(args[i], on)
    case Const(value) => value
  }

  predicate ConstFree(e: Expr) {
    match e
    case Atom(_) => true
    case Not(arg) => ConstFree(arg)
    case All(args) => forall i :: 0 <= i < |args| ==> ConstFree(args[i])
    case Any(args) => forall i :: 0 <= i < |args| ==> ConstFree(args[i])
    case Const(_) => false
  }

  /** Whether option `a` occurs in `e`. */
  predicate Mentions(e: Expr, a: string) {
    match e
    case Atom(name) => name == a
    case Not(arg) => Mentions(arg, a)
    case All(args) => exists i :: 0 <= i < |args| && Mentions(args[i], a)
    case Any(args) => exists i :: 0 <= i < |args| && Mentions(args[i], a)
    case Const(_) => false
  }
}
