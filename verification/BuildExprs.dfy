/** BUILD expressions and the merge of two of them. */
module BuildExprs {
  import opened Options

  datatype Expr =
    | ListExpr(items: seq<Expr>)
    | DictExpr(entries: seq<Expr>)
    | CallExpr(callee: Expr, args: seq<Expr>)
    | BinaryExpr(x: Expr, op: string, lineBreak: bool, y: Expr)
    | DotExpr(of: Expr, member: string)
    | Ident(name: string)
    | StringExpr(value: string)
    | OtherExpr(id: nat)

  predicate IsGlob(e: Expr) {
    e.CallExpr? && e.callee == Ident("glob")
  }

  /** `maybeMergeExpr`; None stands for the error. */
  function MergeExpr(lhs: Expr, rhs: Expr): Option<Expr> {
    match lhs
    case ListExpr(_) => if rhs.ListExpr? then Some(BinaryExpr(lhs, "+", true, rhs)) else None
    case DictExpr(_) => if rhs.DictExpr? then Some(CallExpr(DotExpr(lhs, "update"), [rhs])) else None
    case CallExpr(callee, _) =>
      if callee == Ident("glob") && rhs.ListExpr? then Some(BinaryExpr(lhs, "+", true, rhs)) else None
    case BinaryExpr(x, op, lineBreak, y) =>
      if op != "+" then None
      else
        (match MergeExpr(y, rhs)
         case None => None
         case Some(merged) => Some(BinaryExpr(x, "+", lineBreak, merged)))
    case _ => None
  }

  /** The last operand of a chain of additions. */
  function SpineEnd(e: Expr): Expr {
    if e.BinaryExpr? && e.op == "+" then SpineEnd(e.y) else e
  }

  /** The merge succeeds exactly on a list or glob at the end of the spine with a list, or a dict with a dict. */
  lemma {:induction false} MergeExprSucceedsIff(lhs: Expr, rhs: Expr)
    ensures MergeExpr(lhs, rhs).Some? <==>
            || ((SpineEnd(lhs).ListExpr? || IsGlob(SpineEnd(lhs))) && rhs.ListExpr?)
            || (SpineEnd(lhs).DictExpr? && rhs.DictExpr?)
  {
    if lhs.BinaryExpr? && lhs.op == "+" {
      MergeExprSucceedsIff(lhs.y, rhs);
    }
  }

  /** With a dict, whatever comes before the last operand stays, and that becomes a call of update on it. */
  lemma {:induction false} DictIsUpdated(lhs: Expr, rhs: Expr)
    requires rhs.DictExpr? && MergeExpr(lhs, rhs).Some?
    ensures SpineEnd(MergeExpr(lhs, rhs).value) == CallExpr(DotExpr(SpineEnd(lhs), "update"), [rhs])
    ensures SpineStart(MergeExpr(lhs, rhs).value) == SpineStart(lhs)
  {
    if lhs.BinaryExpr? {
      DictIsUpdated(lhs.y, rhs);
    }
  }

  /** With a list, that becomes the last operand, on a line of its own, and nothing before it changes. */
  lemma {:induction false} ListIsAppended(lhs: Expr, rhs: Expr)
    requires rhs.ListExpr? && MergeExpr(lhs, rhs).Some?
    ensures SpineEnd(MergeExpr(lhs, rhs).value) == rhs
    ensures SpineStart(MergeExpr(lhs, rhs).value) == SpineStart(lhs) + [(SpineEnd(lhs), true)]
  {
    if lhs.BinaryExpr? {
      ListIsAppended(lhs.y, rhs);
    }
  }

  /** The operands of a chain of additions but for the last, with the line breaks behind them. */
  function SpineStart(e: Expr): seq<(Expr, bool)> {
    if e.BinaryExpr? && e.op == "+" then [(e.x, e.lineBreak)] + SpineStart(e.y) else []
  }

  // ----- meaning -----

  type Value = int

  /** What the surroundings give a list-valued expression: the value of an item, the files a glob finds, and
      the lists that variables hold. */
  datatype Env = Env(item: Expr -> Value, glob: seq<Expr> -> seq<Value>, vars: map<string, seq<Value>>)

  function Items(env: Env, es: seq<Expr>): seq<Value> {
    seq(|es|, i requires 0 <= i < |es| => env.item(es[i]))
  }

  function Concat(a: Option<seq<Value>>, b: Option<seq<Value>>): Option<seq<Value>> {
    if a.Some? && b.Some? then Some(a.value + b.value) else None
  }

  /** The list an expression denotes, if it denotes a list. */
  function Eval(env: Env, e: Expr): Option<seq<Value>> {
    match e
    case ListExpr(items) => Some(Items(env, items))
    case CallExpr(callee, args) => if callee == Ident("glob") then Some(env.glob(args)) else None
    case BinaryExpr(x, op, _, y) => if op == "+" then Concat(Eval(env, x), Eval(env, y)) else None
    case Ident(name) => if name in env.vars then Some(env.vars[name]) else None
    case _ => None
  }

  /** A successful merge denotes the left list followed by the right one, in every environment. */
  lemma {:induction false} MergeExprMeaning(env: Env, lhs: Expr, rhs: Expr)
    requires MergeExpr(lhs, rhs).Some?
    ensures Eval(env, MergeExpr(lhs, rhs).value) == Concat(Eval(env, lhs), Eval(env, rhs))
  {
    match lhs
    case BinaryExpr(x, op, _, y) =>
      MergeExprMeaning(env, y, rhs);
      if Eval(env, x).Some? && Eval(env, y).Some? && Eval(env, rhs).Some? {
        var a, b, c := Eval(env, x).value, Eval(env, y).value, Eval(env, rhs).value;
        assert a + (b + c) == a + b + c;
      }
    case _ =>
  }
}
