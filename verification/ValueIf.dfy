/** A trailing `if` statement as the value of its block (compiler/crates/kryos-ast/src/stmt.rs
    `as_value_if_expr`). Conditions and branches may have any effect and may leave early; the
    world they act on is a parameter of every statement below. */
module ValueIf {
  import opened Wrappers

  /** Everything but `if` is a leaf with a meaning of its own. */
  datatype Expr = Leaf(id: nat) | IfExpr(condition: Expr, thenBranch: Block, elseBranch: Option<Block>)

  datatype Stmt =
    | ExprStmt(expr: Expr)
    | If(condition: Expr, thenBlock: Block, elifs: seq<Elif>, elseBlock: Option<Block>)
    | Simple(id: nat)

  datatype Elif = Elif(condition: Expr, block: Block)

  datatype Block = Block(stmts: seq<Stmt>)

  // ----- meaning -----

  datatype Value = Void | Bool(b: bool) | Data(n: int)

  /** Control leaves early by `return`, `break` or `throw`. */
  datatype Outcome<W> = Done(world: W, value: Value) | Left(world: W)

  /** What the leaves do to a world. */
  type Leaves<!W> = (nat, W) -> Outcome<W>

  function EvalExpr<W>(leaf: Leaves<W>, w: W, e: Expr): Outcome<W>
    decreases e
  {
    match e
    case Leaf(id) => leaf(id, w)
    case IfExpr(c, t, f) =>
      match EvalExpr(leaf, w, c)
      case Left(w') => Left(w')
      case Done(w', v) =>
        if v == Bool(true) then RunFrom(leaf, w', t, 0)
        else if f.Some? then RunFrom(leaf, w', f.value, 0)
        else Done(w', Void)
  }

  /** A block from its statement `k` on; its value is that of its last statement. */
  function RunFrom<W>(leaf: Leaves<W>, w: W, b: Block, k: nat): Outcome<W>
    decreases b, |b.stmts| - k
  {
    if k >= |b.stmts| then Done(w, Void)
    else match ExecStmt(leaf, w, b.stmts[k])
      case Left(w') => Left(w')
      case Done(w', v) => if k + 1 == |b.stmts| then Done(w', v) else RunFrom(leaf, w', b, k + 1)
  }

  /** Only an expression statement has a value. */
  function ExecStmt<W>(leaf: Leaves<W>, w: W, s: Stmt): Outcome<W>
    decreases s, 0
  {
    match s
    case ExprStmt(e) => EvalExpr(leaf, w, e)
    case If(_, _, _, _) => Discard(FirstTrue(leaf, w, s, 0))
    case Simple(id) => Discard(leaf(id, w))
  }

  function Discard<W>(o: Outcome<W>): Outcome<W> {
    match o
    case Done(w, _) => Done(w, Void)
    case Left(_) => o
  }

  function ConditionAt(s: Stmt, k: nat): Expr
    requires s.If? && k <= |s.elifs|
  {
    if k == 0 then s.condition else s.elifs[k - 1].condition
  }

  function BranchAt(s: Stmt, k: nat): Block
    requires s.If? && k <= |s.elifs|
  {
    if k == 0 then s.thenBlock else s.elifs[k - 1].block
  }

  /** The statement's own reading: try the conditions in order from number `k`, run the branch
      of the first that is true, or else the `else` block. */
  function FirstTrue<W>(leaf: Leaves<W>, w: W, s: Stmt, k: nat): Outcome<W>
    requires s.If?
    decreases s, 0, |s.elifs| + 1 - k
  {
    if k > |s.elifs| then
      if s.elseBlock.Some? then RunFrom(leaf, w, s.elseBlock.value, 0) else Done(w, Void)
    else match EvalExpr(leaf, w, ConditionAt(s, k))
      case Left(w') => Left(w')
      case Done(w', v) =>
        if v == Bool(true) then RunFrom(leaf, w', BranchAt(s, k), 0) else FirstTrue(leaf, w', s, k + 1)
  }

  // ----- the rewrite -----

  /** The `else` block that stands for the `elif` clauses from `k` on. */
  function ElseFrom(s: Stmt, k: nat): Block
    requires s.If? && s.elseBlock.Some? && k <= |s.elifs|
    decreases |s.elifs| - k
  {
    if k == |s.elifs| then s.elseBlock.value
    else Block([ExprStmt(IfExpr(s.elifs[k].condition, s.elifs[k].block, Some(ElseFrom(s, k + 1))))])
  }

  function ValueIfExpr(s: Stmt): Option<Expr> {
    if s.If? && s.elseBlock.Some? then Some(IfExpr(s.condition, s.thenBlock, Some(ElseFrom(s, 0)))) else None
  }

  /** The clauses are folded in reverse, each taking the `else` branch built so far. */
  method AsValueIfExpr(s: Stmt) returns (r: Option<Expr>)
    ensures r == ValueIfExpr(s)
    ensures r.None? <==> !s.If? || s.elseBlock.None?
  {
    if !s.If? || s.elseBlock.None? {
      return None;
    }
    var elseBranch: Option<Block> := Some(s.elseBlock.value);
    for k := |s.elifs| downto 0
      invariant elseBranch == Some(ElseFrom(s, k))
    {
      elseBranch := Some(Block([ExprStmt(IfExpr(s.elifs[k].condition, s.elifs[k].block, elseBranch))]));
    }
    r := Some(IfExpr(s.condition, s.thenBlock, elseBranch));
  }

  // ----- the rewrite preserves meaning -----

  lemma {:induction false} ElseRunsTheRest<W>(leaf: Leaves<W>, w: W, s: Stmt, k: nat)
    requires s.If? && s.elseBlock.Some? && k <= |s.elifs|
    ensures RunFrom(leaf, w, ElseFrom(s, k), 0) == FirstTrue(leaf, w, s, k + 1)
    decreases |s.elifs| - k
  {
    if k < |s.elifs| {
      var nested := IfExpr(s.elifs[k].condition, s.elifs[k].block, Some(ElseFrom(s, k + 1)));
      assert ElseFrom(s, k).stmts == [ExprStmt(nested)];
      assert RunFrom(leaf, w, ElseFrom(s, k), 0) == EvalExpr(leaf, w, nested) by {
        assert ExecStmt(leaf, w, ExprStmt(nested)) == EvalExpr(leaf, w, nested);
      }
      match EvalExpr(leaf, w, s.elifs[k].condition)
      case Left(_) =>
      case Done(w', _) => ElseRunsTheRest(leaf, w', s, k + 1);
    }
  }

  /** For any number of `elif` clauses and any effects: the same conditions in the same order,
      the same final world, the same value, the same early exits. */
  lemma ValueIfKeepsMeaning<W>(leaf: Leaves<W>, w: W, s: Stmt)
    requires s.If? && s.elseBlock.Some?
    ensures EvalExpr(leaf, w, ValueIfExpr(s).value) == FirstTrue(leaf, w, s, 0)
  {
    match EvalExpr(leaf, w, s.condition)
    case Left(_) =>
    case Done(w', _) => ElseRunsTheRest(leaf, w', s, 0);
  }

  /** The block with its trailing `if` turned into its value. */
  function WithValueTail(b: Block): Block
    requires b.stmts != [] && ValueIfExpr(b.stmts[|b.stmts| - 1]).Some?
  {
    Block(b.stmts[|b.stmts| - 1 := ExprStmt(ValueIfExpr(b.stmts[|b.stmts| - 1]).value)])
  }

  /** Giving a block its value changes nothing else: the world and the exits stay. */
  lemma {:induction false} ValueTailOnlyAddsAValue<W>(leaf: Leaves<W>, w: W, b: Block, k: nat)
    requires b.stmts != [] && ValueIfExpr(b.stmts[|b.stmts| - 1]).Some? && k < |b.stmts|
    ensures Discard(RunFrom(leaf, w, WithValueTail(b), k)) == RunFrom(leaf, w, b, k)
    decreases |b.stmts| - k
  {
    if k + 1 == |b.stmts| {
      ValueIfKeepsMeaning(leaf, w, b.stmts[k]);
    } else {
      match ExecStmt(leaf, w, b.stmts[k])
      case Left(_) =>
      case Done(w', _) => ValueTailOnlyAddsAValue(leaf, w', b, k + 1);
    }
  }

  /** Without the rewrite a trailing `if` gives its block no value, whatever its branches yield. */
  lemma {:induction false} StatementTailHasNoValue<W>(leaf: Leaves<W>, w: W, b: Block, k: nat)
    requires b.stmts != [] && b.stmts[|b.stmts| - 1].If?
    ensures var o := RunFrom(leaf, w, b, k); o.Done? ==> o.value == Void
    decreases |b.stmts| - k
  {
    if k + 1 < |b.stmts| {
      match ExecStmt(leaf, w, b.stmts[k])
      case Left(_) =>
      case Done(w', _) => StatementTailHasNoValue(leaf, w', b, k + 1);
    }
  }
}
