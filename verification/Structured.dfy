/** Structured statements and what running them does. */
module Structured {
  import opened IdomTree

  type Word = int
  type VarId = nat

  // The operators that are given a meaning here; the others are uninterpreted.
  const SUB := 1
  const EQ := 9
  const NEQ := 10
  const LT := 11
  const LTE := 12
  const GT := 13
  const GTE := 14

  predicate IsComparison(kind: nat) {
    kind == EQ || kind == NEQ || kind == LT || kind == LTE || kind == GT || kind == GTE
  }

  /** `Logical(true, l, r)` is `l && r`, `Logical(false, l, r)` is `l || r`. */
  datatype Expr =
    | Literal(value: int)
    | Variable(id: VarId)
    | Negate(operand: Expr)
    | Not(operand: Expr)
    | Binary(kind: nat, left: Expr, right: Expr)
    | Logical(both: bool, left: Expr, right: Expr)
    | CallTo(callee: nat, args: seq<Expr>)

  /** An expression evaluated for its effect, or an assignment to a variable. */
  datatype Simple = Evaluate(expr: Expr) | Set(target: VarId, value: Expr)

  datatype Stmt =
    | Empty
    | Do(simple: Simple)
    | If(cond: Expr, thenBranch: Stmt, elseBranch: Option<Stmt>)
    | While(cond: Expr, body: Stmt)
    | For(init: Option<Stmt>, test: Option<Expr>, step: Option<Simple>, body: Stmt)
    | Items(items: seq<Stmt>)
    | Return(value: Option<Expr>)
    | Break
    | Continue

  datatype Event = Called(callee: nat, args: seq<Word>)

  /** The uninterpreted operators, the answers of the outside world, and the arguments of the function. */
  datatype Meaning = Meaning(pure: (nat, Word, Word) -> Word, world: seq<Event> -> Word, param: nat -> Word)

  function Truth(b: bool): Word {
    if b then 1 else 0
  }

  function Compute(m: Meaning, kind: nat, a: Word, b: Word): Word {
    if kind == SUB then a - b
    else if kind == EQ then Truth(a == b)
    else if kind == NEQ then Truth(a != b)
    else if kind == LT then Truth(a < b)
    else if kind == LTE then Truth(a <= b)
    else if kind == GT then Truth(a > b)
    else if kind == GTE then Truth(a >= b)
    else m.pure(kind, a, b)
  }

  type Vars = map<VarId, Word>

  function Look(vars: map<nat, Word>, id: nat): Word {
    if id in vars then vars[id] else 0
  }

  function Arity(e: Expr): nat {
    if e.CallTo? then |e.args| else 0
  }

  /** The value of an expression and the events once it has been evaluated.  The events of
      the right operand of `&&` or `||` are missing where the left one settles the answer. */
  function Eval(m: Meaning, e: Expr, vars: Vars, trace: seq<Event>): (Word, seq<Event>)
    decreases e, Arity(e) + 1
  {
    match e
    case Literal(value) => (value, trace)
    case Variable(id) => (Look(vars, id), trace)
    case Negate(operand) =>
      var (a, t) := Eval(m, operand, vars, trace);
      (-a, t)
    case Not(operand) =>
      var (a, t) := Eval(m, operand, vars, trace);
      (Truth(a == 0), t)
    case Binary(kind, left, right) =>
      var (a, t) := Eval(m, left, vars, trace);
      var (b, u) := Eval(m, right, vars, t);
      (Compute(m, kind, a, b), u)
    case Logical(both, left, right) =>
      var (a, t) := Eval(m, left, vars, trace);
      if both && a == 0 then (0, t)
      else if !both && a != 0 then (1, t)
      else
        var (b, u) := Eval(m, right, vars, t);
        (Truth(b != 0), u)
    case CallTo(callee, args) =>
      var (values, t) := EvalArgs(m, e, |args|, vars, trace);
      var u := t + [Called(callee, values)];
      (m.world(u), u)
  }

  /** The values of the first `n` arguments of a call, from the left. */
  function EvalArgs(m: Meaning, call: Expr, n: nat, vars: Vars, trace: seq<Event>): (r: (seq<Word>, seq<Event>))
    requires call.CallTo? && n <= |call.args|
    ensures |r.0| == n
    decreases call, n
  {
    if n == 0 then ([], trace)
    else
      var (values, t) := EvalArgs(m, call, n - 1, vars, trace);
      var (a, u) := Eval(m, call.args[n - 1], vars, t);
      (values + [a], u)
  }

  // ---- statements ----

  datatype Store = Store(vars: Vars, trace: seq<Event>)

  /** How a statement ends; `Spent` with the store it had reached when a loop took more iterations than allowed. */
  datatype Outcome =
    | Normal(store: Store)
    | Broke(store: Store)
    | Continued(store: Store)
    | Returned(value: Option<Word>, trace: seq<Event>)
    | Spent(store: Store)

  function ExecSimple(m: Meaning, s: Simple, st: Store): Store {
    match s
    case Evaluate(expr) => Store(st.vars, Eval(m, expr, st.vars, st.trace).1)
    case Set(target, value) =>
      var (a, t) := Eval(m, value, st.vars, st.trace);
      Store(st.vars[target := a], t)
  }

  function ItemCount(s: Stmt): nat {
    if s.Items? then |s.items| else 0
  }

  function Exec(m: Meaning, s: Stmt, st: Store, fuel: nat): Outcome
    decreases fuel, s, ItemCount(s) + 1
  {
    match s
    case Empty => Normal(st)
    case Do(simple) => Normal(ExecSimple(m, simple, st))
    case If(cond, thenBranch, elseBranch) =>
      var (a, t) := Eval(m, cond, st.vars, st.trace);
      if a != 0 then Exec(m, thenBranch, Store(st.vars, t), fuel)
      else if elseBranch.Some? then Exec(m, elseBranch.value, Store(st.vars, t), fuel)
      else Normal(Store(st.vars, t))
    case While(cond, body) => Loop(m, Some(cond), None, body, st, fuel)
    case For(init, test, step, body) =>
      var first := if init.Some? then Exec(m, init.value, st, fuel) else Normal(st);
      if first.Normal? then Loop(m, test, step, body, first.store, fuel) else first
    case Items(items) => ExecItems(m, s, |items|, st, fuel)
    case Return(value) =>
      if value.Some? then
        var (a, t) := Eval(m, value.value, st.vars, st.trace);
        Returned(Some(a), t)
      else Returned(None, st.trace)
    case Break => Broke(st)
    case Continue => Continued(st)
  }

  function ExecItems(m: Meaning, s: Stmt, n: nat, st: Store, fuel: nat): Outcome
    requires s.Items? && n <= |s.items|
    decreases fuel, s, n
  {
    if n == 0 then Normal(st)
    else
      var before := ExecItems(m, s, n - 1, st, fuel);
      if before.Normal? then Exec(m, s.items[n - 1], before.store, fuel) else before
  }

  /** Test, body, step, and again, at most `fuel` times.  A missing test is true; `continue` goes on with the step. */
  function Loop(m: Meaning, test: Option<Expr>, step: Option<Simple>, body: Stmt, st: Store, fuel: nat): Outcome
    decreases fuel, body, ItemCount(body) + 2
  {
    if fuel == 0 then Spent(st)
    else
      var (a, t) := if test.Some? then Eval(m, test.value, st.vars, st.trace) else (1, st.trace);
      if a == 0 then Normal(Store(st.vars, t))
      else
        var once := Exec(m, body, Store(st.vars, t), fuel - 1);
        if once.Normal? || once.Continued? then
          Loop(m, test, step, body, if step.Some? then ExecSimple(m, step.value, once.store) else once.store, fuel - 1)
        else if once.Broke? then Normal(once.store)
        else once
  }

  /** `break` and `continue` stand inside a loop. */
  predicate WellNested(s: Stmt, inLoop: bool)
    decreases s
  {
    match s
    case If(_, thenBranch, elseBranch) => WellNested(thenBranch, inLoop) &&
         (elseBranch.Some? ==> WellNested(elseBranch.value, inLoop))
    case While(_, body) => WellNested(body, true)
    case For(init, _, _, body) => (init.Some? ==> WellNested(init.value, inLoop)) && WellNested(body, true)
    case Items(items) => forall i: nat :: i < |items| ==> WellNested(items[i], inLoop)
    case Break => inLoop
    case Continue => inLoop
    case _ => true
  }

  ghost predicate Jumps(o: Outcome) {
    o.Broke? || o.Continued?
  }

  lemma {:induction false} LoopKeepsJumps(m: Meaning, test: Option<Expr>, step: Option<Simple>, body: Stmt, st: Store,
                                          fuel: nat)
    ensures !Jumps(Loop(m, test, step, body, st, fuel))
    decreases fuel
  {
    if fuel > 0 {
      var (a, t) := if test.Some? then Eval(m, test.value, st.vars, st.trace) else (1, st.trace);
      if a != 0 {
        var once := Exec(m, body, Store(st.vars, t), fuel - 1);
        if once.Normal? || once.Continued? {
          LoopKeepsJumps(m, test, step, body,
                         if step.Some? then ExecSimple(m, step.value, once.store) else once.store, fuel - 1);
        }
      }
    }
  }

  /** Outside every loop a well-nested statement does not end in a `break` or a `continue`. */
  lemma {:induction false} NoJumpsOutside(m: Meaning, s: Stmt, st: Store, fuel: nat)
    requires WellNested(s, false)
    ensures !Jumps(Exec(m, s, st, fuel))
    decreases s, 1
  {
    match s
    case If(cond, thenBranch, elseBranch) =>
      var (a, t) := Eval(m, cond, st.vars, st.trace);
      NoJumpsOutside(m, thenBranch, Store(st.vars, t), fuel);
      if elseBranch.Some? {
        NoJumpsOutside(m, elseBranch.value, Store(st.vars, t), fuel);
      }
    case While(cond, body) => LoopKeepsJumps(m, Some(cond), None, body, st, fuel);
    case For(init, test, step, body) =>
      if init.Some? {
        NoJumpsOutside(m, init.value, st, fuel);
      }
      var first := if init.Some? then Exec(m, init.value, st, fuel) else Normal(st);
      if first.Normal? {
        LoopKeepsJumps(m, test, step, body, first.store, fuel);
      }
    case Items(items) => NoJumpsInItems(m, s, |items|, st, fuel);
    case _ =>
  }

  lemma {:induction false} NoJumpsInItems(m: Meaning, s: Stmt, n: nat, st: Store, fuel: nat)
    requires s.Items? && n <= |s.items| && WellNested(s, false)
    ensures !Jumps(ExecItems(m, s, n, st, fuel))
    decreases s, 0, n
  {
    if n > 0 {
      NoJumpsInItems(m, s, n - 1, st, fuel);
      var before := ExecItems(m, s, n - 1, st, fuel);
      if before.Normal? {
        NoJumpsOutside(m, s.items[n - 1], before.store, fuel);
      }
    }
  }

  /** The events so far. */
  function TraceOf(o: Outcome): seq<Event> {
    if o.Returned? then o.trace else o.store.trace
  }

  // ---- answers that are already 0 or 1 ----

  /** Whether an expression already evaluates to 0 or 1. */
  predicate AnswersZeroOrOne(e: Expr) {
    match e
    case Binary(kind, _, _) => IsComparison(kind)
    case Logical(_, _, _) => true
    case Not(_) => true
    case _ => false
  }

  lemma AnswersTruth(m: Meaning, e: Expr, vars: Vars, trace: seq<Event>)
    requires AnswersZeroOrOne(e)
    ensures var a := Eval(m, e, vars, trace).0; a == Truth(a != 0)
  {
  }
}
