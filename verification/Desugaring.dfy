/** Lowering structured statements to blocks of three-address code. */
module Desugaring {
  import opened IdomTree
  import opened Vregs
  import opened Structured
  import opened LoweredCode
  import opened Implements
  import opened ImplementsLoops

  // ---- how the code grows ----

  /** Only the current block and new ones were written. */
  ghost predicate Kept(code: Code, cur: nat, code': Code) {
    && cur < |code| <= |code'|
    && (forall b: nat :: b < |code| && b != cur ==> code'[b] == code[b])
    && code[cur] <= code'[cur]
  }

  /** The current block is still the same or a new one. */
  ghost predicate Moved(code: Code, cur: nat, cur': nat) {
    cur' == cur || cur' >= |code|
  }

  lemma KeptExtends(code: Code, cur: nat, code': Code)
    requires Kept(code, cur, code')
    ensures Extends(code, code')
  {
  }

  lemma KeptItself(code: Code, cur: nat)
    requires cur < |code|
    ensures Kept(code, cur, code)
  {
  }

  lemma KeptInTurn(a: Code, i: nat, b: Code, j: nat, c: Code)
    requires Kept(a, i, b) && Kept(b, j, c) && Moved(a, i, j)
    ensures Kept(a, i, c)
  {
  }

  lemma KeptBelow(a: Code, i: nat, b: Code, j: nat, k: nat)
    requires Kept(a, i, b) && Moved(a, i, j) && Moved(b, j, k)
    ensures Moved(a, i, k)
  {
  }

  function Emitted(code: Code, cur: nat, more: seq<Instr>): Code {
    if cur < |code| then code[cur := code[cur] + more] else code
  }

  lemma KeptEmit(code: Code, cur: nat, more: seq<Instr>)
    requires cur < |code|
    ensures Kept(code, cur, Emitted(code, cur, more)) && |Emitted(code, cur, more)| == |code|
    ensures forall k: nat :: k < |more| ==> InstrAt(Emitted(code, cur, more), Pos(cur, |code[cur]| + k), more[k])
  {
  }

  lemma EmitTwice(code: Code, cur: nat, more: seq<Instr>, js: seq<Instr>)
    ensures Emitted(Emitted(code, cur, more), cur, js) == Emitted(code, cur, more + js)
  {
    if cur < |code| {
      assert code[cur] + more + js == code[cur] + (more + js);
    }
  }

  lemma KeptCreate(code: Code, cur: nat)
    requires cur < |code|
    ensures Kept(code, cur, code + [[]]) && (code + [[]])[|code|] == []
  {
  }

  /** A block that is not being written stays empty. */
  lemma EmptyStill(code: Code, cur: nat, code': Code, b: nat)
    requires Kept(code, cur, code') && b < |code| && b != cur && code[b] == []
    ensures b < |code'| && code'[b] == []
  {
  }

  // ---- well-ended blocks ----

  ghost predicate LabelsKnown(block: seq<Instr>, n: nat) {
    forall k: nat :: k < |block| ==> LabelKnown(block[k], n)
  }

  ghost predicate LabelKnown(i: Instr, n: nat) {
    (i.opcode.Jump? ==> LabelOf(i.arg1) < n) && (i.opcode.BranchIf? || i.opcode.BranchIfNot? ==> LabelOf(i.arg2) < n)
  }

  /** Every block ends in one of the known ways and names existing blocks only; the current one does not end yet. */
  ghost predicate Sound(code: Code, cur: nat) {
    cur < |code| && Straight(code[cur]) && AllSound(code)
  }

  ghost predicate BlockSound(block: seq<Instr>, n: nat) {
    EndsWell(block) && LabelsKnown(block, n)
  }

  ghost predicate AllSound(code: Code) {
    forall b: nat :: b < |code| ==> BlockSound(code[b], |code|)
  }

  lemma BlockSoundLater(block: seq<Instr>, n: nat, n': nat)
    requires BlockSound(block, n) && n <= n'
    ensures BlockSound(block, n')
  {
  }

  lemma AllSoundCreate(code: Code)
    requires AllSound(code)
    ensures AllSound(code + [[]])
  {
    var code' := code + [[]];
    assert BlockSound([], |code'|) by {
      StraightEndsWell([], []);
    }
    hide BlockSound, Straight;
    forall b: nat | b < |code'| ensures BlockSound(code'[b], |code'|) {
      if b < |code| {
        BlockSoundLater(code[b], |code|, |code'|);
      }
    }
  }

  lemma SoundCreate(code: Code, cur: nat)
    requires Sound(code, cur)
    ensures Sound(code + [[]], cur)
  {
    AllSoundCreate(code);
    hide AllSound, Straight;
  }

  lemma SoundEmit(code: Code, cur: nat, i: Instr)
    requires Sound(code, cur) && !Transfers(i)
    ensures Sound(Emitted(code, cur, [i]), cur)
  {
    var code' := Emitted(code, cur, [i]);
    assert BlockSound(code[cur], |code|);
    StraightEndsWell(code'[cur], []);
    assert code'[cur] + [] == code'[cur];
    hide EndsWell;
    forall b: nat | b < |code'| ensures BlockSound(code'[b], |code'|) {
      assert BlockSound(code[b], |code|);
    }
  }

  /** The current block ended; an empty block is next. */
  lemma SoundEnd(code: Code, cur: nat, tail: seq<Instr>)
    requires Sound(code, cur) && IsTail(tail) && LabelsKnown(tail, |code|)
    ensures AllSound(Emitted(code, cur, tail))
  {
    var code' := Emitted(code, cur, tail);
    assert BlockSound(code[cur], |code|);
    StraightEndsWell(code[cur], tail);
    hide EndsWell, IsTail;
    forall b: nat | b < |code'| ensures BlockSound(code'[b], |code'|) {
      assert BlockSound(code[b], |code|);
    }
  }

  lemma SoundAtEmpty(code: Code, b: nat)
    requires AllSound(code) && b < |code| && code[b] == []
    ensures Sound(code, b)
  {
  }

  lemma JumpIsTail(block: nat, n: nat)
    requires block < n
    ensures IsTail([JumpTo(block)]) && LabelsKnown([JumpTo(block)], n)
  {
  }

  lemma BranchIsTail(opcode: Opcode, cond: Operand, first: nat, second: nat, n: nat)
    requires (opcode.BranchIf? || opcode.BranchIfNot?) && first < n && second < n
    ensures var tail := [Instr(opcode, None, Some(cond), Some(Label(first))), JumpTo(second)];
            IsTail(tail) && LabelsKnown(tail, n)
  {
  }

  /** The current block ends and an empty one is next. */
  lemma EndAndNext(code: Code, cur: nat, tail: seq<Instr>, next: nat)
    requires Sound(code, cur) && IsTail(tail) && LabelsKnown(tail, |code|) && next < |code| && next != cur &&
             code[next] == []
    ensures var code' := Emitted(code, cur, tail);
            && Sound(code', next) && Kept(code, cur, code') && |code'| == |code| && code'[next] == []
            && forall k: nat :: k < |tail| ==> InstrAt(code', Pos(cur, |code[cur]| + k), tail[k])
  {
    SoundEnd(code, cur, tail);
    KeptEmit(code, cur, tail);
    hide AllSound, IsTail, LabelsKnown, EndsWell, InstrAt;
  }

  lemma EndBranch(code: Code, cur: nat, opcode: Opcode, cond: Operand, first: nat, second: nat, next: nat)
    requires Sound(code, cur) && (opcode.BranchIf? || opcode.BranchIfNot?)
    requires cur < |code| && first < |code| && second < |code| && next < |code| && next != cur && code[next] == []
    ensures var branch := Instr(opcode, None, Some(cond), Some(Label(first)));
            var code' := Emitted(Emitted(code, cur, [branch]), cur, [JumpTo(second)]);
            && |Emitted(code, cur, [branch])| == |code|
            && Sound(code', next) && Kept(code, cur, code') && |code'| == |code| && code'[next] == []
            && InstrAt(code', Pos(cur, |code[cur]|), branch) &&
            InstrAt(code', Next(Pos(cur, |code[cur]|)), JumpTo(second))
  {
    var branch := Instr(opcode, None, Some(cond), Some(Label(first)));
    var tail := [branch, JumpTo(second)];
    BranchIsTail(opcode, cond, first, second, |code|);
    EndAndNext(code, cur, tail, next);
    EmitTwice(code, cur, [branch], [JumpTo(second)]);
    assert [branch] + [JumpTo(second)] == tail;
    TwoInstrs(Emitted(code, cur, tail), cur, |code[cur]|, tail);
    KeptEmit(code, cur, [branch]);
    hide Sound, Kept, InstrAt, IsTail, LabelsKnown, Emitted;
  }

  lemma EndAndFresh(code: Code, cur: nat, i: Instr)
    requires Sound(code, cur) && (i.opcode.Jump? || i.opcode.Ret?) && LabelKnown(i, |code|)
    ensures var code' := Emitted(code, cur, [i]) + [[]];
            && Sound(code', |code|) && Kept(code, cur, code') && |code'| == |code| + 1
            && InstrAt(code', Pos(cur, |code[cur]|), i)
  {
    SoundEnd(code, cur, [i]);
    AllSoundCreate(Emitted(code, cur, [i]));
    SoundAtEmpty(Emitted(code, cur, [i]) + [[]], |code|);
    hide AllSound, IsTail, LabelsKnown, EndsWell, Straight;
  }

  lemma SoundInside(code: Code, cur: nat)
    requires Sound(code, cur)
    ensures cur < |code|
  {
  }

  lemma OneInstr(code: Code, block: nat, row: nat, tail: seq<Instr>)
    requires |tail| == 1 && forall k: nat :: k < |tail| ==> InstrAt(code, Pos(block, row + k), tail[k])
    ensures InstrAt(code, Pos(block, row), tail[0])
  {
    assert InstrAt(code, Pos(block, row + 0), tail[0]);
  }

  lemma TwoInstrs(code: Code, block: nat, row: nat, tail: seq<Instr>)
    requires |tail| == 2 && forall k: nat :: k < |tail| ==> InstrAt(code, Pos(block, row + k), tail[k])
    ensures InstrAt(code, Pos(block, row), tail[0]) && InstrAt(code, Next(Pos(block, row)), tail[1])
  {
    assert InstrAt(code, Pos(block, row + 0), tail[0]) && InstrAt(code, Pos(block, row + 1), tail[1]);
  }

  /** Two blocks that are not being written stay empty. */
  lemma StillEmpty(code: Code, cur: nat, code': Code, a: nat, b: nat)
    requires Kept(code, cur, code') && a < |code| && b < |code| && a != cur && b != cur && code[a] == [] &&
             code[b] == []
    ensures a < |code'| && b < |code'| && code'[a] == [] && code'[b] == []
  {
  }

  // ---- lowering ----

  /** What leaving and going round mean here: the targets on top of the stack of open loops. */
  function InnermostOf(loops: seq<Targets>): Option<Targets> {
    if loops == [] then None else Some(loops[|loops| - 1])
  }

  class LoweringContext {
    var code: Code
    var current: nat
    var temps: nat
    var loops: seq<Targets>

    /** Where the next instruction goes. */
    ghost function Here(): Pos
      reads this
    {
      Pos(current, if current < |code| then |code[current]| else 0)
    }

    ghost predicate Ready()
      reads this
    {
      Sound(code, current) && forall k: nat :: k < |loops| ==>
        loops[k].after < |code| && loops[k].nextIteration < |code|
    }

    /** A function's entry block, 0, and its exit block, 1. */
    constructor ()
      ensures code == [[], []] && current == 0 && temps == 0 && loops == []
      ensures Ready()
    {
      code, current, temps, loops := [[], []], 0, 0, [];
      new;
      StraightEndsWell([], []);
      assert BlockSound([], 2);
    }

    method FreshTemp() returns (temp: nat)
      modifies this`temps
      ensures temps == old(temps) + 1 == temp
      ensures old(Ready()) ==> Ready()
    {
      temps := temps + 1;
      temp := temps;
    }

    method CreateBlock() returns (block: nat)
      modifies this`code
      ensures code == old(code) + [[]] && block == |old(code)|
    {
      block := |code|;
      code := code + [[]];
    }

    method Emit(i: Instr)
      requires current < |code|
      modifies this`code
      ensures code == Emitted(old(code), current, [i])
    {
      code := code[current := code[current] + [i]];
    }

    method EmitJump(target: nat)
      requires current < |code|
      modifies this`code
      ensures code == Emitted(old(code), current, [JumpTo(target)])
    {
      Emit(Instr(Jump, None, Some(Label(target)), None));
    }

    method BranchTo(opcode: Opcode, condition: Operand, target: nat)
      requires current < |code|
      modifies this`code
      ensures code == Emitted(old(code), current, [Instr(opcode, None, Some(condition), Some(Label(target)))])
    {
      Emit(Instr(opcode, None, Some(condition), Some(Label(target))));
    }

    /** Emit an instruction that does not transfer control, and go on in the same block. */
    method EmitPlain(i: Instr)
      requires Ready() && !Transfers(i)
      modifies this`code
      ensures Ready() && Kept(old(code), current, code) && |code| == |old(code)|
      ensures InstrAt(code, old(Here()), i) && Here() == Next(old(Here()))
    {
      SoundEmit(code, current, i);
      KeptEmit(code, current, [i]);
      Emit(i);
      assert InstrAt(code, Pos(current, |old(code)[current]| + 0), [i][0]);
    }

    /** End the current block with a jump and go on in an empty block. */
    method JumpAndGo(target: nat, next: nat)
      requires Ready() && target < |code| && next < |code| && next != current && code[next] == []
      modifies this`code, this`current
      ensures Ready() && Kept(old(code), old(current), code) && |code| == |old(code)| && current == next &&
              code[next] == []
      ensures InstrAt(code, old(Here()), JumpTo(target)) && Here() == Pos(next, 0)
    {
      SoundInside(code, current);
      hide Sound, Kept, InstrAt, IsTail, LabelsKnown, Emitted;
      ghost var here := Here();
      JumpIsTail(target, |code|);
      EndAndNext(code, current, [JumpTo(target)], next);
      EmitJump(target);
      OneInstr(code, here.block, here.row, [JumpTo(target)]);
      current := next;
    }

    /** End the current block with a branch and a jump and go on in an empty block. */
    method BranchAndGo(opcode: Opcode, condition: Operand, first: nat, second: nat, next: nat)
      requires Ready() && (opcode.BranchIf? || opcode.BranchIfNot?)
      requires first < |code| && second < |code| && next < |code| && next != current && code[next] == []
      modifies this`code, this`current
      ensures Ready() && Kept(old(code), old(current), code) && |code| == |old(code)| && current == next &&
              code[next] == []
      ensures InstrAt(code, old(Here()), Instr(opcode, None, Some(condition), Some(Label(first))))
      ensures InstrAt(code, Next(old(Here())), JumpTo(second)) && Here() == Pos(next, 0)
    {
      SoundInside(code, current);
      EndBranch(code, current, opcode, condition, first, second, next);
      hide Sound, Kept, InstrAt, Emitted;
      BranchTo(opcode, condition, first);
      EmitJump(second);
      current := next;
    }

    /** End the current block and open a fresh one for the statements after it, which nothing jumps to. */
    method EndAndOpen(i: Instr)
      requires Ready() && (i.opcode.Jump? || i.opcode.Ret?) && LabelKnown(i, |code|)
      modifies this`code, this`current
      ensures Ready() && Kept(old(code), old(current), code) && Moved(old(code), old(current), current)
      ensures InstrAt(code, old(Here()), i)
    {
      hide Kept, InstrAt, Emitted, EndsWell;
      ghost var code0, here := code, Here();
      EndAndFresh(code, current, i);
      Emit(i);
      var dead := CreateBlock();
      current := dead;
    }

    method NewBlock() returns (block: nat)
      requires Ready()
      modifies this`code
      ensures Ready() && Kept(old(code), current, code) && block == |old(code)| && code == old(code) + [[]]
      ensures Here() == old(Here())
    {
      SoundCreate(code, current);
      KeptCreate(code, current);
      block := CreateBlock();
    }

    /** Three fresh blocks. */
    method NewBlocks() returns (a: nat, b: nat, c: nat)
      requires Ready()
      modifies this`code
      ensures Ready() && Kept(old(code), current, code) && Here() == old(Here())
      ensures |old(code)| == a < b < c < |code| && code[a] == [] && code[b] == [] && code[c] == []
      ensures current < a
    {
      hide Sound, Kept;
      SoundInside(code, current);
      ThreeNew(code, current);
      a := NewBlock();
      b := NewBlock();
      c := NewBlock();
    }

    /** Four fresh blocks. */
    method NewFourBlocks() returns (a: nat, b: nat, c: nat, d: nat)
      requires Ready()
      modifies this`code
      ensures Ready() && Kept(old(code), current, code) && Here() == old(Here())
      ensures |old(code)| == a < b < c < d < |code| && code[a] == [] && code[b] == [] && code[c] == [] && code[d] == []
      ensures current < a
    {
      hide Sound, Kept, LoweringContext.Ready;
      ghost var code0 := code;
      a, b, c := NewBlocks();
      ghost var code1 := code;
      d := NewBlock();
      OneMoreNew(code0, current, code1, code, a, b, c);
    }

    // ---- expressions ----

    method LowerExpression(e: Expr) returns (result: Operand)
      requires Ready()
      modifies this`code, this`current, this`temps
      ensures Ready() && temps >= old(temps)
      ensures Kept(old(code), old(current), code) && Moved(old(code), old(current), current)
      ensures Evaluates(code, old(Here()), Here(), result, e, old(temps)) && SafeBelow(result, temps)
      decreases e, Arity(e) + 1
    {
      hide Evaluates, Kept, Sound, InstrAt, Emitted;
      match e
      case Literal(value) =>
        result := ImmInt(value);
        KeptItselfHere(code, current);
        EvaluatesAtom(code, Here(), result, e, temps);
      case Variable(id) =>
        result := OfVar(id);
        KeptItselfHere(code, current);
        EvaluatesAtom(code, Here(), result, e, temps);
      case Negate(operand) =>
        result := LowerUnary(e, operand);
      case Not(operand) =>
        result := LowerUnary(e, operand);
      case Binary(_, _, _) =>
        result := LowerBinary(e);
      case Logical(_, _, _) =>
        result := LowerShortCircuit(e);
      case CallTo(_, _) =>
        result := LowerCall(e);
    }

    method LowerUnary(e: Expr, operand: Expr) returns (result: Operand)
      requires Ready() && (e.Negate? || e.Not?) && operand == e.operand
      modifies this`code, this`current, this`temps
      ensures Ready() && temps >= old(temps)
      ensures Kept(old(code), old(current), code) && Moved(old(code), old(current), current)
      ensures Evaluates(code, old(Here()), Here(), result, e, old(temps)) && SafeBelow(result, temps)
      decreases e, 0
    {
      hide Evaluates, Kept, Sound, InstrAt, Emitted;
      ghost var code0, cur0, low, from := code, current, temps, Here();
      var a := LowerExpression(operand);
      ghost var code1, mid := code, Here();
      var temp := FreshTemp();
      EmitPlain(if e.Negate? then TempInto(Arithmetic(SUB), temp, Some(ImmInt(0)), Some(a))
                else TempInto(Arithmetic(EQ), temp, Some(a), Some(ImmInt(0))));
      KeptExtends(code1, current, code);
      EvaluatesLater(code1, code, from, mid, a, operand, low);
      if e.Negate? {
        EvaluatesNegate(code, from, mid, a, e, low, temp);
      } else {
        EvaluatesNot(code, from, mid, a, e, low, temp);
      }
      KeptInTurn(code0, cur0, code1, current, code);
      result := OfTemp(temp);
    }

    method LowerBinary(e: Expr) returns (result: Operand)
      requires Ready() && e.Binary?
      modifies this`code, this`current, this`temps
      ensures Ready() && temps >= old(temps)
      ensures Kept(old(code), old(current), code) && Moved(old(code), old(current), current)
      ensures Evaluates(code, old(Here()), Here(), result, e, old(temps)) && SafeBelow(result, temps)
      decreases e, 0
    {
      hide Evaluates, Kept, Sound, InstrAt, Emitted;
      ghost var code0, cur0, low, from := code, current, temps, Here();
      var a := LowerExpression(e.left);
      ghost var code1, cur1, high, mid := code, current, temps, Here();
      var b := LowerExpression(e.right);
      ghost var code2, last := code, Here();
      var temp := FreshTemp();
      EmitPlain(TempInto(Arithmetic(e.kind), temp, Some(a), Some(b)));
      KeptExtends(code2, current, code);
      KeptInTurn(code1, cur1, code2, current, code);
      KeptExtends(code1, cur1, code);
      EvaluatesLater(code1, code, from, mid, a, e.left, low);
      EvaluatesLater(code2, code, mid, last, b, e.right, high);
      EvaluatesBinary(code, from, mid, last, a, b, e, low, high, temp);
      KeptInTurn(code0, cur0, code1, cur1, code);
      KeptBelow(code0, cur0, code1, cur1, current);
      result := OfTemp(temp);
    }

    method LowerShortCircuit(e: Expr) returns (result: Operand)
      requires Ready() && e.Logical?
      modifies this`code, this`current, this`temps
      ensures Ready() && temps >= old(temps)
      ensures Kept(old(code), old(current), code) && Moved(old(code), old(current), current)
      ensures Evaluates(code, old(Here()), Here(), result, e, old(temps)) && SafeBelow(result, temps)
      decreases e, 0
    {
      hide Evaluates, Kept, Sound, InstrAt, Emitted, CircuitAt, LoweringContext.Ready;
      ghost var code0, cur0, low, from := code, current, temps, Here();
      var settles := if e.both then BranchIfNot else BranchIf;
      var settledValue := if e.both then 0 else 1;
      var rhs := NewBlock();
      ghost var codeA := code;
      var end := NewBlock();
      ghost var code1 := code;
      KeptInTurn(code0, cur0, codeA, cur0, code1);
      var a := LowerExpression(e.left);
      ghost var code2, cur2, high, mid := code, current, temps, Here();
      StillEmpty(code1, cur0, code2, rhs, end);
      var temp := FreshTemp();
      EmitPlain(TempInto(Mov, temp, Some(ImmInt(settledValue)), None));
      ghost var code3 := code;
      StillEmpty(code2, cur2, code3, rhs, end);
      BranchAndGo(settles, a, end, rhs, rhs);
      ghost var code4 := code;
      EmptyStill(code3, cur2, code4, end);
      var b := LowerExpression(e.right);
      ghost var code5, cur5, last := code, current, Here();
      EmptyStill(code4, rhs, code5, end);
      EmitPlain(if AnswersZeroOrOne(e.right) then TempInto(Mov, temp, Some(b), None)
                else TempInto(Arithmetic(NEQ), temp, Some(b), Some(ImmInt(0))));
      ghost var code6 := code;
      EmptyStill(code5, cur5, code6, end);
      JumpAndGo(end, end);
      ghost var c := Circuit(from, mid, a, temp, rhs, end, last, b);
      CircuitBuilt(code0, cur0, code1, code2, cur2, code3, code4, code5, cur5, code6, code, c, e, low, high);
      result := OfTemp(temp);
    }

    method LowerCall(e: Expr) returns (result: Operand)
      requires Ready() && e.CallTo?
      modifies this`code, this`current, this`temps
      ensures Ready() && temps >= old(temps)
      ensures Kept(old(code), old(current), code) && Moved(old(code), old(current), current)
      ensures Evaluates(code, old(Here()), Here(), result, e, old(temps)) && SafeBelow(result, temps)
      decreases e, |e.args|
    {
      hide Evaluates, EvaluatesArgs, PassesAll, Kept, Sound, InstrAt, Emitted;
      ghost var code0, cur0, low, from := code, current, temps, Here();
      var operands: seq<Operand> := [];
      EvaluatesNoArgs(code, from, e, low);
      KeptItselfHere(code, current);
      for k := 0 to |e.args|
        invariant Ready() && temps >= low && loops == old(loops)
        invariant Kept(code0, cur0, code) && Moved(code0, cur0, current)
        invariant |operands| == k && forall j: nat :: j < k ==> SafeBelow(operands[j], temps)
        invariant EvaluatesArgs(code, from, Here(), operands, e, low)
      {
        ghost var code1, cur1, high, mid := code, current, temps, Here();
        var operand := LowerExpression(e.args[k]);
        KeptExtends(code1, cur1, code);
        ArgsLater(code1, code, from, mid, operands, e, low);
        EvaluatesOneMore(code, from, mid, Here(), operands, operand, e, low, high);
        KeptInTurn(code0, cur0, code1, cur1, code);
        KeptBelow(code0, cur0, code1, cur1, current);
        operands := operands + [operand];
      }
      ghost var mid := Here();
      NothingPassed(code, mid);
      for k := 0 to |operands|
        invariant Ready() && temps >= low && loops == old(loops)
        invariant Kept(code0, cur0, code) && Moved(code0, cur0, current)
        invariant Here() == Pos(mid.block, mid.row + k)
        invariant EvaluatesArgs(code, from, mid, operands, e, low)
        invariant PassesAll(code, mid, operands[..k])
      {
        ghost var code1 := code;
        EmitPlain(ParamOf(operands[k]));
        KeptExtends(code1, current, code);
        ArgsLater(code1, code, from, mid, operands, e, low);
        PassesMore(code1, code, mid, operands, k);
        KeptInTurn(code0, cur0, code1, current, code);
      }
      assert operands[..|operands|] == operands;
      ghost var code1 := code;
      var temp := FreshTemp();
      EmitPlain(TempInto(Call, temp, Some(Label(e.callee)), Some(ImmInt(|e.args|))));
      KeptExtends(code1, current, code);
      ArgsLater(code1, code, from, mid, operands, e, low);
      PassesLater(code1, code, mid, operands);
      EvaluatesCall(code, from, mid, operands, e, low, temp);
      KeptInTurn(code0, cur0, code1, current, code);
      result := OfTemp(temp);
    }

    // ---- statements ----

    method LowerSimple(s: Simple)
      requires Ready()
      modifies this`code, this`current, this`temps
      ensures Ready() && temps >= old(temps)
      ensures Kept(old(code), old(current), code) && Moved(old(code), old(current), current)
      ensures Performs(code, old(Here()), Here(), s)
    {
      hide Evaluates, Performs, Kept, Sound, InstrAt;
      ghost var code0, cur0, low, from := code, current, temps, Here();
      match s
      case Evaluate(expr) =>
        var result := LowerExpression(expr);
        PerformsEvaluate(code, from, Here(), result, expr, low);
      case Set(target, value) =>
        var result := LowerExpression(value);
        ghost var code1, mid := code, Here();
        EmitPlain(Instr(Mov, Some(OfVar(target)), Some(result), None));
        KeptExtends(code1, current, code);
        EvaluatesLater(code1, code, from, mid, result, value, low);
        PerformsSet(code, from, mid, result, target, value, low);
        KeptInTurn(code0, cur0, code1, current, code);
    }

    method LowerStatement(s: Stmt)
      requires Ready() && WellNested(s, loops != [])
      modifies this
      ensures Ready() && temps >= old(temps) && loops == old(loops)
      ensures Kept(old(code), old(current), code) && Moved(old(code), old(current), current)
      ensures Executes(code, old(Here()), Here(), InnermostOf(old(loops)), s)
      decreases s, ItemCount(s) + 2
    {
      hide Evaluates, Executes, Performs, Kept, Sound, InstrAt, Emitted;
      ghost var code0, cur0, from, targets := code, current, Here(), InnermostOf(loops);
      match s
      case Empty =>
        KeptItselfHere(code, current);
        ExecutesEmpty(code, from, targets);
      case Do(simple) =>
        LowerSimple(simple);
        ExecutesSimple(code, from, Here(), targets, simple);
      case If(_, _, _) =>
        LowerIf(s);
      case While(_, _) =>
        LowerWhile(s);
      case For(_, _, _, _) =>
        LowerFor(s);
      case Items(items) =>
        LowerItems(s);
      case Return(value) =>
        LowerReturn(s);
      case Break =>
        var target := loops[|loops| - 1].after;
        EndAndOpen(JumpTo(target));
        ExecutesJump(code, from, Here(), targets.value, s);
      case Continue =>
        var target := loops[|loops| - 1].nextIteration;
        EndAndOpen(JumpTo(target));
        ExecutesJump(code, from, Here(), targets.value, s);
    }

    method LowerReturn(s: Stmt)
      requires Ready() && s.Return?
      modifies this
      ensures Ready() && temps >= old(temps) && loops == old(loops)
      ensures Kept(old(code), old(current), code) && Moved(old(code), old(current), current)
      ensures Executes(code, old(Here()), Here(), InnermostOf(old(loops)), s)
    {
      hide Evaluates, Executes, Kept, Sound, InstrAt, Emitted;
      ghost var code0, cur0, low, from, targets := code, current, temps, Here(), InnermostOf(loops);
      var value: Option<Operand> := None;
      if s.value.Some? {
        var result := LowerExpression(s.value.value);
        value := Some(result);
      } else {
        KeptItselfHere(code, current);
      }
      ghost var code1, cur1, mid := code, current, Here();
      EndAndOpen(Instr(Ret, None, value, None));
      KeptExtends(code1, cur1, code);
      if s.value.Some? {
        EvaluatesLater(code1, code, from, mid, value.value, s.value.value, low);
      }
      ExecutesReturn(code, from, mid, Here(), value, targets, s, low);
      KeptInTurn(code0, cur0, code1, cur1, code);
      KeptBelow(code0, cur0, code1, cur1, current);
    }

    method LowerItems(s: Stmt)
      requires Ready() && s.Items? && WellNested(s, loops != [])
      modifies this
      ensures Ready() && temps >= old(temps) && loops == old(loops)
      ensures Kept(old(code), old(current), code) && Moved(old(code), old(current), current)
      ensures Executes(code, old(Here()), Here(), InnermostOf(old(loops)), s)
      decreases s, |s.items|
    {
      hide Executes, ExecutesItems, Kept, Sound, Emitted;
      ghost var code0, cur0, from, targets := code, current, Here(), InnermostOf(loops);
      KeptItselfHere(code, current);
      ExecutesNoItems(code, from, targets, s);
      for n := 0 to |s.items|
        invariant Ready() && temps >= old(temps) && loops == old(loops)
        invariant Kept(code0, cur0, code) && Moved(code0, cur0, current)
        invariant ExecutesItems(code, from, Here(), targets, s, n)
      {
        ghost var code1, cur1, mid := code, current, Here();
        LowerStatement(s.items[n]);
        KeptExtends(code1, cur1, code);
        ItemsLater(code1, code, from, mid, targets, s, n);
        ExecutesOneMore(code, from, mid, Here(), targets, s, n);
        KeptInTurn(code0, cur0, code1, cur1, code);
        KeptBelow(code0, cur0, code1, cur1, current);
      }
      ExecutesAllItems(code, from, Here(), targets, s);
    }

    method LowerIf(s: Stmt)
      requires Ready() && s.If? && WellNested(s, loops != [])
      modifies this
      ensures Ready() && temps >= old(temps) && loops == old(loops)
      ensures Kept(old(code), old(current), code) && Moved(old(code), old(current), current)
      ensures Executes(code, old(Here()), Here(), InnermostOf(old(loops)), s)
      decreases s, 1
    {
      NestedParts(s, loops != []);
      hide Evaluates, Executes, Performs, Kept, Sound, InstrAt, Emitted, TestsAt, TestBuilt, ArmBuilt, StepBuilt,
           WellNested, Inside, InnermostOf, LoweringContext.Ready;
      ghost var code0, cur0, low, from, targets := code, current, temps, Here(), InnermostOf(loops);
      var pass, fail, end := NewBlocks();
      ghost var code1 := code;
      ghost var mid, cond, passed, failed;
      mid, cond := LowerTest(Some(s.cond), pass, fail);
      ghost var code2 := code;
      StillEmpty(code1, cur0, code2, fail, end);
      passed := LowerArm(Some(s.thenBranch), end, fail, s);
      ghost var code3 := code;
      EmptyStill(code2, pass, code3, end);
      failed := LowerArm(s.elseBranch, end, end, s);
      IfBuilt(code0, cur0, code1, code2, code3, code, Fork(from, mid, cond, low, pass, fail, end, passed, failed),
              targets, s);
    }

    /** A statement, if there is one, and a jump that ends its block. */
    method LowerArm(s: Option<Stmt>, target: nat, next: nat, ghost parent: Stmt) returns (ghost mid: Pos)
      requires Ready() && (s.Some? ==> WellNested(s.value, loops != []) && Inside(s.value, parent))
      requires target < |code| && next < |code| && next != current && code[next] == []
      modifies this
      ensures Ready() && temps >= old(temps) && loops == old(loops) && current == next && Here() == Pos(next, 0)
      ensures Kept(old(code), old(current), code) && next < |code| && code[next] == []
      ensures ArmBuilt(code, old(Here()), mid, InnermostOf(old(loops)), s, target)
      decreases parent, 0
    {
      SoundInside(code, current);
      hide Executes, Kept, Sound, InstrAt, WellNested, InnermostOf, LoweringContext.Ready;
      ghost var code0, cur0, from, targets := code, current, Here(), InnermostOf(loops);
      if s.Some? {
        LowerStatement(s.value);
      } else {
        KeptItself(code, current);
      }
      mid := Here();
      ghost var code1, cur1 := code, current;
      EmptyStill(code0, cur0, code1, next);
      KeptLonger(code0, cur0, code1);
      JumpAndGo(target, next);
      KeptInTurn(code0, cur0, code1, cur1, code);
      KeptExtends(code1, cur1, code);
      if s.Some? {
        ExecutesLater(code1, code, from, mid, targets, s.value);
      }
    }

    /** The step of a loop, if it has one, and the jump back to the test. */
    method LowerStep(s: Option<Simple>, target: nat, next: nat) returns (ghost mid: Pos)
      requires Ready() && target < |code| && next < |code| && next != current && code[next] == []
      modifies this`code, this`current, this`temps
      ensures Ready() && temps >= old(temps) && current == next && Here() == Pos(next, 0)
      ensures Kept(old(code), old(current), code) && next < |code| && code[next] == []
      ensures StepBuilt(code, old(Here()), mid, s, target)
    {
      SoundInside(code, current);
      hide Performs, Kept, Sound, InstrAt, LoweringContext.Ready;
      ghost var code0, cur0, from := code, current, Here();
      if s.Some? {
        LowerSimple(s.value);
      } else {
        KeptItself(code, current);
      }
      mid := Here();
      ghost var code1, cur1 := code, current;
      EmptyStill(code0, cur0, code1, next);
      KeptLonger(code0, cur0, code1);
      JumpAndGo(target, next);
      KeptInTurn(code0, cur0, code1, cur1, code);
      KeptExtends(code1, cur1, code);
      if s.Some? {
        PerformsLater(code1, code, from, mid, s.value);
      }
    }

    /** Writes the body so that breaking goes to `after` and finishing or continuing to `nextIteration`; writing then
        goes on in the empty block `next`. */
    method LowerLoopBody(body: Stmt, nextIteration: nat, after: nat, next: nat) returns (ghost done: Pos)
      requires Ready() && WellNested(body, true) && nextIteration < |code| && after < |code|
      requires next < |code| && next != current && code[next] == []
      modifies this
      ensures Ready() && temps >= old(temps) && loops == old(loops) && current == next && Here() == Pos(next, 0)
      ensures Kept(old(code), old(current), code) && next < |code| && code[next] == []
      ensures ArmBuilt(code, old(Here()), done, Some(Targets(after, nextIteration)), Some(body), nextIteration)
      decreases body, ItemCount(body) + 3
    {
      hide Executes, Kept, Sound, InstrAt;
      ghost var outer, code0, cur0, from := loops, code, current, Here();
      loops := loops + [Targets(after, nextIteration)];
      LowerStatement(body);
      assert loops[..|loops| - 1] == outer;
      loops := loops[..|loops| - 1];
      done := Here();
      ghost var code1, cur1 := code, current;
      KeptLonger(code0, cur0, code1);
      EmptyStill(code0, cur0, code1, next);
      JumpAndGo(nextIteration, next);
      KeptInTurn(code0, cur0, code1, cur1, code);
      KeptExtends(code1, cur1, code);
      ExecutesLater(code1, code, from, done, Some(Targets(after, nextIteration)), body);
    }

    method LowerWhile(s: Stmt)
      requires Ready() && s.While? && WellNested(s, loops != [])
      modifies this
      ensures Ready() && temps >= old(temps) && loops == old(loops)
      ensures Kept(old(code), old(current), code) && Moved(old(code), old(current), current)
      ensures Executes(code, old(Here()), Here(), InnermostOf(old(loops)), s)
      decreases s, 1
    {
      NestedParts(s, loops != []);
      hide Evaluates, Executes, Performs, Kept, Sound, InstrAt, Emitted, TestsAt, TestBuilt, ArmBuilt, StepBuilt,
           WellNested, Inside, InnermostOf, LoweringContext.Ready;
      ghost var code0, cur0, from, targets := code, current, Here(), InnermostOf(loops);
      var test, body, end := NewBlocks();
      ghost var code1 := code;
      JumpAndGo(test, test);
      ghost var code2, low := code, temps;
      StillEmpty(code1, cur0, code2, body, end);
      ghost var mid, cond;
      mid, cond := LowerTest(Some(s.cond), body, end);
      ghost var code3 := code;
      EmptyStill(code2, test, code3, end);
      KeptLonger(code2, test, code3);
      ghost var done := LowerLoopBody(s.body, test, end, end);
      WhileBuilt(code0, cur0, code1, code2, code3, code, from,
                 Circle(test, mid, cond, low, body, done, test, Pos(test, 0), end), targets, s);
    }

    method LowerFor(s: Stmt)
      requires Ready() && s.For? && WellNested(s, loops != [])
      modifies this
      ensures Ready() && temps >= old(temps) && loops == old(loops)
      ensures Kept(old(code), old(current), code) && Moved(old(code), old(current), current)
      ensures Executes(code, old(Here()), Here(), InnermostOf(old(loops)), s)
      decreases s, 1
    {
      NestedParts(s, loops != []);
      hide Evaluates, Executes, Performs, Kept, Sound, InstrAt, Emitted, TestsAt, TestBuilt, ArmBuilt, StepBuilt,
           Parts, Extends, WellNested, Inside, InnermostOf, LoweringContext.Ready;
      ghost var code0, cur0, from, targets := code, current, Here(), InnermostOf(loops);
      var test, body, step, end := NewFourBlocks();
      ghost var code1 := code;
      ghost var before := LowerArm(s.init, test, test, s);
      ghost var code2 := code;
      assert ArmBuilt(code2, from, before, targets, s.init, test);
      ThreeStill(code1, cur0, code2, body, step, end);
      KeptInTurn(code0, cur0, code1, cur0, code2);
      ghost var c := LowerCycle(s.test, s.step, s.body, body, step, end, s, code0, cur0);
      assert c.test == test;
      ForBuilt(code2, code, from, before, c, targets, s);
    }

    /** The test, the body and the step of a `for`, from its empty test block on. */
    method LowerCycle(test: Option<Expr>, step: Option<Simple>, body: Stmt, bodyLabel: nat, stepLabel: nat, end: nat,
                      ghost parent: Stmt, ghost code0: Code, ghost cur0: nat)
      returns (ghost c: Circle)
      requires Ready() && WellNested(body, true) && Inside(body, parent) && Here() == Pos(current, 0)
      requires current != bodyLabel && current != stepLabel && current != end && bodyLabel != stepLabel &&
               bodyLabel != end && stepLabel != end
      requires current < |code| && bodyLabel < |code| && stepLabel < |code| && end < |code|
      requires code[bodyLabel] == [] && code[stepLabel] == [] && code[end] == []
      requires Kept(code0, cur0, code) && |code0| <= current && |code0| <= bodyLabel && |code0| <= stepLabel &&
               |code0| <= end
      modifies this
      ensures Ready() && temps >= old(temps) && loops == old(loops) && current == end && Here() == Pos(end, 0)
      ensures Kept(code0, cur0, code) && Extends(old(code), code) && |code0| <= end
      ensures c.test == old(current) && c.end == end && Parts(code, c, test, step, body)
      decreases parent, 0
    {
      hide Evaluates, Executes, Performs, Kept, Sound, InstrAt, Emitted, TestsAt, TestBuilt, ArmBuilt, StepBuilt,
           Extends, LoweringContext.Ready, WellNested;
      ghost var code2, low := code, temps;
      var start := current;
      ghost var mid, cond, done, stepped;
      mid, cond := LowerTest(test, bodyLabel, end);
      ghost var code3 := code;
      StillEmpty(code2, start, code3, stepLabel, end);
      done := LowerLoopBody(body, stepLabel, end, stepLabel);
      ghost var code4 := code;
      EmptyStill(code3, bodyLabel, code4, end);
      KeptLonger(code2, start, code3);
      KeptLonger(code3, bodyLabel, code4);
      stepped := LowerStep(step, start, end);
      c := Circle(start, mid, cond, low, bodyLabel, done, stepLabel, stepped, end);
      CycleBuilt(code0, cur0, code2, code3, code4, code, c, test, step, body);
    }

    /** The test of a loop, if it has one: to the end when it fails, otherwise on to the body. */
    method LowerTest(test: Option<Expr>, body: nat, end: nat) returns (ghost mid: Pos, ghost cond: Operand)
      requires Ready() && body < |code| && end < |code| && body != current && code[body] == []
      modifies this`code, this`current, this`temps
      ensures Ready() && temps >= old(temps) && current == body && Here() == Pos(body, 0) &&
              Kept(old(code), old(current), code)
      ensures TestBuilt(code, old(Here()), mid, cond, test, old(temps), body, end)
    {
      hide Evaluates, Kept, Sound, InstrAt;
      ghost var code0, cur0, low, from := code, current, temps, Here();
      if test.Some? {
        var value := LowerExpression(test.value);
        mid, cond := Here(), value;
        ghost var code1, cur1 := code, current;
        EmptyStill(code0, cur0, code1, body);
        KeptLonger(code0, cur0, code1);
        BranchAndGo(BranchIfNot, value, end, body, body);
        KeptExtends(code1, cur1, code);
        EvaluatesLater(code1, code, from, mid, value, test.value, low);
        KeptInTurn(code0, cur0, code1, cur1, code);
      } else {
        mid, cond := Here(), ImmInt(0);
        JumpAndGo(body, body);
      }
    }

    // ---- functions ----

    /** Lower a function: bind its parameters, lower its body, and go to the exit block if the body ends. */
    method LowerFunction(params: seq<VarId>, body: Stmt)
      requires WellNested(body, false) && loops == []
      modifies this
      ensures Means(code, params, body) && AllSound(code)
    {
      hide Executes, Kept, Means, BindsAll, AllSound, BlockSound, Straight, Emitted, InstrAt;
      code := [[], []];
      var exit := 1;
      current := 0;
      EmptyIsSound();
      NothingBound(code);
      KeptItself(code, 0);
      ghost var code0 := code;
      for index := 0 to |params|
        invariant Ready() && loops == [] && current == 0 && Here() == Pos(0, index)
        invariant Kept(code0, 0, code) && BindsAll(code, params[..index])
      {
        ghost var before := code;
        EmitPlain(BindOf(params[index], index));
        BindsMore(before, code, params, index);
        KeptInTurn(code0, 0, before, 0, code);
      }
      assert params[..|params|] == params;
      ghost var code1, from := code, Here();
      LowerStatement(body);
      ghost var code2, cur2, last := code, current, Here();
      KeptInTurn(code0, 0, code1, 0, code2);
      EmptyStill(code0, 0, code2, exit);
      KeptLonger(code0, 0, code2);
      JumpIsTail(exit, |code|);
      SoundEnd(code, current, [JumpTo(exit)]);
      EndOfFunction(code0, code1, code2, cur2, from, last, params, body);
      if current != exit {
        EmitJump(exit);
      }
    }
  }

  ghost predicate TestBuilt(code: Code, from: Pos, mid: Pos, cond: Operand, test: Option<Expr>, low: nat, body: nat,
                            end: nat) {
    if test.Some? then Evaluates(code, from, mid, cond, test.value, low) && TestsAt(code, mid, cond, body, end)
    else mid == from && InstrAt(code, mid, JumpTo(body))
  }

  lemma TestBuiltLater(code: Code, code': Code, from: Pos, mid: Pos, cond: Operand, test: Option<Expr>, low: nat,
                       body: nat, end: nat)
    requires TestBuilt(code, from, mid, cond, test, low, body, end) && Extends(code, code')
    ensures TestBuilt(code', from, mid, cond, test, low, body, end)
  {
    if test.Some? {
      EvaluatesLater(code, code', from, mid, cond, test.value, low);
      TestsLater(code, code', mid, cond, body, end);
    } else {
      InstrStays(code, code', mid, JumpTo(body));
    }
    hide Evaluates, TestsAt, InstrAt, Extends;
  }

  /** A statement or nothing, and a jump. */
  ghost predicate ArmBuilt(code: Code, from: Pos, mid: Pos, targets: Option<Targets>, s: Option<Stmt>, target: nat) {
    (if s.Some? then Executes(code, from, mid, targets, s.value) else mid == from) && InstrAt(code, mid, JumpTo(target))
  }

  lemma ArmLater(code: Code, code': Code, from: Pos, mid: Pos, targets: Option<Targets>, s: Option<Stmt>, target: nat)
    requires ArmBuilt(code, from, mid, targets, s, target) && Extends(code, code')
    ensures ArmBuilt(code', from, mid, targets, s, target)
  {
    InstrStays(code, code', mid, JumpTo(target));
    if s.Some? {
      ExecutesLater(code, code', from, mid, targets, s.value);
    }
    hide Executes, InstrAt, Extends;
  }

  ghost predicate StepBuilt(code: Code, from: Pos, mid: Pos, s: Option<Simple>, target: nat) {
    (if s.Some? then Performs(code, from, mid, s.value) else mid == from) && InstrAt(code, mid, JumpTo(target))
  }

  lemma KeptChain(a: Code, i: nat, b: Code, j: nat, c: Code)
    requires Kept(a, i, b) && Kept(b, j, c) && (j == i || j >= |a|)
    ensures Kept(a, i, c) && |a| <= |b| <= |c|
  {
    KeptInTurn(a, i, b, j, c);
  }

  /** What is still to come, seen one step earlier. */
  lemma Grow(a: Code, i: nat, b: Code, last: Code)
    requires Kept(a, i, b) && (b == last || Extends(b, last))
    ensures Extends(a, last)
  {
    KeptExtends(a, i, b);
    if b != last {
      ExtendsInTurn(a, b, last);
    }
  }

  /** The blocks of an `if`, once they are all written. */
  lemma IfBuilt(code0: Code, cur0: nat, code1: Code, code2: Code, code3: Code, code4: Code, f: Fork,
                targets: Option<Targets>, s: Stmt)
    requires s.If? && Kept(code0, cur0, code1) && Kept(code1, cur0, code2) && Kept(code2, f.pass, code3) &&
             Kept(code3, f.fail, code4)
    requires |code0| <= f.pass && |code0| <= f.fail && |code0| <= f.end
    requires TestBuilt(code2, f.from, f.mid, f.cond, Some(s.cond), f.low, f.pass, f.fail)
    requires ArmBuilt(code3, Pos(f.pass, 0), f.passed, targets, Some(s.thenBranch), f.end)
    requires ArmBuilt(code4, Pos(f.fail, 0), f.failed, targets, s.elseBranch, f.end)
    ensures Executes(code4, f.from, Pos(f.end, 0), targets, s)
    ensures Kept(code0, cur0, code4) && Moved(code0, cur0, f.end)
  {
    hide Evaluates, Executes, InstrAt, TestsAt, Kept, Extends;
    KeptChain(code0, cur0, code1, cur0, code2);
    KeptChain(code0, cur0, code2, f.pass, code3);
    KeptChain(code0, cur0, code3, f.fail, code4);
    Grow(code3, f.fail, code4, code4);
    Grow(code2, f.pass, code3, code4);
    TestBuiltLater(code2, code4, f.from, f.mid, f.cond, Some(s.cond), f.low, f.pass, f.fail);
    ArmLater(code3, code4, Pos(f.pass, 0), f.passed, targets, Some(s.thenBranch), f.end);
    ExecutesIf(code4, f, targets, s);
  }

  /** The blocks of a `while`, once they are all written. */
  lemma WhileBuilt(code0: Code, cur0: nat, code1: Code, code2: Code, code3: Code, code4: Code, from: Pos, c: Circle,
                   targets: Option<Targets>, s: Stmt)
    requires s.While? && Kept(code0, cur0, code1) && Kept(code1, cur0, code2) && Kept(code2, c.test, code3) &&
             Kept(code3, c.body, code4)
    requires |code0| <= c.test && |code0| <= c.body && |code0| <= c.end && c.next == c.test
    requires InstrAt(code2, from, JumpTo(c.test))
    requires TestBuilt(code3, Pos(c.test, 0), c.mid, c.cond, Some(s.cond), c.low, c.body, c.end)
    requires ArmBuilt(code4, Pos(c.body, 0), c.done, c.Inside(), Some(s.body), c.next)
    ensures Executes(code4, from, Pos(c.end, 0), targets, s)
    ensures Kept(code0, cur0, code4) && Moved(code0, cur0, c.end)
  {
    hide Evaluates, Executes, InstrAt, TestsAt, Kept, Extends;
    KeptChain(code0, cur0, code1, cur0, code2);
    KeptChain(code0, cur0, code2, c.test, code3);
    KeptChain(code0, cur0, code3, c.body, code4);
    Grow(code3, c.body, code4, code4);
    Grow(code2, c.test, code3, code4);
    InstrStays(code2, code4, from, JumpTo(c.test));
    TestBuiltLater(code3, code4, Pos(c.test, 0), c.mid, c.cond, Some(s.cond), c.low, c.body, c.end);
    ExecutesWhile(code4, from, c, s, targets);
  }

  /** The blocks of a loop with a step of its own, once they are all written. */
  lemma CycleBuilt(code0: Code, cur0: nat, code2: Code, code3: Code, code4: Code, code5: Code, c: Circle,
                   test: Option<Expr>, step: Option<Simple>, body: Stmt)
    requires Kept(code0, cur0, code2) && Kept(code2, c.test, code3) && Kept(code3, c.body, code4) &&
             Kept(code4, c.next, code5)
    requires |code0| <= c.test && |code0| <= c.body && |code0| <= c.next && |code0| <= c.end
    requires TestBuilt(code3, Pos(c.test, 0), c.mid, c.cond, test, c.low, c.body, c.end)
    requires ArmBuilt(code4, Pos(c.body, 0), c.done, c.Inside(), Some(body), c.next)
    requires StepBuilt(code5, Pos(c.next, 0), c.stepped, step, c.test)
    ensures Parts(code5, c, test, step, body) && Kept(code0, cur0, code5) && Extends(code2, code5)
  {
    hide Evaluates, Executes, Performs, InstrAt, TestsAt, Kept, Extends;
    KeptChain(code0, cur0, code2, c.test, code3);
    KeptChain(code0, cur0, code3, c.body, code4);
    KeptChain(code0, cur0, code4, c.next, code5);
    Grow(code4, c.next, code5, code5);
    Grow(code3, c.body, code4, code5);
    Grow(code2, c.test, code3, code5);
    TestBuiltLater(code3, code5, Pos(c.test, 0), c.mid, c.cond, test, c.low, c.body, c.end);
    ArmLater(code4, code5, Pos(c.body, 0), c.done, c.Inside(), Some(body), c.next);
  }

  lemma ForBuilt(code2: Code, code5: Code, from: Pos, before: Pos, c: Circle, targets: Option<Targets>, s: Stmt)
    requires s.For? && ArmBuilt(code2, from, before, targets, s.init, c.test) && Extends(code2, code5)
    requires Parts(code5, c, s.test, s.step, s.body)
    ensures Executes(code5, from, Pos(c.end, 0), targets, s)
  {
    ArmLater(code2, code5, from, before, targets, s.init, c.test);
    hide Parts, Executes, Extends, InstrAt;
    ExecutesFor(code5, from, before, c, s, targets);
  }

  lemma ThreeNew(code: Code, cur: nat)
    requires cur < |code|
    ensures var code' := code + [[]] + [[]] + [[]];
            && Kept(code, cur, code') && code'[|code|] == [] && code'[|code| + 1] == [] && code'[|code| + 2] == []
  {
  }

  lemma OneMoreNew(code0: Code, cur: nat, three: Code, four: Code, a: nat, b: nat, c: nat)
    requires Kept(code0, cur, three) && four == three + [[]] && a < |three| && b < |three| && c < |three|
    requires three[a] == [] && three[b] == [] && three[c] == []
    ensures Kept(code0, cur, four) && |four| == |three| + 1
    ensures four[a] == [] && four[b] == [] && four[c] == [] && four[|three|] == []
  {
  }

  /** A statement inside another. */
  ghost predicate Inside(part: Stmt, whole: Stmt) {
    part < whole
  }

  /** What is inside a well-nested statement is well nested. */
  lemma NestedParts(s: Stmt, inLoop: bool)
    requires WellNested(s, inLoop)
    ensures s.If? ==> Inside(s.thenBranch, s) && (s.elseBranch.Some? ==> Inside(s.elseBranch.value, s))
    ensures s.For? ==> Inside(s.body, s) && (s.init.Some? ==> Inside(s.init.value, s))
    ensures s.If? ==> WellNested(s.thenBranch, inLoop) &&
                      (s.elseBranch.Some? ==> WellNested(s.elseBranch.value, inLoop))
    ensures s.While? ==> WellNested(s.body, true)
    ensures s.For? ==> WellNested(s.body, true) && (s.init.Some? ==> WellNested(s.init.value, inLoop))
  {
  }

  /** Three blocks that are not being written stay empty. */
  lemma ThreeStill(code: Code, cur: nat, code': Code, a: nat, b: nat, c: nat)
    requires Kept(code, cur, code') && a < |code| && b < |code| && c < |code| && a != cur && b != cur && c != cur
    requires code[a] == [] && code[b] == [] && code[c] == []
    ensures a < |code'| && b < |code'| && c < |code'| && code'[a] == [] && code'[b] == [] && code'[c] == []
  {
  }

  lemma KeptLonger(code: Code, cur: nat, code': Code)
    requires Kept(code, cur, code')
    ensures |code| <= |code'|
  {
  }

  lemma KeptItselfHere(code: Code, cur: nat)
    requires Sound(code, cur)
    ensures Kept(code, cur, code)
  {
  }

  lemma ArgsLater(code: Code, code': Code, from: Pos, to: Pos, results: seq<Operand>, call: Expr, low: nat)
    requires EvaluatesArgs(code, from, to, results, call, low) && Extends(code, code')
    ensures EvaluatesArgs(code', from, to, results, call, low)
  {
    forall m: Meaning, code'': Code, mem: Memory | Extends(code', code'')
      ensures ArgsAt(m, code'', from, to, results, call, low, mem)
    {
      ExtendsInTurn(code, code', code'');
    }
    hide ArgsAt, Extends;
  }

  lemma NothingPassed(code: Code, p: Pos)
    ensures PassesAll(code, p, [])
  {
  }

  lemma PassesMore(code: Code, code': Code, p: Pos, results: seq<Operand>, k: nat)
    requires k < |results| && PassesAll(code, p, results[..k]) && Extends(code, code')
    requires InstrAt(code', Pos(p.block, p.row + k), ParamOf(results[k]))
    ensures PassesAll(code', p, results[..k + 1])
  {
    PassesLater(code, code', p, results[..k]);
    var next := k + 1;
    forall j: nat | j < |results[..next]| ensures InstrAt(code', Pos(p.block, p.row + j), ParamOf(results[..next][j])) {
      if j < k {
        assert results[..next][j] == results[..k][j];
      }
    }
    hide InstrAt, Extends;
  }

  /** The blocks of a short circuit, once they are all written. */
  lemma CircuitBuilt(code0: Code, cur0: nat, code1: Code, code2: Code, cur2: nat, code3: Code, code4: Code,
                     code5: Code, cur5: nat, code6: Code,
                     code7: Code, c: Circuit, e: Expr, low: nat, high: nat)
    requires e.Logical? && low <= high < c.temp && SafeBelow(c.a, high)
    requires Kept(code0, cur0, code1) && Kept(code1, cur0, code2) && Moved(code1, cur0, cur2) &&
             Kept(code2, cur2, code3)
    requires Kept(code3, cur2, code4) && Kept(code4, c.rhs, code5) && Moved(code4, c.rhs, cur5) &&
             Kept(code5, cur5, code6) && Kept(code6, cur5, code7)
    requires |code0| == c.rhs && c.rhs + 1 == c.end && |code1| == c.end + 1 && |code3| == |code2| && |code4| == |code3|
    requires Evaluates(code2, c.from, c.mid, c.a, e.left, low) &&
             Evaluates(code5, Pos(c.rhs, 0), c.last, c.b, e.right, c.temp)
    requires InstrAt(code3, c.mid, TempInto(Mov, c.temp, Some(ImmInt(if e.both then 0 else 1)), None))
    requires InstrAt(code4, Next(c.mid),
                     Instr(if e.both then BranchIfNot else BranchIf, None, Some(c.a), Some(Label(c.end))))
    requires InstrAt(code4, Next(Next(c.mid)), JumpTo(c.rhs))
    requires InstrAt(code6, c.last, if AnswersZeroOrOne(e.right) then TempInto(Mov, c.temp, Some(c.b), None)
                                    else TempInto(Arithmetic(NEQ), c.temp, Some(c.b), Some(ImmInt(0))))
    requires InstrAt(code7, Next(c.last), JumpTo(c.end))
    ensures Evaluates(code7, c.from, Pos(c.end, 0), OfTemp(c.temp), e, low)
    ensures Kept(code0, cur0, code7) && Moved(code0, cur0, c.end)
  {
    KeptInTurn(code5, cur5, code6, cur5, code7);
    KeptInTurn(code4, c.rhs, code5, cur5, code7);
    KeptInTurn(code2, cur2, code3, cur2, code4);
    hide Evaluates, InstrAt;
    KeptExtends(code6, cur5, code7);
    KeptExtends(code5, cur5, code7);
    KeptExtends(code4, c.rhs, code7);
    KeptExtends(code3, cur2, code4);
    KeptExtends(code2, cur2, code4);
    ExtendsInTurn(code3, code4, code7);
    ExtendsInTurn(code2, code4, code7);
    KeptInTurn(code0, cur0, code1, cur0, code2);
    assert Moved(code0, cur0, cur2);
    KeptInTurn(code0, cur0, code2, cur2, code4);
    KeptInTurn(code0, cur0, code4, c.rhs, code7);
    hide Kept, Extends;
    InstrStays(code3, code7, c.mid, TempInto(Mov, c.temp, Some(ImmInt(if e.both then 0 else 1)), None));
    InstrStays(code4, code7, Next(c.mid),
               Instr(if e.both then BranchIfNot else BranchIf, None, Some(c.a), Some(Label(c.end))));
    InstrStays(code4, code7, Next(Next(c.mid)), JumpTo(c.rhs));
    InstrStays(code6, code7, c.last, if AnswersZeroOrOne(e.right) then TempInto(Mov, c.temp, Some(c.b), None)
                                     else TempInto(Arithmetic(NEQ), c.temp, Some(c.b), Some(ImmInt(0))));
    EvaluatesLater(code2, code7, c.from, c.mid, c.a, e.left, low);
    EvaluatesLater(code5, code7, Pos(c.rhs, 0), c.last, c.b, e.right, c.temp);
    EvaluatesLogical(code7, c, e, low, high);
  }

  // ---- what a function means ----

  function BindOf(v: VarId, index: nat): Instr {
    Instr(GetParam, Some(OfVar(v)), Some(ImmInt(index)), None)
  }

  ghost predicate BindsAll(code: Code, params: seq<VarId>) {
    forall k: nat :: k < |params| ==> InstrAt(code, Pos(0, k), BindOf(params[k], k))
  }

  lemma EmptyIsSound()
    ensures Sound([[], []], 0) && Sound([[], []], 1)
  {
    StraightEndsWell([], []);
    assert BlockSound([], 2);
  }

  lemma NothingBound(code: Code)
    ensures BindsAll(code, [])
  {
  }

  lemma BindsMore(code: Code, code': Code, params: seq<VarId>, k: nat)
    requires k < |params| && BindsAll(code, params[..k]) && Kept(code, 0, code') &&
             InstrAt(code', Pos(0, k), BindOf(params[k], k))
    ensures BindsAll(code', params[..k + 1])
  {
    KeptExtends(code, 0, code');
    var next := k + 1;
    forall j: nat | j < |params[..next]| ensures InstrAt(code', Pos(0, j), BindOf(params[..next][j], j)) {
      if j < k {
        assert params[..k][j] == params[j];
        InstrStays(code, code', Pos(0, j), BindOf(params[j], j));
      }
    }
    hide InstrAt, Extends, Kept;
  }

  /** The variables once the first `n` parameters are bound. */
  function Bound(m: Meaning, params: seq<VarId>, n: nat): Vars
    requires n <= |params|
    decreases n
  {
    if n == 0 then map[] else Bound(m, params, n - 1)[params[n - 1] := m.param(n - 1)]
  }

  /** How the function's body ends, run on its arguments. */
  function SourceRun(m: Meaning, params: seq<VarId>, body: Stmt, fuel: nat): Outcome {
    Exec(m, body, Structured.Store.Store(Bound(m, params, |params|), []), fuel)
  }

  /** The code after `n` steps from the start of its entry block. */
  function CodeRun(m: Meaning, code: Code, n: nat): State {
    Steps(m, code, At(Pos(0, 0), Memory(map[], map[], [], [])), n)
  }

  /** The body ends with that value and those events. */
  ghost predicate Yields(m: Meaning, params: seq<VarId>, body: Stmt, value: Option<Word>, trace: seq<Event>) {
    exists fuel: nat :: EndsWith(SourceRun(m, params, body, fuel), value, trace)
  }

  ghost predicate EndsWith(o: Outcome, value: Option<Word>, trace: seq<Event>) {
    o == Returned(value, trace) || (o.Normal? && value == None && o.store.trace == trace)
  }

  /** The code ends with that value and those events. */
  ghost predicate Finishes(m: Meaning, code: Code, value: Option<Word>, trace: seq<Event>) {
    exists n: nat :: CodeRun(m, code, n) == Done(value, trace)
  }

  /** What the source has done when its loops have used up `fuel` iterations, the code has done at some point, and
      when the source is not finished by then the code is not either, `fuel` steps on or later. */
  ghost predicate KeepsUp(m: Meaning, code: Code, params: seq<VarId>, body: Stmt, fuel: nat) {
    var o := SourceRun(m, params, body, fuel);
    exists n: nat :: TraceAt(CodeRun(m, code, n)) == TraceOf(o) && (o.Spent? ==> fuel <= n && CodeRun(m, code, n).At?)
  }

  /** What the code has done after `n` steps the source has done within `n` iterations. */
  ghost predicate RunsAhead(m: Meaning, code: Code, params: seq<VarId>, body: Stmt, n: nat) {
    TraceAt(CodeRun(m, code, n)) <= TraceOf(SourceRun(m, params, body, n))
  }

  /** The code ends exactly when the source does, and alike; ending or not, each does what the other does. */
  ghost predicate Means(code: Code, params: seq<VarId>, body: Stmt) {
    forall m: Meaning {:trigger MeansOn(m, code, params, body)} :: MeansOn(m, code, params, body)
  }

  ghost predicate MeansOn(m: Meaning, code: Code, params: seq<VarId>, body: Stmt) {
    && (forall value: Option<Word>, trace: seq<Event> ::
          Yields(m, params, body, value, trace) <==> Finishes(m, code, value, trace))
    && (forall fuel: nat {:trigger KeepsUp(m, code, params, body, fuel)} :: KeepsUp(m, code, params, body, fuel))
    && (forall n: nat {:trigger RunsAhead(m, code, params, body, n)} :: RunsAhead(m, code, params, body, n))
  }

  lemma {:induction false} Binds(m: Meaning, code: Code, params: seq<VarId>, n: nat)
    requires BindsAll(code, params) && n <= |params|
    ensures Gets(m, code, At(Pos(0, 0), Memory(map[], map[], [], [])),
                 At(Pos(0, n), Memory(Bound(m, params, n), map[], [], [])), 0)
    decreases n
  {
    hide Gets;
    var start := At(Pos(0, 0), Memory(map[], map[], [], []));
    if n == 0 {
      GetsItself(m, code, start);
    } else {
      var k := n - 1;
      Binds(m, code, params, k);
      var before := At(Pos(0, k), Memory(Bound(m, params, k), map[], [], []));
      Runs(m, code, before, BindOf(params[k], k));
      var after := At(Pos(0, n), Memory(Bound(m, params, n), map[], [], []));
      GetsOn(m, code, start, before, after, 0, 1);
      WeakerGets(m, code, start, after, 1);
    }
  }

  /** A lowered function, once it is all written: its parameters, its body, and an empty exit block. */
  ghost predicate FunctionAt(code: Code, params: seq<VarId>, body: Stmt, last: Pos) {
    && BindsAll(code, params) && Executes(code, Pos(0, |params|), last, None, body) && InstrAt(code, last, JumpTo(1))
    && |code| > 1 && code[1] == [] && WellNested(body, false)
  }

  /** The whole code ends as its body does. */
  ghost predicate FunctionEnds(m: Meaning, code: Code, o: Outcome, fuel: nat) {
    var start := At(Pos(0, 0), Memory(map[], map[], [], []));
    if o.Returned? then Gets(m, code, start, Done(o.value, o.trace), 0)
    else if o.Normal? then Gets(m, code, start, Done(None, o.store.trace), 0)
    else o.Spent? && RunsOn(m, code, start, fuel, o.store)
  }

  /** How the code ends, for a given allowance of iterations. */
  lemma FunctionRuns(m: Meaning, code: Code, params: seq<VarId>, body: Stmt, last: Pos, fuel: nat)
    requires FunctionAt(code, params, body, last)
    ensures FunctionEnds(m, code, SourceRun(m, params, body, fuel), fuel)
  {
    hide Gets, RunsOn, BindsAll, InstrAt, Exec, WellNested;
    var start := At(Pos(0, 0), Memory(map[], map[], [], []));
    var mem := Memory(Bound(m, params, |params|), map[], [], []);
    var o := Exec(m, body, mem.Store(), fuel);
    Binds(m, code, params, |params|);
    ExtendsItself(code);
    assert StmtAt(m, code, Pos(0, |params|), last, None, body, fuel, mem);
    hide Executes;
    ThenJump(m, code, At(Pos(0, |params|), mem), last, 1, None, o, fuel);
    EndsAfter(m, code, start, At(Pos(0, |params|), mem), 0, Pos(1, 0), None, o, fuel);
    NoJumpsOutside(m, body, mem.Store(), fuel);
    if o.Normal? {
      FallsOff(m, code, start, o.store);
    }
  }

  lemma ExtendsItself(code: Code)
    ensures Extends(code, code)
  {
  }

  lemma FallsOff(m: Meaning, code: Code, start: State, st: Store)
    requires GetsTo(m, code, start, Pos(1, 0), st) && |code| > 1 && code[1] == []
    ensures Gets(m, code, start, Done(None, st.trace), 0)
  {
    var mem := StoreReached(m, code, start, Pos(1, 0), st);
    GetsNext(m, code, At(Pos(1, 0), mem));
    hide Gets;
    GetsOn(m, code, start, At(Pos(1, 0), mem), Done(None, st.trace), 0, 1);
    WeakerGets(m, code, start, Done(None, st.trace), 1);
  }

  lemma BothDone(m: Meaning, code: Code, s: State, a: Option<Word>, t: seq<Event>, b: Option<Word>, u: seq<Event>,
                 n: nat)
    requires Steps(m, code, s, n) == Done(a, t) && Gets(m, code, s, Done(b, u), 0)
    ensures Done(a, t) == Done(b, u)
  {
    var n': nat :| Steps(m, code, s, n') == Done(b, u);
    if n <= n' {
      DoneStays(m, code, s, n, n');
    } else {
      DoneStays(m, code, s, n', n);
    }
  }

  lemma NotRunningOn(m: Meaning, code: Code, s: State, n: nat, st: Store)
    requires Steps(m, code, s, n).Done?
    ensures !RunsOn(m, code, s, n, st)
  {
    forall n': nat | n <= n' ensures !Steps(m, code, s, n').At? {
      DoneStays(m, code, s, n, n');
    }
  }

  lemma FunctionMeans(code: Code, params: seq<VarId>, body: Stmt, last: Pos)
    requires FunctionAt(code, params, body, last)
    ensures Means(code, params, body)
  {
    hide FunctionAt, SourceRun, KeepsUp, RunsAhead, Yields, Finishes;
    forall m: Meaning ensures MeansOn(m, code, params, body) {
      forall value: Option<Word>, trace: seq<Event>
        ensures Yields(m, params, body, value, trace) <==> Finishes(m, code, value, trace)
      {
        EndsAlike(m, code, params, body, last, value, trace);
      }
      forall n: nat ensures KeepsUp(m, code, params, body, n) && RunsAhead(m, code, params, body, n) {
        FunctionRuns(m, code, params, body, last, n);
        DoesAlike(m, code, params, body, n);
      }
    }
  }

  lemma EndsAlike(m: Meaning, code: Code, params: seq<VarId>, body: Stmt, last: Pos, value: Option<Word>,
                  trace: seq<Event>)
    requires FunctionAt(code, params, body, last)
    ensures Yields(m, params, body, value, trace) <==> Finishes(m, code, value, trace)
  {
    hide FunctionAt, SourceRun, Steps;
    if Yields(m, params, body, value, trace) {
      var fuel: nat :| EndsWith(SourceRun(m, params, body, fuel), value, trace);
      FunctionRuns(m, code, params, body, last, fuel);
      var n: nat :| Steps(m, code, At(Pos(0, 0), Memory(map[], map[], [], [])), n) == Done(value, trace);
      assert CodeRun(m, code, n) == Done(value, trace);
    }
    if Finishes(m, code, value, trace) {
      var n: nat :| CodeRun(m, code, n) == Done(value, trace);
      FunctionRuns(m, code, params, body, last, n);
      FinishedYields(m, code, params, body, value, trace, n);
    }
  }

  lemma FinishedYields(m: Meaning, code: Code, params: seq<VarId>, body: Stmt, value: Option<Word>, trace: seq<Event>,
                       n: nat)
    requires CodeRun(m, code, n) == Done(value, trace) && FunctionEnds(m, code, SourceRun(m, params, body, n), n)
    ensures Yields(m, params, body, value, trace)
  {
    hide SourceRun, Gets, RunsOn, Steps;
    var start := At(Pos(0, 0), Memory(map[], map[], [], []));
    var o := SourceRun(m, params, body, n);
    if o.Returned? {
      BothDone(m, code, start, value, trace, o.value, o.trace, n);
    } else {
      NotRunningOn(m, code, start, n, o.store);
      BothDone(m, code, start, value, trace, None, o.store.trace, n);
    }
    assert EndsWith(SourceRun(m, params, body, n), value, trace);
  }

  /** The code is where the source is after `n` iterations, and not before its `n`th step if it goes on. */
  lemma SourceReached(m: Meaning, code: Code, params: seq<VarId>, body: Stmt, n: nat) returns (k: nat)
    requires FunctionEnds(m, code, SourceRun(m, params, body, n), n)
    ensures TraceAt(CodeRun(m, code, k)) == TraceOf(SourceRun(m, params, body, n))
    ensures if SourceRun(m, params, body, n).Spent? then n <= k && CodeRun(m, code, k).At?
            else CodeRun(m, code, k).Done?
  {
    hide SourceRun, Steps;
    var start := At(Pos(0, 0), Memory(map[], map[], [], []));
    var o := SourceRun(m, params, body, n);
    if o.Returned? {
      k :| Steps(m, code, start, k) == Done(o.value, o.trace);
    } else if o.Normal? {
      k :| Steps(m, code, start, k) == Done(None, o.store.trace);
    } else {
      k :| n <= k && RunsAt(Steps(m, code, start, k), o.store);
    }
  }

  lemma DoesAlike(m: Meaning, code: Code, params: seq<VarId>, body: Stmt, n: nat)
    requires FunctionEnds(m, code, SourceRun(m, params, body, n), n)
    ensures KeepsUp(m, code, params, body, n) && RunsAhead(m, code, params, body, n)
  {
    hide SourceRun, Steps, FunctionEnds;
    var start := At(Pos(0, 0), Memory(map[], map[], [], []));
    var k := SourceReached(m, code, params, body, n);
    assert KeepsUp(m, code, params, body, n);
    if n <= k {
      TracesGrow(m, code, start, n, k);
    } else {
      DoneStays(m, code, start, k, n);
    }
  }

  /** The jump to the exit block completes the function. */
  lemma EndOfFunction(code0: Code, code1: Code, code2: Code, cur2: nat, from: Pos, last: Pos, params: seq<VarId>,
                      body: Stmt)
    requires code0 == [[], []] && Kept(code0, 0, code1) && Kept(code1, 0, code2) && Moved(code1, 0, cur2) &&
             cur2 < |code2|
    requires BindsAll(code1, params) && from == Pos(0, |params|) && WellNested(body, false)
    requires Executes(code2, from, last, None, body) && last == Pos(cur2, |code2[cur2]|)
    ensures cur2 != 1 && Means(Emitted(code2, cur2, [JumpTo(1)]), params, body)
  {
    var code3 := Emitted(code2, cur2, [JumpTo(1)]);
    KeptEmit(code2, cur2, [JumpTo(1)]);
    OneInstr(code3, cur2, |code2[cur2]|, [JumpTo(1)]);
    EmptyStill(code0, 0, code1, 1);
    EmptyStill(code1, 0, code2, 1);
    EmptyStill(code2, cur2, code3, 1);
    KeptExtends(code1, 0, code2);
    KeptExtends(code2, cur2, code3);
    hide Kept, Emitted, InstrAt, Means, BindsAll, Executes;
    BindsLater(code1, code2, params);
    BindsLater(code2, code3, params);
    ExecutesLater(code2, code3, from, last, None, body);
    FunctionMeans(code3, params, body, last);
  }

  lemma BindsLater(code: Code, code': Code, params: seq<VarId>)
    requires BindsAll(code, params) && Extends(code, code')
    ensures BindsAll(code', params)
  {
    forall k: nat | k < |params| ensures InstrAt(code', Pos(0, k), BindOf(params[k], k)) {
      InstrStays(code, code', Pos(0, k), BindOf(params[k], k));
    }
    hide InstrAt, Extends;
  }
}
