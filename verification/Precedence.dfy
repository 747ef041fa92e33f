/** Precedence climbing: the binary, prefix and assignment expressions of the parser. */
module Precedence {
  import opened IdomTree

  datatype TokenKind =
    | Identifier | IntegerLiteral | LParen | RParen | Eq | Bang | Tilde
    | PipePipe | AmpAmp | Pipe | Caret | Ampersand | EqEq | BangEq | Less | LessEq | Greater | GreaterEq
    | Shl | Shr | Plus | Minus | Star | Slash | Percent
    | Semicolon | Eof

  datatype Token = Token(kind: TokenKind, lexeme: string)

  datatype BinaryOp =
    | LogicalOr | LogicalAnd | BitOr | BitXor | BitAnd | Equal | NotEqual | Lt | Lte | Gt | Gte
    | ShiftLeft | ShiftRight | Add | Sub | Mul | Div | Mod | Assignment

  datatype UnaryOp = Neg | Not | BitNot | Deref | AddressOf

  datatype Expr =
    | Leaf(token: Token)
    | Unary(unary: UnaryOp, operand: Expr)
    | Binary(binary: BinaryOp, lhs: Expr, rhs: Expr)

  /** Which operator a token denotes between two operands, and how tightly it binds. */
  function BinaryOf(kind: TokenKind): Option<(BinaryOp, nat)> {
    match kind
    case PipePipe => Some((LogicalOr, 1))
    case AmpAmp => Some((LogicalAnd, 2))
    case Pipe => Some((BitOr, 3))
    case Caret => Some((BitXor, 4))
    case Ampersand => Some((BitAnd, 5))
    case EqEq => Some((Equal, 6))
    case BangEq => Some((NotEqual, 6))
    case Less => Some((Lt, 7))
    case LessEq => Some((Lte, 7))
    case Greater => Some((Gt, 7))
    case GreaterEq => Some((Gte, 7))
    case Shl => Some((ShiftLeft, 8))
    case Shr => Some((ShiftRight, 8))
    case Plus => Some((Add, 9))
    case Minus => Some((Sub, 9))
    case Star => Some((Mul, 10))
    case Slash => Some((Div, 10))
    case Percent => Some((Mod, 10))
    case _ => None
  }

  const LOWEST_PRECEDENCE := 1

  function PrefixOf(kind: TokenKind): Option<UnaryOp> {
    match kind
    case Minus => Some(Neg)
    case Bang => Some(Not)
    case Tilde => Some(BitNot)
    case Star => Some(Deref)
    case Ampersand => Some(AddressOf)
    case _ => None
  }

  predicate IsAtom(kind: TokenKind) {
    kind == Identifier || kind == IntegerLiteral
  }

  // ---- what was written ----

  /** An expression as written, parentheses included. */
  datatype Written =
    | Atom(token: Token)
    | Group(open: Token, inner: Written, close: Token)
    | Prefix(op: Token, operand: Written)
    | Infix(left: Written, op: Token, right: Written)
    | Assign(target: Written, eq: Token, value: Written)

  function Flatten(t: Written): (r: seq<Token>)
    ensures |r| > 0
    decreases t
  {
    match t
    case Atom(token) => [token]
    case Group(open, inner, close) => [open] + Flatten(inner) + [close]
    case Prefix(op, operand) => [op] + Flatten(operand)
    case Infix(left, op, right) => Flatten(left) + [op] + Flatten(right)
    case Assign(target, eq, value) => Flatten(target) + [eq] + Flatten(value)
  }

  /** How tightly a token binds as a binary operator, 0 when it is none. */
  function Binding(token: Token): nat {
    var op := BinaryOf(token.kind);
    if op.Some? then op.value.1 else 0
  }

  /** No binary operator outside parentheses binds less tightly than `min`; left operands bind at least as tightly
      as their operator and right operands more tightly. */
  predicate Fits(t: Written, min: nat)
    decreases t, 0
  {
    match t
    case Atom(token) => IsAtom(token.kind)
    case Group(open, inner, close) => open.kind == LParen && FitsExpr(inner) && close.kind == RParen
    case Prefix(op, operand) => PrefixOf(op.kind).Some? && !operand.Infix? && Fits(operand, min)
    case Infix(left, op, right) =>
      Binding(op) > 0 && min <= Binding(op) && Fits(left, Binding(op)) && Fits(right, Binding(op) + 1)
    case Assign(_, _, _) => false
  }

  /** An assignment, which groups to the right, or an expression without one. */
  predicate FitsExpr(t: Written)
    decreases t, 1
  {
    if t.Assign? then Fits(t.target, LOWEST_PRECEDENCE) && t.eq.kind == Eq && FitsExpr(t.value)
    else Fits(t, LOWEST_PRECEDENCE)
  }

  predicate FitsUnary(t: Written) {
    !t.Infix? && Fits(t, LOWEST_PRECEDENCE)
  }

  /** The tree the parser builds: parentheses only guide it. */
  function Strip(t: Written): Expr
    decreases t
  {
    match t
    case Atom(token) => Leaf(token)
    case Group(_, inner, _) => Strip(inner)
    case Prefix(op, operand) =>
      var unary := PrefixOf(op.kind);
      if unary.Some? then Unary(unary.value, Strip(operand)) else Leaf(op)
    case Infix(left, op, right) =>
      var binary := BinaryOf(op.kind);
      if binary.Some? then Binary(binary.value.0, Strip(left), Strip(right)) else Leaf(op)
    case Assign(target, _, value) => Binary(Assignment, Strip(target), Strip(value))
  }

  /** Without an infix operator on top the level does not matter. */
  lemma {:induction false} FitsAnyLevel(t: Written, min: nat, other: nat)
    requires Fits(t, min) && !t.Infix?
    ensures Fits(t, other)
    decreases t
  {
    if t.Prefix? {
      FitsAnyLevel(t.operand, min, other);
    }
  }

  // ---- the grammar of the standard ----

  /** The section of C11 that introduces a binary operator: 6.5.5 for the multiplicative ones up to 6.5.14. */
  function Section(op: BinaryOp): nat {
    match op
    case Mul => 5
    case Div => 5
    case Mod => 5
    case Add => 6
    case Sub => 6
    case ShiftLeft => 7
    case ShiftRight => 7
    case Lt => 8
    case Gt => 8
    case Lte => 8
    case Gte => 8
    case Equal => 9
    case NotEqual => 9
    case BitAnd => 10
    case BitXor => 11
    case BitOr => 12
    case LogicalAnd => 13
    case LogicalOr => 14
    case Assignment => 16
  }

  /** The punctuator the production of a binary operator is written with. */
  function Terminal(op: BinaryOp): TokenKind {
    match op
    case Mul => Star
    case Div => Slash
    case Mod => Percent
    case Add => Plus
    case Sub => Minus
    case ShiftLeft => Shl
    case ShiftRight => Shr
    case Lt => Less
    case Gt => Greater
    case Lte => LessEq
    case Gte => GreaterEq
    case Equal => EqEq
    case NotEqual => BangEq
    case BitAnd => Ampersand
    case BitXor => Caret
    case BitOr => Pipe
    case LogicalAnd => AmpAmp
    case LogicalOr => PipePipe
    case Assignment => Eq
  }

  /** The punctuator of a prefix operator in section 6.5.3. */
  function PrefixTerminal(op: UnaryOp): TokenKind {
    match op
    case AddressOf => Ampersand
    case Deref => Star
    case Neg => Minus
    case BitNot => Tilde
    case Not => Bang
  }

  /** What is written derives `e` from the production of section 6.5.`section`: what the section before derives, or a
      left operand of this section, the punctuator of one of its operators, which is the operator of `e`, and a right
      operand of the section before.  Section 4 stands for what binds tighter than every binary operator. */
  predicate Derives(section: nat, t: Written, e: Expr)
    decreases t, section + 1
  {
    if section <= 4 then DerivesUnary(t, e)
    else
      || Derives(section - 1, t, e)
      || (t.Infix? && e.Binary? && Section(e.binary) == section && t.op.kind == Terminal(e.binary)
          && Derives(section, t.left, e.lhs) && Derives(section - 1, t.right, e.rhs))
  }

  predicate DerivesUnary(t: Written, e: Expr)
    decreases t, 0
  {
    match t
    case Atom(token) => IsAtom(token.kind) && e == Leaf(token)
    case Group(open, inner, close) => open.kind == LParen && DerivesExpr(inner, e) && close.kind == RParen
    case Prefix(op, operand) => e.Unary? && op.kind == PrefixTerminal(e.unary) && DerivesUnary(operand, e.operand)
    case _ => false
  }

  predicate DerivesExpr(t: Written, e: Expr)
    decreases t, 20
  {
    || Derives(14, t, e)
    || (t.Assign? && e.Binary? && Section(e.binary) == 16 && t.eq.kind == Terminal(e.binary)
        && Derives(14, t.target, e.lhs) && DerivesExpr(t.value, e.rhs))
  }

  /** A token denotes the binary operator it is the punctuator of, and binds as its section says. */
  lemma BindingIsSection(kind: TokenKind, op: BinaryOp, binding: nat)
    ensures BinaryOf(kind) == Some((op, binding)) <==>
            op != Assignment && Terminal(op) == kind && binding + Section(op) == 15
    ensures BinaryOf(kind) == Some((op, binding)) ==> 1 <= binding <= 10
  {
  }

  lemma PrefixIsTerminal(kind: TokenKind, op: UnaryOp)
    ensures PrefixOf(kind) == Some(op) <==> PrefixTerminal(op) == kind
  {
  }

  lemma SectionsAre(op: BinaryOp)
    ensures op != Assignment <==> 5 <= Section(op) <= 14
    ensures op == Assignment <==> Section(op) == 16
  {
  }

  /** The levels of the climbing parser are the sections of the standard, counted backwards, and its tree is the one
      derived. */
  lemma {:induction false} GrammarIsPrecedence(t: Written, e: Expr, min: nat)
    requires 1 <= min <= 11
    ensures Fits(t, min) && e == Strip(t) <==> Derives(15 - min, t, e)
    decreases t, 15 - min
  {
    hide BinaryOf, Section, Terminal, PrefixOf, PrefixTerminal;
    var section := 15 - min;
    if section > 4 {
      GrammarIsPrecedence(t, e, min + 1);
      if t.Infix? {
        InfixIsPrecedence(t, e, min);
      } else {
        LevelFree(t, min, min + 1);
      }
    } else {
      UnaryIsPrecedence(t, e);
    }
  }

  lemma {:induction false} InfixIsPrecedence(t: Written, e: Expr, min: nat)
    requires 1 <= min <= 10 && t.Infix?
    requires Fits(t, min + 1) && e == Strip(t) <==> Derives(14 - min, t, e)
    ensures Fits(t, min) && e == Strip(t) <==> Derives(15 - min, t, e)
    decreases t, 0
  {
    hide BinaryOf, Section, Terminal, PrefixOf, PrefixTerminal;
    if e.Binary? {
      SectionsAre(e.binary);
      BindingIsSection(t.op.kind, e.binary, min);
      GrammarIsPrecedence(t.left, e.lhs, min);
      GrammarIsPrecedence(t.right, e.rhs, min + 1);
    }
  }

  lemma LevelFree(t: Written, min: nat, other: nat)
    requires !t.Infix?
    ensures Fits(t, min) <==> Fits(t, other)
  {
    if Fits(t, min) {
      FitsAnyLevel(t, min, other);
    }
    if Fits(t, other) {
      FitsAnyLevel(t, other, min);
    }
  }

  lemma {:induction false} UnaryIsPrecedence(t: Written, e: Expr)
    ensures Fits(t, 11) && e == Strip(t) <==> DerivesUnary(t, e)
    decreases t, 0
  {
    hide BinaryOf, Section, Terminal, PrefixOf, PrefixTerminal;
    match t
    case Atom(_) =>
    case Group(_, inner, _) => ExprIsPrecedence(inner, e);
    case Prefix(op, operand) =>
      if operand.Infix? {
        PrefixNeverInfix(operand);
      }
      if e.Unary? {
        PrefixIsTerminal(op.kind, e.unary);
        UnaryIsPrecedence(operand, e.operand);
      }
    case Infix(_, op, _) => BindsUpToTen(op);
    case Assign(_, _, _) =>
  }

  lemma BindsUpToTen(op: Token)
    ensures Binding(op) <= 10
  {
  }

  lemma PrefixNeverInfix(operand: Written)
    requires operand.Infix?
    ensures !Fits(operand, 11)
  {
    BindsUpToTen(operand.op);
  }

  lemma {:induction false} ExprIsPrecedence(t: Written, e: Expr)
    ensures FitsExpr(t) && e == Strip(t) <==> DerivesExpr(t, e)
    decreases t, 20
  {
    hide BinaryOf, Section, Terminal, PrefixOf, PrefixTerminal;
    GrammarIsPrecedence(t, e, 1);
    if t.Assign? {
      AssignmentTerminal();
      if e.Binary? {
        SectionsAre(e.binary);
        GrammarIsPrecedence(t.target, e.lhs, 1);
        ExprIsPrecedence(t.value, e.rhs);
      }
      NoAssignment(t, e, 14);
    }
  }

  lemma AssignmentTerminal()
    ensures Terminal(Assignment) == Eq
  {
  }

  lemma {:induction false} NoAssignment(t: Written, e: Expr, section: nat)
    requires t.Assign?
    ensures !Derives(section, t, e)
    decreases section
  {
    if section > 4 {
      NoAssignment(t, e, section - 1);
    }
  }

  // ---- what an expression spells ----

  /** A name or literal, or a punctuator. */
  datatype Symbol = Word(token: Token) | Mark(kind: TokenKind)

  /** An expression written out in order, without parentheses. */
  function Spelled(e: Expr): seq<Symbol>
    decreases e
  {
    match e
    case Leaf(token) => [Word(token)]
    case Unary(op, operand) => [Mark(PrefixTerminal(op))] + Spelled(operand)
    case Binary(op, lhs, rhs) => Spelled(lhs) + [Mark(Terminal(op))] + Spelled(rhs)
  }

  function SymbolOf(token: Token): seq<Symbol> {
    if IsAtom(token.kind) then [Word(token)]
    else if token.kind == LParen || token.kind == RParen then []
    else [Mark(token.kind)]
  }

  /** Tokens without their parentheses. */
  function Symbols(tokens: seq<Token>): seq<Symbol>
    decreases |tokens|
  {
    if tokens == [] then [] else SymbolOf(tokens[0]) + Symbols(tokens[1..])
  }

  lemma {:induction false} SymbolsConcat(a: seq<Token>, b: seq<Token>)
    ensures Symbols(a + b) == Symbols(a) + Symbols(b)
    decreases |a|
  {
    if a == [] {
      assert a + b == b;
    } else {
      assert (a + b)[1..] == a[1..] + b;
      SymbolsConcat(a[1..], b);
    }
  }

  lemma SymbolsOne(token: Token)
    ensures Symbols([token]) == SymbolOf(token)
  {
    assert [token][1..] == [];
  }

  lemma MarkOf(kind: TokenKind, lexeme: string)
    requires BinaryOf(kind).Some? || PrefixOf(kind).Some? || kind == Eq
    ensures SymbolOf(Token(kind, lexeme)) == [Mark(kind)]
  {
  }

  lemma SymbolsBetween(left: seq<Token>, op: Token, right: seq<Token>)
    ensures Symbols(left + [op] + right) == Symbols(left) + SymbolOf(op) + Symbols(right)
  {
    SymbolsConcat(left + [op], right);
    SymbolsConcat(left, [op]);
    SymbolsOne(op);
  }

  /** An expression derived from what is written spells it, but for the parentheses. */
  lemma {:induction false} FitsSpelled(t: Written, min: nat)
    requires Fits(t, min)
    ensures Symbols(Flatten(t)) == Spelled(Strip(t))
    decreases t, 0
  {
    hide BinaryOf, Terminal, PrefixOf, PrefixTerminal, SymbolOf, Symbols;
    match t
    case Atom(token) =>
      SymbolsOne(token);
      AtomSymbol(token);
    case Group(open, inner, close) =>
      ExprSpelled(inner);
      SymbolsBetween([open] + Flatten(inner), close, []);
      assert [open] + Flatten(inner) + [close] + [] == Flatten(t);
      SymbolsBetween([], open, Flatten(inner));
      assert [] + [open] + Flatten(inner) == [open] + Flatten(inner);
      NoSymbols(open, close);
    case Prefix(op, operand) =>
      FitsSpelled(operand, min);
      SymbolsBetween([], op, Flatten(operand));
      assert [] + [op] + Flatten(operand) == Flatten(t);
      MarkOf(op.kind, op.lexeme);
      PrefixIsTerminal(op.kind, PrefixOf(op.kind).value);
      NoneIsEmpty();
    case Infix(left, op, right) =>
      FitsSpelled(left, Binding(op));
      FitsSpelled(right, Binding(op) + 1);
      SymbolsBetween(Flatten(left), op, Flatten(right));
      MarkOf(op.kind, op.lexeme);
      BindingIsSection(op.kind, BinaryOf(op.kind).value.0, BinaryOf(op.kind).value.1);
  }

  lemma NoneIsEmpty()
    ensures Symbols([]) == []
  {
  }

  lemma AtomSymbol(token: Token)
    requires IsAtom(token.kind)
    ensures SymbolOf(token) == [Word(token)]
  {
  }

  lemma NoSymbols(open: Token, close: Token)
    requires open.kind == LParen && close.kind == RParen
    ensures SymbolOf(open) == [] && SymbolOf(close) == [] && Symbols([]) == []
  {
  }

  lemma {:induction false} ExprSpelled(t: Written)
    requires FitsExpr(t)
    ensures Symbols(Flatten(t)) == Spelled(Strip(t))
    decreases t, 1
  {
    hide BinaryOf, Terminal, PrefixOf, PrefixTerminal, SymbolOf, Symbols;
    if t.Assign? {
      FitsSpelled(t.target, LOWEST_PRECEDENCE);
      ExprSpelled(t.value);
      SymbolsBetween(Flatten(t.target), t.eq, Flatten(t.value));
      MarkOf(t.eq.kind, t.eq.lexeme);
      AssignmentTerminal();
    } else {
      FitsSpelled(t, LOWEST_PRECEDENCE);
    }
  }

  // ---- reading tokens ----

  function KindAt(tokens: seq<Token>, p: nat): TokenKind {
    if p < |tokens| then tokens[p].kind else Eof
  }

  function BindingAt(tokens: seq<Token>, p: nat): nat {
    if p < |tokens| then Binding(tokens[p]) else 0
  }

  /** The tokens from `p` on begin with those of `t`. */
  ghost predicate Reads(tokens: seq<Token>, p: nat, t: Written) {
    p + |Flatten(t)| <= |tokens| && tokens[p..p + |Flatten(t)|] == Flatten(t)
  }

  ghost function After(p: nat, t: Written): nat {
    p + |Flatten(t)|
  }

  ghost predicate ReadsUnary(tokens: seq<Token>, p: nat, t: Written) {
    FitsUnary(t) && Reads(tokens, p, t)
  }

  /** ... and no operator binding at least `min` follows. */
  ghost predicate ReadsBinary(tokens: seq<Token>, p: nat, min: nat, t: Written) {
    Fits(t, min) && Reads(tokens, p, t) && BindingAt(tokens, After(p, t)) < min
  }

  /** ... and neither a binary operator nor an assignment follows. */
  ghost predicate ReadsExpr(tokens: seq<Token>, p: nat, t: Written) {
    FitsExpr(t) && Reads(tokens, p, t) && BindingAt(tokens, After(p, t)) < 1 && KindAt(tokens, After(p, t)) != Eq
  }

  lemma ReadsConcat(tokens: seq<Token>, p: nat, a: seq<Token>, b: seq<Token>)
    ensures p + |a + b| <= |tokens| && tokens[p..p + |a + b|] == a + b <==>
      && p + |a| + |b| <= |tokens| && tokens[p..p + |a|] == a && tokens[p + |a|..p + |a| + |b|] == b
  {
    if p + |a| + |b| <= |tokens| {
      var all := tokens[p..p + |a + b|];
      assert all == tokens[p..p + |a|] + tokens[p + |a|..p + |a| + |b|];
      assert all[..|a|] == tokens[p..p + |a|] && all[|a|..] == tokens[p + |a|..p + |a| + |b|];
      assert (a + b)[..|a|] == a && (a + b)[|a|..] == b;
    }
  }

  lemma ReadsToken(tokens: seq<Token>, p: nat, token: Token)
    ensures p + |[token]| <= |tokens| && tokens[p..p + |[token]|] == [token] <==> p < |tokens| && tokens[p] == token
  {
    if p < |tokens| {
      assert tokens[p..p + 1] == [tokens[p]];
    }
  }

  lemma ReadsInfix(tokens: seq<Token>, p: nat, left: Written, op: Token, right: Written)
    ensures Reads(tokens, p, Infix(left, op, right)) <==>
      && Reads(tokens, p, left) && After(p, left) < |tokens| && tokens[After(p, left)] == op
      && Reads(tokens, After(p, left) + 1, right)
    ensures After(p, Infix(left, op, right)) == After(After(p, left) + 1, right)
  {
    ReadsConcat(tokens, p, Flatten(left) + [op], Flatten(right));
    ReadsConcat(tokens, p, Flatten(left), [op]);
    ReadsToken(tokens, After(p, left), op);
  }

  lemma ReadsAssign(tokens: seq<Token>, p: nat, target: Written, eq: Token, value: Written)
    ensures Reads(tokens, p, Assign(target, eq, value)) <==>
      && Reads(tokens, p, target) && After(p, target) < |tokens| && tokens[After(p, target)] == eq
      && Reads(tokens, After(p, target) + 1, value)
    ensures After(p, Assign(target, eq, value)) == After(After(p, target) + 1, value)
  {
    ReadsConcat(tokens, p, Flatten(target) + [eq], Flatten(value));
    ReadsConcat(tokens, p, Flatten(target), [eq]);
    ReadsToken(tokens, After(p, target), eq);
  }

  lemma ReadsPrefix(tokens: seq<Token>, p: nat, op: Token, operand: Written)
    ensures Reads(tokens, p, Prefix(op, operand)) <==> p < |tokens| && tokens[p] == op && Reads(tokens, p + 1, operand)
    ensures After(p, Prefix(op, operand)) == After(p + 1, operand)
  {
    ReadsConcat(tokens, p, [op], Flatten(operand));
    ReadsToken(tokens, p, op);
  }

  lemma ReadsGroup(tokens: seq<Token>, p: nat, open: Token, inner: Written, close: Token)
    ensures Reads(tokens, p, Group(open, inner, close)) <==>
      && p < |tokens| && tokens[p] == open && Reads(tokens, p + 1, inner)
      && After(p + 1, inner) < |tokens| && tokens[After(p + 1, inner)] == close
    ensures After(p, Group(open, inner, close)) == After(p + 1, inner) + 1
  {
    ReadsConcat(tokens, p, [open] + Flatten(inner), [close]);
    ReadsConcat(tokens, p, [open], Flatten(inner));
    ReadsToken(tokens, p, open);
    ReadsToken(tokens, After(p + 1, inner), close);
  }

  lemma ReadsAtom(tokens: seq<Token>, p: nat, token: Token)
    ensures Reads(tokens, p, Atom(token)) <==> p < |tokens| && tokens[p] == token
    ensures After(p, Atom(token)) == p + 1
  {
    ReadsToken(tokens, p, token);
  }

  // ---- climbing ----

  /** `s` is `t` or its left operand, or the left operand of that, and so on. */
  predicate OnSpine(s: Written, t: Written)
    decreases t
  {
    s == t || (t.Infix? && OnSpine(s, t.left))
  }

  ghost function Leftmost(t: Written): Written
    decreases t
  {
    if t.Infix? then Leftmost(t.left) else t
  }

  lemma {:induction false} LeftmostIsUnary(tokens: seq<Token>, p: nat, min: nat, t: Written)
    requires Fits(t, min) && Reads(tokens, p, t)
    ensures ReadsUnary(tokens, p, Leftmost(t)) && OnSpine(Leftmost(t), t)
    decreases t
  {
    if t.Infix? {
      ReadsInfix(tokens, p, t.left, t.op, t.right);
      LeftmostIsUnary(tokens, p, Binding(t.op), t.left);
    } else {
      FitsAnyLevel(t, min, LOWEST_PRECEDENCE);
    }
  }

  /** Where a tree goes on beyond a part of its spine: an operator, and a right operand that ends where nothing
      binding tighter than that operator follows. */
  lemma {:induction false} GoesOn(tokens: seq<Token>, p: nat, min: nat, t: Written, s: Written)
    returns (parent: Written)
    requires Fits(t, min) && Reads(tokens, p, t) && BindingAt(tokens, After(p, t)) < min + 1
    requires OnSpine(s, t) && s != t
    ensures parent.Infix? && parent.left == s && OnSpine(parent, t)
    ensures Reads(tokens, p, s) && After(p, s) < |tokens| && parent.op == tokens[After(p, s)]
    ensures Binding(parent.op) >= min && Binding(parent.op) > 0
    ensures ReadsBinary(tokens, After(p, s) + 1, Binding(parent.op) + 1, parent.right)
    ensures |Flatten(parent.right)| < |Flatten(t)| && |Flatten(s)| < |Flatten(parent)| <= |Flatten(t)|
    decreases t
  {
    hide Reads, Flatten, BinaryOf;
    ReadsInfix(tokens, p, t.left, t.op, t.right);
    InfixLength(t.left, t.op, t.right);
    if s == t.left {
      parent := t;
    } else {
      parent := GoesOn(tokens, p, Binding(t.op), t.left, s);
    }
  }

  lemma InfixLength(left: Written, op: Token, right: Written)
    ensures |Flatten(Infix(left, op, right))| == |Flatten(left)| + 1 + |Flatten(right)|
  {
  }

  /** Tokens can be read as a unary expression in one way only, ... */
  lemma {:induction false} OneUnary(tokens: seq<Token>, p: nat, t: Written, u: Written)
    requires ReadsUnary(tokens, p, t) && ReadsUnary(tokens, p, u)
    ensures t == u
    decreases |Flatten(t)|, 0
  {
    match t
    case Atom(token) =>
      ReadsAtom(tokens, p, token);
      OneAtom(tokens, p, token, u);
    case Group(open, inner, close) =>
      ReadsGroup(tokens, p, open, inner, close);
      GroupStarts(tokens, p, u);
      ReadsGroup(tokens, p, u.open, u.inner, u.close);
      OneExpr(tokens, p + 1, inner, u.inner);
    case Prefix(op, operand) =>
      ReadsPrefix(tokens, p, op, operand);
      PrefixStarts(tokens, p, u);
      ReadsPrefix(tokens, p, u.op, u.operand);
      OneUnary(tokens, p + 1, operand, u.operand);
  }

  lemma OneAtom(tokens: seq<Token>, p: nat, token: Token, u: Written)
    requires ReadsUnary(tokens, p, u) && p < |tokens| && tokens[p] == token && IsAtom(token.kind)
    ensures u == Atom(token)
  {
    match u
    case Atom(other) => ReadsAtom(tokens, p, other);
    case Group(open, inner, close) => ReadsGroup(tokens, p, open, inner, close);
    case Prefix(op, operand) => ReadsPrefix(tokens, p, op, operand);
  }

  lemma GroupStarts(tokens: seq<Token>, p: nat, u: Written)
    requires ReadsUnary(tokens, p, u) && KindAt(tokens, p) == LParen
    ensures u.Group?
  {
    match u
    case Atom(other) => ReadsAtom(tokens, p, other);
    case Group(_, _, _) =>
    case Prefix(op, operand) => ReadsPrefix(tokens, p, op, operand);
  }

  lemma PrefixStarts(tokens: seq<Token>, p: nat, u: Written)
    requires ReadsUnary(tokens, p, u) && PrefixOf(KindAt(tokens, p)).Some?
    ensures u.Prefix?
  {
    match u
    case Atom(other) => ReadsAtom(tokens, p, other);
    case Group(open, inner, close) => ReadsGroup(tokens, p, open, inner, close);
    case Prefix(_, _) =>
  }

  /** ... as a binary expression of a level in one way only, ... */
  lemma {:induction false} OneBinary(tokens: seq<Token>, p: nat, min: nat, t: Written, u: Written)
    requires ReadsBinary(tokens, p, min, t) && ReadsBinary(tokens, p, min, u)
    ensures t == u
    decreases |Flatten(t)|, 1, 0
  {
    LeftmostIsUnary(tokens, p, min, t);
    LeftmostIsUnary(tokens, p, min, u);
    LeftmostShort(t);
    OneUnary(tokens, p, Leftmost(t), Leftmost(u));
    ClimbTogether(tokens, p, min, t, u, Leftmost(t));
  }

  lemma {:induction false} LeftmostShort(t: Written)
    ensures |Flatten(Leftmost(t))| <= |Flatten(t)|
    decreases t
  {
    if t.Infix? {
      LeftmostShort(t.left);
    }
  }

  lemma {:induction false} ClimbTogether(tokens: seq<Token>, p: nat, min: nat, t: Written, u: Written, s: Written)
    requires ReadsBinary(tokens, p, min, t) && ReadsBinary(tokens, p, min, u) && OnSpine(s, t) && OnSpine(s, u)
    ensures t == u
    decreases |Flatten(t)|, 0, |Flatten(t)| - |Flatten(s)|
  {
    hide Fits, Reads, Flatten, OnSpine, BinaryOf;
    if s != t && s != u {
      var a := GoesOn(tokens, p, min, t, s);
      var b := GoesOn(tokens, p, min, u, s);
      OneBinary(tokens, After(p, s) + 1, Binding(a.op) + 1, a.right, b.right);
      assert a == b;
      ClimbTogether(tokens, p, min, t, u, a);
    } else if s != t {
      var a := GoesOn(tokens, p, min, t, s);
    } else if s != u {
      var b := GoesOn(tokens, p, min, u, s);
    }
  }

  /** ... and as an expression in one way only. */
  lemma {:induction false} OneExpr(tokens: seq<Token>, p: nat, t: Written, u: Written)
    requires ReadsExpr(tokens, p, t) && ReadsExpr(tokens, p, u)
    ensures t == u
    decreases |Flatten(t)|, 2
  {
    hide ReadsBinary, ReadsExpr, Flatten, After, KindAt;
    var a, b := TargetOf(t), TargetOf(u);
    TargetReads(tokens, p, t);
    TargetReads(tokens, p, u);
    OneBinary(tokens, p, LOWEST_PRECEDENCE, a, b);
    if t.Assign? && u.Assign? {
      ValueReads(tokens, p, t);
      ValueReads(tokens, p, u);
      OneExpr(tokens, After(p, a) + 1, t.value, u.value);
    }
  }

  lemma ValueReads(tokens: seq<Token>, p: nat, t: Written)
    requires ReadsExpr(tokens, p, t) && t.Assign?
    ensures After(p, t.target) < |tokens| && tokens[After(p, t.target)] == t.eq
    ensures ReadsExpr(tokens, After(p, t.target) + 1, t.value) && |Flatten(t.value)| < |Flatten(t)|
  {
    ReadsAssign(tokens, p, t.target, t.eq, t.value);
    hide Fits, Reads;
  }

  function TargetOf(t: Written): Written {
    if t.Assign? then t.target else t
  }

  lemma TargetReads(tokens: seq<Token>, p: nat, t: Written)
    requires ReadsExpr(tokens, p, t)
    ensures ReadsBinary(tokens, p, LOWEST_PRECEDENCE, TargetOf(t)) && |Flatten(TargetOf(t))| <= |Flatten(t)|
    ensures t.Assign? <==> KindAt(tokens, After(p, TargetOf(t))) == Eq
  {
    if t.Assign? {
      ReadsAssign(tokens, p, t.target, t.eq, t.value);
    }
  }

  // ---- what is read is what the grammar derives ----

  /** `e` is written from `p` up to `q`, but for parentheses. */
  ghost predicate SpelledAt(tokens: seq<Token>, p: nat, q: nat, e: Expr) {
    p <= q <= |tokens| && Spelled(e) == Symbols(tokens[p..q])
  }

  lemma ReadsTokens(tokens: seq<Token>, p: nat, t: Written)
    requires Reads(tokens, p, t)
    ensures p <= After(p, t) <= |tokens| && tokens[p..After(p, t)] == Flatten(t)
  {
  }

  lemma ExprDerived(tokens: seq<Token>, p: nat, t: Written)
    requires ReadsExpr(tokens, p, t)
    ensures DerivesExpr(t, Strip(t)) && SpelledAt(tokens, p, After(p, t), Strip(t))
  {
    hide FitsExpr, DerivesExpr, Strip, Flatten, Spelled, Symbols, Reads;
    ReadsTokens(tokens, p, t);
    ExprIsPrecedence(t, Strip(t));
    ExprSpelled(t);
  }

  lemma BinaryDerived(tokens: seq<Token>, p: nat, min: nat, t: Written)
    requires ReadsBinary(tokens, p, min, t)
    ensures 1 <= min <= 11 ==> Derives(15 - min, t, Strip(t))
    ensures SpelledAt(tokens, p, After(p, t), Strip(t))
  {
    hide Fits, Derives, Strip, Flatten, Spelled, Symbols, Reads;
    ReadsTokens(tokens, p, t);
    if 1 <= min <= 11 {
      GrammarIsPrecedence(t, Strip(t), min);
    }
    FitsSpelled(t, min);
  }

  lemma UnaryDerived(tokens: seq<Token>, p: nat, t: Written)
    requires ReadsUnary(tokens, p, t)
    ensures DerivesUnary(t, Strip(t)) && SpelledAt(tokens, p, After(p, t), Strip(t))
  {
    hide Fits, DerivesUnary, Strip, Flatten, Spelled, Symbols, Reads;
    FitsAnyLevel(t, LOWEST_PRECEDENCE, 11);
    ReadsTokens(tokens, p, t);
    UnaryIsPrecedence(t, Strip(t));
    FitsSpelled(t, LOWEST_PRECEDENCE);
  }

  // ---- the parser ----

  class Parser {
    const tokens: seq<Token>
    var pos: nat

    constructor (tokens: seq<Token>)
      ensures this.tokens == tokens && pos == 0
    {
      this.tokens := tokens;
      pos := 0;
    }

    /** An assignment, or an expression without one.  What is returned is the only way to read the tokens, and
        nothing is returned only if there is none. */
    method ParseExpr() returns (result: Option<Expr>, ghost tree: Written)
      requires pos <= |tokens|
      modifies this`pos
      ensures old(pos) <= pos <= |tokens|
      ensures result.Some? ==>
                ReadsExpr(tokens, old(pos), tree) && pos == After(old(pos), tree) && result.value == Strip(tree)
      ensures result.Some? ==>
                DerivesExpr(tree, result.value) && SpelledAt(tokens, old(pos), pos, result.value)
      ensures forall t: Written {:trigger ReadsExpr(tokens, old(pos), t)} :: ReadsExpr(tokens, old(pos), t) ==>
                result.Some? && t == tree
      decreases |tokens| - pos, 3
    {
      hide Fits, FitsExpr, Flatten, Reads, DerivesExpr, SpelledAt, Derives;
      ghost var start := pos;
      var target;
      target, tree := ParseBinaryExpr(LOWEST_PRECEDENCE);
      forall t: Written | ReadsExpr(tokens, start, t)
        ensures ReadsBinary(tokens, start, LOWEST_PRECEDENCE, TargetOf(t)) &&
                (t.Assign? <==> KindAt(tokens, After(start, TargetOf(t))) == Eq)
      {
        TargetReads(tokens, start, t);
      }
      if target.None? {
        return None, tree;
      }
      if KindAt(tokens, pos) != Eq {
        WholeExpr(tokens, start, tree);
        ExprDerived(tokens, start, tree);
        return target, tree;
      }
      ghost var eq := tokens[pos];
      pos := pos + 1;
      var value;
      ghost var rest;
      value, rest := ParseExpr();
      forall t: Written | ReadsExpr(tokens, start, t)
        ensures t.Assign? && t == Assign(tree, eq, t.value) && ReadsExpr(tokens, After(start, tree) + 1, t.value)
      {
        AssignReads(tokens, start, t);
      }
      if value.None? {
        return None, tree;
      }
      WholeAssign(tokens, start, tree, eq, rest);
      ExprDerived(tokens, start, Assign(tree, eq, rest));
      result, tree := Some(Binary(Assignment, target.value, value.value)), Assign(tree, eq, rest);
    }

    /** Succeeds exactly when the tokens here read as an expression whose operators bind with `min` or more, and then
        returns the only one they read as. */
    method ParseBinaryExpr(min: nat) returns (result: Option<Expr>, ghost tree: Written)
      requires pos <= |tokens| && min >= 1
      modifies this`pos
      ensures old(pos) <= pos <= |tokens|
      ensures result.Some? ==>
                pos > old(pos) && ReadsBinary(tokens, old(pos), min, tree) && pos == After(old(pos), tree)
      ensures result.Some? ==> result.value == Strip(tree) && SpelledAt(tokens, old(pos), pos, result.value)
      ensures result.Some? && min <= 11 ==> Derives(15 - min, tree, result.value)
      ensures forall t: Written {:trigger ReadsBinary(tokens, old(pos), min, t)} ::
        ReadsBinary(tokens, old(pos), min, t) ==> result.Some? && t == tree
      decreases |tokens| - pos, 2
    {
      hide Fits, FitsExpr, Flatten, Reads, OnSpine, Strip, Derives, DerivesUnary, SpelledAt;
      ghost var start := pos;
      var lhs;
      lhs, tree := ParseUnary();
      forall t: Written | ReadsBinary(tokens, start, min, t)
        ensures ReadsUnary(tokens, start, Leftmost(t)) && OnSpine(Leftmost(t), t)
      {
        LeftmostIsUnary(tokens, start, min, t);
      }
      if lhs.None? {
        return None, tree;
      }
      StartsClimbing(tokens, start, min, tree);
      result := lhs;
      while BindingAt(tokens, pos) >= min
        invariant start < pos <= |tokens| && pos == After(start, tree)
        invariant Climbing(tokens, start, min, tree)
        invariant result.Some? && result.value == Strip(tree)
        invariant forall t: Written {:trigger ReadsBinary(tokens, start, min, t)} ::
                    ReadsBinary(tokens, start, min, t) ==> OnSpine(tree, t)
        decreases |tokens| - pos
      {
        var token := tokens[pos];
        var op := BinaryOf(token.kind).value;
        pos := pos + 1;
        var rhs;
        ghost var right;
        rhs, right := ParseBinaryExpr(op.1 + 1);
        forall t: Written | ReadsBinary(tokens, start, min, t)
          ensures rhs.Some? && OnSpine(Infix(tree, token, right), t)
        {
          StillOpen(tokens, start, min, t, tree);
          var parent := GoesOn(tokens, start, min, t, tree);
        }
        if rhs.None? {
          return None, tree;
        }
        ClimbOne(tokens, start, min, tree, token, right);
        StripInfix(tree, token, right);
        result, tree := Some(Binary(op.0, result.value, rhs.value)), Infix(tree, token, right);
      }
      forall t: Written | ReadsBinary(tokens, start, min, t) ensures t == tree {
        EndsHere(tokens, start, min, t, tree);
      }
      BinaryDerived(tokens, start, min, tree);
    }

    /** Prefix operators before what needs none. */
    method ParseUnary() returns (result: Option<Expr>, ghost tree: Written)
      requires pos <= |tokens|
      modifies this`pos
      ensures old(pos) <= pos <= |tokens|
      ensures result.Some? ==> pos > old(pos) && ReadsUnary(tokens, old(pos), tree) && pos == After(old(pos), tree)
      ensures result.Some? ==> result.value == Strip(tree)
      ensures result.Some? ==> DerivesUnary(tree, result.value) && SpelledAt(tokens, old(pos), pos, result.value)
      ensures forall t: Written {:trigger ReadsUnary(tokens, old(pos), t)} :: ReadsUnary(tokens, old(pos), t) ==>
                result.Some? && t == tree
      decreases |tokens| - pos, 1
    {
      hide Fits, FitsExpr, Flatten, Reads, Strip, DerivesExpr, DerivesUnary, SpelledAt;
      ghost var start := pos;
      var kind := KindAt(tokens, pos);
      if PrefixOf(kind).Some? {
        var token := tokens[pos];
        pos := pos + 1;
        var operand;
        ghost var sub;
        operand, sub := ParseUnary();
        forall t: Written | ReadsUnary(tokens, start, t)
          ensures t.Prefix? && t == Prefix(token, t.operand) && ReadsUnary(tokens, start + 1, t.operand)
        {
          PrefixReads(tokens, start, t);
        }
        if operand.None? {
          return None, sub;
        }
        WholePrefix(tokens, start, token, sub);
        UnaryDerived(tokens, start, Prefix(token, sub));
        result, tree := Some(Unary(PrefixOf(kind).value, operand.value)), Prefix(token, sub);
      } else {
        forall t: Written | ReadsUnary(tokens, start, t) ensures t.Atom? || t.Group? {
          NoPrefixStarts(tokens, start, t);
        }
        result, tree := ParsePrimary();
      }
    }

    /** Names, literals and parenthesised groups. */
    method ParsePrimary() returns (result: Option<Expr>, ghost tree: Written)
      requires pos <= |tokens|
      modifies this`pos
      ensures old(pos) <= pos <= |tokens|
      ensures result.Some? ==> pos > old(pos) && ReadsUnary(tokens, old(pos), tree) && pos == After(old(pos), tree)
      ensures result.Some? ==> (tree.Atom? || tree.Group?) && result.value == Strip(tree)
      ensures result.Some? ==> DerivesUnary(tree, result.value) && SpelledAt(tokens, old(pos), pos, result.value)
      ensures forall t: Written {:trigger ReadsUnary(tokens, old(pos), t)} ::
        ReadsUnary(tokens, old(pos), t) && (t.Atom? || t.Group?) ==> result.Some? && t == tree
      decreases |tokens| - pos, 0
    {
      hide Fits, FitsExpr, Flatten, Reads, Strip, DerivesExpr, DerivesUnary, SpelledAt, ReadsExpr;
      ghost var start := pos;
      var kind := KindAt(tokens, pos);
      if IsAtom(kind) {
        var token := tokens[pos];
        pos := pos + 1;
        forall t: Written | ReadsUnary(tokens, start, t) ensures t == Atom(token) {
          OneAtom(tokens, start, token, t);
        }
        WholeAtom(tokens, start, token);
        UnaryDerived(tokens, start, Atom(token));
        result, tree := Some(Leaf(token)), Atom(token);
      } else if kind == LParen {
        ghost var open := tokens[pos];
        pos := pos + 1;
        var inner;
        ghost var sub;
        inner, sub := ParseExpr();
        forall t: Written | ReadsUnary(tokens, start, t)
          ensures t.Group? && t == Group(open, t.inner, t.close) && ReadsExpr(tokens, start + 1, t.inner)
          ensures After(start + 1, t.inner) < |tokens| && tokens[After(start + 1, t.inner)] == t.close &&
                  t.close.kind == RParen
        {
          GroupReads(tokens, start, t);
        }
        if inner.None? || KindAt(tokens, pos) != RParen {
          return None, sub;
        }
        WholeGroup(tokens, start, open, sub, tokens[pos]);
        UnaryDerived(tokens, start, Group(open, sub, tokens[pos]));
        result, tree := inner, Group(open, sub, tokens[pos]);
        pos := pos + 1;
      } else {
        forall t: Written | ReadsUnary(tokens, start, t) ensures !t.Atom? && !t.Group? {
          NoPrimaryStarts(tokens, start, t);
        }
        result := None;
        tree := Atom(Token(Eof, ""));
      }
    }
  }

  // ---- the steps of the parser ----

  lemma NoPrefixStarts(tokens: seq<Token>, p: nat, t: Written)
    requires ReadsUnary(tokens, p, t) && PrefixOf(KindAt(tokens, p)).None?
    ensures t.Atom? || t.Group?
  {
    if t.Prefix? {
      ReadsPrefix(tokens, p, t.op, t.operand);
    }
  }

  lemma NoPrimaryStarts(tokens: seq<Token>, p: nat, t: Written)
    requires ReadsUnary(tokens, p, t) && !IsAtom(KindAt(tokens, p)) && KindAt(tokens, p) != LParen
    ensures !t.Atom? && !t.Group?
  {
    match t
    case Atom(token) => ReadsAtom(tokens, p, token);
    case Group(open, inner, close) => ReadsGroup(tokens, p, open, inner, close);
    case Prefix(_, _) =>
  }

  lemma PrefixReads(tokens: seq<Token>, p: nat, t: Written)
    requires ReadsUnary(tokens, p, t) && p < |tokens| && PrefixOf(tokens[p].kind).Some?
    ensures t.Prefix? && t.op == tokens[p] && ReadsUnary(tokens, p + 1, t.operand)
  {
    PrefixStarts(tokens, p, t);
    ReadsPrefix(tokens, p, t.op, t.operand);
  }

  lemma WholePrefix(tokens: seq<Token>, p: nat, op: Token, operand: Written)
    requires p < |tokens| && tokens[p] == op && PrefixOf(op.kind).Some? && ReadsUnary(tokens, p + 1, operand)
    ensures var t := Prefix(op, operand);
            && ReadsUnary(tokens, p, t) && After(p, t) == After(p + 1, operand)
            && Strip(t) == Unary(PrefixOf(op.kind).value, Strip(operand))
  {
    ReadsPrefix(tokens, p, op, operand);
  }

  lemma WholeAtom(tokens: seq<Token>, p: nat, token: Token)
    requires p < |tokens| && tokens[p] == token && IsAtom(token.kind)
    ensures ReadsUnary(tokens, p, Atom(token)) && After(p, Atom(token)) == p + 1
    ensures Strip(Atom(token)) == Leaf(token)
  {
    ReadsAtom(tokens, p, token);
  }

  lemma GroupReads(tokens: seq<Token>, p: nat, t: Written)
    requires ReadsUnary(tokens, p, t) && KindAt(tokens, p) == LParen
    ensures t.Group? && t.open == tokens[p] && ReadsExpr(tokens, p + 1, t.inner)
    ensures After(p + 1, t.inner) < |tokens| && tokens[After(p + 1, t.inner)] == t.close && t.close.kind == RParen
  {
    GroupStarts(tokens, p, t);
    ReadsGroup(tokens, p, t.open, t.inner, t.close);
  }

  lemma WholeGroup(tokens: seq<Token>, p: nat, open: Token, inner: Written, close: Token)
    requires p < |tokens| && tokens[p] == open && open.kind == LParen && ReadsExpr(tokens, p + 1, inner)
    requires After(p + 1, inner) < |tokens| && tokens[After(p + 1, inner)] == close && close.kind == RParen
    ensures var t := Group(open, inner, close);
            && ReadsUnary(tokens, p, t) && After(p, t) == After(p + 1, inner) + 1 && Strip(t) == Strip(inner)
  {
    ReadsGroup(tokens, p, open, inner, close);
  }

  lemma WholeExpr(tokens: seq<Token>, p: nat, t: Written)
    requires ReadsBinary(tokens, p, LOWEST_PRECEDENCE, t) && KindAt(tokens, After(p, t)) != Eq
    ensures ReadsExpr(tokens, p, t)
  {
  }

  lemma AssignReads(tokens: seq<Token>, p: nat, t: Written)
    requires ReadsExpr(tokens, p, t) && KindAt(tokens, After(p, TargetOf(t))) == Eq
    ensures t.Assign? && t.eq == tokens[After(p, t.target)] && ReadsExpr(tokens, After(p, t.target) + 1, t.value)
  {
    TargetReads(tokens, p, t);
    ReadsAssign(tokens, p, t.target, t.eq, t.value);
  }

  lemma WholeAssign(tokens: seq<Token>, p: nat, target: Written, eq: Token, value: Written)
    requires ReadsBinary(tokens, p, LOWEST_PRECEDENCE, target)
    requires After(p, target) < |tokens| && tokens[After(p, target)] == eq && eq.kind == Eq
    requires ReadsExpr(tokens, After(p, target) + 1, value)
    ensures var t := Assign(target, eq, value);
            && ReadsExpr(tokens, p, t) && After(p, t) == After(After(p, target) + 1, value)
            && Strip(t) == Binary(Assignment, Strip(target), Strip(value))
  {
    ReadsAssign(tokens, p, target, eq, value);
  }

  /** What is read so far, and how tightly the operator on top of it binds compared with the next one. */
  ghost predicate Climbing(tokens: seq<Token>, p: nat, min: nat, t: Written) {
    && Fits(t, min) && Reads(tokens, p, t)
    && (t.Infix? ==> BindingAt(tokens, After(p, t)) <= Binding(t.op))
  }

  lemma StartsClimbing(tokens: seq<Token>, p: nat, min: nat, t: Written)
    requires ReadsUnary(tokens, p, t)
    ensures Climbing(tokens, p, min, t)
  {
    FitsAnyLevel(t, LOWEST_PRECEDENCE, min);
  }

  lemma ClimbOne(tokens: seq<Token>, p: nat, min: nat, t: Written, op: Token, right: Written)
    requires Climbing(tokens, p, min, t) && min >= 1
    requires After(p, t) < |tokens| && tokens[After(p, t)] == op && Binding(op) >= min
    requires ReadsBinary(tokens, After(p, t) + 1, Binding(op) + 1, right)
    ensures Climbing(tokens, p, min, Infix(t, op, right)) &&
            After(p, Infix(t, op, right)) == After(After(p, t) + 1, right)
  {
    ReadsInfix(tokens, p, t, op, right);
    if !t.Infix? {
      FitsAnyLevel(t, min, Binding(op));
    }
  }

  lemma StripInfix(t: Written, op: Token, right: Written)
    requires Binding(op) > 0
    ensures Strip(Infix(t, op, right)) == Binary(BinaryOf(op.kind).value.0, Strip(t), Strip(right))
  {
  }

  lemma StillOpen(tokens: seq<Token>, p: nat, min: nat, t: Written, s: Written)
    requires ReadsBinary(tokens, p, min, t) && BindingAt(tokens, After(p, s)) >= min
    ensures t != s
  {
  }

  lemma EndsHere(tokens: seq<Token>, p: nat, min: nat, t: Written, s: Written)
    requires ReadsBinary(tokens, p, min, t) && OnSpine(s, t) && BindingAt(tokens, After(p, s)) < min
    ensures t == s
  {
    if t != s {
      var parent := GoesOn(tokens, p, min, t, s);
    }
  }
}
