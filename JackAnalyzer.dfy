/**
 * The Jack compiler sample (sample/JackAnalyzer.cs): its two-level symbol
 * table with per-kind counters, the label counter, and the VM code that the
 * expression and statement classes emit.
 *
 * VM code is a sequence of commands; CommandText gives each command the
 * exact line the source appends. Code generation takes the symbols visible
 * when it runs (a Scope) and, for statements, the number of the next label,
 * and returns the number after the labels it used. An unknown variable is the
 * SymbolNotFoundException, with its message.
 */
module JackAnalyzer {
  import opened Wrappers
  import opened Numerals

  // ---------------------------------------------------------------------
  // Symbol table

  datatype Kind = Static | Field | Arg | Var

  function KindIndex(k: Kind): nat
  {
    match k
    case Static => 0
    case Field => 1
    case Arg => 2
    case Var => 3
  }

  /** STATIC and FIELD symbols belong to the class, ARG and VAR to the subroutine. */
  predicate IsClassKind(k: Kind) { k == Static || k == Field }

  datatype SymbolInfo = SymbolInfo(typ: string, kind: Kind, no: nat)

  /** The symbols visible to code generation: the class table and the subroutine table. */
  datatype Scope = Scope(classTable: map<string, SymbolInfo>, subroutineTable: map<string, SymbolInfo>)

  /** Lookup tries the class table first, then the subroutine table. */
  function GetInfo(scope: Scope, name: string): (r: Option<SymbolInfo>)
    ensures r.Some? <==> name in scope.classTable || name in scope.subroutineTable
    ensures name in scope.classTable ==> r == Some(scope.classTable[name])
    ensures name !in scope.classTable && name in scope.subroutineTable ==> r == Some(scope.subroutineTable[name])
  {
    if name in scope.classTable then Some(scope.classTable[name])
    else if name in scope.subroutineTable then Some(scope.subroutineTable[name])
    else None
  }

  /** Indices within one table are distinct per kind and below the kind's count. */
  ghost predicate WellNumbered(table: map<string, SymbolInfo>, counts: seq<nat>)
    requires |counts| == 4
  {
    (forall n :: n in table ==> table[n].no < counts[KindIndex(table[n].kind)]) &&
    (forall n1, n2 :: n1 in table && n2 in table && n1 != n2 && table[n1].kind == table[n2].kind ==> table[n1].no != table[n2].no)
  }

  /** A symbol given the current count of its kind keeps the table well numbered once the count grows. */
  lemma {:induction false} DefineNumbers(table: map<string, SymbolInfo>, counts: seq<nat>, name: string, info: SymbolInfo)
    requires |counts| == 4 && WellNumbered(table, counts) && info.no == counts[KindIndex(info.kind)]
    ensures WellNumbered(table[name := info], counts[KindIndex(info.kind) := counts[KindIndex(info.kind)] + 1])
  {
  }

  lemma {:induction false} CountGrows(table: map<string, SymbolInfo>, counts: seq<nat>, k: nat)
    requires |counts| == 4 && k < 4 && WellNumbered(table, counts)
    ensures WellNumbered(table, counts[k := counts[k] + 1])
  {
  }

  /**
   * STATIC and FIELD symbols are in the class table, ARG and VAR symbols
   * in the subroutine table, and no two symbols of one kind share an index.
   */
  ghost predicate TablesValid(classTable: map<string, SymbolInfo>, subroutineTable: map<string, SymbolInfo>, counts: seq<nat>)
  {
    |counts| == 4 &&
    (forall n :: n in classTable ==> IsClassKind(classTable[n].kind)) &&
    (forall n :: n in subroutineTable ==> !IsClassKind(subroutineTable[n].kind)) &&
    WellNumbered(classTable, counts) &&
    WellNumbered(subroutineTable, counts)
  }

  /** Defining a symbol with its kind's count, in its kind's table, keeps the tables valid once the count grows. */
  lemma DefineValid(classTable: map<string, SymbolInfo>, subroutineTable: map<string, SymbolInfo>, counts: seq<nat>,
                    name: string, info: SymbolInfo, grown: seq<nat>)
    requires TablesValid(classTable, subroutineTable, counts) && info.no == counts[KindIndex(info.kind)]
    requires grown == counts[KindIndex(info.kind) := counts[KindIndex(info.kind)] + 1]
    ensures IsClassKind(info.kind) ==> TablesValid(classTable[name := info], subroutineTable, grown)
    ensures !IsClassKind(info.kind) ==> TablesValid(classTable, subroutineTable[name := info], grown)
  {
    var k := KindIndex(info.kind);
    if IsClassKind(info.kind) {
      DefineNumbers(classTable, counts, name, info);
      CountGrows(subroutineTable, counts, k);
    } else {
      DefineNumbers(subroutineTable, counts, name, info);
      CountGrows(classTable, counts, k);
    }
  }

  class SymbolTable {
    var classTable: map<string, SymbolInfo>
    var subroutineTable: map<string, SymbolInfo>
    const kindNo: array<nat>

    ghost predicate Valid()
      reads this, kindNo
    {
      kindNo.Length == 4 && TablesValid(classTable, subroutineTable, kindNo[..])
    }

    function CurrentScope(): Scope
      reads this
    {
      Scope(classTable, subroutineTable)
    }

    /** The table that holds symbols of the kind. */
    function TableOf(kind: Kind): map<string, SymbolInfo>
      reads this
    {
      if IsClassKind(kind) then classTable else subroutineTable
    }

    constructor ()
      ensures Valid() && fresh(kindNo)
      ensures classTable == map[] && subroutineTable == map[]
      ensures kindNo[..] == [0, 0, 0, 0]
    {
      classTable := map[];
      subroutineTable := map[];
      kindNo := new nat[4];
      new;
      kindNo[0], kindNo[1], kindNo[2], kindNo[3] := 0, 0, 0, 0;
    }

    /** Resets the ARG and VAR counts and forgets the subroutine's symbols. */
    method StartSubroutine()
      requires Valid()
      modifies this, kindNo
      ensures Valid()
      ensures subroutineTable == map[] && classTable == old(classTable)
      ensures kindNo[..] == [old(kindNo[0]), old(kindNo[1]), 0, 0]
    {
      kindNo[KindIndex(Arg)] := 0;
      kindNo[KindIndex(Var)] := 0;
      subroutineTable := map[];
    }

    /**
     * Defines (or redefines) name with the current count of its kind as its
     * index, in the table its kind belongs to, and increments that count.
     */
    method Define(name: string, typ: string, kind: Kind)
      requires Valid()
      modifies this, kindNo
      ensures Valid()
      ensures TableOf(kind) == old(TableOf(kind))[name := SymbolInfo(typ, kind, old(kindNo[KindIndex(kind)]))]
      ensures IsClassKind(kind) ==> subroutineTable == old(subroutineTable)
      ensures !IsClassKind(kind) ==> classTable == old(classTable)
      ensures kindNo[..] == old(kindNo[..])[KindIndex(kind) := old(kindNo[KindIndex(kind)]) + 1]
    {
      var k := KindIndex(kind);
      ghost var counts := kindNo[..];
      var info := SymbolInfo(typ, kind, kindNo[k]);
      kindNo[k] := kindNo[k] + 1;
      assert kindNo[..] == counts[k := counts[k] + 1];
      DefineValid(classTable, subroutineTable, counts, name, info, kindNo[..]);
      if IsClassKind(kind) {
        classTable := classTable[name := info];
      } else {
        subroutineTable := subroutineTable[name := info];
      }
    }

    method VarCount(kind: Kind) returns (n: nat)
      requires Valid()
      ensures n == kindNo[KindIndex(kind)]
    {
      n := kindNo[KindIndex(kind)];
    }
  }

  /** The symbol-not-found message. */
  function NotDefined(name: string): string
  {
    "symbol " + name + " is not defined"
  }

  // ---------------------------------------------------------------------
  // VM commands

  datatype Segment = Constant | StaticSegment | This | Argument | Local | Pointer | Temp | That

  function SegmentName(seg: Segment): string
  {
    match seg
    case Constant => "constant"
    case StaticSegment => "static"
    case This => "this"
    case Argument => "argument"
    case Local => "local"
    case Pointer => "pointer"
    case Temp => "temp"
    case That => "that"
  }

  datatype BinOp = Add | Sub | Mul | Div | And | Or | Lt | Gt | Eq
  datatype UnOp = Neg | Not

  /** What the op table turns each binary operator symbol into (+ - * / & | < > =). */
  function BinOpText(op: BinOp): string
  {
    match op
    case Add => "add"
    case Sub => "sub"
    case Mul => "call Math.multiply 2"
    case Div => "call Math.divide 2"
    case And => "and"
    case Or => "or"
    case Lt => "lt"
    case Gt => "gt"
    case Eq => "eq"
  }

  function UnOpText(op: UnOp): string
  {
    match op
    case Neg => "neg"
    case Not => "not"
  }

  datatype Command =
    | Push(segment: Segment, index: nat)
    | Pop(segment: Segment, index: nat)
    | Binary(op: BinOp)
    | Unary(uop: UnOp)
    | CallFunction(name: string, nargs: nat)
    | Label(target: string)
    | Goto(target: string)
    | IfGoto(target: string)
    | Return
    | Function(name: string, nlocals: nat)

  /** The line the source appends for each command. */
  function CommandText(c: Command): string
  {
    match c
    case Push(seg, i) => "push " + SegmentName(seg) + " " + NatToString(i)
    case Pop(seg, i) => "pop " + SegmentName(seg) + " " + NatToString(i)
    case Binary(op) => BinOpText(op)
    case Unary(op) => UnOpText(op)
    case CallFunction(name, n) => "call " + name + " " + NatToString(n)
    case Label(l) => "label " + l
    case Goto(l) => "goto " + l
    case IfGoto(l) => "if-goto " + l
    case Return => "return"
    case Function(name, n) => "function " + name + " " + NatToString(n)
  }

  /** A command's line with its line break. */
  function Line(c: Command): string
  {
    CommandText(c) + "\n"
  }

  /** The text of the lines of a sequence, in order. */
  function Concat<T>(line: T -> string, xs: seq<T>): string
  {
    if xs == [] then "" else line(xs[0]) + Concat(line, xs[1..])
  }

  lemma {:induction false} ConcatAppend<T>(line: T -> string, a: seq<T>, b: seq<T>)
    ensures Concat(line, a + b) == Concat(line, a) + Concat(line, b)
  {
    if a == [] {
      assert a + b == b;
    } else {
      ConcatAppend(line, a[1..], b);
      assert (a + b)[1..] == a[1..] + b;
      assert (a + b)[0] == a[0];
    }
  }

  /** The text the VM code is written as: one line per command. */
  function Render(code: seq<Command>): string
  {
    Concat(Line, code)
  }

  /** Appending code appends its text: the StringBuilder concatenations compose. */
  lemma RenderAppend(a: seq<Command>, b: seq<Command>)
    ensures Render(a + b) == Render(a) + Render(b)
  {
    ConcatAppend(Line, a, b);
  }

  // ---------------------------------------------------------------------
  // Labels

  function LabelName(n: nat): string { "LABEL:" + NatToString(n) }

  /** Different label numbers give different labels. */
  lemma {:induction false} LabelNameInjective(i: nat, j: nat)
    requires LabelName(i) == LabelName(j)
    ensures i == j
  {
    assert LabelName(i)[6..] == NatToString(i);
    assert LabelName(j)[6..] == NatToString(j);
    NatToStringInjective(i, j);
  }

  // ---------------------------------------------------------------------
  // Abstract syntax

  datatype Expr =
    | NullExpr
    | ThisExpr
    | BoolExpr(value: bool)
    | StringConst(text: string)
    | IntConst(n: nat)
    | ArrayIndex(arrayName: string, index: Expr)
    | UnaryOp(uop: UnOp, operand: Expr)
    | BinaryOp(left: Expr, op: BinOp, right: Expr)
    | ReferVar(name: string)
    | Call(subroutine: string, className: string, args: seq<Expr>, inner: bool)

  datatype Stmt =
    | Let(varName: string, subscript: Option<Expr>, rvalue: Expr)
    | IfStmt(cond: Expr, thenStmts: seq<Stmt>, elseStmts: seq<Stmt>)
    | WhileStmt(whileCond: Expr, body: seq<Stmt>)
    | DoStmt(call: Expr)
    | ReturnStmt(result: Option<Expr>)

  datatype Compiled<T> = Compiled(value: T) | SymbolNotFound(message: string)

  /** Every variable the expression refers to is defined. */
  predicate Binds(scope: Scope, e: Expr)
    decreases e
  {
    match e
    case ArrayIndex(name, index) => GetInfo(scope, name).Some? && Binds(scope, index)
    case UnaryOp(_, x) => Binds(scope, x)
    case BinaryOp(x, _, y) => Binds(scope, x) && Binds(scope, y)
    case ReferVar(name) => GetInfo(scope, name).Some?
    case Call(_, _, args, _) => forall i :: 0 <= i < |args| ==> Binds(scope, args[i])
    case _ => true
  }

  predicate StmtBinds(scope: Scope, s: Stmt)
    decreases s
  {
    match s
    case Let(name, subscript, rvalue) =>
      GetInfo(scope, name).Some? && (subscript.Some? ==> Binds(scope, subscript.value)) && Binds(scope, rvalue)
    case IfStmt(cond, thenStmts, elseStmts) =>
      Binds(scope, cond) &&
      (forall i :: 0 <= i < |thenStmts| ==> StmtBinds(scope, thenStmts[i])) &&
      (forall i :: 0 <= i < |elseStmts| ==> StmtBinds(scope, elseStmts[i]))
    case WhileStmt(cond, body) => Binds(scope, cond) && forall i :: 0 <= i < |body| ==> StmtBinds(scope, body[i])
    case DoStmt(call) => Binds(scope, call)
    case ReturnStmt(result) => result.Some? ==> Binds(scope, result.value)
  }

  // ---------------------------------------------------------------------
  // Code generation

  /** The segment a kind of symbol lives in. */
  function KindSegment(k: Kind): Segment
  {
    match k
    case Static => StaticSegment
    case Field => This
    case Arg => Argument
    case Var => Local
  }

  /** PushPopRefer: push or pop a variable in the segment of its kind, at its index. */
  function PushPopRefer(scope: Scope, push: bool, name: string): (r: Compiled<Command>)
    ensures r.Compiled? <==> GetInfo(scope, name).Some?
    ensures r.SymbolNotFound? ==> r.message == NotDefined(name)
    ensures r.Compiled? ==> r.value.Push? == push && r.value.Pop? == !push
    ensures r.Compiled? ==>
      r.value.segment == KindSegment(GetInfo(scope, name).value.kind) && r.value.index == GetInfo(scope, name).value.no
  {
    match GetInfo(scope, name)
    case None => SymbolNotFound(NotDefined(name))
    case Some(info) =>
      if push then Compiled(Push(KindSegment(info.kind), info.no))
      else Compiled(Pop(KindSegment(info.kind), info.no))
  }

  /** The segment mapping: STATIC to static, FIELD to this, ARG to argument, VAR to local. */
  lemma {:induction false} SegmentsOfKinds()
    ensures SegmentName(KindSegment(Static)) == "static" && SegmentName(KindSegment(Field)) == "this"
    ensures SegmentName(KindSegment(Arg)) == "argument" && SegmentName(KindSegment(Var)) == "local"
    ensures forall k1, k2 :: KindSegment(k1) == KindSegment(k2) ==> k1 == k2
  {
  }

  /** The characters of a string constant, each appended with String.appendChar. */
  function AppendChars(s: string): seq<Command>
  {
    if s == [] then []
    else AppendChars(s[..|s| - 1]) + [Push(Constant, s[|s| - 1] as nat), CallFunction("String.appendChar", 2)]
  }

  /** A string constant: String.new with the length, then one appendChar per character, in order. */
  function StringCode(s: string): (code: seq<Command>)
    ensures |code| == 2 + 2 * |s|
    ensures code[0] == Push(Constant, |s|) && code[1] == CallFunction("String.new", 1)
    ensures forall i :: 0 <= i < |s| ==>
      code[2 + 2 * i] == Push(Constant, s[i] as nat) && code[3 + 2 * i] == CallFunction("String.appendChar", 2)
  {
    AppendCharsSpec(s);
    [Push(Constant, |s|), CallFunction("String.new", 1)] + AppendChars(s)
  }

  lemma {:induction false} AppendCharsSpec(s: string)
    ensures |AppendChars(s)| == 2 * |s|
    ensures forall i :: 0 <= i < |s| ==>
      AppendChars(s)[2 * i] == Push(Constant, s[i] as nat) && AppendChars(s)[2 * i + 1] == CallFunction("String.appendChar", 2)
  {
    if s != [] {
      AppendCharsSpec(s[..|s| - 1]);
    }
  }

  /** StringConst.PutVMCode: the loop over the characters. */
  method PutStringConst(s: string) returns (code: seq<Command>)
    ensures code == StringCode(s)
  {
    code := [Push(Constant, |s|), CallFunction("String.new", 1)];
    var i := 0;
    while i < |s|
      invariant 0 <= i <= |s|
      invariant code == [Push(Constant, |s|), CallFunction("String.new", 1)] + AppendChars(s[..i])
    {
      assert s[..i + 1][..i] == s[..i];
      code := code + [Push(Constant, s[i] as nat), CallFunction("String.appendChar", 2)];
      i := i + 1;
    }
    assert s[..i] == s;
  }

  /** Code pieces in order; the first missing symbol is the error. */
  function Cat(a: Compiled<seq<Command>>, b: Compiled<seq<Command>>): (r: Compiled<seq<Command>>)
    ensures r.Compiled? <==> a.Compiled? && b.Compiled?
    ensures r.Compiled? ==> r.value == a.value + b.value
    ensures a.SymbolNotFound? ==> r == a
    ensures a.Compiled? && b.SymbolNotFound? ==> r == b
  {
    if a.SymbolNotFound? then a
    else if b.SymbolNotFound? then b
    else Compiled(a.value + b.value)
  }

  function One(c: Compiled<Command>): Compiled<seq<Command>>
  {
    match c
    case Compiled(cmd) => Compiled([cmd])
    case SymbolNotFound(m) => SymbolNotFound(m)
  }

  /** The code of an expression: postfix, operands before their operator. */
  function ExprCode(scope: Scope, e: Expr): (r: Compiled<seq<Command>>)
    ensures r.Compiled? <==> Binds(scope, e)
    decreases e
  {
    match e
    case NullExpr => Compiled([Push(Constant, 0)])
    case ThisExpr => Compiled([Push(Pointer, 0)])
    case BoolExpr(b) => if b then Compiled([Push(Constant, 1), Unary(Neg)]) else Compiled([Push(Constant, 0)])
    case StringConst(s) => Compiled(StringCode(s))
    case IntConst(n) => Compiled([Push(Constant, n)])
    case ArrayIndex(name, index) =>
      Cat(Cat(One(PushPopRefer(scope, true, name)), ExprCode(scope, index)),
          Compiled([Binary(Add), Pop(Pointer, 1), Push(That, 0)]))
    case UnaryOp(op, x) => Cat(ExprCode(scope, x), Compiled([Unary(op)]))
    case BinaryOp(x, op, y) => Cat(Cat(ExprCode(scope, x), ExprCode(scope, y)), Compiled([Binary(op)]))
    case ReferVar(name) => One(PushPopRefer(scope, true, name))
    case Call(sub, className, args, inner) =>
      // A class name that resolves to a variable makes an instance-method call on it.
      var target := GetInfo(scope, className);
      var typ := if target.Some? then target.value.typ else className;
      if target.Some? || inner then
        var receiver := if inner then Push(Pointer, 0) else Push(KindSegment(target.value.kind), target.value.no);
        Cat(Cat(Compiled([Push(Pointer, 0), receiver]), ArgsCode(scope, args)),
            Compiled([CallFunction(typ + "." + sub, |args| + 1), Pop(Temp, 1), Pop(Pointer, 0), Push(Temp, 1)]))
      else
        Cat(ArgsCode(scope, args), Compiled([CallFunction(typ + "." + sub, |args|)]))
  }

  /** PutVMCodes over argument expressions: their codes one after the other. */
  function ArgsCode(scope: Scope, args: seq<Expr>): (r: Compiled<seq<Command>>)
    ensures r.Compiled? <==> forall i :: 0 <= i < |args| ==> Binds(scope, args[i])
    decreases args
  {
    if args == [] then Compiled([])
    else Cat(ArgsCode(scope, args[..|args| - 1]), ExprCode(scope, args[|args| - 1]))
  }

  /**
   * The code of statements together with the number of the next unused
   * label, or the message of the first unknown symbol together with the
   * labels taken before it was met: the source's counter is static, so
   * labels drawn before the exception stay drawn.
   */
  datatype Emission = Emitted(code: seq<Command>, next: nat) | Stopped(message: string, next: nat)

  /** The code of a statement, using labels from number n on. */
  function StmtCode(scope: Scope, s: Stmt, n: nat): (r: Emission)
    ensures r.Emitted? <==> StmtBinds(scope, s)
    ensures n <= r.next
    decreases s
  {
    match s
    case Let(name, None, rvalue) =>
      var c := Cat(ExprCode(scope, rvalue), One(PushPopRefer(scope, false, name)));
      if c.SymbolNotFound? then Stopped(c.message, n) else Emitted(c.value, n)
    case Let(name, Some(subscript), rvalue) =>
      var c := Cat(Cat(Cat(Cat(One(PushPopRefer(scope, true, name)), ExprCode(scope, subscript)), Compiled([Binary(Add)])),
                       ExprCode(scope, rvalue)),
                   Compiled([Pop(Temp, 2), Pop(Pointer, 1), Push(Temp, 2), Pop(That, 0)]));
      if c.SymbolNotFound? then Stopped(c.message, n) else Emitted(c.value, n)
    case IfStmt(cond, thenStmts, elseStmts) =>
      // label1 = n, label2 = n + 1 are taken before the condition is compiled;
      // the else branch is emitted (and numbered) first.
      var cc := ExprCode(scope, cond);
      if cc.SymbolNotFound? then Stopped(cc.message, n + 2) else
      var ec := StmtsCode(scope, elseStmts, n + 2);
      if ec.Stopped? then ec else
      var tc := StmtsCode(scope, thenStmts, ec.next);
      if tc.Stopped? then tc else
      Emitted(IfCode(cc.value, ec.code, tc.code, n), tc.next)
    case WhileStmt(cond, body) =>
      // label1 = n (loop head), label2 = n + 1 (exit), label3 = n + 2 (body),
      // all taken before the condition is compiled.
      var cc := ExprCode(scope, cond);
      if cc.SymbolNotFound? then Stopped(cc.message, n + 3) else
      var bc := StmtsCode(scope, body, n + 3);
      if bc.Stopped? then bc else
      Emitted(WhileCode(cc.value, bc.code, n), bc.next)
    case DoStmt(call) =>
      var c := Cat(ExprCode(scope, call), Compiled([Pop(Temp, 0)]));
      if c.SymbolNotFound? then Stopped(c.message, n) else Emitted(c.value, n)
    case ReturnStmt(None) => Emitted([Push(Constant, 0), Return], n)
    case ReturnStmt(Some(e)) =>
      var c := Cat(ExprCode(scope, e), Compiled([Return]));
      if c.SymbolNotFound? then Stopped(c.message, n) else Emitted(c.value, n)
  }

  /** IfStmt: test, jump to label1 when true, else branch, jump to label2, label1, then branch, label2. */
  function IfCode(cond: seq<Command>, elseCode: seq<Command>, thenCode: seq<Command>, n: nat): seq<Command>
  {
    cond + [IfGoto(LabelName(n))] + elseCode + [Goto(LabelName(n + 1)), Label(LabelName(n))] + thenCode + [Label(LabelName(n + 1))]
  }

  /** WhileStmt: label1, test, jump to label3 when true, else to label2, label3, body, back to label1, label2. */
  function WhileCode(cond: seq<Command>, body: seq<Command>, n: nat): seq<Command>
  {
    [Label(LabelName(n))] + cond + [IfGoto(LabelName(n + 2)), Goto(LabelName(n + 1)), Label(LabelName(n + 2))] +
    body + [Goto(LabelName(n)), Label(LabelName(n + 1))]
  }

  /** PutVMCodes over statements: their codes one after the other, threading the label number. */
  function StmtsCode(scope: Scope, stmts: seq<Stmt>, n: nat): (r: Emission)
    ensures r.Emitted? <==> forall i :: 0 <= i < |stmts| ==> StmtBinds(scope, stmts[i])
    ensures n <= r.next
    decreases stmts
  {
    if stmts == [] then Emitted([], n)
    else
      var init := StmtsCode(scope, stmts[..|stmts| - 1], n);
      if init.Stopped? then init else
      var last := StmtCode(scope, stmts[|stmts| - 1], init.next);
      if last.Stopped? then last else
      Emitted(init.code + last.code, last.next)
  }

  /**
   * An unknown variable in a condition stops the compilation after the
   * statement's labels were taken: two for an if, three for a while.
   */
  lemma UnknownConditionTakesLabels(scope: Scope, name: string, thenStmts: seq<Stmt>, elseStmts: seq<Stmt>,
                                    body: seq<Stmt>, n: nat)
    requires GetInfo(scope, name).None?
    ensures StmtCode(scope, IfStmt(ReferVar(name), thenStmts, elseStmts), n) == Stopped(NotDefined(name), n + 2)
    ensures StmtCode(scope, WhileStmt(ReferVar(name), body), n) == Stopped(NotDefined(name), n + 3)
  {
  }

  // ---------------------------------------------------------------------
  // Stack discipline

  /** How a command changes the depth of the VM stack. */
  function CommandEffect(c: Command): int
  {
    match c
    case Push(_, _) => 1
    case Pop(_, _) => -1
    case Binary(_) => -1
    case Unary(_) => 0
    case CallFunction(_, k) => 1 - k
    case Label(_) => 0
    case Goto(_) => 0
    case IfGoto(_) => -1
    case Return => -1
    case Function(_, _) => 0
  }

  function Effect(code: seq<Command>): int
  {
    if code == [] then 0 else Effect(code[..|code| - 1]) + CommandEffect(code[|code| - 1])
  }

  lemma {:induction false} EffectAppend(a: seq<Command>, b: seq<Command>)
    ensures Effect(a + b) == Effect(a) + Effect(b)
  {
    if b == [] {
      assert a + b == a;
    } else {
      EffectAppend(a, b[..|b| - 1]);
      assert (a + b)[..|a + b| - 1] == a + b[..|b| - 1];
    }
  }

  lemma {:induction false} EffectOne(x: Command)
    ensures Effect([x]) == CommandEffect(x)
  {
    assert [x][..0] == [];
  }

  lemma {:induction false} EffectTwo(x: Command, y: Command)
    ensures Effect([x, y]) == CommandEffect(x) + CommandEffect(y)
  {
    assert [x, y][..1] == [x];
    EffectOne(x);
  }

  lemma {:induction false} EffectThree(x: Command, y: Command, z: Command)
    ensures Effect([x, y, z]) == CommandEffect(x) + CommandEffect(y) + CommandEffect(z)
  {
    assert [x, y, z][..2] == [x, y];
    EffectTwo(x, y);
  }

  lemma {:induction false} EffectFour(x: Command, y: Command, z: Command, w: Command)
    ensures Effect([x, y, z, w]) == CommandEffect(x) + CommandEffect(y) + CommandEffect(z) + CommandEffect(w)
  {
    assert [x, y, z, w][..3] == [x, y, z];
    EffectThree(x, y, z);
  }

  lemma {:induction false} EffectAppendChars(s: string)
    ensures Effect(AppendChars(s)) == 0
  {
    if s != [] {
      EffectAppendChars(s[..|s| - 1]);
      EffectAppend(AppendChars(s[..|s| - 1]), [Push(Constant, s[|s| - 1] as nat), CallFunction("String.appendChar", 2)]);
      EffectTwo(Push(Constant, s[|s| - 1] as nat), CallFunction("String.appendChar", 2));
    }
  }

  lemma {:induction false} EffectOf3(a: seq<Command>, b: seq<Command>, c: seq<Command>)
    ensures Effect(a + b + c) == Effect(a) + Effect(b) + Effect(c)
  {
    EffectAppend(a + b, c);
    EffectAppend(a, b);
  }

  /** The code of an expression leaves exactly one more value on the stack. */
  lemma {:induction false} ExprEffect(scope: Scope, e: Expr)
    requires ExprCode(scope, e).Compiled?
    ensures Effect(ExprCode(scope, e).value) == 1
    decreases e
  {
    match e
    case NullExpr => EffectOne(Push(Constant, 0));
    case ThisExpr => EffectOne(Push(Pointer, 0));
    case BoolExpr(b) =>
      EffectOne(Push(Constant, 0));
      EffectTwo(Push(Constant, 1), Unary(Neg));
    case StringConst(s) => StringCodeEffect(s);
    case IntConst(n) => EffectOne(Push(Constant, n));
    case ArrayIndex(name, index) =>
      ExprEffect(scope, index);
      IndexedEffect(PushPopRefer(scope, true, name).value, ExprCode(scope, index).value);
    case UnaryOp(op, x) =>
      ExprEffect(scope, x);
      EffectOne(Unary(op));
      EffectAppend(ExprCode(scope, x).value, [Unary(op)]);
    case BinaryOp(x, op, y) =>
      ExprEffect(scope, x);
      ExprEffect(scope, y);
      EffectOne(Binary(op));
      EffectOf3(ExprCode(scope, x).value, ExprCode(scope, y).value, [Binary(op)]);
    case ReferVar(name) => EffectOne(PushPopRefer(scope, true, name).value);
    case Call(sub, className, args, inner) =>
      ArgsEffect(scope, args);
      var ac := ArgsCode(scope, args).value;
      var target := GetInfo(scope, className);
      var typ := if target.Some? then target.value.typ else className;
      if target.Some? || inner {
        var receiver := if inner then Push(Pointer, 0) else Push(KindSegment(target.value.kind), target.value.no);
        MethodCallEffect(receiver, ac, typ + "." + sub, |args|);
      } else {
        FunctionCallEffect(ac, typ + "." + sub, |args|);
      }
  }

  /** A string constant leaves the new string. */
  lemma StringCodeEffect(s: string)
    ensures Effect(StringCode(s)) == 1
  {
    EffectAppendChars(s);
    EffectTwo(Push(Constant, |s|), CallFunction("String.new", 1));
    EffectAppend([Push(Constant, |s|), CallFunction("String.new", 1)], AppendChars(s));
  }

  /** Base, index, add, then read through that: one value. */
  lemma IndexedEffect(base: Command, ic: seq<Command>)
    requires base.Push? && Effect(ic) == 1
    ensures Effect([base] + ic + [Binary(Add), Pop(Pointer, 1), Push(That, 0)]) == 1
  {
    EffectOne(base);
    EffectThree(Binary(Add), Pop(Pointer, 1), Push(That, 0));
    EffectOf3([base], ic, [Binary(Add), Pop(Pointer, 1), Push(That, 0)]);
  }

  /** A method call saves this, pushes the receiver and the arguments, and leaves the result. */
  lemma MethodCallEffect(receiver: Command, ac: seq<Command>, name: string, k: nat)
    requires receiver.Push? && Effect(ac) == k
    ensures Effect([Push(Pointer, 0), receiver] + ac + [CallFunction(name, k + 1), Pop(Temp, 1), Pop(Pointer, 0), Push(Temp, 1)]) == 1
  {
    EffectTwo(Push(Pointer, 0), receiver);
    EffectFour(CallFunction(name, k + 1), Pop(Temp, 1), Pop(Pointer, 0), Push(Temp, 1));
    EffectOf3([Push(Pointer, 0), receiver], ac, [CallFunction(name, k + 1), Pop(Temp, 1), Pop(Pointer, 0), Push(Temp, 1)]);
  }

  /** A function call takes its arguments and leaves the result. */
  lemma FunctionCallEffect(ac: seq<Command>, name: string, k: nat)
    requires Effect(ac) == k
    ensures Effect(ac + [CallFunction(name, k)]) == 1
  {
    EffectOne(CallFunction(name, k));
    EffectAppend(ac, [CallFunction(name, k)]);
  }

  /** Arguments leave one value each. */
  lemma {:induction false} ArgsEffect(scope: Scope, args: seq<Expr>)
    requires ArgsCode(scope, args).Compiled?
    ensures Effect(ArgsCode(scope, args).value) == |args|
    decreases args
  {
    if args != [] {
      ArgsEffect(scope, args[..|args| - 1]);
      ExprEffect(scope, args[|args| - 1]);
      EffectAppend(ArgsCode(scope, args[..|args| - 1]).value, ExprCode(scope, args[|args| - 1]).value);
    }
  }

  lemma {:induction false} IfEffect(cond: seq<Command>, elseCode: seq<Command>, thenCode: seq<Command>, n: nat)
    ensures Effect(IfCode(cond, elseCode, thenCode, n)) == Effect(cond) - 1 + Effect(elseCode) + Effect(thenCode)
  {
    EffectOne(IfGoto(LabelName(n)));
    EffectTwo(Goto(LabelName(n + 1)), Label(LabelName(n)));
    EffectOne(Label(LabelName(n + 1)));
    EffectOf3(cond, [IfGoto(LabelName(n))], elseCode);
    EffectOf3(cond + [IfGoto(LabelName(n))] + elseCode, [Goto(LabelName(n + 1)), Label(LabelName(n))], thenCode);
    EffectAppend(cond + [IfGoto(LabelName(n))] + elseCode + [Goto(LabelName(n + 1)), Label(LabelName(n))] + thenCode,
                 [Label(LabelName(n + 1))]);
  }

  lemma {:induction false} WhileEffect(cond: seq<Command>, body: seq<Command>, n: nat)
    ensures Effect(WhileCode(cond, body, n)) == Effect(cond) - 1 + Effect(body)
  {
    var head := [IfGoto(LabelName(n + 2)), Goto(LabelName(n + 1)), Label(LabelName(n + 2))];
    EffectOne(Label(LabelName(n)));
    EffectThree(IfGoto(LabelName(n + 2)), Goto(LabelName(n + 1)), Label(LabelName(n + 2)));
    EffectTwo(Goto(LabelName(n)), Label(LabelName(n + 1)));
    EffectOf3([Label(LabelName(n))], cond, head);
    EffectOf3([Label(LabelName(n))] + cond + head, body, [Goto(LabelName(n)), Label(LabelName(n + 1))]);
  }

  /** The code of a statement leaves the stack as it found it. */
  lemma {:induction false} StmtEffect(scope: Scope, s: Stmt, n: nat)
    requires StmtCode(scope, s, n).Emitted?
    ensures Effect(StmtCode(scope, s, n).code) == 0
    decreases s
  {
    match s
    case Let(name, subscript, rvalue) => LetEffect(scope, name, subscript, rvalue, n);
    case IfStmt(cond, thenStmts, elseStmts) =>
      ExprEffect(scope, cond);
      var ec := StmtsCode(scope, elseStmts, n + 2);
      StmtsEffect(scope, elseStmts, n + 2);
      StmtsEffect(scope, thenStmts, ec.next);
      IfEffect(ExprCode(scope, cond).value, ec.code, StmtsCode(scope, thenStmts, ec.next).code, n);
    case WhileStmt(cond, body) =>
      ExprEffect(scope, cond);
      StmtsEffect(scope, body, n + 3);
      WhileEffect(ExprCode(scope, cond).value, StmtsCode(scope, body, n + 3).code, n);
    case DoStmt(call) => DoReturnEffect(scope, s, n);
    case ReturnStmt(_) => DoReturnEffect(scope, s, n);
  }

  /** An assignment stores the value it computes. */
  lemma LetEffect(scope: Scope, name: string, subscript: Option<Expr>, rvalue: Expr, n: nat)
    requires StmtCode(scope, Let(name, subscript, rvalue), n).Emitted?
    ensures Effect(StmtCode(scope, Let(name, subscript, rvalue), n).code) == 0
  {
    ExprEffect(scope, rvalue);
    if subscript.Some? {
      ExprEffect(scope, subscript.value);
      IndexedStoreEffect(PushPopRefer(scope, true, name).value, ExprCode(scope, subscript.value).value, ExprCode(scope, rvalue).value);
    } else {
      ConsumeEffect(ExprCode(scope, rvalue).value, PushPopRefer(scope, false, name).value);
    }
  }

  /** do discards the call's value; return hands its value (or 0) back. */
  lemma DoReturnEffect(scope: Scope, s: Stmt, n: nat)
    requires s.DoStmt? || s.ReturnStmt?
    requires StmtCode(scope, s, n).Emitted?
    ensures Effect(StmtCode(scope, s, n).code) == 0
  {
    match s
    case DoStmt(call) =>
      ExprEffect(scope, call);
      ConsumeEffect(ExprCode(scope, call).value, Pop(Temp, 0));
    case ReturnStmt(None) => EffectTwo(Push(Constant, 0), Return);
    case ReturnStmt(Some(e)) =>
      ExprEffect(scope, e);
      ConsumeEffect(ExprCode(scope, e).value, Return);
  }

  /** A value followed by a command that takes it: nothing is left. */
  lemma ConsumeEffect(code: seq<Command>, c: Command)
    requires Effect(code) == 1 && CommandEffect(c) == -1
    ensures Effect(code + [c]) == 0
  {
    EffectOne(c);
    EffectAppend(code, [c]);
  }

  /** The address, the value, then the store through that: nothing is left. */
  lemma IndexedStoreEffect(base: Command, ic: seq<Command>, rc: seq<Command>)
    requires base.Push? && Effect(ic) == 1 && Effect(rc) == 1
    ensures Effect([base] + ic + [Binary(Add)] + rc + [Pop(Temp, 2), Pop(Pointer, 1), Push(Temp, 2), Pop(That, 0)]) == 0
  {
    EffectOne(base);
    EffectOne(Binary(Add));
    EffectFour(Pop(Temp, 2), Pop(Pointer, 1), Push(Temp, 2), Pop(That, 0));
    EffectOf3([base], ic, [Binary(Add)]);
    EffectOf3([base] + ic + [Binary(Add)], rc, [Pop(Temp, 2), Pop(Pointer, 1), Push(Temp, 2), Pop(That, 0)]);
  }

  lemma {:induction false} StmtsEffect(scope: Scope, stmts: seq<Stmt>, n: nat)
    requires StmtsCode(scope, stmts, n).Emitted?
    ensures Effect(StmtsCode(scope, stmts, n).code) == 0
    decreases stmts
  {
    if stmts != [] {
      var init := StmtsCode(scope, stmts[..|stmts| - 1], n);
      StmtsEffect(scope, stmts[..|stmts| - 1], n);
      StmtEffect(scope, stmts[|stmts| - 1], init.next);
      EffectAppend(init.code, StmtCode(scope, stmts[|stmts| - 1], init.next).code);
    }
  }

  // ---------------------------------------------------------------------
  // Running the code of constant expressions

  /** A VM word: the constant pushed is taken modulo 2^16. */
  function ToWord(n: nat): bv16 { (n % 0x10000) as bv16 }

  /** Jack's true is all ones (-1); false and null are 0. */
  const TrueWord: bv16 := 0xFFFF

  function Signed(x: bv16): int { if x < 0x8000 then x as int else x as int - 0x10000 }

  /** The operators the VM executes itself; * and / are calls into the OS. */
  predicate IsPrimitive(op: BinOp) { op != Mul && op != Div }

  function ApplyUnary(op: UnOp, x: bv16): bv16
  {
    match op
    case Neg => 0 - x
    case Not => !x
  }

  function ApplyBinary(op: BinOp, x: bv16, y: bv16): bv16
    requires IsPrimitive(op)
  {
    match op
    case Add => x + y
    case Sub => x - y
    case And => x & y
    case Or => x | y
    case Lt => if Signed(x) < Signed(y) then TrueWord else 0
    case Gt => if Signed(x) > Signed(y) then TrueWord else 0
    case Eq => if x == y then TrueWord else 0
  }

  /** One VM command on the stack (top at the end); None for commands outside this fragment. */
  function Step(c: Command, stack: seq<bv16>, self: bv16): Option<seq<bv16>>
  {
    match c
    case Push(Constant, n) => Some(stack + [ToWord(n)])
    case Push(Pointer, 0) => Some(stack + [self])
    case Binary(op) =>
      if IsPrimitive(op) && |stack| >= 2
      then Some(stack[..|stack| - 2] + [ApplyBinary(op, stack[|stack| - 2], stack[|stack| - 1])])
      else None
    case Unary(op) =>
      if |stack| >= 1 then Some(stack[..|stack| - 1] + [ApplyUnary(op, stack[|stack| - 1])]) else None
    case _ => None
  }

  function Exec(code: seq<Command>, stack: seq<bv16>, self: bv16): Option<seq<bv16>>
  {
    if code == [] then Some(stack)
    else match Step(code[0], stack, self)
      case None => None
      case Some(next) => Exec(code[1..], next, self)
  }

  lemma {:induction false} ExecAppend(a: seq<Command>, b: seq<Command>, stack: seq<bv16>, mid: seq<bv16>, self: bv16)
    requires Exec(a, stack, self) == Some(mid)
    ensures Exec(a + b, stack, self) == Exec(b, mid, self)
  {
    if a == [] {
      assert a + b == b;
    } else {
      assert (a + b)[0] == a[0] && (a + b)[1..] == a[1..] + b;
      ExecAppend(a[1..], b, Step(a[0], stack, self).value, mid, self);
    }
  }

  lemma {:induction false} ExecOne(c: Command, stack: seq<bv16>, self: bv16)
    ensures Exec([c], stack, self) == Step(c, stack, self)
  {
    assert [c][1..] == [];
  }

  /** Expressions built from constants, this and the VM's own operators. */
  predicate IsConstant(e: Expr)
  {
    match e
    case NullExpr => true
    case ThisExpr => true
    case BoolExpr(_) => true
    case IntConst(_) => true
    case UnaryOp(_, x) => IsConstant(x)
    case BinaryOp(x, op, y) => IsPrimitive(op) && IsConstant(x) && IsConstant(y)
    case _ => false
  }

  /** The Jack value of a constant expression, with self the current object. */
  function Eval(e: Expr, self: bv16): bv16
    requires IsConstant(e)
  {
    match e
    case NullExpr => 0
    case ThisExpr => self
    case BoolExpr(b) => if b then TrueWord else 0
    case IntConst(n) => ToWord(n)
    case UnaryOp(op, x) => ApplyUnary(op, Eval(x, self))
    case BinaryOp(x, op, y) => ApplyBinary(op, Eval(x, self), Eval(y, self))
  }

  /**
   * Running the code of a constant expression pushes its value and leaves
   * the rest of the stack alone: operands are emitted left then right,
   * before their operator, and true is pushed as 1 negated.
   */
  lemma {:induction false} ConstantCodeEvaluates(scope: Scope, e: Expr, stack: seq<bv16>, self: bv16)
    requires IsConstant(e)
    ensures ExprCode(scope, e).Compiled?
    ensures Exec(ExprCode(scope, e).value, stack, self) == Some(stack + [Eval(e, self)])
    decreases e
  {
    ConstantBinds(scope, e);
    match e
    case NullExpr => ExecOne(Push(Constant, 0), stack, self);
    case ThisExpr => ExecOne(Push(Pointer, 0), stack, self);
    case BoolExpr(b) =>
      if b {
        TrueRuns(stack, self);
      } else {
        ExecOne(Push(Constant, 0), stack, self);
      }
    case IntConst(n) => ExecOne(Push(Constant, n), stack, self);
    case UnaryOp(op, x) =>
      ConstantCodeEvaluates(scope, x, stack, self);
      UnaryRuns(ExprCode(scope, x).value, op, stack, Eval(x, self), self);
    case BinaryOp(x, op, y) =>
      var vx := Eval(x, self);
      ConstantCodeEvaluates(scope, x, stack, self);
      ConstantCodeEvaluates(scope, y, stack + [vx], self);
      BinaryRuns(ExprCode(scope, x).value, ExprCode(scope, y).value, op, stack, vx, Eval(y, self), self);
  }

  lemma OneWord()
    ensures ToWord(1) == 1
  {
  }

  /** true is pushed as 1 and negated: all ones. */
  lemma TrueRuns(stack: seq<bv16>, self: bv16)
    ensures Exec([Push(Constant, 1), Unary(Neg)], stack, self) == Some(stack + [TrueWord])
  {
    OneWord();
    ExecOne(Push(Constant, 1), stack, self);
    ExecOne(Unary(Neg), stack + [1], self);
    ExecAppend([Push(Constant, 1)], [Unary(Neg)], stack, stack + [1], self);
    assert [Push(Constant, 1)] + [Unary(Neg)] == [Push(Constant, 1), Unary(Neg)];
    assert (stack + [1])[..|stack + [1]| - 1] == stack;
  }

  /** The operand's code followed by the operator applies the operator to the operand's value. */
  lemma UnaryRuns(code: seq<Command>, op: UnOp, stack: seq<bv16>, v: bv16, self: bv16)
    requires Exec(code, stack, self) == Some(stack + [v])
    ensures Exec(code + [Unary(op)], stack, self) == Some(stack + [ApplyUnary(op, v)])
  {
    ExecOne(Unary(op), stack + [v], self);
    ExecAppend(code, [Unary(op)], stack, stack + [v], self);
    assert (stack + [v])[..|stack + [v]| - 1] == stack;
  }

  /** Left operand's code, right operand's code, operator: the operator applied to both values. */
  lemma BinaryRuns(xc: seq<Command>, yc: seq<Command>, op: BinOp, stack: seq<bv16>, vx: bv16, vy: bv16, self: bv16)
    requires IsPrimitive(op)
    requires Exec(xc, stack, self) == Some(stack + [vx])
    requires Exec(yc, stack + [vx], self) == Some(stack + [vx] + [vy])
    ensures Exec(xc + yc + [Binary(op)], stack, self) == Some(stack + [ApplyBinary(op, vx, vy)])
  {
    ExecAppend(xc, yc, stack, stack + [vx], self);
    ExecOne(Binary(op), stack + [vx] + [vy], self);
    ExecAppend(xc + yc, [Binary(op)], stack, stack + [vx] + [vy], self);
    assert (stack + [vx] + [vy])[..|stack + [vx] + [vy]| - 2] == stack;
  }

  lemma {:induction false} ConstantBinds(scope: Scope, e: Expr)
    requires IsConstant(e)
    ensures Binds(scope, e)
    decreases e
  {
    match e
    case UnaryOp(_, x) => ConstantBinds(scope, x);
    case BinaryOp(x, _, y) =>
      ConstantBinds(scope, x);
      ConstantBinds(scope, y);
    case _ =>
  }

  // ---------------------------------------------------------------------
  // Subroutines

  /** The header CreateSubroutine emits before the statements. */
  function SubroutineHeader(key: string, className: string, name: string, fields: nat, localVars: nat): seq<Command>
  {
    [Function(className + "." + name, localVars)] +
    if key == "constructor" then [Push(Constant, fields), CallFunction("Memory.alloc", 1), Pop(Pointer, 0)]
    else if key == "method" then [Push(Argument, 0), Pop(Pointer, 0)]
    else []
  }

  /** The header only sets up this: it leaves the stack as it found it. */
  lemma {:induction false} HeaderEffect(key: string, className: string, name: string, fields: nat, localVars: nat)
    ensures Effect(SubroutineHeader(key, className, name, fields, localVars)) == 0
  {
    var f := Function(className + "." + name, localVars);
    EffectOne(f);
    if key == "constructor" {
      EffectThree(Push(Constant, fields), CallFunction("Memory.alloc", 1), Pop(Pointer, 0));
      EffectAppend([f], [Push(Constant, fields), CallFunction("Memory.alloc", 1), Pop(Pointer, 0)]);
    } else if key == "method" {
      EffectTwo(Push(Argument, 0), Pop(Pointer, 0));
      EffectAppend([f], [Push(Argument, 0), Pop(Pointer, 0)]);
    } else {
      assert [f] + [] == [f];
    }
  }

  /**
   * The first n names were defined in order: each name not repeated later
   * among them holds the typ, the kind and index start plus its position.
   */
  predicate DefinedInOrder(table: map<string, SymbolInfo>, names: seq<string>, n: nat, typ: string, kind: Kind, start: nat)
    requires n <= |names|
  {
    forall i :: 0 <= i < n && names[i] !in names[i + 1..n] ==>
      names[i] in table && table[names[i]] == SymbolInfo(typ, kind, start + i)
  }

  lemma DefinedInOrderStep(table: map<string, SymbolInfo>, names: seq<string>, n: nat, m: nat, typ: string, kind: Kind, start: nat, index: nat)
    requires n < |names| && m == n + 1 && index == start + n
    requires DefinedInOrder(table, names, n, typ, kind, start)
    ensures DefinedInOrder(table[names[n] := SymbolInfo(typ, kind, index)], names, m, typ, kind, start)
  {
    var t := table[names[n] := SymbolInfo(typ, kind, index)];
    forall i | 0 <= i < n + 1 && names[i] !in names[i + 1..n + 1]
      ensures names[i] in t && t[names[i]] == SymbolInfo(typ, kind, start + i)
    {
      if i < n {
        assert names[n] in names[i + 1..n + 1];
        assert names[i + 1..n] <= names[i + 1..n + 1];
        assert names[i] !in names[i + 1..n];
      }
    }
  }

  /** The names of a sequence, as a set. */
  function NameSet(names: seq<string>): (r: set<string>)
    ensures forall x :: x in r <==> x in names
  {
    set i | 0 <= i < |names| :: names[i]
  }

  /** Outside the given names, table t has the bindings of t0 and no others. */
  ghost predicate AgreeOutside(t: map<string, SymbolInfo>, t0: map<string, SymbolInfo>, names: seq<string>)
  {
    t - NameSet(names) == t0 - NameSet(names)
  }

  /** The table after defining the names in order, with indices from start on. */
  ghost function DefineAll(t: map<string, SymbolInfo>, names: seq<string>, typ: string, kind: Kind, start: nat): map<string, SymbolInfo>
    decreases |names|
  {
    if names == [] then t
    else DefineAll(t, names[..|names| - 1], typ, kind, start)[names[|names| - 1] := SymbolInfo(typ, kind, start + |names| - 1)]
  }

  /** One more name defined with index start + j extends DefineAll of the first j names. */
  lemma DefineAllNext(t: map<string, SymbolInfo>, names: seq<string>, j: nat, next: nat, typ: string, kind: Kind, start: nat,
                      before: map<string, SymbolInfo>, after: map<string, SymbolInfo>, index: nat)
    requires j < |names| && next == j + 1 && index == start + j
    requires before == DefineAll(t, names[..j], typ, kind, start)
    requires after == before[names[j] := SymbolInfo(typ, kind, index)]
    ensures after == DefineAll(t, names[..next], typ, kind, start)
  {
    DefineAllStep(t, names, j, next, typ, kind, start);
  }

  lemma DefineAllStep(t: map<string, SymbolInfo>, names: seq<string>, j: nat, next: nat, typ: string, kind: Kind, start: nat)
    requires j < |names| && next == j + 1
    ensures DefineAll(t, names[..next], typ, kind, start) ==
            DefineAll(t, names[..j], typ, kind, start)[names[j] := SymbolInfo(typ, kind, start + j)]
  {
    assert names[..next][..j] == names[..j];
  }

  /** After all the names: the whole sequence defined, each name bound to its own index. */
  lemma DefineAllWhole(t: map<string, SymbolInfo>, names: seq<string>, j: nat, typ: string, kind: Kind, start: nat)
    requires j == |names|
    ensures DefineAll(t, names[..j], typ, kind, start) == DefineAll(t, names, typ, kind, start)
    ensures DefinedInOrder(DefineAll(t, names, typ, kind, start), names, |names|, typ, kind, start)
    ensures AgreeOutside(DefineAll(t, names, typ, kind, start), t, names)
  {
    assert names[..j] == names;
    DefineAllInOrder(t, names, typ, kind, start);
    DefineAllAgrees(t, names, typ, kind, start);
  }

  /** Defining names binds each name that is not defined again later to its own index. */
  lemma {:induction false} DefineAllInOrder(t: map<string, SymbolInfo>, names: seq<string>, typ: string, kind: Kind, start: nat)
    ensures DefinedInOrder(DefineAll(t, names, typ, kind, start), names, |names|, typ, kind, start)
    decreases |names|
  {
    if names != [] {
      var j := |names| - 1;
      DefineAllInOrder(t, names[..j], typ, kind, start);
      DefinedInOrderPrefix(DefineAll(t, names[..j], typ, kind, start), names, j, typ, kind, start);
      DefinedInOrderStep(DefineAll(t, names[..j], typ, kind, start), names, j, j + 1, typ, kind, start, start + j);
    }
  }

  /** DefinedInOrder of the first n names depends only on those names. */
  lemma DefinedInOrderPrefix(t: map<string, SymbolInfo>, names: seq<string>, n: nat, typ: string, kind: Kind, start: nat)
    requires n <= |names| && DefinedInOrder(t, names[..n], n, typ, kind, start)
    ensures DefinedInOrder(t, names, n, typ, kind, start)
  {
    forall i | 0 <= i < n && names[i] !in names[i + 1..n]
      ensures names[i] in t && t[names[i]] == SymbolInfo(typ, kind, start + i)
    {
      assert names[..n][i] == names[i];
      assert names[..n][i + 1..n] == names[i + 1..n];
    }
  }

  /** Defining names leaves every other binding of the table as it was. */
  lemma {:induction false} DefineAllAgrees(t: map<string, SymbolInfo>, names: seq<string>, typ: string, kind: Kind, start: nat)
    ensures AgreeOutside(DefineAll(t, names, typ, kind, start), t, names)
    decreases |names|
  {
    if names != [] {
      var j := |names| - 1;
      DefineAllAgrees(t, names[..j], typ, kind, start);
      AgreeOutsideStep(DefineAll(t, names[..j], typ, kind, start), t, names, j, SymbolInfo(typ, kind, start + j));
      assert names[..j + 1] == names;
    }
  }

  lemma AgreeOutsideStep(t: map<string, SymbolInfo>, t0: map<string, SymbolInfo>, names: seq<string>, j: nat, info: SymbolInfo)
    requires j < |names| && AgreeOutside(t, t0, names[..j])
    ensures AgreeOutside(t[names[j] := info], t0, names[..j + 1])
  {
    var before := NameSet(names[..j]);
    var after := NameSet(names[..j + 1]);
    assert names[..j + 1] == names[..j] + [names[j]];
    assert after == before + {names[j]};
    assert t[names[j] := info] - after == (t - before) - {names[j]};
    assert t0 - after == (t0 - before) - {names[j]};
  }

  lemma CounterBumped(counts: seq<nat>, counters: seq<nat>, k: nat, start: nat, j: nat, next: nat, index: nat)
    requires k < |counts| && counters == counts[k := (start + j) as nat]
    requires index == start + j && next == j + 1
    ensures counters[k := index + 1] == counts[k := (start + next) as nat]
  {
    assert counts[k := (start + j) as nat][k := (start + next) as nat] == counts[k := (start + next) as nat];
  }

  /**
   * The label counter. The source keeps it in a static field, so it starts
   * at 0 once and every analyzer draws its labels from the same counter.
   */
  class LabelCounter {
    var next: nat

    constructor ()
      ensures next == 0
    {
      next := 0;
    }
  }

  /** The analyzer: the class being compiled, its field count, its symbol table, and the shared label counter. */
  class JackAnalyzer {
    var symbolTable: SymbolTable
    var thisClassName: string
    var fields: nat
    const labels: LabelCounter

    ghost predicate Valid()
      reads this, symbolTable, symbolTable.kindNo
    {
      symbolTable.Valid()
    }

    /** A new analyzer draws its labels from the given counter, which it leaves where it is. */
    constructor (labels: LabelCounter)
      ensures Valid() && fresh(symbolTable) && fresh(symbolTable.kindNo)
      ensures symbolTable.classTable == map[] && symbolTable.subroutineTable == map[] && symbolTable.kindNo[..] == [0, 0, 0, 0]
      ensures this.labels == labels && labels.next == old(labels.next) && fields == 0
    {
      symbolTable := new SymbolTable();
      thisClassName := "";
      fields := 0;
      this.labels := labels;
    }

    /** "LABEL:" followed by the shared counter, which then moves on. */
    method GetLabel() returns (name: string)
      modifies labels
      ensures name == LabelName(old(labels.next)) && labels.next == old(labels.next) + 1
    {
      name := LabelName(labels.next);
      labels.next := labels.next + 1;
    }

    /** Starts a class with a fresh symbol table. */
    method InitClass(name: string) returns (r: string)
      modifies this
      ensures Valid() && fresh(symbolTable) && fresh(symbolTable.kindNo)
      ensures symbolTable.classTable == map[] && symbolTable.subroutineTable == map[] && symbolTable.kindNo[..] == [0, 0, 0, 0]
      ensures thisClassName == name && r == name
      ensures fields == old(fields) && labels.next == old(labels.next)
    {
      symbolTable := new SymbolTable();
      thisClassName := name;
      r := name;
    }

    /** Defines a parameter as the next ARG. */
    method DefineArg(typ: string, name: string) returns (r: string)
      requires Valid()
      modifies symbolTable, symbolTable.kindNo
      ensures Valid() && r == ""
      ensures symbolTable.subroutineTable == old(symbolTable.subroutineTable)[name := SymbolInfo(typ, Arg, old(symbolTable.kindNo[2]))]
      ensures symbolTable.classTable == old(symbolTable.classTable)
      ensures symbolTable.kindNo[..] == old(symbolTable.kindNo[..])[2 := old(symbolTable.kindNo[2]) + 1]
    {
      symbolTable.Define(name, typ, Arg);
      r := "";
    }

    /**
     * Defines the names in order with one type and kind; they get the next
     * indices of the kind in order (a repeated name keeps its last index).
     */
    method DefineVariable(typ: string, varNames: seq<string>, kind: Kind) returns (count: nat)
      requires Valid()
      modifies symbolTable, symbolTable.kindNo
      ensures Valid() && count == |varNames|
      ensures symbolTable.kindNo[..] == old(symbolTable.kindNo[..])[KindIndex(kind) := old(symbolTable.kindNo[KindIndex(kind)]) + |varNames|]
      ensures DefinedInOrder(symbolTable.TableOf(kind), varNames, |varNames|, typ, kind, old(symbolTable.kindNo[KindIndex(kind)]))
      ensures symbolTable.TableOf(kind) == DefineAll(old(symbolTable.TableOf(kind)), varNames, typ, kind, old(symbolTable.kindNo[KindIndex(kind)]))
      ensures AgreeOutside(symbolTable.TableOf(kind), old(symbolTable.TableOf(kind)), varNames)
      ensures IsClassKind(kind) ==> symbolTable.subroutineTable == old(symbolTable.subroutineTable)
      ensures !IsClassKind(kind) ==> symbolTable.classTable == old(symbolTable.classTable)
    {
      ghost var start: nat := symbolTable.kindNo[KindIndex(kind)];
      ghost var counts := symbolTable.kindNo[..];
      ghost var table0 := symbolTable.TableOf(kind);
      ghost var classes0 := symbolTable.classTable;
      ghost var locals0 := symbolTable.subroutineTable;
      var j: nat := 0;
      while j < |varNames|
        invariant j <= |varNames|
        invariant Valid()
        invariant symbolTable.kindNo[..] == counts[KindIndex(kind) := (start + j) as nat]
        invariant symbolTable.TableOf(kind) == DefineAll(table0, varNames[..j], typ, kind, start)
        invariant IsClassKind(kind) ==> symbolTable.subroutineTable == locals0
        invariant !IsClassKind(kind) ==> symbolTable.classTable == classes0
      {
        j := DefineNext(typ, varNames, j, kind, start, counts, table0, classes0, locals0);
      }
      DefineAllWhole(table0, varNames, j, typ, kind, start);
      count := |varNames|;
    }

    /** One round of DefineVariable's loop: defines the j-th name. */
    method DefineNext(typ: string, varNames: seq<string>, j: nat, kind: Kind, ghost start: nat, ghost counts: seq<nat>,
                      ghost table0: map<string, SymbolInfo>, ghost classes0: map<string, SymbolInfo>,
                      ghost locals0: map<string, SymbolInfo>) returns (next: nat)
      requires Valid() && j < |varNames| && |counts| == 4
      requires symbolTable.kindNo[..] == counts[KindIndex(kind) := (start + j) as nat]
      requires symbolTable.TableOf(kind) == DefineAll(table0, varNames[..j], typ, kind, start)
      requires IsClassKind(kind) ==> symbolTable.subroutineTable == locals0
      requires !IsClassKind(kind) ==> symbolTable.classTable == classes0
      modifies symbolTable, symbolTable.kindNo
      ensures next == j + 1 && next <= |varNames|
      ensures Valid()
      ensures symbolTable.kindNo[..] == counts[KindIndex(kind) := (start + next) as nat]
      ensures symbolTable.TableOf(kind) == DefineAll(table0, varNames[..next], typ, kind, start)
      ensures IsClassKind(kind) ==> symbolTable.subroutineTable == locals0
      ensures !IsClassKind(kind) ==> symbolTable.classTable == classes0
    {
      next := j + 1;
      ghost var counters := symbolTable.kindNo[..];
      ghost var before := symbolTable.TableOf(kind);
      var index := symbolTable.kindNo[KindIndex(kind)];
      assert index == counters[KindIndex(kind)] == start + j;
      symbolTable.Define(varNames[j], typ, kind);
      assert symbolTable.Valid();
      CounterBumped(counts, counters, KindIndex(kind), start, j, next, index);
      DefineAllNext(table0, varNames, j, next, typ, kind, start, before, symbolTable.TableOf(kind), index);
    }

    /** Starts a subroutine; a method first defines its hidden receiver argument. */
    method StartSubroutine(key: string) returns (r: string)
      requires Valid()
      modifies symbolTable, symbolTable.kindNo
      ensures Valid() && r == ""
      ensures symbolTable.classTable == old(symbolTable.classTable)
      ensures key == "method" ==>
        symbolTable.subroutineTable == map["" := SymbolInfo("int", Arg, 0)] &&
        symbolTable.kindNo[..] == [old(symbolTable.kindNo[0]), old(symbolTable.kindNo[1]), 1, 0]
      ensures key != "method" ==>
        symbolTable.subroutineTable == map[] &&
        symbolTable.kindNo[..] == [old(symbolTable.kindNo[0]), old(symbolTable.kindNo[1]), 0, 0]
    {
      symbolTable.StartSubroutine();
      if key == "method" {
        symbolTable.Define("", "int", Arg);
      }
      r := "";
    }

    /** The function header, then the statements' code; labels are numbered from the counter on. */
    method CreateSubroutine(key: string, name: string, stmts: seq<Stmt>, localVars: nat) returns (r: Compiled<seq<Command>>)
      modifies labels
      ensures var body := StmtsCode(symbolTable.CurrentScope(), stmts, old(labels.next));
        labels.next == body.next &&
        match body
        case Stopped(m, _) => r == SymbolNotFound(m)
        case Emitted(code, _) => r == Compiled(SubroutineHeader(key, thisClassName, name, fields, localVars) + code)
    {
      var body := StmtsCode(symbolTable.CurrentScope(), stmts, labels.next);
      labels.next := body.next;
      if body.Stopped? {
        return SymbolNotFound(body.message);
      }
      r := Compiled(SubroutineHeader(key, thisClassName, name, fields, localVars) + body.code);
    }
  }

  /**
   * Two analyzers over one counter: the labels of the second continue from
   * those of the first, as they do with the source's static counter.
   */
  method LabelsContinueAcrossAnalyzers() returns (first: string, second: string)
    ensures first == "LABEL:0" && second == "LABEL:1"
  {
    var labels := new LabelCounter();
    var one := new JackAnalyzer(labels);
    first := one.GetLabel();
    var two := new JackAnalyzer(labels);
    second := two.GetLabel();
    FirstLabels();
  }

  /**
   * A subroutine whose `if` tests an unknown variable fails, and the next
   * analyzer over the same counter continues after the two labels the
   * failed one took.
   */
  method LabelsTakenBeforeError() returns (r: Compiled<seq<Command>>, next: string)
    ensures r == SymbolNotFound(NotDefined("u")) && next == "LABEL:2"
  {
    var labels := new LabelCounter();
    var one := new JackAnalyzer(labels);
    UnknownIfInEmptyScope(0);
    r := one.CreateSubroutine("function", "f", [IfStmt(ReferVar("u"), [], [])], 0);
    var two := new JackAnalyzer(labels);
    next := two.GetLabel();
    ThirdLabel();
  }

  lemma {:induction false} UnknownIfInEmptyScope(n: nat)
    ensures StmtsCode(Scope(map[], map[]), [IfStmt(ReferVar("u"), [], [])], n) == Stopped(NotDefined("u"), n + 2)
  {
    var scope := Scope(map[], map[]);
    var s := IfStmt(ReferVar("u"), [], []);
    assert GetInfo(scope, "u").None?;
    UnknownConditionTakesLabels(scope, "u", [], [], [], n);
    assert [s][..0] == [];
    assert StmtsCode(scope, [], n) == Emitted([], n);
  }

  lemma {:induction false} ThirdLabel()
    ensures LabelName(2) == "LABEL:2"
  {
    assert NatToString(2) == "2";
  }

  lemma {:induction false} FirstLabels()
    ensures LabelName(0) == "LABEL:0" && LabelName(1) == "LABEL:1"
  {
    assert NatToString(0) == "0" && NatToString(1) == "1";
  }

  /** In a method, the first declared parameter is argument 1: argument 0 is the receiver. */
  method MethodArgumentsStartAtOne(analyzer: JackAnalyzer, typ: string, name: string)
    requires analyzer.Valid() && name != ""
    modifies analyzer.symbolTable, analyzer.symbolTable.kindNo
    ensures GetInfo(analyzer.symbolTable.CurrentScope(), name) == Some(SymbolInfo(typ, Arg, 1)) || name in analyzer.symbolTable.classTable
  {
    var _ := analyzer.StartSubroutine("method");
    var _ := analyzer.DefineArg(typ, name);
  }
}
