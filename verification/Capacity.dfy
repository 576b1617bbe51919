/** The code buffer is never too small: what fits the arena as a tree fits the buffer as code. */
module Capacity {
  import opened Words
  import opened Source
  import opened Codegen
  import opened Parser
  import opened Grammar
  import opened Printing
  import X = X86

  const BYTES_PER_NODE := 13   // a loop's test and jump back, or those of an `if` with an `else`
  const FRAME_SIZE := 18       // entry, closing return of 0 and exit

  // ---- sizes of instruction lists ----

  lemma SizeAppend(a: seq<Op>, b: seq<Op>)
    ensures Size(a + b) == Size(a) + Size(b)
  {
    hide Assemble;
    AssembleAppend(a, b);
  }

  lemma SizeFirst(i: Op, rest: seq<Op>)
    ensures Size([i] + rest) == |X.Encode(i)| + Size(rest)
  {
    hide X.Encode;
    assert ([i] + rest)[1..] == rest;
  }

  lemma SizeOne(i: Op)
    ensures Size([i]) == |X.Encode(i)|
  {
    hide X.Encode;
    SizeFirst(i, []);
    assert [i] + [] == [i];
  }

  lemma OpSize(op: BinOp)
    ensures Size(OpCode(op)) <= 8
  {
    hide Assemble;
    match op
    case Add => SizeOne(X.Add(EAX, X.ECX));
    case Sub => SizeOne(X.Sub(EAX, X.ECX));
    case Mul => SizeOne(X.Imul(X.EAX, ECX));
    case Div =>
      SizeFirst(X.Cdq, [X.Idiv(ECX)]);
      SizeOne(X.Idiv(ECX));
      assert OpCode(op) == [X.Cdq] + [X.Idiv(ECX)];
    case Eq => CompareSize(0x4);
    case Ne => CompareSize(0x5);
    case Lt => CompareSize(0xC);
    case Gt => CompareSize(0xF);
    case Le => CompareSize(0xE);
    case Ge => CompareSize(0xD);
  }

  lemma CompareSize(cc: nat)
    requires cc < 16
    ensures Size(Compare(cc)) == 8
  {
    hide Assemble;
    var cmp, flag, widen := X.Cmp(EAX, X.ECX), X.Setcc(cc, EAX), X.Movzx(X.EAX, EAX);
    SizeFirst(cmp, [flag, widen]);
    SizeFirst(flag, [widen]);
    SizeOne(widen);
    assert Compare(cc) == [cmp] + [flag, widen] && [flag, widen] == [flag] + [widen];
  }

  lemma EpilogueSize()
    ensures Size(Epilogue()) == 4
  {
    hide Assemble;
    var leave, pop := X.Mov(ESP, X.EBP), X.Pop(X.EBP);
    SizeFirst(leave, [pop, X.Ret]);
    SizeFirst(pop, [X.Ret]);
    SizeOne(X.Ret);
    assert Epilogue() == [leave] + [pop, X.Ret] && [pop, X.Ret] == [pop] + [X.Ret];
  }

  lemma PrintSize(printAddr: Int32)
    ensures Size(CallPrint(printAddr)) == 11
  {
    hide Assemble;
    var push, load, call, drop := X.Push(X.EAX), X.MovImm(X.EAX, printAddr), X.Call(EAX), X.AddImm8(ESP, 4);
    SizeFirst(push, [load, call, drop]);
    SizeFirst(load, [call, drop]);
    SizeFirst(call, [drop]);
    SizeOne(drop);
    assert CallPrint(printAddr) == [push] + [load, call, drop];
    assert [load, call, drop] == [load] + [call, drop] && [call, drop] == [call] + [drop];
  }

  lemma StoreSize(off: nat)
    ensures Size(StoreLocal(off)) == 3 && Size([X.MovRmImm(Local(off), 0)]) == 7
  {
    hide Assemble;
    SizeOne(X.Mov(Local(off), X.EAX));
    SizeOne(X.MovRmImm(Local(off), 0));
  }

  lemma PrologueSize(n: nat)
    ensures Size(Prologue(n)) <= 9
  {
    hide Assemble;
    var push, frame, room := X.Push(X.EBP), X.Mov(EBP, X.ESP), X.SubImm32(ESP, Wrap(4 * n));
    var rest := if n > 0 then [room] else [];
    SizeOne(room);
    SizeOne(push);
    SizeOne(frame);
    SizeAppend([push] + [frame], rest);
    SizeAppend([push], [frame]);
    assert Size([]) == 0 by { EmptySize(); }
    assert Prologue(n) == [push] + [frame] + rest;
  }

  lemma EmptySize()
    ensures Size([]) == 0
  {
  }

  // ---- bytes and nodes ----

  lemma {:induction false} ExprSize(e: Expr)
    ensures Size(ExprCode(e)) <= BYTES_PER_NODE * ExprNodes(e)
  {
    hide Assemble;
    match e
    case Num(v) => SizeOne(X.MovImm(X.EAX, v));
    case Var(off) => SizeOne(X.Load(X.EAX, Local(off)));
    case Neg(x) =>
      ExprSize(x);
      SizeAppend(ExprCode(x), [X.Neg(EAX)]);
      SizeOne(X.Neg(EAX));
    case Bin(op, l, r) =>
      ExprSize(l);
      ExprSize(r);
      InfixSize(ExprCode(l), ExprCode(r), op);
  }

  lemma InfixSize(a: seq<Op>, b: seq<Op>, op: BinOp)
    ensures Size(a + ([X.Push(X.EAX)] + (b + ([X.Mov(ECX, X.EAX), X.Pop(X.EAX)] + OpCode(op))))) <= Size(a) + Size(b) + 12
  {
    hide Assemble, OpCode;
    var push, move, pop := X.Push(X.EAX), X.Mov(ECX, X.EAX), X.Pop(X.EAX);
    var last := [move, pop] + OpCode(op);
    SizeAppend(a, [push] + (b + last));
    SizeFirst(push, b + last);
    SizeAppend(b, last);
    SizeFirst(move, [pop] + OpCode(op));
    SizeFirst(pop, OpCode(op));
    assert last == [move] + ([pop] + OpCode(op));
    OpSize(op);
  }

  /** No node of a tree costs more than thirteen bytes of code. */
  lemma {:induction false} StmtSize(s: Stmt, printAddr: Int32)
    ensures Size(StmtCode(s, printAddr)) <= BYTES_PER_NODE * StmtNodes(s)
    decreases s, 1
  {
    hide Assemble, ExprCode, Epilogue, StoreLocal, CallPrint, Test, Jump, Local;
    match s
    case Block(ss) => StmtsSize(ss, printAddr);
    case Decl(off, init) =>
      StoreSize(off);
      if init.Some? {
        ExprSize(init.value);
        SizeAppend(ExprCode(init.value), StoreLocal(off));
      }
    case Assign(off, e) =>
      StoreSize(off);
      ExprSize(e);
      SizeAppend(ExprCode(e), StoreLocal(off));
    case If(c, t, els) =>
      ExprSize(c);
      StmtSize(t, printAddr);
      if els.Some? {
        StmtSize(els.value, printAddr);
        ElseSize(ExprCode(c), StmtCode(t, printAddr), StmtCode(els.value, printAddr));
      } else {
        ThenSize(ExprCode(c), StmtCode(t, printAddr));
      }
    case While(c, b) =>
      ExprSize(c);
      StmtSize(b, printAddr);
      LoopSize(ExprCode(c), StmtCode(b, printAddr));
    case Print(e) =>
      ExprSize(e);
      PrintSize(printAddr);
      SizeAppend(ExprCode(e), CallPrint(printAddr));
    case Return(e) =>
      ExprSize(e);
      EpilogueSize();
      SizeAppend(ExprCode(e), Epilogue());
  }

  lemma {:induction false} StmtsSize(ss: seq<Stmt>, printAddr: Int32)
    ensures Size(StmtsCode(ss, printAddr)) <= BYTES_PER_NODE * StmtsNodes(ss)
    decreases ss, 0
  {
    hide Assemble, StmtCode, StmtNodes;
    if ss == [] {
      EmptySize();
    } else {
      StmtSize(ss[0], printAddr);
      StmtsSize(ss[1..], printAddr);
      SizeAppend(StmtCode(ss[0], printAddr), StmtsCode(ss[1..], printAddr));
    }
  }

  lemma ThenSize(c: seq<Op>, t: seq<Op>)
    ensures Size(c + (Test(Size(t)) + t)) == Size(c) + TEST_SIZE + Size(t)
  {
    hide Assemble, Test;
    FixedSizes(Size(t));
    SizeAppend(Test(Size(t)), t);
    SizeAppend(c, Test(Size(t)) + t);
  }

  lemma ElseSize(c: seq<Op>, t: seq<Op>, e: seq<Op>)
    ensures Size(c + (Test(Size(t) + JUMP_SIZE) + (t + (Jump(Size(e)) + e)))) ==
            Size(c) + TEST_SIZE + Size(t) + JUMP_SIZE + Size(e)
  {
    hide Assemble, Test, Jump;
    var test, jump := Test(Size(t) + JUMP_SIZE), Jump(Size(e));
    FixedSizes(Size(t) + JUMP_SIZE);
    FixedSizes(Size(e));
    SizeAppend(jump, e);
    SizeAppend(t, jump + e);
    SizeAppend(test, t + (jump + e));
    SizeAppend(c, test + (t + (jump + e)));
  }

  lemma LoopSize(c: seq<Op>, b: seq<Op>)
    ensures Size(c + (Test(Size(b) + JUMP_SIZE) + (b + Jump(-(Size(c) + TEST_SIZE + Size(b) + JUMP_SIZE))))) ==
            Size(c) + TEST_SIZE + Size(b) + JUMP_SIZE
  {
    hide Assemble, Test, Jump;
    var test, jump := Test(Size(b) + JUMP_SIZE), Jump(-(Size(c) + TEST_SIZE + Size(b) + JUMP_SIZE));
    FixedSizes(Size(b) + JUMP_SIZE);
    FixedSizes(-(Size(c) + TEST_SIZE + Size(b) + JUMP_SIZE));
    SizeAppend(b, jump);
    SizeAppend(test, b + jump);
    SizeAppend(c, test + (b + jump));
  }

  lemma ProgramSize(body: Stmt, n: nat, printAddr: Int32)
    ensures Size(ProgramCode(body, n, printAddr)) <= BYTES_PER_NODE * StmtNodes(body) + FRAME_SIZE
  {
    hide Assemble, StmtCode, StmtNodes, Prologue, Epilogue;
    var zero := [X.MovImm(X.EAX, 0)];
    PrologueSize(n);
    StmtSize(body, printAddr);
    SizeOne(X.MovImm(X.EAX, 0));
    EpilogueSize();
    SizeAppend(zero, Epilogue());
    SizeAppend(StmtCode(body, printAddr), zero + Epilogue());
    SizeAppend(Prologue(n), StmtCode(body, printAddr) + (zero + Epilogue()));
  }

  // ---- nodes of what is parsed ----

  lemma {:induction false} ResolveNodes(p: Phrase, syms: seq<string>)
    requires Resolve(p, syms).Some?
    ensures ExprNodes(Resolve(p, syms).value) == Nodes(p)
  {
    match p
    case Minus(q) => ResolveNodes(q, syms);
    case Infix(_, l, r) =>
      ResolveNodes(l, syms);
      ResolveNodes(r, syms);
    case Paren(q) => ResolveNodes(q, syms);
    case _ =>
  }

  lemma {:induction false} ResolveCommandNodes(c: Command, syms: seq<string>)
    requires ResolveCommand(c, syms).Some?
    ensures StmtNodes(ResolveCommand(c, syms).value.0) == NodesCommand(c)
    decreases c, 1
  {
    hide Resolve, Nodes, ExprNodes;
    match c
    case CBlock(cs) => ResolveCommandsNodes(cs, syms);
    case CDecl(name, init) => if init.Some? { ResolveNodes(init.value, syms + [name]); }
    case CAssign(_, p) => ResolveNodes(p, syms);
    case CIf(p, t, els) =>
      ResolveNodes(p, syms);
      ResolveCommandNodes(t, syms);
      if els.Some? { ResolveCommandNodes(els.value, ResolveCommand(t, syms).value.1); }
    case CWhile(p, b) =>
      ResolveNodes(p, syms);
      ResolveCommandNodes(b, syms);
    case CPrint(p) => ResolveNodes(p, syms);
    case CReturn(p) => ResolveNodes(p, syms);
  }

  lemma {:induction false} ResolveCommandsNodes(cs: seq<Command>, syms: seq<string>)
    requires ResolveCommands(cs, syms).Some?
    ensures StmtsNodes(ResolveCommands(cs, syms).value.0) == NodesCommands(cs)
    decreases cs, 0
  {
    if cs != [] {
      var first := ResolveCommand(cs[0], syms).value;
      ResolveCommandNodes(cs[0], syms);
      ResolveCommandsNodes(cs[1..], first.1);
      var rest := ResolveCommands(cs[1..], first.1).value.0;
      assert ([first.0] + rest)[1..] == rest;
    }
  }

  /** The code of whatever the front end accepts fits the code buffer. */
  lemma ParsedFits(src: string, printAddr: Int32)
    requires Parse(src).Ok?
    ensures Size(ProgramCode(Parse(src).v, |Parse(src).s.syms|, printAddr)) <= CODE_SIZE
  {
    hide Parse, ResolveCommand, NodesCommand, Assemble, ProgramCode, StmtNodes;
    var c := ParseSound(src);
    ResolveCommandNodes(c, []);
    ProgramSize(Parse(src).v, |Parse(src).s.syms|, printAddr);
  }
}
