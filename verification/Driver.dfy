/** The compiler's entry points: compile a text, save the bytes as a file, load them back. */
module Driver {
  import opened Words
  import opened Source
  import opened Codegen
  import opened Parser
  import Emitter
  import FrontEnd
  import Printing
  import Capacity
  import Correctness
  import X = X86

  // ---- compilation ----

  /** The outcome of a compilation: the bytes, or the first error. */
  datatype Compiled = Code(bytes: seq<Byte>) | Failed(error: Error)

  ghost function CompileText(src: string, printAddr: Int32): Compiled {
    match Parse(src)
    case Err(e) => Failed(e)
    case Ok(body, s) =>
      var bytes := Assemble(ProgramCode(body, |s.syms|, printAddr));
      if |bytes| <= CODE_SIZE then Code(bytes) else Failed(Emitter.TOO_LONG)
  }

  /** A text compiles if and only if it writes a program: the generator never runs out of room. */
  lemma CompilesIff(src: string, printAddr: Int32)
    ensures CompileText(src, printAddr).Code? <==> exists c :: Printing.Writes(src, c)
    ensures CompileText(src, printAddr).Failed? ==> Parse(src) == Err(CompileText(src, printAddr).error)
  {
    hide Parse, Assemble, ProgramCode, Printing.Writes;
    Printing.AcceptsIff(src);
    if Parse(src).Ok? {
      Capacity.ParsedFits(src, printAddr);
    }
  }

  /** From text to machine: the bytes compiled from a text return `v` with the printed `trace` if and only if the
      program the text writes does, wherever the bytes are loaded. */
  lemma CompiledTextRuns(src: string, w: X.World, m: X.Machine, sp: nat, v: Int32, trace: seq<Int32>)
    requires CompileText(src, w.printAddr) == Code(w.code) && Correctness.Loaded(w)
    requires m.Running? && m.eip == w.base && m.trace == [] && Correctness.CallerOutside(w, m, sp)
    requires sp % 4 == 0 && sp + 4 < TWO32 && m.regs[X.ESP] == Pattern(sp)
    requires 4 + 4 * |Parse(src).s.syms| + 4 * Correctness.StmtDepth(Parse(src).v) <= sp
    ensures WfStmt(Parse(src).v, |Parse(src).s.syms|)
    ensures (exists k: nat :: Correctness.BackAtCaller(m, X.Run(w, m, k), sp, v, trace)) <==>
            (exists fuel: nat :: Correctness.SourceRun(m, Parse(src).v, |Parse(src).s.syms|, sp, fuel) == Returned(v, trace))
  {
    hide Parse, Assemble, ProgramCode, X.Run, Correctness.BackAtCaller, Correctness.SourceRun, WfStmt;
    Printing.ParsedTrees(src);
    Correctness.ReturnsIff(w, m, Parse(src).v, |Parse(src).s.syms|, sp, v, trace);
  }

  class Compiler {
    const front: FrontEnd.FrontEnd
    const back: Emitter.Emitter

    ghost predicate Valid()
      reads this, front, back
    {
      front.Valid() && back.Valid()
    }

    constructor ()
      ensures Valid() && fresh(front) && fresh(back) && fresh(back.code)
    {
      front := new FrontEnd.FrontEnd();
      back := new Emitter.Emitter();
    }

    /** Returns the number of bytes generated into the code buffer, or -1 and the first error. */
    method Compile(src: string, printFn: Int32) returns (len: int, error: Option<Error>)
      requires Valid()
      modifies front, back, back.code
      ensures Valid()
      ensures match CompileText(src, printFn)
        case Code(bytes) => len == |bytes| && back.code[..len] == bytes && error.None?
        case Failed(e) => len == -1 && error == Some(e)
    {
      hide Assemble, ProgramCode, Program, Printing.Writes;
      back.Reset(printFn);
      front.Start(src);
      var program := front.ParseProgram();
      if front.error.Some? {
        return -1, front.error;
      }
      back.GenerateProgram(program.value, |front.syms|);
      ghost var bytes := Assemble(ProgramCode(program.value, |front.syms|, printFn));
      assert [] + bytes == bytes;
      assert CompileText(src, printFn) == if |bytes| <= CODE_SIZE then Code(bytes) else Failed(Emitter.TOO_LONG);
      if back.error.Some? {
        return -1, back.error;
      }
      return back.pos, None;
    }

    /** Checks a saved program and copies its code into the code buffer; -1 if it is not a saved program. */
    method LoadProgram(file: seq<Byte>) returns (len: int)
      requires Valid()
      modifies back.code
      ensures Valid()
      ensures match Loaded(file)
        case Some(code) => len == |code| && back.code[..len] == code
        case None => len == -1 && back.code[..] == old(back.code[..])
    {
      if |file| < HEADER_SIZE {
        return -1;
      }
      if file[0] != 0x52 || file[1] != 0x4B || file[2] != 0x58 || file[3] != 0x43 {
        return -1;
      }
      var codeLen: int := FromLittleEndian(file[4], file[5], file[6], file[7]);
      if codeLen < 0 || codeLen > CODE_SIZE || HEADER_SIZE + codeLen != |file| {
        return -1;
      }
      var k := 0;
      while k < codeLen
        invariant 0 <= k <= codeLen && back.code[..k] == file[HEADER_SIZE..HEADER_SIZE + k]
      {
        back.code[k] := file[HEADER_SIZE + k];
        k := k + 1;
      }
      return codeLen;
    }
  }

  // ---- saved programs ----

  const HEADER_SIZE := 8
  const MAGIC: seq<Byte> := [0x52, 0x4B, 0x58, 0x43]   // "RKXC"

  ghost function Saved(code: seq<Byte>): seq<Byte>
    requires |code| < TWO31
  {
    MAGIC + LittleEndian(|code|) + code
  }

  /** The code in a file, if the file is a saved program that fits the code buffer. */
  ghost function Loaded(file: seq<Byte>): Option<seq<Byte>> {
    if |file| < HEADER_SIZE || file[..4] != MAGIC then None else
    var n: int := FromLittleEndian(file[4], file[5], file[6], file[7]);
    if n < 0 || n > CODE_SIZE || HEADER_SIZE + n != |file| then None else Some(file[HEADER_SIZE..])
  }

  /** Packs `len` bytes of `code` into `out`; returns the bytes written, or -1 if they do not fit. */
  method SaveProgram(out: array<Byte>, max: int, code: seq<Byte>, len: int) returns (n: int)
    requires max <= out.Length && len <= |code| && len < TWO31
    modifies out
    ensures if len < 0 || HEADER_SIZE + len > max then n == -1 && out[..] == old(out[..])
            else n == HEADER_SIZE + len && out[..n] == Saved(code[..len]) && out[n..] == old(out[n..])
  {
    if len < 0 || HEADER_SIZE + len > max {
      return -1;
    }
    out[0], out[1], out[2], out[3] := 0x52, 0x4B, 0x58, 0x43;
    out[4] := len % 256;
    out[5] := len / 256 % 256;
    out[6] := len / 256 / 256 % 256;
    out[7] := len / 256 / 256 / 256 % 256;
    var k := 0;
    while k < len
      invariant 0 <= k <= len && out[..HEADER_SIZE] == MAGIC + LittleEndian(len)
      invariant out[HEADER_SIZE..HEADER_SIZE + k] == code[..k]
      invariant out[HEADER_SIZE + len..] == old(out[HEADER_SIZE + len..])
    {
      out[HEADER_SIZE + k] := code[k];
      k := k + 1;
    }
    n := HEADER_SIZE + len;
    assert out[..n] == out[..HEADER_SIZE] + out[HEADER_SIZE..n];
  }

  /** Loading undoes saving: compiled code comes back byte for byte, and nothing but a saved program loads. */
  lemma LoadedIff(file: seq<Byte>, code: seq<Byte>)
    ensures Loaded(file) == Some(code) <==> |code| <= CODE_SIZE && file == Saved(code)
  {
    if |code| <= CODE_SIZE && file == Saved(code) {
      WordBytes(|code|);
      assert file[..4] == MAGIC;
      assert file[4..8] == LittleEndian(|code|);
      assert file[8..] == code;
    }
    if Loaded(file) == Some(code) {
      var n := |code|;
      BytesWord(file[4], file[5], file[6], file[7]);
      assert file == file[..4] + [file[4], file[5], file[6], file[7]] + file[8..];
    }
  }

  lemma BytesWord(b0: Byte, b1: Byte, b2: Byte, b3: Byte)
    ensures LittleEndian(FromLittleEndian(b0, b1, b2, b3)) == [b0, b1, b2, b3]
  {
    var u := b0 + 0x100 * b1 + 0x1_0000 * b2 + 0x100_0000 * b3;
    var u1 := b1 + 0x100 * b2 + 0x1_0000 * b3;
    var u2 := b2 + 0x100 * b3;
    LowByte(u, b0, u1);
    LowByte(u1, b1, u2);
    LowByte(u2, b2, b3);
    LowByte(b3, b3, 0);
    assert Unsigned(FromLittleEndian(b0, b1, b2, b3)) == u;
  }

  lemma LowByte(u: nat, b: Byte, rest: nat)
    requires u == b + 0x100 * rest
    ensures u % 256 == b && u / 256 == rest
  {
  }
}
