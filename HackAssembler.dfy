/**
 * The Hack assembler sample (sample/HackAssembler.cs): the symbol table
 * with its predefined symbols, the dest/comp/jump tables and the 16-bit
 * C-instruction word, and the two passes of Assemble (label binding and
 * program counting, then variable allocation from address 16, then one
 * word per instruction).
 *
 * Each source line reaches Assemble as what the line grammar makes of it: an
 * A-instruction with a number or a symbol, a C-instruction with its three
 * mnemonics, a label, an empty line, or a line the grammar rejects (with the
 * grammar's message). The words are the 16-bit patterns of the shorts the
 * source returns.
 */
module HackAssembler {
  import opened Wrappers
  import opened Numerals

  // ---------------------------------------------------------------------
  // Symbol table

  function RegisterName(i: nat): string { "R" + NatToString(i) }

  /** The named registers SP, LCL, ARG, THIS and THAT. */
  function Pointers(): map<string, nat>
  {
    map["SP" := 0, "LCL" := 1, "ARG" := 2, "THIS" := 3, "THAT" := 4]
  }

  /** R0 .. R(n-1) bound to 0 .. n-1. */
  function Registers(n: nat): map<string, nat>
  {
    if n == 0 then map[] else Registers(n - 1)[RegisterName(n - 1) := n - 1]
  }

  ghost predicate IsRegisterName(name: string)
  {
    exists i :: 0 <= i <= 15 && name == RegisterName(i)
  }

  /**
   * The contents of a fresh symbol table: SP=0, LCL=1, ARG=2, THIS=3,
   * THAT=4, R0..R15 bound to 0..15, SCREEN=16384 and KBD=24576, and
   * nothing else.
   */
  ghost predicate IsFreshTable(t: map<string, nat>)
  {
    (forall name :: name in t <==> name in Pointers() || name == "SCREEN" || name == "KBD" || IsRegisterName(name)) &&
    (forall name :: name in Pointers() ==> t[name] == Pointers()[name]) &&
    t["SCREEN"] == 16384 && t["KBD"] == 24576 &&
    (forall i :: 0 <= i <= 15 ==> t[RegisterName(i)] == i)
  }

  lemma {:induction false} RegisterNameInjective(i: nat, j: nat)
    requires RegisterName(i) == RegisterName(j)
    ensures i == j
  {
    assert RegisterName(i)[1..] == NatToString(i);
    assert RegisterName(j)[1..] == NatToString(j);
    NatToStringInjective(i, j);
  }

  /** Registers(n) binds exactly R0 .. R(n-1), each to its number. */
  lemma {:induction false} RegistersSpec(n: nat)
    ensures forall name :: name in Registers(n) <==> exists i :: 0 <= i < n && name == RegisterName(i)
    ensures forall i :: 0 <= i < n ==> Registers(n)[RegisterName(i)] == i
  {
    if n > 0 {
      RegistersSpec(n - 1);
      forall i | 0 <= i < n - 1
        ensures Registers(n)[RegisterName(i)] == i
      {
        if RegisterName(i) == RegisterName(n - 1) {
          RegisterNameInjective(i, n - 1);
        }
      }
    }
  }

  /** A register name starts with 'R', which no other predefined name does. */
  lemma {:induction false} RegisterNotPointer(i: nat)
    ensures RegisterName(i) !in Pointers()
    ensures RegisterName(i) != "SCREEN" && RegisterName(i) != "KBD"
  {
    assert RegisterName(i)[0] == 'R';
  }

  /** The predefined symbols determine the table: there is only one fresh table. */
  lemma {:induction false} FreshTableUnique(t1: map<string, nat>, t2: map<string, nat>)
    requires IsFreshTable(t1) && IsFreshTable(t2)
    ensures t1 == t2
  {
    forall name | name in t1
      ensures t1[name] == t2[name]
    {
      if IsRegisterName(name) {
        var i :| 0 <= i <= 15 && name == RegisterName(i);
      }
    }
  }

  /** R(i) is not bound before the loop adds it. */
  lemma {:induction false} RegisterIsNew(i: nat)
    ensures RegisterName(i) !in Pointers() + Registers(i)
  {
    RegisterNotPointer(i);
    RegistersSpec(i);
    if RegisterName(i) in Registers(i) {
      var j :| 0 <= j < i && RegisterName(i) == RegisterName(j);
      RegisterNameInjective(i, j);
    }
  }

  lemma {:induction false} AddRegister(i: nat)
    ensures (Pointers() + Registers(i))[RegisterName(i) := i] == Pointers() + Registers(i + 1)
  {
  }

  /** After sixteen registers, exactly the register names are bound. */
  lemma {:induction false} AllRegisters(n: nat)
    requires n == 16
    ensures forall name :: name in Registers(n) <==> IsRegisterName(name)
    ensures forall i :: 0 <= i <= 15 ==> RegisterName(i) in Registers(n) && Registers(n)[RegisterName(i)] == i
  {
    RegistersSpec(n);
  }

  /** Adding SCREEN and KBD to the pointers and R0..R15 adds new names and gives a fresh table. */
  lemma {:induction false} FreshTableBuilt(registers: map<string, nat>)
    requires forall name :: name in registers <==> IsRegisterName(name)
    requires forall i :: 0 <= i <= 15 ==> RegisterName(i) in registers && registers[RegisterName(i)] == i
    ensures "SCREEN" !in Pointers() + registers && "KBD" !in Pointers() + registers
    ensures IsFreshTable((Pointers() + registers)["SCREEN" := 16384]["KBD" := 24576])
  {
    forall name | IsRegisterName(name)
      ensures name[0] == 'R' && name !in Pointers()
    {
      var i :| 0 <= i <= 15 && name == RegisterName(i);
      RegisterNotPointer(i);
    }
    assert "SCREEN"[0] != 'R' && "KBD"[0] != 'R';
    forall i | 0 <= i <= 15
      ensures RegisterName(i) != "SCREEN" && RegisterName(i) != "KBD" && RegisterName(i) !in Pointers()
    {
      RegisterNotPointer(i);
    }
  }

  /** The assembler's symbol table: a dictionary from names to addresses. */
  class SymbolTable {
    var table: map<string, nat>

    constructor ()
      ensures IsFreshTable(table)
    {
      table := Pointers();
      new;
      var i := 0;
      while i <= 15
        invariant 0 <= i <= 16
        invariant table == Pointers() + Registers(i)
      {
        // Dictionary.Add: the name must not be bound yet.
        RegisterIsNew(i);
        AddRegister(i);
        table := table[RegisterName(i) := i];
        i := i + 1;
      }
      AllRegisters(i);
      FreshTableBuilt(Registers(i));
      table := table["SCREEN" := 16384];
      table := table["KBD" := 24576];
    }

    /** Binds name to value, overwriting any earlier binding. */
    method AddEntry(name: string, value: nat)
      modifies this
      ensures table == old(table)[name := value]
    {
      table := table[name := value];
    }

    method Contains(name: string) returns (b: bool)
      ensures b <==> name in table
    {
      b := name in table;
    }

    /** The address of name; None is the "Symbol not defined" exception. */
    method GetAddress(name: string) returns (r: Option<nat>)
      ensures r.Some? <==> name in table
      ensures r.Some? ==> r.value == table[name]
    {
      if name !in table {
        return None;
      }
      return Some(table[name]);
    }
  }

  // ---------------------------------------------------------------------
  // Instruction encoding

  /** The mnemonic tables of pass 2, in the order of their ordered choices. */
  const DestTable: seq<(string, nat)> :=
    [("AMD", 7), ("AM", 5), ("AD", 6), ("MD", 3), ("M", 1), ("D", 2), ("A", 4)]

  const CompTable: seq<(string, nat)> :=
    [("0", 0x2A), ("1", 0x3F), ("-1", 0x3A), ("!D", 0x0D), ("!A", 0x31), ("-D", 0x0F),
     ("-A", 0x33), ("D+1", 0x1F), ("A+1", 0x37), ("D-1", 0x0E), ("A-1", 0x32),
     ("-A", 0x33), ("D+A", 0x02), ("D-A", 0x13), ("A-D", 0x07), ("D&A", 0x00),
     ("D|A", 0x15), ("!M", 0x71), ("-M", 0x73), ("-M", 0x73), ("M+1", 0x77),
     ("M-1", 0x72), ("D+M", 0x42), ("D-M", 0x53), ("M-D", 0x47), ("D&M", 0x40),
     ("D|M", 0x55), ("D", 0x0C), ("A", 0x30), ("M", 0x70)]

  const JumpTable: seq<(string, nat)> :=
    [("JGT", 1), ("JEQ", 2), ("JGE", 3), ("JLT", 4), ("JNE", 5), ("JLE", 6), ("JMP", 7)]

  /** The code of the first entry with the given mnemonic. */
  function Lookup(table: seq<(string, nat)>, mnemonic: string): (r: Option<nat>)
    ensures r.Some? <==> exists i :: 0 <= i < |table| && table[i].0 == mnemonic
    ensures r.Some? ==> exists i :: 0 <= i < |table| && table[i] == (mnemonic, r.value)
  {
    if table == [] then None
    else if table[0].0 == mnemonic then Some(table[0].1)
    else
      var r := Lookup(table[1..], mnemonic);
      assert forall i :: 0 < i < |table| ==> table[i] == table[1..][i - 1];
      r
  }

  /** An absent dest or jump field encodes as 0. */
  function FieldCode(table: seq<(string, nat)>, mnemonic: Option<string>): nat
  {
    match mnemonic
    case None => 0
    case Some(m) => match Lookup(table, m) case Some(code) => code case None => 0
  }

  /** 0xe000 | comp << 6 | dest << 3 | jump, as the 16 bits of the short the source emits. */
  function CWord(dest: bv16, comp: bv16, jump: bv16): bv16
  {
    0xe000 | (comp << 6) | (dest << 3) | jump
  }

  /** The three fields occupy disjoint bits below the three set top bits, so they can be read back. */
  lemma {:induction false} CWordFields(dest: bv16, comp: bv16, jump: bv16)
    requires dest < 8 && comp < 128 && jump < 8
    ensures CWord(dest, comp, jump) >> 13 == 7
    ensures (CWord(dest, comp, jump) >> 6) & 0x7f == comp
    ensures (CWord(dest, comp, jump) >> 3) & 0x7 == dest
    ensures CWord(dest, comp, jump) & 0x7 == jump
    ensures CWord(dest, comp, jump) == 0xe000 + comp * 64 + dest * 8 + jump
  {
  }

  /** Every dest and jump code fits in three bits and every comp code in seven. */
  lemma {:induction false} TablesFit()
    ensures forall i :: 0 <= i < |DestTable| ==> 0 < DestTable[i].1 < 8
    ensures forall i :: 0 <= i < |JumpTable| ==> 0 < JumpTable[i].1 < 8
    ensures forall i :: 0 <= i < |CompTable| ==> CompTable[i].1 < 128
  {
  }

  /** The dest code is the set of destination registers: A is bit 2, D bit 1, M bit 0. */
  lemma {:induction false} DestBitsName()
    ensures forall i :: 0 <= i < |DestTable| ==>
      (DestTable[i].1 / 4 % 2 == 1 <==> 'A' in DestTable[i].0) &&
      (DestTable[i].1 / 2 % 2 == 1 <==> 'D' in DestTable[i].0) &&
      (DestTable[i].1 % 2 == 1 <==> 'M' in DestTable[i].0)
  {
  }

  /** The a-bit (bit 6 of comp) is set exactly for the computations that read M. */
  lemma {:induction false} CompABit()
    ensures forall i :: 0 <= i < |CompTable| ==> (CompTable[i].1 >= 64 <==> 'M' in CompTable[i].0)
  {
  }

  /** The mnemonic of a comp code, reading the table backwards. */
  function CompMnemonic(code: nat): Option<string>
  {
    if code == 0x2A then Some("0") else if code == 0x3F then Some("1") else if code == 0x3A then Some("-1")
    else if code == 0x0D then Some("!D") else if code == 0x31 then Some("!A") else if code == 0x0F then Some("-D")
    else if code == 0x33 then Some("-A") else if code == 0x1F then Some("D+1") else if code == 0x37 then Some("A+1")
    else if code == 0x0E then Some("D-1") else if code == 0x32 then Some("A-1") else if code == 0x02 then Some("D+A")
    else if code == 0x13 then Some("D-A") else if code == 0x07 then Some("A-D") else if code == 0x00 then Some("D&A")
    else if code == 0x15 then Some("D|A") else if code == 0x71 then Some("!M") else if code == 0x73 then Some("-M")
    else if code == 0x77 then Some("M+1") else if code == 0x72 then Some("M-1") else if code == 0x42 then Some("D+M")
    else if code == 0x53 then Some("D-M") else if code == 0x47 then Some("M-D") else if code == 0x40 then Some("D&M")
    else if code == 0x55 then Some("D|M") else if code == 0x0C then Some("D") else if code == 0x30 then Some("A")
    else if code == 0x70 then Some("M") else None
  }

  /** Distinct comp mnemonics have distinct codes (the repeated entries repeat their codes), so a word can be disassembled. */
  lemma {:induction false} CompCodesDecode()
    ensures forall i :: 0 <= i < |CompTable| ==> CompMnemonic(CompTable[i].1) == Some(CompTable[i].0)
  {
  }

  // ---------------------------------------------------------------------
  // Lines and the two passes

  datatype Line =
    | AConst(value: nat)
    | ASymbol(name: string)
    | CInstr(dest: Option<string>, comp: string, jump: Option<string>)
    | LabelDecl(name: string)
    | Blank
    | Unparsable(message: string)

  predicate Known(table: seq<(string, nat)>, m: Option<string>)
  {
    m.Some? ==> Lookup(table, m.value).Some?
  }

  /** What the line grammar produces: C-instructions carry mnemonics of the tables. */
  predicate IsParsed(line: Line)
  {
    line.CInstr? ==> Known(DestTable, line.dest) && Lookup(CompTable, line.comp).Some? && Known(JumpTable, line.jump)
  }

  type ParsedLine = line: Line | IsParsed(line) witness Blank

  predicate IsInstruction(line: Line) { line.AConst? || line.ASymbol? || line.CInstr? }

  /** The number of A- and C-instructions among the lines. */
  function InstructionCount(lines: seq<Line>): nat
  {
    if lines == [] then 0
    else InstructionCount(lines[..|lines| - 1]) + if IsInstruction(lines[|lines| - 1]) then 1 else 0
  }

  /** The message of the first line the grammar rejects. */
  function FirstError(lines: seq<Line>): Option<string>
  {
    if lines == [] then None
    else
      var before := FirstError(lines[..|lines| - 1]);
      if before.Some? then before
      else match lines[|lines| - 1] case Unparsable(m) => Some(m) case _ => None
  }

  datatype Pass1State = Pass1State(table: map<string, nat>, variables: seq<string>, pc: nat)

  /** One line of pass 1: labels bind the current pc, symbols are collected, instructions count. */
  function Step1(st: Pass1State, line: Line): Pass1State
  {
    match line
    case LabelDecl(name) => st.(table := st.table[name := st.pc])
    case ASymbol(name) =>
      st.(variables := if name in st.variables then st.variables else st.variables + [name], pc := st.pc + 1)
    case AConst(_) => st.(pc := st.pc + 1)
    case CInstr(_, _, _) => st.(pc := st.pc + 1)
    case Blank => st
    case Unparsable(_) => st
  }

  function Pass1(init: map<string, nat>, lines: seq<Line>): Pass1State
  {
    if lines == [] then Pass1State(init, [], 0)
    else Step1(Pass1(init, lines[..|lines| - 1]), lines[|lines| - 1])
  }

  datatype Allocation = Allocation(table: map<string, nat>, next: nat)

  /** Binds each variable that is still unbound to the next free address, from 16. */
  function Allocate(table: map<string, nat>, variables: seq<string>): Allocation
  {
    if variables == [] then Allocation(table, 16)
    else
      var a := Allocate(table, variables[..|variables| - 1]);
      var v := variables[|variables| - 1];
      if v in a.table then a else Allocation(a.table[v := a.next], a.next + 1)
  }

  function FinalTable(init: map<string, nat>, lines: seq<Line>): map<string, nat>
  {
    Allocate(Pass1(init, lines).table, Pass1(init, lines).variables).table
  }

  /** The short of an address: its low 16 bits. */
  function ToWord(v: nat): bv16 { (v % 0x10000) as bv16 }

  predicate SymbolsDefined(lines: seq<Line>, table: map<string, nat>)
  {
    forall i :: 0 <= i < |lines| && lines[i].ASymbol? ==> lines[i].name in table
  }

  /** The words pass 2 emits for one line: one per instruction, none for labels and empty lines. */
  function Words(line: ParsedLine, table: map<string, nat>): seq<bv16>
    requires line.ASymbol? ==> line.name in table
  {
    match line
    case AConst(v) => [ToWord(v)]
    case ASymbol(name) => [ToWord(table[name])]
    case CInstr(dest, comp, jump) =>
      [CWord(ToWord(FieldCode(DestTable, dest)), ToWord(Lookup(CompTable, comp).value), ToWord(FieldCode(JumpTable, jump)))]
    case LabelDecl(_) => []
    case Blank => []
    case Unparsable(_) => []
  }

  function Pass2(lines: seq<ParsedLine>, table: map<string, nat>): seq<bv16>
    requires SymbolsDefined(lines, table)
  {
    if lines == [] then []
    else Pass2(lines[..|lines| - 1], table) + Words(lines[|lines| - 1], table)
  }

  datatype Assembly = Machine(words: seq<bv16>) | AssemblyError(message: string)

  /** The program the two passes produce, or the first grammar error. */
  function AssembleSpec(init: map<string, nat>, lines: seq<ParsedLine>): Assembly
  {
    match FirstError(lines)
    case Some(m) => AssemblyError(m)
    case None =>
      AllSymbolsDefined(init, lines);
      Machine(Pass2(lines, FinalTable(init, lines)))
  }

  // ---------------------------------------------------------------------
  // Properties of the passes

  /** Every symbol used by an A-instruction is among pass 1's variables, which hold no duplicates. */
  lemma {:induction false} VariablesCollected(init: map<string, nat>, lines: seq<Line>)
    ensures forall i :: 0 <= i < |lines| && lines[i].ASymbol? ==> lines[i].name in Pass1(init, lines).variables
    ensures forall i, j :: 0 <= i < j < |Pass1(init, lines).variables| ==> Pass1(init, lines).variables[i] != Pass1(init, lines).variables[j]
  {
    if lines != [] {
      var prefix := lines[..|lines| - 1];
      VariablesCollected(init, prefix);
      forall i | 0 <= i < |lines| - 1 && lines[i].ASymbol?
        ensures lines[i].name in Pass1(init, lines).variables
      {
        assert lines[i] == prefix[i];
      }
    }
  }

  /** Allocation keeps every existing binding, and binds every variable. */
  lemma {:induction false} AllocateKeeps(table: map<string, nat>, variables: seq<string>)
    ensures forall n :: n in table ==> n in Allocate(table, variables).table && Allocate(table, variables).table[n] == table[n]
    ensures forall v :: v in variables ==> v in Allocate(table, variables).table
    ensures forall n :: n in Allocate(table, variables).table ==> n in table || n in variables
  {
    if variables != [] {
      AllocateKeeps(table, variables[..|variables| - 1]);
      assert forall v :: v in variables ==> v in variables[..|variables| - 1] || v == variables[|variables| - 1];
    }
  }

  /** The "Symbol not defined" exception of pass 2 cannot happen. */
  lemma {:induction false} AllSymbolsDefined(init: map<string, nat>, lines: seq<Line>)
    ensures SymbolsDefined(lines, FinalTable(init, lines))
  {
    VariablesCollected(init, lines);
    AllocateKeeps(Pass1(init, lines).table, Pass1(init, lines).variables);
  }

  /** Pass 2 emits exactly one word per A- or C-instruction. */
  lemma {:induction false} OneWordPerInstruction(lines: seq<ParsedLine>, table: map<string, nat>)
    requires SymbolsDefined(lines, table)
    ensures |Pass2(lines, table)| == InstructionCount(lines)
  {
    if lines != [] {
      OneWordPerInstruction(lines[..|lines| - 1], table);
    }
  }

  /** Pass 1's pc counts the instructions before the current line. */
  lemma {:induction false} PcCounts(init: map<string, nat>, lines: seq<Line>)
    ensures Pass1(init, lines).pc == InstructionCount(lines)
  {
    if lines != [] {
      PcCounts(init, lines[..|lines| - 1]);
    }
  }

  predicate NoLaterLabel(lines: seq<Line>, i: nat, name: string)
  {
    forall j :: i < j < |lines| ==> lines[j] != LabelDecl(name)
  }

  /** The last declaration of a label binds it to the address of the next instruction. */
  lemma {:induction false} LabelBinding(init: map<string, nat>, lines: seq<Line>, i: nat, name: string)
    requires i < |lines| && lines[i] == LabelDecl(name) && NoLaterLabel(lines, i, name)
    ensures name in Pass1(init, lines).table && Pass1(init, lines).table[name] == InstructionCount(lines[..i])
  {
    var prefix := lines[..|lines| - 1];
    if i == |lines| - 1 {
      PcCounts(init, prefix);
      assert prefix == lines[..i];
    } else {
      assert prefix[i] == LabelDecl(name);
      assert NoLaterLabel(prefix, i, name);
      LabelBinding(init, prefix, i, name);
      assert prefix[..i] == lines[..i];
    }
  }

  /** The variables allocation binds: those not yet in the table, in order. */
  function Unbound(table: map<string, nat>, variables: seq<string>): seq<string>
  {
    if variables == [] then []
    else
      var init := Unbound(table, variables[..|variables| - 1]);
      var v := variables[|variables| - 1];
      if v in table then init else init + [v]
  }

  /** Allocation gives the unbound variables 16, 17, ... in order, when the variables are distinct. */
  lemma {:induction false} AllocateConsecutive(table: map<string, nat>, variables: seq<string>)
    requires forall i, j :: 0 <= i < j < |variables| ==> variables[i] != variables[j]
    ensures Allocate(table, variables).next == 16 + |Unbound(table, variables)|
    ensures forall k :: 0 <= k < |Unbound(table, variables)| ==>
      Unbound(table, variables)[k] in Allocate(table, variables).table &&
      Allocate(table, variables).table[Unbound(table, variables)[k]] == 16 + k
  {
    if variables != [] {
      var init := variables[..|variables| - 1];
      var v := variables[|variables| - 1];
      AllocateConsecutive(table, init);
      AllocateKeeps(table, init);
      var a := Allocate(table, init);
      var u := Unbound(table, init);
      assert v !in init;
      if v !in table {
        assert v !in a.table;
        forall k | 0 <= k < |u|
          ensures u[k] != v
        {
          UnboundFrom(table, init, k);
        }
      }
    }
  }

  /** The unbound variables are among the variables. */
  lemma {:induction false} UnboundFrom(table: map<string, nat>, variables: seq<string>, k: nat)
    requires k < |Unbound(table, variables)|
    ensures Unbound(table, variables)[k] in variables
  {
    var init := variables[..|variables| - 1];
    if k < |Unbound(table, init)| {
      UnboundFrom(table, init, k);
    }
  }

  /**
   * The variables still undefined after pass 1 get consecutive addresses
   * from 16 in the order of their first use; labels and predefined names
   * keep their addresses.
   */
  lemma {:induction false} VariableAddresses(init: map<string, nat>, lines: seq<Line>)
    ensures forall k :: 0 <= k < |Unbound(Pass1(init, lines).table, Pass1(init, lines).variables)| ==>
      var v := Unbound(Pass1(init, lines).table, Pass1(init, lines).variables)[k];
      v in FinalTable(init, lines) && FinalTable(init, lines)[v] == 16 + k
    ensures forall n :: n in Pass1(init, lines).table ==> n in FinalTable(init, lines) && FinalTable(init, lines)[n] == Pass1(init, lines).table[n]
  {
    VariablesCollected(init, lines);
    AllocateConsecutive(Pass1(init, lines).table, Pass1(init, lines).variables);
    AllocateKeeps(Pass1(init, lines).table, Pass1(init, lines).variables);
  }

  /** Only a line the grammar rejects makes assembly fail. */
  lemma {:induction false} FailsOnlyOnGrammar(init: map<string, nat>, lines: seq<ParsedLine>)
    ensures AssembleSpec(init, lines).AssemblyError? <==> FirstError(lines).Some?
    ensures AssembleSpec(init, lines).Machine? ==> |AssembleSpec(init, lines).words| == InstructionCount(lines)
  {
    if FirstError(lines).None? {
      AllSymbolsDefined(init, lines);
      OneWordPerInstruction(lines, FinalTable(init, lines));
    }
  }

  // ---------------------------------------------------------------------
  // The assembler

  lemma {:induction false} PrefixStep<T>(s: seq<T>, i: nat)
    requires i < |s|
    ensures s[..i + 1][..i] == s[..i] && s[..i + 1][i] == s[i]
  {
  }

  lemma {:induction false} Pass1Prefix(init: map<string, nat>, lines: seq<Line>, i: nat)
    requires i < |lines|
    ensures Pass1(init, lines[..i + 1]) == Step1(Pass1(init, lines[..i]), lines[i])
    ensures FirstError(lines[..i + 1]) ==
      if FirstError(lines[..i]).Some? then FirstError(lines[..i])
      else match lines[i] case Unparsable(m) => Some(m) case _ => None
  {
    PrefixStep(lines, i);
  }

  lemma {:induction false} AllocatePrefix(table: map<string, nat>, variables: seq<string>, k: nat)
    requires k < |variables|
    ensures Allocate(table, variables[..k + 1]) ==
      var a := Allocate(table, variables[..k]);
      if variables[k] in a.table then a else Allocation(a.table[variables[k] := a.next], a.next + 1)
  {
    PrefixStep(variables, k);
  }

  lemma {:induction false} Pass2Prefix(lines: seq<ParsedLine>, table: map<string, nat>, i: nat)
    requires i < |lines| && SymbolsDefined(lines, table)
    ensures SymbolsDefined(lines[..i], table) && SymbolsDefined(lines[..i + 1], table)
    ensures Pass2(lines[..i + 1], table) == Pass2(lines[..i], table) + Words(lines[i], table)
  {
    PrefixStep(lines, i);
  }

  /** Both passes over the lines, with a fresh symbol table. */
  method Assemble(lines: seq<ParsedLine>) returns (r: Assembly)
    ensures exists init :: IsFreshTable(init) && r == AssembleSpec(init, lines)
  {
    var table := new SymbolTable();
    ghost var init := table.table;
    var error, variables := FirstPass(table, lines);
    if error.Some? {
      return AssemblyError(error.value);
    }
    AllocateVariables(table, variables);
    AllSymbolsDefined(init, lines);
    var words := SecondPass(table, lines);
    return Machine(words);
  }

  /**
   * Pass 1: binds each label to the address of the next instruction and
   * collects the symbols of A-instructions; stops at the first line that
   * does not parse.
   */
  method FirstPass(table: SymbolTable, lines: seq<ParsedLine>) returns (error: Option<string>, variables: seq<string>)
    modifies table
    ensures error == FirstError(lines)
    ensures error.None? ==> table.table == Pass1(old(table.table), lines).table && variables == Pass1(old(table.table), lines).variables
  {
    ghost var init := table.table;
    var pc := 0;
    variables := [];
    var i := 0;
    while i < |lines|
      invariant 0 <= i <= |lines|
      invariant FirstError(lines[..i]).None?
      invariant Pass1(init, lines[..i]) == Pass1State(table.table, variables, pc)
    {
      Pass1Prefix(init, lines, i);
      match lines[i] {
        case Unparsable(message) =>
          FirstErrorExtends(lines, i + 1);
          return Some(message), variables;
        case LabelDecl(name) =>
          table.AddEntry(name, pc);
        case ASymbol(name) =>
          if name !in variables {
            variables := variables + [name];
          }
          pc := pc + 1;
        case AConst(_) =>
          pc := pc + 1;
        case CInstr(_, _, _) =>
          pc := pc + 1;
        case Blank =>
      }
      i := i + 1;
    }
    assert lines[..i] == lines;
    error := None;
  }

  /** Gives each variable not yet in the table the next free address, counting from 16. */
  method AllocateVariables(table: SymbolTable, variables: seq<string>)
    modifies table
    ensures table.table == Allocate(old(table.table), variables).table
  {
    ghost var start := table.table;
    var newAddress := 16;
    var k := 0;
    while k < |variables|
      invariant 0 <= k <= |variables|
      invariant Allocate(start, variables[..k]) == Allocation(table.table, newAddress)
    {
      AllocatePrefix(start, variables, k);
      var defined := table.Contains(variables[k]);
      if !defined {
        table.AddEntry(variables[k], newAddress);
        newAddress := newAddress + 1;
      }
      k := k + 1;
    }
    assert variables[..k] == variables;
  }

  /** Pass 2: the words of the A- and C-instructions, in order. */
  method SecondPass(table: SymbolTable, lines: seq<ParsedLine>) returns (words: seq<bv16>)
    requires SymbolsDefined(lines, table.table)
    ensures words == Pass2(lines, table.table)
  {
    words := [];
    var i := 0;
    while i < |lines|
      invariant 0 <= i <= |lines|
      invariant words == Pass2(lines[..i], table.table)
    {
      Pass2Prefix(lines, table.table, i);
      match lines[i] {
        case AConst(v) =>
          words := words + [ToWord(v)];
        case ASymbol(name) =>
          var address := table.GetAddress(name);
          if address.None? {
            assert false;
          }
          words := words + [ToWord(address.value)];
        case CInstr(dest, comp, jump) =>
          var c := Lookup(CompTable, comp).value;
          words := words + [CWord(ToWord(FieldCode(DestTable, dest)), ToWord(c), ToWord(FieldCode(JumpTable, jump)))];
        case LabelDecl(_) =>
        case Unparsable(_) =>
        case Blank =>
      }
      i := i + 1;
    }
    assert lines[..i] == lines;
  }

  /** Once a prefix has an error, the whole sequence has that error. */
  lemma {:induction false} FirstErrorExtends(lines: seq<Line>, n: nat)
    requires n <= |lines| && FirstError(lines[..n]).Some?
    ensures FirstError(lines) == FirstError(lines[..n])
  {
    if n < |lines| {
      var init := lines[..|lines| - 1];
      assert init[..n] == lines[..n];
      FirstErrorExtends(init, n);
    } else {
      assert lines[..n] == lines;
    }
  }
}
