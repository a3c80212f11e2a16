/** The instruction in write-back raises at most one exception, so the reported cause is unambiguous. */
module ExceptionCauses {
  import opened Rv64Pkg
  import BitString
  import opened Decoder
  import opened MemStage
  import opened PipeRegs
  import opened CsrUnit
  import opened TrapCtrl
  import opened WriteBack
  import opened RichardCore

  datatype Exception = IllegalInstruction | Breakpoint | EnvironmentCall | LoadFault | StoreFault

  predicate Raises(w: Retiring, e: Exception) {
    match e
    case IllegalInstruction => w.illegal
    case Breakpoint => w.isEbreak
    case EnvironmentCall => w.isEcall
    case LoadFault => w.loadFault
    case StoreFault => w.storeFault
  }

  /** Exception codes; table 3.6 of the RISC-V Privileged ISA 20211203. */
  function Code(e: Exception, mode: Priv): bv64 {
    match e
    case IllegalInstruction => 2
    case Breakpoint => 3
    case EnvironmentCall => (match mode case U => 8 case S => 9 case M => 11)
    case LoadFault => 5
    case StoreFault => 7
  }

  /** The word, the pc or the address that belongs to the exception. */
  function Value(e: Exception, w: Retiring): bv64 {
    match e
    case IllegalInstruction => w.instr as bv64
    case Breakpoint => w.pc
    case EnvironmentCall => 0
    case _ => w.badAddr
  }

  /** At most one of the flags is set. */
  predicate AtMostOne(a: bool, b: bool, c: bool, d: bool, e: bool) {
    !(a && (b || c || d || e)) && !(b && (c || d || e)) && !(c && (d || e)) && !(d && e)
  }

  /** The decoder never raises two of these signals, whatever the word and the mode. */
  lemma DecodedFlags(w: bv32, p: Priv)
    ensures var c := Decode(w, p).ctrl;
      AtMostOne(c.sys.illegal || c.sys.isCsr, c.sys.isEbreak, c.sys.isEcall, c.mem.isLoad, c.mem.isStore)
      && !(c.sys.illegal && c.sys.isCsr)
      && (c.sys.isMret || c.sys.isSret ==>
          !c.sys.illegal && !c.sys.isCsr && !c.sys.isEbreak && !c.sys.isEcall && !c.mem.isLoad && !c.mem.isStore
          && !(c.sys.isMret && c.sys.isSret))
  {
    hide RegIndex, ImmI, ImmS, ImmB, ImmU, ImmJ, CsrAccessAllowed, PrivGe, OpImmAlu, OpAlu;
    var op := Opcode(w);
    if op == OPCODE_LUI {} else if op == OPCODE_AUIPC {} else if op == OPCODE_JAL {} else if op == OPCODE_JALR {}
    else if op == OPCODE_BRANCH {} else if op == OPCODE_LOAD {} else if op == OPCODE_STORE {}
    else if op == OPCODE_OP_IMM {} else if op == OPCODE_OP_IMM_32 {} else if op == OPCODE_OP {}
    else if op == OPCODE_OP_32 {} else if op == OPCODE_MISC_MEM {} else {}
  }

  /** Bits 9:8 of a CSR address, the lowest mode that may access it. */
  function RequiredRank(csr: bv12): nat {
    (if csr & 0x200 != 0 then 2 else 0) + if csr & 0x100 != 0 then 1 else 0
  }

  lemma AllowedRank(p: Priv, csr: bv12)
    requires CsrAccessAllowed(p, csr)
    ensures PrivRank(p) >= RequiredRank(csr)
  {
    if csr & 0x200 != 0 {
      if csr & 0x100 != 0 {} else {}
    } else {
      if csr & 0x100 != 0 {} else {}
    }
  }

  /** A mode decodes no more than its share: mret in M only, sret above U, CSRs up to its rank. */
  lemma DecodedPrivileges(w: bv32, p: Priv)
    ensures var s := Decode(w, p).ctrl.sys;
      (s.isMret ==> p == M) && (s.isSret ==> p != U) && (s.isCsr ==> PrivRank(p) >= RequiredRank(CsrField(w)))
  {
    hide RegIndex, ImmI, ImmS, ImmB, ImmU, ImmJ, CsrAccessAllowed, OpImmAlu, OpAlu, RequiredRank;
    if CsrAccessAllowed(p, CsrField(w)) {
      AllowedRank(p, CsrField(w));
    }
  }

  /** The instruction w as it leaves the pipeline, whatever its operands and the memory's answer. */
  function Leaving(d: IdEx, a: bv64, b: bv64, rdata: bv64): Retiring { Retire(MemOutput(ExOutput(d, a, b), rdata)) }

  lemma LeavingFlags(d: IdEx, a: bv64, b: bv64, rdata: bv64)
    ensures var w, s := Leaving(d, a, b, rdata), d.ctrl.sys;
      (w.illegal ==> s.illegal || s.isCsr) && w.isEcall == s.isEcall && w.isEbreak == s.isEbreak
      && (w.loadFault ==> d.ctrl.mem.isLoad) && (w.storeFault ==> d.ctrl.mem.isStore)
      && !w.instrPageFault && !w.loadPageFault && !w.storePageFault
  {
    hide LoadData, AddrMisaligned, IsSupported, IsWritable, CanonicalAddr;
  }

  /** Cause and value name the one exception raised; mret and sret raise none. */
  lemma CauseIsException(d: IdEx, word: bv32, p: Priv, mode: Priv, a: bv64, b: bv64, rdata: bv64, e: Exception)
    requires d.ctrl == Decode(word, p).ctrl && Raises(Leaving(d, a, b, rdata), e)
    ensures var w := Leaving(d, a, b, rdata);
      ExceptionCause(w, mode) == Code(e, mode) && ExceptionValue(w) == Value(e, w)
      && !d.ctrl.sys.isMret && !d.ctrl.sys.isSret
      && forall f :: Raises(w, f) ==> f == e
  {
    hide Leaving, Decode;
    DecodedFlags(word, p);
    LeavingFlags(d, a, b, rdata);
  }

  // Delegation and targets

  /** The exception code as a bit position of the delegation register. */
  function CodeNumber(e: Exception, mode: Priv): (n: nat)
    ensures n < 12
  {
    match e
    case IllegalInstruction => 2
    case Breakpoint => 3
    case EnvironmentCall => (match mode case U => 8 case S => 9 case M => 11)
    case LoadFault => 5
    case StoreFault => 7
  }

  lemma LowMaskBit(x: bv64, n: nat)
    requires n in {2, 3, 5, 7}
    ensures BitString.Bit(x, n)
         == if n == 2 then BitAt(x, 2) else if n == 3 then BitAt(x, 3) else if n == 5 then BitAt(x, 5) else BitAt(x, 7)
  {
    BitString.ByteBit(x, n);
    hide BitString.Bit;
  }

  lemma HighMaskBit(x: bv64, n: nat)
    requires n in {8, 9, 11, 12, 13, 15}
    ensures BitString.Bit(x, n)
         == if n == 8 then BitAt(x, 8) else if n == 9 then BitAt(x, 9) else if n == 11 then BitAt(x, 11)
            else if n == 12 then BitAt(x, 12) else if n == 13 then BitAt(x, 13) else BitAt(x, 15)
  {
    hide BitString.Bit, BitString.Drop;
    BitString.BitDrop(x, 8, n - 8);
    BitString.DropByte(x);
    BitString.ByteBit(BitString.Byte(x), n - 8);
  }

  /** Bit of the code in medeleg. */
  lemma CodeBit(x: bv64, e: Exception, mode: Priv)
    ensures BitAt(x, Code(e, mode) & 0x3F) == BitString.Bit(x, CodeNumber(e, mode))
  {
    hide BitString.Bit, BitAt;
    if CodeNumber(e, mode) < 8 {
      LowMaskBit(x, CodeNumber(e, mode));
    } else {
      HighMaskBit(x, CodeNumber(e, mode));
    }
  }

  /** An exception below M mode goes to the supervisor exactly when medeleg has the bit of its code. */
  lemma ExceptionDelegation(s: Csrs, pins: Pins, d: IdEx, word: bv32, p: Priv, a: bv64, b: bv64, rdata: bv64,
                            e: Exception)
    requires d.ctrl == Decode(word, p).ctrl && Raises(Leaving(d, a, b, rdata), e) && !HasInterrupt(s, pins)
    ensures var t := Request(s, Leaving(d, a, b, rdata), pins);
      t.trigger && (t.toS <==> s.priv != M && BitString.Bit(s.plain[MEDELEG], CodeNumber(e, s.priv)))
      && t.cause == Code(e, s.priv)
  {
    hide Leaving, Decode, BitString.Bit, BitAt, HasInterrupt, Code, CodeNumber, ExceptionCause, ExceptionValue;
    CauseIsException(d, word, p, s.priv, a, b, rdata, e);
    CodeBit(s.plain[MEDELEG], e, s.priv);
  }

  /** Base address of a trap vector. */
  function Base(vector: bv64): bv64 { vector & 0xFFFF_FFFF_FFFF_FFFC }

  predicate Vectored(vector: bv64) { vector & 3 == 1 }

  function Offset(base: bv64, bytes: bv64): bv64 { base + bytes }

  lemma BaseTarget(vector: bv64, cause: bv64)
    ensures VectorTarget(vector, false, cause) == Base(vector) && Base(vector) & 3 == 0
    ensures !Vectored(vector) ==> VectorTarget(vector, true, cause) == Base(vector)
  {}

  lemma SlotTarget(vector: bv64, cause: bv64, bytes: bv64)
    requires Vectored(vector) && (cause & 0x3F) << 2 == bytes
    ensures VectorTarget(vector, true, cause) == Offset(Base(vector), bytes)
  {}

  lemma SlotBytes()
    ensures ((INTERRUPT_BIT | 3) & 0x3F) << 2 == 12 && ((INTERRUPT_BIT | 7) & 0x3F) << 2 == 28
    ensures ((INTERRUPT_BIT | 11) & 0x3F) << 2 == 44
  {}

  lemma AlignedSlot(vector: bv64)
    ensures Offset(Base(vector), 12) & 3 == 0
    ensures Offset(Base(vector), 28) & 3 == 0 && Offset(Base(vector), 44) & 3 == 0
  {}

  /** A vectored interrupt enters the slot of its source, external before software before timer; all else the base. */
  lemma TrapTarget(s: Csrs, w: Retiring, pins: Pins)
    requires Triggered(s, w, pins)
    ensures var vector := s.plain[if Delegated(s, w, pins) then STVEC else MTVEC];
      NextPc(s, w, pins) & 3 == 0
      && NextPc(s, w, pins)
         == if !Vectored(vector) || !HasInterrupt(s, pins) then Base(vector)
            else Offset(Base(vector), if pins.external then 44 else if pins.software then 12 else 28)
  {
    hide Delegated, ExceptionCause, ExceptionValue, HasException, VectorTarget, Base, Vectored, Offset, Has;
    var vector, cause := s.plain[if Delegated(s, w, pins) then STVEC else MTVEC], Cause(s, w, pins);
    AlignedSlot(vector);
    BaseTarget(vector, cause);
    SlotBytes();
    if Vectored(vector) && HasInterrupt(s, pins) {
      SlotTarget(vector, cause, if pins.external then 44 else if pins.software then 12 else 28);
    }
  }
}
