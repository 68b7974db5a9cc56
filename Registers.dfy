/** The register map of the ILPS22QS pressure sensor.

    Each register with a documented bitfield layout is a record whose fields
    are listed from bit 0 upwards, reserved bits included (`notUsed01`, ...),
    together with its layout: the field widths in the same order.  `Reg` is
    the union of all views; `Decode` picks the view by register address, and
    every other address is seen as a plain byte.  `Update` is the
    read-modify-write of one field. */
module Registers {
  import opened BitField

  // Register addresses.
  const INTERRUPT_CFG: u8 := 0x0B
  const THS_P_L: u8 := 0x0C
  const THS_P_H: u8 := 0x0D
  const IF_CTRL: u8 := 0x0E
  const WHO_AM_I: u8 := 0x0F
  const CTRL_REG1: u8 := 0x10
  const CTRL_REG2: u8 := 0x11
  const CTRL_REG3: u8 := 0x12
  const FIFO_CTRL: u8 := 0x14
  const FIFO_WTM: u8 := 0x15
  const REF_P_L: u8 := 0x16
  const REF_P_H: u8 := 0x17
  const I3C_IF_CTRL: u8 := 0x19
  const RPDS_L: u8 := 0x1A
  const RPDS_H: u8 := 0x1B
  const INT_SOURCE: u8 := 0x24
  const FIFO_STATUS1: u8 := 0x25
  const FIFO_STATUS2: u8 := 0x26
  const STATUS: u8 := 0x27
  const PRESS_OUT_XL: u8 := 0x28
  const PRESS_OUT_L: u8 := 0x29
  const PRESS_OUT_H: u8 := 0x2A
  const TEMP_OUT_L: u8 := 0x2B
  const TEMP_OUT_H: u8 := 0x2C
  const FIFO_DATA_OUT_PRESS_XL: u8 := 0x78
  const FIFO_DATA_OUT_PRESS_L: u8 := 0x79
  const FIFO_DATA_OUT_PRESS_H: u8 := 0x7A

  // The register records with their layouts.  `Fields` lists the field
  // values from bit 0 upwards and `Of` builds the record back from them.

  const INTERRUPT_CFG_LAYOUT: seq<nat> := [1, 1, 1, 1, 1, 1, 1, 1]

  datatype InterruptCfg = InterruptCfg(phe: u1, ple: u1, lir: u1, notUsed01: u1, resetAz: u1, autozero: u1, resetArp: u1, autorefp: u1)
  {
    function Fields(): (vs: seq<nat>)
      ensures Fits(vs, INTERRUPT_CFG_LAYOUT)
    {
      Pow2Values();
      [phe, ple, lir, notUsed01, resetAz, autozero, resetArp, autorefp]
    }

    static function Of(vs: seq<nat>): (r: InterruptCfg)
      requires Fits(vs, INTERRUPT_CFG_LAYOUT)
      ensures r.Fields() == vs
    {
      Pow2Values();
      InterruptCfg(vs[0], vs[1], vs[2], vs[3], vs[4], vs[5], vs[6], vs[7])
    }

    /** The record read from byte `b`. */
    static function Read(b: u8): (r: InterruptCfg)
      ensures r.Fields() == Unpack(b, INTERRUPT_CFG_LAYOUT)
    {
      Of(Unpack(b, INTERRUPT_CFG_LAYOUT))
    }
  }

  const THS_P_L_LAYOUT: seq<nat> := [8]

  datatype ThsPL = ThsPL(ths: u8)
  {
    function Fields(): (vs: seq<nat>)
      ensures Fits(vs, THS_P_L_LAYOUT)
    {
      Pow2Values();
      [ths]
    }

    static function Of(vs: seq<nat>): (r: ThsPL)
      requires Fits(vs, THS_P_L_LAYOUT)
      ensures r.Fields() == vs
    {
      Pow2Values();
      ThsPL(vs[0])
    }

    /** The record read from byte `b`. */
    static function Read(b: u8): (r: ThsPL)
      ensures r.Fields() == Unpack(b, THS_P_L_LAYOUT)
    {
      Of(Unpack(b, THS_P_L_LAYOUT))
    }
  }

  const THS_P_H_LAYOUT: seq<nat> := [7, 1]

  datatype ThsPH = ThsPH(ths: u7, notUsed01: u1)
  {
    function Fields(): (vs: seq<nat>)
      ensures Fits(vs, THS_P_H_LAYOUT)
    {
      Pow2Values();
      [ths, notUsed01]
    }

    static function Of(vs: seq<nat>): (r: ThsPH)
      requires Fits(vs, THS_P_H_LAYOUT)
      ensures r.Fields() == vs
    {
      Pow2Values();
      ThsPH(vs[0], vs[1])
    }

    /** The record read from byte `b`. */
    static function Read(b: u8): (r: ThsPH)
      ensures r.Fields() == Unpack(b, THS_P_H_LAYOUT)
    {
      Of(Unpack(b, THS_P_H_LAYOUT))
    }
  }

  const IF_CTRL_LAYOUT: seq<nat> := [1, 1, 2, 1, 1, 1, 1]

  datatype IfCtrl = IfCtrl(notUsed01: u1, csPuDis: u1, notUsed02: u2, sdaPuEn: u1, enSpiRead: u1, i2cI3cDis: u1, notUsed03: u1)
  {
    function Fields(): (vs: seq<nat>)
      ensures Fits(vs, IF_CTRL_LAYOUT)
    {
      Pow2Values();
      [notUsed01, csPuDis, notUsed02, sdaPuEn, enSpiRead, i2cI3cDis, notUsed03]
    }

    static function Of(vs: seq<nat>): (r: IfCtrl)
      requires Fits(vs, IF_CTRL_LAYOUT)
      ensures r.Fields() == vs
    {
      Pow2Values();
      IfCtrl(vs[0], vs[1], vs[2], vs[3], vs[4], vs[5], vs[6])
    }

    /** The record read from byte `b`. */
    static function Read(b: u8): (r: IfCtrl)
      ensures r.Fields() == Unpack(b, IF_CTRL_LAYOUT)
    {
      Of(Unpack(b, IF_CTRL_LAYOUT))
    }
  }

  const CTRL_REG1_LAYOUT: seq<nat> := [3, 4, 1]

  datatype CtrlReg1 = CtrlReg1(avg: u3, odr: u4, notUsed01: u1)
  {
    function Fields(): (vs: seq<nat>)
      ensures Fits(vs, CTRL_REG1_LAYOUT)
    {
      Pow2Values();
      [avg, odr, notUsed01]
    }

    static function Of(vs: seq<nat>): (r: CtrlReg1)
      requires Fits(vs, CTRL_REG1_LAYOUT)
      ensures r.Fields() == vs
    {
      Pow2Values();
      CtrlReg1(vs[0], vs[1], vs[2])
    }

    /** The record read from byte `b`. */
    static function Read(b: u8): (r: CtrlReg1)
      ensures r.Fields() == Unpack(b, CTRL_REG1_LAYOUT)
    {
      Of(Unpack(b, CTRL_REG1_LAYOUT))
    }
  }

  const CTRL_REG2_LAYOUT: seq<nat> := [1, 1, 1, 1, 1, 1, 1, 1]

  datatype CtrlReg2 = CtrlReg2(oneshot: u1, notUsed01: u1, swreset: u1, bdu: u1, enLpfp: u1, lfpfCfg: u1, fsMode: u1, boot: u1)
  {
    function Fields(): (vs: seq<nat>)
      ensures Fits(vs, CTRL_REG2_LAYOUT)
    {
      Pow2Values();
      [oneshot, notUsed01, swreset, bdu, enLpfp, lfpfCfg, fsMode, boot]
    }

    static function Of(vs: seq<nat>): (r: CtrlReg2)
      requires Fits(vs, CTRL_REG2_LAYOUT)
      ensures r.Fields() == vs
    {
      Pow2Values();
      CtrlReg2(vs[0], vs[1], vs[2], vs[3], vs[4], vs[5], vs[6], vs[7])
    }

    /** The record read from byte `b`. */
    static function Read(b: u8): (r: CtrlReg2)
      ensures r.Fields() == Unpack(b, CTRL_REG2_LAYOUT)
    {
      Of(Unpack(b, CTRL_REG2_LAYOUT))
    }
  }

  const CTRL_REG3_LAYOUT: seq<nat> := [1, 4, 1, 1, 1]

  datatype CtrlReg3 = CtrlReg3(ifAddInc: u1, notUsed01: u4, ahQvarPAutoEn: u1, notUsed02: u1, ahQvarEn: u1)
  {
    function Fields(): (vs: seq<nat>)
      ensures Fits(vs, CTRL_REG3_LAYOUT)
    {
      Pow2Values();
      [ifAddInc, notUsed01, ahQvarPAutoEn, notUsed02, ahQvarEn]
    }

    static function Of(vs: seq<nat>): (r: CtrlReg3)
      requires Fits(vs, CTRL_REG3_LAYOUT)
      ensures r.Fields() == vs
    {
      Pow2Values();
      CtrlReg3(vs[0], vs[1], vs[2], vs[3], vs[4])
    }

    /** The record read from byte `b`. */
    static function Read(b: u8): (r: CtrlReg3)
      ensures r.Fields() == Unpack(b, CTRL_REG3_LAYOUT)
    {
      Of(Unpack(b, CTRL_REG3_LAYOUT))
    }
  }

  const FIFO_CTRL_LAYOUT: seq<nat> := [2, 1, 1, 1, 3]

  datatype FifoCtrl = FifoCtrl(fMode: u2, trigModes: u1, stopOnWtm: u1, ahQvarPFifoEn: u1, notUsed01: u3)
  {
    function Fields(): (vs: seq<nat>)
      ensures Fits(vs, FIFO_CTRL_LAYOUT)
    {
      Pow2Values();
      [fMode, trigModes, stopOnWtm, ahQvarPFifoEn, notUsed01]
    }

    static function Of(vs: seq<nat>): (r: FifoCtrl)
      requires Fits(vs, FIFO_CTRL_LAYOUT)
      ensures r.Fields() == vs
    {
      Pow2Values();
      FifoCtrl(vs[0], vs[1], vs[2], vs[3], vs[4])
    }

    /** The record read from byte `b`. */
    static function Read(b: u8): (r: FifoCtrl)
      ensures r.Fields() == Unpack(b, FIFO_CTRL_LAYOUT)
    {
      Of(Unpack(b, FIFO_CTRL_LAYOUT))
    }
  }

  const FIFO_WTM_LAYOUT: seq<nat> := [7, 1]

  datatype FifoWtm = FifoWtm(wtm: u7, notUsed01: u1)
  {
    function Fields(): (vs: seq<nat>)
      ensures Fits(vs, FIFO_WTM_LAYOUT)
    {
      Pow2Values();
      [wtm, notUsed01]
    }

    static function Of(vs: seq<nat>): (r: FifoWtm)
      requires Fits(vs, FIFO_WTM_LAYOUT)
      ensures r.Fields() == vs
    {
      Pow2Values();
      FifoWtm(vs[0], vs[1])
    }

    /** The record read from byte `b`. */
    static function Read(b: u8): (r: FifoWtm)
      ensures r.Fields() == Unpack(b, FIFO_WTM_LAYOUT)
    {
      Of(Unpack(b, FIFO_WTM_LAYOUT))
    }
  }

  const REF_P_L_LAYOUT: seq<nat> := [8]

  datatype RefPL = RefPL(refp: u8)
  {
    function Fields(): (vs: seq<nat>)
      ensures Fits(vs, REF_P_L_LAYOUT)
    {
      Pow2Values();
      [refp]
    }

    static function Of(vs: seq<nat>): (r: RefPL)
      requires Fits(vs, REF_P_L_LAYOUT)
      ensures r.Fields() == vs
    {
      Pow2Values();
      RefPL(vs[0])
    }

    /** The record read from byte `b`. */
    static function Read(b: u8): (r: RefPL)
      ensures r.Fields() == Unpack(b, REF_P_L_LAYOUT)
    {
      Of(Unpack(b, REF_P_L_LAYOUT))
    }
  }

  const REF_P_H_LAYOUT: seq<nat> := [8]

  datatype RefPH = RefPH(refp: u8)
  {
    function Fields(): (vs: seq<nat>)
      ensures Fits(vs, REF_P_H_LAYOUT)
    {
      Pow2Values();
      [refp]
    }

    static function Of(vs: seq<nat>): (r: RefPH)
      requires Fits(vs, REF_P_H_LAYOUT)
      ensures r.Fields() == vs
    {
      Pow2Values();
      RefPH(vs[0])
    }

    /** The record read from byte `b`. */
    static function Read(b: u8): (r: RefPH)
      ensures r.Fields() == Unpack(b, REF_P_H_LAYOUT)
    {
      Of(Unpack(b, REF_P_H_LAYOUT))
    }
  }

  const I3C_IF_CTRL_LAYOUT: seq<nat> := [5, 1, 2]

  datatype I3cIfCtrl = I3cIfCtrl(notUsed02: u5, asfOn: u1, notUsed01: u2)
  {
    function Fields(): (vs: seq<nat>)
      ensures Fits(vs, I3C_IF_CTRL_LAYOUT)
    {
      Pow2Values();
      [notUsed02, asfOn, notUsed01]
    }

    static function Of(vs: seq<nat>): (r: I3cIfCtrl)
      requires Fits(vs, I3C_IF_CTRL_LAYOUT)
      ensures r.Fields() == vs
    {
      Pow2Values();
      I3cIfCtrl(vs[0], vs[1], vs[2])
    }

    /** The record read from byte `b`. */
    static function Read(b: u8): (r: I3cIfCtrl)
      ensures r.Fields() == Unpack(b, I3C_IF_CTRL_LAYOUT)
    {
      Of(Unpack(b, I3C_IF_CTRL_LAYOUT))
    }
  }

  const INT_SOURCE_LAYOUT: seq<nat> := [1, 1, 1, 4, 1]

  datatype IntSource = IntSource(ph: u1, pl: u1, ia: u1, notUsed01: u4, bootOn: u1)
  {
    function Fields(): (vs: seq<nat>)
      ensures Fits(vs, INT_SOURCE_LAYOUT)
    {
      Pow2Values();
      [ph, pl, ia, notUsed01, bootOn]
    }

    static function Of(vs: seq<nat>): (r: IntSource)
      requires Fits(vs, INT_SOURCE_LAYOUT)
      ensures r.Fields() == vs
    {
      Pow2Values();
      IntSource(vs[0], vs[1], vs[2], vs[3], vs[4])
    }

    /** The record read from byte `b`. */
    static function Read(b: u8): (r: IntSource)
      ensures r.Fields() == Unpack(b, INT_SOURCE_LAYOUT)
    {
      Of(Unpack(b, INT_SOURCE_LAYOUT))
    }
  }

  const FIFO_STATUS1_LAYOUT: seq<nat> := [8]

  datatype FifoStatus1 = FifoStatus1(fss: u8)
  {
    function Fields(): (vs: seq<nat>)
      ensures Fits(vs, FIFO_STATUS1_LAYOUT)
    {
      Pow2Values();
      [fss]
    }

    static function Of(vs: seq<nat>): (r: FifoStatus1)
      requires Fits(vs, FIFO_STATUS1_LAYOUT)
      ensures r.Fields() == vs
    {
      Pow2Values();
      FifoStatus1(vs[0])
    }

    /** The record read from byte `b`. */
    static function Read(b: u8): (r: FifoStatus1)
      ensures r.Fields() == Unpack(b, FIFO_STATUS1_LAYOUT)
    {
      Of(Unpack(b, FIFO_STATUS1_LAYOUT))
    }
  }

  const FIFO_STATUS2_LAYOUT: seq<nat> := [5, 1, 1, 1]

  datatype FifoStatus2 = FifoStatus2(notUsed01: u5, fifoFullIa: u1, fifoOvrIa: u1, fifoWtmIa: u1)
  {
    function Fields(): (vs: seq<nat>)
      ensures Fits(vs, FIFO_STATUS2_LAYOUT)
    {
      Pow2Values();
      [notUsed01, fifoFullIa, fifoOvrIa, fifoWtmIa]
    }

    static function Of(vs: seq<nat>): (r: FifoStatus2)
      requires Fits(vs, FIFO_STATUS2_LAYOUT)
      ensures r.Fields() == vs
    {
      Pow2Values();
      FifoStatus2(vs[0], vs[1], vs[2], vs[3])
    }

    /** The record read from byte `b`. */
    static function Read(b: u8): (r: FifoStatus2)
      ensures r.Fields() == Unpack(b, FIFO_STATUS2_LAYOUT)
    {
      Of(Unpack(b, FIFO_STATUS2_LAYOUT))
    }
  }

  const STATUS_LAYOUT: seq<nat> := [1, 1, 2, 1, 1, 2]

  datatype Status = Status(pDa: u1, tDa: u1, notUsed01: u2, pOr: u1, tOr: u1, notUsed02: u2)
  {
    function Fields(): (vs: seq<nat>)
      ensures Fits(vs, STATUS_LAYOUT)
    {
      Pow2Values();
      [pDa, tDa, notUsed01, pOr, tOr, notUsed02]
    }

    static function Of(vs: seq<nat>): (r: Status)
      requires Fits(vs, STATUS_LAYOUT)
      ensures r.Fields() == vs
    {
      Pow2Values();
      Status(vs[0], vs[1], vs[2], vs[3], vs[4], vs[5])
    }

    /** The record read from byte `b`. */
    static function Read(b: u8): (r: Status)
      ensures r.Fields() == Unpack(b, STATUS_LAYOUT)
    {
      Of(Unpack(b, STATUS_LAYOUT))
    }
  }

  // Indices, within their register's layout, of the fields that carry
  // configuration values.
  const INTERRUPT_CFG_PHE: nat := 0
  const INTERRUPT_CFG_PLE: nat := 1
  const INTERRUPT_CFG_LIR: nat := 2
  const THS_P_THS: nat := 0
  const CTRL_REG1_AVG: nat := 0
  const CTRL_REG1_ODR: nat := 1
  const CTRL_REG2_EN_LPFP: nat := 4
  const CTRL_REG2_LFPF_CFG: nat := 5
  const CTRL_REG2_FS_MODE: nat := 6
  const FIFO_CTRL_F_MODE: nat := 0
  const FIFO_CTRL_TRIG_MODES: nat := 1
  const FIFO_WTM_WTM: nat := 0

  /** One register seen through the view its address selects; `Plain` is
      the whole-byte view of an address without a bitfield layout. */
  datatype Reg =
    | InterruptCfgReg(interruptCfg: InterruptCfg)
    | ThsPLReg(thsPL: ThsPL)
    | ThsPHReg(thsPH: ThsPH)
    | IfCtrlReg(ifCtrl: IfCtrl)
    | CtrlReg1Reg(ctrlReg1: CtrlReg1)
    | CtrlReg2Reg(ctrlReg2: CtrlReg2)
    | CtrlReg3Reg(ctrlReg3: CtrlReg3)
    | FifoCtrlReg(fifoCtrl: FifoCtrl)
    | FifoWtmReg(fifoWtm: FifoWtm)
    | RefPLReg(refPL: RefPL)
    | RefPHReg(refPH: RefPH)
    | I3cIfCtrlReg(i3cIfCtrl: I3cIfCtrl)
    | IntSourceReg(intSource: IntSource)
    | FifoStatus1Reg(fifoStatus1: FifoStatus1)
    | FifoStatus2Reg(fifoStatus2: FifoStatus2)
    | StatusReg(status: Status)
    | Plain(addr: u8, byte: u8)

  predicate IsBitfield(a: u8)
  {
    || a == INTERRUPT_CFG || a == THS_P_L || a == THS_P_H || a == IF_CTRL
    || a == CTRL_REG1 || a == CTRL_REG2 || a == CTRL_REG3 || a == FIFO_CTRL
    || a == FIFO_WTM || a == REF_P_L || a == REF_P_H || a == I3C_IF_CTRL
    || a == INT_SOURCE || a == FIFO_STATUS1 || a == FIFO_STATUS2 || a == STATUS
  }

  /** The field widths of the register at address `a`, from bit 0 upwards;
      a register without a bitfield layout is one 8-bit field. */
  function Layout(a: u8): (ws: seq<nat>)
    ensures Sum(ws) == 8
  {
    if a == INTERRUPT_CFG then INTERRUPT_CFG_LAYOUT
    else if a == THS_P_L then THS_P_L_LAYOUT
    else if a == THS_P_H then THS_P_H_LAYOUT
    else if a == IF_CTRL then IF_CTRL_LAYOUT
    else if a == CTRL_REG1 then CTRL_REG1_LAYOUT
    else if a == CTRL_REG2 then CTRL_REG2_LAYOUT
    else if a == CTRL_REG3 then CTRL_REG3_LAYOUT
    else if a == FIFO_CTRL then FIFO_CTRL_LAYOUT
    else if a == FIFO_WTM then FIFO_WTM_LAYOUT
    else if a == REF_P_L then REF_P_L_LAYOUT
    else if a == REF_P_H then REF_P_H_LAYOUT
    else if a == I3C_IF_CTRL then I3C_IF_CTRL_LAYOUT
    else if a == INT_SOURCE then INT_SOURCE_LAYOUT
    else if a == FIFO_STATUS1 then FIFO_STATUS1_LAYOUT
    else if a == FIFO_STATUS2 then FIFO_STATUS2_LAYOUT
    else if a == STATUS then STATUS_LAYOUT
    else [8]
  }

  function Address(r: Reg): u8
  {
    match r
    case InterruptCfgReg(_) => INTERRUPT_CFG
    case ThsPLReg(_) => THS_P_L
    case ThsPHReg(_) => THS_P_H
    case IfCtrlReg(_) => IF_CTRL
    case CtrlReg1Reg(_) => CTRL_REG1
    case CtrlReg2Reg(_) => CTRL_REG2
    case CtrlReg3Reg(_) => CTRL_REG3
    case FifoCtrlReg(_) => FIFO_CTRL
    case FifoWtmReg(_) => FIFO_WTM
    case RefPLReg(_) => REF_P_L
    case RefPHReg(_) => REF_P_H
    case I3cIfCtrlReg(_) => I3C_IF_CTRL
    case IntSourceReg(_) => INT_SOURCE
    case FifoStatus1Reg(_) => FIFO_STATUS1
    case FifoStatus2Reg(_) => FIFO_STATUS2
    case StatusReg(_) => STATUS
    case Plain(a, _) => a
  }

  /** A plain byte view is only used for an address without a bitfield layout. */
  predicate WellFormed(r: Reg)
  {
    r.Plain? ==> !IsBitfield(r.addr)
  }

  /** The field values of a view, from bit 0 upwards. */
  function Fields(r: Reg): (vs: seq<nat>)
    requires WellFormed(r)
  {
    match r
    case InterruptCfgReg(x) => x.Fields()
    case ThsPLReg(x) => x.Fields()
    case ThsPHReg(x) => x.Fields()
    case IfCtrlReg(x) => x.Fields()
    case CtrlReg1Reg(x) => x.Fields()
    case CtrlReg2Reg(x) => x.Fields()
    case CtrlReg3Reg(x) => x.Fields()
    case FifoCtrlReg(x) => x.Fields()
    case FifoWtmReg(x) => x.Fields()
    case RefPLReg(x) => x.Fields()
    case RefPHReg(x) => x.Fields()
    case I3cIfCtrlReg(x) => x.Fields()
    case IntSourceReg(x) => x.Fields()
    case FifoStatus1Reg(x) => x.Fields()
    case FifoStatus2Reg(x) => x.Fields()
    case StatusReg(x) => x.Fields()
    case Plain(_, b) => [b]
  }

  /** Every field value of a view fits the width its layout gives it. */
  lemma FieldsFit(r: Reg)
    requires WellFormed(r)
    ensures Fits(Fields(r), Layout(Address(r)))
  {
    Pow2Values();
  }

  /** The view of address `a` whose fields hold `vs`. */
  function FromFields(a: u8, vs: seq<nat>): (r: Reg)
    requires Fits(vs, Layout(a))
    ensures Address(r) == a && WellFormed(r) && Fields(r) == vs
  {
    if a <= FIFO_CTRL then FromFieldsLow(a, vs) else FromFieldsHigh(a, vs)
  }

  /** `FromFields` for the addresses up to FIFO_CTRL. */
  function FromFieldsLow(a: u8, vs: seq<nat>): (r: Reg)
    requires a <= FIFO_CTRL && Fits(vs, Layout(a))
    ensures Address(r) == a && WellFormed(r) && Fields(r) == vs
  {
    Pow2Values();
    if a == INTERRUPT_CFG then InterruptCfgReg(InterruptCfg.Of(vs))
    else if a == THS_P_L then ThsPLReg(ThsPL.Of(vs))
    else if a == THS_P_H then ThsPHReg(ThsPH.Of(vs))
    else if a == IF_CTRL then IfCtrlReg(IfCtrl.Of(vs))
    else if a == CTRL_REG1 then CtrlReg1Reg(CtrlReg1.Of(vs))
    else if a == CTRL_REG2 then CtrlReg2Reg(CtrlReg2.Of(vs))
    else if a == CTRL_REG3 then CtrlReg3Reg(CtrlReg3.Of(vs))
    else if a == FIFO_CTRL then FifoCtrlReg(FifoCtrl.Of(vs))
    else Plain(a, vs[0])
  }

  /** `FromFields` for the addresses above FIFO_CTRL. */
  function FromFieldsHigh(a: u8, vs: seq<nat>): (r: Reg)
    requires a > FIFO_CTRL && Fits(vs, Layout(a))
    ensures Address(r) == a && WellFormed(r) && Fields(r) == vs
  {
    Pow2Values();
    if a == FIFO_WTM then FifoWtmReg(FifoWtm.Of(vs))
    else if a == REF_P_L then RefPLReg(RefPL.Of(vs))
    else if a == REF_P_H then RefPHReg(RefPH.Of(vs))
    else if a == I3C_IF_CTRL then I3cIfCtrlReg(I3cIfCtrl.Of(vs))
    else if a == INT_SOURCE then IntSourceReg(IntSource.Of(vs))
    else if a == FIFO_STATUS1 then FifoStatus1Reg(FifoStatus1.Of(vs))
    else if a == FIFO_STATUS2 then FifoStatus2Reg(FifoStatus2.Of(vs))
    else if a == STATUS then StatusReg(Status.Of(vs))
    else Plain(a, vs[0])
  }

  /** A view is determined by its address and its field values. */
  lemma FieldsDetermine(r: Reg, s: Reg)
    requires WellFormed(r) && WellFormed(s)
    requires Address(r) == Address(s) && Fields(r) == Fields(s)
    ensures r == s
  {
  }

  // ---------------------------------------------------------------------
  // The tagged decode and the encode of one register byte.

  /** The view of byte `b` read from address `a`. */
  function Decode(a: u8, b: u8): (r: Reg)
    ensures Address(r) == a && WellFormed(r)
    ensures Fields(r) == Unpack(b, Layout(a))
  {
    FromFields(a, Unpack(b, Layout(a)))
  }

  /** The byte that holds the fields of `r`. */
  function Encode(r: Reg): (b: u8)
    requires WellFormed(r)
    ensures Unpack(b, Layout(Address(r))) == Fields(r)
  {
    Pow2Values();
    FieldsFit(r);
    UnpackPack(Fields(r), Layout(Address(r)));
    Pack(Fields(r), Layout(Address(r)))
  }

  /** Every register's fields fill its byte exactly, so re-encoding a decoded
      byte gives the byte back, whatever the address. */
  lemma EncodeDecode(a: u8, b: u8)
    ensures Encode(Decode(a, b)) == b
  {
    Pow2Values();
    PackUnpack(b, Layout(a));
  }

  /** Decoding an encoded view, at its own address, gives the view back. */
  lemma DecodeEncode(r: Reg)
    requires WellFormed(r)
    ensures Decode(Address(r), Encode(r)) == r
  {
    FieldsDetermine(Decode(Address(r), Encode(r)), r);
  }

  /** Field `i` of the register at `a` is read from bit `Offset(Layout(a), i)`. */
  lemma DecodeFieldAt(a: u8, b: u8, i: nat)
    requires i < |Layout(a)|
    ensures Fields(Decode(a, b))[i] == FieldAt(b, Offset(Layout(a), i), Layout(a)[i])
  {
    UnpackAt(b, Layout(a), i);
  }

  // At each bitfield address, the tagged decode is that register's record.

  lemma InterruptCfgView(b: u8)
    ensures Decode(INTERRUPT_CFG, b) == InterruptCfgReg(InterruptCfg.Read(b))
  {
  }

  lemma ThsPLView(b: u8)
    ensures Decode(THS_P_L, b) == ThsPLReg(ThsPL.Read(b))
  {
  }

  lemma ThsPHView(b: u8)
    ensures Decode(THS_P_H, b) == ThsPHReg(ThsPH.Read(b))
  {
  }

  lemma IfCtrlView(b: u8)
    ensures Decode(IF_CTRL, b) == IfCtrlReg(IfCtrl.Read(b))
  {
  }

  lemma CtrlReg1View(b: u8)
    ensures Decode(CTRL_REG1, b) == CtrlReg1Reg(CtrlReg1.Read(b))
  {
  }

  lemma CtrlReg2View(b: u8)
    ensures Decode(CTRL_REG2, b) == CtrlReg2Reg(CtrlReg2.Read(b))
  {
  }

  lemma CtrlReg3View(b: u8)
    ensures Decode(CTRL_REG3, b) == CtrlReg3Reg(CtrlReg3.Read(b))
  {
  }

  lemma FifoCtrlView(b: u8)
    ensures Decode(FIFO_CTRL, b) == FifoCtrlReg(FifoCtrl.Read(b))
  {
  }

  lemma FifoWtmView(b: u8)
    ensures Decode(FIFO_WTM, b) == FifoWtmReg(FifoWtm.Read(b))
  {
  }

  lemma RefPLView(b: u8)
    ensures Decode(REF_P_L, b) == RefPLReg(RefPL.Read(b))
  {
  }

  lemma RefPHView(b: u8)
    ensures Decode(REF_P_H, b) == RefPHReg(RefPH.Read(b))
  {
  }

  lemma I3cIfCtrlView(b: u8)
    ensures Decode(I3C_IF_CTRL, b) == I3cIfCtrlReg(I3cIfCtrl.Read(b))
  {
  }

  lemma IntSourceView(b: u8)
    ensures Decode(INT_SOURCE, b) == IntSourceReg(IntSource.Read(b))
  {
  }

  lemma FifoStatus1View(b: u8)
    ensures Decode(FIFO_STATUS1, b) == FifoStatus1Reg(FifoStatus1.Read(b))
  {
  }

  lemma FifoStatus2View(b: u8)
    ensures Decode(FIFO_STATUS2, b) == FifoStatus2Reg(FifoStatus2.Read(b))
  {
  }

  lemma StatusView(b: u8)
    ensures Decode(STATUS, b) == StatusReg(Status.Read(b))
  {
  }

  /** WHO_AM_I has no bitfield layout: it decodes to its plain byte. */
  lemma WhoAmIPlain(b: u8)
    ensures Decode(WHO_AM_I, b) == Plain(WHO_AM_I, b)
  {
    Pow2Values();
    LowSmall(b, 8);
  }

  // Where each field of each register sits in its byte.

  lemma InterruptCfgPositions(b: u8)
    ensures var r := InterruptCfg.Read(b);
      && r.phe == FieldAt(b, 0, 1)
      && r.ple == FieldAt(b, 1, 1)
      && r.lir == FieldAt(b, 2, 1)
      && r.notUsed01 == FieldAt(b, 3, 1)
      && r.resetAz == FieldAt(b, 4, 1)
      && r.autozero == FieldAt(b, 5, 1)
      && r.resetArp == FieldAt(b, 6, 1)
      && r.autorefp == FieldAt(b, 7, 1)
  {
    UnpackAt(b, INTERRUPT_CFG_LAYOUT, 0);
    UnpackAt(b, INTERRUPT_CFG_LAYOUT, 1);
    UnpackAt(b, INTERRUPT_CFG_LAYOUT, 2);
    UnpackAt(b, INTERRUPT_CFG_LAYOUT, 3);
    UnpackAt(b, INTERRUPT_CFG_LAYOUT, 4);
    UnpackAt(b, INTERRUPT_CFG_LAYOUT, 5);
    UnpackAt(b, INTERRUPT_CFG_LAYOUT, 6);
    UnpackAt(b, INTERRUPT_CFG_LAYOUT, 7);
  }

  lemma ThsPLPositions(b: u8)
    ensures var r := ThsPL.Read(b);
      && r.ths == FieldAt(b, 0, 8)
  {
    UnpackAt(b, THS_P_L_LAYOUT, 0);
  }

  lemma ThsPHPositions(b: u8)
    ensures var r := ThsPH.Read(b);
      && r.ths == FieldAt(b, 0, 7)
      && r.notUsed01 == FieldAt(b, 7, 1)
  {
    UnpackAt(b, THS_P_H_LAYOUT, 0);
    UnpackAt(b, THS_P_H_LAYOUT, 1);
  }

  lemma IfCtrlPositions(b: u8)
    ensures var r := IfCtrl.Read(b);
      && r.notUsed01 == FieldAt(b, 0, 1)
      && r.csPuDis == FieldAt(b, 1, 1)
      && r.notUsed02 == FieldAt(b, 2, 2)
      && r.sdaPuEn == FieldAt(b, 4, 1)
      && r.enSpiRead == FieldAt(b, 5, 1)
      && r.i2cI3cDis == FieldAt(b, 6, 1)
      && r.notUsed03 == FieldAt(b, 7, 1)
  {
    UnpackAt(b, IF_CTRL_LAYOUT, 0);
    UnpackAt(b, IF_CTRL_LAYOUT, 1);
    UnpackAt(b, IF_CTRL_LAYOUT, 2);
    UnpackAt(b, IF_CTRL_LAYOUT, 3);
    UnpackAt(b, IF_CTRL_LAYOUT, 4);
    UnpackAt(b, IF_CTRL_LAYOUT, 5);
    UnpackAt(b, IF_CTRL_LAYOUT, 6);
  }

  lemma CtrlReg1Positions(b: u8)
    ensures var r := CtrlReg1.Read(b);
      && r.avg == FieldAt(b, 0, 3)
      && r.odr == FieldAt(b, 3, 4)
      && r.notUsed01 == FieldAt(b, 7, 1)
  {
    UnpackAt(b, CTRL_REG1_LAYOUT, 0);
    UnpackAt(b, CTRL_REG1_LAYOUT, 1);
    UnpackAt(b, CTRL_REG1_LAYOUT, 2);
  }

  lemma CtrlReg2Positions(b: u8)
    ensures var r := CtrlReg2.Read(b);
      && r.oneshot == FieldAt(b, 0, 1)
      && r.notUsed01 == FieldAt(b, 1, 1)
      && r.swreset == FieldAt(b, 2, 1)
      && r.bdu == FieldAt(b, 3, 1)
      && r.enLpfp == FieldAt(b, 4, 1)
      && r.lfpfCfg == FieldAt(b, 5, 1)
      && r.fsMode == FieldAt(b, 6, 1)
      && r.boot == FieldAt(b, 7, 1)
  {
    UnpackAt(b, CTRL_REG2_LAYOUT, 0);
    UnpackAt(b, CTRL_REG2_LAYOUT, 1);
    UnpackAt(b, CTRL_REG2_LAYOUT, 2);
    UnpackAt(b, CTRL_REG2_LAYOUT, 3);
    UnpackAt(b, CTRL_REG2_LAYOUT, 4);
    UnpackAt(b, CTRL_REG2_LAYOUT, 5);
    UnpackAt(b, CTRL_REG2_LAYOUT, 6);
    UnpackAt(b, CTRL_REG2_LAYOUT, 7);
  }

  lemma CtrlReg3Positions(b: u8)
    ensures var r := CtrlReg3.Read(b);
      && r.ifAddInc == FieldAt(b, 0, 1)
      && r.notUsed01 == FieldAt(b, 1, 4)
      && r.ahQvarPAutoEn == FieldAt(b, 5, 1)
      && r.notUsed02 == FieldAt(b, 6, 1)
      && r.ahQvarEn == FieldAt(b, 7, 1)
  {
    UnpackAt(b, CTRL_REG3_LAYOUT, 0);
    UnpackAt(b, CTRL_REG3_LAYOUT, 1);
    UnpackAt(b, CTRL_REG3_LAYOUT, 2);
    UnpackAt(b, CTRL_REG3_LAYOUT, 3);
    UnpackAt(b, CTRL_REG3_LAYOUT, 4);
  }

  lemma FifoCtrlPositions(b: u8)
    ensures var r := FifoCtrl.Read(b);
      && r.fMode == FieldAt(b, 0, 2)
      && r.trigModes == FieldAt(b, 2, 1)
      && r.stopOnWtm == FieldAt(b, 3, 1)
      && r.ahQvarPFifoEn == FieldAt(b, 4, 1)
      && r.notUsed01 == FieldAt(b, 5, 3)
  {
    UnpackAt(b, FIFO_CTRL_LAYOUT, 0);
    UnpackAt(b, FIFO_CTRL_LAYOUT, 1);
    UnpackAt(b, FIFO_CTRL_LAYOUT, 2);
    UnpackAt(b, FIFO_CTRL_LAYOUT, 3);
    UnpackAt(b, FIFO_CTRL_LAYOUT, 4);
  }

  lemma FifoWtmPositions(b: u8)
    ensures var r := FifoWtm.Read(b);
      && r.wtm == FieldAt(b, 0, 7)
      && r.notUsed01 == FieldAt(b, 7, 1)
  {
    UnpackAt(b, FIFO_WTM_LAYOUT, 0);
    UnpackAt(b, FIFO_WTM_LAYOUT, 1);
  }

  lemma RefPLPositions(b: u8)
    ensures var r := RefPL.Read(b);
      && r.refp == FieldAt(b, 0, 8)
  {
    UnpackAt(b, REF_P_L_LAYOUT, 0);
  }

  lemma RefPHPositions(b: u8)
    ensures var r := RefPH.Read(b);
      && r.refp == FieldAt(b, 0, 8)
  {
    UnpackAt(b, REF_P_H_LAYOUT, 0);
  }

  lemma I3cIfCtrlPositions(b: u8)
    ensures var r := I3cIfCtrl.Read(b);
      && r.notUsed02 == FieldAt(b, 0, 5)
      && r.asfOn == FieldAt(b, 5, 1)
      && r.notUsed01 == FieldAt(b, 6, 2)
  {
    UnpackAt(b, I3C_IF_CTRL_LAYOUT, 0);
    UnpackAt(b, I3C_IF_CTRL_LAYOUT, 1);
    UnpackAt(b, I3C_IF_CTRL_LAYOUT, 2);
  }

  lemma IntSourcePositions(b: u8)
    ensures var r := IntSource.Read(b);
      && r.ph == FieldAt(b, 0, 1)
      && r.pl == FieldAt(b, 1, 1)
      && r.ia == FieldAt(b, 2, 1)
      && r.notUsed01 == FieldAt(b, 3, 4)
      && r.bootOn == FieldAt(b, 7, 1)
  {
    UnpackAt(b, INT_SOURCE_LAYOUT, 0);
    UnpackAt(b, INT_SOURCE_LAYOUT, 1);
    UnpackAt(b, INT_SOURCE_LAYOUT, 2);
    UnpackAt(b, INT_SOURCE_LAYOUT, 3);
    UnpackAt(b, INT_SOURCE_LAYOUT, 4);
  }

  lemma FifoStatus1Positions(b: u8)
    ensures var r := FifoStatus1.Read(b);
      && r.fss == FieldAt(b, 0, 8)
  {
    UnpackAt(b, FIFO_STATUS1_LAYOUT, 0);
  }

  lemma FifoStatus2Positions(b: u8)
    ensures var r := FifoStatus2.Read(b);
      && r.notUsed01 == FieldAt(b, 0, 5)
      && r.fifoFullIa == FieldAt(b, 5, 1)
      && r.fifoOvrIa == FieldAt(b, 6, 1)
      && r.fifoWtmIa == FieldAt(b, 7, 1)
  {
    UnpackAt(b, FIFO_STATUS2_LAYOUT, 0);
    UnpackAt(b, FIFO_STATUS2_LAYOUT, 1);
    UnpackAt(b, FIFO_STATUS2_LAYOUT, 2);
    UnpackAt(b, FIFO_STATUS2_LAYOUT, 3);
  }

  lemma StatusPositions(b: u8)
    ensures var r := Status.Read(b);
      && r.pDa == FieldAt(b, 0, 1)
      && r.tDa == FieldAt(b, 1, 1)
      && r.notUsed01 == FieldAt(b, 2, 2)
      && r.pOr == FieldAt(b, 4, 1)
      && r.tOr == FieldAt(b, 5, 1)
      && r.notUsed02 == FieldAt(b, 6, 2)
  {
    UnpackAt(b, STATUS_LAYOUT, 0);
    UnpackAt(b, STATUS_LAYOUT, 1);
    UnpackAt(b, STATUS_LAYOUT, 2);
    UnpackAt(b, STATUS_LAYOUT, 3);
    UnpackAt(b, STATUS_LAYOUT, 4);
    UnpackAt(b, STATUS_LAYOUT, 5);
  }

  // ---------------------------------------------------------------------
  // Read-modify-write of one field.

  /** Byte `b`, laid out as `ws`, with field `i` set to the low bits of `v`. */
  function SetByteField(b: u8, ws: seq<nat>, i: nat, v: nat): (r: u8)
    requires i < |ws| && Sum(ws) == 8
    ensures Unpack(r, ws) == Unpack(b, ws)[i := Low(v, ws[i])]
  {
    Pow2Values();
    SetField(b, ws, i, v)
  }

  /** Two bytes with the same fields under a one-byte layout are equal. */
  lemma SameFieldsSameByte(b1: u8, b2: u8, ws: seq<nat>)
    requires Sum(ws) == 8 && Unpack(b1, ws) == Unpack(b2, ws)
    ensures b1 == b2
  {
    Pow2Values();
    UnpackInjective(b1, b2, ws);
  }

  /** Byte `b` of register `a` with field `i` set to the low bits of `v`. */
  function Update(a: u8, b: u8, i: nat, v: nat): (r: u8)
    requires i < |Layout(a)|
    ensures Fields(Decode(a, r)) == Fields(Decode(a, b))[i := Low(v, Layout(a)[i])]
  {
    SetByteField(b, Layout(a), i, v)
  }

  /** An update changes no bit outside its field. */
  lemma UpdateKeepsOtherBits(a: u8, b: u8, i: nat, v: nat, k: nat)
    requires i < |Layout(a)| && k < 8
    requires k < Offset(Layout(a), i) || Offset(Layout(a), i) + Layout(a)[i] <= k
    ensures Bit(Update(a, b, i, v), k) == Bit(b, k)
  {
    SetFieldKeepsOtherBits(b, Layout(a), i, v, k);
  }

  /** An update writes the low bits of the new value into its field. */
  lemma UpdateWritesField(a: u8, b: u8, i: nat, v: nat, t: nat)
    requires i < |Layout(a)| && t < Layout(a)[i]
    ensures Bit(Update(a, b, i, v), Offset(Layout(a), i) + t) == Bit(v, t)
  {
    SetFieldWritesField(b, Layout(a), i, v, t);
  }

  /** Setting any named field of INTERRUPT_CFG keeps its reserved bit 3. */
  lemma InterruptCfgKeepsReserved(b: u8, i: nat, v: nat)
    requires i < 8 && i != 3
    ensures Bit(Update(INTERRUPT_CFG, b, i, v), 3) == Bit(b, 3)
  {
    UpdateKeepsOtherBits(INTERRUPT_CFG, b, i, v, 3);
  }

  /** Setting a named field of CTRL_REG3 (`if_add_inc`, `ah_qvar_p_auto_en`
      or `ah_qvar_en`) keeps its reserved bits 1 to 4 and 6. */
  lemma CtrlReg3KeepsReserved(b: u8, i: nat, v: nat)
    requires i == 0 || i == 2 || i == 4
    ensures forall k :: 1 <= k <= 4 || k == 6 ==> Bit(Update(CTRL_REG3, b, i, v), k) == Bit(b, k)
  {
    forall k | 1 <= k <= 4 || k == 6
      ensures Bit(Update(CTRL_REG3, b, i, v), k) == Bit(b, k)
    {
      UpdateKeepsOtherBits(CTRL_REG3, b, i, v, k);
    }
  }
}
