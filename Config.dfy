/** The configuration values of the driver and the register fields that
    carry them: each enumerated value has a numeric code that fits its
    carrier field, placing a configuration changes only its carrier fields,
    and reading the fields back gives the configuration again. */
module Config {
  import opened Wrappers
  import opened BitField
  import opened Registers

  // ---------------------------------------------------------------------
  // Full scale, carried by `fs_mode` (CTRL_REG2 bit 6).

  datatype Fs = Fs1260hPa | Fs4060hPa

  /** The `fs_mode` bit of a full scale: set for 4060 hPa. */
  function FsCode(fs: Fs): (c: u1)
    ensures c == 1 <==> fs == Fs4060hPa
  {
    match fs
    case Fs1260hPa => 0
    case Fs4060hPa => 1
  }

  function FsOfCode(c: u1): (fs: Fs)
    ensures FsCode(fs) == c
  {
    if c == 0 then Fs1260hPa else Fs4060hPa
  }

  lemma FsCodeRoundTrip(fs: Fs)
    ensures FsOfCode(FsCode(fs)) == fs
  {
  }

  // ---------------------------------------------------------------------
  // Output data rate, carried by `odr` (CTRL_REG1 bits 3-6).

  datatype Odr = OneShot | Odr1Hz | Odr4Hz | Odr10Hz | Odr25Hz | Odr50Hz | Odr75Hz | Odr100Hz | Odr200Hz

  function OdrCode(odr: Odr): (c: u4)
    ensures c <= 8
  {
    match odr
    case OneShot => 0
    case Odr1Hz => 1
    case Odr4Hz => 2
    case Odr10Hz => 3
    case Odr25Hz => 4
    case Odr50Hz => 5
    case Odr75Hz => 6
    case Odr100Hz => 7
    case Odr200Hz => 8
  }

  /** The sampling frequency in Hz; 0 for one-shot (power down until a
      software trigger). */
  function OdrHz(odr: Odr): nat
  {
    match odr
    case OneShot => 0
    case Odr1Hz => 1
    case Odr4Hz => 4
    case Odr10Hz => 10
    case Odr25Hz => 25
    case Odr50Hz => 50
    case Odr75Hz => 75
    case Odr100Hz => 100
    case Odr200Hz => 200
  }

  /** A 4-bit `odr` field holds a data rate exactly when it is at most 8. */
  function OdrOfCode(c: u4): (odr: Option<Odr>)
    ensures odr.Some? <==> c <= 8
    ensures odr.Some? ==> OdrCode(odr.value) == c
  {
    match c
    case 0 => Some(OneShot)
    case 1 => Some(Odr1Hz)
    case 2 => Some(Odr4Hz)
    case 3 => Some(Odr10Hz)
    case 4 => Some(Odr25Hz)
    case 5 => Some(Odr50Hz)
    case 6 => Some(Odr75Hz)
    case 7 => Some(Odr100Hz)
    case 8 => Some(Odr200Hz)
    case _ => None
  }

  lemma OdrCodeRoundTrip(odr: Odr)
    ensures OdrOfCode(OdrCode(odr)) == Some(odr)
  {
  }

  /** The codes are ordered as the data rates. */
  lemma OdrCodeMonotonic(a: Odr, b: Odr)
    ensures OdrCode(a) < OdrCode(b) <==> OdrHz(a) < OdrHz(b)
  {
  }

  // ---------------------------------------------------------------------
  // Averaging, carried by `avg` (CTRL_REG1 bits 0-2).

  datatype Avg = Avg4 | Avg8 | Avg16 | Avg32 | Avg64 | Avg128 | Avg256 | Avg512

  /** The `avg` code of an averaging factor: code `c` averages 2^(c+2)
      samples. */
  function AvgCode(avg: Avg): (c: u3)
    ensures AvgSamples(avg) == Pow2(c + 2)
  {
    Pow2Values();
    assert Pow2(6) == 64;
    assert Pow2(9) == 2 * Pow2(8);
    match avg
    case Avg4 => 0
    case Avg8 => 1
    case Avg16 => 2
    case Avg32 => 3
    case Avg64 => 4
    case Avg128 => 5
    case Avg256 => 6
    case Avg512 => 7
  }

  /** The number of samples averaged. */
  function AvgSamples(avg: Avg): nat
  {
    match avg
    case Avg4 => 4
    case Avg8 => 8
    case Avg16 => 16
    case Avg32 => 32
    case Avg64 => 64
    case Avg128 => 128
    case Avg256 => 256
    case Avg512 => 512
  }

  /** Every 3-bit `avg` field holds an averaging factor. */
  function AvgOfCode(c: u3): (avg: Avg)
    ensures AvgCode(avg) == c
  {
    match c
    case 0 => Avg4
    case 1 => Avg8
    case 2 => Avg16
    case 3 => Avg32
    case 4 => Avg64
    case 5 => Avg128
    case 6 => Avg256
    case 7 => Avg512
  }

  lemma AvgCodeRoundTrip(avg: Avg)
    ensures AvgOfCode(AvgCode(avg)) == avg
  {
  }

  // ---------------------------------------------------------------------
  // Low-pass filter, carried by `en_lpfp` and `lfpf_cfg` (CTRL_REG2 bits 4
  // and 5): bit 0 of the code enables the filter, bit 1 selects ODR/9.

  datatype Lpf = LpfDisable | LpfOdrDiv4 | LpfOdrDiv9

  /** The filter code: 0, 1 or 3, never 2 (the divisor without the enable
      bit). */
  function LpfCode(lpf: Lpf): (c: nat)
    ensures c < 4 && c != 2
  {
    match lpf
    case LpfDisable => 0
    case LpfOdrDiv4 => 1
    case LpfOdrDiv9 => 3
  }

  /** The (`en_lpfp`, `lfpf_cfg`) pair of a filter setting: together they
      spell its code, and a divisor never comes without the enable bit. */
  function LpfBits(lpf: Lpf): (bits: (u1, u1))
    ensures bits.0 + 2 * bits.1 == LpfCode(lpf)
    ensures bits.1 == 1 ==> bits.0 == 1
  {
    (LpfCode(lpf) % 2, LpfCode(lpf) / 2)
  }

  /** The filter setting of an (`en_lpfp`, `lfpf_cfg`) pair; the one pair
      that sets the divisor without the enable bit names no setting. */
  function LpfOfBits(en: u1, cfg: u1): (lpf: Option<Lpf>)
    ensures lpf.Some? <==> !(en == 0 && cfg == 1)
    ensures lpf.Some? ==> LpfBits(lpf.value) == (en, cfg)
  {
    if en == 0 && cfg == 0 then Some(LpfDisable)
    else if en == 1 && cfg == 0 then Some(LpfOdrDiv4)
    else if en == 1 && cfg == 1 then Some(LpfOdrDiv9)
    else None
  }

  lemma LpfRoundTrip(lpf: Lpf)
    ensures LpfOfBits(LpfBits(lpf).0, LpfBits(lpf).1) == Some(lpf)
  {
  }

  // ---------------------------------------------------------------------
  // FIFO operation, carried by `f_mode` (FIFO_CTRL bits 0-1) and
  // `trig_modes` (FIFO_CTRL bit 2).

  datatype Operation = Bypass | Fifo | Stream | StreamToFifo | BypassToStream | BypassToFifo

  function OperationCode(op: Operation): (c: nat)
    ensures c < 8 && c != 3 && c != 4
  {
    match op
    case Bypass => 0
    case Fifo => 1
    case Stream => 2
    case StreamToFifo => 7
    case BypassToStream => 6
    case BypassToFifo => 5
  }

  /** The (`f_mode`, `trig_modes`) pair of an operation: the low two bits
      and bit 2 of its code. */
  function OperationFields(op: Operation): (f: (u2, u1))
    ensures f.0 + 4 * f.1 == OperationCode(op)
    ensures f.1 == 1 <==> op in {StreamToFifo, BypassToStream, BypassToFifo}
  {
    (OperationCode(op) % 4, OperationCode(op) / 4)
  }

  /** The operation of an (`f_mode`, `trig_modes`) pair, if it names one. */
  function OperationOfFields(fMode: u2, trig: u1): (op: Option<Operation>)
    ensures op.Some? <==> !(trig == 0 && fMode == 3) && !(trig == 1 && fMode == 0)
    ensures op.Some? ==> OperationFields(op.value) == (fMode, trig)
  {
    match fMode + 4 * trig
    case 0 => Some(Bypass)
    case 1 => Some(Fifo)
    case 2 => Some(Stream)
    case 5 => Some(BypassToFifo)
    case 6 => Some(BypassToStream)
    case 7 => Some(StreamToFifo)
    case _ => None
  }

  lemma OperationRoundTrip(op: Operation)
    ensures OperationOfFields(OperationFields(op).0, OperationFields(op).1) == Some(op)
  {
  }

  // ---------------------------------------------------------------------
  // Measurement mode: `fs`, `odr`, `avg` and `lpf` go to CTRL_REG1 and
  // CTRL_REG2; `interleaved_mode` is omitted, as the header does not say
  // which field carries it.
  // Each field is written by a read-modify-write of its register byte.

  datatype Md = Md(fs: Fs, odr: Odr, avg: Avg, lpf: Lpf)

  /** CTRL_REG1 and CTRL_REG2 with the fields that carry `md` written: the
      codes of `md` in its carrier fields and every other field as it was. */
  function PlaceMode(ctrl1: u8, ctrl2: u8, md: Md): (r: (u8, u8))
    ensures CtrlReg1.Read(r.0) ==
            CtrlReg1.Read(ctrl1).(odr := OdrCode(md.odr), avg := AvgCode(md.avg))
    ensures CtrlReg2.Read(r.1) ==
            CtrlReg2.Read(ctrl2).(fsMode := FsCode(md.fs), enLpfp := LpfBits(md.lpf).0, lfpfCfg := LpfBits(md.lpf).1)
  {
    Pow2Values();
    LowSmall(OdrCode(md.odr), 4);
    LowSmall(AvgCode(md.avg), 3);
    LowSmall(FsCode(md.fs), 1);
    LowSmall(LpfBits(md.lpf).0, 1);
    LowSmall(LpfBits(md.lpf).1, 1);
    var bits := LpfBits(md.lpf);
    var c1 := SetByteField(ctrl1, CTRL_REG1_LAYOUT, CTRL_REG1_ODR, OdrCode(md.odr));
    var c1' := SetByteField(c1, CTRL_REG1_LAYOUT, CTRL_REG1_AVG, AvgCode(md.avg));
    var c2 := SetByteField(ctrl2, CTRL_REG2_LAYOUT, CTRL_REG2_FS_MODE, FsCode(md.fs));
    var c2' := SetByteField(c2, CTRL_REG2_LAYOUT, CTRL_REG2_EN_LPFP, bits.0);
    var c2'' := SetByteField(c2', CTRL_REG2_LAYOUT, CTRL_REG2_LFPF_CFG, bits.1);
    (c1', c2'')
  }

  /** The measurement mode held by CTRL_REG1 and CTRL_REG2; `None` when the
      `odr` field holds a code above 8 or the filter bits name no setting. */
  function ModeOf(ctrl1: u8, ctrl2: u8): (md: Option<Md>)
    ensures md.Some? <==>
      CtrlReg1.Read(ctrl1).odr <= 8 &&
      !(CtrlReg2.Read(ctrl2).enLpfp == 0 && CtrlReg2.Read(ctrl2).lfpfCfg == 1)
  {
    var r1 := CtrlReg1.Read(ctrl1);
    var r2 := CtrlReg2.Read(ctrl2);
    match (OdrOfCode(r1.odr), LpfOfBits(r2.enLpfp, r2.lfpfCfg))
    case (Some(odr), Some(lpf)) => Some(Md(FsOfCode(r2.fsMode), odr, AvgOfCode(r1.avg), lpf))
    case _ => None
  }

  /** Placing a mode and reading it back gives the mode, whatever the
      registers held before. */
  lemma PlaceModeRoundTrip(ctrl1: u8, ctrl2: u8, md: Md)
    ensures ModeOf(PlaceMode(ctrl1, ctrl2, md).0, PlaceMode(ctrl1, ctrl2, md).1) == Some(md)
  {
    OdrCodeRoundTrip(md.odr);
    LpfRoundTrip(md.lpf);
    AvgCodeRoundTrip(md.avg);
    FsCodeRoundTrip(md.fs);
  }

  /** Placing the mode the registers already hold leaves both bytes
      unchanged. */
  lemma ModeOfPlace(ctrl1: u8, ctrl2: u8)
    requires ModeOf(ctrl1, ctrl2).Some?
    ensures PlaceMode(ctrl1, ctrl2, ModeOf(ctrl1, ctrl2).value) == (ctrl1, ctrl2)
  {
    var p := PlaceMode(ctrl1, ctrl2, ModeOf(ctrl1, ctrl2).value);
    SameFieldsSameByte(p.0, ctrl1, CTRL_REG1_LAYOUT);
    SameFieldsSameByte(p.1, ctrl2, CTRL_REG2_LAYOUT);
  }

  // ---------------------------------------------------------------------
  // FIFO mode: `operation` goes to FIFO_CTRL, `watermark` to FIFO_WTM.

  /** A FIFO mode; a watermark of 0 disables the watermark. */
  datatype FifoMd = FifoMd(operation: Operation, watermark: u7)

  predicate WatermarkEnabled(md: FifoMd)
  {
    md.watermark != 0
  }

  /** FIFO_CTRL and FIFO_WTM with the fields that carry `md` written: the
      fields of `md` in its carrier fields and every other field as it was. */
  function PlaceFifoMode(ctrl: u8, wtm: u8, md: FifoMd): (r: (u8, u8))
    ensures FifoCtrl.Read(r.0) ==
            FifoCtrl.Read(ctrl).(fMode := OperationFields(md.operation).0, trigModes := OperationFields(md.operation).1)
    ensures FifoWtm.Read(r.1) == FifoWtm.Read(wtm).(wtm := md.watermark)
  {
    Pow2Values();
    LowSmall(OperationFields(md.operation).0, 2);
    LowSmall(OperationFields(md.operation).1, 1);
    LowSmall(md.watermark, 7);
    var f := OperationFields(md.operation);
    var c := SetByteField(ctrl, FIFO_CTRL_LAYOUT, FIFO_CTRL_F_MODE, f.0);
    var c' := SetByteField(c, FIFO_CTRL_LAYOUT, FIFO_CTRL_TRIG_MODES, f.1);
    var w := SetByteField(wtm, FIFO_WTM_LAYOUT, FIFO_WTM_WTM, md.watermark);
    (c', w)
  }

  /** The FIFO mode held by FIFO_CTRL and FIFO_WTM; `None` when `f_mode`
      and `trig_modes` name no operation. */
  function FifoModeOf(ctrl: u8, wtm: u8): (md: Option<FifoMd>)
    ensures md.Some? <==>
      OperationOfFields(FifoCtrl.Read(ctrl).fMode, FifoCtrl.Read(ctrl).trigModes).Some?
    ensures md.Some? ==> md.value.watermark == FifoWtm.Read(wtm).wtm
  {
    var c := FifoCtrl.Read(ctrl);
    match OperationOfFields(c.fMode, c.trigModes)
    case Some(op) => Some(FifoMd(op, FifoWtm.Read(wtm).wtm))
    case None => None
  }

  /** Placing a FIFO mode and reading it back gives the mode. */
  lemma PlaceFifoModeRoundTrip(ctrl: u8, wtm: u8, md: FifoMd)
    ensures FifoModeOf(PlaceFifoMode(ctrl, wtm, md).0, PlaceFifoMode(ctrl, wtm, md).1) == Some(md)
  {
    OperationRoundTrip(md.operation);
  }

  /** Placing the FIFO mode the registers already hold leaves both bytes
      unchanged. */
  lemma FifoModeOfPlace(ctrl: u8, wtm: u8)
    requires FifoModeOf(ctrl, wtm).Some?
    ensures PlaceFifoMode(ctrl, wtm, FifoModeOf(ctrl, wtm).value) == (ctrl, wtm)
  {
    var p := PlaceFifoMode(ctrl, wtm, FifoModeOf(ctrl, wtm).value);
    SameFieldsSameByte(p.0, ctrl, FIFO_CTRL_LAYOUT);
    SameFieldsSameByte(p.1, wtm, FIFO_WTM_LAYOUT);
  }

  /** The watermark as the C bit-field assignment stores it: only the low 7
      bits of the value survive. */
  function StoredWatermark(v: nat): (w: u7)
    ensures w == v % 128
  {
    LowMod(v, 7);
    Pow2Values();
    Low(v, 7)
  }

  /** The documented maximum of 128 does not survive the 7-bit field: it is
      stored as 0, which disables the watermark. */
  lemma StoredWatermarkOfMax()
    ensures StoredWatermark(128) == 0
    ensures !WatermarkEnabled(FifoMd(Bypass, StoredWatermark(128)))
  {
  }

  /** A watermark level accepted only when the 7-bit field can hold it. */
  function CheckedWatermark(v: nat): (w: Option<u7>)
    ensures w.Some? <==> v <= 127
    ensures w.Some? ==> w.value == v && StoredWatermark(v) == v
  {
    if v <= 127 then Some(v) else None
  }

  /** A watermark level accepted by `CheckedWatermark` reads back from
      FIFO_WTM unchanged, and enables the watermark exactly when it is
      not 0. */
  lemma CheckedWatermarkPlaced(ctrl: u8, wtm: u8, op: Operation, v: nat)
    requires v <= 127
    ensures var md := FifoMd(op, CheckedWatermark(v).value);
            && FifoModeOf(PlaceFifoMode(ctrl, wtm, md).0, PlaceFifoMode(ctrl, wtm, md).1) == Some(FifoMd(op, v))
            && (WatermarkEnabled(md) <==> v != 0)
  {
    PlaceFifoModeRoundTrip(ctrl, wtm, FifoMd(op, CheckedWatermark(v).value));
  }

  // ---------------------------------------------------------------------
  // Interrupt on threshold: `over_th`/`under_th` go to `phe`/`ple` in
  // INTERRUPT_CFG, `threshold` to `ths` in THS_P_L (low byte) and THS_P_H
  // (the 7 bits above it).

  datatype IntThMd = IntThMd(threshold: u16, overTh: u1, underTh: u1)

  /** INTERRUPT_CFG, THS_P_L and THS_P_H with the fields that carry `md`
      written: `phe` and `ple` take the polarity bits, THS_P_L the low byte
      of the threshold and THS_P_H the next 7 bits (bit 15 is dropped);
      every other field keeps its value. */
  function PlaceThreshold(cfg: u8, thsL: u8, thsH: u8, md: IntThMd): (r: (u8, u8, u8))
    ensures InterruptCfg.Read(r.0) == InterruptCfg.Read(cfg).(phe := md.overTh, ple := md.underTh)
    ensures ThsPL.Read(r.1).ths == md.threshold % 256
    ensures ThsPH.Read(r.2) == ThsPH.Read(thsH).(ths := md.threshold / 256 % 128)
  {
    var c := PlaceThresholdCfg(cfg, md);
    var l := PlaceThresholdLow(thsL, md.threshold);
    var h := PlaceThresholdHigh(thsH, md.threshold);
    (c, l, h)
  }

  /** INTERRUPT_CFG with `phe` and `ple` written. */
  function PlaceThresholdCfg(cfg: u8, md: IntThMd): (r: u8)
    ensures InterruptCfg.Read(r) == InterruptCfg.Read(cfg).(phe := md.overTh, ple := md.underTh)
  {
    Pow2Values();
    LowSmall(md.overTh, 1);
    LowSmall(md.underTh, 1);
    var c := SetByteField(cfg, INTERRUPT_CFG_LAYOUT, INTERRUPT_CFG_PHE, md.overTh);
    SetByteField(c, INTERRUPT_CFG_LAYOUT, INTERRUPT_CFG_PLE, md.underTh)
  }

  /** THS_P_L with the low byte of `threshold` written. */
  function PlaceThresholdLow(thsL: u8, threshold: u16): (r: u8)
    ensures ThsPL.Read(r).ths == threshold % 256
  {
    Pow2Values();
    LowSmall(threshold % 256, 8);
    SetByteField(thsL, THS_P_L_LAYOUT, THS_P_THS, threshold % 256)
  }

  /** THS_P_H with bits 8 to 14 of `threshold` written in `ths`; the
      7-bit field drops bit 15, and the reserved bit 7 is kept. */
  function PlaceThresholdHigh(thsH: u8, threshold: u16): (r: u8)
    ensures ThsPH.Read(r) == ThsPH.Read(thsH).(ths := threshold / 256 % 128)
  {
    Pow2Values();
    LowMod(threshold / 256, 7);
    SetByteField(thsH, THS_P_H_LAYOUT, THS_P_THS, threshold / 256)
  }

  /** The threshold mode held by the three registers: the threshold joins
      the low byte and the 7-bit high part. */
  function ThresholdOf(cfg: u8, thsL: u8, thsH: u8): (md: IntThMd)
    ensures md.threshold < 0x8000
  {
    var c := InterruptCfg.Read(cfg);
    IntThMd(ThsPL.Read(thsL).ths + 256 * ThsPH.Read(thsH).ths, c.phe, c.ple)
  }

  /** The low byte and the next 7 bits of `th` join to `th` modulo 2^15. */
  lemma ThresholdSplit(th: nat)
    ensures th % 256 + 256 * (th / 256 % 128) == th % 0x8000
  {
    var q := th / 256 / 128;
    assert th == 0x8000 * q + (th % 256 + 256 * (th / 256 % 128));
    DivModUnique(th, 0x8000, q, th % 256 + 256 * (th / 256 % 128));
  }

  /** Reading back a placed threshold mode gives the threshold modulo
      2^15, as the registers hold only 15 bits of it. */
  lemma PlaceThresholdRoundTrip(cfg: u8, thsL: u8, thsH: u8, md: IntThMd)
    ensures var p := PlaceThreshold(cfg, thsL, thsH, md);
            && ThresholdOf(p.0, p.1, p.2).threshold == md.threshold % 0x8000
            && ThresholdOf(p.0, p.1, p.2).overTh == md.overTh
            && ThresholdOf(p.0, p.1, p.2).underTh == md.underTh
  {
    ThresholdSplit(md.threshold);
  }

  /** Every threshold below 2^15 round-trips exactly. */
  lemma PlaceThresholdExact(cfg: u8, thsL: u8, thsH: u8, md: IntThMd)
    requires md.threshold < 0x8000
    ensures var p := PlaceThreshold(cfg, thsL, thsH, md);
            ThresholdOf(p.0, p.1, p.2) == md
  {
    var p := PlaceThreshold(cfg, thsL, thsH, md);
    PlaceThresholdRoundTrip(cfg, thsL, thsH, md);
    ThresholdInRange(ThresholdOf(p.0, p.1, p.2), md);
  }

  /** Placing the threshold mode the registers already hold leaves all
      three bytes unchanged. */
  lemma ThresholdOfPlace(cfg: u8, thsL: u8, thsH: u8)
    ensures PlaceThreshold(cfg, thsL, thsH, ThresholdOf(cfg, thsL, thsH)) == (cfg, thsL, thsH)
  {
    var md := ThresholdOf(cfg, thsL, thsH);
    var lo, hi := ThsPL.Read(thsL).ths, ThsPH.Read(thsH).ths;
    DivModUnique(md.threshold, 256, hi, lo);
    ThresholdCfgKept(cfg, md);
    ThresholdLowKept(thsL, md.threshold);
    ThresholdHighKept(thsH, md.threshold);
  }

  lemma ThresholdCfgKept(cfg: u8, md: IntThMd)
    requires md.overTh == InterruptCfg.Read(cfg).phe && md.underTh == InterruptCfg.Read(cfg).ple
    ensures PlaceThresholdCfg(cfg, md) == cfg
  {
    SameFieldsSameByte(PlaceThresholdCfg(cfg, md), cfg, INTERRUPT_CFG_LAYOUT);
  }

  lemma ThresholdLowKept(thsL: u8, threshold: u16)
    requires threshold % 256 == ThsPL.Read(thsL).ths
    ensures PlaceThresholdLow(thsL, threshold) == thsL
  {
    SameFieldsSameByte(PlaceThresholdLow(thsL, threshold), thsL, THS_P_L_LAYOUT);
  }

  lemma ThresholdHighKept(thsH: u8, threshold: u16)
    requires threshold / 256 == ThsPH.Read(thsH).ths
    ensures PlaceThresholdHigh(thsH, threshold) == thsH
  {
    var r := PlaceThresholdHigh(thsH, threshold);
    DivModUnique(threshold / 256, 128, 0, threshold / 256);
    assert ThsPH.Read(r) == ThsPH.Read(thsH);
    SameFieldsSameByte(r, thsH, THS_P_H_LAYOUT);
  }

  /** Taking a threshold below 2^15 modulo 2^15 leaves the mode as it was. */
  lemma ThresholdInRange(x: IntThMd, md: IntThMd)
    requires md.threshold < 0x8000 && x == md.(threshold := md.threshold % 0x8000)
    ensures x == md
  {
  }

  // ---------------------------------------------------------------------
  // Interrupt mode: `int_latched` goes to `lir` (INTERRUPT_CFG bit 2).

  datatype IntMode = IntMode(intLatched: u1)

  /** INTERRUPT_CFG with `lir` written and every other field kept. */
  function PlaceIntMode(cfg: u8, mode: IntMode): (r: u8)
    ensures InterruptCfg.Read(r) == InterruptCfg.Read(cfg).(lir := mode.intLatched)
  {
    Pow2Values();
    LowSmall(mode.intLatched, 1);
    SetByteField(cfg, INTERRUPT_CFG_LAYOUT, INTERRUPT_CFG_LIR, mode.intLatched)
  }

  /** The interrupt mode held by INTERRUPT_CFG: `int_latched` is bit 2. */
  function IntModeOf(cfg: u8): (mode: IntMode)
    ensures mode.intLatched == FieldAt(cfg, 2, 1)
  {
    InterruptCfgPositions(cfg);
    IntMode(InterruptCfg.Read(cfg).lir)
  }

  /** Placing the interrupt mode and reading it back gives the mode. */
  lemma PlaceIntModeRoundTrip(cfg: u8, mode: IntMode)
    ensures IntModeOf(PlaceIntMode(cfg, mode)) == mode
  {
  }

  /** Placing the interrupt mode a register already holds leaves its byte
      unchanged. */
  lemma IntModeOfPlace(cfg: u8)
    ensures PlaceIntMode(cfg, IntModeOf(cfg)) == cfg
  {
    SameFieldsSameByte(PlaceIntMode(cfg, IntModeOf(cfg)), cfg, INTERRUPT_CFG_LAYOUT);
  }
}
