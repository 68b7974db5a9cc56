# ILPS22QS register map in Dafny

This project models the register map of the ILPS22QS barometric pressure
sensor driver. The driver header `ilps22qs_reg.h` defines this map. It has 16
registers with a documented bitfield layout. Each one packs its fields
least-significant bit first, reserved bits included, and fills exactly one
byte. The header also declares an untagged union of all these register
views, which it notes the driver does not need. The model turns that union
into a decode keyed by register address. The header declares prototypes for
the configuration operations (full scale, output data rate, averaging,
low-pass filter, FIFO operation and watermark, pressure threshold, interrupt
latching) but not their bodies. The model places each configuration value
into the register fields that carry it. `odr`, `avg`, `fs_mode`,
`en_lpfp`/`lfpf_cfg`, `ths` and `wtm` are matched by name. The operation,
the threshold polarities and interrupt latching are mapped by meaning (see
"## Left out"). It also assembles multi-byte
samples: a 24-bit pressure code, 16-bit two's-complement
values and a 15-bit threshold.

Modules:

- `BitField`: layouts as sequences of field widths, packed LSB-first.
  - `Unpack`/`Pack` convert between a byte and its field values.
  - `FieldAt` is the reference "shift right, then mask" meaning of a field.
  - `SetField` is the read-modify-write of one field.
- `Registers`:
  - One datatype per bitfield register. Its fields are listed from bit 0 up, and reserved bits appear as `notUsed01`, `notUsed02`, ....
  - The union `Reg`, whose `Decode` chooses the view by address. Any other address decodes to a `Plain` byte.
  - `Encode`, and the field update `Update`.
- `Config`: the configuration enums, their numeric codes, and the fields that carry them.
  - Placing a configuration writes its carrier fields.
  - Reading those fields back gives the configuration again.
- `Samples`:
  - Two's complement.
  - The 24-bit pressure sample as a left-aligned 32-bit `raw` and a right-aligned `lsb`.
  - 16-bit values such as the reference pressure.

Every integer is an unbounded `int`/`nat` restricted by subtype to the
width the header gives it (`u1` … `u8`, `u16`, `int16`, `int24`, `int32`).
Truncation by a C bit-field assignment is written out as `Low`, which is the
remainder modulo `2^n`.

## Model

| member | source | states |
|---|---|---|
| BitField.Unpack | ilps22qs_reg.h:187-195 | the field values of a byte fit their widths (fields packed from bit 0 upwards) |
| BitField.Pack | ilps22qs_reg.h:187-195 | the byte built from field values stays below 2^(sum of widths) |
| BitField.PackUnpack | ilps22qs_reg.h:184-421 | packing the unpacked fields of any value below 2^(sum of widths) gives the value back |
| BitField.UnpackPack | ilps22qs_reg.h:184-421 | unpacking packed field values that fit their widths gives the values back |
| BitField.UnpackInjective | ilps22qs_reg.h:184-421 | a value below 2^(sum of widths) is determined by its field values |
| BitField.UnpackAt | ilps22qs_reg.h:187-195 | field i of a byte is the bits starting at the sum of the widths before it |
| BitField.LowMod | ilps22qs_reg.h:655 | truncating to n bits is the remainder modulo 2^n |
| BitField.ShrDiv | ilps22qs_reg.h:187-195 | shifting right by n bits is floor division by 2^n, so `FieldAt` is shift-then-mask |
| BitField.SetField | ilps22qs_reg.h:446-466 | read-modify-write of one field: the result fits the layout, and its fields are the old ones with field i replaced by the low bits of v |
| BitField.SetFieldKeepsOtherBits | ilps22qs_reg.h:446-466 | setting one field leaves every bit outside that field unchanged |
| BitField.SetFieldWritesField | ilps22qs_reg.h:446-466 | bit t of the set field is bit t of the new value |
| BitField.SetFieldKeepsField | ilps22qs_reg.h:446-466 | setting field i leaves the value of every other field unchanged |
| BitField.BitInField | ilps22qs_reg.h:187-195 | the bits of a byte inside field j are the bits of that field's value |
| BitField.FieldIndex | ilps22qs_reg.h:187-195 | every bit position below the layout's width lies inside exactly the field returned |
| Registers.InterruptCfg.Read | ilps22qs_reg.h:184-206 | INTERRUPT_CFG's fields are phe, ple, lir, reserved, reset_az, autozero, reset_arp, autorefp, one bit each, from bit 0 up |
| Registers.ThsPL.Read | ilps22qs_reg.h:208-212 | THS_P_L is one 8-bit `ths` field |
| Registers.ThsPH.Read | ilps22qs_reg.h:214-224 | THS_P_H is a 7-bit `ths` field and a reserved bit 7 |
| Registers.IfCtrl.Read | ilps22qs_reg.h:226-246 | IF_CTRL's seven fields with widths 1,1,2,1,1,1,1 |
| Registers.CtrlReg1.Read | ilps22qs_reg.h:249-261 | CTRL_REG1 is `avg` (3 bits), `odr` (4 bits) and a reserved bit |
| Registers.CtrlReg2.Read | ilps22qs_reg.h:263-285 | CTRL_REG2's eight one-bit fields, oneshot to boot |
| Registers.CtrlReg3.Read | ilps22qs_reg.h:287-303 | CTRL_REG3 is if_add_inc, 4 reserved bits, ah_qvar_p_auto_en, a reserved bit, ah_qvar_en |
| Registers.FifoCtrl.Read | ilps22qs_reg.h:305-321 | FIFO_CTRL is f_mode (2 bits), trig_modes, stop_on_wtm, ah_qvar_p_fifo_en and 3 reserved bits |
| Registers.FifoWtm.Read | ilps22qs_reg.h:323-333 | FIFO_WTM is a 7-bit `wtm` and a reserved bit |
| Registers.RefPL.Read | ilps22qs_reg.h:335-339 | REF_P_L is one 8-bit `refp` field |
| Registers.RefPH.Read | ilps22qs_reg.h:341-345 | REF_P_H is one 8-bit `refp` field |
| Registers.I3cIfCtrl.Read | ilps22qs_reg.h:347-359 | I3C_IF_CTRL is 5 reserved bits, asf_on and 2 reserved bits |
| Registers.IntSource.Read | ilps22qs_reg.h:363-379 | INT_SOURCE is ph, pl, ia, 4 reserved bits and boot_on |
| Registers.FifoStatus1.Read | ilps22qs_reg.h:381-385 | FIFO_STATUS1 is one 8-bit `fss` field |
| Registers.FifoStatus2.Read | ilps22qs_reg.h:387-401 | FIFO_STATUS2 is 5 reserved bits, fifo_full_ia, fifo_ovr_ia, fifo_wtm_ia |
| Registers.Status.Read | ilps22qs_reg.h:403-421 | STATUS is p_da, t_da, 2 reserved bits, p_or, t_or, 2 reserved bits |
| Registers.Layout | ilps22qs_reg.h:184-421 | the field widths of every register add up to exactly 8 |
| Registers.FieldsFit | ilps22qs_reg.h:184-421 | every field of every view fits the width its layout gives it |
| Registers.FieldsDetermine | ilps22qs_reg.h:446-466 | a view is determined by its address and its field values |
| Registers.FromFields | ilps22qs_reg.h:446-466 | the view built from fitting field values has the given address and exactly those fields |
| Registers.FromFieldsLow | ilps22qs_reg.h:446-455 | as FromFields, for the addresses up to FIFO_CTRL |
| Registers.FromFieldsHigh | ilps22qs_reg.h:456-465 | as FromFields, for the addresses after FIFO_CTRL |
| Registers.Decode | ilps22qs_reg.h:446-466 | the tagged decode has the address it was read from, and its fields are the byte unpacked by that address's layout |
| Registers.Encode | ilps22qs_reg.h:446-466 | the encoded byte unpacks to the view's fields |
| Registers.EncodeDecode | ilps22qs_reg.h:184-421 | encode(decode(a, b)) == b for every address and byte |
| Registers.DecodeEncode | ilps22qs_reg.h:184-421 | decode(address(r), encode(r)) == r for every view whose fields fit |
| Registers.DecodeFieldAt | ilps22qs_reg.h:184-421 | field i at address a is read from bit Offset(Layout(a), i) |
| Registers.WhoAmIPlain | ilps22qs_reg.h:248 | WHO_AM_I has no bitfield layout and decodes to its plain byte |
| Registers.InterruptCfgView | ilps22qs_reg.h:448 | at INTERRUPT_CFG the union's view is the INTERRUPT_CFG record |
| Registers.ThsPLView | ilps22qs_reg.h:449 | at THS_P_L the union's view is the THS_P_L record |
| Registers.ThsPHView | ilps22qs_reg.h:450 | at THS_P_H the union's view is the THS_P_H record |
| Registers.IfCtrlView | ilps22qs_reg.h:451 | at IF_CTRL the union's view is the IF_CTRL record |
| Registers.CtrlReg1View | ilps22qs_reg.h:452 | at CTRL_REG1 the union's view is the CTRL_REG1 record |
| Registers.CtrlReg2View | ilps22qs_reg.h:453 | at CTRL_REG2 the union's view is the CTRL_REG2 record |
| Registers.CtrlReg3View | ilps22qs_reg.h:454 | at CTRL_REG3 the union's view is the CTRL_REG3 record |
| Registers.FifoCtrlView | ilps22qs_reg.h:455 | at FIFO_CTRL the union's view is the FIFO_CTRL record |
| Registers.FifoWtmView | ilps22qs_reg.h:456 | at FIFO_WTM the union's view is the FIFO_WTM record |
| Registers.RefPLView | ilps22qs_reg.h:457 | at REF_P_L the union's view is the REF_P_L record |
| Registers.RefPHView | ilps22qs_reg.h:458 | at REF_P_H the union's view is the REF_P_H record |
| Registers.I3cIfCtrlView | ilps22qs_reg.h:459 | at I3C_IF_CTRL the union's view is the I3C_IF_CTRL record |
| Registers.IntSourceView | ilps22qs_reg.h:460 | at INT_SOURCE the union's view is the INT_SOURCE record |
| Registers.FifoStatus1View | ilps22qs_reg.h:461 | at FIFO_STATUS1 the union's view is the FIFO_STATUS1 record |
| Registers.FifoStatus2View | ilps22qs_reg.h:462 | at FIFO_STATUS2 the union's view is the FIFO_STATUS2 record |
| Registers.StatusView | ilps22qs_reg.h:463 | at STATUS the union's view is the STATUS record |
| Registers.InterruptCfgPositions | ilps22qs_reg.h:188-195 | each INTERRUPT_CFG field is bit 0 … 7 of the byte, reserved bit 3 included |
| Registers.ThsPLPositions | ilps22qs_reg.h:210-211 | `ths` of THS_P_L is bits 0-7 |
| Registers.ThsPHPositions | ilps22qs_reg.h:217-219 | `ths` of THS_P_H is bits 0-6, reserved bit 7 |
| Registers.IfCtrlPositions | ilps22qs_reg.h:229-236 | the IF_CTRL fields sit at bits 0, 1, 2-3, 4, 5, 6, 7 |
| Registers.CtrlReg1Positions | ilps22qs_reg.h:252-255 | `avg` is bits 0-2, `odr` bits 3-6, reserved bit 7 |
| Registers.CtrlReg2Positions | ilps22qs_reg.h:266-274 | oneshot bit 0, reserved bit 1, swreset bit 2, bdu bit 3, en_lpfp bit 4, lfpf_cfg bit 5, fs_mode bit 6, boot bit 7 |
| Registers.CtrlReg3Positions | ilps22qs_reg.h:290-295 | if_add_inc bit 0, reserved bits 1-4, ah_qvar_p_auto_en bit 5, reserved bit 6, ah_qvar_en bit 7 |
| Registers.FifoCtrlPositions | ilps22qs_reg.h:308-313 | f_mode bits 0-1, trig_modes bit 2, stop_on_wtm bit 3, ah_qvar_p_fifo_en bit 4, reserved bits 5-7 |
| Registers.FifoWtmPositions | ilps22qs_reg.h:326-328 | `wtm` is bits 0-6, reserved bit 7 |
| Registers.RefPLPositions | ilps22qs_reg.h:337-338 | `refp` of REF_P_L is bits 0-7 |
| Registers.RefPHPositions | ilps22qs_reg.h:343-344 | `refp` of REF_P_H is bits 0-7 |
| Registers.I3cIfCtrlPositions | ilps22qs_reg.h:350-353 | reserved bits 0-4, asf_on bit 5, reserved bits 6-7 |
| Registers.IntSourcePositions | ilps22qs_reg.h:366-371 | ph bit 0, pl bit 1, ia bit 2, reserved bits 3-6, boot_on bit 7 |
| Registers.FifoStatus1Positions | ilps22qs_reg.h:383-384 | `fss` is bits 0-7 |
| Registers.FifoStatus2Positions | ilps22qs_reg.h:390-394 | reserved bits 0-4, fifo_full_ia bit 5, fifo_ovr_ia bit 6, fifo_wtm_ia bit 7 |
| Registers.StatusPositions | ilps22qs_reg.h:406-412 | p_da bit 0, t_da bit 1, reserved bits 2-3, p_or bit 4, t_or bit 5, reserved bits 6-7 |
| Registers.SetByteField | ilps22qs_reg.h:446-466 | one register byte with field i replaced by the low bits of v, other fields as they were |
| Registers.SameFieldsSameByte | ilps22qs_reg.h:184-421 | two register bytes with the same field values are the same byte |
| Registers.Update | ilps22qs_reg.h:446-466 | after an update at address a, the decoded fields are the old ones with field i replaced by the low bits of v |
| Registers.UpdateKeepsOtherBits | ilps22qs_reg.h:446-466 | an update leaves every bit outside its field unchanged |
| Registers.UpdateWritesField | ilps22qs_reg.h:446-466 | an update writes the low bits of the new value into its field |
| Registers.InterruptCfgKeepsReserved | ilps22qs_reg.h:188-195 | updating any named INTERRUPT_CFG field keeps reserved bit 3 |
| Registers.CtrlReg3KeepsReserved | ilps22qs_reg.h:291-295 | updating if_add_inc, ah_qvar_p_auto_en or ah_qvar_en keeps reserved bits 1-4 and 6 |
| Config.FsCode | ilps22qs_reg.h:559-563 | the 1-bit `fs_mode` code is set exactly for the 4060 hPa scale |
| Config.FsOfCode | ilps22qs_reg.h:559-563 | every 1-bit `fs_mode` code names a full scale whose code it is |
| Config.FsCodeRoundTrip | ilps22qs_reg.h:559-563 | full scale → code → full scale is the identity |
| Config.OdrCode | ilps22qs_reg.h:565-576 | every data rate code is at most 8 and fits the 4-bit `odr` field |
| Config.OdrOfCode | ilps22qs_reg.h:565-576 | an `odr` code names a data rate iff it is at most 8, and then the rate's code is that code |
| Config.OdrCodeRoundTrip | ilps22qs_reg.h:565-576 | data rate → code → data rate is the identity |
| Config.OdrCodeMonotonic | ilps22qs_reg.h:565-576 | a larger code means a faster rate, and the converse |
| Config.AvgCode | ilps22qs_reg.h:578-588 | the 3-bit `avg` code c of an averaging factor averages 2^(c+2) samples |
| Config.AvgOfCode | ilps22qs_reg.h:578-588 | every 3-bit `avg` code names an averaging whose code it is |
| Config.AvgCodeRoundTrip | ilps22qs_reg.h:578-588 | averaging → code → averaging is the identity |
| Config.LpfCode | ilps22qs_reg.h:590-595 | the filter code is 0, 1 or 3: it fits two bits and is never 2 |
| Config.LpfBits | ilps22qs_reg.h:590-595 | the filter code is en_lpfp + 2·lfpf_cfg, and lfpf_cfg is set only with en_lpfp |
| Config.LpfOfBits | ilps22qs_reg.h:590-595 | the two filter bits name a setting iff they are not (en_lpfp 0, lfpf_cfg 1), and that setting's bits are those bits |
| Config.LpfRoundTrip | ilps22qs_reg.h:590-595 | filter → bits → filter is the identity |
| Config.OperationCode | ilps22qs_reg.h:642-650 | every FIFO operation code is below 8 and is neither 3 nor 4 |
| Config.OperationFields | ilps22qs_reg.h:309-310 | `f_mode` + 4·`trig_modes` rejoins the operation code; trig_modes is set exactly for the triggered operations |
| Config.OperationOfFields | ilps22qs_reg.h:642-650 | `f_mode`/`trig_modes` name an operation iff they are neither (3, 0) nor (0, 1), and that operation splits back into them |
| Config.OperationRoundTrip | ilps22qs_reg.h:642-650 | operation → fields → operation is the identity |
| Config.PlaceMode | ilps22qs_reg.h:597-606 | the field write of `mode_set`: CTRL_REG1/2 get the codes of odr, avg, fs, en_lpfp and lfpf_cfg, and every other field keeps its value |
| Config.ModeOf | ilps22qs_reg.h:597-604 | CTRL_REG1/2 hold a measurement mode iff `odr` ≤ 8 and the filter bits name a setting |
| Config.PlaceModeRoundTrip | ilps22qs_reg.h:597-604 | reading back a placed mode gives the mode, whatever the registers held |
| Config.ModeOfPlace | ilps22qs_reg.h:597-606 | placing the mode the registers already hold leaves both bytes unchanged |
| Config.PlaceFifoMode | ilps22qs_reg.h:652-658 | the field write of `fifo_mode_set`: FIFO_CTRL gets f_mode/trig_modes of the operation, FIFO_WTM gets the watermark, and every other field keeps its value |
| Config.FifoModeOf | ilps22qs_reg.h:652-656 | FIFO_CTRL/FIFO_WTM hold a FIFO mode iff f_mode/trig_modes name an operation; the watermark is `wtm` |
| Config.PlaceFifoModeRoundTrip | ilps22qs_reg.h:652-656 | reading back a placed FIFO mode gives the mode |
| Config.FifoModeOfPlace | ilps22qs_reg.h:652-658 | placing the FIFO mode the registers already hold leaves both bytes unchanged |
| Config.StoredWatermark | ilps22qs_reg.h:655 | the 7-bit watermark field stores the value modulo 128 |
| Config.StoredWatermarkOfMax | ilps22qs_reg.h:655 | the documented maximum 128 is stored as 0, which disables the watermark |
| Config.CheckedWatermark | ilps22qs_reg.h:655 | a watermark level is accepted iff it is at most 127, and then it is stored unchanged |
| Config.CheckedWatermarkPlaced | ilps22qs_reg.h:652-656 | an accepted watermark level (≤ 127) placed in FIFO_WTM reads back unchanged, and enables the watermark iff it is not 0 |
| Config.PlaceThreshold | ilps22qs_reg.h:682-693 | the field write of `int_on_threshold_mode_set`: phe/ple get the polarity bits, THS_P_L the low byte, THS_P_H.ths the next 7 bits, and every other field keeps its value |
| Config.ThresholdOf | ilps22qs_reg.h:682-689 | the threshold read from THS_P_L/THS_P_H is below 2^15 |
| Config.PlaceThresholdCfg | ilps22qs_reg.h:687-688 | INTERRUPT_CFG with phe/ple written and every other field kept |
| Config.PlaceThresholdLow | ilps22qs_reg.h:208-212 | THS_P_L receives the low byte of the threshold |
| Config.PlaceThresholdHigh | ilps22qs_reg.h:214-224 | THS_P_H receives bits 8-14 of the threshold and keeps its reserved bit |
| Config.ThresholdSplit | ilps22qs_reg.h:208-224 | the low byte and the next 7 bits rejoin the threshold modulo 2^15 |
| Config.PlaceThresholdRoundTrip | ilps22qs_reg.h:682-689 | reading back a placed threshold mode gives it with the threshold taken modulo 2^15 |
| Config.PlaceThresholdExact | ilps22qs_reg.h:684 | every threshold below 2^15 round-trips exactly |
| Config.ThresholdOfPlace | ilps22qs_reg.h:682-693 | placing the threshold mode the registers already hold leaves all three bytes unchanged |
| Config.ThresholdCfgKept | ilps22qs_reg.h:687-688 | writing the phe/ple values INTERRUPT_CFG already holds leaves its byte unchanged |
| Config.ThresholdLowKept | ilps22qs_reg.h:208-212 | writing the low byte THS_P_L already holds leaves it unchanged |
| Config.ThresholdHighKept | ilps22qs_reg.h:214-224 | writing the 7 bits THS_P_H already holds leaves it unchanged |
| Config.PlaceIntMode | ilps22qs_reg.h:671-675 | the field write of `interrupt_mode_set`: `lir` gets int_latched and every other INTERRUPT_CFG field keeps its value |
| Config.IntModeOf | ilps22qs_reg.h:671-676 | the read of `interrupt_mode_get`: int_latched is bit 2 of INTERRUPT_CFG |
| Config.PlaceIntModeRoundTrip | ilps22qs_reg.h:671-676 | placing int_latched and reading it back gives the mode |
| Config.IntModeOfPlace | ilps22qs_reg.h:671-676 | placing the interrupt mode the register already holds leaves its byte unchanged |
| Samples.Signed | ilps22qs_reg.h:615 | an n-bit pattern's two's-complement value is in [-2^(n-1), 2^(n-1)) and is negative iff the top bit is set |
| Samples.Unsigned | ilps22qs_reg.h:615 | a value's n-bit pattern is below 2^n and has the top bit clear iff the value is non-negative |
| Samples.SignedUnsigned | ilps22qs_reg.h:615 | pattern → value inverts value → pattern |
| Samples.UnsignedSigned | ilps22qs_reg.h:615 | value → pattern inverts pattern → value |
| Samples.OutputAddressesConsecutive | ilps22qs_reg.h:423-431 | the pressure, temperature, FIFO pressure, reference, offset and threshold bytes sit at consecutive addresses, least significant first |
| Samples.PressureCode | ilps22qs_reg.h:423-425 | the three bytes XL, L, H are the low, middle and high bytes of a 24-bit code |
| Samples.PressureRaw | ilps22qs_reg.h:615 | `raw` is a signed 32-bit value, negative iff the H byte's top bit is set |
| Samples.PressureRawIsWord | ilps22qs_reg.h:615 | `raw` is the word with the three bytes in bits 8-31 read as signed 32-bit |
| Samples.PressureLsb | ilps22qs_reg.h:665 | `lsb` is `raw` divided by 256 rounding down (an arithmetic shift), within int24 |
| Samples.PressureRawIsLsbShifted | ilps22qs_reg.h:660-667 | raw == lsb · 256: no bits are lost |
| Samples.PressureLsbIsSigned | ilps22qs_reg.h:665 | `lsb` is the 24-bit two's-complement value of the three bytes |
| Samples.PressureBytes | ilps22qs_reg.h:423-425 | the bytes of a 24-bit value hold it, or it plus 2^24 when negative |
| Samples.PressureBytesRoundTrip | ilps22qs_reg.h:665 | the bytes of any int24 value read back as that `lsb` |
| Samples.PressureBytesOfLsb | ilps22qs_reg.h:665 | any three bytes read back as an `lsb` whose bytes are those bytes |
| Samples.PressureExtremes | ilps22qs_reg.h:660-667 | FF FF 7F and 00 00 80 reach the ends of the raw and lsb ranges without overflow |
| Samples.Int16Of | ilps22qs_reg.h:620 | two bytes, low first, read as int16: negative iff the high byte's top bit is set |
| Samples.Int16Bytes | ilps22qs_reg.h:620 | the low and high bytes of an int16 hold it, or it plus 2^16 when negative |
| Samples.Int16BytesRoundTrip | ilps22qs_reg.h:712-713 | int16 → bytes → int16 is the identity |
| Samples.Int16OfRoundTrip | ilps22qs_reg.h:712-713 | bytes → int16 → bytes is the identity |
| Samples.ReferenceOf | ilps22qs_reg.h:335-345 | the reference is the int16 held by the `refp` fields of REF_P_L and REF_P_H |
| Samples.ReferenceRoundTrip | ilps22qs_reg.h:335-345 | encoding a reference's bytes into REF_P_L/REF_P_H and reading them back gives the reference |
| Samples.RefPLEncode | ilps22qs_reg.h:335-339 | REF_P_L's byte is its `refp` field |
| Samples.RefPHEncode | ilps22qs_reg.h:341-345 | REF_P_H's byte is its `refp` field |

## Left out

- The transport layer (`stmdev_ctx_t`, the read/write/delay function pointers, `ilps22qs_read_reg`/`ilps22qs_write_reg`) is bus I/O through foreign calls. The model works on register byte values handed to it.
- The bodies of `mode_set`, `fifo_mode_set`, `int_on_threshold_mode_set`, `interrupt_mode_set`, `data_get`, `fifo_data_get` and the other operations are not part of this model: only their prototypes are. The `Place…`/`…Of` functions give the field-level meaning of each configuration structure, a read-modify-write of its carrier fields. The number and order of bus transfers are not modelled.
- Float conversions (`from_fs1260_to_hPa`, `from_fs4000_to_hPa`, `from_lsb_to_celsius`, `from_lsb_to_mv`) and the `float_t` fields are floating point, and their bodies are not shown.
- The big-endian bitfield layouts describe the same bit positions as the little-endian ones, so positions are modelled once.
- The `bitwise_t` member of the register union is not modelled: it is a per-bit alias of the same byte, which `BitField.Bit` already gives.
- `ucf_line_t`, the I2C address, WHO_AM_I's expected value and the other bare constants carry no behaviour.
- `ilps22qs_id_t` (the WHO_AM_I value) is a plain byte read with no field structure. At WHO_AM_I's address the model has only the `Plain` view.
- `ilps22qs_pin_conf_t` is left out. By name its `sda_pull_up`/`cs_pull_up` would map to IF_CTRL `sda_pu_en` and `cs_pu_dis`, the latter with inverted sense. The header does not state that mapping.
- The interface, filter, init, status, all-sources, AH/Qvar, `apply_ref` and `ref_md` structures are left out. Their carrier fields are outside the 16 modelled registers, or their field mapping is not stated in the header.
- `Config.OperationFields`: the header does not say which fields carry `operation`. The model assumes FIFO_CTRL `f_mode` and `trig_modes`, because the enum's bit pattern (bit 2 set exactly for the "on Trigger" operations) fits them.
- `Config.PlaceThresholdCfg`: the header does not say which fields carry `over_th`/`under_th`. The model assumes INTERRUPT_CFG `phe`/`ple` (pressure high/low event), by meaning.
- `Config.PlaceIntMode`: the header does not say which field carries `int_latched`. The model assumes INTERRUPT_CFG `lir` (latch interrupt request), by meaning.
- `interleaved_mode` in the measurement-mode structure is omitted from `Config.Md`: the header does not say which field carries it.
- The AH/Qvar `lsb`/`raw` sample is left out: the header does not say which registers hold its bytes.
- Config.ThresholdOf: the 16-bit `threshold` of the structure is carried by 15 register bits. The model keeps the threshold modulo 2^15 (`PlaceThresholdRoundTrip`), and only values below 2^15 round-trip exactly.
- The full-scale enum is 4060 hPa in the code (the conversion function's name says 4000). The model follows the enum.
- FIFO_STATUS1 is a full 8-bit `fss` byte, so the FIFO level needs no masking; overrun and full flags live in FIFO_STATUS2.

## Findings

| source | as written | input that shows it | evidently intended | confidence | as-written member | corrected member |
|---|---|---|---|---|---|---|
| ilps22qs_reg.h:655 | `watermark` is a 7-bit field documented as "max 128" | watermark 128 is stored as 0, which means "disabled" | the largest accepted watermark is 127, the most 7 bits hold | not executed | Config.StoredWatermarkOfMax | Config.CheckedWatermark |
