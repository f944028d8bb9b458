/** The two register writes that switch the INA219 power monitor between continuous
    measurement and power-down (esp.cpp, setINA219Active and setINA219PowerDown). */
module Ina219 {

  /** The monitor's fixed I2C bus address. */
  const ADDRESS: bv8 := 0x40
  /** The configuration register's pointer byte. */
  const CONFIG_REGISTER: bv8 := 0x00
  /** 32 V range, gain /8, 12-bit ADCs, mode 7 (shunt and bus, continuous). */
  const ACTIVE_CONFIG: bv16 := 0x399F
  /** The three operating-mode bits of the configuration register. */
  const MODE_MASK: bv16 := 0x0007

  /** One `Wire.beginTransmission` ... `endTransmission` sequence: the bytes in order. */
  datatype Transmission = Transmission(address: bv8, bytes: seq<bv8>)

  /** The active configuration with its mode bits cleared (mode 0, power-down). */
  function PowerDownConfig(): (v: bv16)
    ensures v == 0x3998
    ensures v & MODE_MASK == 0
    ensures v | MODE_MASK == ACTIVE_CONFIG
  {
    ACTIVE_CONFIG & !MODE_MASK
  }

  /** The 16-bit value a configuration-register write carries: high byte, then low byte. */
  function WrittenValue(t: Transmission): bv16
    requires |t.bytes| == 3
  {
    (t.bytes[1] as bv16 << 8) | t.bytes[2] as bv16
  }

  /** A write of `value` to the configuration register. */
  function ConfigWrite(value: bv16): (t: Transmission)
    ensures t.address == ADDRESS
    ensures |t.bytes| == 3 && t.bytes[0] == CONFIG_REGISTER
    ensures WrittenValue(t) == value
  {
    Transmission(ADDRESS, [CONFIG_REGISTER, ((value >> 8) & 0xFF) as bv8, (value & 0xFF) as bv8])
  }

  /** What setINA219Active puts on the bus. */
  function ActiveWrite(): (t: Transmission)
    ensures t == Transmission(0x40, [0x00, 0x39, 0x9F])
  {
    ConfigWrite(ACTIVE_CONFIG)
  }

  /** What setINA219PowerDown puts on the bus. */
  function PowerDownWrite(): (t: Transmission)
    ensures t == Transmission(0x40, [0x00, 0x39, 0x98])
  {
    ConfigWrite(PowerDownConfig())
  }

  /** The two writes address the same register and differ only in the operating mode. */
  lemma WritesDifferOnlyInMode()
    ensures ActiveWrite().address == PowerDownWrite().address
    ensures ActiveWrite().bytes[..2] == PowerDownWrite().bytes[..2]
    ensures WrittenValue(ActiveWrite()) & !MODE_MASK == WrittenValue(PowerDownWrite()) & !MODE_MASK
    ensures WrittenValue(PowerDownWrite()) & MODE_MASK == 0
  {
  }
}
