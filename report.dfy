/** The layout of HID feature report 0, in both directions (Set_Report and
    Get_Report of section 7.2 of the Device Class Definition for HID 1.11). */
module FeatureReport {
  import opened Bytes

  /** The encoder writes bytes 0 to 6, so the shared feature buffer
      (`HID_FEATURE_REPORT_BYTES` long) holds at least this many. */
  const MIN_REPORT_BYTES: nat := 7

  /** Bits of the status byte; they follow the device GET_STATUS word of
      section 9.4.5 of the USB 2.0 specification. */
  const SELF_POWERED_BIT: byte := 0x01
  const REMOTE_WAKEUP_BIT: byte := 0x02

  /** What an inbound report commands. */
  datatype Command = Command(ledOn: bool, motorSpeed: int, servoPos: byte, fireSolenoid: bool)

  /** The motor speed carried in byte 1: the unsigned byte shifted down by 128,
      so that 128 means stopped. */
  function MotorSpeedOf(b: byte): (speed: int)
    ensures -128 <= speed <= 127
    ensures speed < 0 <==> b < 0x80
    ensures speed == 0 <==> b == 0x80
  {
    b as int - 128
  }

  /** Decoding an inbound report: byte 0 bit 0 is the LED, byte 1 the offset
      motor speed, byte 2 the servo position, byte 3 bit 0 fire or clear. Bytes
      from 4 on are not looked at. */
  function Decode(report: seq<byte>): (c: Command)
    requires |report| >= 4
    ensures c.ledOn <==> report[0] % 2 == 1
    ensures c.motorSpeed + 128 == report[1] as int && -128 <= c.motorSpeed <= 127
    ensures c.servoPos == report[2]
    ensures c.fireSolenoid <==> report[3] % 2 == 1
  {
    Command(LowBit(report[0]), MotorSpeedOf(report[1]), report[2], LowBit(report[3]))
  }

  /** The status byte: bit 0 self-powered, bit 1 remote wakeup, the other six
      bits clear. The two flags are OR-ed into a zero byte; their bits are
      disjoint, so the OR is a sum. */
  function StatusByte(selfPowered: bool, remoteWakeup: bool): (s: byte)
    ensures LowBit(s) <==> selfPowered
    ensures Bit1(s) <==> remoteWakeup
    ensures s < 4
  {
    (if selfPowered then SELF_POWERED_BIT else 0) + (if remoteWakeup then REMOTE_WAKEUP_BIT else 0)
  }

  /** The inputs the encoder reads from the hardware: the three port
      readbacks and the A/D reading of the solenoid boost voltage. */
  datatype Readings = Readings(portA: byte, portB: byte, portC: byte, voltage: byte)

  /** Encoding the outbound report into a buffer that held `buffer`: bytes 0
      to 6 are the readings, the motor speed stored as a byte (modulo 256) and
      the servo position, and the status byte; every later byte keeps its old
      value. */
  function Encode(buffer: seq<byte>, r: Readings, motorSpeed: int, servoPos: byte,
                  selfPowered: bool, remoteWakeup: bool): (out: seq<byte>)
    requires |buffer| >= MIN_REPORT_BYTES
    ensures |out| == |buffer|
    ensures out[0] == r.portA && out[1] == r.portB && out[2] == r.portC && out[3] == r.voltage
    ensures out[4] == ToByte(motorSpeed)
    ensures -128 <= motorSpeed <= 127 ==> SignedChar(out[4]) == motorSpeed
    ensures out[5] == servoPos
    ensures out[6] < 4
    ensures (out[6] % 2 == 1 <==> selfPowered) && ((out[6] / 2) % 2 == 1 <==> remoteWakeup)
    ensures forall i :: MIN_REPORT_BYTES <= i < |out| ==> out[i] == buffer[i]
  {
    SignedCharOfToByte(if -128 <= motorSpeed <= 127 then motorSpeed else 0);
    [r.portA, r.portB, r.portC, r.voltage, ToByte(motorSpeed), servoPos,
     StatusByte(selfPowered, remoteWakeup)] + buffer[MIN_REPORT_BYTES..]
  }

  /** Decoding looks only at bit 0 of byte 0, bytes 1 and 2, and bit 0 of
      byte 3. */
  lemma DecodeIgnoresOtherBits(a: seq<byte>, b: seq<byte>)
    requires |a| >= 4 && |b| >= 4
    requires a[0] % 2 == b[0] % 2 && a[1] == b[1] && a[2] == b[2] && a[3] % 2 == b[3] % 2
    ensures Decode(a) == Decode(b)
  {
  }

  /** What a host reads back after commanding `report`, when the drivers
      report the last commanded values: byte 4 read as `signed char` is the
      commanded speed, byte 4 as unsigned is byte 1 moved by 128 modulo 256,
      and byte 5 is byte 2. */
  lemma EncodeAfterDecode(report: seq<byte>, r: Readings, selfPowered: bool, remoteWakeup: bool)
    requires |report| >= MIN_REPORT_BYTES
    ensures var c := Decode(report);
            var out := Encode(report, r, c.motorSpeed, c.servoPos, selfPowered, remoteWakeup);
            SignedChar(out[4]) == report[1] as int - 128 &&
            out[4] as int == (report[1] as int + 128) % 256 &&
            out[5] == report[2] &&
            out[6] == StatusByte(selfPowered, remoteWakeup)
  {
    ToByteShiftedBy128(report[1]);
  }
}
