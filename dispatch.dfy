/** The firmware's state as one value, and what each HID callback and the
    application task do to it. The class in firmware.dfy updates the same
    state in place and is proved to agree with these functions. */
module Dispatch {
  import opened Bytes
  import opened Usb
  import opened FeatureReport

  /** The three interrupt-enable bits that `ApplicationTasks` sets:
      RCON.IPEN, INTCON.GIEL and INTCON.GIEH. */
  datatype Interrupts = Interrupts(ipen: bool, giel: bool, gieh: bool)

  const AllEnabled := Interrupts(true, true, true)

  /** One call the core makes into an actuator driver or onto an output pin,
      in the order it makes them. */
  datatype DriverCall =
    | SetLed(on: bool)               // PORTAbits.RA4 = ...
    | SetMotorSpeed(speed: int)      // motorSetSpeed
    | SetServo(position: byte)       // setServo1
    | ActuateSolenoid                // actuateSolenoid
    | ClearSolenoid                  // clearSolenoid
    | CheckSolenoidVoltage           // checkSolenoidVoltage

  /** The USB stack's globals that the core assigns or reads: the data
      pointers and transfer length, the device state, the suspend bit
      (UCON.SUSPND) and the host-granted remote-wakeup flag. */
  datatype Stack = Stack(inPtr: BufferRef, outPtr: BufferRef, wCount: nat,
                         deviceState: DeviceState, suspended: bool, remoteWakeup: bool)

  /** The last values given to the LED pin and to the drivers, which is also
      what the drivers' getters return. */
  datatype Actuators = Actuators(ledOn: bool, motorSpeed: int, servoPos: byte, solenoidFiring: bool)

  /** Everything the core reads or writes: HIDFeatureBuffer,
      HID_INPUT_REPORT_BYTES, the stack's globals, `selfPowered`, the
      interrupt-enable bits, the actuators, and the history of driver calls. */
  datatype State = State(
    buffer: seq<byte>,
    inputBytes: nat,
    stack: Stack,
    selfPowered: bool,
    irq: Interrupts,
    act: Actuators,
    calls: seq<DriverCall>)

  /** The feature buffer is long enough for the outbound report. */
  predicate Valid(s: State)
  {
    |s.buffer| >= MIN_REPORT_BYTES
  }

  /** Setup stage of a Set_Report(Feature): for report 0 the data stage will
      land in the feature buffer; any other report leaves everything as it was. */
  function SetupFeatureReport(s: State, reportId: byte): (t: State)
    ensures reportId == 0 ==> t.stack.inPtr == FeatureBuffer
    ensures reportId != 0 ==> t == s
    ensures t.stack.(inPtr := s.stack.inPtr) == s.stack
    ensures t.buffer == s.buffer && t.inputBytes == s.inputBytes && t.selfPowered == s.selfPowered
    ensures t.irq == s.irq && t.act == s.act && t.calls == s.calls
  {
    if reportId == 0 then s.(stack := s.stack.(inPtr := FeatureBuffer)) else s
  }

  /** The driver calls an inbound command makes, in order: LED, motor, servo,
      and then exactly one of fire or clear. */
  function CommandCalls(c: Command): (cs: seq<DriverCall>)
    ensures |cs| == 4
    ensures cs[0] == SetLed(c.ledOn) && cs[1] == SetMotorSpeed(c.motorSpeed) && cs[2] == SetServo(c.servoPos)
    ensures ActuateSolenoid in cs <==> c.fireSolenoid
    ensures ClearSolenoid in cs <==> !c.fireSolenoid
    ensures CheckSolenoidVoltage !in cs
  {
    [SetLed(c.ledOn), SetMotorSpeed(c.motorSpeed), SetServo(c.servoPos),
     if c.fireSolenoid then ActuateSolenoid else ClearSolenoid]
  }

  /** Data stage done for a Set_Report(Feature): report 0 is decoded from the
      feature buffer and applied to the LED, motor, servo and solenoid, by
      four driver calls in that order; the buffer itself is left as it is.
      Any other report changes nothing. */
  function SetFeatureReport(s: State, reportId: byte): (t: State)
    requires Valid(s)
    ensures reportId != 0 ==> t == s
    ensures t.buffer == s.buffer && t.inputBytes == s.inputBytes && t.stack == s.stack
    ensures t.selfPowered == s.selfPowered && t.irq == s.irq
    ensures reportId == 0 ==>
      (t.act.ledOn <==> s.buffer[0] % 2 == 1) &&
      t.act.motorSpeed == s.buffer[1] as int - 128 && -128 <= t.act.motorSpeed <= 127 &&
      t.act.servoPos == s.buffer[2] &&
      (t.act.solenoidFiring <==> s.buffer[3] % 2 == 1) &&
      t.calls == s.calls + [SetLed(t.act.ledOn), SetMotorSpeed(t.act.motorSpeed), SetServo(t.act.servoPos),
                            if s.buffer[3] % 2 == 1 then ActuateSolenoid else ClearSolenoid]
  {
    if reportId == 0 then
      var c := Decode(s.buffer);
      s.(act := Actuators(c.ledOn, c.motorSpeed, c.servoPos, c.fireSolenoid),
         calls := s.calls + CommandCalls(c))
    else
      s
  }

  /** A Get_Report(Feature): for report 0 the feature buffer is filled with
      the outbound report and the stack is told to send the whole buffer.
      Any other report changes nothing: neither `outPtr` nor `wCount` is
      reset. */
  function GetFeatureReport(s: State, reportId: byte, r: Readings): (t: State)
    requires Valid(s)
    ensures Valid(t) && |t.buffer| == |s.buffer|
    ensures reportId != 0 ==> t == s
    ensures reportId == 0 ==>
      t.stack.outPtr == FeatureBuffer && t.stack.wCount == |s.buffer| &&
      t.buffer == Encode(s.buffer, r, s.act.motorSpeed, s.act.servoPos, s.selfPowered, s.stack.remoteWakeup)
    ensures t.stack.(outPtr := s.stack.outPtr, wCount := s.stack.wCount) == s.stack
    ensures t.inputBytes == s.inputBytes && t.selfPowered == s.selfPowered
    ensures t.irq == s.irq && t.act == s.act && t.calls == s.calls
  {
    if reportId == 0 then
      s.(buffer := Encode(s.buffer, r, s.act.motorSpeed, s.act.servoPos, s.selfPowered, s.stack.remoteWakeup),
         stack := s.stack.(outPtr := FeatureBuffer, wCount := |s.buffer|))
    else
      s
  }

  /** Setup stage of a Set_Report(Output): report 0 is received into the
      stack's output-report buffer. */
  function SetupOutputReport(s: State, reportId: byte): (t: State)
    ensures reportId == 0 ==> t.stack.inPtr == RxBuffer
    ensures reportId != 0 ==> t == s
    ensures t.stack.(inPtr := s.stack.inPtr) == s.stack
    ensures t.buffer == s.buffer && t.inputBytes == s.inputBytes && t.selfPowered == s.selfPowered
    ensures t.irq == s.irq && t.act == s.act && t.calls == s.calls
  {
    if reportId == 0 then s.(stack := s.stack.(inPtr := RxBuffer)) else s
  }

  /** A Get_Report(Input): report 0 is sent from the stack's input-report
      buffer, HID_INPUT_REPORT_BYTES long. */
  function GetInputReport(s: State, reportId: byte): (t: State)
    ensures reportId == 0 ==> t.stack.outPtr == TxBuffer && t.stack.wCount == s.inputBytes
    ensures reportId != 0 ==> t == s
    ensures t.stack.(outPtr := s.stack.outPtr, wCount := s.stack.wCount) == s.stack
    ensures t.buffer == s.buffer && t.inputBytes == s.inputBytes && t.selfPowered == s.selfPowered
    ensures t.irq == s.irq && t.act == s.act && t.calls == s.calls
  {
    if reportId == 0 then s.(stack := s.stack.(outPtr := TxBuffer, wCount := s.inputBytes)) else s
  }

  /** Host-dependent work may run: the device is at least CONFIGURED and the
      bus is not suspended. */
  predicate HostTasksEnabled(s: State)
  {
    s.stack.deviceState.AtLeast(Configured) && !s.stack.suspended
  }

  /** One pass of the application task, given the level of pin RE3: refresh
      `selfPowered`, run the solenoid voltage check, and only when the device
      is configured and awake set the three interrupt-enable bits. */
  function ApplicationTasks(s: State, re3: bool): (t: State)
    ensures t.selfPowered == re3
    ensures t.calls == s.calls + [CheckSolenoidVoltage]
    ensures t.irq == (if s.stack.deviceState.AtLeast(Configured) && !s.stack.suspended then AllEnabled else s.irq)
    ensures t.buffer == s.buffer && t.inputBytes == s.inputBytes && t.stack == s.stack && t.act == s.act
  {
    var s1 := s.(selfPowered := re3, calls := s.calls + [CheckSolenoidVoltage]);
    if HostTasksEnabled(s1) then s1.(irq := AllEnabled) else s1
  }
}
