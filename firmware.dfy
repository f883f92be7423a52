/** The firmware's globals and its USB callbacks, updated in place as in the
    C source. Each method is proved to move `State()` exactly as the matching
    function of `Dispatch` does. */
module Firmware {
  import opened Bytes
  import opened Usb
  import opened FeatureReport
  import Dispatch

  class Device {
    /** HIDFeatureBuffer, HID_FEATURE_REPORT_BYTES long. */
    const featureBuffer: array<byte>
    /** HID_INPUT_REPORT_BYTES. */
    const inputReportBytes: nat

    // Globals of the USB stack that the callbacks assign or read.
    var inPtr: BufferRef
    var outPtr: BufferRef
    var wCount: nat
    var deviceState: DeviceState
    var suspended: bool        // UCONbits.SUSPND
    var remoteWakeup: bool
    var selfPowered: bool

    // Interrupt-enable bits.
    var ipen: bool             // RCONbits.IPEN
    var giel: bool             // INTCONbits.GIEL
    var gieh: bool             // INTCONbits.GIEH

    // Last values given to the LED pin (PORTAbits.RA4) and to the drivers.
    var ledOn: bool
    var motorSpeed: int
    var servoPos: byte
    var solenoidFiring: bool

    /** Driver calls made so far, oldest first. */
    ghost var calls: seq<Dispatch.DriverCall>

    ghost predicate Valid()
      reads this
    {
      featureBuffer.Length >= MIN_REPORT_BYTES
    }

    /** The whole state as a value. */
    ghost function State(): (s: Dispatch.State)
      reads this, featureBuffer
      ensures Valid() ==> Dispatch.Valid(s)
    {
      Dispatch.State(featureBuffer[..], inputReportBytes,
                     Dispatch.Stack(inPtr, outPtr, wCount, deviceState, suspended, remoteWakeup),
                     selfPowered, Dispatch.Interrupts(ipen, giel, gieh),
                     Dispatch.Actuators(ledOn, motorSpeed, servoPos, solenoidFiring), calls)
    }

    /** Power-on state: the feature buffer is a zeroed static array, the
        device is DETACHED with remote wakeup and self-powered clear, no
        interrupt is enabled, and the actuators are at rest. */
    constructor (featureReportBytes: nat, inputBytes: nat)
      requires featureReportBytes >= MIN_REPORT_BYTES
      ensures Valid() && fresh(featureBuffer)
      ensures featureBuffer.Length == featureReportBytes && inputReportBytes == inputBytes
      ensures featureBuffer[..] == seq(featureReportBytes, _ => 0)
      ensures deviceState == Detached && !remoteWakeup && !selfPowered
      ensures !ipen && !giel && !gieh && calls == []
      ensures !ledOn && motorSpeed == 0 && servoPos == 0 && !solenoidFiring
    {
      featureBuffer := new byte[featureReportBytes](_ => 0);
      inputReportBytes := inputBytes;
      inPtr, outPtr, wCount := StackBuffer, StackBuffer, 0;
      deviceState, suspended := Detached, false;
      remoteWakeup, selfPowered := false, false;
      ipen, giel, gieh := false, false, false;
      ledOn, motorSpeed, servoPos, solenoidFiring := false, 0, 0, false;
      calls := [];
    }

    /** SetupFeatureReport: report 0 will be received into the feature
        buffer. */
    method SetupFeatureReport(reportId: byte)
      modifies this
      ensures State() == Dispatch.SetupFeatureReport(old(State()), reportId)
    {
      if reportId == 0 {
        inPtr := FeatureBuffer;
      }
    }

    /** SetFeatureReport: apply report 0 to the LED, motor, servo and
        solenoid, in that order. The solenoid flag is read before anything
        is updated. The buffer is not written. */
    method SetFeatureReport(reportId: byte)
      requires Valid()
      modifies this`ledOn, this`motorSpeed, this`servoPos, this`solenoidFiring, this`calls
      ensures State() == Dispatch.SetFeatureReport(old(State()), reportId)
    {
      ghost var s0 := State();
      if reportId == 0 {
        var solenoidFlag := featureBuffer[3];
        Drive(LowBit(featureBuffer[0]), MotorSpeedOf(featureBuffer[1]), featureBuffer[2], LowBit(solenoidFlag));
        ghost var c := Decode(s0.buffer);
        assert State() == s0.(act := Dispatch.Actuators(c.ledOn, c.motorSpeed, c.servoPos, c.fireSolenoid),
                              calls := s0.calls + Dispatch.CommandCalls(c));
      }
    }

    /** The four driver calls of SetFeatureReport, in order: LED, motor,
        servo, and then fire or clear the solenoid. */
    method Drive(led: bool, speed: int, position: byte, fire: bool)
      modifies this`ledOn, this`motorSpeed, this`servoPos, this`solenoidFiring, this`calls
      ensures ledOn == led && motorSpeed == speed && servoPos == position && solenoidFiring == fire
      ensures calls == old(calls) + Dispatch.CommandCalls(Command(led, speed, position, fire))
    {
      WriteLed(led);
      MotorSetSpeed(speed);
      SetServo1(position);
      if fire {
        ActuateSolenoid();
      } else {
        ClearSolenoid();
      }
    }

    // The pin and driver entry points SetFeatureReport and ApplicationTasks
    // call. Each records its call and, for the actuators, the commanded value,
    // which is what the driver's getter later returns.

    /** PORTAbits.RA4 = on. */
    method WriteLed(on: bool)
      modifies this`ledOn, this`calls
      ensures ledOn == on && calls == old(calls) + [Dispatch.SetLed(on)]
    {
      ledOn := on;
      calls := calls + [Dispatch.SetLed(on)];
    }

    /** motorSetSpeed(speed). */
    method MotorSetSpeed(speed: int)
      modifies this`motorSpeed, this`calls
      ensures motorSpeed == speed && calls == old(calls) + [Dispatch.SetMotorSpeed(speed)]
    {
      motorSpeed := speed;
      calls := calls + [Dispatch.SetMotorSpeed(speed)];
    }

    /** setServo1(position). */
    method SetServo1(position: byte)
      modifies this`servoPos, this`calls
      ensures servoPos == position && calls == old(calls) + [Dispatch.SetServo(position)]
    {
      servoPos := position;
      calls := calls + [Dispatch.SetServo(position)];
    }

    /** actuateSolenoid(): start a pulse. */
    method ActuateSolenoid()
      modifies this`solenoidFiring, this`calls
      ensures solenoidFiring && calls == old(calls) + [Dispatch.ActuateSolenoid]
    {
      solenoidFiring := true;
      calls := calls + [Dispatch.ActuateSolenoid];
    }

    /** clearSolenoid(): power the solenoid off. */
    method ClearSolenoid()
      modifies this`solenoidFiring, this`calls
      ensures !solenoidFiring && calls == old(calls) + [Dispatch.ClearSolenoid]
    {
      solenoidFiring := false;
      calls := calls + [Dispatch.ClearSolenoid];
    }

    /** checkSolenoidVoltage(): its effect on the boost circuit is not part of
        this model; only the call is recorded. */
    method CheckSolenoidVoltage()
      modifies this`calls
      ensures calls == old(calls) + [Dispatch.CheckSolenoidVoltage]
    {
      calls := calls + [Dispatch.CheckSolenoidVoltage];
    }

    /** GetFeatureReport: for report 0 fill bytes 0 to 6 of the feature buffer
        with the outbound report, point `outPtr` at it and send all of it. */
    method GetFeatureReport(reportId: byte, r: Readings)
      requires Valid()
      modifies this, featureBuffer
      ensures State() == Dispatch.GetFeatureReport(old(State()), reportId, r)
    {
      if reportId == 0 {
        outPtr := FeatureBuffer;
        WriteFeatureReport(r);
        wCount := featureBuffer.Length;
      }
    }

    /** Bytes 0 to 6 of the outbound report, written in place in field order. */
    method WriteFeatureReport(r: Readings)
      requires Valid()
      modifies featureBuffer
      ensures featureBuffer[..] ==
        Encode(old(featureBuffer[..]), r, motorSpeed, servoPos, selfPowered, remoteWakeup)
    {
      featureBuffer[0] := r.portA;
      featureBuffer[1] := r.portB;
      featureBuffer[2] := r.portC;
      featureBuffer[3] := r.voltage;
      featureBuffer[4] := ToByte(motorSpeed);
      featureBuffer[5] := servoPos;
      featureBuffer[6] := StatusByte(selfPowered, remoteWakeup);
      ghost var want := Encode(old(featureBuffer[..]), r, motorSpeed, servoPos, selfPowered, remoteWakeup);
      assert featureBuffer[..MIN_REPORT_BYTES] == want[..MIN_REPORT_BYTES];
      assert featureBuffer[MIN_REPORT_BYTES..] == want[MIN_REPORT_BYTES..] by {
        assert featureBuffer[MIN_REPORT_BYTES..] == old(featureBuffer[MIN_REPORT_BYTES..]);
      }
      assert featureBuffer[..] == featureBuffer[..MIN_REPORT_BYTES] + featureBuffer[MIN_REPORT_BYTES..];
    }

    /** SetupOutputReport: report 0 will be received into the stack's output
        report buffer. */
    method SetupOutputReport(reportId: byte)
      modifies this
      ensures State() == Dispatch.SetupOutputReport(old(State()), reportId)
    {
      if reportId == 0 {
        inPtr := RxBuffer;
      }
    }

    /** SetOutputReport: nothing is done for any report; report 0 is handled
        on the interrupt endpoint instead. */
    method SetOutputReport(reportId: byte)
      ensures State() == old(State())
    {
      if reportId != 0 {
        return;
      }
    }

    /** GetInputReport: report 0 is sent from the stack's input report buffer. */
    method GetInputReport(reportId: byte)
      modifies this
      ensures State() == Dispatch.GetInputReport(old(State()), reportId)
    {
      if reportId == 0 {
        outPtr := TxBuffer;
        wCount := inputReportBytes;
      }
    }

    /** ApplicationTasks, given the level of pin RE3. */
    method ApplicationTasks(re3: bool)
      modifies this
      ensures State() == Dispatch.ApplicationTasks(old(State()), re3)
    {
      selfPowered := re3;
      CheckSolenoidVoltage();
      if deviceState.Rank() < Configured.Rank() || suspended {
        return;
      }
      ipen := true;
      giel := true;
      gieh := true;
    }
  }
}
