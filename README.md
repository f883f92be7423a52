# PIC HID firmware: feature-report dispatch

A Dafny model of the HID report callbacks of the pichid firmware (`main.c`)
and of the gate in its application task. The USB stack calls these when the
host sends a HID class request on the control pipe:

- Set_Report(Feature) for report 0 lands in the shared `HIDFeatureBuffer`.
  `SetFeatureReport` then decodes it into commands for the LED (byte 0,
  bit 0), the motor (byte 1 minus 128), the servo (byte 2) and the solenoid
  (byte 3, bit 0: fire or clear).
- Get_Report(Feature) for report 0 fills bytes 0 to 6 of the same buffer:
  the port readbacks, the solenoid voltage, the motor speed, the servo
  position, and a status byte whose bit 0 is self-powered and bit 1 remote
  wakeup. It then points the stack at the buffer.
- The Output and Input report callbacks only choose the stack's buffer and
  length.
- Every callback does nothing for a report identifier other than 0.
- `ApplicationTasks` refreshes `selfPowered` and checks the solenoid boost
  voltage on every pass. It enables interrupts only once the device is
  configured and not suspended.

The project is laid out as follows:

- `bytes.dfy` (module `Bytes`): the `unsigned char` type and the C
  conversions between bytes and integers.
- `usb.dfy` (module `Usb`): the stack's device states in their numeric order,
  and the buffers its data pointers can name.
- `report.dfy` (module `FeatureReport`): the layout of feature report 0.
  `Decode` is the inbound direction and `Encode` the outbound one.
- `dispatch.dfy` (module `Dispatch`): the whole firmware state as a value,
  with one function per callback.
- `firmware.dfy` (module `Firmware`): class `Device`. It holds the feature
  buffer as an array, and the stack, interrupt and actuator globals as
  fields, with one method per callback that updates them in place. Each
  callback method other than `SetOutputReport` is proved to change `State()`
  exactly as its `Dispatch` function says. `SetOutputReport` is proved to
  leave `State()` as it was. The driver entry points and the in-place
  encoder are specified field by field.
- `session.dfy` (module `Session`): sequences of callbacks, main-loop passes
  and stack activity. It holds the properties that span several calls: the
  Set-then-Get round trip, unknown report identifiers, the voltage check on
  every pass, and the interrupt gate.

The hardware is abstracted as follows:

- Each actuator driver is a field holding the last value it was given, and
  its getter returns that value.
- The port readbacks, the A/D voltage reading and pin RE3 are inputs.
- Every driver call is appended to a log of calls, so the order of calls
  can be stated.

## Model

| member | source | states |
|---|---|---|
| Bytes.ToByte | main.c:205-210 | storing an integer into an `unsigned char` keeps it modulo 256 and keeps values in [0, 256) unchanged |
| Bytes.SignedChar | main.c:173 | a byte read as `signed char` lies in [-128, 127], is negative exactly when bit 7 is set, and agrees with the byte modulo 256 |
| Bytes.ToByteOfSignedChar | main.c:173 | storing a byte's `signed char` reading gives the byte back |
| Bytes.SignedCharOfToByte | main.c:173 | every `signed char` value survives being stored in a byte and read back |
| Bytes.ToByteShiftedBy128 | main.c:173 | storing byte minus 128 gives byte plus 128 modulo 256 |
| Usb.DeviceState.Rank | main.c:130 | the device states have distinct positions, with CONFIGURED the highest and DETACHED the lowest |
| Usb.AtLeastIsTotalOrder | main.c:130 | the order used for `deviceState < CONFIGURED` is reflexive, antisymmetric, transitive and total |
| FeatureReport.MotorSpeedOf | main.c:173 | the motor speed from byte 1 lies in [-128, 127], is negative exactly for bytes below 0x80, and is zero exactly for 0x80 |
| FeatureReport.Decode | main.c:166-189 | the LED is bit 0 of byte 0; the motor speed plus 128 is byte 1; the servo is byte 2; fire exactly when bit 0 of byte 3 is set |
| FeatureReport.DecodeIgnoresOtherBits | main.c:170-180 | reports that agree on bit 0 of byte 0, on bytes 1 and 2 and on bit 0 of byte 3 decode alike |
| FeatureReport.StatusByte | main.c:211-213 | bit 0 is set exactly when self-powered, bit 1 exactly when remote wakeup is on, and bits 2 to 7 are clear |
| FeatureReport.Encode | main.c:205-213 | the length is kept; bytes 0 to 3 are the readings; byte 4 is the motor speed stored as a byte (modulo 256), and read as `signed char` it is the speed itself whenever that lies in [-128, 127]; byte 5 is the servo position; byte 6 is the status bits; bytes from 7 on keep their old values |
| FeatureReport.EncodeAfterDecode | main.c:173-176 | after a report is applied, encoding puts byte 1 minus 128 in byte 4, both as `signed char` and as byte 1 plus 128 modulo 256; byte 2 goes in byte 5; byte 6 is only the status bits |
| Dispatch.SetupFeatureReport | main.c:145-153 | for report 0, `inPtr` names HIDFeatureBuffer and nothing else changes; any other report changes nothing |
| Dispatch.CommandCalls | main.c:170-189 | a command makes four driver calls: LED, motor, servo, then exactly one of fire or clear, and never the voltage check |
| Dispatch.SetFeatureReport | main.c:158-191 | for report 0, LED, motor, servo and solenoid are set from the buffer's bytes, the calls are appended in that order, and the buffer and every other field are untouched; any other report changes nothing |
| Dispatch.GetFeatureReport | main.c:194-216 | for report 0, the buffer becomes the encoded report, `outPtr` names HIDFeatureBuffer and `wCount` is the buffer's length, with all else unchanged; any other report changes nothing, `outPtr` and `wCount` included |
| Dispatch.SetupOutputReport | main.c:224-232 | for report 0, `inPtr` names HIDRxBuffer and nothing else changes; any other report changes nothing |
| Dispatch.GetInputReport | main.c:251-265 | for report 0, `outPtr` names HIDTxBuffer and `wCount` is HID_INPUT_REPORT_BYTES; any other report changes nothing |
| Dispatch.ApplicationTasks | main.c:112-140 | every pass sets `selfPowered` to RE3 and adds one voltage check; the three interrupt-enable bits are all set when the device is at least CONFIGURED and not suspended, and otherwise keep their values; nothing else changes |
| Firmware.Device.State | main.c:46 | a device whose buffer holds at least 7 bytes has a state that satisfies the report layout's length requirement |
| Firmware.Device.constructor | main.c:46 | HIDFeatureBuffer starts zeroed with HID_FEATURE_REPORT_BYTES bytes; the device starts DETACHED with remote wakeup and self-powered clear, no interrupt enabled, and the actuators at rest |
| Firmware.Device.SetupFeatureReport | main.c:145-153 | the in-place update matches `Dispatch.SetupFeatureReport` |
| Firmware.Device.SetFeatureReport | main.c:158-191 | the in-place update matches `Dispatch.SetFeatureReport`, and the method cannot write the buffer |
| Firmware.Device.Drive | main.c:170-189 | the four driver calls leave the commanded values in the actuator fields and log the calls in order |
| Firmware.Device.WriteLed | main.c:170 | RA4 takes the given level and the write is logged |
| Firmware.Device.MotorSetSpeed | main.c:173 | the motor keeps the commanded speed and the call is logged |
| Firmware.Device.SetServo1 | main.c:176 | the servo keeps the commanded position and the call is logged |
| Firmware.Device.ActuateSolenoid | main.c:183 | the solenoid is firing and the call is logged |
| Firmware.Device.ClearSolenoid | main.c:188 | the solenoid is off and the call is logged |
| Firmware.Device.CheckSolenoidVoltage | main.c:127 | the call is logged |
| Firmware.Device.GetFeatureReport | main.c:194-216 | the in-place update matches `Dispatch.GetFeatureReport` |
| Firmware.Device.WriteFeatureReport | main.c:205-213 | writing bytes 0 to 6 in place leaves the array equal to `Encode` of its old contents |
| Firmware.Device.SetupOutputReport | main.c:224-232 | the in-place update matches `Dispatch.SetupOutputReport` |
| Firmware.Device.SetOutputReport | main.c:237-248 | no state changes for any report identifier |
| Firmware.Device.GetInputReport | main.c:251-265 | the in-place update matches `Dispatch.GetInputReport` |
| Firmware.Device.ApplicationTasks | main.c:112-140 | the in-place update matches `Dispatch.ApplicationTasks` |
| Session.Overlay | main.c:149-151 | the received bytes replace the start of the buffer, as many as fit; the length and the other bytes are kept |
| Session.Step | main.c:284-296 | every event keeps the buffer length and HID_INPUT_REPORT_BYTES; only bus changes alter the device state, suspend and remote-wakeup flags; the call log only grows |
| Session.Run | main.c:284-296 | over any sequence of events the buffer length and HID_INPUT_REPORT_BYTES are kept and the call log only grows; a sequence without bus changes keeps the device state, suspend and remote-wakeup flags |
| Session.MotorSpeedStaysInRange | main.c:173 | a commanded motor speed in [-128, 127] stays in that range over any sequence of events |
| Session.UnknownReportsChangeNothing | main.c:145-265 | any sequence of callbacks whose report identifiers are all non-zero leaves the whole state unchanged |
| Session.StepVoltageChecks | main.c:127 | one event adds a voltage check exactly when it is a main-loop pass |
| Session.VoltageCheckedEveryTick | main.c:118-131 | over any run, the number of voltage checks added equals the number of main-loop passes, whatever the device state |
| Session.StepInterrupts | main.c:130-139 | one event sets the interrupt-enable bits exactly when it is a pass with the gate open, and otherwise leaves them alone |
| Session.GateOpenedDuringSnoc | main.c:130-139 | the gate opened during a run extended by one event exactly when it opened before, or that event is a pass with the gate open |
| Session.InterruptsEnabledOnlyThroughGate | main.c:130-139 | after any run, the interrupt-enable bits are all set if some pass ran while configured and awake, and are the initial bits otherwise |
| Session.TransferCommandsActuators | main.c:145-191 | after the setup stage, the data stage and the callback of a Set_Report(Feature) for report 0, the actuators hold what the host's bytes command, and the status flags are untouched |
| Session.WriteThenReadBack | main.c:173-176 | after a Set_Report(Feature) and then a Get_Report(Feature) for report 0, byte 4 read as `signed char` is the host's byte 1 minus 128 and byte 5 is its byte 2; byte 6 is the status bits; the stack sends the whole buffer |

## Left out

- Configuration fuses (`main.c:28-43`): constants at fixed addresses, with no behaviour.
- `UserInit` (`main.c:69-108`): A/D and PWM register set-up and a busy-wait on a timer flag. This is hardware configuration.
- `main` (`main.c:268-297`): the polling loop around `EnableUSBModule` and `ProcessUSBTransactions`. `Session.Run` stands for any interleaving of its callbacks and passes. The stack's own behaviour is not part of this model. It is reduced to two kinds of event: a change of bus state, and received bytes landing where `inPtr` points. Only the feature buffer is modelled as a landing place.
- `high_isr` and `low_isr` (`main.c:48-61`): interrupt concurrency. Whether the main loop can see a torn read is not modelled.
- Driver internals (the servo, motor and solenoid drivers are not part of this model): pulse timing, the boost-voltage threshold, clamping and what `checkSolenoidVoltage` does. Only the calls and the last commanded values are kept. The getters `motorGetSpeed` and `getServo1` are assumed to return the last commanded value.
- The `usb.h` constants are parameters. `HID_FEATURE_REPORT_BYTES` (at least 7, because the encoder writes bytes 0 to 6) and `HID_INPUT_REPORT_BYTES` are the class constructor's arguments. The numeric values of the device states are replaced by their order.
- The `(char)` cast in `main.c:173` is taken to be a signed `char`. Since byte 1 minus 128 always lies in [-128, 127], the cast does not change the value.
- The bitwise operations on bytes are written arithmetically: bit k is `(b / 2^k) % 2`. The status byte is built with `|=` on a zeroed byte, which here equals a sum because its two bits are disjoint.
- Debug `printf` (`main.c:160-162`, `196-200`, `239-241`, `253-255`) and the unused `txBuffer`/`rxBuffer` (`main.c:65-66`).
- The `volatile` qualifier of HIDFeatureBuffer: nothing writes the buffer behind the callbacks' backs except the stack's data stage.
- `GetFeatureReport` for a report identifier other than 0 sends no zero-length reply: the code (`main.c:201`) leaves `wCount` and `outPtr` as they were, and the model does the same.
- The stack's copy of a host write into HIDFeatureBuffer is not part of this model. `Session.Overlay` assumes that bytes beyond HID_FEATURE_REPORT_BYTES are cut off by the stack, and that a shorter write leaves the remaining bytes as they were.
- The initial values of the drivers (`motorInit`, `configServos`, `configSolenoid` are not part of this model): the class starts with the LED off, the motor at speed 0, the servo at position 0 and the solenoid off.
