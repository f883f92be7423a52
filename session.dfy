/** Sequences of callbacks, as the USB stack and the main loop issue them one
    after another, and what holds across them. Besides the core's own
    callbacks, two kinds of event stand for what the stack does on its own
    between callbacks: a change of bus state, and the data stage of a host
    write landing in the buffer `inPtr` names. */
module Session {
  import opened Bytes
  import opened Usb
  import opened FeatureReport
  import opened Dispatch

  datatype Event =
    | SetupFeature(reportId: byte)
    | SetFeature(reportId: byte)
    | GetFeature(reportId: byte, readings: Readings)
    | SetupOutput(reportId: byte)
    | SetOutput(reportId: byte)
    | GetInput(reportId: byte)
    | Tick(re3: bool)
    | BusChange(deviceState: DeviceState, suspended: bool, remoteWakeup: bool)
    | HostData(data: seq<byte>)
  {
    /** One of the six HID callbacks of the core. */
    predicate IsCallback()
    {
      !Tick? && !BusChange? && !HostData?
    }
  }

  /** The stack copying received bytes into a buffer: the first bytes are
      replaced, as many as were received and fit; the rest keep their value. */
  function Overlay(buffer: seq<byte>, data: seq<byte>): (r: seq<byte>)
    ensures |r| == |buffer|
    ensures forall i :: 0 <= i < |r| ==> r[i] == if i < |data| then data[i] else buffer[i]
  {
    if |data| >= |buffer| then data[..|buffer|] else data + buffer[|data|..]
  }

  /** One event. Only `BusChange` touches the stack's bus state, only
      `HostData` and `GetFeature` write the feature buffer, and the history of
      driver calls only grows. */
  function Step(s: State, e: Event): (t: State)
    requires Valid(s)
    ensures Valid(t) && |t.buffer| == |s.buffer| && t.inputBytes == s.inputBytes
    ensures !e.BusChange? ==>
      t.stack.deviceState == s.stack.deviceState && t.stack.suspended == s.stack.suspended &&
      t.stack.remoteWakeup == s.stack.remoteWakeup
    ensures |t.calls| >= |s.calls| && t.calls[..|s.calls|] == s.calls
  {
    match e
    case SetupFeature(id) => SetupFeatureReport(s, id)
    case SetFeature(id) => SetFeatureReport(s, id)
    case GetFeature(id, r) => GetFeatureReport(s, id, r)
    case SetupOutput(id) => SetupOutputReport(s, id)
    case SetOutput(id) => s
    case GetInput(id) => GetInputReport(s, id)
    case Tick(re3) => ApplicationTasks(s, re3)
    case BusChange(state, suspended, wakeup) =>
      s.(stack := s.stack.(deviceState := state, suspended := suspended, remoteWakeup := wakeup))
    case HostData(data) =>
      if s.stack.inPtr == FeatureBuffer then s.(buffer := Overlay(s.buffer, data)) else s
  }

  /** The state after the events `es`, in order. */
  function Run(s: State, es: seq<Event>): (t: State)
    requires Valid(s)
    ensures Valid(t) && |t.buffer| == |s.buffer| && t.inputBytes == s.inputBytes
    ensures (forall i :: 0 <= i < |es| ==> !es[i].BusChange?) ==>
      t.stack.deviceState == s.stack.deviceState && t.stack.suspended == s.stack.suspended &&
      t.stack.remoteWakeup == s.stack.remoteWakeup
    ensures |t.calls| >= |s.calls| && t.calls[..|s.calls|] == s.calls
    decreases |es|
  {
    if es == [] then s else Step(Run(s, es[..|es| - 1]), es[|es| - 1])
  }

  /** Running one more event is one more step. */
  lemma RunSnoc(s: State, es: seq<Event>, e: Event)
    requires Valid(s)
    ensures Run(s, es + [e]) == Step(Run(s, es), e)
  {
    assert (es + [e])[..|es|] == es;
  }

  /** Callbacks for report identifiers other than 0 leave every part of the
      state as it was, however many of them arrive. */
  lemma {:induction false} UnknownReportsChangeNothing(s: State, es: seq<Event>)
    requires Valid(s)
    requires forall i :: 0 <= i < |es| ==> es[i].IsCallback() && es[i].reportId != 0
    ensures Run(s, es) == s
    decreases |es|
  {
    if es != [] {
      UnknownReportsChangeNothing(s, es[..|es| - 1]);
    }
  }

  /** The commanded motor speed stays a `signed char` value over any run
      that starts with one, so byte 4 of every outbound report reads back as
      the commanded speed. */
  lemma {:induction false} MotorSpeedStaysInRange(s: State, es: seq<Event>)
    requires Valid(s) && -128 <= s.act.motorSpeed <= 127
    ensures -128 <= Run(s, es).act.motorSpeed <= 127
    decreases |es|
  {
    if es != [] {
      MotorSpeedStaysInRange(s, es[..|es| - 1]);
    }
  }

  /** Number of voltage checks in a history of driver calls. */
  function VoltageChecks(calls: seq<DriverCall>): nat
  {
    if calls == [] then 0
    else VoltageChecks(calls[..|calls| - 1]) + (if calls[|calls| - 1] == CheckSolenoidVoltage then 1 else 0)
  }

  lemma {:induction false} VoltageChecksAppend(a: seq<DriverCall>, b: seq<DriverCall>)
    ensures VoltageChecks(a + b) == VoltageChecks(a) + VoltageChecks(b)
    decreases |b|
  {
    if b == [] {
      assert a + b == a;
    } else {
      assert (a + b)[..|a + b| - 1] == a + b[..|b| - 1];
      VoltageChecksAppend(a, b[..|b| - 1]);
    }
  }

  lemma {:induction false} NoVoltageChecks(calls: seq<DriverCall>)
    requires CheckSolenoidVoltage !in calls
    ensures VoltageChecks(calls) == 0
    decreases |calls|
  {
    if calls != [] {
      assert calls[..|calls| - 1] <= calls;
      NoVoltageChecks(calls[..|calls| - 1]);
    }
  }

  /** Number of main-loop passes among the events. */
  function Ticks(es: seq<Event>): nat
  {
    if es == [] then 0 else Ticks(es[..|es| - 1]) + (if es[|es| - 1].Tick? then 1 else 0)
  }

  /** One event adds a voltage check exactly when it is a main-loop pass. */
  lemma StepVoltageChecks(m: State, e: Event)
    requires Valid(m)
    ensures VoltageChecks(Step(m, e).calls) == VoltageChecks(m.calls) + (if e.Tick? then 1 else 0)
  {
    var t := Step(m, e);
    var added := t.calls[|m.calls|..];
    assert t.calls == m.calls + added;
    VoltageChecksAppend(m.calls, added);
    if e.Tick? {
      assert added == [CheckSolenoidVoltage];
      assert VoltageChecks(added) == 1 by {
        assert added[..0] == [];
      }
    } else if e.SetFeature? && e.reportId == 0 {
      var c := Decode(m.buffer);
      assert added == CommandCalls(c);
      NoVoltageChecks(added);
    } else {
      assert added == [];
    }
  }

  /** The solenoid voltage check runs exactly once per main-loop pass, whatever
      the device state, and nothing else runs it. */
  lemma {:induction false} VoltageCheckedEveryTick(s: State, es: seq<Event>)
    requires Valid(s)
    ensures VoltageChecks(Run(s, es).calls) == VoltageChecks(s.calls) + Ticks(es)
    decreases |es|
  {
    if es != [] {
      VoltageCheckedEveryTick(s, es[..|es| - 1]);
      StepVoltageChecks(Run(s, es[..|es| - 1]), es[|es| - 1]);
    }
  }

  /** Some main-loop pass among the events ran while the device was
      configured and awake. */
  ghost predicate GateOpenedDuring(s: State, es: seq<Event>)
    requires Valid(s)
  {
    exists i :: 0 <= i < |es| && es[i].Tick? && HostTasksEnabled(Run(s, es[..i]))
  }

  /** One event sets all three interrupt-enable bits exactly when it is a
      main-loop pass with the gate open, and otherwise leaves them alone. */
  lemma StepInterrupts(m: State, e: Event)
    requires Valid(m)
    ensures Step(m, e).irq == if e.Tick? && HostTasksEnabled(m) then AllEnabled else m.irq
  {
  }

  /** The gate opened during `es + [e]` when it opened during `es` or `e` is
      a pass with the gate open. */
  lemma GateOpenedDuringSnoc(s: State, es: seq<Event>, e: Event)
    requires Valid(s)
    ensures GateOpenedDuring(s, es + [e]) <==>
            GateOpenedDuring(s, es) || (e.Tick? && HostTasksEnabled(Run(s, es)))
  {
    if GateOpenedDuring(s, es) {
      GateStaysOpened(s, es, e);
    }
    if e.Tick? && HostTasksEnabled(Run(s, es)) {
      var all := es + [e];
      assert all[..|es|] == es;
      assert all[|es|].Tick? && HostTasksEnabled(Run(s, all[..|es|]));
    }
    if GateOpenedDuring(s, es + [e]) {
      GateOpenedBeforeOrAtLast(s, es, e);
    }
  }

  /** An opening of the gate during `es` is still one during `es + [e]`. */
  lemma GateStaysOpened(s: State, es: seq<Event>, e: Event)
    requires Valid(s) && GateOpenedDuring(s, es)
    ensures GateOpenedDuring(s, es + [e])
  {
    var all := es + [e];
    var i :| 0 <= i < |es| && es[i].Tick? && HostTasksEnabled(Run(s, es[..i]));
    assert all[..i] == es[..i];
    assert all[i].Tick? && HostTasksEnabled(Run(s, all[..i]));
  }

  /** An opening of the gate during `es + [e]` happened during `es` or at
      `e` itself. */
  lemma GateOpenedBeforeOrAtLast(s: State, es: seq<Event>, e: Event)
    requires Valid(s) && GateOpenedDuring(s, es + [e])
    ensures GateOpenedDuring(s, es) || (e.Tick? && HostTasksEnabled(Run(s, es)))
  {
    var all := es + [e];
    var i :| 0 <= i < |all| && all[i].Tick? && HostTasksEnabled(Run(s, all[..i]));
    if i < |es| {
      assert all[..i] == es[..i];
      assert es[i].Tick? && HostTasksEnabled(Run(s, es[..i]));
    } else {
      assert all[..i] == es;
    }
  }

  /** The interrupt-enable bits end up all set exactly when some main-loop
      pass ran while the device was configured and not suspended; otherwise
      they keep their initial values. Nothing clears them once set. */
  lemma {:induction false} InterruptsEnabledOnlyThroughGate(s: State, es: seq<Event>)
    requires Valid(s)
    ensures Run(s, es).irq == if GateOpenedDuring(s, es) then AllEnabled else s.irq
    decreases |es|
  {
    if es == [] {
      assert !GateOpenedDuring(s, es);
    } else {
      var p := es[..|es| - 1];
      var e := es[|es| - 1];
      assert es == p + [e];
      InterruptsEnabledOnlyThroughGate(s, p);
      StepInterrupts(Run(s, p), e);
      GateOpenedDuringSnoc(s, p, e);
    }
  }

  /** The events of one Set_Report(Feature) transfer for report 0 carrying
      `data`: setup stage, data stage, and the post-processing callback. */
  function SetReportTransfer(data: seq<byte>): seq<Event>
  {
    [SetupFeature(0), HostData(data), SetFeature(0)]
  }

  /** After a Set_Report(Feature) transfer for report 0, the host's bytes
      have commanded the LED, motor, servo and solenoid. */
  lemma TransferCommandsActuators(s: State, data: seq<byte>)
    requires Valid(s) && |data| >= 4
    ensures var w := Run(s, SetReportTransfer(data));
            (w.act.ledOn <==> data[0] % 2 == 1) &&
            w.act.motorSpeed == data[1] as int - 128 &&
            w.act.servoPos == data[2] &&
            (w.act.solenoidFiring <==> data[3] % 2 == 1) &&
            w.buffer == Overlay(s.buffer, data) &&
            w.selfPowered == s.selfPowered && w.stack.remoteWakeup == s.stack.remoteWakeup
  {
    RunOfTransfer(s, data);
    var s1 := SetupFeatureReport(s, 0);
    var s2 := s1.(buffer := Overlay(s1.buffer, data));
    assert Step(s1, HostData(data)) == s2;
    assert s2.buffer[..4] == data[..4];
  }

  /** The three events of a transfer, one step after another. */
  lemma RunOfTransfer(s: State, data: seq<byte>)
    requires Valid(s)
    ensures Valid(Step(SetupFeatureReport(s, 0), HostData(data)))
    ensures Run(s, SetReportTransfer(data)) ==
            SetFeatureReport(Step(SetupFeatureReport(s, 0), HostData(data)), 0)
  {
    RunSnoc(s, [], SetupFeature(0));
    assert [] + [SetupFeature(0)] == [SetupFeature(0)];
    RunSnoc(s, [SetupFeature(0)], HostData(data));
    assert [SetupFeature(0)] + [HostData(data)] == [SetupFeature(0), HostData(data)];
    RunSnoc(s, [SetupFeature(0), HostData(data)], SetFeature(0));
    assert [SetupFeature(0), HostData(data)] + [SetFeature(0)] == SetReportTransfer(data);
  }

  /** The round trip: a Set_Report(Feature) transfer for report 0 followed by
      a Get_Report(Feature) for report 0 reads back the commanded motor speed
      (as a `signed char`) in byte 4 and the servo position in byte 5; byte 6
      holds the status bits whatever the host sent. */
  lemma WriteThenReadBack(s: State, data: seq<byte>, r: Readings)
    requires Valid(s) && |data| >= 4
    ensures var t := Run(s, SetReportTransfer(data) + [GetFeature(0, r)]);
            SignedChar(t.buffer[4]) == data[1] as int - 128 &&
            t.buffer[5] == data[2] &&
            t.buffer[6] == StatusByte(s.selfPowered, s.stack.remoteWakeup) &&
            t.stack.outPtr == FeatureBuffer && t.stack.wCount == |s.buffer|
  {
    TransferCommandsActuators(s, data);
    var w := Run(s, SetReportTransfer(data));
    RunSnoc(s, SetReportTransfer(data), GetFeature(0, r));
    SignedCharOfToByte(w.act.motorSpeed);
  }
}
