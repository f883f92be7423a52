/** What the firmware core sees of the USB protocol stack: the device state
    it compares against, and the buffers the stack's data pointers can name. */
module Usb {

  /** The device states of section 9.1.1 of the USB 2.0 specification, in the
      order a device passes through them on enumeration. The stack's
      `deviceState` is compared against these with `<`, so the order is part
      of the contract; `Rank` makes it explicit. */
  datatype DeviceState = Detached | Attached | Powered | Default | Addressed | Configured
  {
    /** Position of the state in the enumeration order. */
    function Rank(): (n: nat)
      ensures n <= 5
      ensures n == 5 <==> this == Configured
      ensures n == 0 <==> this == Detached
    {
      match this
      case Detached => 0
      case Attached => 1
      case Powered => 2
      case Default => 3
      case Addressed => 4
      case Configured => 5
    }

    /** `deviceState >= other` in the stack's numeric order. */
    predicate AtLeast(other: DeviceState)
    {
      Rank() >= other.Rank()
    }
  }

  /** `AtLeast` is a total order on device states: the numeric comparison in
      the firmware never identifies two different states. */
  lemma AtLeastIsTotalOrder(a: DeviceState, b: DeviceState, c: DeviceState)
    ensures a.AtLeast(a)
    ensures a.AtLeast(b) && b.AtLeast(a) ==> a == b
    ensures a.AtLeast(b) && b.AtLeast(c) ==> a.AtLeast(c)
    ensures a.AtLeast(b) || b.AtLeast(a)
  {
  }

  /** The buffer that the stack's `inPtr` (where the data stage of a host
      write lands) or `outPtr` (what the data stage of a host read sends)
      points at: `FeatureBuffer` is HIDFeatureBuffer, `RxBuffer` the stack's
      HIDRxBuffer and `TxBuffer` its HIDTxBuffer. `StackBuffer` is any buffer
      the stack chose itself. */
  datatype BufferRef = StackBuffer | FeatureBuffer | RxBuffer | TxBuffer
}
