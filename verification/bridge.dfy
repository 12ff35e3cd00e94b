/**
  Where the two sides meet: the bytes the receiver writes over BLE arrive
  at the ESP32 as the characteristic's string value.
 */
module Bridge {
  import opened Bytes
  import opened Signal
  import opened MotorControl

  /** BLE delivers the receiver's bytes as the characteristic's string value. */
  function AsText(b: seq<Byte>): (t: seq<char>)
    ensures |t| == |b|
  {
    seq(|b|, i requires 0 <= i < |b| => b[i] as char)
  }

  /** Each `write_gatt_char` of one byte is a separate characteristic write, and so a separate `onWrite`. */
  function Writes(written: seq<Byte>): (es: seq<Event>)
    ensures |es| == |written|
    ensures forall i :: 0 <= i < |written| ==> es[i] == BleWrite(AsText([written[i]]))
  {
    if |written| == 0 then []
    else [BleWrite(AsText([written[0]]))] + Writes(written[1..])
  }

  /**
    The receiver's writes arm the trigger exactly when there was at least one,
    and change nothing else on the ESP32: its signal byte is the character `g`
    that `onWrite` looks for.
   */
  lemma {:induction false} ReceiverWritesArmTrigger(c: Controller, written: seq<Byte>)
    requires forall b :: b in written ==> b == SignalByte
    ensures RunEvents(c, Writes(written)) == c.(bluetoothReceivedG := c.bluetoothReceivedG || |written| > 0)
    decreases |written|
  {
    if |written| > 0 {
      assert written[0] in written;
      assert AsText([written[0]]) == ['g'];
      var armed := OnWrite(c, ['g']);
      assert armed == c.(bluetoothReceivedG := true);
      assert Writes(written)[1..] == Writes(written[1..]);
      assert forall b :: b in written[1..] ==> b in written;
      ReceiverWritesArmTrigger(armed, written[1..]);
    }
  }
}
