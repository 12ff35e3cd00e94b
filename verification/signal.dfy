/** The one-byte message the receiver sends the ESP32 over BLE. */
module Signal {
  import opened Bytes

  /** `b'g'` on the receiver side, the character `g` that `onWrite` looks for on the ESP32. */
  const SignalByte: Byte := 0x67
}
