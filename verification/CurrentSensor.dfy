/** The current thread's conversion of a sensor reading: 40 A per volt around 2.5 V. */
module CurrentSensor {
  import opened SerialPort
  import opened RetryMachine

  function Amperes(volts: real): real {
    (volts - 2.5) * 40.0
  }

  /** One turn of the loop, up to the store under the lock. */
  method Sample(port: Port) returns (current: real, ghost volts: real, ghost exs: seq<Exchange>)
    requires port.Valid()
    modifies port
    ensures port.Valid() && port.log == old(port.log) + [Sensor(exs, volts)]
    ensures SoundSensor(exs, volts) && current == Amperes(volts) && Measures(exs, current)
  {
    var value;
    value, exs := port.SendTextCurrent();
    volts := value;
    port.AddedIsSound(Sensor(exs, volts));
    current := (value - 2.5) * 40.0;
    SampleByBytes(exs, volts);
  }

  /** A usable reply of the sensor, byte by byte. */
  predicate SensorUsable(r: seq<bv8>) {
    |r| == 4 && r[0] == 0xaa && r[3] == 0xcc
  }

  /** A reading, byte by byte: one frame aa bb cc, and a second one iff the first reply was unusable or zero;
      the current follows from the two data bytes of the last reply, high byte first, or is -140 A. */
  ghost predicate Measures(exs: seq<Exchange>, current: real) {
    && 1 <= |exs| <= 2 && (forall k :: 0 <= k < |exs| ==> exs[k].frame == [0xaa, 0xbb, 0xcc])
    && (|exs| == 1 <==>
          var r := exs[0].reply; SensorUsable(r) && 256 * (r[1] as int) + r[2] as int > 0)
    && var r := exs[|exs| - 1].reply;
       current == if SensorUsable(r)
                  then ((256 * (r[1] as int) + r[2] as int) as real * 0.00126953125 - 2.5) * 40.0
                  else -140.0
  }

  lemma SampleByBytes(exs: seq<Exchange>, volts: real)
    requires SoundSensor(exs, volts)
    ensures Measures(exs, Amperes(volts))
  {
  }

  /** A failed reading is stored as -140 A, a value no working sensor yields: the two attempts both failed to
      give a positive voltage and the last one gave no usable reply. */
  lemma FailureIsRecognisable(exs: seq<Exchange>, volts: real)
    requires SoundSensor(exs, volts)
    ensures Amperes(volts) == -140.0 <==> !SensorAccepted(exs[|exs| - 1].reply)
    ensures Amperes(volts) == -140.0 ==> |exs| == 2
    ensures Amperes(volts) != -140.0 ==> Amperes(volts) >= -100.0
  {
  }
}
