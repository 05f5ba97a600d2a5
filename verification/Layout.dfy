/** The shared battery_pack as the machine words it is made of: the unit in which memcpy, send and the
    assignments of the other threads touch it. Word order follows the struct. */
module Layout {
  import opened Basics

  const DATE := 0
  const TOTAL := 1
  const CURRENT := 2
  const WORDS := 243

  function VoltageAt(i: nat): nat {
    3 + 4 * i
  }

  predicate IsVoltage(k: nat) {
    k >= 3 && (k - 3) % 4 == 0
  }

  /** A pack with its voltages and its current replaced. */
  function Assemble(pack: seq<int>, volts: seq<int>, current: int): (m: seq<int>)
    requires |pack| == WORDS
    ensures |m| == WORDS
  {
    seq(WORDS, k requires 0 <= k < WORDS =>
      if k == CURRENT then current
      else if IsVoltage(k) && (k - 3) / 4 < |volts| then volts[(k - 3) / 4]
      else pack[k])
  }

  function VoltsOf(pack: seq<int>, n: nat): (v: seq<int>)
    requires |pack| == WORDS && n <= SLOTS
    ensures |v| == n
  {
    seq(n, i requires 0 <= i < n => pack[VoltageAt(i)])
  }

  lemma AssembleOwn(pack: seq<int>, n: nat)
    requires |pack| == WORDS && n <= SLOTS
    ensures Assemble(pack, VoltsOf(pack, n), pack[CURRENT]) == pack
  {
  }

  lemma AssembleVoltage(pack: seq<int>, volts: seq<int>, current: int, i: nat, v: int)
    requires |pack| == WORDS && i < |volts| <= SLOTS
    ensures Assemble(pack, volts[i := v], current) == Assemble(pack, volts, current)[VoltageAt(i) := v]
  {
  }

  lemma AssembleCurrent(pack: seq<int>, volts: seq<int>, c: int, c': int)
    requires |pack| == WORDS
    ensures Assemble(pack, volts, c') == Assemble(pack, volts, c)[CURRENT := c']
  {
  }
}
