/** The one-byte XOR check of the serial protocol, as a linear code over byte strings of any length. */
module Checksum {

  /** XOR of all bytes. */
  function Sum(s: seq<bv8>): bv8 {
    if s == [] then 0 else Sum(s[..|s| - 1]) ^ s[|s| - 1]
  }

  /** A received frame is accepted when its last byte is the checksum of the bytes before it. */
  predicate Verifies(frame: seq<bv8>) {
    |frame| > 0 && Sum(frame[..|frame| - 1]) == frame[|frame| - 1]
  }

  /** The accumulator loop. The C accumulator is an int that never leaves 0..255. */
  method GenChecksum(p: array<bv8>, len: nat) returns (s: bv8)
    requires len <= p.Length
    ensures s == Sum(p[..len])
  {
    s := 0;
    for i := 0 to len
      invariant s == Sum(p[..i])
    {
      assert p[..i + 1][..i] == p[..i];
      s := s ^ p[i];
    }
  }

  lemma {:induction false} SumOfConcat(a: seq<bv8>, b: seq<bv8>)
    ensures Sum(a + b) == Sum(a) ^ Sum(b)
  {
    if b == [] {
      assert a + b == a;
    } else {
      var last := |b| - 1;
      assert (a + b)[..|a + b| - 1] == a + b[..last];
      SumOfConcat(a, b[..last]);
    }
  }

  /** The checksum of the short strings of the protocol, spelled out. */
  lemma SumOfBytes(a: bv8, b: bv8, c: bv8)
    ensures Sum([]) == 0 && Sum([a]) == a && Sum([a, b]) == a ^ b && Sum([a, b, c]) == a ^ b ^ c
  {
    hide Sum;
    SumSnoc([], a);
    SumSnoc([a], b);
    SumSnoc([a, b], c);
    assert [] + [a] == [a] && [a] + [b] == [a, b] && [a, b] + [c] == [a, b, c];
    XorZero(a);
  }

  lemma SumSnoc(s: seq<bv8>, b: bv8)
    ensures Sum([]) == 0 && Sum(s + [b]) == Sum(s) ^ b
  {
    assert (s + [b])[..|s|] == s;
  }

  lemma XorZero(a: bv8)
    ensures 0 ^ a == a
  {
  }

  lemma SumOfSlice(r: seq<bv8>, k: nat)
    requires k < |r|
    ensures Sum(r[..k + 1]) == Sum(r[..k]) ^ r[k]
  {
    assert r[..k + 1][..k] == r[..k];
  }

  lemma SumOfThree(r: seq<bv8>)
    requires |r| >= 3
    ensures Sum(r[..3]) == r[0] ^ r[1] ^ r[2]
  {
    hide Sum;
    SumOfSlice(r, 0);
    SumOfSlice(r, 1);
    SumOfSlice(r, 2);
    SumOfNone(r[..0]);
    XorZero(r[0]);
  }

  lemma SumOfNone(s: seq<bv8>)
    requires |s| == 0
    ensures Sum(s) == 0
  {
  }

  /** A reply is accepted when its fourth byte is the XOR of the three before it. */
  lemma ReplyVerifiesIff(r: seq<bv8>)
    requires |r| == 4
    ensures Verifies(r) <==> r[0] ^ r[1] ^ r[2] == r[3]
  {
    hide Sum;
    SumOfThree(r);
  }

  /** Appending the checksum yields an acceptable frame, and no other byte does. */
  lemma AppendedByteVerifies(a: seq<bv8>, c: bv8)
    ensures Verifies(a + [c]) <==> c == Sum(a)
  {
    assert (a + [c])[..|a|] == a;
  }

  lemma VerifiesIffZero(frame: seq<bv8>)
    requires |frame| > 0
    ensures Verifies(frame) <==> Sum(frame) == 0
  {
    var body, c := Sum(frame[..|frame| - 1]), frame[|frame| - 1];
    assert body ^ c == 0 <==> body == c;
  }

  /** Line noise: every byte of the frame is XORed with an error byte. */
  function Corrupt(frame: seq<bv8>, err: seq<bv8>): (r: seq<bv8>)
    requires |frame| == |err|
    ensures |r| == |frame|
  {
    seq(|frame|, i requires 0 <= i < |frame| => frame[i] ^ err[i])
  }

  lemma {:induction false} SumOfCorrupt(frame: seq<bv8>, err: seq<bv8>)
    requires |frame| == |err|
    ensures Sum(Corrupt(frame, err)) == Sum(frame) ^ Sum(err)
  {
    if frame != [] {
      var n := |frame| - 1;
      SumOfCorrupt(frame[..n], err[..n]);
      assert Corrupt(frame, err)[..n] == Corrupt(frame[..n], err[..n]);
    }
  }

  /** The undetectable errors are exactly those whose own XOR is zero. */
  lemma CorruptionDetected(frame: seq<bv8>, err: seq<bv8>)
    requires Verifies(frame) && |err| == |frame|
    ensures Verifies(Corrupt(frame, err)) <==> Sum(err) == 0
  {
    VerifiesIffZero(frame);
    VerifiesIffZero(Corrupt(frame, err));
    SumOfCorrupt(frame, err);
  }

  lemma {:induction false} SumOfOneByte(err: seq<bv8>, at: nat)
    requires at < |err|
    requires forall i :: 0 <= i < |err| && i != at ==> err[i] == 0
    ensures Sum(err) == err[at]
  {
    var n := |err| - 1;
    if at < n {
      SumOfOneByte(err[..n], at);
    } else {
      SumOfZeros(err[..n]);
    }
  }

  lemma {:induction false} SumOfZeros(err: seq<bv8>)
    requires forall i :: 0 <= i < |err| ==> err[i] == 0
    ensures Sum(err) == 0
  {
    if err != [] {
      SumOfZeros(err[..|err| - 1]);
    }
  }

  /** A change confined to one byte, whatever its bits, is always rejected. */
  lemma OneByteChangeRejected(frame: seq<bv8>, at: nat, b: bv8)
    requires Verifies(frame) && at < |frame| && b != frame[at]
    ensures !Verifies(frame[at := b])
  {
    var err := seq(|frame|, i requires 0 <= i < |frame| => frame[i] ^ frame[at := b][i]);
    assert err[at] == frame[at] ^ b && frame[at] ^ b != 0;
    forall i | 0 <= i < |frame| ensures Corrupt(frame, err)[i] == frame[at := b][i] {
      UndoXor(frame[i], frame[at := b][i]);
    }
    assert Corrupt(frame, err) == frame[at := b];
    SumOfOneByte(err, at);
    CorruptionDetected(frame, err);
  }

  lemma UndoXor(x: bv8, y: bv8)
    ensures x ^ (x ^ y) == y
  {
  }
}
