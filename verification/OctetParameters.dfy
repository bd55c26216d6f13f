/** Parameters with a code and a one-octet length, as in ISO 8073, section 13.2.3, and ISO 8327, section 8.2. */
module OctetParameters {
  import opened Bytes

  /** The first parameter with this code from index `i` on. */
  function ParameterOf(buf: bytes, i: nat, code: byte): Option<bytes>
    decreases |buf| - i
  {
    if i + 1 >= |buf| || i + 2 + buf[i + 1] > |buf| then None
    else
      var length: nat := buf[i + 1];
      if buf[i] == code then Some(buf[i + 2..i + 2 + length]) else ParameterOf(buf, i + 2 + length, code)
  }

  /** A parameter that may be left out. */
  function Parameter(code: byte, value: bytes): bytes
    requires |value| < 256
  {
    if value == [] then [] else [code, |value|] + value
  }

  lemma ParameterStep(buf: bytes, i: nat, code: byte, value: bytes, tail: bytes, wanted: byte)
    requires |value| < 256 && i <= |buf| && buf[i..] == [code, |value|] + value + tail
    ensures i + 2 + |value| <= |buf| && buf[i + 2 + |value|..] == tail
    ensures ParameterOf(buf, i, wanted) == if code == wanted then Some(value) else ParameterOf(buf, i + 2 + |value|, wanted)
  {
    var all := [code, |value|] + value + tail;
    assert buf[i] == buf[i..][0] && buf[i + 1] == buf[i..][1];
    assert buf[i + 2..i + 2 + |value|] == all[2..2 + |value|] == value;
    assert buf[i + 2 + |value|..] == all[2 + |value|..] == tail;
  }

  lemma ParameterRead(buf: bytes, i: nat, code: byte, value: bytes, tail: bytes, wanted: byte)
    requires |value| < 256 && i <= |buf| && buf[i..] == Parameter(code, value) + tail
    ensures i + |Parameter(code, value)| <= |buf| && buf[i + |Parameter(code, value)|..] == tail
    ensures ParameterOf(buf, i, wanted)
         == if value != [] && code == wanted then Some(value) else ParameterOf(buf, i + |Parameter(code, value)|, wanted)
  {
    hide ParameterOf;
    if value == [] {
      assert Parameter(code, value) + tail == tail;
    } else {
      ParameterStep(buf, i, code, value, tail, wanted);
    }
  }

  lemma NoParameter(buf: bytes, wanted: byte)
    ensures ParameterOf(buf, |buf|, wanted) == None
  {
  }
}
