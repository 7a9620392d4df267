/** Messages, their checksum and their wire format (src/messaging.c). */
module Wire {
  import opened Bytes
  import opened Isa

  /** The fields of a `Message` apart from its queue link; `payload` is `None` for a null pointer. */
  datatype Msg = Msg(vmSrc: word, vmDst: word, taskSrc: word, taskDst: word, sequence: word,
                     payloadSize: word, crc: word, fragId: byte, fragTotal: byte, payload: Option<seq<byte>>)
  {
    /** The payload has the announced size, and a message without payload has a null pointer. */
    predicate Consistent() {
      if payloadSize == 0 then payload.None? else payload.Some? && |payload.value| == payloadSize
    }
  }

  // ----- checksum -----

  function Crc(payload: seq<byte>): (c: word)
    decreases |payload|
  {
    if payload == [] then 0
    else WordBits(XorBit, Crc(payload[..|payload| - 1]), payload[|payload| - 1])
  }

  method ComputeCrc(payload: seq<byte>) returns (crc: word)
    ensures crc == Crc(payload)
  {
    crc := 0;
    for i := 0 to |payload|
      invariant crc == Crc(payload[..i])
    {
      assert payload[..i + 1][..i] == payload[..i];
      crc := WordBits(XorBit, crc, payload[i]);
    }
    assert payload[..|payload|] == payload;
  }

  lemma {:induction false} XorInjective(a: nat, b: nat, c: nat, d: nat, n: nat)
    requires a < Pow2(n) && b < Pow2(n) && c < Pow2(n) && d < Pow2(n)
    requires Bitwise(XorBit, a, c, n) == Bitwise(XorBit, b, d, n)
    requires a == b || c == d
    ensures a == b && c == d
  {
    if n > 0 {
      var x, y := Bitwise(XorBit, a / 2, c / 2, n - 1), Bitwise(XorBit, b / 2, d / 2, n - 1);
      assert OneBit(XorBit, a % 2, c % 2) == OneBit(XorBit, b % 2, d % 2) && x == y;
      XorInjective(a / 2, b / 2, c / 2, d / 2, n - 1);
    }
  }

  /** A change of one byte always changes the checksum. */
  lemma {:induction false} CrcSeesOneByte(payload: seq<byte>, i: nat, b: byte)
    requires i < |payload| && b != payload[i]
    ensures Crc(payload[i := b]) != Crc(payload)
    decreases |payload|
  {
    Pow2Sixteen();
    var changed := payload[i := b];
    var n := |payload| - 1;
    var x, y := Crc(payload[..n]), Crc(changed[..n]);
    if i == n {
      assert changed[..n] == payload[..n];
    } else {
      assert changed[..n] == payload[..n][i := b];
      CrcSeesOneByte(payload[..n], i, b);
    }
    if Crc(changed) == Crc(payload) {
      XorInjective(x, y, payload[n], changed[n], 16);
    }
  }

  /** How many bytes of the payload have bit `j`. */
  function WithBit(payload: seq<byte>, j: nat): nat {
    if payload == [] then 0 else WithBit(payload[1..], j) + if Bit(payload[0], j) == 1 then 1 else 0
  }

  lemma {:induction false} WithBitLast(payload: seq<byte>, j: nat)
    requires payload != []
    ensures WithBit(payload, j)
            == WithBit(payload[..|payload| - 1], j) + if Bit(payload[|payload| - 1], j) == 1 then 1 else 0
    decreases |payload|
  {
    hide Bit;
    var front := payload[..|payload| - 1];
    if |payload| > 1 {
      WithBitLast(payload[1..], j);
      assert payload[1..][..|payload| - 2] == front[1..];
    }
  }

  lemma {:induction false} ZeroBits(j: nat)
    ensures Bit(0, j) == 0
  {
    if j > 0 { ZeroBits(j - 1); }
  }

  /** The checksum is a parity: each of its bits is 1 if and only if an odd number of payload bytes have that bit. */
  lemma {:induction false} CrcIsParity(payload: seq<byte>, j: nat)
    requires j < 16
    ensures Bit(Crc(payload), j) == WithBit(payload, j) % 2
    decreases |payload|
  {
    hide Bit, Bitwise, Pow2;
    if payload == [] {
      ZeroBits(j);
    } else {
      var front, last := payload[..|payload| - 1], payload[|payload| - 1];
      WithBitLast(payload, j);
      CrcIsParity(front, j);
      Pow2Sixteen();
      BitwiseBits(XorBit, Crc(front), last, 16, j);
      BitIsBit(last, j);
    }
  }

  /** `message_create` copies the payload and stores its checksum. */
  method MessageCreate(vmSrc: word, vmDst: word, taskSrc: word, taskDst: word, payload: seq<byte>) returns (m: Msg)
    requires |payload| < 65536
    ensures m == Msg(vmSrc, vmDst, taskSrc, taskDst, 0, |payload|, Crc(payload), 0, 0, Some(payload))
  {
    var crc := ComputeCrc(payload);
    m := Msg(vmSrc, vmDst, taskSrc, taskDst, 0, |payload|, crc, 0, 0, Some(payload));
  }

  // ----- wire format -----

  const HEADER: nat := 16

  function Header(m: Msg): (h: seq<byte>)
    ensures |h| == HEADER
  {
    LowHigh(m.vmSrc) + LowHigh(m.vmDst) + LowHigh(m.taskSrc) + LowHigh(m.taskDst) + LowHigh(m.sequence)
    + LowHigh(m.payloadSize) + LowHigh(m.crc) + [m.fragId, m.fragTotal]
  }

  /** The bytes of a message; undefined where the payload bytes of the buffer are never written. */
  function Serialized(m: Msg): Outcome<seq<byte>> {
    if m.payloadSize == 0 then Done(Header(m))
    else if m.payload.None? || |m.payload.value| < m.payloadSize then Undefined
    else Done(Header(m) + m.payload.value[..m.payloadSize])
  }

  function WordAt(b: seq<byte>, at: nat): word
    requires at + 2 <= |b|
  {
    ToWord(b[at], b[at + 1])
  }

  /** A buffer shorter than the header is refused; a payload that is cut off is left null. */
  function Deserialized(b: seq<byte>): Option<Msg> {
    if |b| < HEADER then None
    else
      var size := WordAt(b, 10);
      var payload := if size > 0 && HEADER + size <= |b| then Some(b[HEADER..HEADER + size]) else None;
      Some(Msg(WordAt(b, 0), WordAt(b, 2), WordAt(b, 4), WordAt(b, 6), WordAt(b, 8), size, WordAt(b, 12),
               b[14], b[15], payload))
  }

  /** `memcpy` to `ptr`, and the pointer past the copy. */
  method Put(buffer: array<byte>, ptr: nat, bytes: seq<byte>) returns (next: nat)
    requires ptr + |bytes| <= buffer.Length
    modifies buffer
    ensures next == ptr + |bytes| && buffer[..next] == old(buffer[..ptr]) + bytes
  {
    for i := 0 to |bytes|
      invariant buffer[..ptr + i] == old(buffer[..ptr]) + bytes[..i]
    {
      buffer[ptr + i] := bytes[i];
      assert buffer[..ptr + i + 1] == buffer[..ptr + i] + [bytes[i]];
    }
    assert bytes[..|bytes|] == bytes;
    next := ptr + |bytes|;
  }

  /** The header is written field by field through an advancing pointer. */
  method PutHeader(buffer: array<byte>, m: Msg) returns (ptr: nat)
    requires buffer.Length >= HEADER
    modifies buffer
    ensures ptr == HEADER && buffer[..HEADER] == Header(m)
  {
    hide LowHigh;
    ptr := Put(buffer, 0, LowHigh(m.vmSrc));
    ptr := Put(buffer, ptr, LowHigh(m.vmDst));
    ptr := Put(buffer, ptr, LowHigh(m.taskSrc));
    ptr := Put(buffer, ptr, LowHigh(m.taskDst));
    ptr := Put(buffer, ptr, LowHigh(m.sequence));
    ptr := Put(buffer, ptr, LowHigh(m.payloadSize));
    ptr := Put(buffer, ptr, LowHigh(m.crc));
    ghost var words := buffer[..14];
    buffer[ptr], ptr := m.fragId, ptr + 1;
    buffer[ptr], ptr := m.fragTotal, ptr + 1;
    assert buffer[..HEADER] == words + [m.fragId, m.fragTotal];
  }

  method MessageSerialize(m: Msg) returns (r: Outcome<seq<byte>>)
    ensures r == Serialized(m)
  {
    hide Header;
    var buffer := new byte[HEADER + m.payloadSize];
    var ptr := PutHeader(buffer, m);
    if m.payloadSize == 0 {
      assert buffer[..] == buffer[..HEADER];
      return Done(buffer[..]);
    }
    if m.payload.None? || |m.payload.value| < m.payloadSize { return Undefined; }
    ptr := Put(buffer, ptr, m.payload.value[..m.payloadSize]);
    assert buffer[..] == buffer[..ptr];
    return Done(buffer[..]);
  }

  /** `memcpy` of two bytes from `ptr`, and the pointer past them. */
  method TakeWord(buffer: array<byte>, ptr: nat) returns (w: word, next: nat)
    requires ptr + 2 <= buffer.Length
    ensures w == WordAt(buffer[..], ptr) && next == ptr + 2
  {
    w, next := ToWord(buffer[ptr], buffer[ptr + 1]), ptr + 2;
  }

  /** The fields are read one by one through an advancing pointer. */
  method MessageDeserialize(buffer: array<byte>) returns (r: Option<Msg>)
    ensures r == Deserialized(buffer[..])
  {
    if buffer.Length < HEADER { return None; }
    var ptr := 0;
    var vmSrc, vmDst, taskSrc, taskDst, sequence, size, crc: word;
    vmSrc, ptr := TakeWord(buffer, ptr);
    vmDst, ptr := TakeWord(buffer, ptr);
    taskSrc, ptr := TakeWord(buffer, ptr);
    taskDst, ptr := TakeWord(buffer, ptr);
    sequence, ptr := TakeWord(buffer, ptr);
    size, ptr := TakeWord(buffer, ptr);
    crc, ptr := TakeWord(buffer, ptr);
    var fragId, fragTotal := buffer[ptr], buffer[ptr + 1];
    ptr := ptr + 2;
    var payload: Option<seq<byte>> := None;
    if size > 0 && ptr + size <= buffer.Length {
      payload := Some(buffer[ptr..ptr + size]);
    }
    return Some(Msg(vmSrc, vmDst, taskSrc, taskDst, sequence, size, crc, fragId, fragTotal, payload));
  }

  /** Where the fields lie in the buffer, low byte first. */
  lemma HeaderFields(m: Msg, rest: seq<byte>)
    ensures var b := Header(m) + rest;
            && WordAt(b, 0) == m.vmSrc && WordAt(b, 2) == m.vmDst && WordAt(b, 4) == m.taskSrc
            && WordAt(b, 6) == m.taskDst && WordAt(b, 8) == m.sequence && WordAt(b, 10) == m.payloadSize
            && WordAt(b, 12) == m.crc && b[14] == m.fragId && b[15] == m.fragTotal
  {
    WordOf(m.vmSrc);
    WordOf(m.vmDst);
    WordOf(m.taskSrc);
    WordOf(m.taskDst);
    WordOf(m.sequence);
    WordOf(m.payloadSize);
    WordOf(m.crc);
  }

  lemma WordOf(w: word)
    ensures ToWord(LowHigh(w)[0], LowHigh(w)[1]) == w
  {
  }

  /** What is sent is what arrives: a consistent message is read back with all its fields. */
  lemma SerializeDeserialize(m: Msg)
    requires m.Consistent()
    ensures Serialized(m).Done? && Deserialized(Serialized(m).value) == Some(m)
  {
    hide LowHigh, Header;
    if m.payloadSize == 0 {
      HeaderFields(m, []);
      assert Header(m) + [] == Header(m);
    } else {
      var p := m.payload.value;
      assert p[..m.payloadSize] == p;
      HeaderFields(m, p);
      assert (Header(m) + p)[HEADER..HEADER + |p|] == p;
    }
  }

  lemma HeaderOfFields(b: seq<byte>, m: Msg)
    requires |b| >= HEADER && Deserialized(b) == Some(m)
    ensures Header(m) == b[..HEADER]
  {
  }

  /** Conversely a buffer is written back up to the end of its payload, exactly when it holds the whole
      payload; of a message whose payload was cut off the payload bytes are undefined. */
  lemma DeserializeSerialize(b: seq<byte>)
    requires |b| >= HEADER
    ensures var m := Deserialized(b).value;
            && (Serialized(m).Done? <==> HEADER + m.payloadSize <= |b|)
            && (Serialized(m).Done? ==> Serialized(m).value == b[..HEADER + m.payloadSize])
            && (m.Consistent() <==> HEADER + m.payloadSize <= |b|)
  {
    hide Header, LowHigh;
    var m := Deserialized(b).value;
    HeaderOfFields(b, m);
    if m.payloadSize > 0 && HEADER + m.payloadSize <= |b| {
      var p := b[HEADER..HEADER + m.payloadSize];
      assert p[..m.payloadSize] == p;
      assert b[..HEADER] + p == b[..HEADER + m.payloadSize];
    }
  }
}
