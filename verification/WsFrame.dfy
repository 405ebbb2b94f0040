/** WebSocket frames (section 5.2 of RFC 6455) as the client writes and reads them. */
module WsFrame {
  import opened Base
  import opened Int64

  type Bytes = seq<byte>

  type Key = k: Bytes | |k| == 4 witness [0, 0, 0, 0]

  const CONTINUATION := 0
  const TEXT := 1
  const BINARY := 2
  const CLOSE := 8
  const PING := 9
  const PONG := 10

  datatype Frame = Frame(fin: bool, opcode: nat, payload: Bytes)

  /** BadLength is the panic of allocating a buffer of negative length. */
  datatype Fault = Truncated | ReservedBits | FragmentedControl | LongControl | OverBudget | BadLength

  // ---------------------------------------------------------------- masking

  /** Exclusive or, bit by bit. */
  function Xor(a: nat, b: nat): nat {
    if a == 0 && b == 0 then 0 else 2 * Xor(a / 2, b / 2) + (a + b) % 2
  }

  lemma {:induction false} XorTwice(a: nat, b: nat)
    ensures Xor(Xor(a, b), b) == a
  {
    if a != 0 || b != 0 {
      var x, half := Xor(a, b), Xor(a / 2, b / 2);
      XorTwice(a / 2, b / 2);
      Halves(half, a, b, x);
      XorUnfold(x, b);
    }
  }

  lemma XorUnfold(a: nat, b: nat)
    ensures Xor(a, b) == 2 * Xor(a / 2, b / 2) + (a + b) % 2
  {
  }

  lemma Halves(half: nat, a: nat, b: nat, x: nat)
    requires x == 2 * half + (a + b) % 2
    ensures x / 2 == half && 2 * (a / 2) + (x + b) % 2 == a
  {
  }

  lemma {:induction false} XorBound(a: nat, b: nat, bits: nat)
    requires a < Pow2(bits) && b < Pow2(bits)
    ensures Xor(a, b) < Pow2(bits)
  {
    if bits > 0 {
      XorBound(a / 2, b / 2, bits - 1);
    }
  }

  function XorByte(a: byte, b: byte): byte {
    assert Pow2(8) == 256 by {
      Pow2Add(4, 4);
    }
    XorBound(a, b, 8);
    Xor(a, b)
  }

  function Masked(data: Bytes, key: Key): (r: Bytes)
    ensures |r| == |data|
  {
    seq(|data|, i requires 0 <= i < |data| => XorByte(data[i], key[i % 4]))
  }

  /** Masking with the same key again unmasks. */
  lemma MaskedTwice(data: Bytes, key: Key)
    ensures Masked(Masked(data, key), key) == data
  {
    forall i | 0 <= i < |data|
      ensures Masked(Masked(data, key), key)[i] == data[i]
    {
      XorTwice(data[i], key[i % 4]);
    }
  }

  // ---------------------------------------------------------------- big-endian numbers

  function Big(b: Bytes): (n: nat) {
    if b == [] then 0 else 256 * Big(b[..|b| - 1]) + b[|b| - 1]
  }

  function ToBig(n: nat, k: nat): (b: Bytes)
    ensures |b| == k
  {
    if k == 0 then [] else ToBig(n / 256, k - 1) + [n % 256]
  }

  lemma {:induction false} BigUndoesToBig(n: nat, k: nat)
    requires n < Pow2(8 * k)
    ensures Big(ToBig(n, k)) == n
  {
    if k > 0 {
      PowerOfBytes(k);
      BigUndoesToBig(n / 256, k - 1);
      assert ToBig(n, k)[..k - 1] == ToBig(n / 256, k - 1);
    }
  }

  lemma {:induction false} ToBigUndoesBig(b: Bytes)
    ensures ToBig(Big(b), |b|) == b && Big(b) < Pow2(8 * |b|)
  {
    if b != [] {
      PowerOfBytes(|b|);
      ToBigUndoesBig(b[..|b| - 1]);
    }
  }

  lemma PowerOfBytes(k: nat)
    requires k > 0
    ensures Pow2(8 * k) == 256 * Pow2(8 * (k - 1))
  {
    Pow2Add(8, 8 * (k - 1));
    assert Pow2(8) == 256 by {
      Pow2Add(4, 4);
    }
  }

  // ---------------------------------------------------------------- the format

  /** The three ways of writing a payload length. */
  datatype Form = Short | Medium | Long {
    function Extra(): nat {
      match this case Short => 0 case Medium => 2 case Long => 8
    }

    /** The seven length bits of the second byte. */
    function Code(n: nat): nat {
      match this case Short => n case Medium => 126 case Long => 127
    }

    predicate Holds(n: nat) {
      match this case Short => n < 126 case Medium => n < 0x1_0000 case Long => n < TWO_63
    }
  }

  function Bit(b: bool): nat {
    if b then 128 else 0
  }

  function Head(form: Form, fin: bool, opcode: nat, masked: bool, n: nat): (h: Bytes)
    requires opcode < 16 && form.Holds(n)
    ensures |h| == 2 + form.Extra()
  {
    [Bit(fin) + opcode, Bit(masked) + form.Code(n)] + ToBig(n, form.Extra())
  }

  function Encode(form: Form, f: Frame, key: Option<Key>): Bytes
    requires f.opcode < 16 && form.Holds(|f.payload|)
  {
    Head(form, f.fin, f.opcode, key.Some?, |f.payload|) +
    if key.Some? then key.value + Masked(f.payload, key.value) else f.payload
  }

  predicate ControlOp(opcode: nat) {
    opcode >= 8
  }

  /** What the reader accepts: whole short control frames, and data within the budget. */
  predicate Acceptable(f: Frame, maxData: int) {
    if ControlOp(f.opcode) then f.fin && |f.payload| <= 125 else |f.payload| <= maxData
  }

  // ---------------------------------------------------------------- reading

  /** The payload length as an int64, and the size of the header that says it. */
  function LengthOf(input: Bytes): Option<(int64, nat)>
    requires |input| >= 2
  {
    var code := input[1] % 128;
    if code < 126 then Some((code, 2))
    else
      var k := if code == 126 then 2 else 8;
      if |input| < 2 + k then None else Some((Wrap(Big(input[2..2 + k])), 2 + k))
  }

  function Check(fin: bool, opcode: nat, length: int64, maxData: int): Option<Fault> {
    if ControlOp(opcode) then
      if !fin then Some(FragmentedControl) else if length > 125 then Some(LongControl) else None
    else if length < 0 || length > maxData then Some(OverBudget)
    else None
  }

  datatype Parsed = Parsed(frame: Frame, size: nat)

  /** The key and payload that follow a header. */
  function Body(rest: Bytes, masked: bool, length: int64): Result<Bytes, Fault> {
    var skip := if masked then 4 else 0;
    if |rest| < skip then Err(Truncated)
    else if length < 0 then Err(BadLength)
    else if |rest| - skip < length then Err(Truncated)
    else
      var data := rest[skip..skip + length];
      Ok(if masked then Masked(data, rest[..4]) else data)
  }

  function Read(input: Bytes, maxData: int): (r: Result<Parsed, Fault>)
    ensures r.Ok? ==> 2 <= r.value.size <= |input|
  {
    if |input| < 2 then Err(Truncated)
    else if input[0] / 16 % 8 != 0 then Err(ReservedBits)
    else
      var length := LengthOf(input);
      if length.None? then Err(Truncated)
      else
        var fin, opcode, masked := input[0] >= 128, input[0] % 16, input[1] >= 128;
        var (n, size) := length.value;
        var fault := Check(fin, opcode, n, maxData);
        if fault.Some? then Err(fault.value)
        else
          match Body(input[size..], masked, n)
          case Err(e) => Err(e)
          case Ok(payload) => Ok(Parsed(Frame(fin, opcode, payload), size + (if masked then 4 else 0) + n))
  }

  // ---------------------------------------------------------------- reading against writing

  lemma HeadRead(form: Form, fin: bool, opcode: nat, masked: bool, n: nat, tail: Bytes)
    requires opcode < 16 && form.Holds(n)
    ensures var input := Head(form, fin, opcode, masked, n) + tail;
            && LengthOf(input) == Some((n, 2 + form.Extra()))
            && input[0] / 16 % 8 == 0 && input[0] % 16 == opcode
            && (input[0] >= 128 <==> fin) && (input[1] >= 128 <==> masked)
            && input[2 + form.Extra()..] == tail
  {
    var input := Head(form, fin, opcode, masked, n) + tail;
    var k := form.Extra();
    assert input[0] == Bit(fin) + opcode && input[1] == Bit(masked) + form.Code(n);
    assert input[2..2 + k] == ToBig(n, k);
    if form != Short {
      FormFits(form, n);
      BigUndoesToBig(n, k);
    }
  }

  lemma FormFits(form: Form, n: nat)
    requires form.Holds(n) && form != Short
    ensures n < Pow2(8 * form.Extra()) && n <= MAX
  {
    Pow2Of64();
    assert Pow2(16) == 0x1_0000 by {
      Pow2Add(8, 8);
      Pow2Add(4, 4);
    }
  }

  /** Every acceptable frame, in any length form, masked or not, is read back as it is. */
  lemma ReadBack(form: Form, f: Frame, key: Option<Key>, tail: Bytes, maxData: int)
    requires f.opcode < 16 && form.Holds(|f.payload|) && Acceptable(f, maxData)
    ensures Read(Encode(form, f, key) + tail, maxData) == Ok(Parsed(f, |Encode(form, f, key)|))
    ensures (Encode(form, f, key) + tail)[|Encode(form, f, key)|..] == tail
  {
    var n := |f.payload|;
    var head := Head(form, f.fin, f.opcode, key.Some?, n);
    var data := if key.Some? then key.value + Masked(f.payload, key.value) else f.payload;
    ConcatAssociative(head, data, tail);
    HeadRead(form, f.fin, f.opcode, key.Some?, n, data + tail);
    BodyRead(f.payload, key, tail);
  }

  lemma BodyRead(payload: Bytes, key: Option<Key>, tail: Bytes)
    requires |payload| <= MAX
    ensures var data := if key.Some? then key.value + Masked(payload, key.value) else payload;
            Body(data + tail, key.Some?, |payload|) == Ok(payload)
  {
    if key.Some? {
      var rest := key.value + Masked(payload, key.value) + tail;
      assert rest[..4] == key.value && rest[4..4 + |payload|] == Masked(payload, key.value);
      MaskedTwice(payload, key.value);
    } else {
      assert (payload + tail)[0..0 + |payload|] == payload;
    }
  }

  /** Whatever is read without a fault was an encoding of the frame returned, which is acceptable. */
  lemma ReadOnlyEncodings(input: Bytes, maxData: int) returns (form: Form, key: Option<Key>)
    requires Read(input, maxData).Ok?
    ensures var p := Read(input, maxData).value;
            && p.frame.opcode < 16 && form.Holds(|p.frame.payload|) && Acceptable(p.frame, maxData)
            && input[..p.size] == Encode(form, p.frame, key)
  {
    form, key := PartsWritten(input, Read(input, maxData).value);
  }

  lemma PartsWritten(input: Bytes, p: Parsed) returns (form: Form, key: Option<Key>)
    requires |input| >= 2 && input[0] / 16 % 8 == 0
    requires var n, skip := |p.frame.payload|, if input[1] >= 128 then 4 else 0;
             LengthOf(input) == Some((n, p.size - skip - n))
    requires p.frame.fin == (input[0] >= 128) && p.frame.opcode == input[0] % 16
    requires Body(input[LengthOf(input).value.1..], input[1] >= 128, |p.frame.payload|) == Ok(p.frame.payload)
    ensures form.Holds(|p.frame.payload|) && p.size <= |input| && input[..p.size] == Encode(form, p.frame, key)
  {
    var n, size := |p.frame.payload|, LengthOf(input).value.1;
    var rest := input[size..];
    key := if input[1] >= 128 then Some(rest[..4]) else None;
    BodyWritten(rest, key, n);
    form := HeadWritten(input);
    Rejoin(input, size, p.size - size, Encode(form, p.frame, key),
      Head(form, p.frame.fin, p.frame.opcode, key.Some?, n));
  }

  lemma Rejoin(input: Bytes, size: nat, more: nat, whole: Bytes, head: Bytes)
    requires size + more <= |input| && input[..size] == head
    requires whole == head + input[size..][..more]
    ensures input[..size + more] == whole
  {
  }

  lemma HeadWritten(input: Bytes) returns (form: Form)
    requires |input| >= 2 && input[0] / 16 % 8 == 0 && LengthOf(input).Some? && LengthOf(input).value.0 >= 0
    ensures var (n, size) := LengthOf(input).value;
            && form.Holds(n)
            && input[..size] == Head(form, input[0] >= 128, input[0] % 16, input[1] >= 128, n)
  {
    var (n, size) := LengthOf(input).value;
    var code := input[1] % 128;
    form := if code < 126 then Short else if code == 126 then Medium else Long;
    assert Bit(input[0] >= 128) + input[0] % 16 == input[0];
    assert Bit(input[1] >= 128) + code == input[1];
    if form == Short {
      assert input[..2] == [input[0], input[1]] + ToBig(n, 0);
    } else {
      DigitsWritten(input[2..size], n);
      assert input[..size] == [input[0], input[1]] + input[2..size];
    }
  }

  /** Two or eight digits whose value is not negative as an int64. */
  lemma DigitsWritten(digits: Bytes, n: nat)
    requires (|digits| == 2 || |digits| == 8) && n == Wrap(Big(digits))
    ensures ToBig(n, |digits|) == digits && n < if |digits| == 2 then 0x1_0000 else TWO_63
  {
    Pow2Of64();
    assert Pow2(16) == 0x1_0000 by {
      Pow2Add(8, 8);
      Pow2Add(4, 4);
    }
    ToBigUndoesBig(digits);
    NotWrapped(Big(digits));
  }

  lemma NotWrapped(x: nat)
    requires x < TWO_64 && Wrap(x) >= 0
    ensures Wrap(x) == x && x < TWO_63
  {
  }

  lemma BodyWritten(rest: Bytes, key: Option<Key>, n: nat)
    requires n <= MAX && (key.Some? ==> |rest| >= 4 && key.value == rest[..4])
    requires Body(rest, key.Some?, n).Ok?
    ensures var payload := Body(rest, key.Some?, n).value;
            && |payload| == n
            && rest[..(if key.Some? then 4 else 0) + n] ==
               if key.Some? then key.value + Masked(payload, key.value) else payload
  {
    if key.Some? {
      MaskedTwice(rest[4..4 + n], key.value);
      assert rest[..4 + n] == rest[..4] + rest[4..4 + n];
    } else {
      assert rest[0..0 + n] == rest[..n];
    }
  }

  // ---------------------------------------------------------------- the one fault that is not an error

  lemma {:induction false} FirstDigit(d: Bytes)
    requires d != []
    ensures d[0] * Pow2(8 * (|d| - 1)) <= Big(d) < (d[0] as int + 1) * Pow2(8 * (|d| - 1))
  {
    var first: nat := d[0];
    if |d| > 1 {
      FirstDigit(d[..|d| - 1]);
      PowerOfBytes(|d| - 1);
      Scale(first, Pow2(8 * (|d| - 2)), Pow2(8 * (|d| - 1)));
      Scale(first + 1, Pow2(8 * (|d| - 2)), Pow2(8 * (|d| - 1)));
    } else {
      assert d[..0] == [] && Pow2(0) == 1;
    }
  }

  lemma Scale(a: nat, p: int, q: int)
    requires q == 256 * p
    ensures a * q == 256 * (a * p)
  {
  }

  lemma NegativeIff(d: Bytes)
    requires |d| == 8
    ensures Wrap(Big(d)) < 0 <==> d[0] >= 128
  {
    FirstDigit(d);
    ToBigUndoesBig(d);
    Pow2Of64();
    Pow2Add(8, 56);
    assert Pow2(8) == 256 by {
      Pow2Add(4, 4);
    }
    var p := Pow2(56);
    assert 128 * p == TWO_63;
    if d[0] >= 128 {
      Ordered(128, d[0], p);
    } else {
      Ordered(d[0] as int + 1, 128, p);
    }
  }

  lemma Ordered(a: nat, b: nat, p: int)
    requires a <= b && p > 0
    ensures a * p <= b * p
  {
  }

  lemma TwoDigits(d: Bytes)
    requires |d| == 2
    ensures 0 <= Wrap(Big(d)) == Big(d)
  {
    assert d[..1][..0] == [];
    assert Big(d[..1]) == d[0];
  }

  /** Reading panics exactly for a final control frame whose 64-bit length has its top bit set. */
  lemma BadLengthIff(input: Bytes, maxData: int)
    ensures Read(input, maxData) == Err(BadLength) <==>
      && |input| >= 10 && input[0] / 16 == 8 && input[0] % 16 >= 8 && input[1] % 128 == 127 && input[2] >= 128
      && (input[1] >= 128 ==> |input| >= 14)
  {
    if |input| >= 10 {
      NegativeIff(input[2..10]);
    }
    if |input| >= 4 {
      TwoDigits(input[2..4]);
    }
  }
}
