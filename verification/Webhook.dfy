/**
 * The signature header of a webhook delivery: printing, parsing and verification. The keyed
 * hash is a parameter, a function from secret and message to 32 bytes.
 */
module Webhook {
  import opened Base
  import opened Decimal
  import opened Int64

  type Bytes = seq<byte>

  /** HMAC-SHA256 as a function of secret and message. */
  type Hash = (string, Bytes) -> Bytes

  ghost predicate Is256Bit(hash: Hash) {
    forall secret, message :: |hash(secret, message)| == 32
  }

  // ---------------------------------------------------------------- text

  function HexDigit(n: int): (c: char)
    requires 0 <= n < 16
    ensures c != ',' && c != '=' && !IsSpace(c)
  {
    if n < 10 then (48 + n) as char else (87 + n) as char
  }

  function Hex(bytes: Bytes): string {
    if bytes == [] then "" else [HexDigit(bytes[0] / 16), HexDigit(bytes[0] % 16)] + Hex(bytes[1..])
  }

  /** unicode.IsSpace. */
  predicate IsSpace(c: char) {
    var n := c as int;
    9 <= n <= 13 || n == 32 || n == 0x85 || n == 0xA0 || n == 0x1680 || 0x2000 <= n <= 0x200A
    || n == 0x2028 || n == 0x2029 || n == 0x202F || n == 0x205F || n == 0x3000
  }

  function TrimLeft(s: string): string {
    if s != "" && IsSpace(s[0]) then TrimLeft(s[1..]) else s
  }

  function TrimRight(s: string): string {
    if s != "" && IsSpace(s[|s| - 1]) then TrimRight(s[..|s| - 1]) else s
  }

  function TrimSpace(s: string): string {
    TrimRight(TrimLeft(s))
  }

  function IndexOf(s: string, c: char): (k: nat)
    ensures k <= |s|
    ensures forall i :: 0 <= i < k ==> s[i] != c
    ensures k < |s| ==> s[k] == c
  {
    if s == "" || s[0] == c then 0 else 1 + IndexOf(s[1..], c)
  }

  /** strings.Split on one character: always at least one part. */
  function Split(s: string, c: char): (parts: seq<string>)
    ensures parts != []
    decreases |s|
  {
    var k := IndexOf(s, c);
    if k == |s| then [s] else [s[..k]] + Split(s[k + 1..], c)
  }

  function Join(parts: seq<string>, c: char): string {
    if parts == [] then "" else if |parts| == 1 then parts[0] else parts[0] + [c] + Join(parts[1..], c)
  }

  lemma {:induction false} IndexOfFirst(a: string, c: char, b: string)
    requires c !in a
    requires b != "" ==> b[0] == c
    ensures IndexOf(a + b, c) == |a|
  {
    if a == "" {
      assert a + b == b;
    } else {
      assert (a + b)[1..] == a[1..] + b;
      IndexOfFirst(a[1..], c, b);
    }
  }

  /** Splitting undoes joining. */
  lemma {:induction false} SplitJoin(parts: seq<string>, c: char)
    requires parts != [] && forall k :: 0 <= k < |parts| ==> c !in parts[k]
    ensures Split(Join(parts, c), c) == parts
  {
    var first := parts[0];
    if |parts| == 1 {
      assert first + "" == first;
      IndexOfFirst(first, c, "");
    } else {
      var rest := Join(parts[1..], c);
      ConcatAssociative(first, [c], rest);
      IndexOfFirst(first, c, [c] + rest);
      var s := first + ([c] + rest);
      assert s[..|first|] == first && s[|first| + 1..] == rest;
      SplitJoin(parts[1..], c);
    }
  }

  // ---------------------------------------------------------------- parsing

  /** What one comma-separated part says, once trimmed and cut at the first '='. */
  datatype Field = Timestamp(text: string) | Digest(text: string) | Ignored

  function FieldOf(part: string): Field {
    var p := TrimSpace(part);
    var k := IndexOf(p, '=');
    if k == |p| then Ignored
    else if p[..k] == "t" then Timestamp(p[k + 1..])
    else if p[..k] == "v1" then Digest(p[k + 1..])
    else Ignored
  }

  function FieldsOf(parts: seq<string>): (fields: seq<Field>)
    ensures |fields| == |parts|
    ensures forall k :: 0 <= k < |parts| ==> fields[k] == FieldOf(parts[k])
  {
    if parts == [] then [] else [FieldOf(parts[0])] + FieldsOf(parts[1..])
  }

  datatype Signature = Signature(unix: int64, digest: string)

  predicate Malformed(f: Field) {
    f.Timestamp? && ParseInt64(f.text).None?
  }

  predicate AnyMalformed(fields: seq<Field>) {
    exists k :: 0 <= k < |fields| && Malformed(fields[k])
  }

  /** The last timestamp among the fields. */
  function LastTimestamp(fields: seq<Field>): Option<int64> {
    if fields == [] then None
    else
      var f := fields[|fields| - 1];
      if f.Timestamp? then ParseInt64(f.text) else LastTimestamp(fields[..|fields| - 1])
  }

  /** The last digest among the fields; empty when there is none. */
  function LastDigest(fields: seq<Field>): string {
    if fields == [] then ""
    else
      var f := fields[|fields| - 1];
      if f.Digest? then f.text else LastDigest(fields[..|fields| - 1])
  }

  /**
   * The meaning of a list of fields: no timestamp is malformed, there is one, the last one
   * counts, and so does the last digest, which must not be empty.
   */
  function Meaning(fields: seq<Field>): Option<Signature> {
    if AnyMalformed(fields) || LastTimestamp(fields).None? || LastDigest(fields) == "" then
      None
    else
      Some(Signature(LastTimestamp(fields).value, LastDigest(fields)))
  }

  function ParseHeader(header: string): Option<Signature> {
    Meaning(FieldsOf(Split(header, ',')))
  }

  lemma OneMoreField(fields: seq<Field>, i: nat)
    requires i < |fields|
    ensures AnyMalformed(fields[..i + 1]) <==> AnyMalformed(fields[..i]) || Malformed(fields[i])
    ensures AnyMalformed(fields[..i + 1]) ==> AnyMalformed(fields)
    ensures LastTimestamp(fields[..i + 1])
         == if fields[i].Timestamp? then ParseInt64(fields[i].text) else LastTimestamp(fields[..i])
    ensures LastDigest(fields[..i + 1]) == if fields[i].Digest? then fields[i].text else LastDigest(fields[..i])
  {
    var more := fields[..i + 1];
    assert more[..i] == fields[..i];
    if Malformed(fields[i]) {
      assert Malformed(more[i]);
    }
    if k: nat :| k < i && Malformed(fields[k]) {
      assert Malformed(more[k]) && Malformed(fields[..i][k]);
    }
  }

  /** One part of a header: what it is keyed by, if by anything, and its value. */
  method CutPart(part: string) returns (key: string, value: string, found: bool)
    ensures !found ==> FieldOf(part) == Ignored
    ensures found && key == "t" ==> FieldOf(part) == Timestamp(value)
    ensures found && key == "v1" ==> FieldOf(part) == Digest(value)
    ensures found && key != "t" && key != "v1" ==> FieldOf(part) == Ignored
  {
    var p := TrimSpace(part);
    var k := IndexOf(p, '=');
    if k == |p| {
      return "", "", false;
    }
    return p[..k], p[k + 1..], true;
  }

  /** parseSignatureHeader: one pass over the parts, giving up at the first malformed timestamp. */
  method ParseSignatureHeader(header: string) returns (unix: int64, digest: string, ok: bool)
    ensures ok <==> ParseHeader(header).Some?
    ensures ok ==> ParseHeader(header) == Some(Signature(unix, digest))
  {
    var parts := Split(header, ',');
    ghost var fields := FieldsOf(parts);
    unix, digest := 0, "";
    var sawTimestamp := false;
    for i := 0 to |parts|
      invariant !AnyMalformed(fields[..i])
      invariant LastTimestamp(fields[..i]) == if sawTimestamp then Some(unix) else None
      invariant LastDigest(fields[..i]) == digest
    {
      OneMoreField(fields, i);
      var key, value, found := CutPart(parts[i]);
      if !found {
        continue;
      }
      if key == "t" {
        var n := ParseInt64(value);
        if n.None? {
          return 0, "", false;
        }
        unix, sawTimestamp := n.value, true;
      } else if key == "v1" {
        digest := value;
      }
    }
    assert fields[..|parts|] == fields;
    ok := sawTimestamp && digest != "";
  }

  // ---------------------------------------------------------------- printing

  function Ascii(s: string): (b: Bytes)
    requires forall k :: 0 <= k < |s| ==> s[k] as int < 256
    ensures |b| == |s| && forall k :: 0 <= k < |s| ==> b[k] == s[k] as int
  {
    if s == "" then [] else [s[0] as int] + Ascii(s[1..])
  }

  const DOT: byte := 46

  /** The signed message: the timestamp in decimal, a dot, the payload. */
  function Message(unix: int64, payload: Bytes): Bytes {
    FormatAlphabet(unix);
    Ascii(Format(unix)) + [DOT] + payload
  }

  function Print(unix: int64, digest: string): string {
    ("t=" + Format(unix)) + [','] + ("v1=" + digest)
  }

  function ComputeSignature(hash: Hash, payload: Bytes, secret: string, unix: int64): string {
    Print(unix, Hex(hash(secret, Message(unix, payload))))
  }

  /** A keyed hash being fed. */
  class Mac {
    const hash: Hash
    const secret: string
    var written: Bytes

    constructor (hash: Hash, secret: string)
      ensures this.hash == hash && this.secret == secret && written == []
    {
      this.hash, this.secret, this.written := hash, secret, [];
    }

    method Write(b: Bytes)
      modifies this
      ensures written == old(written) + b
    {
      written := written + b;
    }

    method Sum() returns (sum: Bytes)
      ensures sum == hash(secret, written)
    {
      sum := hash(secret, written);
    }
  }

  method ComputeWebhookSignature(hash: Hash, payload: Bytes, secret: string, unix: int64) returns (header: string)
    ensures header == ComputeSignature(hash, payload, secret, unix)
  {
    var mac := new Mac(hash, secret);
    FormatAlphabet(unix);
    var prefix := Ascii(Format(unix)) + [DOT];
    mac.Write(prefix);
    assert mac.written == prefix;
    mac.Write(payload);
    var sum := mac.Sum();
    header := Print(unix, Hex(sum));
  }
}
