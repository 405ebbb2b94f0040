/** Verification of deliveries, and the theorems about header and signed message. */
module WebhookProofs {
  import opened Base
  import opened Decimal
  import opened Int64
  import opened Webhook

  // ---------------------------------------------------------------- the header

  predicate Blank(s: string) {
    forall k :: 0 <= k < |s| ==> IsSpace(s[k])
  }

  lemma {:induction false} TrimLeftPadded(pre: string, s: string)
    requires Blank(pre)
    ensures TrimLeft(pre + s) == TrimLeft(s)
  {
    if pre == "" {
      assert pre + s == s;
    } else {
      assert (pre + s)[1..] == pre[1..] + s;
      TrimLeftPadded(pre[1..], s);
    }
  }

  lemma {:induction false} TrimRightPadded(s: string, post: string)
    requires Blank(post)
    ensures TrimRight(s + post) == TrimRight(s)
  {
    if post == "" {
      assert s + post == s;
    } else {
      assert (s + post)[..|s + post| - 1] == s + post[..|post| - 1];
      TrimRightPadded(s, post[..|post| - 1]);
    }
  }

  /** What is trimmed on the left does not depend on blanks added on the right, but for a blank string. */
  lemma {:induction false} TrimBoth(s: string, post: string)
    requires Blank(post)
    ensures TrimRight(TrimLeft(s + post)) == TrimRight(TrimLeft(s))
  {
    if s == "" {
      assert s + post == post;
      TrimLeftPadded(post, "");
      assert post + "" == post;
    } else if IsSpace(s[0]) {
      assert (s + post)[1..] == s[1..] + post;
      TrimBoth(s[1..], post);
    } else {
      TrimRightPadded(s, post);
    }
  }

  /** Blanks around a part do not change what it says, whatever it is. */
  lemma PaddedField(pre: string, part: string, post: string)
    requires Blank(pre) && Blank(post)
    ensures FieldOf(pre + part + post) == FieldOf(part)
  {
    ConcatAssociative(pre, part, post);
    TrimLeftPadded(pre, part + post);
    TrimBoth(part, post);
  }

  /** Blanks around any one part do not change what the header parses to. */
  lemma PaddingIgnored(parts: seq<string>, k: nat, pre: string, post: string)
    requires k < |parts| && Blank(pre) && Blank(post)
    requires forall i :: 0 <= i < |parts| ==> ',' !in parts[i]
    ensures ParseHeader(Join(parts[k := pre + parts[k] + post], ',')) == ParseHeader(Join(parts, ','))
  {
    var padded := parts[k := pre + parts[k] + post];
    SplitJoin(parts, ',');
    SplitJoin(padded, ',');
    PaddedField(pre, parts[k], post);
    assert FieldsOf(padded) == FieldsOf(parts);
  }

  lemma {:induction false} TimestampAt(fields: seq<Field>, a: nat)
    requires a < |fields| && fields[a].Timestamp?
    requires forall k :: a < k < |fields| ==> !fields[k].Timestamp?
    ensures LastTimestamp(fields) == ParseInt64(fields[a].text)
  {
    if a < |fields| - 1 {
      TimestampAt(fields[..|fields| - 1], a);
    }
  }

  lemma {:induction false} DigestAt(fields: seq<Field>, b: nat)
    requires b < |fields| && fields[b].Digest?
    requires forall k :: b < k < |fields| ==> !fields[k].Digest?
    ensures LastDigest(fields) == fields[b].text
  {
    if b < |fields| - 1 {
      DigestAt(fields[..|fields| - 1], b);
    }
  }

  /**
   * With repeated fields the last timestamp, at a, and the last digest, at b, win, however they
   * are written and ordered, unless any timestamp is malformed or that digest is empty.
   */
  lemma LastFieldsWin(parts: seq<string>, a: nat, b: nat)
    requires a < |parts| && b < |parts|
    requires forall k :: 0 <= k < |parts| ==> ',' !in parts[k]
    requires FieldOf(parts[a]).Timestamp? && FieldOf(parts[b]).Digest?
    requires forall k :: a < k < |parts| ==> !FieldOf(parts[k]).Timestamp?
    requires forall k :: b < k < |parts| ==> !FieldOf(parts[k]).Digest?
    ensures ParseHeader(Join(parts, ',')) == Winning(FieldsOf(parts), FieldOf(parts[a]).text, FieldOf(parts[b]).text)
  {
    SplitJoin(parts, ',');
    FieldsWin(FieldsOf(parts), a, b);
  }

  /** The signature with the given timestamp and digest, if no timestamp is malformed and the digest is not empty. */
  function Winning(fields: seq<Field>, timestamp: string, digest: string): Option<Signature> {
    if digest == "" || AnyMalformed(fields) || ParseInt64(timestamp).None? then None
    else Some(Signature(ParseInt64(timestamp).value, digest))
  }

  lemma FieldsWin(fields: seq<Field>, a: nat, b: nat)
    requires a < |fields| && b < |fields|
    requires fields[a].Timestamp? && fields[b].Digest?
    requires forall k :: a < k < |fields| ==> !fields[k].Timestamp?
    requires forall k :: b < k < |fields| ==> !fields[k].Digest?
    ensures Meaning(fields) == Winning(fields, fields[a].text, fields[b].text)
    ensures ParseInt64(fields[a].text).None? ==> AnyMalformed(fields)
  {
    TimestampAt(fields, a);
    DigestAt(fields, b);
    assert Malformed(fields[a]) ==> AnyMalformed(fields);
  }

  lemma {:induction false} NoTimestamp(fields: seq<Field>)
    requires forall k :: 0 <= k < |fields| ==> !fields[k].Timestamp?
    ensures LastTimestamp(fields) == None
  {
    if fields != [] {
      NoTimestamp(fields[..|fields| - 1]);
    }
  }

  lemma {:induction false} NoDigest(fields: seq<Field>)
    requires forall k :: 0 <= k < |fields| ==> !fields[k].Digest?
    ensures LastDigest(fields) == ""
  {
    if fields != [] {
      NoDigest(fields[..|fields| - 1]);
    }
  }

  /** No two timestamps and no two digests. */
  predicate Single(fields: seq<Field>) {
    && (forall i, j :: 0 <= i < |fields| && 0 <= j < |fields| && fields[i].Timestamp? && fields[j].Timestamp? ==>
      i == j)
    && (forall i, j :: 0 <= i < |fields| && 0 <= j < |fields| && fields[i].Digest? && fields[j].Digest? ==> i == j)
  }

  /** Every timestamp and digest of the one list is in the other. */
  predicate Alike(fields: seq<Field>, other: seq<Field>) {
    forall f :: f in fields && !f.Ignored? ==> f in other
  }

  /** The one timestamp's value and the one digest's text, wherever they stand. */
  lemma SingleMeaning(fields: seq<Field>, other: seq<Field>)
    requires Single(fields) && Single(other) && Alike(fields, other) && Alike(other, fields)
    ensures LastTimestamp(fields) == LastTimestamp(other) && LastDigest(fields) == LastDigest(other)
  {
    if a: nat :| a < |fields| && fields[a].Timestamp? {
      assert fields[a] in other;
      var a': nat :| a' < |other| && other[a'] == fields[a];
      TimestampAt(fields, a);
      TimestampAt(other, a');
    } else {
      assert forall k :: 0 <= k < |other| ==> other[k] in other;
      NoTimestamp(fields);
      NoTimestamp(other);
    }
    if b: nat :| b < |fields| && fields[b].Digest? {
      assert fields[b] in other;
      var b': nat :| b' < |other| && other[b'] == fields[b];
      DigestAt(fields, b);
      DigestAt(other, b');
    } else {
      assert forall k :: 0 <= k < |other| ==> other[k] in other;
      NoDigest(fields);
      NoDigest(other);
    }
  }

  lemma SameMalformed(fields: seq<Field>, other: seq<Field>)
    requires AnyMalformed(fields) && Alike(fields, other)
    ensures AnyMalformed(other)
  {
    var k :| 0 <= k < |fields| && Malformed(fields[k]);
    assert fields[k] in other;
    var k' :| 0 <= k' < |other| && other[k'] == fields[k];
  }

  /**
   * The parts of a header with at most one timestamp and one digest may come in any order, with
   * any other parts put in, left out or repeated.
   */
  lemma OrderIgnored(parts: seq<string>, other: seq<string>)
    requires parts != [] && other != [] && forall p :: !FieldOf(p).Ignored? ==> (p in parts <==> p in other)
    requires forall p :: p in parts || p in other ==> ',' !in p
    requires Single(FieldsOf(parts)) && Single(FieldsOf(other))
    ensures ParseHeader(Join(parts, ',')) == ParseHeader(Join(other, ','))
  {
    assert forall k :: 0 <= k < |parts| ==> parts[k] in parts;
    assert forall k :: 0 <= k < |other| ==> other[k] in other;
    SplitJoin(parts, ',');
    SplitJoin(other, ',');
    SameFields(parts, other);
    SameFields(other, parts);
    SameMeaning(FieldsOf(parts), FieldsOf(other));
  }

  lemma SameMeaning(fields: seq<Field>, other: seq<Field>)
    requires Single(fields) && Single(other) && Alike(fields, other) && Alike(other, fields)
    ensures Meaning(fields) == Meaning(other)
  {
    SingleMeaning(fields, other);
    if AnyMalformed(fields) {
      SameMalformed(fields, other);
    }
    if AnyMalformed(other) {
      SameMalformed(other, fields);
    }
  }

  lemma SameFields(parts: seq<string>, other: seq<string>)
    requires forall p :: p in parts && !FieldOf(p).Ignored? ==> p in other
    ensures Alike(FieldsOf(parts), FieldsOf(other))
  {
    forall f | f in FieldsOf(parts) && !f.Ignored?
      ensures f in FieldsOf(other)
    {
      var k :| 0 <= k < |parts| && FieldsOf(parts)[k] == f;
      assert parts[k] in parts;
      var j :| 0 <= j < |other| && other[j] == parts[k];
      assert FieldsOf(other)[j] == f;
    }
  }

  /** Parsing a printed header gives back its timestamp, negative or not, and its digest. */
  lemma HeaderRoundTrip(n: int64, digest: string)
    requires digest != "" && ',' !in digest && !IsSpace(digest[|digest| - 1])
    ensures ParseHeader(Print(n, digest)) == Some(Signature(n, digest))
  {
    TimestampField(n);
    DigestField(digest);
    TwoParts("t=" + Format(n), "v1=" + digest, n, digest);
  }

  lemma TwoParts(a: string, b: string, n: int64, digest: string)
    requires ',' !in a && ',' !in b && digest != ""
    requires FieldOf(a) == Timestamp(Format(n)) && FieldOf(b) == Digest(digest)
    ensures ParseHeader(a + [','] + b) == Some(Signature(n, digest))
  {
    var parts := [a, b];
    assert parts[1..] == [b];
    assert Join(parts, ',') == a + [','] + b;
    RoundTrip(n);
    assert !AnyMalformed(FieldsOf(parts));
    LastFieldsWin(parts, 0, 1);
  }

  lemma TimestampField(n: int64)
    ensures FieldOf("t=" + Format(n)) == Timestamp(Format(n)) && ',' !in "t=" + Format(n)
  {
    FormatAlphabet(n);
    TimestampText(Format(n));
  }

  lemma TimestampText(v: string)
    requires v != "" && forall i :: 0 <= i < |v| ==> v[i] == '-' || IsDigit(v[i])
    ensures FieldOf("t=" + v) == Timestamp(v) && ',' !in "t=" + v
  {
    PlainPart("t=" + v, "t", v);
  }

  /** A part without blanks around it. */
  lemma PlainPart(part: string, key: string, value: string)
    requires part == key + ['='] + value
    requires key != "" && !IsSpace(key[0]) && '=' !in key && ',' !in key
    requires value != "" && !IsSpace(value[|value| - 1]) && ',' !in value
    ensures key == "t" ==> FieldOf(part) == Timestamp(value)
    ensures key == "v1" ==> FieldOf(part) == Digest(value)
    ensures ',' !in part
  {
    ConcatAssociative(key, ['='], value);
    assert TrimLeft(part) == part && TrimRight(part) == part;
    IndexOfFirst(key, '=', ['='] + value);
    assert part[..|key|] == key && part[|key| + 1..] == value;
  }

  lemma DigestField(digest: string)
    requires digest != "" && ',' !in digest && !IsSpace(digest[|digest| - 1])
    ensures FieldOf("v1=" + digest) == Digest(digest) && ',' !in "v1=" + digest
  {
    PlainPart("v1=" + digest, "v1", digest);
  }

  lemma {:induction false} HexShape(bytes: Bytes)
    ensures |Hex(bytes)| == 2 * |bytes|
    ensures forall k :: 0 <= k < |Hex(bytes)| ==>
      Hex(bytes)[k] != ',' && Hex(bytes)[k] != '=' && !IsSpace(Hex(bytes)[k])
  {
    if bytes != [] {
      HexShape(bytes[1..]);
    }
  }

  lemma {:induction false} HexInjective(a: Bytes, b: Bytes)
    requires Hex(a) == Hex(b)
    ensures a == b
  {
    HexShape(a);
    HexShape(b);
    if a != [] {
      assert Hex(a)[0] == Hex(b)[0] && Hex(a)[1] == Hex(b)[1];
      assert Hex(a)[2..] == Hex(a[1..]) && Hex(b)[2..] == Hex(b[1..]);
      HexInjective(a[1..], b[1..]);
      assert a[0] == b[0];
    }
  }

  /** The header of any payload, secret and time parses to that time and the hex of the hash. */
  lemma SignatureRoundTrip(hash: Hash, payload: Bytes, secret: string, n: int64)
    requires Is256Bit(hash)
    ensures var digest := Hex(hash(secret, Message(n, payload)));
            |digest| == 64 && ParseHeader(ComputeSignature(hash, payload, secret, n)) == Some(Signature(n, digest))
  {
    var digest := Hex(hash(secret, Message(n, payload)));
    HexShape(hash(secret, Message(n, payload)));
    HeaderRoundTrip(n, digest);
  }

  // ---------------------------------------------------------------- the signed message

  lemma {:induction false} AsciiInjective(a: string, b: string)
    requires forall k :: 0 <= k < |a| ==> a[k] as int < 256
    requires forall k :: 0 <= k < |b| ==> b[k] as int < 256
    requires Ascii(a) == Ascii(b)
    ensures a == b
  {
    assert forall k :: 0 <= k < |a| ==> a[k] as int == b[k] as int;
  }

  lemma FirstDot(m: Bytes, i: nat, j: nat)
    requires i < |m| && j < |m| && m[i] == DOT && m[j] == DOT
    requires forall k :: 0 <= k < i ==> m[k] != DOT
    requires forall k :: 0 <= k < j ==> m[k] != DOT
    ensures i == j
  {
  }

  /** Different times or payloads are never signed as the same message. */
  lemma MessageInjective(n1: int64, p1: Bytes, n2: int64, p2: Bytes)
    requires Message(n1, p1) == Message(n2, p2)
    ensures n1 == n2 && p1 == p2
  {
    FormatAlphabet(n1);
    FormatAlphabet(n2);
    var a1, a2 := Ascii(Format(n1)), Ascii(Format(n2));
    assert DOT !in a1 && DOT !in a2;
    var m := Message(n1, p1);
    assert m[..|a1|] == a1 && m[|a1|] == DOT && m[|a1| + 1..] == p1;
    assert m[..|a2|] == a2 && m[|a2|] == DOT && m[|a2| + 1..] == p2;
    FirstDot(m, |a1|, |a2|);
    AsciiInjective(Format(n1), Format(n2));
    RoundTrip(n1);
    RoundTrip(n2);
  }

  // ---------------------------------------------------------------- verification

  /** What a valid signature is: the header parses, and its digest is that of the payload at its time. */
  ghost predicate Genuine(hash: Hash, payload: Bytes, header: string, secret: string) {
    var sig := ParseHeader(header);
    sig.Some? && sig.value.digest == Hex(hash(secret, Message(sig.value.unix, payload)))
  }

  /** verifyWebhookSignature: the expected header is recomputed, printed and parsed again. */
  method VerifyWebhookSignature(hash: Hash, payload: Bytes, header: string, secret: string)
    returns (unix: int64, ok: bool)
    requires Is256Bit(hash)
    ensures ok <==> Genuine(hash, payload, header, secret)
    ensures ok ==> unix == ParseHeader(header).value.unix
  {
    var digest, parsed;
    unix, digest, parsed := ParseSignatureHeader(header);
    if !parsed {
      return 0, false;
    }
    SignatureRoundTrip(hash, payload, secret, unix);
    var want := ComputeWebhookSignature(hash, payload, secret, unix);
    var _, wantDigest, wantParsed := ParseSignatureHeader(want);
    ok := wantParsed && digest == wantDigest;
    if !ok {
      unix := 0;
    }
  }

  /** A header made for one payload verifies for another exactly when their hashes collide. */
  lemma PrintedVerifiesIff(hash: Hash, payload: Bytes, other: Bytes, secret: string, n: int64)
    requires Is256Bit(hash)
    ensures Genuine(hash, other, ComputeSignature(hash, payload, secret, n), secret)
       <==> hash(secret, Message(n, other)) == hash(secret, Message(n, payload))
    ensures Genuine(hash, payload, ComputeSignature(hash, payload, secret, n), secret)
    ensures other != payload ==> Message(n, other) != Message(n, payload)
  {
    SignatureRoundTrip(hash, payload, secret, n);
    if Hex(hash(secret, Message(n, other))) == Hex(hash(secret, Message(n, payload))) {
      HexInjective(hash(secret, Message(n, other)), hash(secret, Message(n, payload)));
    }
    if Message(n, other) == Message(n, payload) {
      MessageInjective(n, other, n, payload);
    }
  }

  // ---------------------------------------------------------------- freshness

  /** time.Time.Sub: the difference in nanoseconds, saturated at the ends of a Duration. */
  function Sub(now: int, then_: int): int64 {
    var d := now - then_;
    if Fits(d) then d else if d < 0 then MIN else MAX
  }

  /** Seconds from the year 1, where time.Time starts to count, to 1970. */
  const UNIX_TO_INTERNAL: int := 62_135_596_800

  /** The instant time.Unix makes of a number of seconds: the shift of origin is an int64 sum. */
  function Instant(unix: int64): int {
    Wrap(unix + UNIX_TO_INTERNAL) - UNIX_TO_INTERNAL
  }

  /** That is the instant meant unless it lies past the last one a time.Time can hold. */
  lemma InstantExactIff(unix: int64)
    ensures Instant(unix) == unix <==> unix <= MAX - UNIX_TO_INTERNAL
  {
  }

  datatype Verdict = InvalidSignature | Expired | Accepted

  /** ConstructWebhookEvent up to the decoding of the payload; now is in nanoseconds. */
  method CheckDelivery(hash: Hash, payload: Bytes, header: string, secret: string, tolerance: int64, now: int)
    returns (verdict: Verdict)
    requires Is256Bit(hash)
    ensures verdict.InvalidSignature? <==> !Genuine(hash, payload, header, secret)
    ensures Genuine(hash, payload, header, secret) ==>
      (verdict.Accepted? <==> InWindow(now - Instant(ParseHeader(header).value.unix) * SECOND, tolerance))
  {
    var unix, ok := VerifyWebhookSignature(hash, payload, header, secret);
    if !ok {
      return InvalidSignature;
    }
    if tolerance > 0 {
      var drift := Sub(now, Instant(unix) * SECOND);
      if drift > tolerance || drift < -tolerance {
        return Expired;
      }
    }
    return Accepted;
  }

  /**
   * The window the check accepts: at most tolerance either way, with no check at all for a
   * tolerance of zero or less. The saturated difference makes one exception: the largest
   * tolerance also accepts every older delivery.
   */
  predicate InWindow(age: int, tolerance: int64) {
    tolerance <= 0 || -tolerance <= age <= tolerance || (tolerance == MAX && age > MAX)
  }
}
