/** What a signature header is made of, character by character, and which headers parse at all. */
module WebhookFields {
  import opened Base
  import opened Decimal
  import opened Int64
  import opened Webhook
  import opened WebhookProofs

  // ---------------------------------------------------------------- one part

  lemma Cut(key: string, value: string)
    requires '=' !in key && (key != "" ==> !IsSpace(key[0])) && (value != "" ==> !IsSpace(value[|value| - 1]))
    ensures var part := key + ['='] + value;
            && TrimSpace(part) == part && IndexOf(part, '=') == |key|
            && part[..|key|] == key && part[|key| + 1..] == value
  {
    var part := key + ['='] + value;
    ConcatAssociative(key, ['='], value);
    assert !IsSpace(part[0]) && !IsSpace(part[|part| - 1]);
    assert TrimLeft(part) == part && TrimRight(part) == part;
    IndexOfFirst(key, '=', ['='] + value);
  }

  /** A part key=value is a timestamp for the key "t", a digest for "v1", and nothing for any other key. */
  lemma FieldIs(key: string, value: string)
    requires '=' !in key && (key != "" ==> !IsSpace(key[0])) && (value != "" ==> !IsSpace(value[|value| - 1]))
    ensures FieldOf(key + ['='] + value) ==
            if key == "t" then Timestamp(value) else if key == "v1" then Digest(value) else Ignored
  {
    Cut(key, value);
    FieldOfCut(key + ['='] + value, key, value);
  }

  lemma FieldOfCut(part: string, key: string, value: string)
    requires TrimSpace(part) == part && IndexOf(part, '=') == |key| < |part|
    requires part[..|key|] == key && part[|key| + 1..] == value
    ensures FieldOf(part) == if key == "t" then Timestamp(value) else if key == "v1" then Digest(value) else Ignored
  {
  }

  /** A part without '=' is nothing. */
  lemma NoField(part: string)
    requires '=' !in part
    ensures FieldOf(part) == Ignored
  {
    TrimmedFrom(part, '=');
    var p := TrimSpace(part);
    assert IndexOf(p, '=') == |p|;
  }

  lemma TrimmedFrom(s: string, c: char)
    requires c !in s
    ensures c !in TrimSpace(s)
  {
    LeftTrimmedFrom(s, c);
    RightTrimmedFrom(TrimLeft(s), c);
  }

  lemma {:induction false} LeftTrimmedFrom(s: string, c: char)
    requires c !in s
    ensures c !in TrimLeft(s)
  {
    if s != "" && IsSpace(s[0]) {
      LeftTrimmedFrom(s[1..], c);
    }
  }

  lemma {:induction false} RightTrimmedFrom(s: string, c: char)
    requires c !in s
    ensures c !in TrimRight(s)
  {
    if s != "" && IsSpace(s[|s| - 1]) {
      RightTrimmedFrom(s[..|s| - 1], c);
    }
  }

  /** Spaces, tabs and line ends are blanks. */
  lemma PlainBlank(s: string)
    requires forall k :: 0 <= k < |s| ==> s[k] in {' ', '\t', '\n', '\r'}
    ensures Blank(s)
  {
  }

  // ---------------------------------------------------------------- other parts

  lemma {:induction false} InsertedTimestamp(a: seq<Field>, b: seq<Field>)
    ensures LastTimestamp(a + [Ignored] + b) == LastTimestamp(a + b)
    ensures LastDigest(a + [Ignored] + b) == LastDigest(a + b)
    decreases |b|
  {
    var all := a + [Ignored] + b;
    if b == [] {
      assert all[..|all| - 1] == a && a + b == a;
    } else {
      var init := b[..|b| - 1];
      InsertedTimestamp(a, init);
      assert all[..|all| - 1] == a + [Ignored] + init && (a + b)[..|a + b| - 1] == a + init;
    }
  }

  lemma InsertedMeaning(a: seq<Field>, b: seq<Field>)
    ensures Meaning(a + [Ignored] + b) == Meaning(a + b)
  {
    InsertedTimestamp(a, b);
    var with, without := a + [Ignored] + b, a + b;
    if AnyMalformed(without) {
      var k :| 0 <= k < |without| && Malformed(without[k]);
      var k' := if k < |a| then k else k + 1;
      assert with[k'] == without[k];
    }
    if AnyMalformed(with) {
      var k :| 0 <= k < |with| && Malformed(with[k]);
      assert k != |a|;
      var k' := if k < |a| then k else k - 1;
      assert without[k'] == with[k];
    }
  }

  lemma FieldsAppend(a: seq<string>, b: seq<string>)
    ensures FieldsOf(a + b) == FieldsOf(a) + FieldsOf(b)
  {
  }

  /** A part that is neither timestamp nor digest, put in anywhere, changes nothing. */
  lemma OtherPartIgnored(before: seq<string>, other: string, later: seq<string>)
    requires before + later != [] && FieldOf(other) == Ignored
    requires forall p :: p in before || p in later || p == other ==> ',' !in p
    ensures ParseHeader(Join(before + [other] + later, ',')) == ParseHeader(Join(before + later, ','))
  {
    SplitJoin(before + later, ',');
    SplitJoin(before + [other] + later, ',');
    FieldsAppend(before, later);
    FieldsAppend(before + [other], later);
    FieldsAppend(before, [other]);
    assert FieldsOf([other]) == [Ignored];
    InsertedMeaning(FieldsOf(before), FieldsOf(later));
  }

  // ---------------------------------------------------------------- which headers parse

  /** Field b is a digest and no later one is. */
  predicate LastDigestAt(fields: seq<Field>, b: nat)
    requires b < |fields|
  {
    fields[b].Digest? && forall k :: b < k < |fields| ==> !fields[k].Digest?
  }

  /** Without a malformed timestamp, there is a last one exactly if there is one. */
  lemma {:induction false} TimestampThere(fields: seq<Field>)
    ensures !AnyMalformed(fields) ==>
      (LastTimestamp(fields).Some? <==> exists a :: 0 <= a < |fields| && fields[a].Timestamp?)
  {
    if fields != [] && !AnyMalformed(fields) {
      var n := |fields| - 1;
      assert !Malformed(fields[n]);
      if n > 0 {
        OneMoreField(fields, n - 1);
      }
      TimestampThere(fields[..n]);
      assert forall a :: 0 <= a < n ==> fields[..n][a] == fields[a];
    }
  }

  /** The last digest, if it is not empty, stands somewhere. */
  lemma {:induction false} DigestThere(fields: seq<Field>) returns (b: nat)
    requires LastDigest(fields) != ""
    ensures b < |fields| && LastDigestAt(fields, b) && fields[b].text == LastDigest(fields)
  {
    b := |fields| - 1;
    if !fields[b].Digest? {
      var n := b;
      b := DigestThere(fields[..n]);
      assert forall k :: b < k < n ==> fields[k] == fields[..n][k];
    }
  }

  lemma MeaningIff(fields: seq<Field>)
    ensures Meaning(fields).Some? <==>
      && (exists a :: 0 <= a < |fields| && fields[a].Timestamp?)
      && !AnyMalformed(fields)
      && exists b: nat :: b < |fields| && LastDigestAt(fields, b) && fields[b].text != ""
  {
    TimestampThere(fields);
    if LastDigest(fields) != "" {
      var b := DigestThere(fields);
    }
    if b: nat :| b < |fields| && LastDigestAt(fields, b) && fields[b].text != "" {
      DigestAt(fields, b);
    }
  }

  /**
   * A header parses if and only if it has a timestamp, every timestamp in it is a number that
   * fits an int64, and its last digest is not empty.
   */
  lemma ParsesIff(header: string)
    ensures var fields := FieldsOf(Split(header, ','));
            ParseHeader(header).Some? <==>
              && (exists a :: 0 <= a < |fields| && fields[a].Timestamp?)
              && (forall k :: 0 <= k < |fields| && fields[k].Timestamp? ==> ParseInt64(fields[k].text).Some?)
              && exists b: nat :: b < |fields| && LastDigestAt(fields, b) && fields[b].text != ""
  {
    MeaningIff(FieldsOf(Split(header, ',')));
    WellFormedIff(FieldsOf(Split(header, ',')));
  }

  lemma WellFormedIff(fields: seq<Field>)
    ensures !AnyMalformed(fields) <==>
      forall k :: 0 <= k < |fields| && fields[k].Timestamp? ==> ParseInt64(fields[k].text).Some?
  {
    if AnyMalformed(fields) {
      var k :| 0 <= k < |fields| && Malformed(fields[k]);
      assert fields[k].Timestamp?;
    } else {
      assert forall k :: 0 <= k < |fields| ==> !Malformed(fields[k]);
    }
  }

  // ---------------------------------------------------------------- what is printed and signed

  const DIGITS := "0123456789abcdef"

  /** Two lower-case hex digits for each byte, the high half first. */
  lemma {:induction false} HexAt(bytes: Bytes, i: nat)
    requires i < |bytes|
    ensures |Hex(bytes)| == 2 * |bytes|
    ensures Hex(bytes)[2 * i] == DIGITS[bytes[i] / 16] && Hex(bytes)[2 * i + 1] == DIGITS[bytes[i] % 16]
  {
    HexShape(bytes);
    DigitIs(bytes[i] / 16);
    DigitIs(bytes[i] % 16);
    if i > 0 {
      HexAt(bytes[1..], i - 1);
      assert Hex(bytes)[2 * i] == Hex(bytes[1..])[2 * (i - 1)];
    }
  }

  lemma DigitIs(n: nat)
    requires n < 16
    ensures HexDigit(n) == DIGITS[n]
  {
  }

  /** The signed message is the timestamp in decimal, a dot and the payload, and the header quotes both. */
  lemma SignedAndPrinted(hash: Hash, payload: Bytes, secret: string, n: int64)
    ensures |Message(n, payload)| == |Format(n)| + 1 + |payload|
    ensures forall k :: 0 <= k < |Format(n)| ==> Message(n, payload)[k] == Format(n)[k] as int
    ensures Message(n, payload)[|Format(n)|] == '.' as int && Message(n, payload)[|Format(n)| + 1..] == payload
    ensures ComputeSignature(hash, payload, secret, n) == "t=" + Format(n) + ",v1="
      + Hex(hash(secret, Message(n, payload)))
  {
    FormatAlphabet(n);
  }
}
