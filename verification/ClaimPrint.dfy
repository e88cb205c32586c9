/**
  Claims as their owners write them, from a name, an address and three digests of 32 bytes. Every well-formed claim is
  admitted, by the producer and by the guard, and nothing else is.
*/
module ClaimPrint {
  import opened Text
  import opened Bytes
  import opened Claims
  import opened Materializer

  // ---------- numerals and addresses

  /** A numeral without a leading zero is the decimal text of its value. */
  lemma {:induction false} NumeralIsCanonical(s: string)
    requires s != "" && AllDigits(s) && (|s| > 1 ==> s[0] != '0')
    ensures Decimal(ValueOf(s)) == s
  {
    var n := |s| - 1;
    if n == 0 {
      assert s[..0] == "";
    } else {
      var front := s[..n];
      NumeralIsCanonical(front);
      DecimalReadsBack(ValueOf(front));
      assert ValueOf(front) > 0;
      assert s == front + [s[n]];
    }
  }

  lemma OctetsAreSmallNumbers(n: nat)
    ensures IsOctet(Decimal(n)) <==> n < 256
    ensures '.' !in Decimal(n)
  {
    DecimalReadsBack(n);
    if n < 256 {
      assert Pow10(3) == 1000;
      DecimalLength(n, 3);
    }
  }

  /** The dotted text of four numbers. */
  function AddressText(a: nat, b: nat, c: nat, d: nat): string {
    Decimal(a) + "." + Decimal(b) + "." + Decimal(c) + "." + Decimal(d)
  }

  lemma JoinFour(a: string, b: string, c: string, d: string, separator: char)
    ensures Join([a, b, c, d], separator) == a + [separator] + b + [separator] + c + [separator] + d
  {
    var four, three, two, one := [a, b, c, d], [b, c, d], [c, d], [d];
    assert four[1..] == three && three[1..] == two && two[1..] == one;
    assert Join(one, separator) == d;
    assert Join(two, separator) == c + [separator] + d;
    assert Join(three, separator) == b + [separator] + (c + [separator] + d);
    assert Join(four, separator) == a + [separator] + (b + [separator] + (c + [separator] + d));
  }

  lemma AddressSplits(a: nat, b: nat, c: nat, d: nat)
    ensures Split(AddressText(a, b, c, d), '.') == [Decimal(a), Decimal(b), Decimal(c), Decimal(d)]
  {
    hide Split, Decimal;
    var parts := [Decimal(a), Decimal(b), Decimal(c), Decimal(d)];
    OctetsAreSmallNumbers(a);
    OctetsAreSmallNumbers(b);
    OctetsAreSmallNumbers(c);
    OctetsAreSmallNumbers(d);
    SplitAfterJoin(parts, '.');
    JoinFour(Decimal(a), Decimal(b), Decimal(c), Decimal(d), '.');
  }

  /** Of all dotted texts, exactly those of the overlay network 10.42.0.0/17 are admitted. */
  lemma OverlayAddresses(a: nat, b: nat, c: nat, d: nat)
    ensures IsOverlayAddress(AddressText(a, b, c, d)) <==> a == 10 && b == 42 && c < 128 && d < 256
  {
    hide Split, Decimal, IsOctet, AddressText;
    AddressSplits(a, b, c, d);
    var parts := Split(AddressText(a, b, c, d), '.');
    assert parts[0] == Decimal(a) && parts[1] == Decimal(b) && parts[2] == Decimal(c) && parts[3] == Decimal(d);
    OctetsAreSmallNumbers(a);
    OctetsAreSmallNumbers(b);
    OctetsAreSmallNumbers(c);
    OctetsAreSmallNumbers(d);
    DecimalReadsBack(a);
    DecimalReadsBack(b);
    DecimalReadsBack(c);
    DecimalReadsBack(d);
  }

  /** And no text of another form is: an admitted address is such a dotted text. */
  lemma AdmittedAddressIsDotted(s: string) returns (c: nat, d: nat)
    requires IsOverlayAddress(s)
    ensures c < 128 && d < 256 && s == AddressText(10, 42, c, d)
  {
    hide Split, Decimal;
    var parts := Split(s, '.');
    forall i | 0 <= i < 4 ensures parts[i] == Decimal(ValueOf(parts[i])) {
      NumeralIsCanonical(parts[i]);
    }
    c, d := ValueOf(parts[2]), ValueOf(parts[3]);
    JoinAfterSplit(s, '.');
    assert parts[1..][1..] == parts[2..] && parts[2..][1..] == [parts[3]];
    assert Join(parts[2..], '.') == parts[2] + ['.'] + parts[3];
    assert Join(parts[1..], '.') == parts[1] + ['.'] + Join(parts[2..], '.');
    assert s == parts[0] + ['.'] + Join(parts[1..], '.');
  }

  // ---------- digests

  function HexDigit(n: nat): char
    requires n < 16
  {
    if n < 10 then ('0' as int + n) as char else ('a' as int + n - 10) as char
  }

  function HexValue(c: char): (n: nat)
    requires IsHexDigit(c)
    ensures n < 16 && HexDigit(n) == c
  {
    if IsDigit(c) then c as int - '0' as int else c as int - 'a' as int + 10
  }

  /** Two lower-case digits for each byte. */
  function Hex(b: Data): (s: string)
    ensures |s| == 2 * |b|
  {
    if b == [] then "" else [HexDigit(b[0] as int / 16), HexDigit(b[0] as int % 16)] + Hex(b[1..])
  }

  lemma {:induction false} HexAt(b: Data, k: nat)
    requires k < |b|
    ensures Hex(b)[2 * k] == HexDigit(b[k] as int / 16) && Hex(b)[2 * k + 1] == HexDigit(b[k] as int % 16)
    decreases k
  {
    if k == 0 {
    } else {
      HexAt(b[1..], k - 1);
      assert Hex(b)[2 * k] == Hex(b[1..])[2 * (k - 1)] && Hex(b)[2 * k + 1] == Hex(b[1..])[2 * (k - 1) + 1];
    }
  }

  lemma HexTellsApart(a: Data, b: Data)
    ensures Hex(a) == Hex(b) <==> a == b
  {
    if Hex(a) == Hex(b) {
      forall k | 0 <= k < |a| ensures a[k] == b[k] {
        HexAt(a, k);
        HexAt(b, k);
      }
    }
  }

  predicate IsDigest(b: Data) {
    |b| == 32 && exists k :: 0 <= k < |b| && b[k] != 0
  }

  /** The digest texts are exactly the hexadecimal texts of 32 bytes that are not all zero. */
  lemma DigestTexts(b: Data)
    ensures IsDigestText(Hex(b)) <==> IsDigest(b)
    ensures '/' !in Hex(b)
  {
    hide Hex;
    var s := Hex(b);
    forall i | 0 <= i < |s| ensures IsHexDigit(s[i]) {
      HexAt(b, i / 2);
    }
    if k :| 0 <= k < |b| && b[k] != 0 {
      HexAt(b, k);
      assert s[2 * k] != '0' || s[2 * k + 1] != '0';
    }
    if i :| 0 <= i < |s| && s[i] != '0' {
      HexAt(b, i / 2);
      assert b[i / 2] != 0;
    }
  }

  lemma {:induction false} DigestIsPrinted(s: string) returns (b: Data)
    requires |s| % 2 == 0 && forall i :: 0 <= i < |s| ==> IsHexDigit(s[i])
    ensures Hex(b) == s
  {
    if s == "" {
      b := [];
    } else {
      var rest := DigestIsPrinted(s[2..]);
      var first := (16 * HexValue(s[0]) + HexValue(s[1])) as byte;
      b := [first] + rest;
      assert b[1..] == rest && s == [s[0], s[1]] + s[2..];
    }
  }

  // ---------- owners

  predicate Alphanumeric(c: char) {
    'a' <= c <= 'z' || 'A' <= c <= 'Z' || '0' <= c <= '9'
  }

  /** A name of 1 to 128 characters, the first of them a letter or a digit. */
  predicate IsName(name: string) {
    && 1 <= |name| <= 128 && Alphanumeric(name[0])
    && forall c <- name :: Alphanumeric(c) || c in "._-"
  }

  lemma NodeIds(s: string)
    ensures IsNodeId(s) <==> exists name :: IsName(name) && s == "peer:" + name
  {
    if IsNodeId(s) {
      assert s == "peer:" + s[5..] && IsName(s[5..]);
    }
    if name :| IsName(name) && s == "peer:" + name {
      forall i | 5 <= i < |s| ensures IsNodeChar(s[i]) {
        assert s[i] == name[i - 5] && name[i - 5] in name;
      }
      assert s[5] == name[0];
    }
  }

  /** Who claims what: a name, the last two numbers of an address, and the digests of certificate, machine and boot. */
  datatype Owner = Owner(name: string, third: nat, fourth: nat, fingerprint: Data, machine: Data, boot: Data)

  predicate GoodOwner(o: Owner) {
    && IsName(o.name) && o.third < 128 && o.fourth < 256
    && IsDigest(o.fingerprint) && IsDigest(o.machine) && IsDigest(o.boot) && o.machine != o.boot
  }

  function ClaimOf(o: Owner): Claim {
    Claim("peer:" + o.name, AddressText(10, 42, o.third, o.fourth), Hex(o.fingerprint), Hex(o.machine), Hex(o.boot))
  }

  function RecordOf(o: Owner): ClaimRecord {
    var c := ClaimOf(o);
    ClaimRecord(Int(1), Text(c.node), Text(c.node), Text(c.address), Text(c.fingerprint), Text(c.machine), Text(c.boot))
  }

  function KeyOf(o: Owner): string {
    ClaimKey(Hex(o.fingerprint), Hex(o.machine), Hex(o.boot))
  }

  /** The key and the record of a good owner, with any spelling of version 1, are admitted as its claim. */
  lemma OwnerIsAdmitted(o: Owner, version: Scalar)
    requires GoodOwner(o) && EqualsInt(version, 1)
    ensures var components := [Hex(o.fingerprint), Hex(o.machine), Hex(o.boot)];
      && KeyComponents(KeyOf(o)) == Ok(components)
      && AdmitRecord(components, RecordOf(o).(schemaVersion := version)) == Ok(ClaimOf(o))
  {
    hide IsNodeId, IsName, IsOverlayAddress, IsDigestText, IsDigest, Hex, KeyComponents, AddressText, ClaimKey;
    NodeIds("peer:" + o.name);
    OverlayAddresses(10, 42, o.third, o.fourth);
    DigestTexts(o.fingerprint);
    DigestTexts(o.machine);
    DigestTexts(o.boot);
    HexTellsApart(o.machine, o.boot);
    TripleHasItsKey(Hex(o.fingerprint), Hex(o.machine), Hex(o.boot));
  }

  /** And there is no other way: whatever is admitted under a key is the printed claim of a good owner. */
  lemma AdmittedRecordHasAnOwner(key: string, c: ClaimRecord) returns (o: Owner)
    requires KeyComponents(key).Ok? && |KeyComponents(key).value| == 3
    requires AdmitRecord(KeyComponents(key).value, c).Ok?
    ensures GoodOwner(o) && key == KeyOf(o) && EqualsInt(c.schemaVersion, 1)
    ensures c == RecordOf(o).(schemaVersion := c.schemaVersion)
    ensures AdmitRecord(KeyComponents(key).value, c) == Ok(ClaimOf(o))
  {
    hide IsNodeId, IsName, IsOverlayAddress, IsDigest, Hex, AddressText, ClaimKey;
    var t := KeyComponents(key).value;
    KeyIsItsTriple(key);
    NodeIds(c.nodeId.s);
    var name :| IsName(name) && c.nodeId.s == "peer:" + name;
    var third, fourth := AdmittedAddressIsDotted(c.address.s);
    var fingerprint := DigestIsPrinted(t[0]);
    var machine := DigestIsPrinted(t[1]);
    var boot := DigestIsPrinted(t[2]);
    DigestTexts(fingerprint);
    DigestTexts(machine);
    DigestTexts(boot);
    o := Owner(name, third, fourth, fingerprint, machine, boot);
  }
}
