/** Generated MAC addresses and their text form. */
module Mac {
  import opened Text

  type Octets = seq<bv8>

  function HexChar(n: bv8): (c: char)
    requires n < 16
    ensures c != ':' && LowerChar(c) == c
  {
    if n == 0 then '0' else if n == 1 then '1' else if n == 2 then '2' else if n == 3 then '3'
    else if n == 4 then '4' else if n == 5 then '5' else if n == 6 then '6' else if n == 7 then '7'
    else if n == 8 then '8' else if n == 9 then '9' else if n == 10 then 'a' else if n == 11 then 'b'
    else if n == 12 then 'c' else if n == 13 then 'd' else if n == 14 then 'e' else 'f'
  }

  /** f"{value:02x}" */
  function HexText(value: bv8): string {
    [HexChar(value >> 4), HexChar(value & 0xF)]
  }

  function HexTexts(octets: Octets): (texts: seq<string>)
    ensures |texts| == |octets|
    ensures forall i :: 0 <= i < |octets| ==> texts[i] == HexText(octets[i])
  {
    seq(|octets|, i requires 0 <= i < |octets| => HexText(octets[i]))
  }

  function MacText(octets: Octets): string {
    Join(HexTexts(octets), ":")
  }

  /** The first random octet with the local bit set and the group bit cleared. */
  function FirstOctet(random: bv8): bv8 {
    (random | 0x02) & 0xFE
  }

  /** _generate_mac on six random octets. */
  function GeneratedMac(random: Octets): string
    requires |random| == 6
  {
    MacText([FirstOctet(random[0])] + random[1..])
  }

  /** Section 2.1 of RFC 7042: bit 0 of the first octet marks group, bit 1 marks local addresses. */
  predicate UnicastLocal(octets: Octets) {
    |octets| == 6 && octets[0] & 0x01 == 0 && octets[0] & 0x02 == 0x02
  }

  lemma HexCharInjective(a: bv8, b: bv8)
    requires a < 16 && b < 16 && HexChar(a) == HexChar(b)
    ensures a == b
  {
  }

  lemma HexTextInjective(a: bv8, b: bv8)
    requires HexText(a) == HexText(b)
    ensures a == b
  {
    var ta, tb := HexText(a), HexText(b);
    assert ta[0] == tb[0] && ta[1] == tb[1];
    HexCharInjective(a >> 4, b >> 4);
    HexCharInjective(a & 0xF, b & 0xF);
    assert a == ((a >> 4) << 4) | (a & 0xF);
    assert b == ((b >> 4) << 4) | (b & 0xF);
  }

  /** Distinct octet sequences have distinct texts. */
  lemma MacTextInjective(a: Octets, b: Octets)
    requires a != [] && b != [] && MacText(a) == MacText(b)
    ensures a == b
  {
    SplitJoin(HexTexts(a), ':');
    SplitJoin(HexTexts(b), ':');
    forall i | 0 <= i < |a| ensures a[i] == b[i] {
      HexTextInjective(a[i], b[i]);
    }
  }

  lemma {:induction false} MacTextShape(octets: Octets)
    requires octets != []
    ensures |MacText(octets)| == 3 * |octets| - 1
    ensures forall c :: c in MacText(octets) ==> LowerChar(c) == c
  {
    var texts := HexTexts(octets);
    if |octets| > 1 {
      MacTextShape(octets[1..]);
      assert texts[1..] == HexTexts(octets[1..]);
      assert MacText(octets) == texts[0] + ":" + MacText(octets[1..]);
    }
  }

  lemma LowerKeeps(s: string)
    requires forall c :: c in s ==> LowerChar(c) == c
    ensures Lower(s) == s
  {
  }

  /** Generated addresses are exactly the texts of unicast, locally administered ones: 17 characters, lower case. */
  lemma GeneratedMacs(octets: Octets)
    requires |octets| == 6
    ensures UnicastLocal(octets) <==> exists random: Octets :: |random| == 6 && GeneratedMac(random) == MacText(octets)
    ensures |MacText(octets)| == 17 && Lower(MacText(octets)) == MacText(octets)
  {
    MacTextShape(octets);
    LowerKeeps(MacText(octets));
    if UnicastLocal(octets) {
      assert FirstOctet(octets[0]) == octets[0];
      assert [FirstOctet(octets[0])] + octets[1..] == octets;
      assert GeneratedMac(octets) == MacText(octets);
    }
    forall random: Octets | |random| == 6 && GeneratedMac(random) == MacText(octets)
      ensures UnicastLocal(octets)
    {
      MacTextInjective([FirstOctet(random[0])] + random[1..], octets);
    }
  }

  // ----- reading the texts as hexadecimal

  /** A digit's position in the alphabet of hexadecimal. */
  function ReadDigit(c: char): int {
    if '0' <= c <= '9' then c as int - '0' as int
    else if 'a' <= c <= 'f' then 10 + (c as int - 'a' as int)
    else -1
  }

  /** Two digits, the more significant one first. */
  function ReadOctet(text: string): int
    requires |text| == 2
  {
    16 * ReadDigit(text[0]) + ReadDigit(text[1])
  }

  /** text is octets in two hexadecimal digits each, separated by colons. */
  predicate Denotes(text: string, octets: Octets) {
    var parts := Split(text, ':');
    && |parts| == |octets|
    && forall i :: 0 <= i < |octets| ==> |parts[i]| == 2 && ReadOctet(parts[i]) == octets[i] as int
  }

  lemma ReadHexChar(n: bv8)
    requires n < 16
    ensures ReadDigit(HexChar(n)) == n as int
  {
  }

  lemma Nibbles(value: bv8)
    ensures 16 * ((value >> 4) as int) + (value & 0xF) as int == value as int
  {
  }

  /** Reading the text of an address gives its octets back. */
  lemma MacReadBack(octets: Octets)
    requires octets != []
    ensures Denotes(MacText(octets), octets)
  {
    SplitJoin(HexTexts(octets), ':');
    forall i | 0 <= i < |octets| ensures ReadOctet(HexText(octets[i])) == octets[i] as int {
      ReadHexChar(octets[i] >> 4);
      ReadHexChar(octets[i] & 0xF);
      Nibbles(octets[i]);
    }
  }

  /** A generated text denotes a unicast, locally administered address that keeps all other random bits. */
  lemma GeneratedReadBack(random: Octets) returns (octets: Octets)
    requires |random| == 6
    ensures Denotes(GeneratedMac(random), octets) && UnicastLocal(octets)
    ensures octets[0] & 0xFC == random[0] & 0xFC && octets[1..] == random[1..]
  {
    octets := [FirstOctet(random[0])] + random[1..];
    MacReadBack(octets);
  }
}
