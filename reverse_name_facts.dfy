/**
  What the reverse names say: the decimal labels read back to the octets,
  an `in-addr.arpa` name determines its IPv4 address, and an `ip6.arpa`
  name decodes back to its IPv6 address.
 */
module ReverseFacts {
  import opened Bytes
  import opened Reverse

  // ---------------------------------------------------------------------------
  // Decimal labels
  // ---------------------------------------------------------------------------

  function DigitValue(c: char): (d: nat)
    requires IsDigit(c)
    ensures d < 10
  {
    c as int - '0' as int
  }

  /** The value of a string of decimal digits. */
  function DecimalValue(s: string): (v: nat)
    requires forall k :: 0 <= k < |s| ==> IsDigit(s[k])
  {
    if |s| == 0 then 0 else DecimalValue(s[..|s| - 1]) * 10 + DigitValue(s[|s| - 1])
  }

  /** `%u` reads back to the number it printed, and prints no leading zero. */
  lemma {:induction false} DecimalRoundTrip(n: nat)
    ensures DecimalValue(Decimal(n)) == n
    ensures Decimal(n)[0] == '0' ==> n == 0
    decreases n
  {
    if n >= 10 {
      DecimalRoundTrip(n / 10);
      var s := Decimal(n);
      assert s[..|s| - 1] == Decimal(n / 10);
      assert s[0] == Decimal(n / 10)[0];
    }
  }

  /** The offset of the first dot in `t`, or `|t|` when there is none. */
  function FirstDot(t: string): (i: nat)
    ensures i <= |t|
  {
    if |t| == 0 || t[0] == '.' then 0 else 1 + FirstDot(t[1..])
  }

  /** After a run of digits, the first dot is the one that ends the run. */
  lemma {:induction false} FirstDotAfterDigits(s: string, r: string)
    requires forall k :: 0 <= k < |s| ==> IsDigit(s[k])
    ensures FirstDot(s + "." + r) == |s|
  {
    if |s| > 0 {
      assert (s + "." + r)[1..] == s[1..] + "." + r;
      FirstDotAfterDigits(s[1..], r);
    }
  }

  /**
    A decimal label followed by a dot is told apart from the rest of the
    name: the first dot ends it.
   */
  lemma OctetLabelPrefix(x: uint8, y: uint8, r1: string, r2: string)
    requires OctetLabel(x) + r1 == OctetLabel(y) + r2
    ensures x == y && r1 == r2
  {
    var s1, s2 := Decimal(x), Decimal(y);
    var t1, t2 := OctetLabel(x) + r1, OctetLabel(y) + r2;
    FirstDotAfterDigits(s1, r1);
    FirstDotAfterDigits(s2, r2);
    assert s1 + "." + r1 == t1 && s2 + "." + r2 == t2;
    assert s1 == t1[..|s1|] == t2[..|s2|] == s2;
    DecimalRoundTrip(x);
    DecimalRoundTrip(y);
    assert r1 == t1[|s1| + 1..] == t2[|s2| + 1..] == r2;
  }

  /** The `in-addr.arpa` name of a.b.c.d is `d.c.b.a.in-addr.arpa`, each octet in decimal. */
  lemma InAddrClosedForm(a: seq<uint8>)
    requires |a| == 4
    ensures InAddrName(a) == OctetLabel(a[3]) + OctetLabel(a[2]) + OctetLabel(a[1]) + OctetLabel(a[0]) + InAddrSuffix
  {
    var l3, l2, l1, l0 := OctetLabel(a[3]), OctetLabel(a[2]), OctetLabel(a[1]), OctetLabel(a[0]);
    assert OctetLabels(a, 1) == l3 by {
      assert OctetLabels(a, 1) == OctetLabels(a, 0) + l3;
    }
    assert OctetLabels(a, 2) == l3 + l2;
    assert OctetLabels(a, 3) == l3 + l2 + l1;
    assert OctetLabels(a, 4) == l3 + l2 + l1 + l0;
  }

  lemma Regroup(x3: string, x2: string, x1: string, x0: string, sfx: string)
    ensures x3 + x2 + x1 + x0 + sfx == x3 + (x2 + (x1 + (x0 + sfx)))
  {
  }

  /** Two IPv4 addresses with the same `in-addr.arpa` name are the same address. */
  lemma InAddrNameInjective(a: seq<uint8>, b: seq<uint8>)
    requires |a| == 4 && |b| == 4
    requires InAddrName(a) == InAddrName(b)
    ensures a == b
  {
    InAddrClosedForm(a);
    InAddrClosedForm(b);
    var sfx := InAddrSuffix;
    var a3, a2, a1, a0 := OctetLabel(a[3]), OctetLabel(a[2]), OctetLabel(a[1]), OctetLabel(a[0]);
    var b3, b2, b1, b0 := OctetLabel(b[3]), OctetLabel(b[2]), OctetLabel(b[1]), OctetLabel(b[0]);
    Regroup(a3, a2, a1, a0, sfx);
    Regroup(b3, b2, b1, b0, sfx);
    OctetLabelPrefix(a[3], b[3], a2 + (a1 + (a0 + sfx)), b2 + (b1 + (b0 + sfx)));
    OctetLabelPrefix(a[2], b[2], a1 + (a0 + sfx), b1 + (b0 + sfx));
    OctetLabelPrefix(a[1], b[1], a0 + sfx, b0 + sfx);
    OctetLabelPrefix(a[0], b[0], sfx, sfx);
  }

  lemma OctetLabelExamples()
    ensures OctetLabel(192) == "192." && OctetLabel(168) == "168." && OctetLabel(0) == "0." && OctetLabel(10) == "10."
  {
    assert Decimal(19) == "19" && Decimal(16) == "16" && Decimal(1) == "1";
  }

  /** The address 192.168.0.10 is looked up as `10.0.168.192.in-addr.arpa`. */
  lemma ReverseNameExampleV4()
    ensures ReverseName("192.168.0.10", Some([192, 168, 0, 10]), None) == "10.0.168.192.in-addr.arpa"
  {
    var a: seq<uint8> := [192, 168, 0, 10];
    InAddrClosedForm(a);
    OctetLabelExamples();
    assert InAddrName(a) == "10." + "0." + "168." + "192." + InAddrSuffix;
    ExampleV4Spelled();
  }

  lemma ExampleV4Spelled()
    ensures "10." + "0." + "168." + "192." + InAddrSuffix == "10.0.168.192.in-addr.arpa"
  {
  }

  // ---------------------------------------------------------------------------
  // Nibble labels
  // ---------------------------------------------------------------------------

  /** The value of a lowercase hexadecimal digit. */
  function HexValue(c: char): (v: Option<nat>)
    ensures v.Some? ==> v.value < 16
  {
    if '0' <= c <= '9' then Some(c as int - '0' as int)
    else if 'a' <= c <= 'f' then Some(c as int - 'a' as int + 10)
    else None
  }

  /** Reading a 4-character group `l.h.` back to the byte with low nibble `l` and high nibble `h`. */
  function ParseGroup(g: string): (b: Option<uint8>)
    requires |g| == 4
  {
    if g[1] == '.' && g[3] == '.' && HexValue(g[0]).Some? && HexValue(g[2]).Some? then
      Some(HexValue(g[2]).value * 16 + HexValue(g[0]).value)
    else
      None
  }

  /** The last `i` address bytes, read back from the first `i` groups of a nibble name. */
  function ParseGroups(s: string, i: nat): (a: Option<seq<uint8>>)
    requires 4 * i <= |s|
    ensures a.Some? ==> |a.value| == i
  {
    if i == 0 then Some([])
    else
      match ParseGroup(s[4 * (i - 1)..4 * i])
      case None => None
      case Some(b) =>
        match ParseGroups(s, i - 1)
        case None => None
        case Some(rest) => Some([b] + rest)
  }

  /** Reading an `ip6.arpa` name back to the 16 bytes of its address. */
  function ParseIp6Arpa(name: string): (a: Option<seq<uint8>>)
    ensures a.Some? ==> |a.value| == 16
  {
    if |name| == 4 * 16 + |Ip6Suffix| && name[4 * 16..] == Ip6Suffix then ParseGroups(name, 16) else None
  }

  lemma HexRoundTrip(d: nat)
    requires d < 16
    ensures HexValue(HexDigit(d)) == Some(d)
  {
  }

  /** Each byte's group sits at its place in the nibble labels, last byte first. */
  lemma {:induction false} NibbleLabelsAt(a: seq<uint8>, i: nat, j: nat)
    requires i <= |a| && j < i
    ensures NibbleLabels(a, i)[4 * j..4 * j + 4] == NibbleLabel(a[|a| - 1 - j])
    decreases i
  {
    if j < i - 1 {
      NibbleLabelsAt(a, i - 1, j);
      var s := NibbleLabels(a, i - 1);
      assert NibbleLabels(a, i)[4 * j..4 * j + 4] == s[4 * j..4 * j + 4];
    } else {
      var s, t := NibbleLabels(a, i - 1), NibbleLabel(a[|a| - i]);
      assert NibbleLabels(a, i) == s + t && |s| == 4 * j;
      assert (s + t)[4 * j..4 * j + 4] == t;
    }
  }

  /** Every group reads back to its byte. */
  lemma NibbleLabelRoundTrip(b: uint8)
    ensures ParseGroup(NibbleLabel(b)) == Some(b)
  {
    HexRoundTrip(b % 16);
    HexRoundTrip(b / 16);
  }

  lemma {:induction false} ParseGroupsRoundTrip(a: seq<uint8>, s: string, i: nat)
    requires |a| == 16 && i <= 16 && |s| >= 64 && s[..64] == NibbleLabels(a, 16)
    ensures ParseGroups(s, i) == Some(a[16 - i..])
    decreases i
  {
    if i > 0 {
      var j := i - 1;
      ParseGroupsRoundTrip(a, s, j);
      NibbleLabelsAt(a, 16, j);
      assert 4 * i == 4 * j + 4;
      forall k | 0 <= k < 4
        ensures s[4 * j..4 * i][k] == NibbleLabels(a, 16)[4 * j..4 * j + 4][k]
      {
        assert s[4 * j + k] == s[..64][4 * j + k];
      }
      assert s[4 * j..4 * i] == NibbleLabels(a, 16)[4 * j..4 * j + 4];
      NibbleLabelRoundTrip(a[15 - j]);
      assert ParseGroup(s[4 * j..4 * i]) == Some(a[15 - j]);
      assert a[16 - i..] == [a[15 - j]] + a[16 - j..];
    } else {
      assert a[16..] == [];
    }
  }

  /** An `ip6.arpa` name reads back to the IPv6 address it was built from. */
  lemma Ip6ArpaRoundTrip(a: seq<uint8>)
    requires |a| == 16
    ensures ParseIp6Arpa(Ip6ArpaName(a)) == Some(a)
  {
    var s := Ip6ArpaName(a);
    assert s[..64] == NibbleLabels(a, 16);
    assert s[64..] == Ip6Suffix;
    ParseGroupsRoundTrip(a, s, 16);
    assert a[0..] == a;
  }

  /** Two IPv6 addresses with the same `ip6.arpa` name are the same address. */
  lemma Ip6ArpaNameInjective(a: seq<uint8>, b: seq<uint8>)
    requires |a| == 16 && |b| == 16
    requires Ip6ArpaName(a) == Ip6ArpaName(b)
    ensures a == b
  {
    Ip6ArpaRoundTrip(a);
    Ip6ArpaRoundTrip(b);
  }
}
