/**
  Reverse-lookup name construction. An IPv4 address a.b.c.d becomes
  `d.c.b.a.in-addr.arpa` (section 3.5 of RFC 1035), an IPv6 address becomes
  its 32 nibbles in reverse order, each in lowercase hexadecimal followed
  by a dot, then `ip6.arpa` (section 2.5 of RFC 3596). The name is written
  into a caller's buffer of at least `MaxRevLen` characters, the longest
  name plus its terminating NUL.

  Address parsing (`inet_pton`) is a library call whose body is not part of
  this model: its outcome for the text, the 4 or the 16 address bytes in
  network order or nothing, is a parameter.
 */
module Reverse {
  import opened Bytes

  /** The size of the caller's buffer: 72 characters of an `ip6.arpa` name and a NUL. */
  const MaxRevLen: nat := 73

  const InAddrSuffix: string := "in-addr.arpa"
  const Ip6Suffix: string := "ip6.arpa"

  predicate IsDigit(c: char) {
    '0' <= c <= '9'
  }

  function DigitChar(d: nat): (c: char)
    requires d < 10
    ensures IsDigit(c) && c as int - '0' as int == d
  {
    (d + '0' as int) as char
  }

  /** `%x` of a value below 16: a lowercase hexadecimal digit. */
  function HexDigit(d: nat): (c: char)
    requires d < 16
    ensures d < 10 ==> c == DigitChar(d)
    ensures d >= 10 ==> c as int - 'a' as int == d - 10
  {
    if d < 10 then DigitChar(d) else (d - 10 + 'a' as int) as char
  }

  /** `%u`: the decimal digits of `n`, without leading zeros. */
  function Decimal(n: nat): (s: string)
    ensures 1 <= |s|
    ensures n < 10 ==> |s| == 1
    ensures n < 100 ==> |s| <= 2
    ensures n < 1000 ==> |s| <= 3
    ensures n >= 10 ==> |s| >= 2
    ensures forall k :: 0 <= k < |s| ==> IsDigit(s[k])
    decreases n
  {
    if n < 10 then [DigitChar(n)] else Decimal(n / 10) + [DigitChar(n % 10)]
  }

  /** One label of an `in-addr.arpa` name: an octet in decimal and a dot. */
  function OctetLabel(b: uint8): (s: string)
    ensures 2 <= |s| <= 4 && s[|s| - 1] == '.'
  {
    Decimal(b) + "."
  }

  /** The labels for the last `i` bytes of `a`, last byte first. */
  function OctetLabels(a: seq<uint8>, i: nat): (s: string)
    requires i <= |a|
    ensures 2 * i <= |s| <= 4 * i
  {
    if i == 0 then "" else OctetLabels(a, i - 1) + OctetLabel(a[|a| - i])
  }

  /** Two labels of an `ip6.arpa` name: the low nibble, a dot, the high nibble, a dot. */
  function NibbleLabel(b: uint8): (s: string)
    ensures |s| == 4
  {
    [HexDigit(b % 16), '.', HexDigit(b / 16), '.']
  }

  /** The nibble labels for the last `i` bytes of `a`, last byte first. */
  function NibbleLabels(a: seq<uint8>, i: nat): (s: string)
    requires i <= |a|
    ensures |s| == 4 * i
  {
    if i == 0 then "" else NibbleLabels(a, i - 1) + NibbleLabel(a[|a| - i])
  }

  function InAddrName(a: seq<uint8>): (s: string)
    requires |a| == 4
    ensures 20 <= |s| <= 28 && s[|s| - |InAddrSuffix|..] == InAddrSuffix
  {
    OctetLabels(a, 4) + InAddrSuffix
  }

  function Ip6ArpaName(a: seq<uint8>): (s: string)
    requires |a| == 16
    ensures |s| == MaxRevLen - 1 && s[4 * 16..] == Ip6Suffix
  {
    NibbleLabels(a, 16) + Ip6Suffix
  }

  /** What `inet_pton` made of the text: the address bytes in network order, or nothing. */
  predicate Parsed(v4: Option<seq<uint8>>, v6: Option<seq<uint8>>) {
    (v4.Some? ==> |v4.value| == 4) && (v6.Some? ==> |v6.value| == 16)
  }

  /**
    The name to look up for the text `addr`: the reverse name of an IPv4
    address, else of an IPv6 address, else `addr` itself.
   */
  function ReverseName(addr: string, v4: Option<seq<uint8>>, v6: Option<seq<uint8>>): (name: string)
    requires Parsed(v4, v6)
    ensures v4.None? && v6.None? ==> name == addr
    ensures v4.Some? ==> 20 <= |name| <= 28
    ensures v4.None? && v6.Some? ==> |name| == MaxRevLen - 1
  {
    if v4.Some? then InAddrName(v4.value)
    else if v6.Some? then Ip6ArpaName(v6.value)
    else addr
  }

  // ---------------------------------------------------------------------------
  // Writing into the caller's buffer
  // ---------------------------------------------------------------------------

  /**
    `snprintf(buf + p, size, "%s", s)`: writes as much of `s` as fits in
    `size - 1` characters and a NUL, and returns the length of `s`.
   */
  method Snprintf(buf: array<char>, p: nat, size: nat, s: string) returns (l: int)
    requires 0 < size && p + size <= buf.Length
    modifies buf
    ensures l == |s|
    ensures var n := if |s| < size then |s| else size - 1;
      buf[..p] == old(buf[..p]) && buf[p..p + n] == s[..n] && buf[p + n] == '\0'
      && buf[p + n + 1..] == old(buf[p + n + 1..])
  {
    var n := if |s| < size then |s| else size - 1;
    var k := 0;
    while k < n
      invariant 0 <= k <= n
      invariant forall j :: 0 <= j < p ==> buf[j] == old(buf[j])
      invariant forall j :: p <= j < p + k ==> buf[j] == s[j - p]
      invariant forall j :: p + k <= j < buf.Length ==> buf[j] == old(buf[j])
    {
      buf[p + k] := s[k];
      k := k + 1;
    }
    buf[p + n] := '\0';
    assert buf[p..p + n] == s[..n] by {
      forall j | 0 <= j < n
        ensures buf[p..p + n][j] == s[..n][j]
      {
        assert buf[p + j] == s[j];
      }
    }
    l := |s|;
  }

  /** `strncpy(buf + p, s, n)`: copies `s` and fills the rest of the `n` characters with NUL. */
  method Strncpy(buf: array<char>, p: nat, s: string, n: nat)
    requires p + n <= buf.Length
    modifies buf
    ensures var m := if |s| < n then |s| else n;
      buf[..p] == old(buf[..p]) && buf[p..p + m] == s[..m]
      && (forall j :: p + m <= j < p + n ==> buf[j] == '\0')
      && buf[p + n..] == old(buf[p + n..])
  {
    var k := 0;
    while k < n
      invariant 0 <= k <= n
      invariant forall j :: 0 <= j < p ==> buf[j] == old(buf[j])
      invariant forall j :: p <= j < p + k ==> buf[j] == (if j - p < |s| then s[j - p] else '\0')
      invariant forall j :: p + k <= j < buf.Length ==> buf[j] == old(buf[j])
    {
      buf[p + k] := if k < |s| then s[k] else '\0';
      k := k + 1;
    }
    var m := if |s| < n then |s| else n;
    assert buf[p..p + m] == s[..m] by {
      forall j | 0 <= j < m
        ensures buf[p..p + m][j] == s[..m][j]
      {
        assert buf[p + j] == s[j];
      }
    }
  }

  /** Two pieces written one after the other read back as their concatenation. */
  lemma Joined(x: seq<char>, p: nat, l: nat, pre: string, s: string)
    requires p + l <= |x| && x[..p] == pre && x[p..p + l] == s
    ensures x[..p + l] == pre + s
  {
    assert x[..p + l] == x[..p] + x[p..p + l];
  }

  /**
    One `snprintf` of a loop of `reverse_lookup`, at `p` with `len`
    characters left up to the end of the buffer: the piece fits, so `l` is
    below `len` and the truncation fallback is not taken, and the buffer
    now starts with what was written before followed by the piece.
   */
  method Append(buf: array<char>, p: nat, len: nat, written: string, piece: string) returns (l: int)
    requires p + len == buf.Length && |piece| < len && buf[..p] == written
    modifies buf
    ensures 0 <= l < len && l == |piece| && buf[..p + l] == written + piece
  {
    l := Snprintf(buf, p, len, piece);
    Joined(buf[..], p, l, written, piece);
  }

  /**
    The closing `strncpy` of `reverse_lookup`: the suffix fits in the `len`
    characters left, so the buffer holds what was written before, then the
    suffix, then NULs to its end.
   */
  method Finish(buf: array<char>, p: nat, len: nat, written: string, suffix: string)
    requires p + len == buf.Length && |suffix| < len && buf[..p] == written
    modifies buf
    ensures buf[..p + |suffix|] == written + suffix
    ensures forall k :: p + |suffix| <= k < buf.Length ==> buf[k] == '\0'
  {
    Strncpy(buf, p, suffix, len);
    Joined(buf[..], p, |suffix|, written, suffix);
  }

  /**
    The IPv4 branch of `reverse_lookup`: four `"%u."` labels, last octet
    first, then `in-addr.arpa` copied with `strncpy` into what is left.
   */
  method WriteInAddr(a: seq<uint8>, buf: array<char>)
    requires |a| == 4 && buf.Length >= MaxRevLen
    modifies buf
    ensures buf[..|InAddrName(a)|] == InAddrName(a)
    ensures forall k :: |InAddrName(a)| <= k < buf.Length ==> buf[k] == '\0'
  {
    var p, len := 0, buf.Length;
    var i := 0;
    while i < 4
      invariant 0 <= i <= 4 && p + len == buf.Length
      invariant p == |OctetLabels(a, i)| <= 4 * i && buf[..p] == OctetLabels(a, i)
    {
      var l := Append(buf, p, len, OctetLabels(a, i), OctetLabel(a[3 - i]));
      assert OctetLabels(a, i + 1) == OctetLabels(a, i) + OctetLabel(a[3 - i]);
      p, len := p + l, len - l;
      i := i + 1;
    }
    Finish(buf, p, len, OctetLabels(a, 4), InAddrSuffix);
  }

  /**
    The IPv6 branch of `reverse_lookup`: sixteen `"%x.%x."` pairs, last byte
    first and low nibble first, then `ip6.arpa` copied with `strncpy`.
   */
  method WriteIp6Arpa(a: seq<uint8>, buf: array<char>)
    requires |a| == 16 && buf.Length >= MaxRevLen
    modifies buf
    ensures buf[..|Ip6ArpaName(a)|] == Ip6ArpaName(a)
    ensures forall k :: |Ip6ArpaName(a)| <= k < buf.Length ==> buf[k] == '\0'
  {
    var p, len := 0, buf.Length;
    var i := 0;
    while i < 16
      invariant 0 <= i <= 16 && p + len == buf.Length
      invariant p == 4 * i && buf[..p] == NibbleLabels(a, i)
    {
      var l := Append(buf, p, len, NibbleLabels(a, i), NibbleLabel(a[15 - i]));
      p, len := p + l, len - l;
      i := i + 1;
    }
    Finish(buf, p, len, NibbleLabels(a, 16), Ip6Suffix);
  }

  /**
    `reverse_lookup(addr, buf, buf.Length)`. Returns the NUL-terminated
    string at the returned pointer: the reverse name written into `buf`, or
    `addr` when neither parse succeeds (then `buf` is left alone). The
    truncation fallbacks of the source (a label that does not fit, or fewer
    than 13 or 9 characters left for the suffix) cannot fire in a buffer of
    `MaxRevLen` characters: the preconditions of `Append` (`|piece| < len`)
    and `Finish` (`|suffix| < len`), established by the loop invariants of
    `WriteInAddr` and `WriteIp6Arpa`, prove it.
   */
  method ReverseLookup(addr: string, v4: Option<seq<uint8>>, v6: Option<seq<uint8>>, buf: array<char>)
    returns (name: string)
    requires buf.Length >= MaxRevLen && Parsed(v4, v6)
    modifies buf
    ensures name == ReverseName(addr, v4, v6)
    ensures v4.Some? || v6.Some? ==>
      buf[..|name|] == name && forall k :: |name| <= k < buf.Length ==> buf[k] == '\0'
    ensures v4.None? && v6.None? ==> buf[..] == old(buf[..])
  {
    if v4.Some? {
      WriteInAddr(v4.value, buf);
      name := InAddrName(v4.value);
    } else if v6.Some? {
      WriteIp6Arpa(v6.value, buf);
      name := Ip6ArpaName(v6.value);
    } else {
      name := addr;
    }
  }
}
