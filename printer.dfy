/**
  The per-record callback of the lookup tool: it expands the owner name of
  a resource record and then dispatches on the record's TYPE. Address
  records (A, AAAA) yield the address bytes, alias records (CNAME, PTR)
  yield a second expanded name, and every other type is passed over with
  success. The output formatting itself (`printf`, `inet_ntop`) is not part
  of this model: a call yields the value it would print.

  Domain-name expansion (`dn_expand`, with its handling of compression
  pointers) is a library call whose body is not part of this model; it is
  the parameter `expand`, which maps a message and an offset to the
  expanded name or to a failure.
 */
module Printer {
  import opened Bytes
  import opened Parser

  const TypeA: nat := 1
  const TypeCname: nat := 5
  const TypePtr: nat := 12
  const TypeAaaa: nat := 28

  datatype Family = Inet | Inet6
  datatype AliasKind = CanonicalName | PointerName

  /**
    The callback's entry for one record it accepts: an address line, an
    alias line, or `Unknown` for a record of any other type, which the code
    passes over without printing anything (`default: break;`). `Unknown`
    keeps the owner and the type so that such records stay distinguishable
    in the model; no text corresponds to it.
   */
  datatype Printed =
    | Address(owner: string, family: Family, addr: seq<uint8>)
    | AliasName(owner: string, kind: AliasKind, target: string)
    | Unknown(owner: string, rtype: nat)

  /** `dn_expand(msg, msg + |msg|, msg + offset, ...)`: the expanded name, or `None` on failure. */
  type Expander = (seq<uint8>, nat) -> Option<string>

  /** The number of address bytes `print_address` hands to `inet_ntop` for a family. */
  function Width(f: Family): (w: nat)
    ensures w == 4 || w == 16
  {
    match f
    case Inet => 4
    case Inet6 => 16
  }

  /** A and AAAA are address types, of families AF_INET and AF_INET6. */
  function FamilyOf(rtype: nat): (f: Option<Family>)
    ensures f == Some(Inet) <==> rtype == TypeA
    ensures f == Some(Inet6) <==> rtype == TypeAaaa
  {
    if rtype == TypeA then Some(Inet)
    else if rtype == TypeAaaa then Some(Inet6)
    else None
  }

  /** CNAME and PTR are alias types. */
  function KindOf(rtype: nat): (k: Option<AliasKind>)
    ensures k == Some(CanonicalName) <==> rtype == TypeCname
    ensures k == Some(PointerName) <==> rtype == TypePtr
  {
    if rtype == TypeCname then Some(CanonicalName)
    else if rtype == TypePtr then Some(PointerName)
    else None
  }

  // ---------------------------------------------------------------------------
  // The callback as written
  // ---------------------------------------------------------------------------

  /**
    The callback as written, for a record found in the first `rlen` bytes of
    the receive buffer `mem`. It dispatches on the low byte of TYPE only and
    reads 4 or 16 address bytes at RDATA whatever RDLENGTH says; those reads
    must stay inside the buffer. `None` is the return value -1.
   */
  function PrintAsWritten(mem: seq<uint8>, rlen: nat, rec: RecordRef, expand: Expander): (r: Option<Printed>)
    requires rlen <= |mem|
    requires FamilyOf(rec.rtype).Some? ==> rec.data + Width(FamilyOf(rec.rtype).value) <= |mem|
    ensures r.None? <==>
      expand(mem[..rlen], rec.owner).None?
      || (KindOf(rec.rtype).Some? && expand(mem[..rlen], rec.data).None?)
    ensures r.Some? ==> r.value.owner == expand(mem[..rlen], rec.owner).value
    ensures r.Some? ==> (r.value.Address? <==> FamilyOf(rec.rtype).Some?)
    ensures r.Some? ==> (r.value.AliasName? <==> KindOf(rec.rtype).Some?)
    ensures r.Some? && r.value.Address? ==>
      r.value.family == FamilyOf(rec.rtype).value
      && r.value.addr == mem[rec.data..rec.data + Width(r.value.family)]
    ensures r.Some? && r.value.AliasName? ==>
      r.value.kind == KindOf(rec.rtype).value && r.value.target == expand(mem[..rlen], rec.data).value
    ensures r.Some? && r.value.Unknown? ==> r.value.rtype == rec.rtype
  {
    var msg := mem[..rlen];
    match expand(msg, rec.owner)
    case None => None
    case Some(owner) =>
      if FamilyOf(rec.rtype).Some? then
        var f := FamilyOf(rec.rtype).value;
        Some(Address(owner, f, mem[rec.data..rec.data + Width(f)]))
      else if KindOf(rec.rtype).Some? then
        match expand(msg, rec.data)
        case None => None
        case Some(target) => Some(AliasName(owner, KindOf(rec.rtype).value, target))
      else
        Some(Unknown(owner, rec.rtype))
  }

  // ---------------------------------------------------------------------------
  // The corrected callback
  // ---------------------------------------------------------------------------

  /** The full 16-bit TYPE of a record, stored big-endian in the 2 bytes 10 and 9 before RDATA. */
  function TypeOf(msg: seq<uint8>, rec: RecordRef): (t: nat)
    requires 10 <= rec.data <= |msg|
    ensures t < 0x1_0000
    ensures t % 256 == msg[rec.data - 9]
  {
    BigEndian16(msg[rec.data - 10], msg[rec.data - 9])
  }

  /**
    The corrected callback, for a record whose RDATA lies inside the
    message: it dispatches on the full TYPE, and it refuses an address
    record whose RDLENGTH is not the address width instead of reading past
    the RDATA.
   */
  function Print(msg: seq<uint8>, rec: RecordRef, expand: Expander): (r: Option<Printed>)
    requires 10 <= rec.data && rec.data + rec.length <= |msg|
    ensures r.None? <==>
      expand(msg, rec.owner).None?
      || (FamilyOf(TypeOf(msg, rec)).Some? && rec.length != Width(FamilyOf(TypeOf(msg, rec)).value))
      || (KindOf(TypeOf(msg, rec)).Some? && expand(msg, rec.data).None?)
    ensures r.Some? ==> r.value.owner == expand(msg, rec.owner).value
    ensures r.Some? ==> (r.value.Address? <==> FamilyOf(TypeOf(msg, rec)).Some?)
    ensures r.Some? ==> (r.value.AliasName? <==> KindOf(TypeOf(msg, rec)).Some?)
    ensures r.Some? && r.value.Address? ==>
      r.value.family == FamilyOf(TypeOf(msg, rec)).value
      && r.value.addr == msg[rec.data..rec.data + rec.length]
      && |r.value.addr| == Width(r.value.family)
    ensures r.Some? && r.value.AliasName? ==>
      r.value.kind == KindOf(TypeOf(msg, rec)).value && r.value.target == expand(msg, rec.data).value
    ensures r.Some? && r.value.Unknown? ==> r.value.rtype == TypeOf(msg, rec)
  {
    var t := TypeOf(msg, rec);
    match expand(msg, rec.owner)
    case None => None
    case Some(owner) =>
      if FamilyOf(t).Some? then
        var f := FamilyOf(t).value;
        if rec.length == Width(f) then Some(Address(owner, f, msg[rec.data..rec.data + rec.length]))
        else None
      else if KindOf(t).Some? then
        match expand(msg, rec.data)
        case None => None
        case Some(target) => Some(AliasName(owner, KindOf(t).value, target))
      else
        Some(Unknown(owner, t))
  }

  /**
    On a record whose TYPE has a zero high byte and, for an address record,
    whose RDLENGTH is the address width, the corrected callback prints
    exactly what the code as written prints, from any receive buffer that
    starts with the message.
   */
  lemma PrintAgreesAsWritten(mem: seq<uint8>, msg: seq<uint8>, rec: RecordRef, expand: Expander)
    requires |msg| <= |mem| && mem[..|msg|] == msg
    requires 10 <= rec.data && rec.data + rec.length <= |msg|
    requires msg[rec.data - 10] == 0 && rec.rtype == msg[rec.data - 9]
    requires FamilyOf(rec.rtype).Some? ==> rec.length == Width(FamilyOf(rec.rtype).value)
    ensures PrintAsWritten(mem, |msg|, rec, expand) == Print(msg, rec, expand)
  {
    assert TypeOf(msg, rec) == rec.rtype;
    if FamilyOf(rec.rtype).Some? {
      var w := Width(FamilyOf(rec.rtype).value);
      forall i | rec.data <= i < rec.data + w
        ensures mem[i] == msg[i]
      {
        assert mem[..|msg|][i] == mem[i];
      }
      assert mem[rec.data..rec.data + w] == msg[rec.data..rec.data + w];
    }
  }
}
