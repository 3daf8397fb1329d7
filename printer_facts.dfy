/**
  Two responses on which the callback as written prints something other
  than what the answer record holds, although the walker hands it the
  record: an A record whose RDATA is empty, and a record whose TYPE is not
  A but has 1 as its low byte (TYPE 257, CAA).
 */
module PrinterFacts {
  import opened Bytes
  import opened Parser
  import opened ParserFacts
  import opened Printer

  /**
    A 27-byte receive buffer: a response with no question and one answer
    with a root owner name, TYPE A, CLASS IN, TTL 60 and RDLENGTH 0 at
    offsets 12..22, followed by stale bytes 93.184.216.34 from an earlier
    datagram. The response itself is the first 23 bytes.
   */
  function EmptyAddressBuffer(): (m: seq<uint8>)
    ensures |m| == 27
  {
    [0x12, 0x34, 0x81, 0x80, 0, 0, 0, 1, 0, 0, 0, 0,
     0, 0, 1, 0, 1, 0, 0, 0, 60, 0, 0,
     93, 184, 216, 34]
  }

  /** The walker accepts the 23-byte response and delivers its A record with empty RDATA. */
  lemma EmptyAddressWalked(accept: Callback)
    requires accept(RecordRef(1, 12, 23, 0))
    ensures Walk(EmptyAddressBuffer()[..23], accept) == Outcome(Accepted, [RecordRef(1, 12, 23, 0)])
  {
    var msg := EmptyAddressBuffer()[..23];
    assert Rcode(msg) == 0 && QdCount(msg) == 0 && AnCount(msg) == 1;
    assert msg[12] == 0 && msg[14] == 1 && msg[21] == 0 && msg[22] == 0;
    RootOwnerRecord(msg, 12);
    SingleAnswerWalk(msg, accept);
  }

  /**
    The callback as written prints the 4 bytes after the response as the
    record's IPv4 address; the corrected callback refuses the record.
   */
  lemma EmptyAddressPrinted(expand: Expander)
    requires expand(EmptyAddressBuffer()[..23], 12).Some?
    ensures var rec := RecordRef(1, 12, 23, 0);
      PrintAsWritten(EmptyAddressBuffer(), 23, rec, expand)
        == Some(Address(expand(EmptyAddressBuffer()[..23], 12).value, Inet, [93, 184, 216, 34]))
    ensures Print(EmptyAddressBuffer()[..23], RecordRef(1, 12, 23, 0), expand) == None
  {
    var m := EmptyAddressBuffer();
    var rec := RecordRef(1, 12, 23, 0);
    assert m[23..27] == [93, 184, 216, 34];
    assert TypeOf(m[..23], rec) == TypeA;
  }

  /**
    A 27-byte response with no question and one answer whose TYPE is 257
    (CAA, high byte 1 and low byte 1), CLASS IN, TTL 60 and 4 bytes of
    RDATA: flags 0, tag length 5 and the tag's first two letters "is".
   */
  function CaaResponse(): (m: seq<uint8>)
    ensures |m| == 27
  {
    [0x12, 0x34, 0x81, 0x80, 0, 0, 0, 1, 0, 0, 0, 0,
     0, 1, 1, 0, 1, 0, 0, 0, 60, 0, 4,
     0, 5, 105, 115]
  }

  /** The walker accepts the response and delivers the record with TYPE low byte 1. */
  lemma CaaWalked(accept: Callback)
    requires accept(RecordRef(1, 12, 23, 4))
    ensures Walk(CaaResponse(), accept) == Outcome(Accepted, [RecordRef(1, 12, 23, 4)])
  {
    var msg := CaaResponse();
    assert Rcode(msg) == 0 && QdCount(msg) == 0 && AnCount(msg) == 1;
    assert msg[12] == 0 && msg[14] == 1 && msg[21] == 0 && msg[22] == 4;
    RootOwnerRecord(msg, 12);
    SingleAnswerWalk(msg, accept);
  }

  /**
    The callback as written prints the CAA record's RDATA as an IPv4
    address; the corrected callback passes it over as a record of TYPE 257.
   */
  lemma CaaPrinted(expand: Expander)
    requires expand(CaaResponse(), 12).Some?
    ensures PrintAsWritten(CaaResponse(), 27, RecordRef(1, 12, 23, 4), expand)
      == Some(Address(expand(CaaResponse(), 12).value, Inet, [0, 5, 105, 115]))
    ensures Print(CaaResponse(), RecordRef(1, 12, 23, 4), expand)
      == Some(Unknown(expand(CaaResponse(), 12).value, 257))
  {
    var m := CaaResponse();
    assert m[..27] == m;
    assert m[23..27] == [0, 5, 105, 115];
    assert TypeOf(m, RecordRef(1, 12, 23, 4)) == 257;
  }
}
