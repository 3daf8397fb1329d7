/**
  Properties of the DNS response walker: what a delivered record holds, how
  the corrected walker relates to the code as written, and the inputs on
  which the code as written reads outside the message or the buffer.
 */
module ParserFacts {
  import opened Bytes
  import opened Parser

  // ---------------------------------------------------------------------------
  // What the callback receives
  // ---------------------------------------------------------------------------

  /**
    The low byte of the record's TYPE field sits 9 bytes before its RDATA and
    its big-endian RDLENGTH in the 2 bytes just before it.
   */
  predicate ReadBack(msg: seq<uint8>, r: RecordRef)
  {
    11 <= r.data <= |msg|
    && r.rtype == msg[r.data - 9]
    && r.length == BigEndian16(msg[r.data - 2], msg[r.data - 1])
  }

  /** Where the RDATA of record `i` ends. */
  function RdataEnd(d: seq<RecordRef>, i: nat): nat
    requires i < |d|
  {
    d[i].data + d[i].length
  }

  /** Each record starts where the previous one's RDATA ends. */
  predicate Contiguous(d: seq<RecordRef>)
  {
    forall i :: 0 <= i < |d| - 1 ==> RdataEnd(d, i) == d[i + 1].owner
  }

  /** With a record accepted at `p`, the callback sees it and then the rest of the section. */
  lemma AnswersCons(msg: seq<uint8>, p: nat, n: nat, accept: Callback)
    requires n > 0 && RecordAt(msg, p).Good? && accept(RecordAt(msg, p).rec)
    ensures Answers(msg, p, n, accept).delivered
      == [RecordAt(msg, p).rec] + Answers(msg, RecordAt(msg, p).next, n - 1, accept).delivered
  {
  }

  /** Every record handed to the callback reads back from the message. */
  lemma {:induction false} AnswersReadBack(msg: seq<uint8>, p: nat, n: nat, accept: Callback)
    ensures var d := Answers(msg, p, n, accept).delivered;
      forall i :: 0 <= i < |d| ==> ReadBack(msg, d[i])
    decreases n
  {
    var e := RecordAt(msg, p);
    if n > 0 && e.Good? && accept(e.rec) {
      AnswersReadBack(msg, e.next, n - 1, accept);
      AnswersCons(msg, p, n, accept);
      ConsReadBack(msg, e.rec, Answers(msg, e.next, n - 1, accept).delivered);
    } else {
      AnswersAtMostFirst(msg, p, n, accept);
      if e.Good? {
        assert ReadBack(msg, e.rec);
      }
    }
  }

  /** Unless the first record is found and accepted, at most that record is delivered. */
  lemma AnswersAtMostFirst(msg: seq<uint8>, p: nat, n: nat, accept: Callback)
    requires !(n > 0 && RecordAt(msg, p).Good? && accept(RecordAt(msg, p).rec))
    ensures var d := Answers(msg, p, n, accept).delivered;
      |d| <= 1 && (|d| == 1 ==> RecordAt(msg, p).Good? && d[0] == RecordAt(msg, p).rec)
  {
  }


  lemma ConsReadBack(msg: seq<uint8>, rec: RecordRef, rest: seq<RecordRef>)
    requires ReadBack(msg, rec)
    requires forall i :: 0 <= i < |rest| ==> ReadBack(msg, rest[i])
    ensures var d := [rec] + rest;
      forall i :: 0 <= i < |d| ==> ReadBack(msg, d[i])
  {
    var d := [rec] + rest;
    forall i | 0 <= i < |d|
      ensures ReadBack(msg, d[i])
    {
      if i > 0 {
        assert d[i] == rest[i - 1];
      }
    }
  }


  /**
    The records of `d` follow each other from offset `p` on: the first starts
    at `p` and each next one where the previous one's RDATA ends.
   */
  predicate ChainFrom(d: seq<RecordRef>, p: nat)
    decreases |d|
  {
    |d| == 0 || (d[0].owner == p && ChainFrom(d[1..], RdataEnd(d, 0)))
  }

  /** The records handed to the callback start at the cursor and follow each other without gaps. */
  lemma {:induction false} AnswersChain(msg: seq<uint8>, p: nat, n: nat, accept: Callback)
    ensures ChainFrom(Answers(msg, p, n, accept).delivered, p)
    decreases n
  {
    var e := RecordAt(msg, p);
    if n > 0 && e.Good? && accept(e.rec) {
      AnswersChain(msg, e.next, n - 1, accept);
      AnswersCons(msg, p, n, accept);
      ConsChain(e.rec, Answers(msg, e.next, n - 1, accept).delivered, p);
    } else {
      AnswersAtMostFirst(msg, p, n, accept);
      ShortChain(Answers(msg, p, n, accept).delivered, p);
    }
  }

  lemma ConsChain(rec: RecordRef, rest: seq<RecordRef>, p: nat)
    requires rec.owner == p && ChainFrom(rest, rec.data + rec.length)
    ensures ChainFrom([rec] + rest, p)
  {
    assert ([rec] + rest)[1..] == rest;
  }

  lemma ShortChain(d: seq<RecordRef>, p: nat)
    requires |d| <= 1 && (|d| == 1 ==> d[0].owner == p)
    ensures ChainFrom(d, p)
  {
    if |d| == 1 {
      assert d[1..] == [];
    }
  }

  /** A chain has no gaps between consecutive records. */
  lemma {:induction false} ChainContiguous(d: seq<RecordRef>, p: nat)
    requires ChainFrom(d, p)
    ensures Contiguous(d)
    decreases |d|
  {
    if |d| > 1 {
      var t := d[1..];
      ChainContiguous(t, RdataEnd(d, 0));
      forall i | 0 <= i < |d| - 1
        ensures RdataEnd(d, i) == d[i + 1].owner
      {
        if i > 0 {
          assert RdataEnd(t, i - 1) == t[i].owner;
        }
      }
    }
  }


  /** The cursor after the records `d` laid out from `p`: where the last one's RDATA ends. */
  function After(d: seq<RecordRef>, p: nat): nat
  {
    if |d| == 0 then p else RdataEnd(d, |d| - 1)
  }

  lemma ConsAfter(rec: RecordRef, rest: seq<RecordRef>, p: nat, next: nat)
    requires next == rec.data + rec.length
    ensures After([rec] + rest, p) == After(rest, next)
  {
    if |rest| > 0 {
      assert ([rec] + rest)[|rest|] == rest[|rest| - 1];
    }
  }

  lemma ConsAccepted(accept: Callback, rec: RecordRef, rest: seq<RecordRef>)
    requires accept(rec)
    ensures |[rec] + rest| == |rest| + 1
    ensures (forall r <- [rec] + rest :: accept(r)) <==> (forall r <- rest :: accept(r))
  {
    assert forall r :: r in [rec] + rest <==> r == rec || r in rest;
  }

  /**
    When the answer loop accepts, and why it refuses: it accepts exactly
    when it delivered all `n` records and the callback accepted each; when
    the callback accepted every record delivered but fewer than `n` were
    delivered, the record after the last one delivered is not there.
   */
  lemma {:induction false} AnswersVerdict(msg: seq<uint8>, p: nat, n: nat, accept: Callback)
    ensures var o := Answers(msg, p, n, accept);
      o.status.Accepted? <==> |o.delivered| == n && forall rec <- o.delivered :: accept(rec)
    ensures var o := Answers(msg, p, n, accept);
      |o.delivered| < n && (forall rec <- o.delivered :: accept(rec)) ==> RecordAt(msg, After(o.delivered, p)).Bad?
    decreases n
  {
    var e := RecordAt(msg, p);
    if n > 0 && e.Good? && accept(e.rec) {
      AnswersVerdict(msg, e.next, n - 1, accept);
      AnswersCons(msg, p, n, accept);
      var o, rest := Answers(msg, p, n, accept), Answers(msg, e.next, n - 1, accept);
      assert o.status == rest.status;
      ConsAfter(e.rec, rest.delivered, p, e.next);
      ConsAccepted(accept, e.rec, rest.delivered);
    } else {
      AnswersAtMostFirst(msg, p, n, accept);
    }
  }

  /**
    When the corrected walker accepts a message, and why it refuses one: it
    accepts exactly when the header passes, the questions are walked, and
    all ANCOUNT answers are delivered and accepted. A message whose header
    and questions pass, and whose delivered answers were all accepted but
    fall short of ANCOUNT, has no record where the next answer should be.
   */
  lemma WalkVerdict(msg: seq<uint8>, accept: Callback)
    ensures var o := Walk(msg, accept);
      o.status.Accepted? <==>
        && |msg| >= HeaderLen && Rcode(msg) == 0 && QdCount(msg) + AnCount(msg) <= MaxRecords
        && Questions(msg, HeaderLen, QdCount(msg)).Next?
        && |o.delivered| == AnCount(msg) && forall rec <- o.delivered :: accept(rec)
    ensures var o := Walk(msg, accept);
      && |msg| >= HeaderLen && Rcode(msg) == 0 && QdCount(msg) + AnCount(msg) <= MaxRecords
      && Questions(msg, HeaderLen, QdCount(msg)).Next?
      && |o.delivered| < AnCount(msg) && (forall rec <- o.delivered :: accept(rec))
      ==> RecordAt(msg, After(o.delivered, Questions(msg, HeaderLen, QdCount(msg)).pos)).Bad?
  {
    if |msg| >= HeaderLen && Rcode(msg) == 0 && QdCount(msg) + AnCount(msg) <= MaxRecords {
      match Questions(msg, HeaderLen, QdCount(msg))
      case Stop(_) =>
      case Next(p) =>
        AnswersVerdict(msg, p, AnCount(msg), accept);
    }
  }

  /**
    Every record the corrected walker hands to the callback reads back from
    the message, and the records follow each other without gaps.
   */
  lemma WalkRecordFields(msg: seq<uint8>, accept: Callback)
    ensures forall r :: r in Walk(msg, accept).delivered ==> ReadBack(msg, r)
    ensures Contiguous(Walk(msg, accept).delivered)
  {
    var o := Walk(msg, accept);
    if |msg| >= HeaderLen && Rcode(msg) == 0 && QdCount(msg) + AnCount(msg) <= MaxRecords {
      match Questions(msg, HeaderLen, QdCount(msg))
      case Stop(_) =>
        assert o.delivered == [];
      case Next(p) =>
        assert o == Answers(msg, p, AnCount(msg), accept);
        AnswersReadBack(msg, p, AnCount(msg), accept);
        AnswersChain(msg, p, AnCount(msg), accept);
        ChainContiguous(o.delivered, p);
    } else {
      assert o.delivered == [];
    }
  }

  /**
    A record whose owner is the root name (a single 0 byte) at `p`: its TYPE
    low byte is at `p + 2`, its RDLENGTH at `p + 9` and `p + 10`, and its
    RDATA starts at `p + 11`; it is refused when its fixed fields or its
    RDATA run past the message.
   */
  lemma RootOwnerRecord(msg: seq<uint8>, p: nat)
    requires p + 6 <= |msg| && msg[p] == 0
    ensures p + 11 > |msg| ==> RecordAt(msg, p) == Bad(Rejected)
    ensures p + 11 <= |msg| ==>
      var len := BigEndian16(msg[p + 9], msg[p + 10]);
      RecordAt(msg, p)
        == if p + 11 + len <= |msg| then Good(RecordRef(msg[p + 2], p, p + 11, len), p + 11 + len) else Bad(Rejected)
  {
    assert SkipName(msg, |msg|, p) == p;
  }

  /**
    The same record in the code as written: it is taken whenever
    `p + 1 + RDLENGTH` does not pass `rlen`, even when the RDATA ending at
    `p + 11 + RDLENGTH` does.
   */
  lemma RootOwnerRecordAsWritten(mem: seq<uint8>, rlen: nat, p: nat)
    requires rlen <= |mem| && p + 6 <= rlen && p + 11 <= |mem| && mem[p] == 0
    ensures var len := BigEndian16(mem[p + 9], mem[p + 10]);
      RecordAsWritten(mem, rlen, p)
        == if p + 1 + len <= rlen then Good(RecordRef(mem[p + 2], p, p + 11, len), p + 11 + len) else Bad(Rejected)
  {
    assert SkipName(mem, rlen, p) == p;
  }

  /** The code as written on a response with no question and one answer. */
  lemma SingleAnswerAsWritten(mem: seq<uint8>, rlen: nat, accept: Callback)
    requires HeaderLen <= rlen <= |mem| && Rcode(mem) == 0 && QdCount(mem) == 0 && AnCount(mem) == 1
    ensures ParseAsWritten(mem, rlen, accept) == match RecordAsWritten(mem, rlen, HeaderLen)
      case Bad(st) => Outcome(st, [])
      case Good(rec, _) => Outcome(if accept(rec) then Accepted else Rejected, [rec])
  {
    assert QuestionsAsWritten(mem, rlen, HeaderLen, 0) == Next(HeaderLen);
    match RecordAsWritten(mem, rlen, HeaderLen)
    case Bad(_) =>
    case Good(rec, next) =>
      assert AnswersAsWritten(mem, rlen, next, 0, accept) == Outcome(Accepted, []);
  }

  /**
    A response with no question and one answer: the walk ends with that
    answer, handed to the callback if it is found.
   */
  lemma SingleAnswerWalk(msg: seq<uint8>, accept: Callback)
    requires |msg| >= HeaderLen && Rcode(msg) == 0 && QdCount(msg) == 0 && AnCount(msg) == 1
    ensures Walk(msg, accept) == match RecordAt(msg, HeaderLen)
      case Bad(st) => Outcome(st, [])
      case Good(rec, _) => Outcome(if accept(rec) then Accepted else Rejected, [rec])
  {
    assert Questions(msg, HeaderLen, 0) == Next(HeaderLen);
    match RecordAt(msg, HeaderLen)
    case Bad(_) =>
    case Good(rec, next) =>
      assert Answers(msg, next, 0, accept) == Outcome(Accepted, []);
  }

  // ---------------------------------------------------------------------------
  // The corrected walker agrees with the code wherever it accepts
  // ---------------------------------------------------------------------------

  /** Skipping a name inside the message reads the same bytes in the buffer and in the message. */
  lemma {:induction false} SkipNameInMessage(mem: seq<uint8>, msg: seq<uint8>, p: nat)
    requires |msg| <= |mem| && mem[..|msg|] == msg
    ensures SkipName(mem, |msg|, p) == SkipName(msg, |msg|, p)
    decreases |msg| - p
  {
    if p < |msg| {
      assert mem[p] == msg[p];
      SkipNameInMessage(mem, msg, p + 1);
    }
  }

  lemma NameEndInMessage(mem: seq<uint8>, msg: seq<uint8>, p: nat)
    requires |msg| <= |mem| && mem[..|msg|] == msg
    requires NameEnd(msg, p).Next?
    ensures NameEndAsWritten(mem, |msg|, p) == NameEnd(msg, p)
  {
    SkipNameInMessage(mem, msg, p);
    var q := NameEnd(msg, p).pos;
    assert mem[q] == msg[q] && mem[q + 1] == msg[q + 1];
  }

  lemma RecordInMessage(mem: seq<uint8>, msg: seq<uint8>, p: nat)
    requires |msg| <= |mem| && mem[..|msg|] == msg
    requires RecordAt(msg, p).Good?
    ensures RecordAsWritten(mem, |msg|, p) == RecordAt(msg, p)
  {
    NameEndInMessage(mem, msg, p);
    RecordAtVerdict(msg, p);
    var q := NameEnd(msg, p).pos;
    var f := q + 1 + NonZero(msg[q]);
    assert f + 10 <= |msg|;
    assert mem[q] == msg[q];
    assert mem[f + 1] == msg[f + 1] && mem[f + 8] == msg[f + 8] && mem[f + 9] == msg[f + 9];
    assert BigEndian16(mem[f + 8], mem[f + 9]) == BigEndian16(msg[f + 8], msg[f + 9]);
  }

  lemma {:induction false} QuestionsInMessage(mem: seq<uint8>, msg: seq<uint8>, p: nat, n: nat)
    requires |msg| <= |mem| && mem[..|msg|] == msg
    requires Questions(msg, p, n).Next?
    ensures QuestionsAsWritten(mem, |msg|, p, n) == Questions(msg, p, n)
    decreases n
  {
    if n > 0 {
      NameEndInMessage(mem, msg, p);
      var q := NameEnd(msg, p).pos;
      assert mem[q] == msg[q];
      QuestionsInMessage(mem, msg, q + 5 + NonZero(msg[q]), n - 1);
    }
  }

  lemma {:induction false} AnswersInMessage(mem: seq<uint8>, msg: seq<uint8>, p: nat, n: nat, accept: Callback)
    requires |msg| <= |mem| && mem[..|msg|] == msg
    requires Answers(msg, p, n, accept).status.Accepted?
    ensures AnswersAsWritten(mem, |msg|, p, n, accept) == Answers(msg, p, n, accept)
    decreases n
  {
    if n > 0 {
      RecordInMessage(mem, msg, p);
      AnswersInMessage(mem, msg, RecordAt(msg, p).next, n - 1, accept);
    }
  }

  /**
    Whenever the corrected walker accepts a message, the code as written,
    run on any receive buffer that starts with that message, accepts it too
    and invokes the callback on exactly the same records.
   */
  lemma WalkAcceptedAgreesAsWritten(mem: seq<uint8>, msg: seq<uint8>, accept: Callback)
    requires |msg| <= |mem| && mem[..|msg|] == msg
    requires Walk(msg, accept).status.Accepted?
    ensures ParseAsWritten(mem, |msg|, accept) == Walk(msg, accept)
  {
    assert mem[3] == msg[3] && mem[4] == msg[4] && mem[5] == msg[5] && mem[6] == msg[6] && mem[7] == msg[7];
    QuestionsInMessage(mem, msg, HeaderLen, QdCount(msg));
    var p := Questions(msg, HeaderLen, QdCount(msg)).pos;
    AnswersInMessage(mem, msg, p, AnCount(msg), accept);
  }

  // ---------------------------------------------------------------------------
  // Reads past the message and past the buffer in the code as written
  // ---------------------------------------------------------------------------

  /** A run of bytes in 1..127 up to `end` is skipped as a whole. */
  lemma {:induction false} SkipNameRun(buf: seq<uint8>, end: nat, p: nat)
    requires p <= end <= |buf|
    requires forall i :: p <= i < end ==> Skipped(buf[i])
    ensures SkipName(buf, end, p) == end
    decreases end - p
  {
    if p < end {
      SkipNameRun(buf, end, p + 1);
    }
  }

  /** A 12-byte header with the given ID, flags, QDCOUNT and ANCOUNT and no other records. */
  function Header(id: nat, flags: nat, qdcount: nat, ancount: nat): (h: seq<uint8>)
    requires id < 0x1_0000 && flags < 0x1_0000 && qdcount < 0x1_0000 && ancount < 0x1_0000
    ensures |h| == HeaderLen
    ensures QdCount(h) == qdcount && AnCount(h) == ancount && h[3] == flags % 256
  {
    [id / 256, id % 256, flags / 256, flags % 256, qdcount / 256, qdcount % 256, ancount / 256, ancount % 256, 0, 0, 0, 0]
  }

  /**
    A full 1024-byte datagram (the size of the receive buffer) declaring one
    question whose name bytes are all 1 up to the end.
   */
  function NameToBufferEnd(): (m: seq<uint8>)
    ensures |m| == 1024
  {
    Header(0x1234, 0x8180, 1, 0) + seq(1012, _ => 1)
  }

  /**
    A message that fills its buffer and whose first question name runs up to
    its end: the code as written reads the stop byte at index `|m|`, just
    past the buffer; the corrected walker refuses the message.
   */
  lemma NameRunsToBufferEnd(m: seq<uint8>, accept: Callback)
    requires |m| >= HeaderLen && Rcode(m) == 0 && QdCount(m) >= 1 && QdCount(m) + AnCount(m) <= MaxRecords
    requires forall i :: HeaderLen <= i < |m| ==> Skipped(m[i])
    ensures ParseAsWritten(m, |m|, accept).status == Overread(|m|)
    ensures Walk(m, accept) == Outcome(Rejected, [])
  {
    SkipNameRun(m, |m|, HeaderLen);
    assert NameEndAsWritten(m, |m|, HeaderLen) == Stop(Overread(|m|));
    assert NameEnd(m, HeaderLen) == Stop(Rejected);
  }

  /**
    The question name in `NameToBufferEnd()` runs to offset `rlen` = 1024:
    the code as written then reads the stop byte at index 1024, one past the
    1024-byte receive buffer. The corrected walker refuses the message.
   */
  lemma StopByteReadPastBuffer(accept: Callback)
    ensures var m := NameToBufferEnd();
      ParseAsWritten(m, |m|, accept).status == Overread(1024)
    ensures Walk(NameToBufferEnd(), accept) == Outcome(Rejected, [])
  {
    NameToBufferEndShape();
    NameRunsToBufferEnd(NameToBufferEnd(), accept);
  }

  lemma NameToBufferEndShape()
    ensures var m := NameToBufferEnd();
      Rcode(m) == 0 && QdCount(m) == 1 && AnCount(m) == 0
      && forall i :: HeaderLen <= i < |m| ==> Skipped(m[i])
  {
    var m := NameToBufferEnd();
    assert forall i :: HeaderLen <= i < |m| ==> m[i] == 1;
  }

  /**
    A 35-byte receive buffer holding a response with no question and one
    answer: a root owner name, TYPE A, CLASS IN, TTL 60 and RDLENGTH 4 at
    offsets 12..22, the address 93.184.216.34 at offsets 23..26, then zero
    padding. Taking `rlen` below 27 cuts the message before the end of the
    record.
   */
  function StaleRdataBuffer(): (m: seq<uint8>)
    ensures |m| == 35
  {
    [0x12, 0x34, 0x81, 0x80, 0, 0, 0, 1, 0, 0, 0, 0,
     0, 0, 1, 0, 1, 0, 0, 0, 60, 0, 4,
     93, 184, 216, 34,
     0, 0, 0, 0, 0, 0, 0, 0]
  }

  /** The code as written takes the answer of `StaleRdataBuffer()` for any `rlen` from 18 on. */
  lemma StaleRecordAsWritten(rlen: nat)
    requires 18 <= rlen <= 35
    ensures RecordAsWritten(StaleRdataBuffer(), rlen, 12) == Good(RecordRef(1, 12, 23, 4), 27)
  {
    var m := StaleRdataBuffer();
    assert m[12] == 0 && m[14] == 1 && m[21] == 0 && m[22] == 4;
    assert BigEndian16(m[21], m[22]) == 4;
    RootOwnerRecordAsWritten(m, rlen, 12);
  }

  /** The corrected walker refuses the answer once `rlen` cuts it short. */
  lemma StaleRecordCorrected(rlen: nat)
    requires 18 <= rlen < 27
    ensures RecordAt(StaleRdataBuffer()[..rlen], 12) == Bad(Rejected)
  {
    var msg := StaleRdataBuffer()[..rlen];
    assert msg[12] == 0;
    assert rlen >= 23 ==> msg[21] == 0 && msg[22] == 4;
    RootOwnerRecord(msg, 12);
  }

  /**
    With `rlen` between 18 and 26 the message stated by `rlen` ends before
    the answer's RDATA (offsets 23..26) does, and for `rlen` up to 22 before
    its RDLENGTH (offsets 21 and 22) too; the code as written still accepts
    it and hands the callback a record whose RDATA lies past the message.
    The corrected walker refuses the message.
   */
  lemma RdataPastMessage(rlen: nat)
    requires 18 <= rlen < 27
    ensures ParseAsWritten(StaleRdataBuffer(), rlen, _ => true) == Outcome(Accepted, [RecordRef(1, 12, 23, 4)])
    ensures var r := RecordRef(1, 12, 23, 4); r.data + r.length > rlen
    ensures Walk(StaleRdataBuffer()[..rlen], _ => true) == Outcome(Rejected, [])
  {
    var m := StaleRdataBuffer();
    var msg := m[..rlen];
    assert Rcode(m) == 0 && QdCount(m) == 0 && AnCount(m) == 1;
    assert Rcode(msg) == 0 && QdCount(msg) == 0 && AnCount(msg) == 1;
    StaleRecordAsWritten(rlen);
    SingleAnswerAsWritten(m, rlen, _ => true);
    StaleRecordCorrected(rlen);
    SingleAnswerWalk(msg, _ => true);
  }

}
