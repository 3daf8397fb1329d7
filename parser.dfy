/**
  The DNS response walker `dns_parse` (section 4.1 of RFC 1035: header,
  question entries, answer resource records).

  The walker never expands a name: it moves a byte cursor over it with a
  byte-wise heuristic and hands each answer record to a callback. Two
  definitions are given:

  - the functions suffixed `AsWritten` and the method `DnsParseAsWritten`
    follow the code as written. They work on the whole receive buffer `mem`
    of which only the first `rlen` bytes are the message, because the code
    reads past `rlen`; a read past the end of `mem` itself is reported as the
    status `Overread(index)`;
  - `NameEnd`, `Answers` and `Walk` are the corrected walker, which works on
    the message bytes alone and never reads or hands out a byte past them.
 */
module Parser {
  import opened Bytes

  const HeaderLen: nat := 12
  /** The cap on QDCOUNT + ANCOUNT. */
  const MaxRecords: nat := 64

  /**
    How a walk ends: 0 (`Accepted`), -1 (`Rejected`), or a read at an index
    outside the buffer, which the C code performs silently.
   */
  datatype Status = Accepted | Rejected | Overread(index: nat)

  /**
    What the callback receives for one answer: the low byte of TYPE (`p[1]`),
    the start of the record (`as`, where its owner name begins), the start
    of RDATA (`p + 10`) and RDLENGTH.
   */
  datatype RecordRef = RecordRef(rtype: uint8, owner: nat, data: nat, length: nat)

  /** The status of a walk and every record the callback was invoked on, in order. */
  datatype Outcome = Outcome(status: Status, delivered: seq<RecordRef>)

  /** A cursor position, or the end of the walk. */
  datatype Step = Next(pos: nat) | Stop(status: Status)

  /** One answer record and the cursor after it, or the end of the walk. */
  datatype Entry = Good(rec: RecordRef, next: nat) | Bad(status: Status)

  /** The per-record callback; `false` stands for a negative return value. */
  type Callback = RecordRef -> bool

  /** RCODE, `r[3] & 15`: the low 4 bits of the fourth header byte. */
  function Rcode(msg: seq<uint8>): nat
    requires |msg| >= 4
  {
    msg[3] % 16
  }

  /**
    RCODE is the low four bits of the fourth header byte (`r[3] & 15`): below
    16, with the byte made of its upper four bits and RCODE.
   */
  lemma RcodeMask(msg: seq<uint8>)
    requires |msg| >= 4
    ensures Rcode(msg) < 16 && msg[3] == 16 * (msg[3] / 16) + Rcode(msg)
  {
  }

  /** QDCOUNT, `r[4]*256 + r[5]`. */
  function QdCount(msg: seq<uint8>): (c: nat)
    requires |msg| >= 6
    ensures c < 0x1_0000
  {
    BigEndian16(msg[4], msg[5])
  }

  /** ANCOUNT, `r[6]*256 + r[7]`. */
  function AnCount(msg: seq<uint8>): (c: nat)
    requires |msg| >= 8
    ensures c < 0x1_0000
  {
    BigEndian16(msg[6], msg[7])
  }

  /** The name-skipping test `*p - 1U < 127`: true exactly for the bytes 1..127. */
  predicate Skipped(b: uint8) {
    1 <= b <= 127
  }

  /**
    `Skipped` is the C test `*p - 1U < 127` evaluated in 32-bit unsigned
    arithmetic, where the byte 0 wraps around to the largest value.
   */
  lemma SkippedUnsigned(b: uint8)
    ensures Skipped(b) <==> (b as int - 1) % 0x1_0000_0000 < 127
  {
    if b == 0 {
      assert (b as int - 1) % 0x1_0000_0000 == 0xFFFF_FFFF;
    }
  }

  /**
    The stop-byte test: a stop byte above 193, or 193 followed by 255, is
    refused.
   */
  predicate StopByteAccepted(stop: uint8, next: uint8): (r: bool)
    ensures r <==> stop < 193 || (stop == 193 && next < 255)
  {
    !(stop > 193 || (stop == 193 && next > 254))
  }

  /**
    The inner `while (p-r < rlen && *p-1U < 127) p++;`: the first offset at or
    after `p` that is `end` or holds a byte that is 0 or at least 128. Label
    lengths are not followed.
   */
  function SkipName(buf: seq<uint8>, end: nat, p: nat): (q: nat)
    requires end <= |buf|
    ensures p <= q
    ensures q == p || q <= end
    decreases end - p
  {
    if p < end && Skipped(buf[p]) then SkipName(buf, end, p + 1) else p
  }

  /**
    `SkipName` stops at the first offset that is `end` or holds a byte outside
    1..127, and every byte it passes over lies in 1..127.
   */
  lemma {:induction false} SkipNameStops(buf: seq<uint8>, end: nat, p: nat)
    requires end <= |buf|
    ensures var q := SkipName(buf, end, p);
      && (forall i :: p <= i < q ==> Skipped(buf[i]))
      && (q < end ==> !Skipped(buf[q]))
    decreases end - p
  {
    if p < end && Skipped(buf[p]) {
      SkipNameStops(buf, end, p + 1);
    }
  }

  // ---------------------------------------------------------------------------
  // The code as written
  // ---------------------------------------------------------------------------

  /**
    Skipping a name and testing where it stopped, in the order the code
    evaluates `*p>193 || (*p==193 && p[1]>254) || p>r+rlen-6`: the stop byte
    (and the byte after a 193) is read before its offset is compared with
    `rlen - 6`.
   */
  function NameEndAsWritten(mem: seq<uint8>, rlen: nat, p: nat): (s: Step)
    requires rlen <= |mem|
    ensures s.Next? ==> p <= s.pos && s.pos + 6 <= rlen
    ensures s.Next? ==> StopByteAccepted(mem[s.pos], mem[s.pos + 1])
    ensures s.Stop? ==> !s.status.Accepted?
    ensures var q := SkipName(mem, rlen, p);
      && (s.Next? <==> q + 6 <= rlen && StopByteAccepted(mem[q], mem[q + 1]))
      && (s.Next? ==> s.pos == q)
      && (q >= |mem| ==> s == Stop(Overread(q)))
      && (s.Stop? && q + 1 < |mem| ==> s == Stop(Rejected))
  {
    var q := SkipName(mem, rlen, p);
    if q >= |mem| then Stop(Overread(q))
    else if mem[q] > 193 then Stop(Rejected)
    else if mem[q] == 193 && q + 1 >= |mem| then Stop(Overread(q + 1))
    else if mem[q] == 193 && mem[q + 1] > 254 then Stop(Rejected)
    else if q > rlen - 6 then Stop(Rejected)
    else Next(q)
  }

  /**
    The status of a refused name as written: the stop byte itself lies past
    the buffer, or a 193 in the buffer's last byte sends the read of `p[1]`
    past it; every other refusal is a plain `Rejected`.
   */
  lemma NameEndAsWrittenStatus(mem: seq<uint8>, rlen: nat, p: nat)
    requires rlen <= |mem|
    ensures var s, q := NameEndAsWritten(mem, rlen, p), SkipName(mem, rlen, p);
      && (q >= |mem| ==> s == Stop(Overread(q)))
      && (q + 1 == |mem| ==> s == if mem[q] == 193 then Stop(Overread(q + 1)) else Stop(Rejected))
      && (s.Stop? && q + 1 < |mem| ==> s == Stop(Rejected))
  {
  }

  /**
    The question loop as written: `n` questions from cursor `p`, each name
    followed by 5 bytes after a zero stop byte or 6 after a pointer byte.
   */
  function QuestionsAsWritten(mem: seq<uint8>, rlen: nat, p: nat, n: nat): (s: Step)
    requires rlen <= |mem|
    ensures s.Next? ==> s.pos >= p + 5 * n
    ensures s.Next? && n > 0 ==> s.pos <= rlen
    ensures s.Stop? ==> !s.status.Accepted?
    decreases n
  {
    if n == 0 then Next(p)
    else
      match NameEndAsWritten(mem, rlen, p)
      case Stop(st) => Stop(st)
      case Next(q) => QuestionsAsWritten(mem, rlen, q + 5 + NonZero(mem[q]), n - 1)
  }

  /**
    One question as written: the cursor moves from `p` past the name to the
    stop byte, then 5 bytes further after a zero stop byte (QTYPE, QCLASS)
    or 6 after a pointer byte; a name that fails the stop-byte or offset
    test ends the walk unaccepted.
   */
  lemma QuestionStepAsWritten(mem: seq<uint8>, rlen: nat, p: nat, n: nat)
    requires rlen <= |mem| && n > 0
    ensures var q := SkipName(mem, rlen, p);
      if q + 6 <= rlen && StopByteAccepted(mem[q], mem[q + 1])
      then QuestionsAsWritten(mem, rlen, p, n) == QuestionsAsWritten(mem, rlen, if mem[q] == 0 then q + 5 else q + 6, n - 1)
      else QuestionsAsWritten(mem, rlen, p, n).Stop?
  {
  }

  /**
    One answer record as written: after the name, RDLENGTH is read at `f + 8`
    and `f + 9` (`f` is the TYPE field), and the record is refused only when
    `f + RDLENGTH > rlen`. The callback would receive RDATA at `f + 10`, and
    the next record starts after it.
   */
  function RecordAsWritten(mem: seq<uint8>, rlen: nat, p: nat): (e: Entry)
    requires rlen <= |mem|
    ensures e.Bad? ==> !e.status.Accepted?
    ensures e.Good? ==> e.rec.owner == p && p + 11 <= e.rec.data && e.rec.data + e.rec.length <= rlen + 10
    ensures e.Good? ==> e.next == e.rec.data + e.rec.length
  {
    match NameEndAsWritten(mem, rlen, p)
    case Stop(st) => Bad(st)
    case Next(q) =>
      var f := q + 1 + NonZero(mem[q]);
      if f + 8 >= |mem| then Bad(Overread(f + 8))
      else if f + 9 >= |mem| then Bad(Overread(f + 9))
      else
        var len := BigEndian16(mem[f + 8], mem[f + 9]);
        if f + len > rlen then Bad(Rejected)
        else Good(RecordRef(mem[f + 1], p, f + 10, len), f + 10 + len)
  }

  /**
    What the record step as written reads and when it refuses: TYPE and
    RDLENGTH come from the fixed fields after the owner name, RDATA starts
    10 bytes past them, and the record is refused exactly when its RDATA
    would end past `rlen + 10`; a refused owner name is passed on unchanged.
   */
  lemma RecordAsWrittenFields(mem: seq<uint8>, rlen: nat, p: nat)
    requires rlen <= |mem|
    ensures var e := RecordAsWritten(mem, rlen, p);
      e.Good? ==>
        && e.rec.data <= |mem| && e.rec.rtype == mem[e.rec.data - 9]
        && e.rec.length == BigEndian16(mem[e.rec.data - 2], mem[e.rec.data - 1])
    ensures NameEndAsWritten(mem, rlen, p).Stop? ==>
      RecordAsWritten(mem, rlen, p) == Bad(NameEndAsWritten(mem, rlen, p).status)
    ensures NameEndAsWritten(mem, rlen, p).Next? ==>
      var e, q := RecordAsWritten(mem, rlen, p), NameEndAsWritten(mem, rlen, p).pos;
      var data := q + 11 + NonZero(mem[q]);
      && (data > |mem| ==> e.Bad? && e.status.Overread?)
      && (data <= |mem| ==> (e.Good? <==> data + BigEndian16(mem[data - 2], mem[data - 1]) <= rlen + 10))
      && (e.Good? ==> e.rec.data == data)
  {
  }

  /** The answer loop as written: `n` records from cursor `p`, each handed to the callback. */
  function AnswersAsWritten(mem: seq<uint8>, rlen: nat, p: nat, n: nat, accept: Callback): (o: Outcome)
    requires rlen <= |mem|
    ensures |o.delivered| <= n
    ensures o.status.Accepted? ==> |o.delivered| == n
    ensures forall i :: 0 <= i < |o.delivered| ==>
      p <= o.delivered[i].owner < o.delivered[i].data && o.delivered[i].data + o.delivered[i].length <= rlen + 10
    ensures o.status.Accepted? ==> forall rec <- o.delivered :: accept(rec)
    decreases n
  {
    if n == 0 then Outcome(Accepted, [])
    else
      match RecordAsWritten(mem, rlen, p)
      case Bad(st) => Outcome(st, [])
      case Good(rec, next) =>
        if !accept(rec) then Outcome(Rejected, [rec])
        else
          var rest := AnswersAsWritten(mem, rlen, next, n - 1, accept);
          Outcome(rest.status, [rec] + rest.delivered)
  }

  /**
    The answer loop as written stops at the first record the callback
    refuses: every delivered record but the last was accepted, and a refused
    last record makes the walk `Rejected`.
   */
  lemma {:induction false} AnswersAsWrittenCallbacks(mem: seq<uint8>, rlen: nat, p: nat, n: nat, accept: Callback)
    requires rlen <= |mem|
    ensures var d := AnswersAsWritten(mem, rlen, p, n, accept).delivered;
      forall i :: 0 <= i < |d| - 1 ==> accept(d[i])
    ensures var o := AnswersAsWritten(mem, rlen, p, n, accept);
      |o.delivered| > 0 && !accept(o.delivered[|o.delivered| - 1]) ==> o.status == Rejected
    decreases n
  {
    if n > 0 && RecordAsWritten(mem, rlen, p).Good? && accept(RecordAsWritten(mem, rlen, p).rec) {
      var e := RecordAsWritten(mem, rlen, p);
      AnswersAsWrittenCallbacks(mem, rlen, e.next, n - 1, accept);
      var rest := AnswersAsWritten(mem, rlen, e.next, n - 1, accept).delivered;
      assert AnswersAsWritten(mem, rlen, p, n, accept).delivered == [e.rec] + rest;
      forall i | 0 <= i < |[e.rec] + rest| - 1
        ensures accept(([e.rec] + rest)[i])
      {
        if i > 0 {
          assert ([e.rec] + rest)[i] == rest[i - 1];
        }
      }
      if |rest| > 0 {
        assert ([e.rec] + rest)[|rest|] == rest[|rest| - 1];
      }
    }
  }

  /** `dns_parse(r, rlen, ctx)` as written, over the receive buffer `mem`. */
  function ParseAsWritten(mem: seq<uint8>, rlen: nat, accept: Callback): (o: Outcome)
    requires rlen <= |mem|
    ensures rlen < HeaderLen ==> o == Outcome(Rejected, [])
    ensures o.status.Accepted? ==> rlen >= HeaderLen && Rcode(mem) == 0
    ensures o.status.Accepted? ==> QdCount(mem) + AnCount(mem) <= MaxRecords && |o.delivered| == AnCount(mem)
    ensures |o.delivered| <= MaxRecords
    ensures rlen >= HeaderLen && (Rcode(mem) != 0 || QdCount(mem) + AnCount(mem) > MaxRecords) ==> o == Outcome(Rejected, [])
    ensures o.status.Accepted? ==> forall rec <- o.delivered :: accept(rec)
    ensures forall i :: 0 <= i < |o.delivered| - 1 ==> accept(o.delivered[i])
    ensures |o.delivered| > 0 && !accept(o.delivered[|o.delivered| - 1]) ==> o.status == Rejected
  {
    if rlen < HeaderLen then Outcome(Rejected, [])
    else if Rcode(mem) != 0 then Outcome(Rejected, [])
    else if QdCount(mem) + AnCount(mem) > MaxRecords then Outcome(Rejected, [])
    else
      match QuestionsAsWritten(mem, rlen, HeaderLen, QdCount(mem))
      case Stop(st) => Outcome(st, [])
      case Next(p) =>
        AnswersAsWrittenCallbacks(mem, rlen, p, AnCount(mem), accept);
        AnswersAsWritten(mem, rlen, p, AnCount(mem), accept)
  }

  /**
    `dns_parse` as written, as the loops of the source. Every read of `r` is
    checked against `|r|`, so the method needs the buffer to extend at least
    12 bytes past the message: the code reads up to `rlen + 11`.
   */
  method DnsParseAsWritten(r: seq<uint8>, rlen: nat, accept: Callback) returns (rc: int, delivered: seq<RecordRef>)
    requires rlen + 12 <= |r|
    ensures !ParseAsWritten(r, rlen, accept).status.Overread?
    ensures rc == (if ParseAsWritten(r, rlen, accept).status.Accepted? then 0 else -1)
    ensures delivered == ParseAsWritten(r, rlen, accept).delivered
  {
    delivered := [];
    if rlen < 12 {
      return -1, delivered;
    }
    if r[3] % 16 != 0 {
      return -1, delivered;
    }
    var qdcount := r[4] as int * 256 + r[5];
    var ancount := r[6] as int * 256 + r[7];
    if qdcount + ancount > 64 {
      return -1, delivered;
    }
    assert qdcount == QdCount(r) && ancount == AnCount(r);
    var ok, p := QuestionLoopAsWritten(r, rlen, 12, qdcount);
    if !ok {
      assert ParseAsWritten(r, rlen, accept) == Outcome(Rejected, []);
      return -1, delivered;
    }
    assert ParseAsWritten(r, rlen, accept) == AnswersAsWritten(r, rlen, p, ancount, accept);
    rc, delivered := AnswerLoopAsWritten(r, rlen, p, ancount, accept);
  }


  /** The question loop of `dns_parse` as written, from cursor `p` with `qdcount` questions to go. */
  method QuestionLoopAsWritten(r: seq<uint8>, rlen: nat, p: nat, qdcount: nat) returns (ok: bool, q: nat)
    requires p <= rlen && rlen + 12 <= |r|
    ensures ok <==> QuestionsAsWritten(r, rlen, p, qdcount).Next?
    ensures ok ==> q == QuestionsAsWritten(r, rlen, p, qdcount).pos && q <= rlen
    ensures !ok ==> QuestionsAsWritten(r, rlen, p, qdcount) == Stop(Rejected)
  {
    ghost var questions := QuestionsAsWritten(r, rlen, p, qdcount);
    var qdcount := qdcount;
    q := p;
    while qdcount > 0
      invariant q <= rlen
      invariant QuestionsAsWritten(r, rlen, q, qdcount) == questions
      decreases qdcount
    {
      ghost var step := NameEndAsWritten(r, rlen, q);
      qdcount := qdcount - 1;
      q := SkipNameLoop(r, rlen, q);
      if r[q] > 193 || (r[q] == 193 && r[q + 1] > 254) || q > rlen - 6 {
        assert step == Stop(Rejected);
        return false, q;
      }
      assert step == Next(q);
      q := q + 5 + (if r[q] != 0 then 1 else 0);
    }
    return true, q;
  }

  /** The answer loop of `dns_parse` as written, from cursor `p` with `ancount` answers to go. */
  method AnswerLoopAsWritten(r: seq<uint8>, rlen: nat, p: nat, ancount: nat, accept: Callback)
    returns (rc: int, delivered: seq<RecordRef>)
    requires p <= rlen + 10 && rlen + 12 <= |r|
    ensures !AnswersAsWritten(r, rlen, p, ancount, accept).status.Overread?
    ensures rc == (if AnswersAsWritten(r, rlen, p, ancount, accept).status.Accepted? then 0 else -1)
    ensures delivered == AnswersAsWritten(r, rlen, p, ancount, accept).delivered
  {
    ghost var total := AnswersAsWritten(r, rlen, p, ancount, accept);
    var p: nat, ancount: nat := p, ancount;
    delivered := [];
    while ancount > 0
      invariant p <= rlen + 10
      invariant AnswersAsWritten(r, rlen, p, ancount, accept).status == total.status
      invariant delivered + AnswersAsWritten(r, rlen, p, ancount, accept).delivered == total.delivered
      decreases ancount
    {
      ghost var here := AnswersAsWritten(r, rlen, p, ancount, accept);
      ghost var before := delivered;
      ancount := ancount - 1;
      var found, rec, next := RecordLoopBodyAsWritten(r, rlen, p);
      if !found {
        return -1, delivered;
      }
      var ok := accept(rec);
      delivered := delivered + [rec];
      if !ok {
        return -1, delivered;
      }
      p := next;
      ghost var rest := AnswersAsWritten(r, rlen, p, ancount, accept);
      assert here == Outcome(rest.status, [rec] + rest.delivered);
      AppendRegroup(before, rec, rest.delivered);
    }
    return 0, delivered;
  }

  lemma AppendRegroup(before: seq<RecordRef>, rec: RecordRef, rest: seq<RecordRef>)
    ensures (before + [rec]) + rest == before + ([rec] + rest)
  {
  }

  /**
    One pass of the answer loop as written, up to the callback: skip the name,
    test its stop byte and offset, read RDLENGTH and compare `p + len` with
    `rlen`.
   */
  method RecordLoopBodyAsWritten(r: seq<uint8>, rlen: nat, p: nat) returns (found: bool, rec: RecordRef, next: nat)
    requires p <= rlen + 10 && rlen + 12 <= |r|
    ensures found ==> RecordAsWritten(r, rlen, p) == Good(rec, next) && next <= rlen + 10
    ensures !found ==> RecordAsWritten(r, rlen, p) == Bad(Rejected)
  {
    ghost var step := NameEndAsWritten(r, rlen, p);
    var owner := p;
    var p := SkipNameLoop(r, rlen, p);
    rec, next := RecordRef(0, 0, 0, 0), 0;
    if r[p] > 193 || (r[p] == 193 && r[p + 1] > 254) || p > rlen - 6 {
      assert step == Stop(Rejected);
      return false, rec, next;
    }
    assert step == Next(p);
    p := p + 1 + (if r[p] != 0 then 1 else 0);
    var len := r[p + 8] as int * 256 + r[p + 9];
    if p + len > rlen {
      return false, rec, next;
    }
    return true, RecordRef(r[p + 1], owner, p + 10, len), p + 10 + len;
  }

  /**
    The name-skipping loop `while (p-r < rlen && *p-1U < 127) p++;` of both
    record loops.
   */
  method SkipNameLoop(r: seq<uint8>, rlen: nat, p: nat) returns (q: nat)
    requires rlen <= |r|
    ensures q == SkipName(r, rlen, p)
  {
    q := p;
    while q < rlen && Skipped(r[q])
      invariant p <= q && (p <= rlen ==> q <= rlen)
      invariant SkipName(r, rlen, q) == SkipName(r, rlen, p)
      decreases rlen - q
    {
      q := q + 1;
    }
  }

  // ---------------------------------------------------------------------------
  // The corrected walker: every read and every RDATA range inside the message
  // ---------------------------------------------------------------------------

  /**
    Skipping a name and testing where it stopped, with the offset compared
    with `|msg| - 6` before the stop byte is read.
   */
  function NameEnd(msg: seq<uint8>, p: nat): (s: Step)
    ensures s.Next? ==> p <= s.pos && s.pos + 6 <= |msg|
    ensures s.Next? ==> StopByteAccepted(msg[s.pos], msg[s.pos + 1])
    ensures s.Stop? ==> s.status.Rejected?
    ensures var q := SkipName(msg, |msg|, p);
      (s.Next? <==> q + 6 <= |msg| && StopByteAccepted(msg[q], msg[q + 1])) && (s.Next? ==> s.pos == q)
  {
    var q := SkipName(msg, |msg|, p);
    if q + 6 > |msg| then Stop(Rejected)
    else if !StopByteAccepted(msg[q], msg[q + 1]) then Stop(Rejected)
    else Next(q)
  }

  /** The question loop, reading only inside the message. */
  function Questions(msg: seq<uint8>, p: nat, n: nat): (s: Step)
    ensures s.Next? ==> s.pos >= p + 5 * n
    ensures s.Next? && n > 0 ==> s.pos <= |msg|
    ensures s.Stop? ==> s.status.Rejected?
    decreases n
  {
    if n == 0 then Next(p)
    else
      match NameEnd(msg, p)
      case Stop(st) => Stop(st)
      case Next(q) => Questions(msg, q + 5 + NonZero(msg[q]), n - 1)
  }

  /** One question, reading only inside the message: 5 or 6 bytes past the name's stop byte. */
  lemma QuestionStep(msg: seq<uint8>, p: nat, n: nat)
    requires n > 0
    ensures var q := SkipName(msg, |msg|, p);
      if q + 6 <= |msg| && StopByteAccepted(msg[q], msg[q + 1])
      then Questions(msg, p, n) == Questions(msg, if msg[q] == 0 then q + 5 else q + 6, n - 1)
      else Questions(msg, p, n) == Stop(Rejected)
  {
  }

  /**
    One answer record, refused when its fixed fields (TYPE, CLASS, TTL and
    RDLENGTH: 10 bytes from `f`) or its RDATA do not lie inside the message;
    RDLENGTH is read only once the fixed fields are known to be there.
   */
  function RecordAt(msg: seq<uint8>, p: nat): (e: Entry)
    ensures e.Bad? ==> e.status.Rejected?
    ensures e.Good? ==> e.rec.owner == p && p + 11 <= e.rec.data && e.rec.data + e.rec.length <= |msg|
    ensures e.Good? ==> e.next == e.rec.data + e.rec.length
    ensures e.Good? ==> e.rec.rtype == msg[e.rec.data - 9]
    ensures e.Good? ==> e.rec.length == BigEndian16(msg[e.rec.data - 2], msg[e.rec.data - 1])
  {
    match NameEnd(msg, p)
    case Stop(st) => Bad(st)
    case Next(q) =>
      var f := q + 1 + NonZero(msg[q]);
      if f + 10 > |msg| then Bad(Rejected)
      else
        var len := BigEndian16(msg[f + 8], msg[f + 9]);
        if f + 10 + len > |msg| then Bad(Rejected)
        else Good(RecordRef(msg[f + 1], p, f + 10, len), f + 10 + len)
  }

  /**
    When a record is taken: exactly when its owner name ends acceptably and
    both its fixed fields and the RDATA that RDLENGTH announces lie inside
    the message.
   */
  lemma RecordAtVerdict(msg: seq<uint8>, p: nat)
    ensures NameEnd(msg, p).Stop? ==> RecordAt(msg, p).Bad?
    ensures NameEnd(msg, p).Next? ==>
      var e, q := RecordAt(msg, p), NameEnd(msg, p).pos;
      var data := q + 11 + NonZero(msg[q]);
      && (e.Good? <==> data <= |msg| && data + BigEndian16(msg[data - 2], msg[data - 1]) <= |msg|)
      && (e.Good? ==> e.rec.data == data)
  {
  }

  /** The answer loop, reading only inside the message. */
  function Answers(msg: seq<uint8>, p: nat, n: nat, accept: Callback): (o: Outcome)
    ensures o.status.Accepted? || o.status.Rejected?
    ensures |o.delivered| <= n
    ensures o.status.Accepted? ==> |o.delivered| == n
    ensures forall i :: 0 <= i < |o.delivered| ==>
      p <= o.delivered[i].owner && o.delivered[i].owner + 11 <= o.delivered[i].data
      && o.delivered[i].data + o.delivered[i].length <= |msg|
    ensures forall i :: 0 <= i < |o.delivered| - 1 ==> accept(o.delivered[i])
    ensures o.status.Accepted? ==> forall rec <- o.delivered :: accept(rec)
    decreases n
  {
    if n == 0 then Outcome(Accepted, [])
    else
      match RecordAt(msg, p)
      case Bad(st) => Outcome(st, [])
      case Good(rec, next) =>
        if !accept(rec) then Outcome(Rejected, [rec])
        else
          var rest := Answers(msg, next, n - 1, accept);
          Outcome(rest.status, [rec] + rest.delivered)
  }

  /**
    The corrected `dns_parse` over the message bytes `msg` (`rlen == |msg|`).
    Every index it reads is below `|msg|`, and every RDATA range it hands to
    the callback lies inside the message.
   */
  function Walk(msg: seq<uint8>, accept: Callback): (o: Outcome)
    ensures o.status.Accepted? || o.status.Rejected?
    ensures |msg| < HeaderLen || Rcode(msg) != 0 || QdCount(msg) + AnCount(msg) > MaxRecords ==> o == Outcome(Rejected, [])
    ensures |o.delivered| <= MaxRecords
    ensures forall rec <- o.delivered ::
      HeaderLen <= rec.owner && rec.owner + 11 <= rec.data && rec.data + rec.length <= |msg|
    ensures o.status.Accepted? ==> |o.delivered| == AnCount(msg) && forall rec <- o.delivered :: accept(rec)
    ensures forall i :: 0 <= i < |o.delivered| - 1 ==> accept(o.delivered[i])
    ensures |o.delivered| > 0 && !accept(o.delivered[|o.delivered| - 1]) ==> o.status.Rejected?
  {
    if |msg| < HeaderLen then Outcome(Rejected, [])
    else if Rcode(msg) != 0 then Outcome(Rejected, [])
    else if QdCount(msg) + AnCount(msg) > MaxRecords then Outcome(Rejected, [])
    else
      match Questions(msg, HeaderLen, QdCount(msg))
      case Stop(st) => Outcome(st, [])
      case Next(p) => Answers(msg, p, AnCount(msg), accept)
  }
}
