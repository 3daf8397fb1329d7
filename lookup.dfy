/**
  The driver of the lookup tool: it turns the host argument into the name
  to look up (its reverse name when it is an address), builds one query per
  record type in the query plan (A then AAAA for a host name, PTR for an
  address), and for each query in turn sends it, checks that the response
  carries the query's transaction ID, and walks the response, printing each
  answer record. The first failure ends the run.

  The calls whose bodies are not part of this model are parameters:
  `mkquery` stands for `res_mkquery`, `transport` for `res_send` /
  `res_ssend` (the `i`-th exchange of the run maps a query to the received
  datagram or to a failure), `resolved` for whether `resolve_server`
  found the server, and `expand` for `dn_expand`.
 */
module Lookup {
  import opened Bytes
  import opened Parser
  import opened Printer
  import opened Reverse

  datatype QType = A | AAAA | PTR

  /** `res_mkquery(0, name, C_IN, qtype, ...)`: the query bytes, or `None` for a negative length. */
  type QueryBuilder = (string, QType) -> Option<seq<uint8>>

  /** The `i`-th send of the run: the datagram received for the query, or `None` for a negative length. */
  type Transport = (nat, seq<uint8>) -> Option<seq<uint8>>

  /** Why the run ended with `EXIT_FAILURE`. */
  datatype Failure = BuildFailed | ServerUnresolved | SendFailed | IdMismatch | DecodeFailed

  /**
    What a run did: how it ended (`None` is `EXIT_SUCCESS`), the queries it
    handed to the transport, in order, and the records it printed.
   */
  datatype Report = Report(exit: Option<Failure>, sent: seq<seq<uint8>>, printed: seq<Printed>)

  /** The record types queried for `name`: A and AAAA when it is the host text itself, else PTR. */
  function Plan(host: string, name: string): (plan: seq<QType>)
    ensures name == host ==> plan == [A, AAAA]
    ensures name != host ==> plan == [PTR]
  {
    if name == host then [A, AAAA] else [PTR]
  }

  /**
    `memcmp(query, response, 2) == 0`: the first two bytes, the transaction
    ID, agree. A datagram shorter than 2 bytes does not match.
   */
  predicate IdMatches(query: seq<uint8>, response: seq<uint8>): (r: bool)
    ensures r <==> |query| >= 2 && |response| >= 2 && query[..2] == response[..2]
  {
    |query| >= 2 && |response| >= 2 && query[0] == response[0] && query[1] == response[1]
  }

  /** The callback handed to the walker: the record lies inside the message and prints. */
  predicate Accepts(msg: seq<uint8>, expand: Expander, rec: RecordRef) {
    10 <= rec.data && rec.data + rec.length <= |msg| && Print(msg, rec, expand).Some?
  }

  /**
    The callback accepts a record exactly when it lies inside the message,
    its owner name expands, an address record has RDATA of the address
    width, and an alias record's target expands.
   */
  lemma AcceptsWhen(msg: seq<uint8>, expand: Expander, rec: RecordRef)
    ensures Accepts(msg, expand, rec) <==>
      && 10 <= rec.data && rec.data + rec.length <= |msg|
      && expand(msg, rec.owner).Some?
      && (FamilyOf(TypeOf(msg, rec)).Some? ==> rec.length == Width(FamilyOf(TypeOf(msg, rec)).value))
      && (KindOf(TypeOf(msg, rec)).Some? ==> expand(msg, rec.data).Some?)
  {
  }

  function PrintingCallback(msg: seq<uint8>, expand: Expander): Callback {
    rec => Accepts(msg, expand, rec)
  }

  /** What the callback printed for the records it was invoked on: every record that printed. */
  function Printout(msg: seq<uint8>, d: seq<RecordRef>, expand: Expander): (out: seq<Printed>)
    requires forall rec <- d :: 10 <= rec.data && rec.data + rec.length <= |msg|
    ensures |out| <= |d|
    ensures (forall rec <- d :: Accepts(msg, expand, rec)) ==> |out| == |d|
  {
    if |d| == 0 then []
    else
      var head := Print(msg, d[0], expand);
      assert (forall rec <- d :: Accepts(msg, expand, rec)) ==>
        Accepts(msg, expand, d[0]) && head.Some? && forall rec <- d[1..] :: Accepts(msg, expand, rec);
      (if head.Some? then [head.value] else []) + Printout(msg, d[1..], expand)
  }

  /**
    When every record but the last printed, as the walker guarantees, the
    printout holds, in order, what the callback printed for each record:
    one entry per record, the last one only when it printed.
   */
  lemma {:induction false} PrintoutContents(msg: seq<uint8>, d: seq<RecordRef>, expand: Expander)
    requires forall rec <- d :: 10 <= rec.data && rec.data + rec.length <= |msg|
    requires forall k :: 0 <= k < |d| - 1 ==> Accepts(msg, expand, d[k])
    ensures var out := Printout(msg, d, expand);
      |d| - 1 <= |out| && forall k :: 0 <= k < |out| ==> Print(msg, d[k], expand) == Some(out[k])
    ensures |d| > 0 ==> (|Printout(msg, d, expand)| == |d| <==> Accepts(msg, expand, d[|d| - 1]))
    decreases |d|
  {
    if |d| > 0 {
      var head := Print(msg, d[0], expand);
      var t := d[1..];
      assert forall k :: 0 <= k < |t| ==> t[k] == d[k + 1];
      PrintoutContents(msg, t, expand);
      var rest := Printout(msg, t, expand);
      if |d| > 1 {
        assert Accepts(msg, expand, d[0]);
        var out := [head.value] + rest;
        assert Printout(msg, d, expand) == out;
        forall k | 0 <= k < |out|
          ensures Print(msg, d[k], expand) == Some(out[k])
        {
          if k > 0 {
            assert out[k] == rest[k - 1];
          }
        }
      }
    }
  }

  /** What `dns_parse` with the printing callback made of a response. */
  datatype Decoded = Decoded(accepted: bool, printed: seq<Printed>)

  type Decoder = seq<uint8> -> Decoded

  /**
    `dns_parse(response, rlen, NULL)` with `dns_print` as the callback: the
    response is accepted when the walker accepts it, and what was printed is
    every record the callback was invoked on and that printed; on success,
    one record per answer.
   */
  function Decode(resp: seq<uint8>, expand: Expander): (d: Decoded)
    ensures d.accepted <==> Walk(resp, PrintingCallback(resp, expand)).status.Accepted?
    ensures d.accepted ==> |d.printed| == AnCount(resp)
  {
    var o := Walk(resp, PrintingCallback(resp, expand));
    Decoded(o.status.Accepted?, Printout(resp, o.delivered, expand))
  }

  /**
    What `Decode` prints: the text of the records the walker delivered, in
    order, with at most the last one (the record the callback refused)
    missing.
   */
  lemma DecodePrinted(resp: seq<uint8>, expand: Expander)
    ensures var d, o := Decode(resp, expand), Walk(resp, PrintingCallback(resp, expand));
      && |o.delivered| - 1 <= |d.printed| <= |o.delivered|
      && forall k :: 0 <= k < |d.printed| ==> Print(resp, o.delivered[k], expand) == Some(d.printed[k])
  {
    var o := Walk(resp, PrintingCallback(resp, expand));
    assert forall k :: 0 <= k < |o.delivered| - 1 ==> Accepts(resp, expand, o.delivered[k]);
    PrintoutContents(resp, o.delivered, expand);
  }

  function Decoding(expand: Expander): Decoder {
    resp => Decode(resp, expand)
  }

  /**
    Pass number `i` succeeds: its query was built, the server was resolved
    (checked on the first pass only), a datagram came back, its ID matches
    the query's and the response was decoded.
   */
  predicate PassOk(i: nat, query: Option<seq<uint8>>, transport: Transport, resolved: bool, decode: Decoder): (ok: bool)
    ensures ok ==> query.Some? && transport(i, query.value).Some?
    ensures ok ==> IdMatches(query.value, transport(i, query.value).value) && decode(transport(i, query.value).value).accepted
    ensures i == 0 && !resolved ==> !ok
    ensures i > 0 && query.Some? && transport(i, query.value).Some? ==>
      (ok <==> IdMatches(query.value, transport(i, query.value).value) && decode(transport(i, query.value).value).accepted)
  {
    query.Some? && (i > 0 || resolved) && transport(i, query.value).Some?
    && var resp := transport(i, query.value).value;
       IdMatches(query.value, resp) && decode(resp).accepted
  }

  /** One pass of the query loop, for query number `i`. */
  function Exchange(i: nat, query: Option<seq<uint8>>, transport: Transport, resolved: bool, decode: Decoder): (r: Report)
    ensures r.exit.None? <==> PassOk(i, query, transport, resolved, decode)
    ensures |r.sent| <= 1
    ensures r.exit.None? ==> |r.sent| == 1 && Some(r.sent[0]) == query
    ensures r.exit == Some(IdMismatch) ==> r.printed == []
    ensures query.Some? && (i > 0 || resolved) && transport(i, query.value).Some?
      && IdMatches(query.value, transport(i, query.value).value)
      ==> r.printed == decode(transport(i, query.value).value).printed
    ensures !(query.Some? && (i > 0 || resolved) && transport(i, query.value).Some?
      && IdMatches(query.value, transport(i, query.value).value))
      ==> r.printed == []
  {
    if query.None? then Report(Some(BuildFailed), [], [])
    else if i == 0 && !resolved then Report(Some(ServerUnresolved), [], [])
    else
      var q := query.value;
      match transport(i, q)
      case None => Report(Some(SendFailed), [q], [])
      case Some(resp) =>
        if !IdMatches(q, resp) then Report(Some(IdMismatch), [q], [])
        else
          var d := decode(resp);
          if d.accepted then Report(None, [q], d.printed) else Report(Some(DecodeFailed), [q], d.printed)
  }

  /** A pass followed by the passes after it: those run only when the pass succeeded. */
  function Then(step: Report, rest: Report): (r: Report)
    ensures step.exit.Some? ==> r == step
  {
    if step.exit.Some? then step else Report(rest.exit, step.sent + rest.sent, step.printed + rest.printed)
  }

  /** The passes from query number `i` on, stopping at the first failure. */
  function RunFrom(name: string, plan: seq<QType>, i: nat, mkquery: QueryBuilder, transport: Transport,
                   resolved: bool, decode: Decoder): (r: Report)
    requires i <= |plan|
    ensures |r.sent| <= |plan| - i
    decreases |plan| - i
  {
    if i == |plan| then Report(None, [], [])
    else
      Then(Exchange(i, mkquery(name, plan[i]), transport, resolved, decode),
           RunFrom(name, plan, i + 1, mkquery, transport, resolved, decode))
  }

  /** A whole run of the tool on the host argument `host`. */
  function Session(host: string, v4: Option<seq<uint8>>, v6: Option<seq<uint8>>, mkquery: QueryBuilder,
                   transport: Transport, resolved: bool, expand: Expander): (r: Report)
    requires Parsed(v4, v6)
    ensures |r.sent| <= |Plan(host, ReverseName(host, v4, v6))| <= 2
  {
    var name := ReverseName(host, v4, v6);
    RunFrom(name, Plan(host, name), 0, mkquery, transport, resolved, Decoding(expand))
  }

  // ---------------------------------------------------------------------------
  // The query loop of `main`
  // ---------------------------------------------------------------------------

  /**
    The body of one pass, from the `qlen < 0` check to the walk of the
    response. `qlen` is the query's length, negative when it was not built.
   */
  method Pass(i: nat, current: seq<uint8>, qlen: int, transport: Transport, resolved: bool, decode: Decoder)
    returns (r: Report)
    requires qlen < 0 || qlen == |current|
    ensures r == Exchange(i, if qlen < 0 then None else Some(current), transport, resolved, decode)
  {
    if qlen < 0 {
      return Report(Some(BuildFailed), [], []);
    }
    if i == 0 && !resolved {
      return Report(Some(ServerUnresolved), [], []);
    }
    var received := transport(i, current);
    if received.None? {
      return Report(Some(SendFailed), [current], []);
    }
    var response := received.value;
    if !IdMatches(current, response) {
      return Report(Some(IdMismatch), [current], []);
    }
    var decoded := decode(response);
    if !decoded.accepted {
      return Report(Some(DecodeFailed), [current], decoded.printed);
    }
    return Report(None, [current], decoded.printed);
  }

  /** The query a buffer holds: its bytes, or nothing when `qlen` is negative. */
  function Built(query: seq<uint8>, qlen: int): Option<seq<uint8>> {
    if qlen < 0 then None else Some(query)
  }

  /**
    The query-building step of `main`: `query0` (and `query1` for a host
    name) with their lengths, and the number of passes of the loop.
   */
  method BuildQueries(host: string, name: string, mkquery: QueryBuilder)
    returns (query0: seq<uint8>, qlen: int, query1: seq<uint8>, qlen2: int, qcount: nat)
    ensures qcount == |Plan(host, name)|
    ensures (qlen < 0 || qlen == |query0|) && (qlen2 < 0 || qlen2 == |query1|)
    ensures Built(query0, qlen) == mkquery(name, Plan(host, name)[0])
    ensures qcount == 2 ==> Built(query1, qlen2) == mkquery(name, Plan(host, name)[1])
  {
    query0, query1 := [], [];
    qlen, qlen2 := -1, -1;
    if name == host {
      var built0, built1 := mkquery(name, A), mkquery(name, AAAA);
      if built0.Some? { query0, qlen := built0.value, |built0.value|; }
      if built1.Some? { query1, qlen2 := built1.value, |built1.value|; }
      qcount := 2;
    } else {
      var built0 := mkquery(name, PTR);
      if built0.Some? { query0, qlen := built0.value, |built0.value|; }
      qcount := 1;
    }
  }

  /** Pass number `i` of the plan: what it yields is followed by the passes after it. */
  method PlannedPass(name: string, plan: seq<QType>, i: nat, current: seq<uint8>, qlen: int, mkquery: QueryBuilder,
                     transport: Transport, resolved: bool, decode: Decoder)
    returns (r: Report)
    requires i < |plan| && (qlen < 0 || qlen == |current|)
    requires Built(current, qlen) == mkquery(name, plan[i])
    ensures RunFrom(name, plan, i, mkquery, transport, resolved, decode)
      == Then(r, RunFrom(name, plan, i + 1, mkquery, transport, resolved, decode))
  {
    r := Pass(i, current, qlen, transport, resolved, decode);
  }

  /** The passes already made, with what they sent and printed, followed by `rest`. */
  function Prefix(sent: seq<seq<uint8>>, printed: seq<Printed>, rest: Report): Report {
    Report(rest.exit, sent + rest.sent, printed + rest.printed)
  }

  lemma PrefixEmpty(r: Report)
    ensures Prefix([], [], r) == r
  {
    assert [] + r.sent == r.sent && [] + r.printed == r.printed;
  }

  lemma PrefixDone(sent: seq<seq<uint8>>, printed: seq<Printed>)
    ensures Prefix(sent, printed, Report(None, [], [])) == Report(None, sent, printed)
  {
    assert sent + [] == sent && printed + [] == printed;
  }

  lemma PrefixThen(sent: seq<seq<uint8>>, printed: seq<Printed>, step: Report, rest: Report)
    requires step.exit.None?
    ensures Prefix(sent, printed, Then(step, rest)) == Prefix(sent + step.sent, printed + step.printed, rest)
  {
    assert sent + (step.sent + rest.sent) == (sent + step.sent) + rest.sent;
    assert printed + (step.printed + rest.printed) == (printed + step.printed) + rest.printed;
  }

  /** The loop's bookkeeping after a successful pass: its queries and printouts join the ones before it. */
  lemma PrefixStep(whole: Report, sent: seq<seq<uint8>>, printed: seq<Printed>, step: Report, rest: Report)
    requires whole == Prefix(sent, printed, Then(step, rest)) && step.exit.None?
    ensures whole == Prefix(sent + step.sent, printed + step.printed, rest)
  {
    PrefixThen(sent, printed, step, rest);
  }

  /**
    The query loop of `main`: on pass 0 it sends `query0`, on pass 1
    `query1`, whose length it moves into `qlen` first.
   */
  method QueryLoop(name: string, plan: seq<QType>, query0: seq<uint8>, qlen0: int, query1: seq<uint8>, qlen2: int,
                   qcount: nat, mkquery: QueryBuilder, transport: Transport, resolved: bool, decode: Decoder)
    returns (report: Report)
    requires qcount == |plan| <= 2
    requires (qlen0 < 0 || qlen0 == |query0|) && (qlen2 < 0 || qlen2 == |query1|)
    requires qcount >= 1 ==> Built(query0, qlen0) == mkquery(name, plan[0])
    requires qcount == 2 ==> Built(query1, qlen2) == mkquery(name, plan[1])
    ensures report == RunFrom(name, plan, 0, mkquery, transport, resolved, decode)
  {
    var sent: seq<seq<uint8>> := [];
    var printed: seq<Printed> := [];
    var current: seq<uint8> := [];
    var qlen := qlen0;
    var i := 0;
    ghost var whole := RunFrom(name, plan, 0, mkquery, transport, resolved, decode);
    PrefixEmpty(whole);
    while i < qcount
      invariant 0 <= i <= qcount
      invariant i <= 1 ==> qlen == qlen0
      invariant whole == Prefix(sent, printed, RunFrom(name, plan, i, mkquery, transport, resolved, decode))
    {
      if i == 0 {
        current := query0;
      } else if i == 1 {
        current := query1;
        qlen := qlen2;
      }
      var r := PlannedPass(name, plan, i, current, qlen, mkquery, transport, resolved, decode);
      ghost var rest := RunFrom(name, plan, i + 1, mkquery, transport, resolved, decode);
      assert whole == Prefix(sent, printed, Then(r, rest));
      if r.exit.Some? {
        return Report(r.exit, sent + r.sent, printed + r.printed);
      }
      PrefixStep(whole, sent, printed, r, rest);
      sent, printed := sent + r.sent, printed + r.printed;
      i := i + 1;
    }
    assert RunFrom(name, plan, i, mkquery, transport, resolved, decode) == Report(None, [], []);
    PrefixDone(sent, printed);
    return Report(None, sent, printed);
  }

  /**
    `main` with the host argument `host`: the reverse name is written into
    a buffer of `MaxRevLen` characters, the queries are built up front, and
    the query loop runs over them.
   */
  method Run(host: string, v4: Option<seq<uint8>>, v6: Option<seq<uint8>>, mkquery: QueryBuilder,
             transport: Transport, resolved: bool, expand: Expander)
    returns (report: Report)
    requires Parsed(v4, v6)
    ensures report == Session(host, v4, v6, mkquery, transport, resolved, expand)
  {
    var ptr := new char[MaxRevLen];
    var name := ReverseLookup(host, v4, v6, ptr);
    var query0, qlen, query1, qlen2, qcount := BuildQueries(host, name, mkquery);
    report := QueryLoop(name, Plan(host, name), query0, qlen, query1, qlen2, qcount, mkquery, transport, resolved,
                        Decoding(expand));
  }
}
