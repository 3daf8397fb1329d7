/**
  What a run of the lookup tool does: the queries go out in the order of
  the plan, a successful run prints each pass's decoded response in that
  order, the run succeeds exactly when every pass does, and it stops at
  the first pass that fails, in particular at a response whose transaction
  ID does not match its query.
 */
module LookupFacts {
  import opened Bytes
  import opened Parser
  import opened Printer
  import opened Reverse
  import opened Lookup

  /** The queries handed to the transport are those of the plan, in order, from pass `i` on. */
  lemma {:induction false} RunFromSent(name: string, plan: seq<QType>, i: nat, mkquery: QueryBuilder,
                                       transport: Transport, resolved: bool, decode: Decoder)
    requires i <= |plan|
    ensures var r := RunFrom(name, plan, i, mkquery, transport, resolved, decode);
      forall k :: 0 <= k < |r.sent| ==> mkquery(name, plan[i + k]) == Some(r.sent[k])
    ensures var r := RunFrom(name, plan, i, mkquery, transport, resolved, decode);
      r.exit.None? ==> |r.sent| == |plan| - i
    decreases |plan| - i
  {
    if i < |plan| {
      var step := Exchange(i, mkquery(name, plan[i]), transport, resolved, decode);
      var rest := RunFrom(name, plan, i + 1, mkquery, transport, resolved, decode);
      RunFromSent(name, plan, i + 1, mkquery, transport, resolved, decode);
      assert RunFrom(name, plan, i, mkquery, transport, resolved, decode) == Then(step, rest);
      if step.exit.None? {
        SentShift(name, plan, i, mkquery, step.sent, rest.sent);
      }
    }
  }

  /**
    A whole run sends the plan's queries in order: for a host name that is
    not an address, a successful run sends the A query and then the AAAA
    query for the host text itself.
   */
  lemma SessionQueries(host: string, v4: Option<seq<uint8>>, v6: Option<seq<uint8>>, mkquery: QueryBuilder,
                       transport: Transport, resolved: bool, expand: Expander)
    requires Parsed(v4, v6)
    ensures var r, name := Session(host, v4, v6, mkquery, transport, resolved, expand), ReverseName(host, v4, v6);
      && (forall k :: 0 <= k < |r.sent| ==> mkquery(name, Plan(host, name)[k]) == Some(r.sent[k]))
      && (r.exit.None? ==> |r.sent| == |Plan(host, name)|)
    ensures var r := Session(host, v4, v6, mkquery, transport, resolved, expand);
      v4.None? && v6.None? && r.exit.None? ==>
        |r.sent| == 2 && Some(r.sent[0]) == mkquery(host, A) && Some(r.sent[1]) == mkquery(host, AAAA)
  {
    var name := ReverseName(host, v4, v6);
    RunFromSent(name, Plan(host, name), 0, mkquery, transport, resolved, Decoding(expand));
  }

  /**
    What the passes from `i` on print when every one of them succeeds: each
    pass's decoded response, in plan order.
   */
  function PassesPrinted(name: string, plan: seq<QType>, i: nat, mkquery: QueryBuilder, transport: Transport,
                         resolved: bool, decode: Decoder): seq<Printed>
    requires i <= |plan|
    requires forall k :: i <= k < |plan| ==> PassOk(k, mkquery(name, plan[k]), transport, resolved, decode)
    decreases |plan| - i
  {
    if i == |plan| then []
    else
      assert PassOk(i, mkquery(name, plan[i]), transport, resolved, decode);
      var q := mkquery(name, plan[i]).value;
      decode(transport(i, q).value).printed + PassesPrinted(name, plan, i + 1, mkquery, transport, resolved, decode)
  }

  /**
    When every pass from `i` on succeeds, the run succeeds and prints what
    each pass's response decoded to, one pass after the other.
   */
  lemma {:induction false} RunFromPrinted(name: string, plan: seq<QType>, i: nat, mkquery: QueryBuilder,
                                          transport: Transport, resolved: bool, decode: Decoder)
    requires i <= |plan|
    requires forall k :: i <= k < |plan| ==> PassOk(k, mkquery(name, plan[k]), transport, resolved, decode)
    ensures var r := RunFrom(name, plan, i, mkquery, transport, resolved, decode);
      r.exit.None? && r.printed == PassesPrinted(name, plan, i, mkquery, transport, resolved, decode)
    decreases |plan| - i
  {
    if i < |plan| {
      RunFromPrinted(name, plan, i + 1, mkquery, transport, resolved, decode);
      var q := mkquery(name, plan[i]).value;
      var step := Exchange(i, mkquery(name, plan[i]), transport, resolved, decode);
      assert step.exit.None? && step.printed == decode(transport(i, q).value).printed;
    }
  }

  /**
    A successful run prints the decoded answers in plan order: when the name
    looked up is the host text itself, the answer to the A query followed by
    the answer to the AAAA query; for a reverse name, the answer to the PTR
    query.
   */
  lemma SessionPrinted(host: string, v4: Option<seq<uint8>>, v6: Option<seq<uint8>>, mkquery: QueryBuilder,
                       transport: Transport, resolved: bool, expand: Expander)
    requires Parsed(v4, v6)
    requires var name := ReverseName(host, v4, v6);
      forall k :: 0 <= k < |Plan(host, name)| ==> PassOk(k, mkquery(name, Plan(host, name)[k]), transport, resolved, Decoding(expand))
    ensures var r, name := Session(host, v4, v6, mkquery, transport, resolved, expand), ReverseName(host, v4, v6);
      && r.exit.None?
      && (name == host && PassOk(0, mkquery(name, A), transport, resolved, Decoding(expand))
            && PassOk(1, mkquery(name, AAAA), transport, resolved, Decoding(expand)) ==>
            r.printed == Decode(transport(0, mkquery(name, A).value).value, expand).printed
                         + Decode(transport(1, mkquery(name, AAAA).value).value, expand).printed)
      && (name != host && PassOk(0, mkquery(name, PTR), transport, resolved, Decoding(expand)) ==>
            r.printed == Decode(transport(0, mkquery(name, PTR).value).value, expand).printed)
  {
    var name := ReverseName(host, v4, v6);
    var plan := Plan(host, name);
    RunFromPrinted(name, plan, 0, mkquery, transport, resolved, Decoding(expand));
    if name == host {
      assert PassesPrinted(name, plan, 2, mkquery, transport, resolved, Decoding(expand)) == [];
    } else {
      assert PassesPrinted(name, plan, 1, mkquery, transport, resolved, Decoding(expand)) == [];
    }
  }

  lemma SentShift(name: string, plan: seq<QType>, i: nat, mkquery: QueryBuilder, s: seq<seq<uint8>>, t: seq<seq<uint8>>)
    requires i < |plan| && |s| == 1 && Some(s[0]) == mkquery(name, plan[i]) && i + 1 + |t| <= |plan|
    requires forall k :: 0 <= k < |t| ==> mkquery(name, plan[i + 1 + k]) == Some(t[k])
    ensures forall k :: 0 <= k < |s + t| ==> mkquery(name, plan[i + k]) == Some((s + t)[k])
  {
    forall k | 0 <= k < |s + t|
      ensures mkquery(name, plan[i + k]) == Some((s + t)[k])
    {
      if k > 0 {
        assert (s + t)[k] == t[k - 1];
      }
    }
  }

  /** A run succeeds exactly when every pass from `i` on does. */
  lemma {:induction false} RunFromOk(name: string, plan: seq<QType>, i: nat, mkquery: QueryBuilder,
                                     transport: Transport, resolved: bool, decode: Decoder)
    requires i <= |plan|
    ensures RunFrom(name, plan, i, mkquery, transport, resolved, decode).exit.None?
      <==> forall k :: i <= k < |plan| ==> PassOk(k, mkquery(name, plan[k]), transport, resolved, decode)
    decreases |plan| - i
  {
    if i < |plan| {
      RunFromOk(name, plan, i + 1, mkquery, transport, resolved, decode);
    }
  }

  /**
    When the passes from `i` up to `k` succeed and pass `k` fails, the run
    reports the passes before `k` (what a plan ending before `k` reports)
    followed by pass `k`, and goes no further.
   */
  lemma {:induction false} RunFromStops(name: string, plan: seq<QType>, i: nat, k: nat, mkquery: QueryBuilder,
                                        transport: Transport, resolved: bool, decode: Decoder)
    requires i <= k < |plan|
    requires forall j :: i <= j < k ==> PassOk(j, mkquery(name, plan[j]), transport, resolved, decode)
    requires !PassOk(k, mkquery(name, plan[k]), transport, resolved, decode)
    ensures var before := RunFrom(name, plan[..k], i, mkquery, transport, resolved, decode);
      RunFrom(name, plan, i, mkquery, transport, resolved, decode)
        == Prefix(before.sent, before.printed, Exchange(k, mkquery(name, plan[k]), transport, resolved, decode))
    decreases k - i
  {
    var failed := Exchange(k, mkquery(name, plan[k]), transport, resolved, decode);
    if i == k {
      assert RunFrom(name, plan[..k], i, mkquery, transport, resolved, decode) == Report(None, [], []);
      assert failed == Prefix([], [], failed);
    } else {
      RunFromStops(name, plan, i + 1, k, mkquery, transport, resolved, decode);
      var step := Exchange(i, mkquery(name, plan[i]), transport, resolved, decode);
      assert plan[..k][i] == plan[i];
      assert RunFrom(name, plan[..k], i, mkquery, transport, resolved, decode)
        == Then(step, RunFrom(name, plan[..k], i + 1, mkquery, transport, resolved, decode));
      assert RunFrom(name, plan, i, mkquery, transport, resolved, decode)
        == Then(step, RunFrom(name, plan, i + 1, mkquery, transport, resolved, decode));
      ThenPrefix(step, RunFrom(name, plan[..k], i + 1, mkquery, transport, resolved, decode), failed);
    }
  }

  /** A successful pass followed by `before` and then `failed`, regrouped. */
  lemma ThenPrefix(step: Report, before: Report, failed: Report)
    requires step.exit.None?
    ensures var joined := Then(step, before);
      Then(step, Prefix(before.sent, before.printed, failed)) == Prefix(joined.sent, joined.printed, failed)
  {
    assert step.sent + (before.sent + failed.sent) == (step.sent + before.sent) + failed.sent;
    assert step.printed + (before.printed + failed.printed) == (step.printed + before.printed) + failed.printed;
  }

  /**
    A response whose first two bytes differ from its query's ends the run
    with `IdMismatch`: it is not walked, nothing of it is printed, and no
    later query is sent.
   */
  lemma IdMismatchEndsRun(name: string, plan: seq<QType>, k: nat, mkquery: QueryBuilder,
                          transport: Transport, resolved: bool, decode: Decoder)
    requires k < |plan|
    requires forall j :: 0 <= j < k ==> PassOk(j, mkquery(name, plan[j]), transport, resolved, decode)
    requires mkquery(name, plan[k]).Some? && (k > 0 || resolved)
    requires var q := mkquery(name, plan[k]).value;
      transport(k, q).Some? && !IdMatches(q, transport(k, q).value)
    ensures var before := RunFrom(name, plan[..k], 0, mkquery, transport, resolved, decode);
      RunFrom(name, plan, 0, mkquery, transport, resolved, decode)
        == Report(Some(IdMismatch), before.sent + [mkquery(name, plan[k]).value], before.printed)
  {
    RunFromStops(name, plan, 0, k, mkquery, transport, resolved, decode);
    var before := RunFrom(name, plan[..k], 0, mkquery, transport, resolved, decode);
    assert before.printed + [] == before.printed;
  }
}
