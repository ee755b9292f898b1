/** Dispatch and whole session runs together: where a silent signature comes from. */
module SigningRuns {
  import opened Wrappers
  import opened Wire
  import opened Methods
  import opened ScopeCheckers
  import opened Session
  import opened Dispatch
  import opened DispatchProofs
  import SessionRuns

  /** When every row the dispatcher reads is a row of one run of a fresh session, each silently
      signed intent is listed exactly by a pattern its row holds, or signs under a broad consent that
      was stored with an any-contract scope in view and kept by every row up to the one read. */
  lemma SilentSignatureTraced(
    w: World, ctx: Context, name: string, args: seq<Value>, t: nat, e: Effect,
    rows: seq<Row>, events: seq<SessionRuns.Event>)
    returns (n: nat)
    requires SessionRuns.Run(rows, events) && rows[0].consent == Undefined
    requires forall k: nat | w.row(k).Some? :: w.row(k).value in rows
    requires e in DispatchRun(w, ctx, name, args, false, t).effects
    requires e.callee == CreateAuthWit && e.sink == Execution
    ensures n < |rows| && w.row(e.readAt) == Some(rows[n])
    ensures IntentCovered(Arg(e.args, 1), rows[n].grants) && HoldsCanCreateAuthWit(rows[n].grants)
    ensures IntentListed(Arg(e.args, 1), rows[n].grants) ||
            exists i :: SessionRuns.BroadSince(rows, events, i, n)
  {
    DispatchSafety(w, ctx, name, args, false, t);
    var row := w.row(e.readAt).value;
    n :| 0 <= n < |rows| && rows[n] == row;
    SessionRuns.ConsentSafety(rows, events, n, Arg(e.args, 1));
  }
}
