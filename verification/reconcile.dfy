/** `Command.handle` of deactivate_bouncing_emails.py with the provider's I/O
    turned into inputs: the configuration guards, the fetched page of bounces,
    and the per-record loop that deduplicates, classifies, deactivates
    matching accounts and asks the provider to clear each processed address. */
module Reconcile {
  import opened Bounces
  import opened Accounts

  /** The `SENDGRID_API_KEY` setting as `getattr(settings, ..., None)` sees it,
      and whether `from sendgrid import SendGridAPIClient` succeeds. */
  datatype Config = Config(apiKey: Field, sendgridInstalled: bool)

  /** What the bounce listing call produced: it (or decoding its body) raised,
      or it answered with a status code and a decoded list of bounces. */
  datatype Fetch = Raised | Response(statusCode: int, bounces: seq<Bounce>)

  /** One delete call for an address; `cleared` is false when the call raised. */
  datatype Ack = Ack(email: string, cleared: bool)

  /** Where the command returned. */
  datatype Exit = NoApiKey | SendGridMissing | FetchRejected | FetchFailed | NoBounces | Completed

  datatype Outcome = Outcome(exit: Exit, accounts: seq<Account>, deactivated: nat, acks: seq<Ack>)

  /** The loop's state: the account table, `deactivated_count`,
      `processed_emails`, and the delete calls issued so far. */
  datatype Batch = Batch(accounts: seq<Account>, deactivated: nat, processed: set<string>, acks: seq<Ack>)

  function Start(accounts: seq<Account>): Batch {
    Batch(accounts, 0, {}, [])
  }

  /** `not api_key`: a missing, `None` or empty setting stops the run. */
  predicate ApiKeySet(cfg: Config) {
    cfg.apiKey.Str? && cfg.apiKey.s != ""
  }

  /** All five guards let the run reach the loop. */
  predicate GuardsPass(cfg: Config, fetch: Fetch) {
    ApiKeySet(cfg) && cfg.sendgridInstalled &&
    fetch.Response? && fetch.statusCode == 200 && |fetch.bounces| > 0
  }

  /** One iteration of the loop. `failing` holds the addresses whose delete
      call raises; since one address is deleted at most once per run, this
      set describes every possible pattern of delete failures. */
  function Step(st: Batch, b: Bounce, failing: set<string>): Batch {
    if !HasAddress(b) || Address(b) in st.processed then st
    else
      var email := Address(b);
      var st' :=
        if Classify(b) == Hard then
          var u := BulkDeactivate(st.accounts, email);
          st.(accounts := u.accounts, deactivated := st.deactivated + u.updated)
        else st;
      st'.(processed := st.processed + {email}, acks := st.acks + [Ack(email, email !in failing)])
  }

  /** The loop over the bounces, in the order received. */
  function Process(st: Batch, bs: seq<Bounce>, failing: set<string>): Batch
    decreases |bs|
  {
    if |bs| == 0 then st else Process(Step(st, bs[0], failing), bs[1..], failing)
  }

  /** The whole command. The run changes something only when it reaches the
      loop, and it reaches the loop exactly when every guard passes. */
  function Run(cfg: Config, fetch: Fetch, accounts: seq<Account>, failing: set<string>): (out: Outcome)
    ensures out.exit != Completed ==> out.accounts == accounts && out.deactivated == 0 && out.acks == []
    ensures out.exit == Completed <==> GuardsPass(cfg, fetch)
  {
    if !ApiKeySet(cfg) then Outcome(NoApiKey, accounts, 0, [])
    else if !cfg.sendgridInstalled then Outcome(SendGridMissing, accounts, 0, [])
    else if fetch.Raised? then Outcome(FetchFailed, accounts, 0, [])
    else if fetch.statusCode != 200 then Outcome(FetchRejected, accounts, 0, [])
    else if |fetch.bounces| == 0 then Outcome(NoBounces, accounts, 0, [])
    else
      var st := Process(Start(accounts), fetch.bounces, failing);
      Outcome(Completed, st.accounts, st.deactivated, st.acks)
  }

  /** Processing `bs` then one more bounce is one more step. */
  lemma {:induction false} ProcessSnoc(st: Batch, bs: seq<Bounce>, b: Bounce, failing: set<string>)
    ensures Process(st, bs + [b], failing) == Step(Process(st, bs, failing), b, failing)
    decreases |bs|
  {
    if |bs| == 0 {
      assert [b][1..] == [];
    } else {
      assert (bs + [b])[1..] == bs[1..] + [b];
      ProcessSnoc(Step(st, bs[0], failing), bs[1..], b, failing);
    }
  }

  /** The loop as the source writes it: a mutable set of processed addresses,
      a running count and a table variable replaced after each bulk update. */
  method Handle(cfg: Config, fetch: Fetch, accounts: seq<Account>, failing: set<string>)
    returns (out: Outcome)
    ensures out == Run(cfg, fetch, accounts, failing)
  {
    if !ApiKeySet(cfg) {
      return Outcome(NoApiKey, accounts, 0, []);
    }
    if !cfg.sendgridInstalled {
      return Outcome(SendGridMissing, accounts, 0, []);
    }
    if fetch.Raised? {
      return Outcome(FetchFailed, accounts, 0, []);
    }
    if fetch.statusCode != 200 {
      return Outcome(FetchRejected, accounts, 0, []);
    }
    var bounces := fetch.bounces;
    if |bounces| == 0 {
      return Outcome(NoBounces, accounts, 0, []);
    }
    var table := accounts;
    var count: nat := 0;
    var processed: set<string> := {};
    var acks: seq<Ack> := [];
    var i := 0;
    while i < |bounces|
      invariant 0 <= i <= |bounces|
      invariant Process(Batch(table, count, processed, acks), bounces[i..], failing)
             == Process(Start(accounts), bounces, failing)
    {
      var b := bounces[i];
      ghost var before := Batch(table, count, processed, acks);
      assert bounces[i..][1..] == bounces[i + 1..];
      assert Process(before, bounces[i..], failing) == Process(Step(before, b, failing), bounces[i + 1..], failing);
      if HasAddress(b) && Address(b) !in processed {
        var email := Address(b);
        processed := processed + {email};
        if Classify(b) == Hard {
          var u := BulkDeactivate(table, email);
          table := u.accounts;
          count := count + u.updated;
        }
        acks := acks + [Ack(email, email !in failing)];
      }
      assert Batch(table, count, processed, acks) == Step(before, b, failing);
      i := i + 1;
    }
    assert bounces[i..] == [];
    return Outcome(Completed, table, count, acks);
  }
}
