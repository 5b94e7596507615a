/** What a run of the bounce job does, stated against definitions that do not
    mention the loop: which records count as first sightings, which addresses
    a run deactivates, and which delete calls it issues. */
module ReconcileProperties {
  import opened Text
  import opened Bounces
  import opened Accounts
  import opened Reconcile

  /** Record `i` is examined: it carries an address, and no earlier record
      carries the very same string. Case variants are different strings. */
  ghost predicate FirstSeen(bs: seq<Bounce>, i: int)
    requires 0 <= i < |bs|
  {
    HasAddress(bs[i]) && forall j :: 0 <= j < i ==> Address(bs[j]) != Address(bs[i])
  }

  /** Every address the page carries. */
  ghost function SeenAddresses(bs: seq<Bounce>): set<string> {
    set i | 0 <= i < |bs| && HasAddress(bs[i]) :: Address(bs[i])
  }

  /** The case-folded addresses of the examined records that are hard. */
  ghost function HardTargets(bs: seq<Bounce>): set<string> {
    set i | 0 <= i < |bs| && FirstSeen(bs, i) && Classify(bs[i]) == Hard :: Lower(Address(bs[i]))
  }

  /** The addresses of the examined records, in page order. */
  ghost function FirstAddresses(bs: seq<Bounce>): seq<string> {
    if |bs| == 0 then []
    else
      FirstAddresses(bs[..|bs| - 1]) +
      (if FirstSeen(bs, |bs| - 1) then [Address(bs[|bs| - 1])] else [])
  }

  function AckEmails(acks: seq<Ack>): seq<string> {
    seq(|acks|, k requires 0 <= k < |acks| => acks[k].email)
  }

  lemma FirstSeenPrefix(p: seq<Bounce>, b: Bounce, i: int)
    requires 0 <= i < |p|
    ensures (p + [b])[i] == p[i]
    ensures FirstSeen(p + [b], i) <==> FirstSeen(p, i)
  {
    var q := p + [b];
    assert forall j :: 0 <= j <= i ==> q[j] == p[j];
  }

  /** The appended record is examined exactly when its address is new. */
  lemma SnocFirstSeen(p: seq<Bounce>, b: Bounce)
    ensures FirstSeen(p + [b], |p|) <==> HasAddress(b) && Address(b) !in SeenAddresses(p)
  {
    var q := p + [b];
    assert q[|p|] == b;
    assert forall j :: 0 <= j < |p| ==> q[j] == p[j];
    if HasAddress(b) && Address(b) in SeenAddresses(p) {
      var j :| 0 <= j < |p| && HasAddress(p[j]) && Address(p[j]) == Address(b);
      assert Address(q[j]) == Address(q[|p|]);
    }
  }

  lemma SnocSeen(p: seq<Bounce>, b: Bounce)
    ensures SeenAddresses(p + [b]) == SeenAddresses(p) + (if HasAddress(b) then {Address(b)} else {})
  {
    var q := p + [b];
    assert forall j :: 0 <= j < |p| ==> q[j] == p[j];
    assert q[|p|] == b;
  }

  lemma SnocHardTargets(p: seq<Bounce>, b: Bounce)
    ensures HardTargets(p + [b]) == HardTargets(p) +
      (if FirstSeen(p + [b], |p|) && Classify(b) == Hard then {Lower(Address(b))} else {})
  {
    var q := p + [b];
    var extra := if FirstSeen(q, |p|) && Classify(b) == Hard then {Lower(Address(b))} else {};
    forall x | x in HardTargets(q)
      ensures x in HardTargets(p) + extra
    {
      var i :| 0 <= i < |q| && FirstSeen(q, i) && Classify(q[i]) == Hard && x == Lower(Address(q[i]));
      if i < |p| {
        FirstSeenPrefix(p, b, i);
      }
    }
    forall x | x in HardTargets(p) + extra
      ensures x in HardTargets(q)
    {
      if x in HardTargets(p) {
        var i :| 0 <= i < |p| && FirstSeen(p, i) && Classify(p[i]) == Hard && x == Lower(Address(p[i]));
        FirstSeenPrefix(p, b, i);
      } else {
        assert q[|p|] == b;
      }
    }
  }

  lemma SnocFirstAddresses(p: seq<Bounce>, b: Bounce)
    ensures FirstAddresses(p + [b]) == FirstAddresses(p) +
      (if FirstSeen(p + [b], |p|) then [Address(b)] else [])
  {
    var q := p + [b];
    assert q[..|q| - 1] == p;
  }

  /** The loop state `st` after the records `bs`, described without the loop. */
  ghost predicate Agrees(accounts: seq<Account>, bs: seq<Bounce>, failing: set<string>, st: Batch) {
    && st.processed == SeenAddresses(bs)
    && AckEmails(st.acks) == FirstAddresses(bs)
    && (forall k :: 0 <= k < |st.acks| ==> (st.acks[k].cleared <==> st.acks[k].email !in failing))
    && st.accounts == DeactivateTargets(accounts, HardTargets(bs))
    && OnlyDeactivated(accounts, st.accounts)
    && st.deactivated == Flipped(accounts, st.accounts)
  }

  /** A record with no address or an address already processed leaves the
      state as it was, and the description carries over. */
  lemma SkippedStepAgrees(accounts: seq<Account>, p: seq<Bounce>, b: Bounce, failing: set<string>, st: Batch)
    requires Agrees(accounts, p, failing, st)
    requires !HasAddress(b) || Address(b) in st.processed
    ensures Agrees(accounts, p + [b], failing, Step(st, b, failing))
  {
    SnocFirstSeen(p, b);
    SnocSeen(p, b);
    SnocHardTargets(p, b);
    SnocFirstAddresses(p, b);
  }

  /** An examined record appends its delete call and records its address. */
  lemma ExaminedStepLog(p: seq<Bounce>, b: Bounce, failing: set<string>, st: Batch, st': Batch)
    requires st.processed == SeenAddresses(p)
    requires AckEmails(st.acks) == FirstAddresses(p)
    requires forall k :: 0 <= k < |st.acks| ==> (st.acks[k].cleared <==> st.acks[k].email !in failing)
    requires HasAddress(b) && Address(b) !in st.processed
    requires st'.processed == st.processed + {Address(b)}
    requires st'.acks == st.acks + [Ack(Address(b), Address(b) !in failing)]
    ensures st'.processed == SeenAddresses(p + [b])
    ensures AckEmails(st'.acks) == FirstAddresses(p + [b])
    ensures forall k :: 0 <= k < |st'.acks| ==> (st'.acks[k].cleared <==> st'.acks[k].email !in failing)
  {
    SnocFirstSeen(p, b);
    SnocSeen(p, b);
    SnocFirstAddresses(p, b);
    assert AckEmails(st'.acks) == AckEmails(st.acks) + [Address(b)];
  }

  /** An examined record changes the table exactly as adding its target does. */
  lemma ExaminedStepTable(accounts: seq<Account>, p: seq<Bounce>, b: Bounce, failing: set<string>, st: Batch)
    requires Agrees(accounts, p, failing, st)
    requires HasAddress(b) && Address(b) !in st.processed
    ensures var st' := Step(st, b, failing);
      && st'.accounts == DeactivateTargets(accounts, HardTargets(p + [b]))
      && OnlyDeactivated(accounts, st'.accounts)
      && st'.deactivated == Flipped(accounts, st'.accounts)
  {
    SnocFirstSeen(p, b);
    SnocHardTargets(p, b);
    if Classify(b) == Hard {
      var u := BulkDeactivate(st.accounts, Address(b));
      DeactivateTargetsCompose(accounts, HardTargets(p), {Lower(Address(b))});
      FlippedAdds(accounts, st.accounts, u.accounts);
    }
  }

  /** One loop iteration keeps the description true. */
  lemma StepAgrees(accounts: seq<Account>, p: seq<Bounce>, b: Bounce, failing: set<string>, st: Batch)
    requires Agrees(accounts, p, failing, st)
    ensures Agrees(accounts, p + [b], failing, Step(st, b, failing))
  {
    if !HasAddress(b) || Address(b) in st.processed {
      SkippedStepAgrees(accounts, p, b, failing, st);
    } else {
      ExaminedStepLog(p, b, failing, st, Step(st, b, failing));
      ExaminedStepTable(accounts, p, b, failing, st);
    }
  }

  /** The loop's state after any prefix of the page agrees with the description. */
  lemma {:induction false} ProcessMatchesReference(accounts: seq<Account>, bs: seq<Bounce>, failing: set<string>)
    ensures Agrees(accounts, bs, failing, Process(Start(accounts), bs, failing))
  {
    if |bs| == 0 {
      assert DeactivateTargets(accounts, {}) == accounts;
      FlippedNone(accounts);
    } else {
      var p := bs[..|bs| - 1];
      var b := bs[|bs| - 1];
      assert bs == p + [b];
      ProcessMatchesReference(accounts, p, failing);
      ProcessSnoc(Start(accounts), p, b, failing);
      StepAgrees(accounts, p, b, failing, Process(Start(accounts), p, failing));
    }
  }

  /** A completed run deactivates exactly the active accounts whose address
      matches, case-insensitively, the address of some examined hard record;
      every other account is left exactly as it was. */
  lemma RunDeactivatesHardTargets(cfg: Config, fetch: Fetch, accounts: seq<Account>, failing: set<string>)
    requires GuardsPass(cfg, fetch)
    ensures var out := Run(cfg, fetch, accounts, failing);
      && |out.accounts| == |accounts|
      && forall i :: 0 <= i < |accounts| ==>
           out.accounts[i] ==
             if accounts[i].isActive && Lower(accounts[i].email) in HardTargets(fetch.bounces)
             then Deactivate(accounts[i]) else accounts[i]
  {
    ProcessMatchesReference(accounts, fetch.bounces, failing);
  }

  /** Whatever the inputs, the run only ever clears `is_active` (no account is
      created, deleted, reactivated or otherwise edited) and the count it
      reports is the number of accounts that went from active to inactive. */
  lemma RunCountsFlippedAccounts(cfg: Config, fetch: Fetch, accounts: seq<Account>, failing: set<string>)
    ensures var out := Run(cfg, fetch, accounts, failing);
      OnlyDeactivated(accounts, out.accounts) && out.deactivated == Flipped(accounts, out.accounts)
  {
    if GuardsPass(cfg, fetch) {
      ProcessMatchesReference(accounts, fetch.bounces, failing);
    } else {
      FlippedNone(accounts);
    }
  }

  /** A completed run issues one delete call per examined record, for the raw
      address, in page order, whether the record was hard or soft; a call is
      marked failed exactly when that address's delete raised. */
  lemma RunAcknowledgesExaminedRecords(cfg: Config, fetch: Fetch, accounts: seq<Account>, failing: set<string>)
    requires GuardsPass(cfg, fetch)
    ensures var out := Run(cfg, fetch, accounts, failing);
      && AckEmails(out.acks) == FirstAddresses(fetch.bounces)
      && forall k :: 0 <= k < |out.acks| ==> (out.acks[k].cleared <==> out.acks[k].email !in failing)
  {
    ProcessMatchesReference(accounts, fetch.bounces, failing);
  }

  /** The examined addresses are pairwise distinct and are exactly the
      addresses the page carries: each one gets exactly one delete call. */
  lemma {:induction false} FirstAddressesAreDistinctAndComplete(bs: seq<Bounce>)
    ensures forall k, l :: 0 <= k < l < |FirstAddresses(bs)| ==> FirstAddresses(bs)[k] != FirstAddresses(bs)[l]
    ensures forall e :: e in FirstAddresses(bs) <==> e in SeenAddresses(bs)
  {
    if |bs| > 0 {
      var p := bs[..|bs| - 1];
      var b := bs[|bs| - 1];
      assert bs == p + [b];
      FirstAddressesAreDistinctAndComplete(p);
      SnocFirstSeen(p, b);
      SnocSeen(p, b);
      SnocFirstAddresses(p, b);
    }
  }

  /** Appending a record with no address, or with an address string already on
      the page, changes nothing about the run. */
  lemma RepeatedRecordIsSkipped(cfg: Config, bs: seq<Bounce>, b: Bounce, accounts: seq<Account>, failing: set<string>)
    requires |bs| > 0
    requires !HasAddress(b) || exists j :: 0 <= j < |bs| && Address(bs[j]) == Address(b)
    ensures Run(cfg, Response(200, bs + [b]), accounts, failing) == Run(cfg, Response(200, bs), accounts, failing)
  {
    ProcessSnoc(Start(accounts), bs, b, failing);
    ProcessMatchesReference(accounts, bs, failing);
    if HasAddress(b) {
      var j :| 0 <= j < |bs| && Address(bs[j]) == Address(b);
      assert HasAddress(bs[j]);
      assert Address(b) in SeenAddresses(bs);
    }
  }

  /** Appending a record whose address string is new, even when it differs
      from an earlier one only in letter case, adds exactly one delete call
      for that string. */
  lemma NewAddressIsAcknowledged(cfg: Config, bs: seq<Bounce>, b: Bounce, accounts: seq<Account>, failing: set<string>)
    requires ApiKeySet(cfg) && cfg.sendgridInstalled
    requires HasAddress(b)
    requires forall j :: 0 <= j < |bs| ==> Address(bs[j]) != Address(b)
    ensures Run(cfg, Response(200, bs + [b]), accounts, failing).acks ==
      Run(cfg, Response(200, bs), accounts, failing).acks + [Ack(Address(b), Address(b) !in failing)]
  {
    ProcessSnoc(Start(accounts), bs, b, failing);
    ProcessMatchesReference(accounts, bs, failing);
    assert Address(b) !in SeenAddresses(bs);
  }

  /** A page of soft records only changes no account. */
  lemma SoftPageChangesNoAccount(cfg: Config, fetch: Fetch, accounts: seq<Account>, failing: set<string>)
    requires fetch.Response?
    requires forall i :: 0 <= i < |fetch.bounces| ==> Classify(fetch.bounces[i]) == Soft
    ensures var out := Run(cfg, fetch, accounts, failing);
      out.accounts == accounts && out.deactivated == 0
  {
    if GuardsPass(cfg, fetch) {
      ProcessMatchesReference(accounts, fetch.bounces, failing);
      assert HardTargets(fetch.bounces) == {};
      assert DeactivateTargets(accounts, {}) == accounts;
      FlippedNone(accounts);
    }
  }

  /** Running the job again on the same page, against the accounts the first
      run left, changes no account and reports zero deactivations, whatever
      delete calls fail in either run. */
  lemma RerunIsIdempotent(cfg: Config, fetch: Fetch, accounts: seq<Account>, failing: set<string>, failing': set<string>)
    ensures var first := Run(cfg, fetch, accounts, failing);
      var second := Run(cfg, fetch, first.accounts, failing');
      second.accounts == first.accounts && second.deactivated == 0
  {
    var first := Run(cfg, fetch, accounts, failing);
    if GuardsPass(cfg, fetch) {
      ProcessMatchesReference(accounts, fetch.bounces, failing);
      ProcessMatchesReference(first.accounts, fetch.bounces, failing');
      DeactivateTargetsIdempotent(accounts, HardTargets(fetch.bounces));
      FlippedNone(first.accounts);
    }
  }

  /** Failed delete calls do not stop the loop and do not undo anything: the
      accounts, the count and the sequence of delete calls are the same
      whichever calls fail. */
  lemma DeleteFailuresAreIsolated(cfg: Config, fetch: Fetch, accounts: seq<Account>, failing: set<string>, failing': set<string>)
    ensures var a := Run(cfg, fetch, accounts, failing);
      var b := Run(cfg, fetch, accounts, failing');
      a.exit == b.exit && a.accounts == b.accounts && a.deactivated == b.deactivated &&
      AckEmails(a.acks) == AckEmails(b.acks)
  {
    if GuardsPass(cfg, fetch) {
      ProcessMatchesReference(accounts, fetch.bounces, failing);
      ProcessMatchesReference(accounts, fetch.bounces, failing');
    }
  }

  /** On a two-record page whose addresses are distinct strings that fold
      to the same mailbox, a hard first record makes that mailbox the only
      target. */
  lemma TwoSpellingsTargets(b0: Bounce, b1: Bounce, mailbox: string)
    requires HasAddress(b0) && HasAddress(b1) && Address(b0) != Address(b1)
    requires Lower(Address(b0)) == mailbox && Lower(Address(b1)) == mailbox
    requires Classify(b0) == Hard
    ensures HardTargets([b0, b1]) == {mailbox}
  {
    var bs := [b0, b1];
    assert FirstSeen(bs, 0);
    assert mailbox in HardTargets(bs);
    forall x | x in HardTargets(bs)
      ensures x == mailbox
    {
      var i :| 0 <= i < |bs| && FirstSeen(bs, i) && Classify(bs[i]) == Hard && x == Lower(Address(bs[i]));
      assert i == 0 || i == 1;
    }
  }

  /** Both records of such a page are examined, in order. */
  lemma TwoSpellingsAddresses(b0: Bounce, b1: Bounce)
    requires HasAddress(b0) && HasAddress(b1) && Address(b0) != Address(b1)
    ensures FirstAddresses([b0, b1]) == [Address(b0), Address(b1)]
  {
    var bs := [b0, b1];
    assert bs[..1] == [b0];
    assert [b0][..0] == [];
    assert FirstSeen([b0], 0);
    assert FirstAddresses([b0]) == [Address(b0)];
    assert FirstSeen(bs, 1);
  }

  /** Two records for one mailbox whose addresses differ only in letter case
      (say `a@x.com` with a 5.x.x status, then `A@X.com`) are both examined:
      the run deactivates the active accounts stored under any spelling of
      that mailbox, counts them, and issues one delete call for each of the two
      spellings, whatever the second record's classification. */
  lemma TwoSpellingsRun(cfg: Config, b0: Bounce, b1: Bounce, mailbox: string, accounts: seq<Account>)
    requires ApiKeySet(cfg) && cfg.sendgridInstalled
    requires HasAddress(b0) && HasAddress(b1) && Address(b0) != Address(b1)
    requires Lower(Address(b0)) == mailbox && Lower(Address(b1)) == mailbox
    requires Classify(b0) == Hard
    ensures var out := Run(cfg, Response(200, [b0, b1]), accounts, {});
      && out.exit == Completed
      && out.accounts == DeactivateTargets(accounts, {mailbox})
      && out.deactivated == Flipped(accounts, out.accounts)
      && out.acks == [Ack(Address(b0), true), Ack(Address(b1), true)]
  {
    var fetch := Response(200, [b0, b1]);
    var out := Run(cfg, fetch, accounts, {});
    TwoSpellingsTargets(b0, b1, mailbox);
    TwoSpellingsAddresses(b0, b1);
    RunDeactivatesHardTargets(cfg, fetch, accounts, {});
    RunCountsFlippedAccounts(cfg, fetch, accounts, {});
    RunAcknowledgesExaminedRecords(cfg, fetch, accounts, {});
    var emails := AckEmails(out.acks);
    assert |out.acks| == |emails| == 2;
    assert out.acks[0] == Ack(emails[0], true);
    assert out.acks[1] == Ack(emails[1], true);
  }
}
