/** The slice of the account table the bounce job touches: the `email` and
    `is_active` columns of ESPUser rows, and the bulk deactivation
    `filter(email__iexact=..., is_active=True).update(is_active=False)`. */
module Accounts {
  import opened Text

  datatype Account = Account(id: int, username: string, email: string, isActive: bool)

  /** The `email__iexact` lookup: equal once both sides are case folded. */
  predicate SameAddress(a: string, b: string) {
    Lower(a) == Lower(b)
  }

  /** An account an update filtered on `is_active=True` and on any of the
      case-folded addresses in `targets` selects. */
  predicate Targeted(a: Account, targets: set<string>) {
    a.isActive && Lower(a.email) in targets
  }

  function Deactivate(a: Account): Account {
    a.(isActive := false)
  }

  /** Every targeted account with `is_active` cleared, every other row as it was. */
  function DeactivateTargets(accounts: seq<Account>, targets: set<string>): (r: seq<Account>)
    ensures OnlyDeactivated(accounts, r)
    ensures forall i :: 0 <= i < |r| ==>
      (r[i].isActive <==> accounts[i].isActive && Lower(accounts[i].email) !in targets)
  {
    seq(|accounts|, i requires 0 <= i < |accounts| =>
      if Targeted(accounts[i], targets) then Deactivate(accounts[i]) else accounts[i])
  }

  /** The number of rows such a filter matches. */
  function CountTargeted(accounts: seq<Account>, targets: set<string>): nat {
    if |accounts| == 0 then 0
    else (if Targeted(accounts[0], targets) then 1 else 0) + CountTargeted(accounts[1..], targets)
  }

  /** `after` is `before` with `is_active` cleared on some rows: no row is
      created, deleted, reordered or reactivated, and no other column moves. */
  predicate OnlyDeactivated(before: seq<Account>, after: seq<Account>) {
    |before| == |after| &&
    forall i :: 0 <= i < |before| ==> after[i] == before[i] || after[i] == Deactivate(before[i])
  }

  /** How many rows went from active to inactive between `before` and `after`. */
  function Flipped(before: seq<Account>, after: seq<Account>): nat
    requires |before| == |after|
  {
    if |before| == 0 then 0
    else (if before[0].isActive && !after[0].isActive then 1 else 0) + Flipped(before[1..], after[1..])
  }

  /** The outcome of one bulk update: the new rows and the count `update()` returned. */
  datatype Update = Update(accounts: seq<Account>, updated: nat)

  /** `ESPUser.objects.filter(email__iexact=email, is_active=True).update(is_active=False)`.
      Exactly the active accounts whose address matches case-insensitively
      become inactive, and the returned count is the number that flipped. */
  function BulkDeactivate(accounts: seq<Account>, email: string): (r: Update)
    ensures OnlyDeactivated(accounts, r.accounts)
    ensures forall i :: 0 <= i < |accounts| ==>
      (r.accounts[i].isActive <==> accounts[i].isActive && !SameAddress(accounts[i].email, email))
    ensures r.updated == Flipped(accounts, r.accounts)
  {
    var targets := {Lower(email)};
    CountMatchesFlipped(accounts, targets);
    Update(DeactivateTargets(accounts, targets), CountTargeted(accounts, targets))
  }

  /** The rows an update matches are exactly the rows it flips, because the
      filter only admits active rows. */
  lemma {:induction false} CountMatchesFlipped(accounts: seq<Account>, targets: set<string>)
    ensures CountTargeted(accounts, targets) == Flipped(accounts, DeactivateTargets(accounts, targets))
  {
    if |accounts| > 0 {
      CountMatchesFlipped(accounts[1..], targets);
      assert DeactivateTargets(accounts, targets)[1..] == DeactivateTargets(accounts[1..], targets);
    }
  }

  /** Two bulk deactivations in a row act like one over both address sets. */
  lemma DeactivateTargetsCompose(accounts: seq<Account>, t: set<string>, u: set<string>)
    ensures DeactivateTargets(DeactivateTargets(accounts, t), u) == DeactivateTargets(accounts, t + u)
  {
  }

  /** Deactivating the same addresses again changes nothing. */
  lemma DeactivateTargetsIdempotent(accounts: seq<Account>, t: set<string>)
    ensures DeactivateTargets(DeactivateTargets(accounts, t), t) == DeactivateTargets(accounts, t)
  {
    DeactivateTargetsCompose(accounts, t, t);
    assert t + t == t;
  }

  lemma {:induction false} FlippedNone(accounts: seq<Account>)
    ensures Flipped(accounts, accounts) == 0
  {
    if |accounts| > 0 {
      FlippedNone(accounts[1..]);
    }
  }

  /** Flip counts of successive one-way changes add up. */
  lemma {:induction false} FlippedAdds(a: seq<Account>, b: seq<Account>, c: seq<Account>)
    requires OnlyDeactivated(a, b) && OnlyDeactivated(b, c)
    ensures OnlyDeactivated(a, c)
    ensures Flipped(a, c) == Flipped(a, b) + Flipped(b, c)
  {
    if |a| > 0 {
      FlippedAdds(a[1..], b[1..], c[1..]);
    }
  }
}
