# Bounce reconciliation and dev-site bootstrap, modelled in Dafny

This project models two Django management commands of the ESP Web Site.

`deactivate_bouncing_emails` pulls one page of bounce records from SendGrid's
suppression list. It classifies each record as a hard (permanent) or soft
(transient) bounce. For each hard bounce it deactivates every active ESPUser
whose address matches case-insensitively. It then asks SendGrid to delete
each processed address from the list. `setup_dev_site` makes sure the Django
Site with id 1 exists and has domain and name `localhost`.

Modules:

- `Text` (`text.dfy`): ASCII versions of Python's `str.lower()`, `str.strip()`,
  `str.startswith()` and the `in` substring test.
- `Bounces` (`bounces.dfy`): a bounce record with JSON fields that are
  missing, `null` or a string; `HARD_BOUNCE_INDICATORS`; the classifier.
- `Accounts` (`accounts.dfy`): account rows and the bulk update
  `filter(email__iexact=..., is_active=True).update(is_active=False)`.
- `Reconcile` (`reconcile.dfy`): `Command.handle` as a pure function `Run`.
  `Run` takes the configuration, the fetch result, the account table and the
  set of addresses whose delete call raises. It returns the exit point, the
  new account table, the deactivated count and the log of delete calls. The
  loop is a left fold (`Process`) of one `Step` per record. The method
  `Handle` writes the same loop imperatively, as the source does, and is
  proved equal to `Run`.
- `ReconcileProperties` (`reconcile_props.dfy`): reference definitions that do
  not mention the loop, and the lemmas that tie the loop to them.
  `FirstSeen` marks the records that get examined. `HardTargets` is the set of
  case-folded addresses that get deactivated. `FirstAddresses` is the list of
  delete calls.
- `DevSite` (`dev_site.dfy`): the Site table as a map from id to
  (domain, name), and the ensure-then-update command. Django's Site model
  declares `domain` unique, so the command fails with an integrity error,
  and writes nothing, when another site already has domain `localhost`.

Facts about the code that the model keeps:

- Deduplication within a run compares raw address strings. Two records that
  differ only in letter case are both examined, and each gets its own delete
  call. Account matching is case-insensitive.
- The indicator phrases are exactly "user unknown", "inactive" and
  "does not exist", matched as substrings of the lower-cased reason.
- The delete call uses the raw address string from the record.
- Soft bounces are deleted from the provider's list too.
- Whether a record is hard depends only on its own status and reason. The
  lemma `Bounces.ClassifyIgnoresAddress` states that changing the address
  does not change the classification. `HardTargets` applies `Classify` to
  each examined record on its own.

## Model

| member | source | states |
|---|---|---|
| Bounces.PermanentStatusIsHard | esp/esp/dbmail/management/commands/deactivate_bouncing_emails.py:101-112 | A status that reads `5.` plus anything, after optional leading whitespace, makes the bounce hard whatever the reason and address are |
| Bounces.IndicatorInAnyCaseIsHard | esp/esp/dbmail/management/commands/deactivate_bouncing_emails.py:100-112 | A reason containing one of the three indicator phrases, in any letter case and at any position, makes the bounce hard, with any status or none |
| Accounts.BulkDeactivate | esp/esp/dbmail/management/commands/deactivate_bouncing_emails.py:116-122 | The bulk update only clears `is_active`. After it, an account is active exactly when it was active and its address does not match case-insensitively. The count returned is the number of accounts that flipped |
| Accounts.CountMatchesFlipped | esp/esp/dbmail/management/commands/deactivate_bouncing_emails.py:116-119 | The number of rows the `is_active=True` filter matches equals the number of rows the update flips from active to inactive |
| Accounts.DeactivateTargetsIdempotent | esp/esp/dbmail/management/commands/deactivate_bouncing_emails.py:116-119 | Deactivating the same addresses a second time changes no account |
| Reconcile.Run | esp/esp/dbmail/management/commands/deactivate_bouncing_emails.py:55-132 | The run reaches the loop exactly when the API key is set, SendGrid is installed, the fetch answered 200 and the page is non-empty. Every other exit changes no account, counts 0 and issues no delete call |
| Reconcile.Handle | esp/esp/dbmail/management/commands/deactivate_bouncing_emails.py:95-132 | The loop with a mutable processed set, running count and a table variable replaced after each bulk update computes the same outcome as the fold |
| ReconcileProperties.ProcessMatchesReference | esp/esp/dbmail/management/commands/deactivate_bouncing_emails.py:95-130 | After any prefix of the page, the loop state matches the reference definitions. The processed set is every address seen so far. The delete log lists the examined addresses in order. The table is the original with the hard targets deactivated. The count is the number flipped |
| ReconcileProperties.RunDeactivatesHardTargets | esp/esp/dbmail/management/commands/deactivate_bouncing_emails.py:103-122 | A completed run deactivates exactly the active accounts whose case-folded address is that of an examined hard record. Every other account is unchanged |
| ReconcileProperties.RunCountsFlippedAccounts | esp/esp/dbmail/management/commands/deactivate_bouncing_emails.py:95-122 | On every path, no account is created, deleted, reordered, reactivated or otherwise edited. The reported count equals the number of accounts that went from active to inactive |
| ReconcileProperties.RunAcknowledgesExaminedRecords | esp/esp/dbmail/management/commands/deactivate_bouncing_emails.py:103-130 | A completed run issues one delete call per examined record, hard or soft, for its raw address, in page order. A call is marked failed exactly when that delete raised |
| ReconcileProperties.FirstAddressesAreDistinctAndComplete | esp/esp/dbmail/management/commands/deactivate_bouncing_emails.py:103-106 | The deleted addresses are pairwise distinct and are exactly the non-empty addresses on the page |
| ReconcileProperties.RepeatedRecordIsSkipped | esp/esp/dbmail/management/commands/deactivate_bouncing_emails.py:103-106 | Appending a record that has no address, or whose exact address string is already on the page, changes nothing about the run |
| ReconcileProperties.NewAddressIsAcknowledged | esp/esp/dbmail/management/commands/deactivate_bouncing_emails.py:103-130 | Appending a record whose address string is new adds exactly one delete call for that string, even when it differs from an earlier address only in case |
| ReconcileProperties.TwoSpellingsRun | esp/esp/dbmail/management/commands/deactivate_bouncing_emails.py:103-130 | Two records whose addresses differ only in case are both examined. A hard first record deactivates the active accounts stored under any spelling of that mailbox, and each spelling gets its own delete call |
| ReconcileProperties.SoftPageChangesNoAccount | esp/esp/dbmail/management/commands/deactivate_bouncing_emails.py:110-124 | A page whose records are all soft changes no account and counts 0 |
| ReconcileProperties.RerunIsIdempotent | esp/esp/dbmail/management/commands/deactivate_bouncing_emails.py:95-122 | Re-running on the same page against the accounts the first run left changes no account and counts 0, whichever delete calls fail |
| ReconcileProperties.DeleteFailuresAreIsolated | esp/esp/dbmail/management/commands/deactivate_bouncing_emails.py:126-130 | Whichever delete calls raise, the exit point, accounts, count and sequence of delete calls are the same. A failed delete neither stops the loop nor undoes a deactivation |
| DevSite.SetupDevSite | esp/esp/utils/management/commands/setup_dev_site.py:42-47 | The command fails with an integrity error exactly when a site other than Site 1 already has domain `localhost`. Otherwise Site 1 exists afterwards with domain and name `localhost`, the ids are the old ids plus 1, every other site is unchanged, exactly one site is created when id 1 was absent and none otherwise, and domains that were unique stay unique |
| DevSite.SetupDevSiteIdempotent | esp/esp/utils/management/commands/setup_dev_site.py:43-46 | After a successful run, running the command again succeeds and leaves the same sites |

## Left out

- The SendGrid client, the HTTP calls and decoding the response body from bytes or JSON text. The fetch is an input: `Raised`, or `Response(statusCode, bounces)`. A decoding error counts as `Raised`, which is how the source's `except` treats it. The `limit=500` page size is not modelled: the page is whatever the fetch returned.
- The result of each delete call is an input: the set of addresses whose delete raises. The code deletes each raw address at most once per run, so this set covers every pattern of failures.
- The `getattr(settings, ...)` lookup and the `sendgrid` import probe are inputs: a JSON-like field for the key and a boolean for the import.
- The Django ORM, `@transaction.atomic` and rollback. The run is one pure function, so it is all-or-nothing by construction. A crash part-way through is not modelled. For example, a page entry that is not a JSON object would make `bounce.get` raise.
- JSON values other than a missing key, `null` or a string, such as numbers or booleans in the `email`, `reason` or `status` fields.
- Unicode case folding and non-ASCII whitespace. `Lower` folds only ASCII `A`-`Z`. `IsSpace` covers only ASCII whitespace. The database's case-insensitive comparison behind `iexact` uses the same `Lower`.
- Logging and `stdout` messages in both commands. They have no effect beyond the messages.
- Concurrent, overlapping runs. The code does nothing about them.
- The other Site columns and the database id sequence. The bootstrap only touches id 1's domain and name.
- Constraints of the Site table other than the unique `domain`, and the `name` column's length limit.
- test_escape.py is not part of this model. It boots Django and prints a rendered template, and holds no logic of its own.
