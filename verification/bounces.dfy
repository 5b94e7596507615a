/** A bounce record as the provider returns it, and the hard/soft classifier
    of deactivate_bouncing_emails.py. */
module Bounces {
  import opened Text

  /** One key of a decoded JSON object: absent, `null`, or a string. */
  datatype Field = Missing | Null | Str(s: string)

  /** `str(record.get(key, default))`: a missing key gives the default and
      `null` renders as Python's `"None"`. */
  function FieldText(f: Field, default: string): string {
    match f
    case Missing => default
    case Null => "None"
    case Str(s) => s
  }

  datatype Bounce = Bounce(email: Field, reason: Field, status: Field)

  /** `record.get("email")` is truthy: a present, non-empty string. */
  predicate HasAddress(b: Bounce) {
    b.email.Str? && b.email.s != ""
  }

  /** The raw address string, exactly as the provider sent it. */
  function Address(b: Bounce): string {
    if b.email.Str? then b.email.s else ""
  }

  /** The reason text after `.lower()`. */
  function ReasonText(b: Bounce): string {
    Lower(FieldText(b.reason, ""))
  }

  /** The status text after `.strip()`. */
  function StatusText(b: Bounce): string {
    Strip(FieldText(b.status, ""))
  }

  /** The phrases whose presence in the lower-cased reason marks a permanent
      failure; exactly these three, matched as substrings. */
  const HardBounceIndicators: seq<string> := ["user unknown", "inactive", "does not exist"]

  datatype Kind = Hard | Soft

  predicate PermanentStatus(b: Bounce) {
    StartsWith(StatusText(b), "5.")
  }

  predicate MentionsIndicator(b: Bounce) {
    exists k :: 0 <= k < |HardBounceIndicators| && Contains(ReasonText(b), HardBounceIndicators[k])
  }

  /** A 5.x.x status or an indicator phrase makes a bounce hard; anything else
      is soft. Only the bounce's own status and reason are consulted. */
  function Classify(b: Bounce): Kind {
    if PermanentStatus(b) || MentionsIndicator(b) then Hard else Soft
  }

  /** A status of the form `5.<anything>`, even padded with whitespace, makes
      the bounce hard whatever its reason and address say. */
  lemma PermanentStatusIsHard(b: Bounce, ws: string, rest: string)
    requires AllSpace(ws)
    requires b.status == Str(ws + "5." + rest)
    ensures Classify(b) == Hard
  {
    var status := ws + "5." + rest;
    StripKeepsNonBlankPrefix(ws, "5.", rest);
    assert StartsWith(Strip(status), "5.");
  }

  /** An indicator phrase written in any mix of letter case anywhere in the
      reason makes the bounce hard, whatever the status is or whether it is
      present at all. */
  lemma IndicatorInAnyCaseIsHard(b: Bounce, pre: string, phrase: string, post: string, k: nat)
    requires k < |HardBounceIndicators|
    requires Lower(phrase) == HardBounceIndicators[k]
    requires FieldText(b.reason, "") == pre + phrase + post
    ensures Classify(b) == Hard
  {
    LowerAppend(pre + phrase, post);
    LowerAppend(pre, phrase);
    assert ReasonText(b) == Lower(pre) + HardBounceIndicators[k] + Lower(post);
    ContainsInfix(Lower(pre), HardBounceIndicators[k], Lower(post));
  }

  /** The classification reads only the record's status and reason: the
      address, and so every earlier record and every account, plays no part. */
  lemma ClassifyIgnoresAddress(b: Bounce, email: Field)
    ensures Classify(b.(email := email)) == Classify(b)
  {
  }
}
