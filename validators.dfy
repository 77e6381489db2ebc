/** The request-parameter validators of the spreadsheet ledger proxy
    (nmdc-orcid-creditor-proxy/Code.gs.js).

    Each validator receives a query parameter, which is `undefined` when the
    request does not carry it (modelled as `None`). It accepts the value and
    returns it unchanged, or rejects it with the error message that the proxy
    puts into its JSON error response. */
module ProxyValidators {
  import opened Wrappers
  import opened Digits

  datatype Validated = Accepted(value: string) | Rejected(error: string)

  const INVALID_SHARED_SECRET := "Unauthorized. Invalid shared_secret."
  const INVALID_ORCID_ID := "Bad request. Invalid orcid_id."
  const INVALID_CREDIT_TYPE := "Bad request. Invalid credit_type."
  const INVALID_TIMESTAMP := "Bad request. Invalid start_date and/or end_date."

  /** The ORCID pattern `^\d{4}-\d{4}-\d{4}-\d{3}[0-9X]$`, read group by group.
      The checksum character is not verified (ISO/IEC 7064 MOD 11-2 is not computed). */
  predicate MatchesOrcidPattern(s: string) {
    && |s| == 19
    && AllDigits(s[0..4]) && s[4] == '-'
    && AllDigits(s[5..9]) && s[9] == '-'
    && AllDigits(s[10..14]) && s[14] == '-'
    && AllDigits(s[15..18])
    && (IsDigit(s[18]) || s[18] == 'X')
  }

  /** Which character an ORCID iD holds at a given position. */
  predicate OrcidCharAt(s: string, i: int)
    requires 0 <= i < |s|
  {
    if i == 4 || i == 9 || i == 14 then s[i] == '-'
    else if i == 18 then IsDigit(s[i]) || s[i] == 'X'
    else IsDigit(s[i])
  }

  /** The pattern, read character by character: 19 characters, hyphens at
      indexes 4, 9 and 14, a digit or `X` last and digits elsewhere. */
  lemma {:induction false} OrcidPatternByPosition(s: string)
    ensures MatchesOrcidPattern(s) <==> |s| == 19 && forall i :: 0 <= i < 19 ==> OrcidCharAt(s, i)
  {
    if |s| == 19 {
      if MatchesOrcidPattern(s) {
        forall i | 0 <= i < 19 ensures OrcidCharAt(s, i) {
          if i < 4 { assert s[0..4][i] == s[i]; }
          else if 4 < i < 9 { assert s[5..9][i - 5] == s[i]; }
          else if 9 < i < 14 { assert s[10..14][i - 10] == s[i]; }
          else if 14 < i < 18 { assert s[15..18][i - 15] == s[i]; }
        }
      }
      if forall i :: 0 <= i < 19 ==> OrcidCharAt(s, i) {
        forall i | 0 <= i < 19 && i != 4 && i != 9 && i != 14 && i != 18 ensures IsDigit(s[i]) {
          assert OrcidCharAt(s, i);
        }
        DigitRun(s, 0, 4);
        DigitRun(s, 5, 9);
        DigitRun(s, 10, 14);
        DigitRun(s, 15, 18);
        assert OrcidCharAt(s, 4) && OrcidCharAt(s, 9) && OrcidCharAt(s, 14) && OrcidCharAt(s, 18);
      }
    }
  }

  lemma DigitRun(s: string, lo: nat, hi: nat)
    requires lo <= hi <= |s|
    requires forall i :: lo <= i < hi ==> IsDigit(s[i])
    ensures AllDigits(s[lo..hi])
  {
    assert forall i :: 0 <= i < hi - lo ==> s[lo..hi][i] == s[lo + i];
  }

  /** validateSharedSecret: only the configured secret is accepted. */
  function ValidateSharedSecret(sharedSecret: Option<string>, configuredSecret: string): (r: Validated)
    ensures r.Accepted? <==> sharedSecret == Some(configuredSecret)
    ensures r.Accepted? ==> r.value == configuredSecret
    ensures r.Rejected? ==> r.error == INVALID_SHARED_SECRET
  {
    if sharedSecret.Some? && sharedSecret.value == configuredSecret then
      Accepted(sharedSecret.value)
    else
      Rejected(INVALID_SHARED_SECRET)
  }

  /** validateOrcidId: syntax only, the checksum is not calculated. */
  function ValidateOrcidId(orcidId: Option<string>): (r: Validated)
    ensures r.Accepted? <==> orcidId.Some? && |orcidId.value| == 19 &&
                             forall i :: 0 <= i < 19 ==> OrcidCharAt(orcidId.value, i)
    ensures r.Accepted? ==> r.value == orcidId.value && r.value != "column.ORCID_ID"
    ensures r.Rejected? ==> r.error == INVALID_ORCID_ID
  {
    match orcidId
    case Some(s) =>
      OrcidPatternByPosition(s);
      if MatchesOrcidPattern(s) then Accepted(s) else Rejected(INVALID_ORCID_ID)
    case None => Rejected(INVALID_ORCID_ID)
  }

  /** validateCreditType: any non-empty string (presence in the sheet is not checked). */
  function ValidateCreditType(creditType: Option<string>): (r: Validated)
    ensures r.Accepted? <==> creditType.Some? && creditType.value != ""
    ensures r.Accepted? ==> r.value == creditType.value
    ensures r.Rejected? ==> r.error == INVALID_CREDIT_TYPE
  {
    if creditType.Some? && creditType.value != "" then
      Accepted(creditType.value)
    else
      Rejected(INVALID_CREDIT_TYPE)
  }

  /** validateOptionalTimestamp: every string, the empty one included, is accepted
      (only a missing parameter is rejected). */
  function ValidateOptionalTimestamp(optionalTimestamp: Option<string>): (r: Validated)
    ensures r.Accepted? <==> optionalTimestamp.Some?
    ensures r.Accepted? ==> r.value == optionalTimestamp.value
    ensures r.Rejected? ==> r.error == INVALID_TIMESTAMP
  {
    if optionalTimestamp.Some? then
      Accepted(optionalTimestamp.value)
    else
      Rejected(INVALID_TIMESTAMP)
  }
}
