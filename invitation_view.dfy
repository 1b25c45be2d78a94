/**
 * What an invitation looks like in a response: `maskEmail` and `sanitizeInvitation` of
 * src/routes/households/utils.ts (api/src/routes/households.ts holds the same two, with the
 * masking regex written inline in its `sanitizeInvitation`).
 *
 * `email.replace(/(^.).+(@.+$)/, '$1***$2')`: the regex is anchored at both ends and `.` does
 * not match a line terminator, so it matches only a whole string free of line terminators;
 * the greedy `.+` makes `$2` start at the LAST '@' that has at least one character before it
 * other than the first and at least one character after it.
 */
module InvitationView {
  import opened Text

  /** An '@' at index `j` can start group 2: index at least 2, and at least one character after it. */
  predicate SplitAt(s: string, j: int) {
    2 <= j <= |s| - 2 && s[j] == '@'
  }

  /** `j` is the split the greedy `.+` chooses: no later index can start group 2. */
  predicate LastSplitAt(s: string, j: int) {
    SplitAt(s, j) && forall i :: j < i < |s| ==> !SplitAt(s, i)
  }

  predicate NoLineTerminator(s: string) {
    forall i :: 0 <= i < |s| ==> !IsJsLineTerminator(s[i])
  }

  /** The masking regex matches `s`. */
  predicate MaskMatches(s: string) {
    NoLineTerminator(s) && exists j :: 0 <= j < |s| && SplitAt(s, j)
  }

  /** The largest split index not above `j`, or -1 when there is none. */
  function LastSplitFrom(s: string, j: int): (k: int)
    requires j < |s|
    ensures k == -1 || (SplitAt(s, k) && k <= j)
    ensures forall i :: k < i <= j ==> !SplitAt(s, i)
    decreases j
  {
    if j < 2 then -1 else if SplitAt(s, j) then j else LastSplitFrom(s, j - 1)
  }

  /**
   * `maskEmail(email)`: when the regex matches, the first character, "***", and the rest
   * from the split '@' on; otherwise the e-mail unchanged.
   */
  function MaskEmail(email: string): (r: string)
    ensures !MaskMatches(email) ==> r == email
    ensures MaskMatches(email) ==>
      && |r| >= 6 && r[..4] == email[..1] + "***"
      && LastSplitAt(email, |email| - (|r| - 4))
      && r[4..] == email[|email| - (|r| - 4)..]
  {
    if !NoLineTerminator(email) || |email| < 4 then email
    else
      var k := LastSplitFrom(email, |email| - 2);
      if k < 2 then email else email[..1] + "***" + email[k..]
  }

  /** Masking an already masked address changes nothing. */
  lemma MaskEmailIdempotent(email: string)
    ensures MaskEmail(MaskEmail(email)) == MaskEmail(email)
  {
    var r := MaskEmail(email);
    if MaskMatches(email) {
      var k := |email| - (|r| - 4);
      assert SplitAt(r, 4);
      forall i | 4 < i < |r|
        ensures !SplitAt(r, i)
      {
        assert r[i] == email[k + i - 4];
        assert !SplitAt(email, k + i - 4);
      }
      assert NoLineTerminator(r) by {
        forall i | 0 <= i < |r| ensures !IsJsLineTerminator(r[i]) {
          if i >= 4 { assert r[i] == email[k + i - 4]; } else if i == 0 { assert r[0] == email[0]; } else { assert r[i] == '*'; }
        }
      }
      assert LastSplitAt(r, 4);
      var rr := MaskEmail(r);
      assert MaskMatches(r);
      assert |rr| == |r| by {
        var k2 := |r| - (|rr| - 4);
        assert LastSplitAt(r, k2);
        assert k2 == 4;
      }
      assert rr == rr[..4] + rr[4..];
      assert r == r[..4] + r[4..];
    }
  }

  /** The invitation record of the repository, token included. */
  datatype Invitation = Invitation(
    id: string,
    householdId: string,
    inviteeFirstName: string,
    inviteeLastName: string,
    inviteeEmail: string,
    assignedRole: string,
    status: string,
    token: string,
    tokenExpiresAt: string,
    createdAt: string)

  /** The projection `sanitizeInvitation` returns: no token, and the e-mail masked. */
  datatype InvitationView = InvitationView(
    id: string,
    householdId: string,
    inviteeFirstName: string,
    inviteeLastName: string,
    inviteeEmailMasked: string,
    assignedRole: string,
    status: string,
    tokenExpiresAt: string,
    createdAt: string)

  /** `sanitizeInvitation(invitation)`: eight fields copied, the e-mail masked, nothing else. */
  function SanitizeInvitation(invitation: Invitation): (v: InvitationView)
    ensures v.id == invitation.id && v.householdId == invitation.householdId
    ensures v.inviteeFirstName == invitation.inviteeFirstName && v.inviteeLastName == invitation.inviteeLastName
    ensures v.assignedRole == invitation.assignedRole && v.status == invitation.status
    ensures v.tokenExpiresAt == invitation.tokenExpiresAt && v.createdAt == invitation.createdAt
    ensures v.inviteeEmailMasked == MaskEmail(invitation.inviteeEmail)
  {
    InvitationView(
      invitation.id, invitation.householdId, invitation.inviteeFirstName, invitation.inviteeLastName,
      MaskEmail(invitation.inviteeEmail), invitation.assignedRole, invitation.status,
      invitation.tokenExpiresAt, invitation.createdAt)
  }

  /** The projection does not depend on the token: two invitations that differ only in it look the same. */
  lemma SanitizeHidesToken(invitation: Invitation, otherToken: string)
    ensures SanitizeInvitation(invitation.(token := otherToken)) == SanitizeInvitation(invitation)
  {
  }
}
