/**
 * The invitation routes of api/src/routes/households.ts, as far as they decide something
 * themselves: which identifier an accept request is resolved by, how a thrown error becomes an
 * HTTP status, and the order of checks in the bulk-invitation handler, with the e-mail jobs and
 * audit events it produces.  The invitation use cases the routes delegate to are not part of
 * this model: what they return is a parameter.
 */
module InvitationRoutes {
  import opened Wrappers
  import opened DomainErrors
  import opened Text
  import opened Household
  import opened HouseholdAccess
  import opened InviteRateLimit
  import opened InvitationView

  const InvalidPayload: string := "Invalid request payload."
  const RateLimited: string := "Invitation rate limit reached. Please try again later."
  const UnableToCreate: string := "Unable to create invitations."
  const CaregiversOnlySend: string := "Only caregivers can send invitations."
  const InvitationAccessDenied: string := "Access denied to this invitation."
  const InvitationNotFound: string := "Invitation not found."
  const CaregiversOnlyCancel: string := "Only caregivers can cancel invitations."
  const UnexpectedError: string := "Unexpected error."
  const PendingEmailSelection: string := "pending-email-selection"

  /** The message a route reads off a caught value: an `Error`'s message, or a fixed text. */
  function MessageOf(e: Thrown): (message: string)
    ensures e.NotAnError? ==> message == UnexpectedError
    ensures !e.NotAnError? ==> message == e.message
  {
    match e
    case DomainErr(_, m) => m
    case PlainErr(m) => m
    case NotAnError => UnexpectedError
  }

  // ---------------------------------------------------------------- accept

  /** What the accept use case is asked to resolve the invitation by. */
  datatype Identifier = ByToken(token: string) | ById(invitationId: string) | NoIdentifier

  /** The accept body passes its schema: a field that is sent is a non-empty string. */
  predicate ValidAcceptBody(token: Option<string>, invitationId: Option<string>) {
    (token.Some? ==> token.value != "") && (invitationId.Some? ==> invitationId.value != "")
  }

  /** The identifier chosen from the body: a truthy token, else a truthy invitation id, else none. */
  function AcceptIdentifier(token: Option<string>, invitationId: Option<string>): (id: Identifier)
    ensures id.ByToken? <==> token.Some? && token.value != ""
    ensures id.ByToken? ==> id.token == token.value
    ensures id.ById? <==> (token.None? || token.value == "") && invitationId.Some? && invitationId.value != ""
    ensures id.ById? ==> id.invitationId == invitationId.value
  {
    if token.Some? && token.value != "" then ByToken(token.value)
    else if invitationId.Some? && invitationId.value != "" then ById(invitationId.value)
    else NoIdentifier
  }

  /** The audit target of an accepted invitation: the invitation id if sent, else the token, else a placeholder. */
  function AcceptAuditTarget(token: Option<string>, invitationId: Option<string>): (target: string)
    ensures invitationId.Some? ==> target == invitationId.value
    ensures invitationId.None? && token.Some? ==> target == token.value
    ensures invitationId.None? && token.None? ==> target == PendingEmailSelection
  {
    if invitationId.Some? then invitationId.value
    else if token.Some? then token.value
    else PendingEmailSelection
  }

  /** For a body that passes its schema, the truthiness tests are presence tests. */
  lemma ValidBodyIdentifier(token: Option<string>, invitationId: Option<string>)
    requires ValidAcceptBody(token, invitationId)
    ensures AcceptIdentifier(token, invitationId) ==
      (if token.Some? then ByToken(token.value) else if invitationId.Some? then ById(invitationId.value) else NoIdentifier)
  {
  }

  /**
   * When both a token and an invitation id are sent, the invitation is resolved by the token
   * while the audit event names the invitation id: the two choices disagree.
   */
  lemma BothSentResolveAndAuditDisagree(token: string, invitationId: string)
    requires token != "" && invitationId != ""
    ensures AcceptIdentifier(Some(token), Some(invitationId)) == ByToken(token)
    ensures AcceptAuditTarget(Some(token), Some(invitationId)) == invitationId
  {
  }

  /** The accept route's status for a caught error message. */
  function AcceptStatus(message: string): (code: int)
    ensures code in {403, 404, 409}
    ensures code == 403 <==> message == InvitationAccessDenied
    ensures code == 404 <==> message == InvitationNotFound
  {
    if message == InvitationAccessDenied then 403
    else if message == InvitationNotFound then 404
    else 409
  }

  /** An audit event as the routes log it; `maskedEmail` is the one metadata field. */
  datatype AuditEvent = AuditEvent(householdId: string, actorUserId: string, action: string, targetId: string, maskedEmail: string)

  datatype AcceptReply = AcceptRejected(status: int, message: string) | Accepted(householdId: string, audit: AuditEvent)

  /** The event logged once the requester has joined `householdId`. */
  function AcceptedAudit(householdId: string, token: Option<string>, invitationId: Option<string>,
                         requesterUserId: string, requesterEmail: string): (event: AuditEvent)
    ensures event.householdId == householdId && event.actorUserId == requesterUserId
    ensures event.action == "invitation_accepted" && event.targetId == AcceptAuditTarget(token, invitationId)
    ensures event.maskedEmail == MaskEmail(requesterEmail)
  {
    AuditEvent(householdId, requesterUserId, "invitation_accepted", AcceptAuditTarget(token, invitationId), MaskEmail(requesterEmail))
  }

  /**
   * The accept handler.  `accept` stands for the accept use case: for the identifier it is
   * given, the household joined or the error it throws.  `logAudit` stands for the
   * repository's audit write: `None` when it succeeds, or the value it throws.  Both run inside
   * the same try block, so a failing audit write is answered like a failing accept.
   */
  function HandleAccept(token: Option<string>, invitationId: Option<string>, accept: Identifier -> Result<string>,
                        logAudit: AuditEvent -> Option<Thrown>, requesterUserId: string, requesterEmail: string): (r: AcceptReply)
    ensures !ValidAcceptBody(token, invitationId) ==> r == AcceptRejected(400, InvalidPayload)
    ensures ValidAcceptBody(token, invitationId) && accept(AcceptIdentifier(token, invitationId)).Err? ==>
      var message := MessageOf(accept(AcceptIdentifier(token, invitationId)).error);
      r == AcceptRejected(AcceptStatus(message), message)
    ensures ValidAcceptBody(token, invitationId) && accept(AcceptIdentifier(token, invitationId)).Ok? ==>
      var event := AcceptedAudit(accept(AcceptIdentifier(token, invitationId)).value, token, invitationId, requesterUserId, requesterEmail);
      && (logAudit(event).Some? ==> r == AcceptRejected(AcceptStatus(MessageOf(logAudit(event).value)), MessageOf(logAudit(event).value)))
      && (logAudit(event).None? ==> r == Accepted(event.householdId, event))
  {
    if !ValidAcceptBody(token, invitationId) then AcceptRejected(400, InvalidPayload)
    else
      match accept(AcceptIdentifier(token, invitationId))
      case Err(e) => AcceptRejected(AcceptStatus(MessageOf(e)), MessageOf(e))
      case Ok(householdId) =>
        var event := AcceptedAudit(householdId, token, invitationId, requesterUserId, requesterEmail);
        match logAudit(event)
        case Some(e) => AcceptRejected(AcceptStatus(MessageOf(e)), MessageOf(e))
        case None => Accepted(householdId, event)
  }

  /**
   * A rejected accept that got past the schema repeats the message of what threw, the use case
   * or the audit write, under a 4xx status; an accepted one was accepted by the use case and
   * its audit event was written.
   */
  lemma AcceptFailuresAreClientErrors(token: Option<string>, invitationId: Option<string>, accept: Identifier -> Result<string>,
                                      logAudit: AuditEvent -> Option<Thrown>, requesterUserId: string, requesterEmail: string)
    ensures var r := HandleAccept(token, invitationId, accept, logAudit, requesterUserId, requesterEmail);
      var a := accept(AcceptIdentifier(token, invitationId));
      && (r.AcceptRejected? ==> 400 <= r.status < 500)
      && (r.AcceptRejected? && r.status != 400 ==>
            || (a.Err? && r.message == MessageOf(a.error))
            || (a.Ok? && var logged := logAudit(AcceptedAudit(a.value, token, invitationId, requesterUserId, requesterEmail));
                logged.Some? && r.message == MessageOf(logged.value)))
      && (r.Accepted? ==> a == Ok(r.householdId) && logAudit(r.audit) == None)
  {
  }

  // ---------------------------------------------------------------- cancel

  /** The cancel route's status for a caught error message. */
  function CancelStatus(message: string): (code: int)
    ensures code in {403, 404, 409}
    ensures code == 403 <==> message == CaregiversOnlyCancel
    ensures code == 404 <==> message == InvitationNotFound
  {
    if message == CaregiversOnlyCancel then 403
    else if message == InvitationNotFound then 404
    else 409
  }

  /**
   * The household validator's own denial is not one the cancel route recognises: a caller who is
   * not a member of the household gets a conflict, not a forbidden status.
   */
  lemma CancelMapsAccessDeniedToConflict()
    ensures CancelStatus(AccessDenied) == 409
    ensures AcceptStatus(AccessDenied) == 409
  {
    assert |AccessDenied| != |CaregiversOnlyCancel| && |AccessDenied| != |InvitationNotFound|;
    assert |AccessDenied| != |InvitationAccessDenied|;
  }

  // ---------------------------------------------------------------- bulk invitations

  /** The bulk route's status for a caught error message; the body never repeats the message. */
  function BulkStatus(message: string): (code: int)
    ensures code in {403, 404}
    ensures code == 403 <==> message == CaregiversOnlySend || message == InsufficientRole || message == AccessDenied
  {
    if message == CaregiversOnlySend || message == InsufficientRole then 403
    else if message == AccessDenied then 403
    else 404
  }

  /** Every way the household role check can fail is reported as forbidden. */
  lemma BulkRoleFailureForbidden(members: seq<Member>, householdId: string, requesterUserId: string)
    ensures var r := EnsureHouseholdRole(members, householdId, requesterUserId, [Caregiver]);
      r.Err? ==> BulkStatus(MessageOf(r.error)) == 403
  {
  }

  /** One entry of the bulk payload as sent; `role` is still the raw string. */
  datatype Candidate = Candidate(firstName: string, lastName: string, email: string, role: string)

  /** The role a candidate's string names, once the schema has admitted it. */
  function CandidateRole(u: Candidate): (role: Role)
    requires u.role == "senior" || u.role == "caregiver"
    ensures role == Caregiver <==> u.role == "caregiver"
  {
    if u.role == "caregiver" then Caregiver else Senior
  }

  /**
   * One candidate passes its schema: names of 1 to 80 UTF-16 units, an e-mail the library
   * accepts (`isEmail`) and one of the two roles.
   */
  predicate ValidCandidate(u: Candidate, isEmail: string -> bool) {
    && 1 <= Utf16Length(u.firstName) <= 80
    && 1 <= Utf16Length(u.lastName) <= 80
    && isEmail(u.email)
    && (u.role == "senior" || u.role == "caregiver")
  }

  /** The bulk body passes its schema: 1 to 50 valid candidates. */
  predicate ValidBulkPayload(users: seq<Candidate>, isEmail: string -> bool) {
    1 <= |users| <= 50 && forall i :: 0 <= i < |users| ==> ValidCandidate(users[i], isEmail)
  }

  /** A created invitation as the bulk use case reports it. */
  datatype Delivery = Delivery(invitationId: string, inviteeEmail: string, deepLinkUrl: string, fallbackUrl: Option<string>)

  /** A job for the e-mail queue. */
  datatype EmailJob = EmailJob(invitationId: string, inviteeEmail: string, inviteeFirstName: string, assignedRole: Role,
                               deepLinkUrl: string, fallbackUrl: Option<string>)

  /** The e-mail a candidate is matched by: trimmed, then lower-cased. */
  function NormalEmail(email: string): string {
    AsciiLower(JsTrim(email))
  }

  /** The candidate's e-mail, trimmed and lower-cased, is `email`. */
  predicate SentTo(u: Candidate, email: string) {
    NormalEmail(u.email) == email
  }

  /** The index of the first of `keys` from index `k` on that equals `key`, if any. */
  function FirstIndexFrom(keys: seq<string>, key: string, k: nat): (r: Option<nat>)
    requires k <= |keys|
    ensures r.None? ==> forall i :: k <= i < |keys| ==> keys[i] != key
    ensures r.Some? ==> k <= r.value < |keys| && keys[r.value] == key
    ensures r.Some? ==> forall i :: k <= i < r.value ==> keys[i] != key
    decreases |keys| - k
  {
    if k == |keys| then None
    else if keys[k] == key then Some(k)
    else FirstIndexFrom(keys, key, k + 1)
  }

  /** `users.find(...)` by e-mail: the index of the first candidate sent to `email`, if any. */
  function FindCandidate(users: seq<Candidate>, email: string): (r: Option<nat>)
    ensures r.None? <==> forall i :: 0 <= i < |users| ==> !SentTo(users[i], email)
    ensures r.Some? ==> r.value < |users| && SentTo(users[r.value], email)
    ensures r.Some? ==> forall i :: 0 <= i < r.value ==> !SentTo(users[i], email)
  {
    var keys := seq(|users|, i requires 0 <= i < |users| => NormalEmail(users[i].email));
    assert forall i :: 0 <= i < |users| ==> (keys[i] == email <==> SentTo(users[i], email));
    var r := FirstIndexFrom(keys, email, 0);
    assert r.Some? ==> SentTo(users[r.value], email);
    r
  }

  /** The job for one delivery: its own fields, with name and role of the first matching candidate. */
  function EmailJobFor(users: seq<Candidate>, d: Delivery): (job: EmailJob)
    requires forall i :: 0 <= i < |users| ==> users[i].role == "senior" || users[i].role == "caregiver"
    ensures job.invitationId == d.invitationId && job.inviteeEmail == d.inviteeEmail
    ensures job.deepLinkUrl == d.deepLinkUrl && job.fallbackUrl == d.fallbackUrl
    ensures (forall i :: 0 <= i < |users| ==> !SentTo(users[i], d.inviteeEmail)) ==>
      job.inviteeFirstName == "there" && job.assignedRole == Senior
    ensures (exists i :: 0 <= i < |users| && SentTo(users[i], d.inviteeEmail)) ==>
      exists i :: 0 <= i < |users| && SentTo(users[i], d.inviteeEmail)
        && (forall j :: 0 <= j < i ==> !SentTo(users[j], d.inviteeEmail))
        && job.inviteeFirstName == users[i].firstName && job.assignedRole == CandidateRole(users[i])
  {
    var source := FindCandidate(users, d.inviteeEmail);
    EmailJob(d.invitationId, d.inviteeEmail,
             if source.Some? then users[source.value].firstName else "there",
             if source.Some? then CandidateRole(users[source.value]) else Senior,
             d.deepLinkUrl, d.fallbackUrl)
  }

  /** The jobs enqueued: one per delivery, in delivery order. */
  function BuildEmailJobs(users: seq<Candidate>, deliveries: seq<Delivery>): (jobs: seq<EmailJob>)
    requires forall i :: 0 <= i < |users| ==> users[i].role == "senior" || users[i].role == "caregiver"
    ensures |jobs| == |deliveries|
    ensures forall i :: 0 <= i < |deliveries| ==> jobs[i] == EmailJobFor(users, deliveries[i])
  {
    seq(|deliveries|, i requires 0 <= i < |deliveries| => EmailJobFor(users, deliveries[i]))
  }

  /** Each enqueued job is addressed to the invitation it was made for. */
  lemma JobsFollowDeliveries(users: seq<Candidate>, deliveries: seq<Delivery>)
    requires forall i :: 0 <= i < |users| ==> users[i].role == "senior" || users[i].role == "caregiver"
    ensures var jobs := BuildEmailJobs(users, deliveries);
      forall i :: 0 <= i < |jobs| ==> jobs[i].invitationId == deliveries[i].invitationId && jobs[i].inviteeEmail == deliveries[i].inviteeEmail
  {
  }

  /** A candidate whose e-mail is already trimmed and lower-case supplies the name of its own job. */
  lemma OwnCandidateNamesJob(users: seq<Candidate>, d: Delivery)
    requires forall i :: 0 <= i < |users| ==> users[i].role == "senior" || users[i].role == "caregiver"
    requires |users| > 0 && users[0].email == d.inviteeEmail && SentTo(users[0], d.inviteeEmail)
    ensures EmailJobFor(users, d).inviteeFirstName == users[0].firstName
    ensures EmailJobFor(users, d).assignedRole == CandidateRole(users[0])
  {
    assert FindCandidate(users, d.inviteeEmail) == Some(0);
  }

  /** The audit event logged for one created invitation. */
  function CreatedAudit(householdId: string, actorUserId: string, d: Delivery): (event: AuditEvent)
    ensures event.targetId == d.invitationId && event.action == "invitation_created"
    ensures event.maskedEmail == MaskEmail(d.inviteeEmail)
  {
    AuditEvent(householdId, actorUserId, "invitation_created", d.invitationId, MaskEmail(d.inviteeEmail))
  }

  /** The audit loop: one event per delivery, logged in delivery order. */
  method AuditDeliveries(householdId: string, actorUserId: string, deliveries: seq<Delivery>) returns (events: seq<AuditEvent>)
    ensures |events| == |deliveries|
    ensures forall i :: 0 <= i < |deliveries| ==> events[i] == CreatedAudit(householdId, actorUserId, deliveries[i])
  {
    events := [];
    for k := 0 to |deliveries|
      invariant |events| == k
      invariant forall i :: 0 <= i < k ==> events[i] == CreatedAudit(householdId, actorUserId, deliveries[i])
    {
      events := events + [CreatedAudit(householdId, actorUserId, deliveries[k])];
    }
  }

  datatype BulkReply =
    | BulkRejected(status: int, message: string)
    | BulkCreated(deliveries: seq<Delivery>, jobs: seq<EmailJob>, audits: seq<AuditEvent>)

  /**
   * The bulk-invitation handler.  `created` stands for what the bulk-creation use case returns
   * (or throws) when it is reached; the role check is the corrected household role check.
   */
  method HandleBulkInvitations(limiter: InviteRateLimiter, members: seq<Member>, householdId: string,
                               users: seq<Candidate>, isEmail: string -> bool, requesterUserId: string, now: int,
                               created: Result<seq<Delivery>>) returns (reply: BulkReply)
    requires limiter.Valid()
    modifies limiter
    ensures limiter.Valid()
    // an invalid request is refused before any quota is used
    ensures !(householdId != "" && ValidBulkPayload(users, isEmail)) ==>
      reply == BulkRejected(400, InvalidPayload) && limiter.windows == old(limiter.windows)
    // a valid one uses the requester's quota, whatever happens next
    ensures householdId != "" && ValidBulkPayload(users, isEmail) ==>
      limiter.windows == old(limiter.windows)[requesterUserId := Admit(old(limiter.Entry(requesterUserId)), now).window]
    ensures householdId != "" && ValidBulkPayload(users, isEmail) && !Admit(old(limiter.Entry(requesterUserId)), now).allowed ==>
      reply == BulkRejected(429, RateLimited)
    ensures householdId != "" && ValidBulkPayload(users, isEmail) && Admit(old(limiter.Entry(requesterUserId)), now).allowed ==>
      var role := EnsureHouseholdRole(members, householdId, requesterUserId, [Caregiver]);
      && (role.Err? ==> reply == BulkRejected(BulkStatus(MessageOf(role.error)), UnableToCreate))
      && (role.Ok? && created.Err? ==> reply == BulkRejected(BulkStatus(MessageOf(created.error)), UnableToCreate))
      && (role.Ok? && created.Ok? ==> reply == BulkCreated(created.value, BuildEmailJobs(users, created.value),
                                                           seq(|created.value|, i requires 0 <= i < |created.value| =>
                                                             CreatedAudit(householdId, requesterUserId, created.value[i]))))
  {
    if householdId == "" || !ValidBulkPayload(users, isEmail) {
      return BulkRejected(400, InvalidPayload);
    }
    var allowed := limiter.CheckInviteRateLimit(requesterUserId, now);
    if !allowed {
      return BulkRejected(429, RateLimited);
    }
    var role := EnsureHouseholdRole(members, householdId, requesterUserId, [Caregiver]);
    if role.Err? {
      return BulkRejected(BulkStatus(MessageOf(role.error)), UnableToCreate);
    }
    if created.Err? {
      return BulkRejected(BulkStatus(MessageOf(created.error)), UnableToCreate);
    }
    var jobs := BuildEmailJobs(users, created.value);
    var audits := AuditDeliveries(householdId, requesterUserId, created.value);
    reply := BulkCreated(created.value, jobs, audits);
  }
}
