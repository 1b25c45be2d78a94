# SeniorHub households and invitations in Dafny

This project models the household core of SeniorHub, an API that lets caregivers and seniors share a
household. Members of a household hold a role, either caregiver or senior. Caregivers invite new
members by e-mail, manage the members' roles, and keep the medication reminders of the household.

The model covers these parts of the system:

- **Invite rate limiter.** The fixed-window limiter of the invitation routes allows at most ten
  invitation requests per user per minute. It is a class whose per-user window table is updated in
  place. The clock is a parameter.
- **Invitation presentation.**
  - E-mail masking, following the masking regular expression over characters (see "## Left out"
    for characters outside the Basic Multilingual Plane).
  - The token-free invitation projection.
  - The accept, deep and fallback links, with a concrete `encodeURIComponent` and its inverse.
  - The `{{key}}` / `{{#if key}}…{{/if}}` template renderer and the invitation e-mail's variables.
- **Household access and membership rules.**
  - The read-only access checks.
  - The allowed-roles check and the household overview.
  - The member use cases that write to the member table: role update, member removal and leaving
    a household. Each is written once as a function of the table and once as a method on a
    repository object.
  - The properties "a household keeps a caregiver", "a household keeps a member" and "nothing
    changes on failure" are lemmas.
  - Where the repository has two copies of a use case, one throwing typed domain errors and one
    throwing plain errors, both copies are modelled, and lemmas relate them.
- **Medication reminder guard chains.** Create, update, delete and list, each as ordered guards
  followed by one write to the reminder store.
- **HTTP error mapping.** The status and body sent for every domain error class and for other
  thrown values.
- **Invitation routes.** How the accept and bulk handlers pick identifiers, map error messages to
  statuses, order validation, rate limiting and the role check, and build one e-mail job and one
  audit event per created invitation.
- **Input validation.**
  - The `HH:MM` time format and the medication create/update body constraints.
  - The commit-message checker script: header grammar, blank second line, description line.

Strings are `seq<char>`. Lengths that the schema library counts in UTF-16 code units are counted
that way (`Text.Utf16Length`).

## Model

| member | source | states |
|---|---|---|
| InviteRateLimit.Admit | src/routes/households/utils.ts:6-25 | a call is denied exactly when the user's window has not elapsed (strictly more than 60 000 ms) and already holds 10 calls; a denial keeps the entry; every entry produced has a count between 1 and 10 |
| InviteRateLimit.InviteRateLimiter.CheckInviteRateLimit | src/routes/households/utils.ts:6-25 | first call or elapsed window: allowed, entry becomes (1, now); inside the window at the limit: denied and nothing changes; below the limit: allowed and the count grows by one with the same window start; every other user's entry is unchanged; every count stays in 1..10 |
| InviteRateLimit.WithinWindowAllowed | src/routes/households/utils.ts:14-24 | inside one window a user who has used c calls gets exactly min(n, 10 - c) of n more calls, and the window start never moves |
| InviteRateLimit.FreshWindowAllowsLimit | api/src/routes/households.ts:48-71 | from no entry, of n calls within 60 000 ms of the first, exactly min(n, 10) are allowed |
| InviteRateLimit.EleventhCallDenied | src/routes/households/utils.ts:3-4 | after ten allowed calls in a window the eleventh call in that window is denied |
| InviteRateLimit.RunCount | src/routes/households/utils.ts:23-24 | inside one window the stored count equals the calls used plus the calls allowed |
| InvitationView.MaskEmail | src/routes/households/utils.ts:28 | when the regular expression matches, the result is the first character, `***` and the suffix from the last '@' that has at least two characters before it and one after it; otherwise the e-mail is returned unchanged |
| InvitationView.MaskEmailIdempotent | api/src/routes/households.ts:73-95 | masking an already masked address changes nothing |
| InvitationView.SanitizeInvitation | src/routes/households/utils.ts:31-51 | the eight listed fields are copied verbatim, the e-mail is replaced by its masked form, and the view has no token field |
| UriComponent.EncodeUriComponent | src/domain/services/buildInvitationLinks.ts:16 | the output uses only unreserved characters, '%' and upper-case hex digits |
| UriComponent.EncodeAppend | src/domain/services/buildInvitationLinks.ts:16 | encoding works character by character: enc(a + b) = enc(a) + enc(b) |
| UriComponent.EncodeUnreserved | src/domain/services/buildInvitationLinks.ts:16 | a token of unreserved characters is written as it is |
| UriComponent.DecodeEncode | src/domain/services/buildInvitationLinks.ts:16-25 | percent-decoding undoes the encoding for every string: the token is recoverable from each link |
| UriComponent.DecodeEncodedChar | src/domain/services/buildInvitationLinks.ts:16 | the escaped UTF-8 bytes of one character decode to that character |
| InvitationLinks.BuildInvitationLinks | src/domain/services/buildInvitationLinks.ts:10-33 | accept link = backend URL + `/v1/invitations/accept-link?token=` + enc(token); deep link = `seniorhub://invite?type=household-invite&token=` + enc(token); fallback is null exactly when the fallback base is absent or empty; otherwise it is base + ('&' if the base holds '?' else '?') + `type=household-invite&token=` + enc(token) |
| InvitationLinks.AcceptLinkCarriesToken | src/domain/services/buildInvitationLinks.ts:16 | the accept link starts with the backend URL and its last parameter decodes to the token |
| InvitationLinks.DeepLinkCarriesToken | src/domain/services/buildInvitationLinks.ts:19 | the deep link's last parameter is `token` and decodes to the token |
| InvitationLinks.FallbackLinkCarriesToken | src/domain/services/buildInvitationLinks.ts:22-25 | a non-null fallback link starts with the fallback base URL and carries the token |
| InvitationLinks.DeepLinkIgnoresBases | src/domain/services/buildInvitationLinks.ts:19 | the deep link does not depend on either base URL |
| InvitationLinks.CarriedTokenDecodes | src/domain/services/buildInvitationLinks.ts:16-25 | reading the last parameter of a link that carries the token and decoding it gives the token back |
| InvitationLinks.LastParamValue | src/domain/services/buildInvitationLinks.ts:16-25 | the value after the last '=' is a suffix of the URL without '=' and is preceded by '=' |
| EmailTemplate.Substitute | src/domain/services/emailTemplateLoader.ts:35-38 | the loop over the entries, in order, each replacing every `{{key}}` of its key by `value ?? ''`; it carries no contract of its own: SubstituteAbsent, AbsentKeyUntouched, PlaceholderSubstitution.AbsentKeyUntouchedAnywhere and SuppliedKeyReplaced state what it does |
| EmailTemplate.ReplaceAllIsSplitJoin | src/domain/services/emailTemplateLoader.ts:36-37 | a global literal replace equals splitting at the occurrences and joining with the value |
| EmailTemplate.SplitJoinRoundTrip | src/domain/services/emailTemplateLoader.ts:36-37 | joining the pieces of a split with the pattern gives the string back |
| EmailTemplate.SplitPiecesFree | src/domain/services/emailTemplateLoader.ts:36-37 | no piece of a split still holds the pattern: every occurrence was replaced |
| EmailTemplate.ReplaceAllAbsent | src/domain/services/emailTemplateLoader.ts:36-37 | a text without the placeholder comes back unchanged |
| EmailTemplate.ReplaceAllSelf | src/domain/services/emailTemplateLoader.ts:37 | replacing a placeholder by itself changes nothing |
| EmailTemplate.SuppliedKeyReplaced | src/domain/services/emailTemplateLoader.ts:35-38 | a text that is only `{{key}}` for a supplied key renders as its value, with null as the empty string |
| EmailTemplate.AbsentKeyUntouched | src/domain/services/emailTemplateLoader.ts:35-38 | a text that is only a placeholder whose key is not supplied comes out unchanged |
| PlaceholderSubstitution.ReplaceAllAround | src/domain/services/emailTemplateLoader.ts:36-37 | replacing one key's placeholder in a text holding another key's placeholder leaves that placeholder where it is and replaces on each side of it separately: no occurrence can straddle its edges |
| PlaceholderSubstitution.AbsentKeyUntouchedAnywhere | src/domain/services/emailTemplateLoader.ts:35-38 | a placeholder whose key is not supplied is left in the text wherever it stands, and the text before and after it is substituted as if it were not there |
| EmailTemplate.SubstituteAbsent | src/domain/services/emailTemplateLoader.ts:35-38 | a text holding no supplied placeholder passes the substitution loop unchanged |
| EmailTemplate.PlaceholderNotInOther | src/domain/services/emailTemplateLoader.ts:36 | one key's placeholder never occurs inside another's, so entries do not disturb each other |
| EmailTemplate.Lookup | src/domain/services/emailTemplateLoader.ts:43 | an own entry is returned when the record holds the name, and none exactly when it does not |
| EmailTemplate.TruthyOwnEntry | src/domain/services/emailTemplateLoader.ts:43-44 | a supplied variable keeps its block exactly when its value is a non-empty string |
| EmailTemplate.UnknownNameFalsy | src/domain/services/emailTemplateLoader.ts:43-44 | a name neither supplied nor inherited from `Object.prototype` drops its block |
| EmailTemplate.FindFromFirst | src/domain/services/emailTemplateLoader.ts:42 | the lazy body stops at an occurrence of `{{/if}}` with none before it, and finds none only when there is none |
| EmailTemplate.FindFromIs | src/domain/services/emailTemplateLoader.ts:42 | conversely, the first `{{/if}}` after the opening tag is the one the lazy body stops at |
| EmailTemplate.SpaceRunMaximal | src/domain/services/emailTemplateLoader.ts:42 | `\s+` is greedy: it covers white space only and stops before a character that is not |
| EmailTemplate.SpaceRunIs | src/domain/services/emailTemplateLoader.ts:42 | any maximal run of white space is the one `\s+` takes |
| EmailTemplate.WordRunMaximal | src/domain/services/emailTemplateLoader.ts:42 | `\w+` is greedy: it covers word characters only and stops before a character that is not |
| EmailTemplate.WordRunIs | src/domain/services/emailTemplateLoader.ts:42 | any maximal run of word characters is the one `\w+` takes |
| EmailTemplate.MatchBlock | src/domain/services/emailTemplateLoader.ts:42 | a match of the block pattern ends inside the text |
| EmailTemplate.BlockMatchedAt | src/domain/services/emailTemplateLoader.ts:42 | the block pattern matches `{{#if`, white space, a name, `}}`, a body free of `{{/if}}` and `{{/if}}`, capturing the name and the body |
| EmailTemplate.BlockRendered | src/domain/services/emailTemplateLoader.ts:42-45 | `{{#if name}}body{{/if}}` becomes body when the variable is truthy and nothing otherwise, and the scan goes on after it; blocks do not nest |
| EmailTemplate.ProcessBlocksStep | src/domain/services/emailTemplateLoader.ts:42-45 | a block matched at the front is replaced and the scan continues after its closing tag |
| EmailTemplate.ProcessBlocks | src/domain/services/emailTemplateLoader.ts:42-45 | the global block replace, scanning left to right; it carries no contract of its own: ProcessBlocksStep, BlockRendered and NoBlocksUnchanged state what it does |
| EmailTemplate.NoBlocksUnchanged | src/domain/services/emailTemplateLoader.ts:42 | a text without `{{#if` is unchanged by the block pass |
| Text.TrimStartSpaces | src/domain/services/emailTemplateLoader.ts:47 | trimming the front keeps a suffix; everything it drops is white space and what it keeps does not start with white space |
| Text.TrimEndSpaces | src/domain/services/emailTemplateLoader.ts:47 | trimming the back keeps a prefix; everything it drops is white space and what it keeps does not end with white space |
| Text.StripIsStrip | src/domain/services/emailTemplateLoader.ts:47 | `trim()` and `strip()` keep the middle slice of the text: only white space before and after it, and it neither starts nor ends with white space |
| EmailTemplate.RenderedIsTrimmed | src/domain/services/emailTemplateLoader.ts:47 | the rendered text has no leading or trailing white space, and trimming it again changes nothing |
| EmailTemplate.Render | src/domain/services/emailTemplateLoader.ts:31-48 | the loop over the entries, the block pass and the trim yield the rendered text (substitution, then blocks, then trim) |
| EmailTemplate.LoadEmailTemplate | src/domain/services/emailTemplateLoader.ts:50-53 | subject and body are rendered independently with the same variables |
| InvitationEmail.RoleLabel | src/domain/services/invitationEmailTemplate.ts:4 | 'Caregiver' exactly for the caregiver role, 'Senior' for every other role |
| InvitationEmail.GreetingName | src/domain/services/invitationEmailTemplate.ts:16 | the first name with surrounding white space removed, or 'there' when only white space is left; never empty and never padded |
| InvitationEmail.GreetingKeepsTrimmedName | src/domain/services/invitationEmailTemplate.ts:16 | an already trimmed first name is greeted as it is |
| InvitationEmail.GreetingIgnoresSurroundingSpace | src/domain/services/invitationEmailTemplate.ts:16 | trimming a name first does not change its greeting |
| InvitationEmail.InvitationVariables | src/domain/services/invitationEmailTemplate.ts:18-23 | the record handed to the loader has exactly four entries; InvitationVariablesLookup and InvitationVariablesValid give their keys and values |
| InvitationEmail.InvitationVariablesLookup | src/domain/services/invitationEmailTemplate.ts:18-23 | the loader gets exactly the keys firstName, role, deepLinkUrl and fallbackUrl, with the greeting, the role label and both links unchanged (a null fallback stays null) |
| InvitationEmail.InvitationVariablesValid | src/domain/services/invitationEmailTemplate.ts:18-23 | the record has distinct identifier keys and literal values |
| InvitationEmail.FallbackBlockShown | src/domain/services/invitationEmailTemplate.ts:22 | a fallback block is kept exactly when a non-empty fallback URL is passed |
| InvitationEmail.FirstNameBlockShown | src/domain/services/invitationEmailTemplate.ts:16-19 | a firstName block is always kept |
| InvitationEmail.GreetingPlaceholderRendered | src/domain/services/invitationEmailTemplate.ts:16-19 | `{{firstName}}` renders as the greeting |
| InvitationEmail.BuildInvitationEmailTemplate | src/domain/services/invitationEmailTemplate.ts:10-24 | subject and body are the two template texts rendered with the invitation variables |
| Household.FindMemberById | src/domain/usecases/UpdateHouseholdMemberRoleUseCase.ts:38 | `findMemberById`: the row found is in the table and has that id, and none is found exactly when no row has that id |
| Household.InHousehold | src/domain/usecases/UpdateHouseholdMemberRoleUseCase.ts:45 | `listHouseholdMembers`: never more rows than the table; InHouseholdMembers states which rows it lists |
| Household.InHouseholdMembers | src/domain/usecases/LeaveHouseholdUseCase.ts:23 | a row is listed exactly when the table holds it with that household id |
| Household.CaregiverCount | src/domain/usecases/UpdateHouseholdMemberRoleUseCase.ts:46 | `filter((m) => m.role === 'caregiver').length`: never more than the number of rows; SetRoleCounts and WithoutCounts state how the updates move it |
| Household.SetRole | src/domain/usecases/UpdateHouseholdMemberRoleUseCase.ts:54 | `updateMemberRole`: the table keeps its length and order, each row with that id gets the new role and nothing else changes, and every other row is unchanged |
| Household.Without | src/domain/usecases/households/RemoveHouseholdMemberUseCase.ts:53 | `removeMember`: never longer than the table; WithoutMembers states which rows stay |
| Household.WithoutMembers | src/domain/usecases/LeaveHouseholdUseCase.ts:39 | a row stays exactly when the table held it with another id |
| Household.FindActiveMember | src/domain/usecases/shared/HouseholdAccessValidator.ts:24 | the row found is a membership of that user in that household, and none is found exactly when the table has no such row |
| Household.FindMemberInHousehold | src/domain/usecases/shared/HouseholdAccessValidator.ts:83 | the row found has that id and that household, and none is found exactly when there is no such row |
| Household.SetRoleCounts | src/domain/usecases/UpdateHouseholdMemberRoleUseCase.ts:44-54 | a role update keeps the household's size and changes its caregiver count only by the target's old and new role |
| Household.WithoutCounts | src/domain/usecases/households/RemoveHouseholdMemberUseCase.ts:47-53 | removing a member of the household shrinks it by one and its caregiver count by the member's own role |
| HouseholdAccess.EnsureMember | src/domain/usecases/shared/HouseholdAccessValidator.ts:23-31 | succeeds exactly when the user holds a membership in the household and returns that membership; otherwise Forbidden 'Access denied to this household.' |
| HouseholdAccess.EnsureCaregiver | src/domain/usecases/shared/HouseholdAccessValidator.ts:44-52 | a non-member gets the access-denied error first; a member without the caregiver role gets Forbidden 'Only caregivers can perform this action.'; success returns a caregiver membership |
| HouseholdAccess.EnsureCaregiverExactly | src/domain/usecases/shared/HouseholdAccessValidator.ts:44-52 | with one membership per user and household, success holds exactly when the user has a caregiver membership |
| HouseholdAccess.EnsureHouseholdExists | src/domain/usecases/shared/HouseholdAccessValidator.ts:63-69 | succeeds exactly when the household has an overview; otherwise NotFound 'Household not found.' |
| HouseholdAccess.EnsureMemberExists | src/domain/usecases/shared/HouseholdAccessValidator.ts:82-90 | succeeds exactly when a member with that id belongs to the household; otherwise NotFound 'Member not found in this household.' |
| HouseholdAccess.EnsureHouseholdRoleAsWritten | src/domain/usecases/EnsureHouseholdRoleUseCase.ts:18 | as written, the lookup asks for the household id as a user of the requester's user id as a household; when that swapped lookup finds no row the result is 'Access denied to this household.', when it finds one whose role is not allowed the result is the insufficient-role error, and success means the swapped row holds an allowed role |
| HouseholdAccess.EnsureHouseholdRole | src/domain/usecases/EnsureHouseholdRoleUseCase.ts:13-23 | a non-member gets the access-denied error before any role check; a member whose role is not allowed gets Forbidden 'Insufficient household role.'; an empty role list always fails |
| HouseholdAccess.EnsureHouseholdRoleExactly | src/domain/usecases/EnsureHouseholdRoleUseCase.ts:18-22 | with one membership per user and household, success holds exactly when the requester's membership has an allowed role |
| HouseholdAccess.SwappedLookupDeniesMember | src/domain/usecases/EnsureHouseholdRoleUseCase.ts:18 | for a caregiver u1 of household h1, the code as written denies access while the corrected check passes |
| HouseholdAccess.GetHouseholdOverview | src/domain/usecases/GetHouseholdOverviewUseCase.ts:13-30 | membership is checked before existence; a non-member gets 'Access denied to this household.', a member of a household without an overview gets 'Household not found.', otherwise the stored overview is returned unchanged |
| MemberUseCases.UpdateRole | src/domain/usecases/UpdateHouseholdMemberRoleUseCase.ts:33-56 | a failure leaves the table unchanged; a non-member is refused first; success needs a caregiver requester and a target in the household, sets only the target's role and returns it with the new role; the last-caregiver refusal happens only when demoting with at most one caregiver left |
| MemberUseCases.UpdateRoleKeepsCaregiver | src/domain/usecases/UpdateHouseholdMemberRoleUseCase.ts:44-54 | a successful role update leaves the household with a caregiver |
| MemberUseCases.UpdateRoleOnlyTarget | src/domain/usecases/UpdateHouseholdMemberRoleUseCase.ts:54-55 | a successful role update changes the target row's role and no other row |
| MemberUseCases.UpdateRolePlain | api/src/domain/usecases/UpdateHouseholdMemberRoleUseCase.ts:15-54 | the same guards with plain errors and their own messages; the caregiver count is consulted only for a self-demotion |
| MemberUseCases.UpdateRolePlainKeepsCaregiver | api/src/domain/usecases/UpdateHouseholdMemberRoleUseCase.ts:38-52 | although only self-demotion is counted, a success still leaves a caregiver: demoting someone else leaves the requesting caregiver |
| MemberUseCases.UpdateRoleCopiesAgree | api/src/domain/usecases/UpdateHouseholdMemberRoleUseCase.ts:38-49 | on a well-formed table the two copies succeed on the same inputs and leave the same table |
| MemberUseCases.RemoveMember | src/domain/usecases/households/RemoveHouseholdMemberUseCase.ts:31-54 | a failure leaves the table unchanged; a non-member is refused first; success needs a caregiver requester and a target of the household other than the requester, and drops exactly that row |
| MemberUseCases.RemoveMemberPlain | src/domain/usecases/RemoveHouseholdMemberUseCase.ts:13-48 | the same guards with plain errors: a failure leaves the table unchanged, and a non-member gets 'Access denied to this household.' |
| MemberUseCases.RemoveLastMemberGuardUnreachable | src/domain/usecases/households/RemoveHouseholdMemberUseCase.ts:47-50 | the last-member guard never fires: once the earlier checks pass, requester and target are two members of the household |
| MemberUseCases.RemoveKeepsCaregiver | src/domain/usecases/households/RemoveHouseholdMemberUseCase.ts:42-53 | a successful removal shrinks the household by exactly one and keeps a caregiver |
| MemberUseCases.Leave | src/domain/usecases/LeaveHouseholdUseCase.ts:12-40 | a failure leaves the table unchanged; a non-member is refused first; the last-member refusal comes before the last-caregiver refusal; success removes the requester's own membership |
| MemberUseCases.LeaveKeepsInvariants | src/domain/usecases/LeaveHouseholdUseCase.ts:26-39 | after leaving, the household keeps a member, and keeps a caregiver if it had one |
| MemberUseCases.UpdateHouseholdMemberRole | src/domain/usecases/UpdateHouseholdMemberRoleUseCase.ts:33-56 | the method returns what UpdateRole decides and leaves the member table UpdateRole gives; the other tables are unchanged |
| MemberUseCases.UpdateHouseholdMemberRolePlain | api/src/domain/usecases/UpdateHouseholdMemberRoleUseCase.ts:15-54 | the method follows UpdateRolePlain; the other tables are unchanged |
| MemberUseCases.RemoveHouseholdMember | src/domain/usecases/households/RemoveHouseholdMemberUseCase.ts:31-54 | the method follows RemoveMember; the other tables are unchanged |
| MemberUseCases.RemoveHouseholdMemberPlain | src/domain/usecases/RemoveHouseholdMemberUseCase.ts:13-48 | the method follows RemoveMemberPlain; the other tables are unchanged |
| MemberUseCases.LeaveHousehold | src/domain/usecases/LeaveHouseholdUseCase.ts:12-40 | the method follows Leave; the other tables are unchanged |
| Reminders.FindReminder | src/domain/usecases/reminders/UpdateReminderUseCase.ts:41 | the reminder found is stored and has that id and medication, and none is found exactly when no stored reminder has both |
| Reminders.GetReminder | src/domain/usecases/reminders/UpdateReminderUseCase.ts:41-44 | `getReminderById`: a reminder is found only through a medication of that household, and it is a stored reminder with that id and medication |
| Reminders.UpdateIn | src/domain/usecases/reminders/UpdateReminderUseCase.ts:46-51 | `updateReminder`: the store keeps its length and order, the reminder with that id and medication becomes Apply of the changes, and every other reminder is unchanged |
| Reminders.Apply | src/domain/usecases/reminders/UpdateReminderUseCase.ts:46-51 | each supplied key of the update replaces that field; id and medication are kept |
| Reminders.ApplyIdempotent | src/domain/usecases/UpdateReminderUseCase.ts:37-42 | applying the same update twice is applying it once |
| Reminders.RemindersOf | src/domain/usecases/reminders/ListMedicationRemindersUseCase.ts:38 | the listed reminders all belong to the medication and come from the store |
| Reminders.RemindersOfComplete | src/domain/usecases/ListMedicationRemindersUseCase.ts:29 | every reminder of the medication is listed |
| Reminders.DeleteIn | src/domain/usecases/DeleteReminderUseCase.ts:35 | no reminder with that id and medication remains, and every remaining reminder was in the store |
| Reminders.DeleteKeepsOthers | src/domain/usecases/DeleteReminderUseCase.ts:35 | every other reminder is kept |
| Reminders.Created | src/domain/usecases/CreateReminderUseCase.ts:29-39 | the created reminder carries medication, time and days as given, and `enabled` as given or the store's default |
| ReminderUseCases.UpdateReminder | src/domain/usecases/reminders/UpdateReminderUseCase.ts:24-52 | checks run in the order caregiver, medication, reminder; a failure writes nothing; success updates exactly the named reminder with the changes as given |
| ReminderUseCases.UpdateReminderNotFound | src/domain/usecases/reminders/UpdateReminderUseCase.ts:41-44 | once the first two checks pass, the update reaches the store exactly when the reminder exists, otherwise NotFound 'Reminder not found.' |
| ReminderUseCases.UpdateReminderPlain | src/domain/usecases/UpdateReminderUseCase.ts:8-43 | a missing membership and a non-caregiver role both get 'Only caregivers can update medication reminders.'; a failure writes nothing |
| ReminderUseCases.UpdateReminderCopiesAgree | src/domain/usecases/UpdateReminderUseCase.ts:21-35 | both update copies succeed on the same inputs, return the same reminder and leave the same store; not-found errors carry the same messages |
| ReminderUseCases.CreateReminder | src/domain/usecases/CreateReminderUseCase.ts:13-40 | access, then medication; a failure creates nothing; success appends one reminder built from the caller's fields, with `enabled` only when supplied |
| ReminderUseCases.CreatedIsFound | src/domain/usecases/CreateReminderUseCase.ts:39 | a reminder created under a fresh id is found again with its fields |
| ReminderUseCases.DeleteReminder | src/domain/usecases/DeleteReminderUseCase.ts:7-36 | access, medication, reminder in that order; deletion happens only when all pass, and afterwards the reminder is gone |
| ReminderUseCases.ListMedicationReminders | src/domain/usecases/reminders/ListMedicationRemindersUseCase.ts:24-39 | any member may list; a non-member gets the access error before the medication check; success lists only reminders of the medication |
| ReminderUseCases.ListMedicationRemindersPlain | src/domain/usecases/ListMedicationRemindersUseCase.ts:8-30 | a non-member gets 'Access denied: not a member of this household.'; a missing medication gets 'Medication not found.' |
| ReminderUseCases.ListCopiesAgree | src/domain/usecases/ListMedicationRemindersUseCase.ts:14-29 | for a member and an existing medication both copies return the same list, which holds every reminder of the medication |
| ReminderUseCases.UpdateReminderUseCase | src/domain/usecases/reminders/UpdateReminderUseCase.ts:24-52 | the method follows UpdateReminder, touches only the reminder store and keeps the repository valid |
| ReminderUseCases.UpdateReminderPlainUseCase | src/domain/usecases/UpdateReminderUseCase.ts:8-43 | the method follows UpdateReminderPlain, touches only the reminder store and keeps the repository valid |
| ReminderUseCases.CreateReminderUseCase | src/domain/usecases/CreateReminderUseCase.ts:8-40 | the method follows CreateReminder, touches only the reminder store and keeps the repository valid |
| ReminderUseCases.DeleteReminderUseCase | src/domain/usecases/DeleteReminderUseCase.ts:7-36 | the method follows DeleteReminder, touches only the reminder store and keeps the repository valid |
| ErrorHandler.StatusOfKind | src/routes/errorHandler.ts:30-78 | NotFound 404, Forbidden 403, Unauthorized 401, Validation 400, Conflict 409, BusinessRule 422; 500 exactly for the bare DomainError |
| ErrorHandler.HandleDomainError | src/routes/errorHandler.ts:28-87 | the mapping is total into {400, 401, 403, 404, 409, 422, 500}; the body status is 'error'; domain and Error messages pass through verbatim; any other value gets 500 and 'An unexpected error occurred.' |
| ErrorHandler.StatusIdentifiesKind | src/routes/errorHandler.ts:30-70 | the error class can be read back from the status |
| ErrorHandler.StatusInjective | src/routes/errorHandler.ts:30-78 | two domain errors share a status exactly when they are of the same class |
| InvitationRoutes.MessageOf | api/src/routes/households.ts:318 | an Error's message, or 'Unexpected error.' for any other thrown value |
| InvitationRoutes.AcceptIdentifier | api/src/routes/households.ts:474-478 | resolve by token exactly when a non-empty token is sent; by invitation id exactly when no non-empty token but a non-empty id is sent |
| InvitationRoutes.AcceptAuditTarget | api/src/routes/households.ts:489 | the audit target is the invitation id if sent, else the token, else 'pending-email-selection' |
| InvitationRoutes.BothSentResolveAndAuditDisagree | api/src/routes/households.ts:474-489 | when both are sent the token resolves the invitation while the audit names the invitation id |
| InvitationRoutes.AcceptStatus | api/src/routes/households.ts:500-506 | 403 exactly for 'Access denied to this invitation.', 404 exactly for 'Invitation not found.', 409 otherwise |
| InvitationRoutes.AcceptedAudit | api/src/routes/households.ts:485-493 | the accepted-invitation event names the joined household, the requester, the chosen target and the masked e-mail |
| InvitationRoutes.HandleAccept | api/src/routes/households.ts:464-511 | an invalid body gets 400; a failing accept gets AcceptStatus of its message; after a successful accept the audit event is written, and a failing audit write gets AcceptStatus of its own message while a successful one answers with the household joined |
| InvitationRoutes.AcceptFailuresAreClientErrors | api/src/routes/households.ts:485-506 | every rejected accept answers with a 4xx status carrying the message of whichever call threw, the accept use case or the audit write; an accepted request had both succeed |
| InvitationRoutes.CancelStatus | api/src/routes/households.ts:583-589 | 403 exactly for 'Only caregivers can cancel invitations.', 404 exactly for 'Invitation not found.', 409 otherwise |
| InvitationRoutes.CancelMapsAccessDeniedToConflict | api/src/routes/households.ts:583-589 | a household access-denied message reaches the client as 409 from both the accept and the cancel route |
| InvitationRoutes.BulkStatus | api/src/routes/households.ts:317-325 | 403 exactly for the two role messages and 'Access denied to this household.', 404 otherwise |
| InvitationRoutes.BulkRoleFailureForbidden | api/src/routes/households.ts:272-276 | every failure of the caregiver-role check becomes 403 |
| InvitationRoutes.NormalEmail | api/src/routes/households.ts:287 | `email.trim().toLowerCase()`, with lower-casing on ASCII letters; it carries no contract of its own: FindCandidate and OwnCandidateNamesJob state how it is used |
| InvitationRoutes.FindCandidate | api/src/routes/households.ts:286-288 | the first candidate whose trimmed, lower-cased e-mail equals the delivery e-mail, and none exactly when no candidate matches |
| InvitationRoutes.EmailJobFor | api/src/routes/households.ts:284-299 | a job carries its delivery's id, e-mail and links, with the first matching candidate's first name and role, or 'there' and senior |
| InvitationRoutes.BuildEmailJobs | api/src/routes/households.ts:284-299 | exactly one job per delivery, in delivery order |
| InvitationRoutes.OwnCandidateNamesJob | api/src/routes/households.ts:286-295 | a candidate with a normalised e-mail names its own job |
| InvitationRoutes.CreatedAudit | api/src/routes/households.ts:302-310 | the 'invitation_created' event targets the delivery's invitation and carries its masked e-mail |
| InvitationRoutes.AuditDeliveries | api/src/routes/households.ts:301-311 | one 'invitation_created' audit event per delivery, in order, targeting its invitation and carrying the masked e-mail |
| InvitationRoutes.HandleBulkInvitations | api/src/routes/households.ts:253-327 | an invalid payload gets 400 before any quota is used; the quota is consumed before the role check; a denied quota gets 429; a role or creation failure gets BulkStatus of its message with 'Unable to create invitations.'; success enqueues the jobs and logs the audit events |
| MedicationSchemas.IsTime | src/routes/households/medicationSchemas.ts:4 | `TIME_REGEX`: five characters, hour 00-23, ':', minute 00-59; it carries no contract of its own: IsTimeExactly characterises it |
| MedicationSchemas.IsTimeExactly | src/routes/households/medicationSchemas.ts:4 | a time is accepted exactly when it is the two-digit writing of some hour 0-23 and minute 0-59 |
| MedicationSchemas.TimeRoundTrip | src/routes/households/medicationSchemas.ts:4 | an accepted time is the time of its own hour and minute |
| MedicationSchemas.TimeOfRoundTrip | src/routes/households/medicationSchemas.ts:4 | writing a time and reading it back gives the same hour and minute |
| MedicationSchemas.TimeExamples | src/routes/households/medicationSchemas.ts:4 | worked example of IsTimeExactly: '00:00' and '23:59' pass; '24:00', '7:30' and '12:60' do not |
| MedicationSchemas.ParseForm | src/routes/households/medicationSchemas.ts:7-18 | a parsed form is the form of that name |
| MedicationSchemas.ParseFormName | src/routes/households/medicationSchemas.ts:7-18 | every one of the ten forms is accepted under its name |
| MedicationSchemas.ParseFormExactly | src/routes/households/medicationSchemas.ts:7-18 | a string is accepted as a form exactly when it names one of the ten |
| MedicationSchemas.ValidCreate | src/routes/households/medicationSchemas.ts:20-33 | `createMedicationBodySchema`: every value valid and the six required keys present, with no null; it carries no contract of its own: CreateBodyIsUpdateBody, EmptyBody and EmptyScheduleRefused state its properties |
| MedicationSchemas.ValidUpdate | src/routes/households/medicationSchemas.ts:36-49 | `updateMedicationBodySchema`: every key may be absent, only the four `.nullable()` keys may be null, and every sent value is valid; it carries no contract of its own: EmptyBody, NullableFieldsMayBeCleared and UpdateScheduleChecked state its properties |
| MedicationSchemas.CreateBodyIsUpdateBody | src/routes/households/medicationSchemas.ts:21-50 | every body the create schema accepts, the update schema accepts too |
| MedicationSchemas.EmptyBody | src/routes/households/medicationSchemas.ts:21-50 | an empty update is accepted and an empty create is not |
| MedicationSchemas.NullableFieldsMayBeCleared | src/routes/households/medicationSchemas.ts:45-49 | prescribedBy, prescriptionDate, endDate and instructions may each be sent as null in an accepted update |
| MedicationSchemas.UpdateScheduleChecked | src/routes/households/medicationSchemas.ts:41-43 | a schedule sent in an update is non-empty, and every entry matches the time pattern and is the two-digit writing of its own hour and minute |
| MedicationSchemas.EmptyScheduleRefused | src/routes/households/medicationSchemas.ts:26-28 | a body sending an empty schedule is refused by both schemas |
| MedicationSchemas.BmpLengthBound | src/routes/households/medicationSchemas.ts:22-23 | worked example of BmpLength: a name of 1 to 100 characters inside the Basic Multilingual Plane fits the name and dosage bounds |
| CommitMessage.SplitLines | scripts/check_commit_message.py:21 | no line holds a line break, and there are no lines exactly when the text is empty |
| CommitMessage.SplitTerminated | scripts/check_commit_message.py:21 | splitting newline-terminated break-free lines gives the lines back |
| CommitMessage.TypeUnique | scripts/check_commit_message.py:8 | at most one allowed type followed by '(' starts a header |
| CommitMessage.HeaderMatches | scripts/check_commit_message.py:8 | `PATTERN.match`: an allowed type read off the front, then the rest of the pattern; it carries no contract of its own: HeaderMatchesExactly characterises it |
| CommitMessage.HeaderMatchesExactly | scripts/check_commit_message.py:8 | a header matches exactly when it is type(scope): summary with an allowed type, a non-empty scope of [a-z0-9-] and a non-empty summary not starting with a newline |
| CommitMessage.HeaderOfParts | scripts/check_commit_message.py:8 | every header built from an allowed type, a valid scope and a summary matches |
| CommitMessage.HeaderExamples | scripts/check_commit_message.py:8 | worked example of HeaderMatchesExactly: 'feat(api): add rate limit' matches; an upper-case scope or an empty summary does not |
| CommitMessage.HeaderNeedsScopeAndLowerCaseType | scripts/check_commit_message.py:8 | a header without a scope, or with a capitalised type, never matches |
| CommitMessage.CheckLines | scripts/check_commit_message.py:22-42 | the message is refused as empty exactly when there are no lines, and for its header exactly when the stripped first line does not match |
| CommitMessage.CheckCommitMessage | scripts/check_commit_message.py:21-42 | the verdict on the file's text: refused as empty exactly when the text is empty, and for its header exactly when the stripped first line of a non-empty text does not match |
| CommitMessage.ExitCode | scripts/check_commit_message.py:14-42 | the exit status is 0 exactly for an accepted message, 1 otherwise |
| CommitMessage.AcceptedExactly | scripts/check_commit_message.py:22-42 | a message is accepted exactly when it has at least three lines, a matching stripped header, a blank second line and a third line with non-white-space |
| CommitMessage.LaterLinesFree | scripts/check_commit_message.py:38-42 | lines after the third do not change the verdict |
| CommitMessage.HeaderCheckedFirst | scripts/check_commit_message.py:26-31 | a bad header is reported whatever else is wrong |
| CommitMessage.DescriptionRequired | scripts/check_commit_message.py:38-40 | a good header alone, or with a blank line, is refused for the missing description |
| CommitMessage.WellFormedMessageAccepted | scripts/check_commit_message.py:21-42 | header, blank line and description, each ended by a newline, are accepted |
| CommitMessage.ThreeLinesAccepted | scripts/check_commit_message.py:21-42 | a matching trimmed header, a blank second line and a trimmed non-empty third line, each ended by a newline, are accepted |

## Left out

- The template loader's file reads are not modelled. `EmailTemplate.LoadEmailTemplate` and `InvitationEmail.BuildInvitationEmailTemplate` take the texts of the two template files as parameters.
- EmailTemplate.SuppliedKeyReplaced: is stated for a text that is only the placeholder. Inside a larger text the value can join the braces around it into a later key's placeholder, which a later entry of the loop then replaces. For example, with the entries `a` → `b` and `b` → `X`, the text `{{{{a}}}}` becomes `{{b}}` and then `X`.
- EmailTemplate.Render: covers only keys that are identifiers and values without `$`. The loader splices keys into a regular expression unescaped and inserts values as replacement strings, where `$` patterns are special.
- The repository implementation is not part of this model. Its tables (members, overviews, medications, reminders) are modelled as plain values. The use cases rely on these properties of it:
  - an update applies the supplied keys;
  - a delete drops the matching reminder;
  - a create appends a reminder under an id the store chooses, given as a parameter;
  - a missing `enabled` takes a store default, held as a constant.
- A household overview is modelled as an opaque value.
- The schema library's `.email()` and `.datetime()` checks are parameters. JSON type errors (a number where a string is expected) are not modelled: every field is either absent, null or a value of its declared type.
- The invitation lifecycle is not part of this model: accept, cancel, resend and expiry in the repository, the e-mail queue with its retries, and the metrics. In the routes, the accept use case and the bulk creation are parameters, and the enqueued jobs are returned, not sent.
- InvitationRoutes.HandleBulkInvitations: does not model a failure of the audit logging inside the try block.
- InvitationRoutes.HandleBulkInvitations: the route's role check is taken to be the corrected `HouseholdAccess.EnsureHouseholdRole`. The route imports the api copy of `EnsureHouseholdRoleUseCase` (api/src/routes/households.ts:7), which is not part of this model; the copy under src/ swaps the lookup's arguments (see "## Findings"), and with that copy a caregiver would be refused.
- InvitationView.MaskEmail: a Dafny character is a Unicode scalar value, while the regular expression, having no `u` flag, matches UTF-16 code units. The two agree on e-mails inside the Basic Multilingual Plane. They differ when the first character, or the character before the '@', lies outside it: for "😀x@ab" the source keeps only the high surrogate and gives "\uD83D***@ab" where the model gives "😀***@ab", and "😀@ab" is masked by the source but returned unchanged by the model.
- The cancel handler is modelled only through its status mapping, `InvitationRoutes.CancelStatus`.
- Route registration, reply objects and response schemas are not modelled. Neither are the e-mail providers, the runtime wiring, the database and start-up scripts, or concurrency: the model is sequential.
- The single-guard delegations (medication CRUD, member, invitation and household listings) are one access check followed by one repository call. `HouseholdAccess.EnsureMember` and `HouseholdAccess.EnsureCaregiver` capture that check. src/domain/usecases/households/ListHouseholdMembersUseCase.ts:15 and src/domain/usecases/invitations/ListHouseholdInvitationsUseCase.ts:14 swap the `ensureMember` arguments in the same way as the finding below. They are not modelled separately.
- InvitationRoutes.NormalEmail: JavaScript's `toLowerCase` is modelled on ASCII letters only (`Text.AsciiLower`). Other characters are kept as they are.
- CommitMessage.CheckCommitMessage: the script's argument and file-existence checks are not modelled, and neither is the text it prints. They return 1 before any line is read.
- HouseholdAccess.GetHouseholdOverview: the `console.log` calls are not modelled.
- Timestamps (`createdAt`, `updatedAt`) are not modelled. Reminders carry no timestamps.
- `encodeURIComponent` throws on lone surrogates. Dafny characters are Unicode scalar values, so that error cannot arise in the model.

## Findings

| source | as written | input that shows it | evidently intended | confidence | as-written member | corrected member |
|---|---|---|---|---|---|---|
| src/domain/usecases/EnsureHouseholdRoleUseCase.ts:18 | the membership lookup is called with (householdId, requesterUserId), the reverse of its parameter order (userId, householdId) | members [Member("m1", "u1", "h1", caregiver)], householdId "h1", requester "u1", allowed roles [caregiver]: the lookup asks for user "h1" in household "u1" and throws 'Access denied to this household.' | a caregiver of the household passes the check | not executed | HouseholdAccess.EnsureHouseholdRoleAsWritten (shown by HouseholdAccess.SwappedLookupDeniesMember) | HouseholdAccess.EnsureHouseholdRole |
