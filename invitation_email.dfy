/**
 * `buildInvitationEmailTemplate`: the role label, the greeting name and the variable record the
 * 'invitation' template is rendered with.  The template files themselves are inputs.
 */
module InvitationEmail {
  import opened Wrappers
  import opened Text
  import opened EmailTemplate
  import opened Household

  /** `roleLabel`: the label shown in the mail for the assigned role. */
  function RoleLabel(role: Role): (shown: string)
    ensures shown == "Caregiver" || shown == "Senior"
    ensures shown == "Caregiver" <==> role == Caregiver
  {
    if role == Caregiver then "Caregiver" else "Senior"
  }

  /** The first name with white space trimmed, or 'there' when nothing else is left. */
  function GreetingName(firstName: string): (g: string)
    ensures g != [] && !IsJsSpace(g[0]) && !IsJsSpace(g[|g| - 1])
    ensures (forall i :: 0 <= i < |firstName| ==> IsJsSpace(firstName[i])) ==> g == "there"
    ensures (exists i :: 0 <= i < |firstName| && !IsJsSpace(firstName[i])) ==>
      exists k :: IsStripOf(firstName, g, k, IsJsSpace)
  {
    StripIsStrip(firstName, IsJsSpace);
    var trimmed := JsTrim(firstName);
    if trimmed != [] then trimmed
    else
      assert forall i :: 0 <= i < |firstName| ==> IsJsSpace(firstName[i]);
      "there"
  }

  /** A first name that is already trimmed is greeted as it is. */
  lemma GreetingKeepsTrimmedName(firstName: string)
    requires firstName != [] && !IsJsSpace(firstName[0]) && !IsJsSpace(firstName[|firstName| - 1])
    ensures GreetingName(firstName) == firstName
  {
    StripUnchanged(firstName, IsJsSpace);
  }

  /** The greeting of an untrimmed name is the greeting of the trimmed one. */
  lemma GreetingIgnoresSurroundingSpace(firstName: string)
    ensures GreetingName(JsTrim(firstName)) == GreetingName(firstName)
  {
    StripIdempotent(firstName, IsJsSpace);
  }

  const FirstNameKey: string := "firstName"
  const RoleKey: string := "role"
  const DeepLinkKey: string := "deepLinkUrl"
  const FallbackKey: string := "fallbackUrl"

  /** The record handed to the loader, in the order its keys are written. */
  function InvitationVariables(firstName: string, role: Role, deepLinkUrl: string, fallbackUrl: Option<string>): (vars: Vars)
    ensures |vars| == 4
  {
    [(FirstNameKey, Some(GreetingName(firstName))), (RoleKey, Some(RoleLabel(role))),
     (DeepLinkKey, Some(deepLinkUrl)), (FallbackKey, fallbackUrl)]
  }

  /**
   * The loader is asked for exactly the four keys, each found with the value passed in: the
   * greeting, the role label, and the two links unchanged (a null fallback stays null).
   */
  lemma InvitationVariablesLookup(firstName: string, role: Role, deepLinkUrl: string, fallbackUrl: Option<string>)
    ensures var vars := InvitationVariables(firstName, role, deepLinkUrl, fallbackUrl);
      && (forall i :: 0 <= i < |vars| ==> vars[i].0 in {FirstNameKey, RoleKey, DeepLinkKey, FallbackKey})
      && Lookup(vars, FirstNameKey) == Some(Some(GreetingName(firstName)))
      && Lookup(vars, RoleKey) == Some(Some(RoleLabel(role)))
      && Lookup(vars, DeepLinkKey) == Some(Some(deepLinkUrl))
      && Lookup(vars, FallbackKey) == Some(fallbackUrl)
  {
    KeysDistinct();
    FourEntries(FirstNameKey, RoleKey, DeepLinkKey, FallbackKey,
      Some(GreetingName(firstName)), Some(RoleLabel(role)), Some(deepLinkUrl), fallbackUrl);
  }

  /** Looking up each of four distinct keys in a four-entry record finds its own value. */
  lemma FourEntries(k0: string, k1: string, k2: string, k3: string,
                    v0: Option<string>, v1: Option<string>, v2: Option<string>, v3: Option<string>)
    requires k0 != k1 && k0 != k2 && k0 != k3 && k1 != k2 && k1 != k3 && k2 != k3
    ensures var vars := [(k0, v0), (k1, v1), (k2, v2), (k3, v3)];
      && (forall i :: 0 <= i < |vars| ==> vars[i].0 in {k0, k1, k2, k3})
      && Lookup(vars, k0) == Some(v0) && Lookup(vars, k1) == Some(v1)
      && Lookup(vars, k2) == Some(v2) && Lookup(vars, k3) == Some(v3)
  {
    var vars := [(k0, v0), (k1, v1), (k2, v2), (k3, v3)];
    assert vars[1..] == [vars[1], vars[2], vars[3]];
    assert vars[1..][1..] == [vars[2], vars[3]];
    assert vars[1..][1..][1..] == [vars[3]];
  }

  /** The four keys are four different names. */
  lemma KeysDistinct()
    ensures FirstNameKey != RoleKey && FirstNameKey != DeepLinkKey && FirstNameKey != FallbackKey
    ensures RoleKey != DeepLinkKey && RoleKey != FallbackKey && DeepLinkKey != FallbackKey
  {
    assert |FirstNameKey| == 9 && |RoleKey| == 4 && |DeepLinkKey| == 11 && |FallbackKey| == 11;
    assert DeepLinkKey[0] != FallbackKey[0];
  }

  /** The greeting is made of the name's own characters, or is 'there'. */
  lemma GreetingChars(firstName: string)
    ensures forall c :: c in GreetingName(firstName) ==> c in firstName || c in "there"
  {
    StripIsStrip(firstName, IsJsSpace);
    var t := JsTrim(firstName);
    if t != [] {
      var k := |firstName| - |TrimStart(firstName, IsJsSpace)|;
      assert t == firstName[k..k + |t|];
    }
  }

  /** A character that is neither in the name nor in 'there' is not in the greeting. */
  lemma GreetingFree(firstName: string, ch: char)
    requires ch !in firstName && ch !in "there"
    ensures ch !in GreetingName(firstName)
  {
    GreetingChars(firstName);
  }

  /** The role labels hold neither `$` nor `{`. */
  lemma RoleLabelPlain(role: Role)
    ensures '$' !in RoleLabel(role) && '{' !in RoleLabel(role)
  {
  }

  /** The four keys are template keys. */
  lemma KeysAreTemplateKeys()
    ensures IsTemplateKey(FirstNameKey) && IsTemplateKey(RoleKey) && IsTemplateKey(DeepLinkKey) && IsTemplateKey(FallbackKey)
  {
  }

  /** The record is one the renderer covers as long as the caller's texts hold no `$`. */
  lemma InvitationVariablesValid(firstName: string, role: Role, deepLinkUrl: string, fallbackUrl: Option<string>)
    requires '$' !in firstName && '$' !in deepLinkUrl && (fallbackUrl.Some? ==> '$' !in fallbackUrl.value)
    ensures ValidVars(InvitationVariables(firstName, role, deepLinkUrl, fallbackUrl))
  {
    GreetingFree(firstName, '$');
    RoleLabelPlain(role);
    KeysDistinct();
    KeysAreTemplateKeys();
    FourValid(FirstNameKey, RoleKey, DeepLinkKey, FallbackKey,
      Some(GreetingName(firstName)), Some(RoleLabel(role)), Some(deepLinkUrl), fallbackUrl);
  }

  /** Four distinct template keys with literal values make a record the renderer covers. */
  lemma FourValid(k0: string, k1: string, k2: string, k3: string,
                  v0: Option<string>, v1: Option<string>, v2: Option<string>, v3: Option<string>)
    requires k0 != k1 && k0 != k2 && k0 != k3 && k1 != k2 && k1 != k3 && k2 != k3
    requires IsTemplateKey(k0) && IsTemplateKey(k1) && IsTemplateKey(k2) && IsTemplateKey(k3)
    requires IsLiteralValue(v0) && IsLiteralValue(v1) && IsLiteralValue(v2) && IsLiteralValue(v3)
    ensures ValidVars([(k0, v0), (k1, v1), (k2, v2), (k3, v3)])
  {
    var vars := [(k0, v0), (k1, v1), (k2, v2), (k3, v3)];
    forall i | 0 <= i < |vars|
      ensures IsTemplateKey(vars[i].0) && IsLiteralValue(vars[i].1)
    {
      if i == 0 {
      } else if i == 1 {
      } else if i == 2 {
      } else {
      }
    }
  }

  /**
   * A `{{#if fallbackUrl}}` block is kept exactly when a non-empty fallback URL is passed; a
   * null fallback removes it.
   */
  lemma FallbackBlockShown(firstName: string, role: Role, deepLinkUrl: string, fallbackUrl: Option<string>)
    ensures Truthy(InvitationVariables(firstName, role, deepLinkUrl, fallbackUrl), FallbackKey)
      <==> fallbackUrl.Some? && fallbackUrl.value != ""
  {
    InvitationVariablesLookup(firstName, role, deepLinkUrl, fallbackUrl);
  }

  /** A `{{#if firstName}}` block is always kept: the greeting is never empty. */
  lemma FirstNameBlockShown(firstName: string, role: Role, deepLinkUrl: string, fallbackUrl: Option<string>)
    ensures Truthy(InvitationVariables(firstName, role, deepLinkUrl, fallbackUrl), FirstNameKey)
  {
    InvitationVariablesLookup(firstName, role, deepLinkUrl, fallbackUrl);
  }

  /**
   * The `{{firstName}}` placeholder renders as the greeting, provided no passed text holds a
   * brace that a later entry could substitute into.
   */
  lemma GreetingPlaceholderRendered(firstName: string, role: Role, deepLinkUrl: string, fallbackUrl: Option<string>)
    requires '$' !in firstName && '$' !in deepLinkUrl && (fallbackUrl.Some? ==> '$' !in fallbackUrl.value)
    requires '{' !in firstName && '{' !in deepLinkUrl && (fallbackUrl.Some? ==> '{' !in fallbackUrl.value)
    ensures Substitute(Placeholder(FirstNameKey), InvitationVariables(firstName, role, deepLinkUrl, fallbackUrl)) == GreetingName(firstName)
  {
    GreetingFree(firstName, '$');
    GreetingFree(firstName, '{');
    RoleLabelPlain(role);
    KeysDistinct();
    KeysAreTemplateKeys();
    FirstEntryRendered(FirstNameKey, RoleKey, DeepLinkKey, FallbackKey,
      Some(GreetingName(firstName)), Some(RoleLabel(role)), Some(deepLinkUrl), fallbackUrl);
  }

  /** In a four-entry record the renderer covers, the first key's placeholder renders as its value. */
  lemma FirstEntryRendered(k0: string, k1: string, k2: string, k3: string,
                           v0: Option<string>, v1: Option<string>, v2: Option<string>, v3: Option<string>)
    requires k0 != k1 && k0 != k2 && k0 != k3 && k1 != k2 && k1 != k3 && k2 != k3
    requires IsTemplateKey(k0) && IsTemplateKey(k1) && IsTemplateKey(k2) && IsTemplateKey(k3)
    requires IsLiteralValue(v0) && IsLiteralValue(v1) && IsLiteralValue(v2) && IsLiteralValue(v3)
    requires '{' !in ValueText(v0) && '{' !in ValueText(v1) && '{' !in ValueText(v2) && '{' !in ValueText(v3)
    ensures Substitute(Placeholder(k0), [(k0, v0), (k1, v1), (k2, v2), (k3, v3)]) == ValueText(v0)
  {
    var vars := [(k0, v0), (k1, v1), (k2, v2), (k3, v3)];
    FourValid(k0, k1, k2, k3, v0, v1, v2, v3);
    FourBraceFree(vars, v0, v1, v2, v3);
    SuppliedKeyReplaced(k0, vars, 0);
  }

  lemma FourBraceFree(vars: Vars, v0: Option<string>, v1: Option<string>, v2: Option<string>, v3: Option<string>)
    requires |vars| == 4 && vars[0].1 == v0 && vars[1].1 == v1 && vars[2].1 == v2 && vars[3].1 == v3
    requires '{' !in ValueText(v0) && '{' !in ValueText(v1) && '{' !in ValueText(v2) && '{' !in ValueText(v3)
    ensures forall i :: 0 <= i < |vars| ==> '{' !in ValueText(vars[i].1)
  {
    forall i | 0 <= i < |vars|
      ensures '{' !in ValueText(vars[i].1)
    {
      if i == 0 {
      } else if i == 1 {
      } else if i == 2 {
      } else {
      }
    }
  }

  /** `buildInvitationEmailTemplate`, given the texts of the 'invitation' template's two files. */
  method BuildInvitationEmailTemplate(subjectText: string, bodyText: string, firstName: string, assignedRole: Role,
                                      deepLinkUrl: string, fallbackUrl: Option<string>) returns (subject: string, body: string)
    requires '$' !in firstName && '$' !in deepLinkUrl && (fallbackUrl.Some? ==> '$' !in fallbackUrl.value)
    ensures var vars := InvitationVariables(firstName, assignedRole, deepLinkUrl, fallbackUrl);
      subject == Rendered(subjectText, vars) && body == Rendered(bodyText, vars)
  {
    var greetingName := GreetingName(firstName);
    var vars := [(FirstNameKey, Some(greetingName)), (RoleKey, Some(RoleLabel(assignedRole))),
                 (DeepLinkKey, Some(deepLinkUrl)), (FallbackKey, fallbackUrl)];
    InvitationVariablesValid(firstName, assignedRole, deepLinkUrl, fallbackUrl);
    subject, body := LoadEmailTemplate(subjectText, bodyText, vars);
  }
}
