/** The authentication providers card: which configured providers it lists, and each provider row. */
module AuthProviders {
  import opened Wrappers
  import opened Seqs

  datatype Provider = Provider(title: string, description: string)

  /** The providers the card knows, keyed by their config name, in declaration order. */
  const ProviderKeys: seq<string> :=
    ["google", "microsoft", "github", "gitlab", "okta", "bitbucket", "onelogin", "atlassian", "bitbucketServer"]

  function ProviderOf(key: string): (p: Option<Provider>)
    ensures p.Some? <==> key in ProviderKeys
    ensures p.Some? ==> |p.value.title| > 0
  {
    match key
    case "google" => Some(Provider("Google", "Sign in with Google"))
    case "microsoft" => Some(Provider("Microsoft", "Sign in with Microsoft"))
    case "github" => Some(Provider("GitHub", "Sign in with GitHub"))
    case "gitlab" => Some(Provider("GitLab", "Sign in with GitLab"))
    case "okta" => Some(Provider("Okta", "Sign in with Okta"))
    case "bitbucket" => Some(Provider("Bitbucket", "Sign in with Bitbucket"))
    case "onelogin" => Some(Provider("OneLogin", "Sign in with OneLogin"))
    case "atlassian" => Some(Provider("Atlassian", "Sign in with Atlassian"))
    case "bitbucketServer" => Some(Provider("Bitbucket Server", "Sign in with Bitbucket Server"))
    case _ => None
  }

  /**
   * Names every plain object literal answers to through its prototype, so the `in`
   * operator is true for them on the provider map as well.
   */
  const InheritedNames: seq<string> :=
    ["constructor", "hasOwnProperty", "isPrototypeOf", "propertyIsEnumerable", "toLocaleString",
     "toString", "valueOf", "__proto__", "__defineGetter__", "__defineSetter__",
     "__lookupGetter__", "__lookupSetter__"]

  /** What reading `auth.providers` from the app config gives. */
  datatype ProvidersConfig = Absent | Unreadable | Keys(keys: seq<string>)

  /** The configured provider keys: none when the section is absent or reading it fails. */
  function Configured(c: ProvidersConfig): (keys: seq<string>)
    ensures c.Keys? ==> keys == c.keys
    ensures !c.Keys? ==> keys == []
  {
    match c
    case Keys(ks) => ks
    case _ => []
  }

  /** The filter as written: `key in PROVIDER_MAP`, which also looks up the prototype chain. */
  predicate InMapAsWritten(key: string) {
    key in ProviderKeys || key in InheritedNames
  }

  function ListedAsWritten(c: ProvidersConfig): (keys: seq<string>)
    ensures forall k :: k in keys <==> k in Configured(c) && InMapAsWritten(k)
  {
    Filter(Configured(c), InMapAsWritten)
  }

  /** A config naming only `toString` yields a listed key with no provider behind it, and no empty state. */
  lemma InheritedNameIsListed()
    ensures ListedAsWritten(Keys(["toString"])) == ["toString"]
    ensures ProviderOf("toString").None?
  {
    assert InMapAsWritten("toString") by { assert InheritedNames[5] == "toString"; }
    assert Filter(["toString"][1..], InMapAsWritten) == [];
  }

  /** The intended filter: only the card's own providers. */
  predicate Known(key: string) {
    ProviderOf(key).Some?
  }

  /** The keys listed, in configuration order. */
  function Listed(c: ProvidersConfig): (keys: seq<string>)
    ensures forall k :: k in keys <==> k in Configured(c) && k in ProviderKeys
    ensures forall k :: k in keys ==> ProviderOf(k).Some?
  {
    Filter(Configured(c), Known)
  }

  /** The empty-state message shows exactly when no configured key names a known provider. */
  lemma EmptyStateIff(c: ProvidersConfig)
    ensures |Listed(c)| == 0 <==> forall k :: k in Configured(c) ==> k !in ProviderKeys
  {
    var ks := Listed(c);
    if |ks| > 0 { assert ks[0] in ks; }
  }

  /** Every listed key is distinct when the config keys are, so the rows' keys are unique. */
  lemma ListedDistinct(c: ProvidersConfig)
    requires NoDups(Configured(c))
    ensures NoDups(Listed(c))
  {
    FilterNoDups(Configured(c), Known);
  }

  /** The two filters agree on every name outside the prototype's. */
  lemma AsWrittenAgreesOffPrototype(c: ProvidersConfig)
    requires forall k :: k in Configured(c) ==> k !in InheritedNames
    ensures ListedAsWritten(c) == Listed(c)
  {
    FilterAgree(Configured(c), InMapAsWritten, Known);
  }

  lemma {:induction false} FilterAgree(xs: seq<string>, p: string -> bool, q: string -> bool)
    requires forall x :: x in xs ==> p(x) == q(x)
    ensures Filter(xs, p) == Filter(xs, q)
  {
    if |xs| > 0 {
      assert forall x :: x in xs[1..] ==> x in xs;
      FilterAgree(xs[1..], p, q);
    }
  }

  datatype Profile = Profile(displayName: Option<string>, email: Option<string>, picture: Option<string>)

  datatype Action = SignIn | SignOut

  /** What one provider row shows. */
  datatype RowView = RowView(avatar: Option<string>, status: string, secondary: string, action: Action)

  predicate SignedIn(sessionState: Option<string>) {
    sessionState == Some("SignedIn")
  }

  /** The row's second line: the profile's name and email when signed in with a name, else the provider's blurb. */
  function SecondaryText(p: Provider, signedIn: bool, profile: Option<Profile>): (text: string)
    ensures !(signedIn && profile.Some? && Truthy(profile.value.displayName)) ==> text == p.description
  {
    if signedIn && profile.Some? && Truthy(profile.value.displayName) then
      var pr := profile.value;
      pr.displayName.value + (if Truthy(pr.email) then " \U{B7} " + pr.email.value else "")
    else p.description
  }

  /**
   * One provider row; none when the provider's API is not registered in the app.
   * The avatar, when shown, falls back to the title's first letter.
   */
  function Row(p: Provider, apiRegistered: bool, sessionState: Option<string>, profile: Option<Profile>): (r: Option<RowView>)
    requires |p.title| > 0
    ensures r.None? <==> !apiRegistered
    ensures r.Some? ==> (r.value.status == "Connected" <==> SignedIn(sessionState))
    ensures r.Some? ==> (r.value.action == SignOut <==> SignedIn(sessionState))
    ensures r.Some? && r.value.avatar.Some? ==> SignedIn(sessionState)
  {
    if !apiRegistered then None
    else
      var signedIn := SignedIn(sessionState);
      Some(RowView(
        if signedIn && profile.Some? && Truthy(profile.value.picture) then Some([p.title[0]]) else None,
        if signedIn then "Connected" else "Not connected",
        SecondaryText(p, signedIn, profile),
        if signedIn then SignOut else SignIn))
  }

  /** Signed in with a named profile, the second line is the name, then the email if there is one. */
  lemma SecondaryShowsProfile(p: Provider, name: string, email: Option<string>, picture: Option<string>)
    requires name != ""
    ensures SecondaryText(p, true, Some(Profile(Some(name), email, picture))) ==
            if Truthy(email) then name + " \U{B7} " + email.value else name
  {
  }
}
