/**
 * The biometric and credential state of the auth provider: the two biometric flags,
 * the credentials held in memory, and the two device slots it persists to, guarded
 * by the results of the biometric prompt, the auth backend and the storage calls.
 */
module Auth {
  import opened Wrappers

  /** AsyncStorage key of the biometric preference. */
  const BiometricEnabledKey := "biometric_enabled"
  /** SecureStore key of the saved credentials. */
  const CredentialsKey := "auth_credentials"
  /** The only preference text that reads as enabled. */
  const EnabledText := "true"
  const DisabledText := "false"

  const NotAvailable := "Biometric authentication is not available"
  const PromptFailed := "Biometric authentication failed"
  const NoStoredCredentials := "No stored credentials found"
  const StoreFailed := "Failed to store credentials securely"

  datatype Credentials = Credentials(email: string, password: string)

  /** The text SecureStore holds under `auth_credentials`: the JSON of a credentials pair,
      or text that is empty or that JSON.parse rejects. The encoding itself is not modelled. */
  datatype SecureText = CredentialsJson(credentials: Credentials) | Unparsable

  /** What `getStoredCredentials` makes of the slot when the read succeeds. */
  function Decode(slot: Option<SecureText>): (r: Option<Credentials>)
    ensures r.Some? <==> slot.Some? && slot.value.CredentialsJson?
    ensures r.Some? ==> slot == Some(CredentialsJson(r.value))
  {
    match slot
    case Some(CredentialsJson(c)) => Some(c)
    case _ => None
  }

  /** The preference counts as enabled only when the stored text is exactly "true". */
  function PreferenceEnabled(stored: Option<string>): (r: bool)
    ensures r <==> stored == Some(EnabledText)
  {
    match stored
    case Some(text) => text == EnabledText
    case None => false
  }

  /** `session?.user?.email` is truthy. */
  predicate HasEmail(sessionEmail: Option<string>)
  {
    sessionEmail.Some? && sessionEmail.value != ""
  }

  /** The calls into the device and the auth backend that an operation issues, in order. */
  datatype DeviceCall =
    | BiometricPrompt
    | ReadCredentials
    | WriteCredentials(credentials: Credentials)
    | DeleteCredentials
    | WritePreference(text: string)
    | PasswordSignIn(credentials: Credentials)

  /** A snapshot of the provider's fields. */
  datatype AuthState = AuthState(
    biometricEnabled: bool,
    biometricAvailable: bool,
    current: Option<Credentials>,
    storedCredentials: Option<SecureText>,
    storedPreference: Option<string>)

  class AuthProvider {
    var isBiometricEnabled: bool
    var isBiometricAvailable: bool
    var currentCredentials: Option<Credentials>
    /** The SecureStore entry under `auth_credentials`. */
    var storedCredentials: Option<SecureText>
    /** The AsyncStorage entry under `biometric_enabled`. */
    var storedPreference: Option<string>

    function State(): AuthState
      reads this
    {
      AuthState(isBiometricEnabled, isBiometricAvailable, currentCredentials,
                storedCredentials, storedPreference)
    }

    /** Whenever biometric sign-in is on, in memory or as persisted, the secure slot holds
        a credentials pair that biometric sign-in can use. */
    ghost predicate Consistent()
      reads this
    {
      (isBiometricEnabled || storedPreference == Some(EnabledText)) ==> Decode(storedCredentials).Some?
    }

    /** The provider starts with both flags off and no credentials in memory; the two
        device slots hold whatever an earlier run left there. */
    constructor (storedCredentials: Option<SecureText>, storedPreference: Option<string>)
      ensures State() == AuthState(false, false, None, storedCredentials, storedPreference)
    {
      isBiometricEnabled := false;
      isBiometricAvailable := false;
      currentCredentials := None;
      this.storedCredentials := storedCredentials;
      this.storedPreference := storedPreference;
    }

    /** Biometric is available exactly when the device has the hardware and the user is enrolled. */
    method CheckBiometricAvailability(hasHardware: bool, isEnrolled: bool)
      modifies this`isBiometricAvailable
      ensures isBiometricAvailable <==> hasHardware && isEnrolled
    {
      isBiometricAvailable := hasHardware && isEnrolled;
    }

    /** `getStoredCredentials`: the decoded slot, or None when nothing usable is stored or
        the read fails; it never throws. Credentials found are also put in memory. */
    method GetStoredCredentials(readOk: bool) returns (found: Option<Credentials>)
      modifies this`currentCredentials
      ensures found == if readOk then Decode(storedCredentials) else None
      ensures currentCredentials == if found.Some? then found else old(currentCredentials)
    {
      if !readOk {
        return None;
      }
      found := Decode(storedCredentials);
      if found.Some? {
        currentCredentials := found;
      }
    }

    /** `storeCredentials`: the pair goes to the secure slot and into memory; a failed write
        throws a fixed message and changes nothing. */
    method StoreCredentials(email: string, password: string, write: Outcome) returns (r: Outcome)
      modifies this`storedCredentials, this`currentCredentials
      ensures write.Pass? ==>
        r == Pass &&
        storedCredentials == Some(CredentialsJson(Credentials(email, password))) &&
        currentCredentials == Some(Credentials(email, password))
      ensures write.Fail? ==>
        r == Fail(StoreFailed) &&
        storedCredentials == old(storedCredentials) && currentCredentials == old(currentCredentials)
    {
      if write.Fail? {
        return Fail(StoreFailed);
      }
      var credentials := Credentials(email, password);
      storedCredentials := Some(CredentialsJson(credentials));
      currentCredentials := Some(credentials);
      r := Pass;
    }

    /** `loadBiometricPreference`: the flag follows the persisted text; when it is on, the
        stored credentials are loaded as well. A failed read is logged and changes nothing. */
    method LoadBiometricPreference(preferenceReadOk: bool, credentialsReadOk: bool)
      modifies this`isBiometricEnabled, this`currentCredentials
      ensures preferenceReadOk ==> isBiometricEnabled == PreferenceEnabled(storedPreference)
      ensures !preferenceReadOk ==> isBiometricEnabled == old(isBiometricEnabled)
      ensures currentCredentials ==
        if preferenceReadOk && isBiometricEnabled && credentialsReadOk && Decode(storedCredentials).Some?
        then Decode(storedCredentials) else old(currentCredentials)
      ensures old(Consistent()) ==> Consistent()
    {
      if !preferenceReadOk {
        return;
      }
      isBiometricEnabled := PreferenceEnabled(storedPreference);
      if isBiometricEnabled {
        var _ := GetStoredCredentials(credentialsReadOk);
      }
    }

    /** `toggleBiometric`. Enabling shows the prompt, and only when it succeeds, the session
        has an email and credentials are in memory does it store them, persist "true" and
        set the flag; each storage failure throws and stops the sequence. Disabling shows
        no prompt: it deletes the stored credentials, forgets the in-memory ones, persists
        "false" and clears the flag. */
    method ToggleBiometric(promptOk: bool, sessionEmail: Option<string>,
                           credentialsWrite: Outcome, credentialsDelete: Outcome, preferenceWrite: Outcome)
      returns (r: Outcome, calls: seq<DeviceCall>)
      modifies this`isBiometricEnabled, this`currentCredentials, this`storedCredentials, this`storedPreference
      ensures isBiometricAvailable == old(isBiometricAvailable)
      // enabling, refused
      ensures !old(isBiometricEnabled) && !(promptOk && HasEmail(sessionEmail) && old(currentCredentials).Some?) ==>
        r == Pass && calls == [BiometricPrompt] && State() == old(State())
      // enabling, accepted
      ensures !old(isBiometricEnabled) && promptOk && HasEmail(sessionEmail) && old(currentCredentials).Some? ==>
        var c := old(currentCredentials).value;
        && (credentialsWrite.Fail? ==>
              r == Fail(StoreFailed) && calls == [BiometricPrompt, WriteCredentials(c)] &&
              State() == old(State()))
        && (credentialsWrite.Pass? && preferenceWrite.Fail? ==>
              r == preferenceWrite &&
              calls == [BiometricPrompt, WriteCredentials(c), WritePreference(EnabledText)] &&
              State() == old(State()).(storedCredentials := Some(CredentialsJson(c))))
        && (credentialsWrite.Pass? && preferenceWrite.Pass? ==>
              r == Pass &&
              calls == [BiometricPrompt, WriteCredentials(c), WritePreference(EnabledText)] &&
              State() == old(State()).(biometricEnabled := true,
                                       storedCredentials := Some(CredentialsJson(c)),
                                       storedPreference := Some(EnabledText)))
      // disabling
      ensures old(isBiometricEnabled) ==>
        && (credentialsDelete.Fail? ==>
              r == credentialsDelete && calls == [DeleteCredentials] && State() == old(State()))
        && (credentialsDelete.Pass? && preferenceWrite.Fail? ==>
              r == preferenceWrite && calls == [DeleteCredentials, WritePreference(DisabledText)] &&
              State() == old(State()).(current := None, storedCredentials := None))
        && (credentialsDelete.Pass? && preferenceWrite.Pass? ==>
              r == Pass && calls == [DeleteCredentials, WritePreference(DisabledText)] &&
              State() == old(State()).(biometricEnabled := false, current := None,
                                       storedCredentials := None,
                                       storedPreference := Some(DisabledText)))
      ensures old(Consistent()) && (old(isBiometricEnabled) && credentialsDelete.Pass? ==> preferenceWrite.Pass?) ==>
        Consistent()
    {
      if !isBiometricEnabled {
        calls := [BiometricPrompt];
        if promptOk && HasEmail(sessionEmail) && currentCredentials.Some? {
          var c := currentCredentials.value;
          calls := calls + [WriteCredentials(c)];
          r := StoreCredentials(c.email, c.password, credentialsWrite);
          if r.Fail? {
            return;
          }
          calls := calls + [WritePreference(EnabledText)];
          if preferenceWrite.Fail? {
            return preferenceWrite, calls;
          }
          storedPreference := Some(EnabledText);
          isBiometricEnabled := true;
        }
        r := Pass;
      } else {
        calls := [DeleteCredentials];
        if credentialsDelete.Fail? {
          return credentialsDelete, calls;
        }
        storedCredentials := None;
        currentCredentials := None;
        calls := calls + [WritePreference(DisabledText)];
        if preferenceWrite.Fail? {
          return preferenceWrite, calls;
        }
        storedPreference := Some(DisabledText);
        isBiometricEnabled := false;
        r := Pass;
      }
    }

    /** `signInWithBiometric`, checked in order and throwing at the first failure: the
        feature must be enabled and available (else no prompt is shown), the prompt must
        succeed, and stored credentials must be found; then it signs in with exactly them. */
    method SignInWithBiometric(promptOk: bool, credentialsReadOk: bool, signIn: Outcome)
      returns (r: Outcome, calls: seq<DeviceCall>)
      modifies this`currentCredentials
      ensures !(isBiometricEnabled && isBiometricAvailable) ==>
        r == Fail(NotAvailable) && calls == [] && State() == old(State())
      ensures isBiometricEnabled && isBiometricAvailable && !promptOk ==>
        r == Fail(PromptFailed) && calls == [BiometricPrompt] && State() == old(State())
      ensures isBiometricEnabled && isBiometricAvailable && promptOk &&
              !(credentialsReadOk && Decode(storedCredentials).Some?) ==>
        r == Fail(NoStoredCredentials) && calls == [BiometricPrompt, ReadCredentials] &&
        State() == old(State())
      ensures isBiometricEnabled && isBiometricAvailable && promptOk &&
              credentialsReadOk && Decode(storedCredentials).Some? ==>
        var c := Decode(storedCredentials).value;
        r == signIn && calls == [BiometricPrompt, ReadCredentials, PasswordSignIn(c)] &&
        State() == old(State()).(current := Some(c))
      ensures old(Consistent()) && isBiometricEnabled && isBiometricAvailable && promptOk && credentialsReadOk ==>
        Decode(storedCredentials).Some? &&
        calls == [BiometricPrompt, ReadCredentials, PasswordSignIn(Decode(storedCredentials).value)]
    {
      calls := [];
      if !isBiometricEnabled || !isBiometricAvailable {
        return Fail(NotAvailable), calls;
      }
      calls := calls + [BiometricPrompt];
      if !promptOk {
        return Fail(PromptFailed), calls;
      }
      calls := calls + [ReadCredentials];
      var found := GetStoredCredentials(credentialsReadOk);
      if found.None? {
        return Fail(NoStoredCredentials), calls;
      }
      calls := calls + [PasswordSignIn(found.value)];
      r := signIn;
    }

    /** `signIn`: an auth error throws and leaves everything as it was; otherwise the pair is
        kept in memory, and written to the secure slot only while biometric is enabled. */
    method SignIn(email: string, password: string, auth: Outcome, credentialsWrite: Outcome)
      returns (r: Outcome, calls: seq<DeviceCall>)
      modifies this`currentCredentials, this`storedCredentials
      ensures auth.Fail? ==>
        r == auth && calls == [PasswordSignIn(Credentials(email, password))] && State() == old(State())
      ensures auth.Pass? && !isBiometricEnabled ==>
        r == Pass && calls == [PasswordSignIn(Credentials(email, password))] &&
        State() == old(State()).(current := Some(Credentials(email, password)))
      ensures auth.Pass? && isBiometricEnabled ==>
        var c := Credentials(email, password);
        && calls == [PasswordSignIn(c), WriteCredentials(c)]
        && currentCredentials == Some(c)
        && (credentialsWrite.Pass? ==> r == Pass && storedCredentials == Some(CredentialsJson(c)))
        && (credentialsWrite.Fail? ==> r == Fail(StoreFailed) && storedCredentials == old(storedCredentials))
      ensures old(Consistent()) ==> Consistent()
    {
      var c := Credentials(email, password);
      calls := [PasswordSignIn(c)];
      if auth.Fail? {
        return auth, calls;
      }
      currentCredentials := Some(c);
      r := Pass;
      if isBiometricEnabled {
        calls := calls + [WriteCredentials(c)];
        r := StoreCredentials(email, password, credentialsWrite);
      }
    }

    /** `signOut`: an auth error throws and keeps the credentials; otherwise they are
        forgotten. The secure slot and the preference stay as they are. */
    method SignOut(auth: Outcome) returns (r: Outcome)
      modifies this`currentCredentials
      ensures r == auth
      ensures currentCredentials == if auth.Pass? then None else old(currentCredentials)
    {
      r := auth;
      if auth.Pass? {
        currentCredentials := None;
      }
    }
  }

  /** A session from a fresh install: sign in, enable biometric, then sign in with biometric
      uses exactly the pair that was typed. */
  method EnableThenSignInWithBiometric(c: Credentials, signIn: Outcome)
    returns (r: Outcome, calls: seq<DeviceCall>)
    ensures r == signIn && calls == [BiometricPrompt, ReadCredentials, PasswordSignIn(c)]
  {
    var auth := new AuthProvider(None, None);
    auth.CheckBiometricAvailability(true, true);
    var _, _ := auth.SignIn(c.email, c.password, Pass, Pass);
    var _, _ := auth.ToggleBiometric(true, Some("user@example.com"), Pass, Pass, Pass);
    var _ := auth.SignOut(Pass);
    r, calls := auth.SignInWithBiometric(true, true, signIn);
  }

  /** When disabling deletes the stored credentials but persisting "false" fails, the flag
      stays on with nothing stored, and the next biometric sign-in finds no credentials. */
  method DisableWithFailedPreferenceWrite(c: Credentials) returns (r: Outcome)
    ensures r == Fail(NoStoredCredentials)
  {
    var auth := new AuthProvider(None, None);
    auth.CheckBiometricAvailability(true, true);
    var _, _ := auth.SignIn(c.email, c.password, Pass, Pass);
    var _, _ := auth.ToggleBiometric(true, Some("user@example.com"), Pass, Pass, Pass);
    var failed, _ := auth.ToggleBiometric(true, Some("user@example.com"), Pass, Pass, Fail("write failed"));
    assert failed.Fail? && auth.isBiometricEnabled && auth.storedCredentials == None;
    var calls;
    r, calls := auth.SignInWithBiometric(true, true, Pass);
  }
}
