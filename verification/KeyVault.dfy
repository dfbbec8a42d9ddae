/** The password protection of the desktop vault: initialize, unlock, change the password, lock
    (app/desktop/vaultdb.py). */
module KeyVault {
  import opened Entities

  /** scrypt, HKDF, and AES-GCM on `nonce || ciphertext` blobs; `open` is None where the tag does not match. */
  datatype Crypto = Crypto(
    derive: (string, string) -> string,
    hkdf: (string, string) -> string,
    scopeKey: (string, string) -> string,
    seal: (string, string, string, string) -> string,
    unseal: (string, string, string) -> Option<string>)

  /** Different passwords and purposes give different keys; a blob opens under its own key and associated
      data only. */
  ghost predicate Ideal(c: Crypto) {
    && (forall p, q, s :: c.derive(p, s) == c.derive(q, s) ==> p == q)
    && (forall k, l, i :: c.hkdf(k, i) == c.hkdf(l, i) ==> k == l)
    && (forall k, n, m, a :: c.unseal(k, c.seal(k, n, m, a), a) == Some(m))
    && (forall k, n, m, a, l, b :: c.unseal(l, c.seal(k, n, m, a), b).Some? ==> k == l && a == b)
  }

  const VERIFIER := "redactgate-desktop-vault-v1"
  const KEY_WRAP := "key-wrap"
  const VALUES := "value-encryption"
  const FINGERPRINTS := "value-fingerprint"
  const METADATA := "metadata-encryption"
  const NO_KEY := "zero"

  /** The three rows of the meta table, and the keys in memory. */
  datatype State = State(salt: Option<string>, wrapped: Option<string>, verifier: Option<string>, unlocked: bool,
                         masterKey: string, fingerprintKey: string, metaKey: string)

  const EMPTY := State(None, None, None, false, NO_KEY, NO_KEY, NO_KEY)

  /** Random draws are arguments. */
  datatype Call =
    | Initialize(password: string, salt: string, dataKey: string, wrapNonce: string, verifierNonce: string)
    | Unlock(password: string)
    | ChangePassword(current: string, password: string, salt: string, wrapNonce: string)
    | Lock

  datatype Outcome = Done | AlreadyInitialized | NotInitialized | TooShort | WrongPassword | Mismatch | TypeError

  // ---- one call ----------------------------------------------------------------------

  function Wrapped(c: Crypto, password: string, salt: string, nonce: string, dataKey: string): string {
    c.seal(c.hkdf(c.derive(password, salt), KEY_WRAP), nonce, dataKey, VERIFIER)
  }

  /** The data key under a password, if it opens. */
  function Unwrap(c: Crypto, s: State, password: string): Option<string>
    requires s.salt.Some? && s.wrapped.Some?
  {
    c.unseal(c.hkdf(c.derive(password, s.salt.value), KEY_WRAP), s.wrapped.value, VERIFIER)
  }

  /** `_install_keys` */
  function Installed(c: Crypto, s: State, dataKey: string): State {
    s.(masterKey := c.hkdf(dataKey, VALUES), fingerprintKey := c.hkdf(dataKey, FINGERPRINTS),
       metaKey := c.hkdf(dataKey, METADATA), unlocked := true)
  }

  function Locked(s: State): State {
    s.(masterKey := NO_KEY, fingerprintKey := NO_KEY, metaKey := NO_KEY, unlocked := false)
  }

  /** `_dec_meta`; None where decryption raises */
  function DecMeta(c: Crypto, s: State, blob: Option<string>): Option<string> {
    if blob.None? then Some("") else c.unseal(s.metaKey, blob.value, "")
  }

  function DoInitialize(c: Crypto, s: State, call: Call): (State, Outcome)
    requires call.Initialize?
  {
    if s.verifier.Some? then (s, AlreadyInitialized)
    else if |call.password| < 6 then (s, TooShort)
    else
      var s1 := s.(salt := Some(call.salt),
                   wrapped := Some(Wrapped(c, call.password, call.salt, call.wrapNonce, call.dataKey)));
      var s2 := Installed(c, s1, call.dataKey);
      (s2.(verifier := Some(c.seal(s2.metaKey, call.verifierNonce, VERIFIER, ""))), Done)
  }

  function DoUnlock(c: Crypto, s: State, password: string): (State, Outcome) {
    if s.salt.None? || s.wrapped.None? then (s, NotInitialized)
    else
      var dataKey := Unwrap(c, s, password);
      if dataKey.None? then (s, WrongPassword)
      else
        var s1 := Installed(c, s, dataKey.value);
        if DecMeta(c, s1, s1.verifier) != Some(VERIFIER) then (Locked(s1), Mismatch) else (s1, Done)
  }

  function DoChange(c: Crypto, s: State, call: Call): (State, Outcome)
    requires call.ChangePassword?
  {
    if |call.password| < 6 then (s, TooShort)
    else if s.salt.None? || s.wrapped.None? then (s, TypeError)
    else
      var dataKey := Unwrap(c, s, call.current);
      if dataKey.None? then (s, WrongPassword)
      else
        (s.(salt := Some(call.salt),
            wrapped := Some(Wrapped(c, call.password, call.salt, call.wrapNonce, dataKey.value))), Done)
  }

  function Apply(c: Crypto, s: State, call: Call): (State, Outcome) {
    match call
    case Initialize(_, _, _, _, _) => DoInitialize(c, s, call)
    case Unlock(password) => DoUnlock(c, s, password)
    case ChangePassword(_, _, _, _) => DoChange(c, s, call)
    case Lock => (Locked(s), Done)
  }

  // ---- runs --------------------------------------------------------------------------

  ghost predicate Run(c: Crypto, ss: seq<State>, calls: seq<Call>) {
    && |ss| == |calls| + 1 && ss[0] == EMPTY
    && forall i | 0 <= i < |calls| :: ss[i + 1] == Apply(c, ss[i], calls[i]).0
  }

  /** The password that the last successful initialization or change set. */
  ghost function LastSet(c: Crypto, ss: seq<State>, calls: seq<Call>, i: nat): Option<string>
    requires i <= |calls| && |ss| == |calls| + 1
  {
    if i == 0 then None
    else if (calls[i - 1].Initialize? || calls[i - 1].ChangePassword?) && Apply(c, ss[i - 1], calls[i - 1]).1 == Done then
      Some(calls[i - 1].password)
    else LastSet(c, ss, calls, i - 1)
  }

  /** The data key that the first successful initialization drew. */
  ghost function DataKey(c: Crypto, ss: seq<State>, calls: seq<Call>, i: nat): Option<string>
    requires i <= |calls| && |ss| == |calls| + 1
  {
    if i == 0 then None
    else
      var earlier := DataKey(c, ss, calls, i - 1);
      if earlier.Some? then earlier
      else if calls[i - 1].Initialize? && Apply(c, ss[i - 1], calls[i - 1]).1 == Done then Some(calls[i - 1].dataKey)
      else None
  }

  // ---- the invariant -----------------------------------------------------------------

  /** The wrapped key opens under `password` to `dataKey`, and keys in memory are derived from it. */
  ghost predicate Protects(c: Crypto, s: State, password: string, dataKey: string) {
    && s.salt.Some? && s.wrapped.Some? && s.verifier.Some?
    && (exists nonce :: s.wrapped.value == Wrapped(c, password, s.salt.value, nonce, dataKey))
    && (exists nonce :: s.verifier.value == c.seal(c.hkdf(dataKey, METADATA), nonce, VERIFIER, ""))
    && (if s.unlocked then s == Installed(c, s, dataKey) else s == Locked(s))
  }

  ghost predicate Inv(c: Crypto, s: State, password: Option<string>, dataKey: Option<string>) {
    match password
    case None => dataKey == None && s == EMPTY
    case Some(p) => dataKey.Some? && Protects(c, s, p, dataKey.value)
  }

  lemma UnwrapIff(c: Crypto, s: State, password: string, dataKey: string, tried: string)
    requires Ideal(c) && Protects(c, s, password, dataKey)
    ensures Unwrap(c, s, tried) == if tried == password then Some(dataKey) else None
  {
    var nonce :| s.wrapped.value == Wrapped(c, password, s.salt.value, nonce, dataKey);
    var k, l := c.hkdf(c.derive(password, s.salt.value), KEY_WRAP), c.hkdf(c.derive(tried, s.salt.value), KEY_WRAP);
    assert s.wrapped.value == c.seal(k, nonce, dataKey, VERIFIER);
    if Unwrap(c, s, tried).Some? {
      assert k == l;
      assert c.derive(password, s.salt.value) == c.derive(tried, s.salt.value);
    }
  }

  /** Unlocking succeeds with exactly the protecting password, installs the data key's keys, and otherwise
      changes nothing. */
  lemma UnlockIff(c: Crypto, s: State, password: string, dataKey: string, tried: string)
    requires Ideal(c) && Protects(c, s, password, dataKey)
    ensures DoUnlock(c, s, tried)
         == if tried == password then (Installed(c, s, dataKey), Done) else (s, WrongPassword)
  {
    UnwrapIff(c, s, password, dataKey, tried);
    var nonce :| s.verifier.value == c.seal(c.hkdf(dataKey, METADATA), nonce, VERIFIER, "");
  }

  ghost function PasswordAfter(c: Crypto, s: State, password: Option<string>, call: Call): Option<string> {
    if (call.Initialize? || call.ChangePassword?) && Apply(c, s, call).1 == Done then Some(call.password) else password
  }

  ghost function DataKeyAfter(c: Crypto, s: State, dataKey: Option<string>, call: Call): Option<string> {
    if dataKey.None? && call.Initialize? && Apply(c, s, call).1 == Done then Some(call.dataKey) else dataKey
  }

  lemma FirstInv(c: Crypto, call: Call)
    ensures Inv(c, Apply(c, EMPTY, call).0, PasswordAfter(c, EMPTY, None, call), DataKeyAfter(c, EMPTY, None, call))
  {
  }

  lemma ChangeInv(c: Crypto, s: State, password: string, dataKey: string, call: Call)
    requires Ideal(c) && Protects(c, s, password, dataKey) && call.ChangePassword?
    ensures var (s', outcome) := DoChange(c, s, call);
            Protects(c, s', if outcome == Done then call.password else password, dataKey)
  {
    UnwrapIff(c, s, password, dataKey, call.current);
  }

  lemma ApplyInv(c: Crypto, s: State, password: Option<string>, dataKey: Option<string>, call: Call)
    requires Ideal(c) && Inv(c, s, password, dataKey)
    ensures Inv(c, Apply(c, s, call).0, PasswordAfter(c, s, password, call), DataKeyAfter(c, s, dataKey, call))
  {
    if password.None? {
      FirstInv(c, call);
    } else if call.ChangePassword? {
      ChangeInv(c, s, password.value, dataKey.value, call);
    } else if call.Unlock? {
      UnlockIff(c, s, password.value, dataKey.value, call.password);
    }
  }

  lemma {:induction false} RunInv(c: Crypto, ss: seq<State>, calls: seq<Call>, i: nat)
    requires Ideal(c) && Run(c, ss, calls) && i <= |calls|
    ensures Inv(c, ss[i], LastSet(c, ss, calls, i), DataKey(c, ss, calls, i))
  {
    if i > 0 {
      RunInv(c, ss, calls, i - 1);
      ApplyInv(c, ss[i - 1], LastSet(c, ss, calls, i - 1), DataKey(c, ss, calls, i - 1), calls[i - 1]);
    }
  }

  /** In every run exactly the last-set password unlocks the vault. */
  lemma OnlyLastSetUnlocks(c: Crypto, ss: seq<State>, calls: seq<Call>, i: nat, tried: string)
    requires Ideal(c) && Run(c, ss, calls) && i <= |calls|
    ensures DoUnlock(c, ss[i], tried).1 == Done <==> LastSet(c, ss, calls, i) == Some(tried)
  {
    RunInv(c, ss, calls, i);
    var password, dataKey := LastSet(c, ss, calls, i), DataKey(c, ss, calls, i);
    if password.Some? { UnlockIff(c, ss[i], password.value, dataKey.value, tried); }
  }

  /** In every run an unlocked state holds the three keys of the data key, each for its own purpose, and a state
      that is not unlocked holds none. */
  lemma KeysHeld(c: Crypto, ss: seq<State>, calls: seq<Call>, i: nat)
    requires Ideal(c) && Run(c, ss, calls) && i <= |calls|
    ensures var s := ss[i];
            if s.unlocked then
              && DataKey(c, ss, calls, i).Some?
              && s.masterKey == c.hkdf(DataKey(c, ss, calls, i).value, "value-encryption")
              && s.fingerprintKey == c.hkdf(DataKey(c, ss, calls, i).value, "value-fingerprint")
              && s.metaKey == c.hkdf(DataKey(c, ss, calls, i).value, "metadata-encryption")
            else s.masterKey == "zero" && s.fingerprintKey == "zero" && s.metaKey == "zero"
  {
    RunInv(c, ss, calls, i);
  }

  /** In every run initializing succeeds exactly if nothing was set yet and the password has six characters, and
      leaves the vault unlocked; otherwise nothing changes. */
  lemma InitializesIff(c: Crypto, ss: seq<State>, calls: seq<Call>, i: nat, call: Call)
    requires Ideal(c) && Run(c, ss, calls) && i <= |calls| && call.Initialize?
    ensures var (s, outcome) := DoInitialize(c, ss[i], call);
            && (outcome == Done <==> LastSet(c, ss, calls, i) == None && |call.password| >= 6)
            && (outcome == AlreadyInitialized <==> LastSet(c, ss, calls, i).Some?)
            && (if outcome == Done then s.unlocked else s == ss[i] && (outcome == AlreadyInitialized || outcome == TooShort))
  {
    RunInv(c, ss, calls, i);
  }

  /** In every run a password is changed exactly if the current one is the last-set one and the new one has six
      characters, whether the vault is locked or not; otherwise nothing changes. */
  lemma ChangesIff(c: Crypto, ss: seq<State>, calls: seq<Call>, i: nat, call: Call)
    requires Ideal(c) && Run(c, ss, calls) && i <= |calls| && call.ChangePassword?
    ensures var (s, outcome) := DoChange(c, ss[i], call);
            && (outcome == Done <==> LastSet(c, ss, calls, i) == Some(call.current) && |call.password| >= 6)
            && (outcome == TooShort <==> |call.password| < 6)
            && (outcome == WrongPassword <==> |call.password| >= 6 && LastSet(c, ss, calls, i).Some?
                                              && LastSet(c, ss, calls, i) != Some(call.current))
            && s.unlocked == ss[i].unlocked && (outcome != Done ==> s == ss[i])
  {
    RunInv(c, ss, calls, i);
    var password, dataKey := LastSet(c, ss, calls, i), DataKey(c, ss, calls, i);
    if password.Some? { UnwrapIff(c, ss[i], password.value, dataKey.value, call.current); }
  }

  /** In every run unlocking with the last-set password leaves the vault unlocked, any other leaves it as it was,
      and locking always leaves it locked. */
  lemma UnlocksIff(c: Crypto, ss: seq<State>, calls: seq<Call>, i: nat, tried: string)
    requires Ideal(c) && Run(c, ss, calls) && i <= |calls|
    ensures var s := DoUnlock(c, ss[i], tried).0;
            if LastSet(c, ss, calls, i) == Some(tried) then s.unlocked else s == ss[i]
    ensures !Apply(c, ss[i], Lock).0.unlocked
  {
    RunInv(c, ss, calls, i);
    var password, dataKey := LastSet(c, ss, calls, i), DataKey(c, ss, calls, i);
    if password.Some? { UnlockIff(c, ss[i], password.value, dataKey.value, tried); }
  }

  /** Unlocking any state, run or not: without the rows it is not initialized, with a password that does not open
      the wrapped key it is wrong, and with a verifier that is not the known text under the new keys the vault is
      locked again. */
  lemma UnlockOutcomes(c: Crypto, s: State, password: string)
    ensures var (after, outcome) := DoUnlock(c, s, password);
            if s.salt.None? || s.wrapped.None? then after == s && outcome == NotInitialized
            else
              var kek := c.hkdf(c.derive(password, s.salt.value), "key-wrap");
              match c.unseal(kek, s.wrapped.value, "redactgate-desktop-vault-v1")
              case None => after == s && outcome == WrongPassword
              case Some(root) =>
                var meta := c.hkdf(root, "metadata-encryption");
                if s.verifier.Some? && c.unseal(meta, s.verifier.value, "") == Some("redactgate-desktop-vault-v1")
                then after.unlocked && after.metaKey == meta && outcome == Done
                else !after.unlocked && after.metaKey == "zero" && after.masterKey == "zero"
                     && after.fingerprintKey == "zero" && outcome == Mismatch
  {
  }

  lemma {:induction false} DataKeyStays(c: Crypto, ss: seq<State>, calls: seq<Call>, i: nat, j: nat)
    requires |ss| == |calls| + 1 && i <= j <= |calls| && DataKey(c, ss, calls, i).Some?
    ensures DataKey(c, ss, calls, j) == DataKey(c, ss, calls, i)
  {
    if i < j { DataKeyStays(c, ss, calls, i, j - 1); }
  }

  /** Whenever the vault is unlocked it holds the keys of one and the same data key. */
  lemma SameKeys(c: Crypto, ss: seq<State>, calls: seq<Call>, i: nat, j: nat)
    requires Ideal(c) && Run(c, ss, calls) && i <= j <= |calls| && ss[i].unlocked && ss[j].unlocked
    ensures ss[i].masterKey == ss[j].masterKey && ss[i].fingerprintKey == ss[j].fingerprintKey
            && ss[i].metaKey == ss[j].metaKey
  {
    RunInv(c, ss, calls, i);
    RunInv(c, ss, calls, j);
    DataKeyStays(c, ss, calls, i, j);
  }

  /** `_encrypt` and `_decrypt` with the key of a project scope */
  function Encrypt(c: Crypto, s: State, scope: string, nonce: string, value: string): string {
    c.seal(c.scopeKey(s.masterKey, scope), nonce, value, "")
  }

  function Decrypt(c: Crypto, s: State, scope: string, blob: string): Option<string> {
    c.unseal(c.scopeKey(s.masterKey, scope), blob, "")
  }

  /** A value encrypted while unlocked decrypts whenever the vault is unlocked again, whatever passwords were
      set in between. */
  lemma ValuesSurvive(c: Crypto, ss: seq<State>, calls: seq<Call>, i: nat, j: nat, scope: string, nonce: string, value: string)
    requires Ideal(c) && Run(c, ss, calls) && i <= j <= |calls| && ss[i].unlocked && ss[j].unlocked
    ensures Decrypt(c, ss[j], scope, Encrypt(c, ss[i], scope, nonce, value)) == Some(value)
  {
    SameKeys(c, ss, calls, i, j);
  }

  /** What was encrypted opens with the key of its own scope and vault, and with no other. */
  lemma OnlyOwnKeyOpens(c: Crypto, s: State, scope: string, nonce: string, value: string, key: string)
    requires Ideal(c)
    ensures c.unseal(key, Encrypt(c, s, scope, nonce, value), "")
         == if key == c.scopeKey(s.masterKey, scope) then Some(value) else None
  {
  }

  // ---- the vault object --------------------------------------------------------------

  class KeyStore {
    const crypto: Crypto
    var salt: Option<string>
    var wrapped: Option<string>
    var verifier: Option<string>
    var unlocked: bool
    var masterKey: string
    var fingerprintKey: string
    var metaKey: string

    ghost function Now(): State
      reads this
    {
      State(salt, wrapped, verifier, unlocked, masterKey, fingerprintKey, metaKey)
    }

    constructor (crypto: Crypto)
      ensures this.crypto == crypto && Now() == EMPTY
    {
      this.crypto := crypto;
      salt, wrapped, verifier, unlocked := None, None, None, false;
      masterKey, fingerprintKey, metaKey := NO_KEY, NO_KEY, NO_KEY;
    }

    method InstallKeys(root: string)
      modifies this
      ensures Now() == Installed(crypto, old(Now()), root)
    {
      masterKey := crypto.hkdf(root, VALUES);
      fingerprintKey := crypto.hkdf(root, FINGERPRINTS);
      metaKey := crypto.hkdf(root, METADATA);
      unlocked := true;
    }

    method LockUp()
      modifies this
      ensures Now() == Locked(old(Now()))
    {
      masterKey, fingerprintKey, metaKey, unlocked := NO_KEY, NO_KEY, NO_KEY, false;
    }

    method InitializeWith(password: string, newSalt: string, dataKey: string, wrapNonce: string, verifierNonce: string)
      returns (outcome: Outcome)
      modifies this
      ensures (Now(), outcome)
           == Apply(crypto, old(Now()), Initialize(password, newSalt, dataKey, wrapNonce, verifierNonce))
    {
      if verifier.Some? { return AlreadyInitialized; }
      if |password| < 6 { return TooShort; }
      var root := crypto.derive(password, newSalt);
      var kek := crypto.hkdf(root, KEY_WRAP);
      salt := Some(newSalt);
      wrapped := Some(crypto.seal(kek, wrapNonce, dataKey, VERIFIER));
      InstallKeys(dataKey);
      verifier := Some(crypto.seal(metaKey, verifierNonce, VERIFIER, ""));
      outcome := Done;
    }

    method UnlockWith(password: string) returns (outcome: Outcome)
      modifies this
      ensures (Now(), outcome) == Apply(crypto, old(Now()), Unlock(password))
    {
      if salt.None? || wrapped.None? { return NotInitialized; }
      var kek := crypto.hkdf(crypto.derive(password, salt.value), KEY_WRAP);
      var dataKey := crypto.unseal(kek, wrapped.value, VERIFIER);
      if dataKey.None? { return WrongPassword; }
      InstallKeys(dataKey.value);
      var known := if verifier.None? then Some("") else crypto.unseal(metaKey, verifier.value, "");
      if known != Some(VERIFIER) {
        LockUp();
        return Mismatch;
      }
      outcome := Done;
    }

    method ChangeTo(was: string, password: string, newSalt: string, wrapNonce: string) returns (outcome: Outcome)
      modifies this
      ensures (Now(), outcome) == Apply(crypto, old(Now()), ChangePassword(was, password, newSalt, wrapNonce))
    {
      if |password| < 6 { return TooShort; }
      if salt.None? || wrapped.None? { return TypeError; }
      var kek := crypto.hkdf(crypto.derive(was, salt.value), KEY_WRAP);
      var dataKey := crypto.unseal(kek, wrapped.value, VERIFIER);
      if dataKey.None? { return WrongPassword; }
      var kek2 := crypto.hkdf(crypto.derive(password, newSalt), KEY_WRAP);
      salt := Some(newSalt);
      wrapped := Some(crypto.seal(kek2, wrapNonce, dataKey.value, VERIFIER));
      outcome := Done;
    }
  }
}
