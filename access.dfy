/** Credential resolution (checkit/access.py). The handler remembers the last
    accepted user name and password; a request for credentials starts from
    the explicit arguments, falls back to the remembered values, then to the
    keyring, and always ends in the login dialog. The keyring and the dialog
    are oracles; a keyring write is returned as data. */
module Access {
  import opened Errors

  /** Python truthiness of an optional string: set and not empty. */
  predicate Truthy(s: Option<string>)
  {
    s.Some? && s.value != ""
  }

  /** What the keyring holds for a lookup: a user name and a password. */
  datatype KeyringEntry = KeyringEntry(user: Option<string>, pswd: Option<string>)

  /** What the login dialog returns. */
  datatype DialogAnswer = DialogAnswer(user: Option<string>, pswd: Option<string>, cancelled: bool)

  /** Everything `name_and_password` decides: the triple it returns, whether
      it looked in the keyring first, the values it put in the dialog and the
      entry it wrote to the keyring, if any. */
  datatype Resolution = Resolution(
    user: Option<string>,
    pswd: Option<string>,
    cancelled: bool,
    consultedKeyring: bool,
    offeredUser: Option<string>,
    offeredPswd: Option<string>,
    saved: Option<KeyringEntry>)

  /** The decision of `name_and_password`, given the remembered values, the
      keyring flag, the explicit arguments, the keyring lookup (by user name,
      None for "any") and the dialog (title, user, password). */
  function Resolve(storedUser: Option<string>, storedPswd: Option<string>, useKeyring: bool,
                   text: string, user: Option<string>, password: Option<string>,
                   keyring: Option<string> -> KeyringEntry,
                   dialog: (string, Option<string>, Option<string>) -> DialogAnswer): Resolution
  {
    var tmpUser := if user.Some? then user else storedUser;
    var tmpPswd := if password.Some? then password else storedPswd;
    var consult := !(Truthy(tmpUser) && Truthy(tmpPswd)) && useKeyring;
    var found := keyring(tmpUser);
    var offeredUser := if consult && found.user.Some? then found.user else tmpUser;
    var offeredPswd := if consult && found.user.Some? then found.pswd else tmpPswd;
    var answer := dialog(text, offeredUser, offeredPswd);
    if answer.cancelled then
      Resolution(answer.user, answer.pswd, true, consult, offeredUser, offeredPswd, None)
    else
      var current := keyring(None);
      var write := useKeyring && (current.user != answer.user || current.pswd != answer.pswd);
      Resolution(answer.user, answer.pswd, false, consult, offeredUser, offeredPswd,
                 if write then Some(KeyringEntry(answer.user, answer.pswd)) else None)
  }

  /** Explicit, non-empty arguments win: the keyring is not consulted and the
      dialog is offered exactly those values, whatever is remembered. */
  lemma ExplicitArgumentsOverride(storedUser: Option<string>, storedPswd: Option<string>, useKeyring: bool,
                                  text: string, user: Option<string>, password: Option<string>,
                                  keyring: Option<string> -> KeyringEntry,
                                  dialog: (string, Option<string>, Option<string>) -> DialogAnswer)
    requires Truthy(user) && Truthy(password)
    ensures var r := Resolve(storedUser, storedPswd, useKeyring, text, user, password, keyring, dialog);
            !r.consultedKeyring && r.offeredUser == user && r.offeredPswd == password
  {
  }

  /** A None argument falls back to the remembered value; the keyring is
      consulted exactly when it is enabled and one of the two values is
      missing or empty, and it replaces BOTH values only when it knows a
      user name for the lookup. */
  lemma KeyringPrecedence(storedUser: Option<string>, storedPswd: Option<string>, useKeyring: bool,
                          text: string, user: Option<string>, password: Option<string>,
                          keyring: Option<string> -> KeyringEntry,
                          dialog: (string, Option<string>, Option<string>) -> DialogAnswer)
    ensures var r := Resolve(storedUser, storedPswd, useKeyring, text, user, password, keyring, dialog);
            var u := if user.Some? then user else storedUser;
            var p := if password.Some? then password else storedPswd;
            && (r.consultedKeyring <==> useKeyring && !(Truthy(u) && Truthy(p)))
            && (r.consultedKeyring && keyring(u).user.Some? ==>
                  r.offeredUser == keyring(u).user && r.offeredPswd == keyring(u).pswd)
            && (!(r.consultedKeyring && keyring(u).user.Some?) ==> r.offeredUser == u && r.offeredPswd == p)
  {
  }

  /** The answer returned is the dialog's; a cancelled dialog writes nothing
      to the keyring; and an accepted answer is written exactly when the
      keyring is enabled and holds different credentials, the write storing
      the returned ones. */
  lemma KeyringWrites(storedUser: Option<string>, storedPswd: Option<string>, useKeyring: bool,
                      text: string, user: Option<string>, password: Option<string>,
                      keyring: Option<string> -> KeyringEntry,
                      dialog: (string, Option<string>, Option<string>) -> DialogAnswer)
    ensures var r := Resolve(storedUser, storedPswd, useKeyring, text, user, password, keyring, dialog);
            var a := dialog(text, r.offeredUser, r.offeredPswd);
            && r.user == a.user && r.pswd == a.pswd && r.cancelled == a.cancelled
            && (r.cancelled ==> r.saved == None)
            && (r.saved.Some? ==> useKeyring && r.saved.value == KeyringEntry(r.user, r.pswd)
                                  && keyring(None) != KeyringEntry(r.user, r.pswd))
            && (!r.cancelled && useKeyring && keyring(None) != KeyringEntry(r.user, r.pswd) ==> r.saved.Some?)
  {
  }

  /** `AccessHandler`: remembers the last credentials the dialog accepted.
      The fields `user` and `pswd` are the class's read-only properties. */
  class AccessHandler {
    var user: Option<string>
    var pswd: Option<string>
    const useKeyring: bool

    constructor (user: Option<string>, pswd: Option<string>, useKeyring: bool)
      ensures this.user == user && this.pswd == pswd && this.useKeyring == useKeyring
    {
      this.user := user;
      this.pswd := pswd;
      this.useKeyring := useKeyring;
    }

    /** `name_and_password`: returns (user, password, cancelled) as `Resolve`
        decides, plus the keyring write it made. The remembered values change
        only when the dialog was not cancelled, and then become the returned
        ones. */
    method NameAndPassword(text: string, user: Option<string>, password: Option<string>,
                           keyring: Option<string> -> KeyringEntry,
                           dialog: (string, Option<string>, Option<string>) -> DialogAnswer)
      returns (u: Option<string>, p: Option<string>, cancel: bool, saved: Option<KeyringEntry>)
      modifies this
      ensures var r := Resolve(old(this.user), old(this.pswd), useKeyring, text, user, password, keyring, dialog);
              u == r.user && p == r.pswd && cancel == r.cancelled && saved == r.saved
      ensures cancel ==> this.user == old(this.user) && this.pswd == old(this.pswd)
      ensures !cancel ==> this.user == u && this.pswd == p
    {
      var tmpUser := if user.Some? then user else this.user;
      var tmpPswd := if password.Some? then password else this.pswd;
      if !(Truthy(tmpUser) && Truthy(tmpPswd)) && useKeyring {
        var k := keyring(tmpUser);
        if k.user.Some? {
          tmpUser, tmpPswd := k.user, k.pswd;
        }
      }
      var answer := dialog(text, tmpUser, tmpPswd);
      saved := None;
      if answer.cancelled {
        return answer.user, answer.pswd, true, saved;
      }
      if useKeyring {
        var s := keyring(None);
        if s.user != answer.user || s.pswd != answer.pswd {
          saved := Some(KeyringEntry(answer.user, answer.pswd));
        }
      }
      this.user, this.pswd := answer.user, answer.pswd;
      u, p, cancel := this.user, this.pswd, false;
    }
  }
}
