/** The shared settings table and the password check every connection makes with its own token. */
module Auth {
  import opened Common
  import opened Crypto

  const PASSWORD := "service_password"

  type Settings = map<string, string>

  /** A missing or empty value reads as the default. */
  function Setting(settings: Settings, key: string, default_: string): string {
    if key in settings && settings[key] != "" then settings[key] else default_
  }

  function Stored(settings: Settings): string {
    Setting(settings, PASSWORD, "")
  }

  class SettingsManager {
    var settings: Settings

    constructor (settings: Settings)
      ensures this.settings == settings
    {
      this.settings := settings;
    }

    method Get(key: string, default_: string) returns (value: string)
      ensures value == Setting(settings, key, default_)
      ensures value == if key in settings && |settings[key]| > 0 then settings[key] else default_
    {
      value := "";
      if key in settings {
        value := settings[key];
      }
      if value == "" {
        value := default_;
      }
    }

    method Set(key: string, value: string) returns (ok: bool)
      modifies this
      ensures ok && settings == old(settings)[key := value]
    {
      settings := settings[key := value];
      ok := true;
    }

    method Remove(key: string) returns (ok: bool)
      modifies this
      ensures ok && settings == old(settings) - {key}
    {
      settings := settings - {key};
      ok := true;
    }
  }

  /** Who gets in: anyone while no password is stored, otherwise whoever hashes it with this connection's token. */
  predicate Accepts(digestOf: string -> Digest, settings: Settings, token: string, hash: string) {
    Stored(settings) == "" || hash == Md5(digestOf, Stored(settings) + token)
  }

  /** Why a new password is refused, if it is. */
  function PasswordError(digestOf: string -> Digest, token: string, passwordHash: string, hashedToken: string):
    Option<string>
  {
    if passwordHash == "" then Some("Cannot set empty password")
    else if |passwordHash| != 32 then Some("Password must be a md5 hash")
    else if Md5(digestOf, passwordHash + token) != hashedToken then Some("Token hashed with different password")
    else None
  }

  /** A new password is accepted when it looks like a hash and is hashed with this connection's token. */
  lemma PasswordErrorIff(digestOf: string -> Digest, token: string, passwordHash: string, hashedToken: string)
    ensures PasswordError(digestOf, token, passwordHash, hashedToken).None? <==>
            |passwordHash| == 32 && hashedToken == Md5(digestOf, passwordHash + token)
  {}

  class Auth {
    const settings: SettingsManager
    const token: string
    const digestOf: string -> Digest

    constructor (settings: SettingsManager, token: string, digestOf: string -> Digest)
      ensures this.settings == settings && this.token == token && this.digestOf == digestOf
    {
      this.settings, this.token, this.digestOf := settings, token, digestOf;
    }

    method Authenticate(hash: string) returns (ok: bool)
      ensures ok <==> Accepts(digestOf, settings.settings, token, hash)
    {
      var passwd := settings.Get(PASSWORD, "");
      if passwd == "" {
        return true;
      } else if hash == "" {
        Md5Is32Digits(digestOf, passwd + token);
        return false;
      }
      var expected := HexDigest(digestOf(passwd + token));
      ok := expected == hash;
    }

    method SetPassword(passwordHash: string, hashedToken: string, errors: seq<string>)
      returns (ok: bool, errors': seq<string>)
      modifies settings
      ensures ok <==> |passwordHash| == 32 && hashedToken == Md5(digestOf, passwordHash + token)
      ensures ok <==> errors' == errors
      ensures passwordHash == "" ==> errors' == errors + ["Cannot set empty password"]
      ensures passwordHash != "" && |passwordHash| != 32 ==> errors' == errors + ["Password must be a md5 hash"]
      ensures !ok && |passwordHash| == 32 ==> errors' == errors + ["Token hashed with different password"]
      ensures var error := PasswordError(digestOf, token, passwordHash, hashedToken);
              && (ok <==> error.None?)
              && errors' == (if ok then errors else errors + [error.value])
              && settings.settings ==
                 (if ok then old(settings.settings)[PASSWORD := passwordHash] else old(settings.settings))
    {
      errors' := errors;
      if passwordHash == "" {
        return false, errors + ["Cannot set empty password"];
      }
      if |passwordHash| != 32 {
        return false, errors + ["Password must be a md5 hash"];
      }
      var expected := HexDigest(digestOf(passwordHash + token));
      if expected != hashedToken {
        return false, errors + ["Token hashed with different password"];
      }
      ok := settings.Set(PASSWORD, passwordHash);
    }

    method RemovePassword() returns (ok: bool)
      modifies settings
      ensures ok && settings.settings == old(settings.settings) - {PASSWORD}
    {
      ok := settings.Remove(PASSWORD);
    }
  }
}
