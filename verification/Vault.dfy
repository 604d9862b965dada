/** The Vault secret store: reference strings and the two-level key/value store behind them. */
module Vault {
  import opened Options
  import opened Text

  const PREFIX := "vault:"
  const CONFIG_FIELD := "config_value"

  /** `mount` is the KV mount path; a disabled Vault passes every value through. */
  datatype Settings = Settings(enabled: bool, mount: string)

  datatype Ref = Ref(mount: string, secretId: string, field: string)

  /** Secret name to its fields. */
  type Secrets = map<string, map<string, string>>

  predicate IsVaultRef(value: string) {
    PREFIX <= value
  }

  /** The reference string `storeSecret` returns. */
  function MakeRef(mount: string, secretName: string, field: string): string {
    PREFIX + mount + "/" + secretName + "#" + field
  }

  /** `parseVaultRef`. */
  function ParseVaultRef(ref: string): Ref
    requires IsVaultRef(ref)
  {
    ParseBody(From(ref, |PREFIX|))
  }

  /** Splits at the last '#', then at the last '/'; a missing separator makes the slice end one
      character early, since the index found is then -1. */
  function ParseBody(withoutPrefix: string): Ref {
    var hash := LastIndexOf(withoutPrefix, '#');
    var pathPart := SliceTo(withoutPrefix, hash);
    var slash := LastIndexOf(pathPart, '/');
    Ref(SliceTo(pathPart, slash), From(pathPart, slash + 1), From(withoutPrefix, hash + 1))
  }

  /** The part before an index; index -1 drops the last character. */
  function SliceTo(s: string, i: int): string
    requires -1 <= i <= |s|
  {
    if i >= 0 then Upto(s, i) else if s == [] then s else Upto(s, |s| - 1)
  }

  lemma DropConcat(a: string, b: string)
    ensures (a + b)[|a|..] == b && (a + b)[..|a|] == a
  {
  }

  /** What parsing makes of a path and a field. */
  lemma ParsePathAndField(path: string, field: string)
    requires '#' !in field
    ensures var slash := LastIndexOf(path, '/');
            ParseBody(path + ['#'] + field) == Ref(SliceTo(path, slash), From(path, slash + 1), field)
  {
    hide LastIndexOf, Upto, From;
    LastIndexOfConcat(path, '#', field);
    ConcatParts(path, '#', field);
    UptoIs(path + ['#'] + field, |path|);
    FromIs(path + ['#'] + field, |path| + 1);
  }

  lemma ParseMake(mount: string, secretName: string, field: string)
    ensures var ref := MakeRef(mount, secretName, field);
            IsVaultRef(ref) && ParseVaultRef(ref) == ParseBody(mount + ['/'] + secretName + ['#'] + field)
  {
    var body := mount + ['/'] + secretName + ['#'] + field;
    hide ParseBody, From;
    assert MakeRef(mount, secretName, field) == PREFIX + body;
    DropConcat(PREFIX, body);
    FromIs(PREFIX + body, |PREFIX|);
  }

  /** A secret name without '/' is found again after the mount path. */
  lemma ParseCleanName(mount: string, secretName: string, field: string)
    requires '#' !in field && '/' !in secretName
    ensures ParseBody(mount + ['/'] + secretName + ['#'] + field) == Ref(mount, secretName, field)
  {
    hide ParseBody, Upto, From;
    var path := mount + ['/'] + secretName;
    LastIndexOfConcat(mount, '/', secretName);
    ConcatParts(mount, '/', secretName);
    ParsePathAndField(path, field);
    UptoIs(path, |mount|);
    FromIs(path, |mount| + 1);
  }

  lemma LastIndexIsLast(s: string, c: char, i: nat)
    requires i < |s| && s[i] == c
    ensures i <= LastIndexOf(s, c)
  {
  }

  /** A '/' in the secret name moves its first part into the mount path. */
  lemma ParseSplitName(mount: string, secretName: string, field: string)
    requires '#' !in field && '/' in secretName
    ensures |ParseBody(mount + ['/'] + secretName + ['#'] + field).mount| > |mount|
  {
    hide ParseBody, Upto, From;
    var path := mount + ['/'] + secretName;
    ParsePathAndField(path, field);
    var i :| 0 <= i < |secretName| && secretName[i] == '/';
    ConcatParts(mount, '/', secretName);
    assert path[|mount| + 1..][i] == path[|mount| + 1 + i];
    LastIndexIsLast(path, '/', |mount| + 1 + i);
    UptoIs(path, LastIndexOf(path, '/'));
  }

  lemma ParsedFieldHasNoHash(body: string)
    ensures '#' !in ParseBody(body).field
  {
    hide Upto, From, SliceTo;
    NoneFrom(body, LastIndexOf(body, '#') + 1, '#');
  }

  lemma {:induction false} NoneFrom(s: string, i: nat, c: char)
    requires i <= |s| && forall j | i <= j < |s| :: s[j] != c
    ensures c !in From(s, i)
    decreases |s| - i
  {
    if i < |s| {
      NoneFrom(s, i + 1, c);
    }
  }

  /** Parsing inverts the reference format exactly for secret names without '/' and fields
      without '#'. */
  lemma ParseInvertsMake(mount: string, secretName: string, field: string)
    ensures IsVaultRef(MakeRef(mount, secretName, field))
    ensures ParseVaultRef(MakeRef(mount, secretName, field)) == Ref(mount, secretName, field)
       <==> '/' !in secretName && '#' !in field
    ensures '#' !in field && '/' in secretName ==> |ParseVaultRef(MakeRef(mount, secretName, field)).mount| > |mount|
  {
    hide ParseBody, MakeRef, ParseVaultRef, IsVaultRef;
    ParseMake(mount, secretName, field);
    if '#' in field {
      ParsedFieldHasNoHash(mount + ['/'] + secretName + ['#'] + field);
    } else if '/' in secretName {
      ParseSplitName(mount, secretName, field);
    } else {
      ParseCleanName(mount, secretName, field);
    }
  }

  // ---------------------------------------------------------------------------------------
  // The store
  // ---------------------------------------------------------------------------------------

  /** Merges one field into a secret, keeping its sibling fields. */
  function Stored(secrets: Secrets, name: string, field: string, value: string): Secrets {
    secrets[name := (if name in secrets then secrets[name] else map[])[field := value]]
  }

  /** Removes one field, and the secret with its last field. */
  function Deleted(secrets: Secrets, name: string, field: string): Secrets {
    if name !in secrets then secrets
    else
      var rest := secrets[name] - {field};
      if rest == map[] then secrets - {name} else secrets[name := rest]
  }

  /** One field of one secret. */
  function FieldOf(secrets: Secrets, name: string, field: string): Option<string> {
    if name in secrets && field in secrets[name] then Some(secrets[name][field]) else None
  }

  lemma StoredField(secrets: Secrets, name: string, field: string, value: string, n: string, f: string)
    ensures FieldOf(Stored(secrets, name, field, value), n, f)
         == if n == name && f == field then Some(value) else FieldOf(secrets, n, f)
  {
  }

  lemma DeletedField(secrets: Secrets, name: string, field: string, n: string, f: string)
    ensures FieldOf(Deleted(secrets, name, field), n, f)
         == if n == name && f == field then None else FieldOf(secrets, n, f)
  {
    if name in secrets && n == name && f in secrets[name] && f != field {
      assert f in secrets[name] - {field};
    }
  }

  /** Deleting a secret's last field deletes the secret, and nothing else does. */
  lemma DeletedSecret(secrets: Secrets, name: string, field: string, n: string)
    ensures n in Deleted(secrets, name, field) <==>
            n in secrets && !(n == name && forall f | f in secrets[n] :: f == field)
  {
    if name in secrets && n == name {
      assert secrets[name] - {field} == map[] <==> forall f | f in secrets[name] :: f == field by {
        if f :| f in secrets[name] && f != field { assert f in secrets[name] - {field}; }
      }
    }
  }

  /** What a reference resolves to; `None` stands for a null result and for a failed request alike. */
  function Resolved(cfg: Settings, secrets: Secrets, value: string): Option<string> {
    if !IsVaultRef(value) then Some(value)
    else
      var ref := ParseVaultRef(value);
      if ref.mount == cfg.mount && ref.secretId in secrets && ref.field in secrets[ref.secretId]
      then Some(secrets[ref.secretId][ref.field])
      else None
  }

  lemma ResolvedField(cfg: Settings, secrets: Secrets, text: string)
    requires IsVaultRef(text)
    ensures var ref := ParseVaultRef(text);
            Resolved(cfg, secrets, text) == if ref.mount == cfg.mount then FieldOf(secrets, ref.secretId, ref.field)
                                            else None
  {
  }

  /** The service object. */
  class VaultService {
    const cfg: Settings
    var secrets: Secrets

    constructor (cfg: Settings)
      ensures this.cfg == cfg && secrets == map[]
    {
      this.cfg := cfg;
      secrets := map[];
    }

    method StoreSecret(secretName: string, field: string, value: string) returns (ref: string)
      modifies this
      ensures secrets == Stored(old(secrets), secretName, field, value)
      ensures ref == MakeRef(cfg.mount, secretName, field)
    {
      var existing := map[];
      if secretName in secrets {
        existing := secrets[secretName];
      }
      existing := existing[field := value];
      secrets := secrets[secretName := existing];
      ref := PREFIX + cfg.mount + "/" + secretName + "#" + field;
    }

    method DeleteSecret(secretName: string, field: string)
      modifies this
      ensures secrets == if cfg.enabled then Deleted(old(secrets), secretName, field) else old(secrets)
    {
      if !cfg.enabled || secretName !in secrets {
        return;
      }
      var existing := secrets[secretName] - {field};
      if |existing| == 0 {
        assert existing == map[];
        secrets := secrets - {secretName};
      } else {
        secrets := secrets[secretName := existing];
      }
    }

    method ResolveSecret(value: string) returns (plaintext: Option<string>)
      ensures plaintext == Resolved(cfg, secrets, value)
    {
      if !IsVaultRef(value) {
        return Some(value);
      }
      var ref := ParseVaultRef(value);
      if ref.mount != cfg.mount || ref.secretId !in secrets {
        return None;
      }
      var fields := secrets[ref.secretId];
      plaintext := if ref.field in fields then Some(fields[ref.field]) else None;
    }
  }

  /** A stored field resolves through the returned reference exactly when the secret name has no '/'. */
  lemma StoreThenResolve(cfg: Settings, secrets: Secrets, name: string, field: string, value: string)
    requires '#' !in field
    ensures Resolved(cfg, Stored(secrets, name, field, value), MakeRef(cfg.mount, name, field)) ==
            if '/' in name then None else Some(value)
  {
    ParseInvertsMake(cfg.mount, name, field);
  }

  /** Two stores agree on a secret name. */
  predicate SameSecret(a: Secrets, b: Secrets, name: string) {
    (name in a <==> name in b) && (name in a ==> a[name] == b[name])
  }

  /** What a reference resolves to depends on the secret it names only. */
  lemma ResolveFrame(cfg: Settings, a: Secrets, b: Secrets, ref: string)
    requires IsVaultRef(ref) ==> SameSecret(a, b, ParseVaultRef(ref).secretId)
    ensures Resolved(cfg, a, ref) == Resolved(cfg, b, ref)
  {
  }
}
