/**
 The names that tell of a secret, in letters.
 */
module SecretWords {
  import opened Text
  import opened Spelling
  import opened SqlRedact

  /** The name has a part that tells of a secret. */
  predicate HasSecretPart(name: string) {
    || HasPart(name, "password") || HasPart(name, "passwd") || HasPart(name, "passphrase") || HasPart(name, "secret")
    || HasPart(name, "token") || HasPart(name, "credential") || HasPart(name, "private_key")
  }

  /** The name is a core setting whose whole value is redacted. */
  predicate NamesWholeValue(name: string) {
    || Spells(name, "archive_command") || Spells(name, "archive_cleanup_command") || Spells(name, "restore_command")
    || Spells(name, "recovery_end_command") || Spells(name, "ssl_passphrase_command")
  }

  /** The name is one of four that look like a secret's and are not. */
  predicate NamesNoSecret(name: string) {
    || Spells(name, "md5_password_warnings") || Spells(name, "password_encryption")
    || Spells(name, "ssl_passphrase_command_supports_reload") || Spells(name, "password_required")
  }

  lemma {:induction false} FragmentsAre(name: string)
    ensures ContainsAny(Lower(name), SECRET_FRAGMENTS) <==> HasSecretPart(name)
  {
    hide HasPart, Contains, Lower;
    PartFound(name, "password");
    PartFound(name, "passwd");
    PartFound(name, "passphrase");
    PartFound(name, "secret");
    PartFound(name, "token");
    PartFound(name, "credential");
    PartFound(name, "private_key");
    var n := Lower(name);
    var fs := SECRET_FRAGMENTS;
    assert |fs| == 7;
    assert ContainsAny(n, fs) <==>
           (|| Contains(n, fs[0]) || Contains(n, fs[1]) || Contains(n, fs[2]) || Contains(n, fs[3]) || Contains(n, fs[4])
            || Contains(n, fs[5]) || Contains(n, fs[6]));
  }

  /** The name has such a part or is one of those settings, and is not one of the four. */
  predicate NamesSecret(name: string) { !NamesNoSecret(name) && (NamesWholeValue(name) || HasSecretPart(name)) }

  lemma {:induction false} SecretNames(name: string)
    ensures IsSecretName(name) <==> NamesSecret(name)
  {
    hide HasPart, Spells, ContainsAny, Lower;
    FragmentsAre(name);
    WholeValuesAre(name);
    NoSecretsAre(name);
  }

  lemma {:induction false} WholeValuesAre(name: string)
    ensures Lower(name) in WHOLE_VALUE_SETTINGS <==> NamesWholeValue(name)
  {
    hide Spells, Lower, IsSmall;
    SmallArchive();
    SmallRecovery();
    LowerSpells(name, "archive_command");
    LowerSpells(name, "archive_cleanup_command");
    LowerSpells(name, "restore_command");
    LowerSpells(name, "recovery_end_command");
    LowerSpells(name, "ssl_passphrase_command");
  }

  lemma {:induction false} SmallArchive()
    ensures IsSmall("archive_command") && IsSmall("archive_cleanup_command")
  {
  }

  lemma {:induction false} SmallRecovery()
    ensures IsSmall("restore_command") && IsSmall("recovery_end_command") && IsSmall("ssl_passphrase_command")
  {
  }

  lemma {:induction false} NoSecretsAre(name: string)
    ensures Lower(name) in NON_SECRET_NAMES <==> NamesNoSecret(name)
  {
    hide Spells, Lower, IsSmall;
    SmallPasswords();
    SmallReload();
    LowerSpells(name, "md5_password_warnings");
    LowerSpells(name, "password_encryption");
    LowerSpells(name, "ssl_passphrase_command_supports_reload");
    LowerSpells(name, "password_required");
  }

  lemma {:induction false} SmallPasswords()
    ensures IsSmall("md5_password_warnings") && IsSmall("password_encryption") && IsSmall("password_required")
  {
  }

  lemma {:induction false} SmallReload()
    ensures IsSmall("ssl_passphrase_command_supports_reload")
  {
  }
}
