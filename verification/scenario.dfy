/**
 Worked examples on concrete values: the end-to-end run for the user `alice`,
 and records that mention `Icon` only in an `IconTheme=` key.
 */
module Scenario {
  import opened Common
  import opened Text
  import opened Email
  import opened UserFile
  import Avatar
  import ProfileIcon

  /** The bytes of the ASCII text `PNGDATA`. */
  const PngData: seq<byte> := [0x50, 0x4E, 0x47, 0x44, 0x41, 0x54, 0x41]

  const AliceEmail := "Alice@Example.com "
  const AliceNormal := "alice@example.com"
  const AliceIcon := "/var/lib/AccountsService/icons/alice"
  const AliceRecord := "/var/lib/AccountsService/users/alice"

  // The facts about the `alice` literals come one per lemma, so each is proved
  // with only its own string functions unfolded on the literals.
  lemma {:induction false} AliceLower()
    ensures Lower(AliceEmail[..17]) == AliceNormal
  {
    var a, b := AliceEmail[..17], AliceNormal;
    assert LowerChar('A') == 'a' && LowerChar('E') == 'e';
    assert forall i | 0 <= i < |b| :: LowerChar(a[i]) == b[i];
  }

  lemma {:induction false} AliceLowerIdentity()
    ensures Lower(AliceNormal) == AliceNormal
  {
    var b := AliceNormal;
    assert forall i | 0 <= i < |b| :: LowerChar(b[i]) == b[i];
  }

  lemma {:induction false} AliceStripIdentity()
    ensures Strip(AliceNormal) == AliceNormal
  {
    StripTrimmed(AliceNormal);
  }

  lemma {:induction false} AliceEmailSplit()
    ensures AliceEmail == "" + AliceEmail[..17] + " "
  {
  }

  /** `"Alice@Example.com ".strip().lower()` is `"alice@example.com"`. */
  lemma {:induction false} AliceNormalises()
    ensures Normalise(AliceEmail) == AliceNormal
  {
    AliceLower();
    AliceLowerIdentity();
    AliceEmailSplit();
    NormaliseIgnoresCaseAndPadding("", AliceEmail[..17], AliceNormal, " ");
    AliceStripIdentity();
  }

  lemma {:induction false} AliceHasNoNewline()
    ensures '\n' !in "alice"
  {
    var u := "alice";
    assert forall i | 0 <= i < |u| :: u[i] != '\n';
  }

  lemma {:induction false} AlicePaths()
    ensures ProfileIcon.UserPath("alice") == AliceRecord
    ensures ProfileIcon.IconPath("alice") == AliceIcon
  {
  }

  /** Apply for `alice` with a 200 answer carrying `PNGDATA`, on a system with no
      record for that user: the request asks for the digest of the normalised address,
      the icon holds exactly the answer's bytes, owned by root, and the record is
      the template pointing at the icon. */
  lemma {:induction false} AliceScenario(fs: FileSystem, md5Hex: string -> string, exchange: Avatar.Request -> Avatar.Response)
    requires AliceRecord !in fs
    requires exchange(Avatar.AvatarRequest(AliceEmail, md5Hex)) == Avatar.Response(200, PngData)
    ensures Avatar.AvatarRequest(AliceEmail, md5Hex)
      == Avatar.Request("GET", Avatar.Host, Avatar.RequestPath(md5Hex(AliceNormal)))
    ensures var r := ProfileIcon.ApplyMain(fs, "alice", AliceEmail, md5Hex, exchange);
      && r.error.None?
      && AliceIcon in r.fs && r.fs[AliceIcon] == Binary(PngData, Root)
      && AliceRecord in r.fs && r.fs[AliceRecord] == Text("[User]\n" + "Icon=" + AliceIcon + "\n")
  {
    AliceNormalises();
    AlicePaths();
    AliceHasNoNewline();
    ProfileIcon.FirstApply(fs, "alice", AliceEmail, md5Hex, exchange);
  }

  /** A record whose only mention of `Icon` is an `IconTheme=` key. */
  function ThemeRecord(theme: string): string
  {
    "[User]\nIconTheme=" + theme + "\n"
  }

  lemma {:induction false} ThemeRecordLines(theme: string)
    requires '\n' !in theme
    ensures Lines(ThemeRecord(theme)) == ["[User]", "IconTheme=" + theme, ""]
  {
    var header, key := "[User]", "IconTheme=";
    assert '\n' !in header by {
      assert forall i | 0 <= i < |header| :: header[i] != '\n';
    }
    assert '\n' !in key by {
      assert forall i | 0 <= i < |key| :: key[i] != '\n';
    }
    assert ThemeRecord(theme) == header + "\n" + (key + theme) + "\n";
    HeaderAndLine(header, key + theme);
  }

  lemma {:induction false} ThemeRecordMentionsIcon(theme: string)
    ensures Contains(ThemeRecord(theme), "Icon")
  {
    var rest := "IconTheme=" + theme + "\n";
    assert ThemeRecord(theme) == "[User]\n" + rest;
    assert rest[..4] == "Icon";
    ContainsAfter("[User]\n", rest, "Icon");
  }

  lemma {:induction false} ThemeRecordNoIconLine(theme: string)
    requires '\n' !in theme
    ensures !HasIconLine(ThemeRecord(theme))
  {
    var ls := Lines(ThemeRecord(theme));
    ThemeRecordLines(theme);
    assert ("[User]")[0] == '[';
    assert ("IconTheme=" + theme)[4] == 'T';
    assert forall i | 0 <= i < |ls| :: !IsIconLine(ls[i]);
  }

  /** The substring test passes on such a record, but no line matches the
      pattern, so the record comes back unchanged: no `Icon=` line is added. */
  lemma {:induction false} IconThemeRecordUnchanged(theme: string, icon: string)
    requires '\n' !in theme
    ensures UpdateIcon(ThemeRecord(theme), icon) == ThemeRecord(theme)
    ensures !HasIconLine(UpdateIcon(ThemeRecord(theme), icon))
  {
    ThemeRecordMentionsIcon(theme);
    ThemeRecordNoIconLine(theme);
    UpdateWithoutIconLineKeepsText(ThemeRecord(theme), icon);
  }
}
