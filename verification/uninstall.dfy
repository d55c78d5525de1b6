/**
 The uninstall script: remove the profile icon and the icon entry of the user
 record, then the installed script, then the systemd unit, stopping at the first
 step that raises.

 `systemctl` is an oracle that says whether `sudo systemctl <command>
 gnome-libravatar.service` exits with status 0; the commands issued are
 recorded in order. The logged-in user's name (`SUDO_USER`, else the login name)
 is a parameter.
 */
module Uninstall {
  import opened Common
  import opened Text
  import opened UserFile
  import ProfileIcon

  const ScriptDestPath: Path := "/usr/local/bin/gnome-libravatar.py"
  const ServiceFilePath: Path := "/etc/systemd/system/gnome-libravatar.service"

  function IconDestPath(username: string): Path
  {
    "/var/lib/AccountsService/icons/" + username
  }

  function UserDataPath(username: string): Path
  {
    "/var/lib/AccountsService/users/" + username
  }

  /** Uninstall removes exactly the two per-user files apply writes. */
  lemma {:induction false} TargetsApplyPaths(username: string)
    ensures IconDestPath(username) == ProfileIcon.IconPath(username)
    ensures UserDataPath(username) == ProfileIcon.UserPath(username)
  {
  }

  /** The four paths uninstall touches are pairwise distinct. */
  lemma {:induction false} TargetsDistinct(username: string)
    ensures |{IconDestPath(username), UserDataPath(username), ScriptDestPath, ServiceFilePath}| == 4
  {
    ProfileIcon.PathsDistinct(username, username);
    assert IconDestPath(username)[1] == 'v' && UserDataPath(username)[1] == 'v';
    assert ScriptDestPath[1] == 'u' && ServiceFilePath[1] == 'e';
  }

  /** The state after a step, the exception it ended with (if any), and the
      `systemctl` commands it issued, in order. It is `Common.Run` plus the
      commands: only uninstall talks to the service manager, so the apply side
      keeps the smaller `Run`. */
  datatype Step = Step(fs: FileSystem, error: Option<Error>, issued: seq<Command>)

  /** `remove_profile_icon()`: delete the icon if present, then drop the
      newline-terminated `Icon=` lines of the record if present. A missing file is
      only reported. */
  function RemoveProfileIcon(fs: FileSystem, username: string): (r: Run)
    ensures var icon, user := IconDestPath(username), UserDataPath(username);
      && SameOutside(fs, r.fs, {icon, user})
      && icon !in r.fs
      && (user in r.fs <==> user in fs)
      && (r.error.Some? <==> user in fs && fs[user].Binary?)
      && (r.error.Some? ==> r.error == Some(DecodeFailed(user)) && r.fs[user] == fs[user])
      && (user in fs && fs[user].Text? ==> r.fs[user] == Text(RemoveIcon(fs[user].content)))
  {
    var icon, user := IconDestPath(username), UserDataPath(username);
    ProfileIcon.PathsDistinct(username, username);
    var removed := if icon in fs then fs - {icon} else fs;
    if user !in removed then Run(removed, None)
    else
      match removed[user]
      case Binary(_, _) => Run(removed, Some(DecodeFailed(user)))
      case Text(content) => Run(removed[user := Text(RemoveIcon(content))], None)
  }

  /** `remove_script()`: delete the installed script if present. It returns the
      bare state: it cannot fail, as file-system failures are not modelled, and
      it issues no command. */
  function RemoveScript(fs: FileSystem): (r: FileSystem)
    ensures ScriptDestPath !in r
    ensures SameOutside(fs, r, {ScriptDestPath})
  {
    if ScriptDestPath in fs then fs - {ScriptDestPath} else fs
  }

  /** `remove_systemd_service()`: when the unit file exists, stop the service, then
      disable it, then delete the file; a failing command raises and skips the
      rest. */
  function RemoveSystemdService(fs: FileSystem, systemctl: Command -> bool): (r: Step)
    ensures SameOutside(fs, r.fs, {ServiceFilePath})
    ensures ServiceFilePath !in fs ==> r == Step(fs, None, [])
    ensures ServiceFilePath in fs ==> |r.issued| >= 1 && r.issued[0] == Stop
    ensures Disable in r.issued <==> ServiceFilePath in fs && systemctl(Stop)
    ensures r.error.None? <==> ServiceFilePath !in r.fs
    ensures r.error.Some? ==> r.fs == fs && r.error.value.SystemctlFailed? && r.issued[|r.issued| - 1] == r.error.value.command
    ensures ServiceFilePath in fs ==> r.issued == if systemctl(Stop) then [Stop, Disable] else [Stop]
    ensures r.error.None? <==> ServiceFilePath !in fs || (systemctl(Stop) && systemctl(Disable))
  {
    if ServiceFilePath !in fs then Step(fs, None, [])
    else if !systemctl(Stop) then Step(fs, Some(SystemctlFailed(Stop)), [Stop])
    else if !systemctl(Disable) then Step(fs, Some(SystemctlFailed(Disable)), [Stop, Disable])
    else Step(fs - {ServiceFilePath}, None, [Stop, Disable])
  }

  /** The `__main__` block: the three steps in order; the first exception is
      reported and the later steps do not run. */
  function Uninstall(fs: FileSystem, username: string, systemctl: Command -> bool): (r: Step)
    ensures SameOutside(fs, r.fs, {IconDestPath(username), UserDataPath(username), ScriptDestPath, ServiceFilePath})
    ensures UserDataPath(username) in r.fs <==> UserDataPath(username) in fs
    ensures r.error.None? ==>
      && IconDestPath(username) !in r.fs
      && ScriptDestPath !in r.fs
      && ServiceFilePath !in r.fs
      && (UserDataPath(username) in fs ==>
            && fs[UserDataPath(username)].Text?
            && r.fs[UserDataPath(username)] == Text(RemoveIcon(fs[UserDataPath(username)].content)))
    ensures r.error.None? <==>
      && (UserDataPath(username) !in fs || fs[UserDataPath(username)].Text?)
      && (ServiceFilePath !in fs || (systemctl(Stop) && systemctl(Disable)))
    ensures var user := UserDataPath(username);
      r.error == if user in fs && fs[user].Binary? then Some(DecodeFailed(user))
                 else if ServiceFilePath !in fs then None
                 else if !systemctl(Stop) then Some(SystemctlFailed(Stop))
                 else if !systemctl(Disable) then Some(SystemctlFailed(Disable))
                 else None
    ensures var user := UserDataPath(username);
      r.issued == if (user in fs && fs[user].Binary?) || ServiceFilePath !in fs then []
                  else if systemctl(Stop) then [Stop, Disable]
                  else [Stop]
    ensures IconDestPath(username) !in r.fs
    ensures var user := UserDataPath(username);
      user in fs && fs[user].Binary? ==>
        && r.fs[user] == fs[user]
        && (ScriptDestPath in r.fs <==> ScriptDestPath in fs)
        && (ScriptDestPath in fs ==> r.fs[ScriptDestPath] == fs[ScriptDestPath])
    ensures var user := UserDataPath(username);
      !(user in fs && fs[user].Binary?) ==>
        && ScriptDestPath !in r.fs
        && (user in fs ==> r.fs[user] == Text(RemoveIcon(fs[user].content)))
    ensures r.error.Some? ==>
      && (ServiceFilePath in r.fs <==> ServiceFilePath in fs)
      && (ServiceFilePath in fs ==> r.fs[ServiceFilePath] == fs[ServiceFilePath])
  {
    TargetsDistinct(username);
    var touched := {IconDestPath(username), UserDataPath(username), ScriptDestPath, ServiceFilePath};
    var profile := RemoveProfileIcon(fs, username);
    if profile.error.Some? then
      SameOutsideWiden(fs, profile.fs, {IconDestPath(username), UserDataPath(username)}, touched);
      Step(profile.fs, profile.error, [])
    else
      var rest := ScriptAndService(profile.fs, systemctl);
      SameOutsideThen(fs, profile.fs, rest.fs, {IconDestPath(username), UserDataPath(username)}, {ScriptDestPath, ServiceFilePath});
      assert {IconDestPath(username), UserDataPath(username)} + {ScriptDestPath, ServiceFilePath} == touched;
      rest
  }

  /** The two steps after the profile icon: the script goes, then the service; only
      the service step can fail, and the error names the command that failed. */
  function ScriptAndService(fs: FileSystem, systemctl: Command -> bool): (r: Step)
    ensures SameOutside(fs, r.fs, {ScriptDestPath, ServiceFilePath})
    ensures r.error.None? ==> ScriptDestPath !in r.fs && ServiceFilePath !in r.fs
    ensures r.error ==
      if ServiceFilePath !in fs then None
      else if !systemctl(Stop) then Some(SystemctlFailed(Stop))
      else if !systemctl(Disable) then Some(SystemctlFailed(Disable))
      else None
    ensures r.issued ==
      if ServiceFilePath !in fs then []
      else if systemctl(Stop) then [Stop, Disable]
      else [Stop]
    ensures ScriptDestPath !in r.fs
    ensures r.error.Some? ==> ServiceFilePath in r.fs && r.fs[ServiceFilePath] == fs[ServiceFilePath]
  {
    var script := RemoveScript(fs);
    assert ServiceFilePath in script <==> ServiceFilePath in fs;
    RemoveSystemdService(script, systemctl)
  }

  /** A record that cannot be decoded stops the uninstall before the script and the
      service are touched: no command is issued. */
  lemma {:induction false} ProfileFailureSkipsLaterSteps(fs: FileSystem, username: string, systemctl: Command -> bool)
    requires UserDataPath(username) in fs && fs[UserDataPath(username)].Binary?
    ensures var r := Uninstall(fs, username, systemctl);
      && r.error == Some(DecodeFailed(UserDataPath(username)))
      && r.issued == []
      && (ScriptDestPath in r.fs <==> ScriptDestPath in fs)
      && (ServiceFilePath in r.fs <==> ServiceFilePath in fs)
  {
    TargetsDistinct(username);
  }

  /** A failing `systemctl stop` stops the uninstall: `disable` is never issued
      and the unit file is kept. */
  lemma {:induction false} StopFailureKeepsService(fs: FileSystem, username: string, systemctl: Command -> bool)
    requires UserDataPath(username) !in fs || fs[UserDataPath(username)].Text?
    requires ServiceFilePath in fs
    requires !systemctl(Stop)
    ensures var r := Uninstall(fs, username, systemctl);
      && r.error == Some(SystemctlFailed(Stop))
      && r.issued == [Stop]
      && ServiceFilePath in r.fs && r.fs[ServiceFilePath] == fs[ServiceFilePath]
  {
    TargetsDistinct(username);
  }

  /** A `disable` that fails after a successful `stop` also stops the uninstall:
      both commands were issued, the error names `disable`, and the unit file
      stays. */
  lemma {:induction false} DisableFailureKeepsService(fs: FileSystem, username: string, systemctl: Command -> bool)
    requires UserDataPath(username) !in fs || fs[UserDataPath(username)].Text?
    requires ServiceFilePath in fs
    requires systemctl(Stop) && !systemctl(Disable)
    ensures var r := Uninstall(fs, username, systemctl);
      && r.error == Some(SystemctlFailed(Disable))
      && r.issued == [Stop, Disable]
      && ServiceFilePath in r.fs && r.fs[ServiceFilePath] == fs[ServiceFilePath]
  {
    TargetsDistinct(username);
  }

  /** With none of the four targets present, uninstall changes nothing, raises
      nothing and issues no command. */
  lemma {:induction false} AbsentTargetsChangeNothing(fs: FileSystem, username: string, systemctl: Command -> bool)
    requires IconDestPath(username) !in fs && UserDataPath(username) !in fs
    requires ScriptDestPath !in fs && ServiceFilePath !in fs
    ensures Uninstall(fs, username, systemctl) == Step(fs, None, [])
  {
    var profile := RemoveProfileIcon(fs, username);
    assert profile.fs == fs by {
      forall p | p in profile.fs ensures p in fs && profile.fs[p] == fs[p] {
      }
    }
    assert RemoveScript(fs) == fs;
  }

  /** A successful uninstall leaves the record, if any, without a newline-terminated
      `Icon=` line. */
  lemma {:induction false} UninstallClearsRecord(fs: FileSystem, username: string, systemctl: Command -> bool)
    requires UserDataPath(username) in fs
    requires Uninstall(fs, username, systemctl).error.None?
    ensures var after := Lines(Uninstall(fs, username, systemctl).fs[UserDataPath(username)].content);
      forall i | 0 <= i < |after| - 1 :: !IsIconLine(after[i])
  {
    RemoveLeavesNoTerminatedIconLine(fs[UserDataPath(username)].content);
  }

  /** Running uninstall again after it succeeded changes nothing and issues no
      command. */
  lemma {:induction false} UninstallTwice(fs: FileSystem, username: string, systemctl: Command -> bool)
    requires Uninstall(fs, username, systemctl).error.None?
    ensures var once := Uninstall(fs, username, systemctl);
      Uninstall(once.fs, username, systemctl) == Step(once.fs, None, [])
  {
    var user := UserDataPath(username);
    var once := Uninstall(fs, username, systemctl);
    TargetsDistinct(username);
    var profile := RemoveProfileIcon(once.fs, username);
    if user in fs {
      RemoveIdempotent(fs[user].content);
    }
    assert profile.fs == once.fs by {
      forall p | p in profile.fs ensures p in once.fs && profile.fs[p] == once.fs[p] {
      }
    }
    assert RemoveScript(once.fs) == once.fs;
  }

  /** Apply on a user without a record, then uninstall: the icon is gone and the
      record is left holding only its `[User]` header. */
  lemma {:induction false} ApplyThenUninstallFresh(fs: FileSystem, username: string, avatar: seq<byte>, systemctl: Command -> bool)
    requires '\n' !in username
    requires ProfileIcon.UserPath(username) !in fs
    ensures var applied := ProfileIcon.ChangeProfileIcon(fs, username, avatar);
      var r := Uninstall(applied.fs, username, systemctl);
      && IconDestPath(username) !in r.fs
      && r.fs[UserDataPath(username)] == Text("[User]\n")
  {
    var applied := ProfileIcon.ChangeProfileIcon(fs, username, avatar);
    ProfileIcon.ChangeCreatesTemplate(fs, username, avatar);
    ProfileIcon.IconPathNoNewline(username);
    RemoveFromTemplate(ProfileIcon.IconPath(username));
    TargetsDistinct(username);
  }

  /** Apply on a record that never mentions `Icon` appends an unterminated
      `Icon=` line; uninstall keeps that line, so the record still names the icon
      file it has just deleted. */
  lemma {:induction false} AppendedIconLineSurvivesUninstall(fs: FileSystem, username: string, avatar: seq<byte>, systemctl: Command -> bool)
    requires '\n' !in username
    requires ProfileIcon.UserPath(username) in fs
    requires fs[ProfileIcon.UserPath(username)].Text?
    requires !Contains(fs[ProfileIcon.UserPath(username)].content, "Icon")
    ensures var applied := ProfileIcon.ChangeProfileIcon(fs, username, avatar);
      var r := Uninstall(applied.fs, username, systemctl);
      && IconDestPath(username) !in r.fs
      && r.fs[UserDataPath(username)] == applied.fs[UserDataPath(username)]
      && HasIconLine(r.fs[UserDataPath(username)].content)
  {
    var content := fs[ProfileIcon.UserPath(username)].content;
    ProfileIcon.IconPathNoNewline(username);
    RemoveKeepsAppendedIconLine(content, ProfileIcon.IconPath(username));
    TargetsDistinct(username);
  }
}
