/**
 `change_gnome_profile_icon` and the `__main__` block of the apply script, as
 transformations of the file system.

 The user record lives at `/var/lib/AccountsService/users/<name>` and the icon at
 `/var/lib/AccountsService/icons/<name>`. The record is created from the template
 when missing, the avatar bytes are written to the icon path and owned by root,
 and the record's text is then rewritten by `UpdateIcon`.
 */
module ProfileIcon {
  import opened Common
  import opened Text
  import opened UserFile
  import Avatar

  const UsersDir := "/var/lib/AccountsService/users/"
  const IconsDir := "/var/lib/AccountsService/icons/"

  function UserPath(username: string): Path
  {
    UsersDir + username
  }

  function IconPath(username: string): Path
  {
    IconsDir + username
  }

  /** The two directories differ at one position, so no user record path is an icon
      path, and each path names one user. */
  lemma {:induction false} PathsDistinct(u: string, v: string)
    ensures UserPath(u) != IconPath(v)
    ensures UserPath(u) == UserPath(v) <==> u == v
    ensures IconPath(u) == IconPath(v) <==> u == v
  {
    assert UserPath(u)[25] == 'u';
    assert IconPath(v)[25] == 'i';
    if UserPath(u) == UserPath(v) {
      assert u == UserPath(u)[|UsersDir|..];
    }
    if IconPath(u) == IconPath(v) {
      assert u == IconPath(u)[|IconsDir|..];
    }
  }

  lemma {:induction false} IconPathNoNewline(username: string)
    requires '\n' !in username
    ensures '\n' !in IconPath(username)
  {
  }

  /** `change_gnome_profile_icon(username, avatar)`. Only the record and the icon
      change; the icon always ends up holding the avatar, owned by root; the
      record is rewritten when it is text and left as it was when it cannot be
      decoded, in which case the decoding error escapes after the icon was
      written. */
  function ChangeProfileIcon(fs: FileSystem, username: string, avatar: seq<byte>): (r: Run)
    ensures var user, icon := UserPath(username), IconPath(username);
      && SameOutside(fs, r.fs, {user, icon})
      && icon in r.fs && r.fs[icon] == Binary(avatar, Root)
      && user in r.fs
      && (r.error.None? <==> user !in fs || fs[user].Text?)
      && (r.error.Some? ==> r.error == Some(DecodeFailed(user)) && r.fs[user] == fs[user])
      && (user in fs && fs[user].Text? ==> r.fs[user] == Text(UpdateIcon(fs[user].content, icon)))
      && (user !in fs ==> r.fs[user] == Text(UpdateIcon(Template(icon), icon)))
  {
    var user, icon := UserPath(username), IconPath(username);
    PathsDistinct(username, username);
    var created := if user in fs then fs else fs[user := Text(Template(icon))];
    var written := created[icon := Binary(avatar, Root)];
    match written[user]
    case Binary(_, _) => Run(written, Some(DecodeFailed(user)))
    case Text(content) => Run(written[user := Text(UpdateIcon(content, icon))], None)
  }

  /** A missing record is created from the template, and the rewrite that follows
      leaves the template as it is. */
  lemma {:induction false} ChangeCreatesTemplate(fs: FileSystem, username: string, avatar: seq<byte>)
    requires UserPath(username) !in fs
    requires '\n' !in username
    ensures var r := ChangeProfileIcon(fs, username, avatar);
      && r.error.None?
      && r.fs[UserPath(username)] == Text(Template(IconPath(username)))
  {
    IconPathNoNewline(username);
    UpdateKeepsTemplate(IconPath(username));
  }

  /** After a successful run the record points at the user's icon, unless its text
      mentions `Icon` without having an `Icon=` line. */
  lemma {:induction false} ChangePointsAtIcon(fs: FileSystem, username: string, avatar: seq<byte>)
    requires '\n' !in username
    requires var user := UserPath(username);
      user in fs ==> fs[user].Text? && (!Contains(fs[user].content, "Icon") || HasIconLine(fs[user].content))
    ensures var r := ChangeProfileIcon(fs, username, avatar);
      && r.error.None?
      && r.fs[UserPath(username)].Text?
      && PointsAt(r.fs[UserPath(username)].content, IconPath(username))
  {
    var user, icon := UserPath(username), IconPath(username);
    IconPathNoNewline(username);
    if user in fs {
      UpdatePointsAtIcon(fs[user].content, icon);
    } else {
      ChangeCreatesTemplate(fs, username, avatar);
      TemplateLines(icon);
      IconLineFacts(icon);
      assert IsIconLine(Lines(Template(icon))[1]);
    }
  }

  /** Running the change a second time with the same avatar changes nothing more. */
  lemma {:induction false} ChangeIdempotent(fs: FileSystem, username: string, avatar: seq<byte>)
    requires '\n' !in username
    ensures var once := ChangeProfileIcon(fs, username, avatar);
      ChangeProfileIcon(once.fs, username, avatar) == once
  {
    var user, icon := UserPath(username), IconPath(username);
    var once := ChangeProfileIcon(fs, username, avatar);
    var twice := ChangeProfileIcon(once.fs, username, avatar);
    IconPathNoNewline(username);
    if user in fs && fs[user].Text? {
      UpdateIdempotent(fs[user].content, icon);
    } else if user !in fs {
      ChangeCreatesTemplate(fs, username, avatar);
      UpdateKeepsTemplate(icon);
    }
    assert twice.fs == once.fs by {
      forall p | p in twice.fs ensures p in once.fs && twice.fs[p] == once.fs[p] {
      }
    }
  }

  /** The `__main__` block of the apply script after argument parsing: download
      the avatar for `email` and, when that succeeds, install it for `username`.
      A returned `BytesIO` is always true, so even an empty body is installed. */
  function ApplyMain(fs: FileSystem, username: string, email: string,
                     md5Hex: string -> string, exchange: Avatar.Request -> Avatar.Response): (r: Run)
    ensures var answer := exchange(Avatar.AvatarRequest(email, md5Hex));
      && (answer.status != Avatar.StatusOk ==> r == Run(fs, Some(ReraiseWithoutActiveException)))
      && (answer.status == Avatar.StatusOk ==>
            var icon := IconPath(username);
            icon in r.fs && r.fs[icon] == Binary(answer.body, Root))
      && (answer.status == Avatar.StatusOk ==> r == ChangeProfileIcon(fs, username, answer.body))
  {
    match Avatar.Download(email, md5Hex, exchange)
    case Err(e) => Run(fs, Some(e))
    case Ok(avatar) => ChangeProfileIcon(fs, username, avatar)
  }

  /** A first run for a user with no record: the record is the template pointing at
      the user's icon and the icon holds the downloaded body. */
  lemma {:induction false} FirstApply(fs: FileSystem, username: string, email: string,
                   md5Hex: string -> string, exchange: Avatar.Request -> Avatar.Response)
    requires UserPath(username) !in fs
    requires '\n' !in username
    requires exchange(Avatar.AvatarRequest(email, md5Hex)).status == Avatar.StatusOk
    ensures var r := ApplyMain(fs, username, email, md5Hex, exchange);
      && r.error.None?
      && r.fs[UserPath(username)] == Text(Template(IconPath(username)))
      && r.fs[IconPath(username)] == Binary(exchange(Avatar.AvatarRequest(email, md5Hex)).body, Root)
      && SameOutside(fs, r.fs, {UserPath(username), IconPath(username)})
  {
    ChangeCreatesTemplate(fs, username, exchange(Avatar.AvatarRequest(email, md5Hex)).body);
  }
}
