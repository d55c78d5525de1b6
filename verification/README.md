# gnome-libravatar, modelled in Dafny

gnome-libravatar sets a GNOME user's account picture from their Libravatar
avatar. The apply script (`src/__init__.py`) works in two steps:

- it normalises an email address, asks `seccdn.libravatar.org` for the avatar
  with the address's MD5 digest, and accepts only a 200 answer;
- it writes the bytes to `/var/lib/AccountsService/icons/<user>` and edits
  the AccountsService record `/var/lib/AccountsService/users/<user>` so that
  its `Icon=` line points at that file.

The uninstall script (`uninstall.py`) deletes the icon, drops the
newline-terminated `Icon=` lines of the record (uninstall.py:86), removes the
installed script, and then stops, disables and removes the systemd unit.

This project models those operations as pure functions over strings and an
abstract file system, and proves what they do.

| file | module | models |
|---|---|---|
| `common.dfy` | `Common` | bytes, `Option`/`Result`, the errors that escape, files and the file system |
| `text.dfy` | `Text` | substring search, `split("\n")`/`"\n".join` and their round trip, `lstrip`/`rstrip` |
| `email.dfy` | `Email` | `email.strip().lower()` |
| `avatar.dfy` | `Avatar` | `download_libravatar`: the request path and the status gate |
| `userfile.dfy` | `UserFile` | the template record and the two `re.sub` edits of the record |
| `profileicon.dfy` | `ProfileIcon` | `change_gnome_profile_icon` and the apply script's `__main__` |
| `uninstall.dfy` | `Uninstall` | `remove_profile_icon`, `remove_script`, `remove_systemd_service`, and the uninstall `__main__` |
| `scenario.dfy` | `Scenario` | worked examples on concrete values |

Each regular expression is modelled twice:

- as the left-to-right scan `re.sub` performs with `re.M`:
  - `^` holds at the start of the text and after every `\n`;
  - `.` is any character but `\n`;
  - matches do not overlap.
- as a statement about the lines of the text.

A lemma proves that the two readings agree on every input. The line-level
reading is what the remaining properties are stated in.

Three things the scripts depend on enter as parameters rather than being
modelled:

- `md5Hex`, the MD5 hex digest;
- `exchange`, the HTTPS request/answer;
- `systemctl`, whether a `systemctl` command exits with status 0.

The logged-in user name enters as a parameter as well.

Some behaviour of the code is easy to misread; the model states it as it is:

- **Every `Icon=` line is replaced.** `re.sub` is called without a count
  (src/__init__.py:72-74), so each line that starts with `Icon=` is rewritten,
  not only the first (`UserFile.UpdateReplacesIconLines`).
- **The branch is chosen by a substring test.** The guard is `"Icon" in
  content` (src/__init__.py:71), not a test for a line that starts with
  `Icon=`.
- **A run does not always leave exactly one `Icon=` line.**
  - A record that mentions `Icon` only in another key, such as `IconTheme=`,
    passes the guard at src/__init__.py:71. The `^Icon=.*` pattern at
    src/__init__.py:72-74 then matches nothing, so the record is written back
    without an `Icon=` line (`UserFile.UpdateWithoutIconLineKeepsText`,
    `Scenario.IconThemeRecordUnchanged`).
  - A record with several `Icon=` lines keeps all of them, each rewritten to
    the new path.
- **The download error carries no status.** The `raise` at src/__init__.py:40
  has no active exception, so Python raises a `RuntimeError` that says nothing
  about the status (`Common.ReraiseWithoutActiveException`).
- **A failing uninstall ends normally.** The uninstall `__main__`
  (uninstall.py:98-105) catches the exception and only reports it; the model
  returns the reported error in `Step.error`.
- **Uninstall keeps an unterminated `Icon=` line.** The pattern `^Icon=.*\n`
  (uninstall.py:86) needs a newline, so the `Icon=` line that apply appends
  without one (src/__init__.py:76) survives
  (`Uninstall.AppendedIconLineSurvivesUninstall`).

## Model

| member | source | states |
|---|---|---|
| Text.TrimRight | src/__init__.py:76 | `rstrip`: the result is a prefix of the input, every character removed from the end is in the stripped set, and the last character kept is not |
| Text.TrimTrailingNewlinesLines | src/__init__.py:76 | removing trailing newlines removes exactly the trailing empty lines of the record and keeps every other line in order |
| Email.Strip | src/__init__.py:20 | the stripped address is a slice of the input; every character cut off on either side is one Python counts as whitespace; the slice neither starts nor ends with such a character |
| Email.Normalise | src/__init__.py:20 | the normalised address is the lowered slice of the input left once the whitespace on both sides is cut off; it has no surrounding whitespace and no upper-case ASCII letter |
| Email.StripLowerCommute | src/__init__.py:20 | stripping and lowering commute |
| Email.NormaliseIdempotent | src/__init__.py:20 | normalising a normalised address changes nothing |
| Email.NormaliseIgnoresCaseAndPadding | src/__init__.py:20 | addresses that differ only in ASCII letter case and surrounding whitespace normalise to the same string |
| Avatar.ParseRequestPathRoundTrip | src/__init__.py:24 | a path parses to digest h exactly when it is `/avatar/<h>?s=512`, in both directions |
| Avatar.RequestPathInjective | src/__init__.py:24 | distinct digests are requested on distinct paths |
| Avatar.AvatarRequest | src/__init__.py:19-29 | the request is a GET on `seccdn.libravatar.org` whose path names the digest of the normalised address |
| Avatar.Gate | src/__init__.py:33-40 | the download succeeds exactly when the status is 200, and then returns the body unchanged; any other status raises an error that carries no status |
| Avatar.Download | src/__init__.py:12-42 | the download succeeds exactly when the answer to the request built from the address has status 200, and then returns that answer's body unchanged; otherwise it raises the error of a bare `raise` |
| Avatar.DownloadIgnoresCaseAndPadding | src/__init__.py:20-40 | addresses that differ only in case and surrounding whitespace send the same request and get the same outcome |
| Avatar.RequestOfNormalised | src/__init__.py:20-24 | passing the normalised address instead of the raw one sends the same request |
| UserFile.ReplaceScanFirstLine | src/__init__.py:72-74 | from a line start, the `^Icon=.*` scan replaces the first line as a whole exactly when it starts with `Icon=`, and otherwise copies it |
| UserFile.ReplaceScanLines | src/__init__.py:72-74 | the `re.sub` scan equals the line-level rewrite: join of the lines with each `Icon=` line replaced |
| UserFile.RemoveScanFirstLine | uninstall.py:86 | from a line start, the `^Icon=.*\n` scan deletes a newline-terminated first line that starts with `Icon=`, keeps any other, and keeps an unterminated one |
| UserFile.RemoveScanLines | uninstall.py:86 | the removal scan equals the line-level rewrite: all lines but the last lose their `Icon=` lines, the last is kept |
| UserFile.NonIconLinesAppend | uninstall.py:86 | filtering out `Icon=` lines distributes over concatenation, so kept lines stay in order |
| UserFile.NoIconNoIconLines | src/__init__.py:71 | a record without the substring `Icon` has no `Icon=` line |
| UserFile.UpdateIcon | src/__init__.py:71-76 | the record rewrite; it computes only, and its properties are those of `ReplaceScanLines` (the `re.sub` scan), `UpdateReplacesIconLines` and `UpdateWithoutIconLineKeepsText` (the replace branch), `UpdateAppendsIconLine` (the append branch), `UpdatePointsAtIcon` and `UpdateIdempotent` |
| UserFile.UpdateReplacesIconLines | src/__init__.py:71-74 | replace branch: same number of lines; each `Icon=` line becomes `Icon=<icon>`; each other line stays where it was |
| UserFile.UpdateAppendsIconLine | src/__init__.py:75-76 | append branch: the lines are those of the record minus its trailing blank lines, followed by `Icon=<icon>`; that line is the only `Icon=` line, and the text does not end in a newline |
| UserFile.UpdateWithoutIconLineKeepsText | src/__init__.py:71-74 | when `Icon` occurs but no line starts with `Icon=`, the record is returned unchanged and still has no `Icon=` line |
| UserFile.UpdatePointsAtIcon | src/__init__.py:71-76 | outside that corner case, the result has an `Icon=` line and every `Icon=` line is `Icon=<icon>` |
| UserFile.UpdateIdempotent | src/__init__.py:71-76 | rewriting the rewritten record again changes nothing |
| UserFile.TemplateLines | src/__init__.py:56-58 | the created record consists of the lines `[User]`, `Icon=<icon>` and a final empty line |
| UserFile.UpdateKeepsTemplate | src/__init__.py:54-76 | the rewrite that follows the record's creation leaves the template as created |
| UserFile.RemoveIcon | uninstall.py:86 | the record edit on uninstall; it computes only, and its properties are those of `RemoveScanLines` (the `re.sub` scan), `RemoveIconLines`, `RemoveLeavesNoTerminatedIconLine` and `RemoveIdempotent` |
| UserFile.RemoveIconLines | uninstall.py:86 | removal keeps exactly the newline-terminated lines that do not start with `Icon=`, in order, plus the unterminated last line |
| UserFile.RemoveLeavesNoTerminatedIconLine | uninstall.py:86 | after removal no newline-terminated line starts with `Icon=` |
| UserFile.RemoveIdempotent | uninstall.py:86 | removing again changes nothing |
| UserFile.RemoveFromTemplate | uninstall.py:86 | removal turns the template record into `[User]\n` |
| UserFile.RemoveKeepsAppendedIconLine | uninstall.py:86 | the unterminated `Icon=` line the apply script appends (src/__init__.py:76) is not removed; removal leaves such a record unchanged |
| ProfileIcon.PathsDistinct | src/__init__.py:52-61 | a record path is never an icon path, and each path names one user |
| ProfileIcon.ChangeProfileIcon | src/__init__.py:45-82 | only the record and the icon change; the icon holds the avatar bytes owned by root; the run fails exactly when the record exists and cannot be decoded, and then the record is unchanged; otherwise the record is the rewrite of its text, or of the template when it was missing |
| ProfileIcon.ChangeCreatesTemplate | src/__init__.py:54-59 | a missing record ends up as exactly the template for the user's icon path, with no error |
| ProfileIcon.ChangePointsAtIcon | src/__init__.py:61-79 | after a run on a missing record, or on a text record outside the corner case, the run succeeds and the record points at the user's icon path |
| ProfileIcon.ChangeIdempotent | src/__init__.py:45-82 | a second run with the same avatar returns the same state and outcome |
| ProfileIcon.ApplyMain | src/__init__.py:99-102 | a non-200 answer leaves the file system untouched and ends in the error; a 200 answer installs the body as the icon, even when it is empty, and the outcome is exactly that of `change_gnome_profile_icon` on the body |
| ProfileIcon.FirstApply | src/__init__.py:99-102 | for a user with no record and a 200 answer: the record is the template, the icon holds the body, nothing else changes |
| Uninstall.TargetsApplyPaths | uninstall.py:29-30 | uninstall's icon and record paths are the ones apply writes, for the same user |
| Uninstall.TargetsDistinct | uninstall.py:9-30 | the four paths uninstall touches are pairwise distinct |
| Uninstall.RemoveProfileIcon | uninstall.py:72-95 | the icon is gone; the record exists afterwards exactly when it did before; an undecodable record fails the step and is kept as it was; a text record loses its terminated `Icon=` lines; nothing else changes |
| Uninstall.RemoveScript | uninstall.py:33-43 | the script is gone and nothing else changes |
| Uninstall.RemoveSystemdService | uninstall.py:46-69 | without the unit file, no command and no change; otherwise the commands issued are `stop`, then `disable` only if `stop` succeeded; the step succeeds exactly when the unit file is absent or both commands succeed, and the file is deleted exactly then; a failure names the last command issued and changes nothing |
| Uninstall.Uninstall | uninstall.py:98-105 | only the four targets change; the record survives exactly when it existed; the run succeeds exactly when the record is absent or decodable and the unit file is absent or both commands succeed; the error is that of the first failing step (undecodable record, then `stop`, then `disable`); the icon is gone in every case; the commands issued are none when the record is undecodable or the unit file is absent, else `stop`, then `disable` only if `stop` succeeded; an undecodable record leaves the record, the script and the unit file as they were; otherwise the script is gone and the record has lost its terminated `Icon=` lines even when a `systemctl` command fails, and a failure keeps the unit file as it was; on success the unit file is gone too |
| Uninstall.ProfileFailureSkipsLaterSteps | uninstall.py:98-105 | an undecodable record aborts uninstall before any `systemctl` command and leaves the script and unit file in place |
| Uninstall.StopFailureKeepsService | uninstall.py:49-60 | a failing `stop` ends uninstall with that error, without issuing `disable`, and keeps the unit file |
| Uninstall.DisableFailureKeepsService | uninstall.py:49-60 | a failing `disable` after a successful `stop` ends uninstall with that error, after issuing both commands, and keeps the unit file |
| Uninstall.AbsentTargetsChangeNothing | uninstall.py:76-92 | with no target present, uninstall changes nothing, raises nothing and issues no command |
| Uninstall.UninstallClearsRecord | uninstall.py:83-90 | after a successful uninstall no terminated line of the record starts with `Icon=` |
| Uninstall.UninstallTwice | uninstall.py:98-105 | a second uninstall after a successful one changes nothing and issues no command |
| Uninstall.ApplyThenUninstallFresh | uninstall.py:72-95 | apply on a user without a record, then uninstall, leaves the record as `[User]\n` and no icon |
| Uninstall.AppendedIconLineSurvivesUninstall | uninstall.py:86 | apply's appended `Icon=` line survives uninstall, so the record still names the deleted icon |
| Scenario.AliceNormalises | src/__init__.py:20 | `"Alice@Example.com "` normalises to `"alice@example.com"` |
| Scenario.AliceScenario | src/__init__.py:85-102 | for `alice` with a 200 `PNGDATA` answer, the request names the digest of `alice@example.com`; the icon holds exactly `PNGDATA`, owned by root; the record is `[User]`, then `Icon=` and the icon path, then a newline |
| Scenario.IconThemeRecordUnchanged | src/__init__.py:71-74 | a record `[User]\nIconTheme=<x>\n` comes back unchanged and gets no `Icon=` line |

## Left out

- `install.py` is not part of this model. It only copies a file, writes a
  constant unit file and calls `systemctl`. The run-once marker file belongs
  to the unit, not to the modelled code.
- The HTTPS connection is the `exchange` parameter: opening it, sending the
  request, reading the answer, and the unreachable `conn.close()`.
- MD5 and the UTF-8 encoding of the address before hashing are the `md5Hex`
  parameter. The digest is not computed.
- Email.Normalise: `lower()` is modelled on ASCII letters only; other
  characters are left as they are, because Unicode case mapping tables are
  outside the model.
- UserFile.UpdateIcon: the replacement `Icon=<icon>` is inserted literally.
  `re.sub` would interpret backslash escapes in a user name, which is not
  modelled.
- The line-level properties of the two edits require that the user name has
  no `\n`. Such a name would split the inserted line in two.
- ProfileIcon.PathsDistinct: paths are compared as literal strings. Symbolic
  links and path normalisation are not modelled. A user name that contains
  `/` or `..` could make the record path and the icon path, or two users'
  paths, name the same file on a real system; the model keeps them apart.
  SameOutside has the same limit, and so does every "nothing else changes"
  clause built on it.
- Files hold text or bytes. A text file stands for bytes that are the UTF-8
  encoding of its content, so `.encode()`/`.decode()` round-trip. A user
  record held as `Binary` stands for bytes `.decode()` rejects. The icon is
  always `Binary`, whatever its bytes, because it is only written and never
  decoded.
- `os.chown` is modelled as the icon's owner becoming 0:0. Its failure is not
  modelled.
- File-system failures are not modelled: `open`, `write`, `os.remove`, a
  missing `icons` directory, permissions, and paths that are directories.
  Uninstall.RemoveScript therefore never fails.
- The root-privilege checks (`os.geteuid`) and `exit(1)` are left out: they
  only refuse to run.
- Argument parsing is left out.
- The lookup of the logged-in user (`SUDO_USER`, `getpass.getuser`) is the
  `username` parameter.
- `print` output is left out, including the URL that is shown and the
  rewritten record being echoed.
- The `systemctl` oracle answers each command independently. A stateful
  service manager is not modelled.
