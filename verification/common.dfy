/**
 Shared vocabulary of the model: bytes, optional values, the errors the scripts
 raise, and the abstract file system both scripts mutate.

 The file system is a map from absolute path to file. A file is either text
 (the AccountsService user record, which the scripts read with `.decode()`)
 or binary data with an owner (the icon). Directories, permissions and
 partial writes are not modelled.
 */
module Common {

  newtype byte = x: int | 0 <= x < 256

  datatype Option<+T> = None | Some(value: T)

  datatype Result<+T, +E> = Ok(value: T) | Err(error: E)

  /** A `systemctl` sub-command issued on `gnome-libravatar.service`. */
  datatype Command = Stop | Disable

  /** The exceptions that escape the modelled operations. */
  datatype Error =
    /** The bare `raise` after a non-200 answer: no exception is active,
        so Python raises a RuntimeError that does not carry the status. */
    | ReraiseWithoutActiveException
    /** `.decode()` of a user record that is not text. */
    | DecodeFailed(path: string)
    /** `subprocess.run(..., check=True)` of `systemctl` exited non-zero. */
    | SystemctlFailed(command: Command)

  type Path = string

  /** Numeric owner of a file, as set by `os.chown`. */
  datatype Owner = Owner(uid: nat, gid: nat)

  const Root := Owner(0, 0)

  datatype File = Text(content: string) | Binary(data: seq<byte>, owner: Owner)

  type FileSystem = map<Path, File>

  /** A file-system state after an operation, with the exception that ended it, if any.
      Exceptions do not roll back the writes made before them. */
  datatype Run = Run(fs: FileSystem, error: Option<Error>)

  /** `fs` and `fs'` agree on every path outside `touched`. */
  ghost predicate SameOutside(fs: FileSystem, fs': FileSystem, touched: set<Path>)
  {
    && (forall p :: p !in touched ==> (p in fs <==> p in fs'))
    && (forall p | p in fs && p !in touched :: p in fs' && fs'[p] == fs[p])
  }

  /** Two runs in a row touch at most what either touches. */
  lemma {:induction false} SameOutsideThen(fs: FileSystem, mid: FileSystem, fs': FileSystem, a: set<Path>, b: set<Path>)
    requires SameOutside(fs, mid, a) && SameOutside(mid, fs', b)
    ensures SameOutside(fs, fs', a + b)
  {
  }

  /** A run that touches at most `a` touches at most any larger set. */
  lemma {:induction false} SameOutsideWiden(fs: FileSystem, fs': FileSystem, a: set<Path>, b: set<Path>)
    requires SameOutside(fs, fs', a) && a <= b
    ensures SameOutside(fs, fs', b)
  {
  }
}
