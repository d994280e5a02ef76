# FtpSession, modelled in Dafny

`FtpSession` is Spring Integration's FTP implementation of a remote-file
`Session`. It wraps one Apache Commons Net `FTPClient`, already connected,
and offers `remove`, `list`, `read`, `write`, `rename`, `mkdir`, `exists`,
`isOpen` and `close`. Almost every operation delegates to a single client
call. The session adds three things:

- it checks its arguments with Spring's `Assert` before any client call;
- it turns a `false` from the client into an `IOException` whose message names
  the path(s) and quotes the server's reply string;
- `mkdir` creates a path one cumulative prefix at a time, and `exists` probes
  with a change of working directory and always restores the original one.

The model has five modules:

- `Lang` (`lang.dfy`) holds Java's nullable references (`Option`) and the
  ways a call can end (`Outcome`). `Failure` names the exceptions:
  `IllegalArgument`, `IllegalState`, `IOFailure` (an `IOException` raised by
  the session), and `Transport` (an exception the client raised itself).
- `Text` (`text.dfy`) holds the string rules the session uses:
  - Spring's `hasText`, with Java's `Character.isWhitespace`;
  - Java's `String.trim`;
  - splitting on `/` and joining with it;
  - `StringUtils.tokenizeToStringArray(path, "/")`, which splits, trims each
    token and drops the empty ones.
- `Client` (`client.dfy`) is an abstract `FTPClient`. It is a class whose
  state is the ordered trace of calls issued, the server's working
  directory, the last reply string, and whether the connection is open. The
  server's answer to the k-th call is `server(k)`, where `server` is an
  arbitrary function fixed when the client is built. Each answer is either a
  completed reply (positive or negative, with its text) or a transport
  exception. A property proved for every client therefore holds for every
  possible run of server answers.
- `Session` (`session.dfy`) is the class `FtpSession`. Its `client` is a
  `const`, like the source's `final` field. Each operation is a method whose
  `ensures` gives the calls it appends to the client's trace and its outcome
  as a function of the server's answers. The cumulative prefixes of `mkdir`
  are the ghost function `Prefixes`; its properties are proved as lemmas.
- `Scenarios` (`scenarios.dfy`) states, for fixed server scripts, what a
  session does.

Three behaviours of the code are easy to misread, and the model keeps them
as written:

- `exists` has a `try`/`finally` and no `catch`. An exception from the probe
  `changeWorkingDirectory(path)` propagates after the original directory is
  restored; it does not become `false`. An exception from the restore
  replaces the probe's outcome. See `Scenarios.ExistsProbeRaises`.
- `mkdir` ignores the boolean results of `makeDirectory`, but not its
  exceptions. An exception stops the loop and propagates.
- `rename` ignores the result of its first `deleteFile(pathTo)`, but an
  exception from that call propagates, and then `rename` is never issued.

## Model

| member | source | states |
|---|---|---|
| `Session.FtpSession.Create` | spring-integration-ftp/src/main/java/org/springframework/integration/ftp/session/FtpSession.java:46-49 | a null client fails with an argument error; otherwise a new session holds exactly that client, in a `const` field it keeps for its whole life |
| `Session.FtpSession.Remove` | spring-integration-ftp/src/main/java/org/springframework/integration/ftp/session/FtpSession.java:52-59 | a blank or null path fails with an argument error and the client is untouched; otherwise exactly one `deleteFile(path)` is issued and the reply string becomes that reply's text when it completed; the result is `true` iff that call returned `true` and is never `false`; a `false` becomes an IOException naming the path and quoting the reply string; a client exception propagates |
| `Session.TransferFailed` | spring-integration-ftp/src/main/java/org/springframework/integration/ftp/session/FtpSession.java:56 | the failure message of `remove` (and, with another verb, of `read` at lines 72-73 and `write` at lines 83-84) contains the path and the reply string |
| `Session.FtpSession.List` | spring-integration-ftp/src/main/java/org/springframework/integration/ftp/session/FtpSession.java:62-65 | a blank or null path fails with an argument error before any call; otherwise exactly one `listFiles(path)`, which sets the reply string when it completes, and whose entries are returned unchanged or whose exception propagates |
| `Session.FtpSession.Read` | spring-integration-ftp/src/main/java/org/springframework/integration/ftp/session/FtpSession.java:67-76 | the path is checked first, then the output stream, both before any call; then exactly one `retrieveFile(path, sink)`, which sets the reply string when it completes; normal return iff that call returned `true`; a `false` becomes an IOException naming the path and quoting the reply |
| `Session.FtpSession.Write` | spring-integration-ftp/src/main/java/org/springframework/integration/ftp/session/FtpSession.java:78-89 | the input stream is checked first, then the path, both before any call; then exactly one `storeFile(path, source)`, which sets the reply string when it completes; normal return iff that call returned `true`; a `false` becomes an IOException naming the path and quoting the reply |
| `Session.FtpSession.Close` | spring-integration-ftp/src/main/java/org/springframework/integration/ftp/session/FtpSession.java:91-100 | issues one `disconnect` and never ends with an exception; the ghost `warned` is set exactly when disconnecting raised; a clean disconnect leaves the client closed and a raised one leaves it as it was; the reply string follows the `disconnect` reply |
| `Session.FtpSession.IsOpen` | spring-integration-ftp/src/main/java/org/springframework/integration/ftp/session/FtpSession.java:102-110 | issues one `noop` and returns `true` iff it did not raise; never raises itself; a closed client is never reported open; the reply string follows the `noop` reply |
| `Session.FtpSession.Rename` | spring-integration-ftp/src/main/java/org/springframework/integration/ftp/session/FtpSession.java:112-122 | `deleteFile(pathTo)` is issued immediately before `rename(pathFrom, pathTo)` and its boolean is ignored; no argument check; normal return iff `rename` returned `true`; a `false` becomes an IOException naming both paths and quoting the reply; a client exception from either call propagates; the reply string is that of the last call that completed |
| `Session.RenameFailed` | spring-integration-ftp/src/main/java/org/springframework/integration/ftp/session/FtpSession.java:116-117 | the rename failure message contains both paths (`null` for a null one) and the reply string |
| `Session.FtpSession.Mkdir` | spring-integration-ftp/src/main/java/org/springframework/integration/ftp/session/FtpSession.java:129-138 | with `dirs` the cumulative prefixes of the tokenized path: if no call raises, exactly `makeDirectory(dirs[0]) ... makeDirectory(dirs[n-1])` are issued, in order, and the result is normal whatever they return; if the (k+1)-th call raises, exactly the first k+1 are issued and that exception propagates; in both cases the reply string is that of the last call that completed, and the working directory and connection are unchanged |
| `Session.FtpSession.MakeDirectories` | spring-integration-ftp/src/main/java/org/springframework/integration/ftp/session/FtpSession.java:133-137 | the loop on its own: it issues `makeDirectory` for each cumulative prefix of the given segments, in order; the ghost `done` counts the calls that completed, and every call before it completed; if all completed the result is normal, otherwise call number `done`+1 raised, its exception propagates and it is the last call issued; the reply string is that of the last completed call |
| `Session.PrefixesChain` | spring-integration-ftp/src/main/java/org/springframework/integration/ftp/session/FtpSession.java:133-137 | every `makeDirectory` argument of `mkdir` ends with `/` and is a proper prefix of every later one |
| `Session.SlashedExtends` | spring-integration-ftp/src/main/java/org/springframework/integration/ftp/session/FtpSession.java:135 | appending one more segment and `/` to the directory only extends it |
| `Session.SlashedShape` | spring-integration-ftp/src/main/java/org/springframework/integration/ftp/session/FtpSession.java:135 | the directory built from one or more segments ends with `/` |
| `Session.LastPrefix` | spring-integration-ftp/src/main/java/org/springframework/integration/ftp/session/FtpSession.java:131-137 | the last `makeDirectory` argument is the segments joined by `/` plus a trailing `/` |
| `Session.SlashedJoin` | spring-integration-ftp/src/main/java/org/springframework/integration/ftp/session/FtpSession.java:133-137 | building the directory segment by segment gives the segments joined by `/` plus a trailing `/` |
| `Session.MkdirExample` | spring-integration-ftp/src/main/java/org/springframework/integration/ftp/session/FtpSession.java:129-138 | for `a/b/c` the arguments are `a/`, `a/b/`, `a/b/c/`, in that order |
| `Session.MkdirAbsoluteExample` | spring-integration-ftp/src/main/java/org/springframework/integration/ftp/session/FtpSession.java:129-138 | for `/pub/x` the arguments are `pub/` and `pub/x/`: the empty piece before the leading `/` is dropped and no prefix starts with `/` |
| `Session.FtpSession.Exists` | spring-integration-ftp/src/main/java/org/springframework/integration/ftp/session/FtpSession.java:141-158 | a blank path fails before any call; a null working directory fails with an illegal-state error before any directory change; otherwise exactly `printWorkingDirectory`, `changeWorkingDirectory(path)`, `changeWorkingDirectory(original)` are issued, so the restore is the last call on every exit; a normal result is `true` iff the probe returned `true`; an exception from the restore wins, then one from the probe; a positive restore puts the working directory back, and after a restore that is refused or raises it is `path` or the original as the probe succeeded or not; the reply string is that of the last call that completed |
| `Text.Tokenize` | spring-integration-ftp/src/main/java/org/springframework/integration/ftp/session/FtpSession.java:131 | every token is non-empty, trimmed and free of `/` |
| `Text.Tokens` | spring-integration-ftp/src/main/java/org/springframework/integration/ftp/session/FtpSession.java:131 | trimming the pieces and dropping empty ones keeps at most as many pieces, yields only clean segments, and leaves pieces that are already clean segments unchanged |
| `Text.TokenizeJoin` | spring-integration-ftp/src/main/java/org/springframework/integration/ftp/session/FtpSession.java:131 | tokenizing `s1/.../sn` gives back exactly `s1, ..., sn` when each is a clean segment |
| `Text.Split` | spring-integration-ftp/src/main/java/org/springframework/integration/ftp/session/FtpSession.java:131 | splitting on `/` gives at least one piece and no piece contains `/` |
| `Text.JoinSplit` | spring-integration-ftp/src/main/java/org/springframework/integration/ftp/session/FtpSession.java:131 | joining the pieces of a split with `/` gives the input back |
| `Text.SplitJoin` | spring-integration-ftp/src/main/java/org/springframework/integration/ftp/session/FtpSession.java:131 | splitting `/`-free pieces joined with `/` gives the pieces back |
| `Text.Trim` | spring-integration-ftp/src/main/java/org/springframework/integration/ftp/session/FtpSession.java:131 | the trimmed token is trimmed and made of the token's characters; it is empty iff the token is all blank, and an already trimmed token is unchanged |
| `Text.TrimStripsBlankEnds` | spring-integration-ftp/src/main/java/org/springframework/integration/ftp/session/FtpSession.java:131 | the trimmed token is `s[i..j]` for some `i <= j` with every character before `i` and from `j` on blank, so trimming removes exactly blank ends |
| `Text.TokenizePiece` | spring-integration-ftp/src/main/java/org/springframework/integration/ftp/session/FtpSession.java:131 | a piece without `/` tokenizes to nothing when it trims to empty, and otherwise to its trimmed self alone |
| `Text.TokenizeConcat` | spring-integration-ftp/src/main/java/org/springframework/integration/ftp/session/FtpSession.java:131 | tokenizing `a/b` gives the tokens of `a` followed by the tokens of `b` |
| `Text.SplitAround` | spring-integration-ftp/src/main/java/org/springframework/integration/ftp/session/FtpSession.java:131 | splitting `a/b` gives the pieces of `a` followed by the pieces of `b` |
| `Text.TokensConcat` | spring-integration-ftp/src/main/java/org/springframework/integration/ftp/session/FtpSession.java:131 | trimming and dropping empty pieces works run by run: the tokens of `x + y` are those of `x` then those of `y` |
| `Scenarios.RemoveRefused` | spring-integration-ftp/src/main/java/org/springframework/integration/ftp/session/FtpSession.java:52-59 | a refused delete of `a.txt` raises an IOException naming `a.txt` and quoting `550 File not found` |
| `Scenarios.MkdirAllRefused` | spring-integration-ftp/src/main/java/org/springframework/integration/ftp/session/FtpSession.java:123-138 | `mkdir("a/b/c")` against a server refusing every directory issues `a/`, `a/b/`, `a/b/c/` and returns normally |
| `Scenarios.RenameOverwrites` | spring-integration-ftp/src/main/java/org/springframework/integration/ftp/session/FtpSession.java:112-122 | a rename whose pre-delete fails still deletes `new.txt`, renames, and succeeds |
| `Scenarios.ExistsDirectory` | spring-integration-ftp/src/main/java/org/springframework/integration/ftp/session/FtpSession.java:141-158 | `exists("docs")` from `/home` returns `true` and leaves the working directory at `/home` |
| `Scenarios.ExistsProbeRaises` | spring-integration-ftp/src/main/java/org/springframework/integration/ftp/session/FtpSession.java:148-155 | a probe that raises still gets the directory restored to `/home` as the last call, and its exception reaches the caller |
| `Scenarios.CloseAndProbeFailing` | spring-integration-ftp/src/main/java/org/springframework/integration/ftp/session/FtpSession.java:91-110 | a disconnect that raises is swallowed, and a `noop` that raises makes `isOpen` return `false` |
| `Scenarios.CloseThenIsOpen` | spring-integration-ftp/src/main/java/org/springframework/integration/ftp/session/FtpSession.java:91-110 | after a clean `close`, `isOpen` returns `false` |

## Left out

- The FTP wire protocol (the DELE, LIST, RETR, STOR, RNFR/RNTO, MKD, PWD, CWD and NOOP commands of section 4.1 of RFC 959), connection setup and authentication. These live inside `FTPClient`, which is not part of this model. Its answers are the free `server` function.
- How the server resolves a relative directory: a positive `changeWorkingDirectory(p)` sets the modelled working directory to `p` as given.
- Two behaviours of the abstract client are modelling choices. A call on a closed connection raises. `disconnect` closes the connection only when it completes.
- `Session.FtpSession.Read` and `Session.FtpSession.Write` do not model the bytes that are streamed. Streams are opaque handles, passed to the client unchanged. Neither method closes them.
- `list`'s `FTPFile` entries are opaque values (`RemoteFile`) whose structure is not modelled. They are returned exactly as the client gives them.
- Logging (the `logger.info` and `logger.warn` calls) is not modelled. `close` records only a ghost `warned` flag, set when a warning would be logged.
- Exceptions the client raises are all one kind, `Transport`. Among them are the runtime exceptions that `close` and `isOpen` catch as `Exception`.
- A null `remoteDirectory` in `mkdir` is not modelled. `Mkdir` takes a non-null string.
- `Character.isWhitespace` is modelled on Unicode scalar values. Java applies it to UTF-16 code units, and no supplementary character is whitespace.
- `Text.IsWhitespace` follows Java 5 to 8 (Unicode up to 6.2), where U+180E MONGOLIAN VOWEL SEPARATOR is a space separator. From Java 9 on it is not whitespace, so on those versions `hasText` treats it as text. `String.trim`, and with it `Text.Trim`, strips only code points up to U+0020 on every version.
- Concurrent use of one session is not modelled. The source does not guard against it.
