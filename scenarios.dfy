/** Concrete conversations between a session and a scripted server, each
    showing one promise of `FtpSession` on a fixed sequence of answers. */
module Scenarios {
  import opened Lang
  import opened Text
  import opened Client
  import opened Session

  /** `remove("a.txt")` when the server refuses the delete: an `IOException`
      naming the file and quoting the reply. */
  method RemoveRefused() returns (r: Outcome<bool>)
    ensures r.Fail? && r.error.IOFailure?
    ensures Contains(r.error.message, "a.txt") && Contains(r.error.message, "550 File not found")
  {
    var client := new FtpClient(k => Completed(false, "550 File not found", []), "/");
    var session := new FtpSession(client);
    assert HasText(Some("a.txt")) by {
      assert !IsWhitespace("a.txt"[0]);
    }
    r := session.Remove(Some("a.txt"));
  }

  /** `mkdir("a/b/c")` when every directory already exists: three calls with
      the cumulative prefixes, and no failure. */
  method MkdirAllRefused() returns (r: Outcome<()>, calls: seq<Call>)
    ensures r == Ok(())
    ensures calls == [MakeDirectory("a/"), MakeDirectory("a/b/"), MakeDirectory("a/b/c/")]
  {
    var client := new FtpClient(k => Completed(false, "550 File exists", []), "/");
    var session := new FtpSession(client);
    MkdirExample();
    r := session.Mkdir("a/b/c");
    calls := client.trace;
  }

  /** `rename("old.txt", "new.txt")` deletes the target first and goes on
      although that delete fails. */
  method RenameOverwrites() returns (r: Outcome<()>, calls: seq<Call>)
    ensures r.Ok?
    ensures calls == [DeleteFile(Some("new.txt")), Call.Rename(Some("old.txt"), Some("new.txt"))]
  {
    var client := new FtpClient(
      k => if k == 0 then Completed(false, "550 No such file", []) else Completed(true, "250 Renamed", []),
      "/");
    var session := new FtpSession(client);
    assert client.NextReply().Completed? && Positive(client.ReplyAt(1));
    r := session.Rename(Some("old.txt"), Some("new.txt"));
    calls := client.trace;
  }

  /** `exists("docs")` from `/home` when `docs` is a directory. */
  method ExistsDirectory() returns (r: Outcome<bool>, cwd: string)
    ensures r == Ok(true) && cwd == "/home"
  {
    var client := new FtpClient(k => Completed(true, "250 OK", []), "/home");
    var session := new FtpSession(client);
    assert HasText(Some("docs")) by {
      assert !IsWhitespace("docs"[0]);
    }
    r := session.Exists(Some("docs"));
    cwd := client.workingDirectory;
  }

  /** `exists("docs")` when the probe raises: the directory is restored and
      the exception still reaches the caller; it is not turned into `false`. */
  method ExistsProbeRaises() returns (r: Outcome<bool>, cwd: string, last: Call)
    ensures r == Fail(Transport("Connection reset")) && cwd == "/home"
    ensures last == ChangeWorkingDirectory("/home")
  {
    var client := new FtpClient(
      k => if k == 1 then Dropped("Connection reset") else Completed(true, "257 OK", []),
      "/home");
    var session := new FtpSession(client);
    assert HasText(Some("docs")) by {
      assert !IsWhitespace("docs"[0]);
    }
    r := session.Exists(Some("docs"));
    cwd := client.workingDirectory;
    last := client.trace[|client.trace| - 1];
  }

  /** `close()` swallows a failing disconnect, and `isOpen()` turns a raised
      `noop` into `false`. */
  method CloseAndProbeFailing() returns (open: bool)
    ensures !open
  {
    var client := new FtpClient(k => Dropped("Connection reset"), "/");
    var session := new FtpSession(client);
    var warned := session.Close();
    open := session.IsOpen();
  }

  /** After a clean `close()`, `isOpen()` reports the session closed. */
  method CloseThenIsOpen() returns (open: bool)
    ensures !open
  {
    var client := new FtpClient(k => Completed(true, "221 Goodbye", []), "/");
    var session := new FtpSession(client);
    var warned := session.Close();
    open := session.IsOpen();
  }
}
