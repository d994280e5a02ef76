/** An abstract stand-in for the Apache Commons Net `FTPClient` the session
    delegates to. It keeps what the session can observe of it: the ordered
    trace of calls issued, the server's working directory, the last reply
    text and whether the connection is open. What the server answers is a
    free choice: the `k`-th call ever issued gets `server(k)`, and since
    `server` is an arbitrary function, a property proved for every client
    holds for every sequence of server answers and transport failures. */
module Client {
  import opened Lang

  /** A caller's `java.io` stream, passed through by reference; its bytes are
      not modelled. */
  datatype Stream = Stream(id: nat)

  /** One `FTPFile` entry of a listing; its structure belongs to the library. */
  datatype RemoteFile = RemoteFile(name: string)

  /** How the server side answers one call: the call completes with a
      positive or negative reply (its text, and the entries of a listing), or
      it raises a transport error (an `IOException` from the client). */
  datatype ServerReply =
    | Completed(positive: bool, text: string, listing: seq<RemoteFile>)
    | Dropped(cause: string)

  predicate Positive(reply: ServerReply)
  {
    reply.Completed? && reply.positive
  }

  predicate Negative(reply: ServerReply)
  {
    reply.Completed? && !reply.positive
  }

  /** The client calls the session issues, with their arguments. */
  datatype Call =
    | DeleteFile(target: Option<string>)
    | ListFiles(path: string)
    | RetrieveFile(path: string, sink: Stream)
    | StoreFile(path: string, source: Stream)
    | Rename(from: Option<string>, to: Option<string>)
    | MakeDirectory(path: string)
    | PrintWorkingDirectory
    | ChangeWorkingDirectory(path: string)
    | Noop
    | Disconnect

  /** What a call on a connection that is no longer open raises. */
  const NotOpen: string := "Connection is not open"

  /** The boolean a call like `deleteFile` returns, or the exception it raises. */
  function Answer(reply: ServerReply): (r: Outcome<bool>)
  {
    match reply
    case Completed(positive, _, _) => Ok(positive)
    case Dropped(cause) => Fail(Transport(cause))
  }

  /** `getReplyString()` after a call that got `reply`, when it was `before`:
      the text of a completed reply, or unchanged when the call raised. */
  function ReplyStringAfter(reply: ServerReply, before: string): (text: string)
  {
    if reply.Completed? then reply.text else before
  }

  /** The answer the k-th call gets from `server`: the server's own while the
      connection is open, a transport error once it is closed. */
  function ReplyFrom(server: nat -> ServerReply, connected: bool, k: nat): (reply: ServerReply)
  {
    if connected then server(k) else Dropped(NotOpen)
  }

  /** `getReplyString()` after the `n` calls numbered from `from` on, when it
      was `before`: the text of the last of them that completed. */
  ghost function ReplyTextAfter(server: nat -> ServerReply, connected: bool, from: nat, n: nat, before: string): (text: string)
    decreases n
  {
    if n == 0 then before
    else ReplyStringAfter(ReplyFrom(server, connected, from + n - 1), ReplyTextAfter(server, connected, from, n - 1, before))
  }

  lemma ReplyTextStep(server: nat -> ServerReply, connected: bool, from: nat, n: nat, before: string)
    ensures ReplyTextAfter(server, connected, from, n + 1, before)
            == ReplyStringAfter(ReplyFrom(server, connected, from + n), ReplyTextAfter(server, connected, from, n, before))
  {
  }

  /** How many of the `n` calls numbered from `from` on complete before the
      first one that raises. */
  ghost function CompletedRun(server: nat -> ServerReply, connected: bool, from: nat, n: nat): (k: nat)
    ensures k <= n
    ensures forall j :: from <= j < from + k ==> ReplyFrom(server, connected, j).Completed?
    ensures k < n ==> ReplyFrom(server, connected, from + k).Dropped?
    decreases n
  {
    if n == 0 || ReplyFrom(server, connected, from).Dropped? then 0
    else 1 + CompletedRun(server, connected, from + 1, n - 1)
  }

  /** The run is exactly `m` long when the first `m` calls complete and the
      next one, if any of the `n` is left, raises. */
  lemma {:induction false} CompletedRunExact(server: nat -> ServerReply, connected: bool, from: nat, n: nat, m: nat)
    requires m <= n
    requires forall j :: from <= j < from + m ==> ReplyFrom(server, connected, j).Completed?
    requires m < n ==> ReplyFrom(server, connected, from + m).Dropped?
    ensures CompletedRun(server, connected, from, n) == m
    decreases m
  {
    if m > 0 {
      CompletedRunExact(server, connected, from + 1, n - 1, m - 1);
    }
  }

  class FtpClient {
    /** The server's answer to the k-th call issued on this client. */
    const server: nat -> ServerReply
    /** Every call issued so far, oldest first. */
    var trace: seq<Call>
    var workingDirectory: string
    /** `getReplyString()`: the text of the last reply received. */
    var replyString: string
    var connected: bool

    /** A client that is already connected, as the session expects it. */
    constructor (server: nat -> ServerReply, workingDirectory: string)
      ensures this.server == server && this.workingDirectory == workingDirectory
      ensures trace == [] && replyString == "" && connected
    {
      this.server := server;
      this.workingDirectory := workingDirectory;
      trace := [];
      replyString := "";
      connected := true;
    }

    /** The answer the k-th call gets: the server's, while the connection is open. */
    function ReplyAt(k: nat): (reply: ServerReply)
      reads this
    {
      ReplyFrom(server, connected, k)
    }

    /** The answer the next call will get. */
    function NextReply(): (reply: ServerReply)
      reads this
    {
      ReplyAt(|trace|)
    }

    /** Sends one call and receives its answer; a completed reply becomes the
        reply string. */
    method Issue(call: Call) returns (reply: ServerReply)
      modifies this
      ensures reply == old(NextReply())
      ensures trace == old(trace) + [call]
      ensures replyString == ReplyStringAfter(reply, old(replyString))
      ensures workingDirectory == old(workingDirectory) && connected == old(connected)
    {
      reply := NextReply();
      trace := trace + [call];
      if reply.Completed? {
        replyString := reply.text;
      }
    }

    method DeleteFile(path: Option<string>) returns (r: Outcome<bool>)
      modifies this
      ensures trace == old(trace) + [Call.DeleteFile(path)]
      ensures replyString == ReplyStringAfter(old(NextReply()), old(replyString))
      ensures r == Answer(old(NextReply()))
      ensures workingDirectory == old(workingDirectory) && connected == old(connected)
    {
      var reply := Issue(Call.DeleteFile(path));
      r := Answer(reply);
    }

    method ListFiles(path: string) returns (r: Outcome<seq<RemoteFile>>)
      modifies this
      ensures trace == old(trace) + [Call.ListFiles(path)]
      ensures replyString == ReplyStringAfter(old(NextReply()), old(replyString))
      ensures old(NextReply()).Completed? ==> r == Ok(old(NextReply()).listing)
      ensures old(NextReply()).Dropped? ==> r == Fail(Transport(old(NextReply()).cause))
      ensures workingDirectory == old(workingDirectory) && connected == old(connected)
    {
      var reply := Issue(Call.ListFiles(path));
      r := if reply.Completed? then Ok(reply.listing) else Fail(Transport(reply.cause));
    }

    method RetrieveFile(path: string, sink: Stream) returns (r: Outcome<bool>)
      modifies this
      ensures trace == old(trace) + [Call.RetrieveFile(path, sink)]
      ensures replyString == ReplyStringAfter(old(NextReply()), old(replyString))
      ensures r == Answer(old(NextReply()))
      ensures workingDirectory == old(workingDirectory) && connected == old(connected)
    {
      var reply := Issue(Call.RetrieveFile(path, sink));
      r := Answer(reply);
    }

    method StoreFile(path: string, source: Stream) returns (r: Outcome<bool>)
      modifies this
      ensures trace == old(trace) + [Call.StoreFile(path, source)]
      ensures replyString == ReplyStringAfter(old(NextReply()), old(replyString))
      ensures r == Answer(old(NextReply()))
      ensures workingDirectory == old(workingDirectory) && connected == old(connected)
    {
      var reply := Issue(Call.StoreFile(path, source));
      r := Answer(reply);
    }

    method Rename(from: Option<string>, to: Option<string>) returns (r: Outcome<bool>)
      modifies this
      ensures trace == old(trace) + [Call.Rename(from, to)]
      ensures replyString == ReplyStringAfter(old(NextReply()), old(replyString))
      ensures r == Answer(old(NextReply()))
      ensures workingDirectory == old(workingDirectory) && connected == old(connected)
    {
      var reply := Issue(Call.Rename(from, to));
      r := Answer(reply);
    }

    method MakeDirectory(path: string) returns (r: Outcome<bool>)
      modifies this
      ensures trace == old(trace) + [Call.MakeDirectory(path)]
      ensures replyString == ReplyStringAfter(old(NextReply()), old(replyString))
      ensures r == Answer(old(NextReply()))
      ensures workingDirectory == old(workingDirectory) && connected == old(connected)
    {
      var reply := Issue(Call.MakeDirectory(path));
      r := Answer(reply);
    }

    /** The working directory on a positive reply, `null` on a negative one. */
    method PrintWorkingDirectory() returns (r: Outcome<Option<string>>)
      modifies this
      ensures trace == old(trace) + [Call.PrintWorkingDirectory]
      ensures replyString == ReplyStringAfter(old(NextReply()), old(replyString))
      ensures Positive(old(NextReply())) ==> r == Ok(Some(workingDirectory))
      ensures Negative(old(NextReply())) ==> r == Ok(None)
      ensures old(NextReply()).Dropped? ==> r == Fail(Transport(old(NextReply()).cause))
      ensures workingDirectory == old(workingDirectory) && connected == old(connected)
    {
      var reply := Issue(Call.PrintWorkingDirectory);
      match reply
      case Completed(positive, _, _) =>
        r := Ok(if positive then Some(workingDirectory) else None);
      case Dropped(cause) =>
        r := Fail(Transport(cause));
    }

    /** On a positive reply the server's working directory becomes `path`. */
    method ChangeWorkingDirectory(path: string) returns (r: Outcome<bool>)
      modifies this
      ensures trace == old(trace) + [Call.ChangeWorkingDirectory(path)]
      ensures replyString == ReplyStringAfter(old(NextReply()), old(replyString))
      ensures r == Answer(old(NextReply()))
      ensures workingDirectory == if Positive(old(NextReply())) then path else old(workingDirectory)
      ensures connected == old(connected)
    {
      var reply := Issue(Call.ChangeWorkingDirectory(path));
      r := Answer(reply);
      if Positive(reply) {
        workingDirectory := path;
      }
    }

    /** Raises only when the server side raises; a negative reply is no error. */
    method Noop() returns (r: Outcome<()>)
      modifies this
      ensures trace == old(trace) + [Call.Noop]
      ensures replyString == ReplyStringAfter(old(NextReply()), old(replyString))
      ensures r == if old(NextReply()).Completed? then Ok(()) else Fail(Transport(old(NextReply()).cause))
      ensures workingDirectory == old(workingDirectory) && connected == old(connected)
    {
      var reply := Issue(Call.Noop);
      r := if reply.Completed? then Ok(()) else Fail(Transport(reply.cause));
    }

    /** Closes the connection, unless closing raises. */
    method Disconnect() returns (r: Outcome<()>)
      modifies this
      ensures trace == old(trace) + [Call.Disconnect]
      ensures replyString == ReplyStringAfter(old(NextReply()), old(replyString))
      ensures r == if old(NextReply()).Completed? then Ok(()) else Fail(Transport(old(NextReply()).cause))
      ensures connected == (old(connected) && r.Fail?)
      ensures workingDirectory == old(workingDirectory)
    {
      var reply := Issue(Call.Disconnect);
      if reply.Completed? {
        connected := false;
        r := Ok(());
      } else {
        r := Fail(Transport(reply.cause));
      }
    }
  }
}
