/** `FtpSession`: the FTP implementation of a remote-file session. Each
    operation checks its arguments before touching the client, issues its
    client calls, and turns a `false` from the client into an `IOException`
    whose message names the path(s) and the server's reply; exceptions the
    client raises itself pass through unchanged. */
module Session {
  import opened Lang
  import opened Text
  import opened Client

  const ClientRequired: string := "client must not be null"
  const PathRequired: string := "path must not be null"
  const OutputStreamRequired: string := "outputStream must not be null"
  const InputStreamRequired: string := "inputStream must not be null"
  const ExistsPathRequired: string := "'path' must not be empty"
  const WorkingDirectoryUnknown: string :=
    "working directory cannot be determined, therefore exists check can not be completed"

  /** What `remove`, `read` and `write` say failed. */
  const DeleteAction: string := "delete"
  const CopyAction: string := "copy"
  const WriteAction: string := "write to"

  /** The message of the `IOException` raised when `deleteFile`, `retrieveFile`
      or `storeFile` returns false. */
  function TransferFailed(action: string, path: string, reply: string): (m: string)
    ensures Contains(m, path) && Contains(m, reply)
  {
    var head := "Failed to " + action + " '";
    var middle := "'. Server replied with: ";
    ContainsSuffix(head, path);
    ContainsExtend(head + path, path, middle);
    ContainsExtend(head + path + middle, path, reply);
    ContainsSuffix(head + path + middle, reply);
    head + path + middle + reply
  }

  /** The message of the `IOException` raised when `rename` returns false;
      a null path is written as `null`, as Java's concatenation does. */
  function RenameFailed(from: Option<string>, to: Option<string>, reply: string): (m: string)
    ensures Contains(m, Show(from)) && Contains(m, Show(to)) && Contains(m, reply)
  {
    var head := "Failed to rename '";
    var middle := "' to ";
    var tail := "'. Server replied with: ";
    var a := head + Show(from);
    var b := a + middle + Show(to);
    var c := b + tail;
    ContainsSuffix(head, Show(from));
    ContainsExtend(a, Show(from), middle);
    ContainsExtend(a + middle, Show(from), Show(to));
    ContainsExtend(b, Show(from), tail);
    ContainsExtend(c, Show(from), reply);
    ContainsSuffix(a + middle, Show(to));
    ContainsExtend(b, Show(to), tail);
    ContainsExtend(c, Show(to), reply);
    ContainsSuffix(c, reply);
    head + Show(from) + middle + Show(to) + tail + reply
  }

  /** The directory `mkdir` has built after the given segments: each segment
      followed by the separator, `s1/s2/.../sk/`. */
  ghost function Slashed(segments: seq<string>): (directory: string)
  {
    if segments == [] then ""
    else Slashed(segments[..|segments| - 1]) + segments[|segments| - 1] + [Separator]
  }

  /** The arguments of the `makeDirectory` calls `mkdir` issues for the given
      segments: the i-th is the cumulative prefix `s1/.../si/`. */
  ghost function Prefixes(segments: seq<string>): (dirs: seq<string>)
    ensures |dirs| == |segments|
  {
    seq(|segments|, i requires 0 <= i < |segments| => Slashed(segments[..i + 1]))
  }

  function MakeDirectoryCalls(dirs: seq<string>): (calls: seq<Call>)
    ensures |calls| == |dirs|
  {
    seq(|dirs|, i requires 0 <= i < |dirs| => MakeDirectory(dirs[i]))
  }

  /** The next directory `mkdir` asks for is the current one, one segment deeper. */
  lemma PrefixStep(segments: seq<string>, i: nat)
    requires i < |segments|
    ensures Prefixes(segments)[i] == Slashed(segments[..i]) + segments[i] + [Separator]
  {
    assert segments[..i + 1][..i] == segments[..i];
  }

  lemma CallsStep(dirs: seq<string>, i: nat)
    requires i < |dirs|
    ensures MakeDirectoryCalls(dirs[..i + 1]) == MakeDirectoryCalls(dirs[..i]) + [MakeDirectory(dirs[i])]
  {
  }

  /** Every directory `mkdir` creates ends with the separator and is longer
      than the segments it is built from. */
  lemma {:induction false} SlashedShape(segments: seq<string>)
    ensures |Slashed(segments)| >= |segments|
    ensures segments != [] ==> Slashed(segments)[|Slashed(segments)| - 1] == Separator
  {
    if segments != [] {
      SlashedShape(segments[..|segments| - 1]);
    }
  }

  /** Building the path one more segment deeper only extends it. */
  lemma {:induction false} SlashedExtends(segments: seq<string>, i: nat, j: nat)
    requires i < j <= |segments|
    ensures Slashed(segments[..i]) < Slashed(segments[..j])
    decreases j
  {
    var last := segments[..j][j - 1];
    assert segments[..j][..j - 1] == segments[..j - 1];
    assert Slashed(segments[..j]) == Slashed(segments[..j - 1]) + last + [Separator];
    if i < j - 1 {
      SlashedExtends(segments, i, j - 1);
    }
  }

  /** The `makeDirectory` arguments of `mkdir`: each ends with the separator
      and is a proper prefix of every later one. */
  lemma PrefixesChain(segments: seq<string>)
    ensures forall i :: 0 <= i < |segments| ==>
      Prefixes(segments)[i] != [] && Prefixes(segments)[i][|Prefixes(segments)[i]| - 1] == Separator
    ensures forall i, j :: 0 <= i < j < |segments| ==> Prefixes(segments)[i] < Prefixes(segments)[j]
  {
    forall i | 0 <= i < |segments|
      ensures Prefixes(segments)[i] != [] && Prefixes(segments)[i][|Prefixes(segments)[i]| - 1] == Separator
    {
      SlashedShape(segments[..i + 1]);
    }
    forall i, j | 0 <= i < j < |segments|
      ensures Prefixes(segments)[i] < Prefixes(segments)[j]
    {
      SlashedExtends(segments, i + 1, j + 1);
    }
  }

  /** The segment-by-segment construction ends with the path itself, its
      segments joined by the separator, plus a trailing separator. */
  lemma {:induction false} SlashedJoin(segments: seq<string>)
    requires segments != []
    ensures Slashed(segments) == Join(segments) + [Separator]
    decreases |segments|
  {
    if |segments| > 1 {
      var init := segments[..|segments| - 1];
      var last := segments[|segments| - 1];
      SlashedJoin(init);
      JoinSnoc(init, last);
      assert init + [last] == segments;
    }
  }

  lemma {:induction false} JoinSnoc(parts: seq<string>, last: string)
    requires parts != []
    ensures Join(parts + [last]) == Join(parts) + [Separator] + last
    decreases |parts|
  {
    if |parts| > 1 {
      JoinSnoc(parts[1..], last);
      assert (parts + [last])[1..] == parts[1..] + [last];
    } else {
      assert (parts + [last])[1..] == [last];
    }
  }

  /** The last directory `mkdir` asks for is the whole tokenized path. */
  lemma {:induction false} LastPrefix(segments: seq<string>)
    requires segments != []
    ensures Prefixes(segments)[|segments| - 1] == Join(segments) + [Separator]
  {
    assert segments[..|segments|] == segments;
    SlashedJoin(segments);
  }

  lemma SlashedOne(x: string)
    ensures Slashed([x]) == x + [Separator]
  {
    assert [x][..0] == [];
    assert [] + x == x;
  }

  lemma PrefixesPair(x: string, y: string)
    ensures Prefixes([x, y]) == [x + [Separator], x + [Separator] + y + [Separator]]
  {
    var segments := [x, y];
    PrefixStep(segments, 0);
    PrefixStep(segments, 1);
    assert segments[..0] == [] && segments[..1] == [x];
    SlashedOne(x);
    assert [] + x == x;
  }

  lemma PrefixesTriple(x: string, y: string, z: string)
    ensures Prefixes([x, y, z])
         == [x + [Separator], x + [Separator] + y + [Separator], x + [Separator] + y + [Separator] + z + [Separator]]
  {
    var segments := [x, y, z];
    PrefixStep(segments, 0);
    PrefixStep(segments, 1);
    PrefixStep(segments, 2);
    assert segments[..0] == [] && segments[..1] == [x] && segments[..2] == [x, y];
    SlashedOne(x);
    assert Slashed([x, y]) == x + [Separator] + y + [Separator] by {
      assert [x, y][..1] == [x];
    }
    assert [] + x == x;
  }

  /** `mkdir("a/b/c")` asks for `a/`, `a/b/` and `a/b/c/`, in that order. */
  lemma MkdirExample()
    ensures Prefixes(Tokenize("a/b/c")) == ["a/", "a/b/", "a/b/c/"]
  {
    assert "a" + [Separator] == "a/";
    assert "a" + [Separator] + "b" + [Separator] == "a/b/";
    assert "a" + [Separator] + "b" + [Separator] + "c" + [Separator] == "a/b/c/";
    var segments := ["a", "b", "c"];
    assert forall t :: t in segments ==> IsSegment(t);
    assert Join(segments) == "a/b/c";
    TokenizeJoin(segments);
    PrefixesTriple("a", "b", "c");
  }

  lemma TokenizeAbsolute()
    ensures Tokenize("/pub/x") == ["pub", "x"]
  {
    var segments := ["pub", "x"];
    assert forall t :: t in segments ==> IsSegment(t);
    assert Join(segments) == "pub/x";
    TokenizeJoin(segments);
    assert "/pub/x" == "" + [Separator] + "pub/x";
    TokenizeConcat("", "pub/x");
    assert Split("") == [""];
  }

  /** An absolute path gives relative directories: `mkdir("/pub/x")` asks for
      `pub/` and `pub/x/`, since the empty piece before the leading `/` is
      dropped and each prefix is built without a leading separator. */
  lemma MkdirAbsoluteExample()
    ensures Prefixes(Tokenize("/pub/x")) == ["pub/", "pub/x/"]
  {
    assert "pub" + [Separator] == "pub/";
    assert "pub" + [Separator] + "x" + [Separator] == "pub/x/";
    TokenizeAbsolute();
    PrefixesPair("pub", "x");
  }

  class FtpSession {
    /** The client this session wraps for its whole life. */
    const client: FtpClient

    constructor (client: FtpClient)
      ensures this.client == client
    {
      this.client := client;
    }

    /** `new FtpSession(client)`: a null client is rejected. */
    static method Create(client: FtpClient?) returns (r: Outcome<FtpSession>)
      ensures client == null ==> r == Fail(IllegalArgument(ClientRequired))
      ensures client != null ==> r.Ok? && fresh(r.value) && r.value.client == client
    {
      if client == null {
        return Fail(IllegalArgument(ClientRequired));
      }
      var session := new FtpSession(client);
      return Ok(session);
    }

    /** Deletes the remote file at `path`; never returns `false`. */
    method Remove(path: Option<string>) returns (r: Outcome<bool>)
      modifies client
      ensures !HasText(path) ==> r == Fail(IllegalArgument(PathRequired)) && unchanged(client)
      ensures HasText(path) ==> client.trace == old(client.trace) + [DeleteFile(path)]
      ensures HasText(path) ==> (r == Ok(true) <==> Positive(old(client.NextReply())))
      ensures HasText(path) && Negative(old(client.NextReply())) ==>
        r.Fail? && r.error.IOFailure?
        && Contains(r.error.message, path.value) && Contains(r.error.message, client.replyString)
        && client.replyString == old(client.NextReply()).text
      ensures HasText(path) && old(client.NextReply()).Dropped? ==>
        r == Fail(Transport(old(client.NextReply()).cause))
      ensures HasText(path) ==>
        client.replyString == ReplyStringAfter(old(client.NextReply()), old(client.replyString))
      ensures r != Ok(false)
      ensures client.workingDirectory == old(client.workingDirectory)
      ensures client.connected == old(client.connected)
    {
      if !HasText(path) {
        return Fail(IllegalArgument(PathRequired));
      }
      var completed := client.DeleteFile(path);
      if completed.Fail? {
        return Fail(completed.error);
      }
      if !completed.value {
        return Fail(IOFailure(TransferFailed(DeleteAction, path.value, client.replyString)));
      }
      return Ok(true);
    }

    /** Lists the remote directory `path`; the entries come back as the client
        gives them. */
    method List(path: Option<string>) returns (r: Outcome<seq<RemoteFile>>)
      modifies client
      ensures !HasText(path) ==> r == Fail(IllegalArgument(PathRequired)) && unchanged(client)
      ensures HasText(path) ==> client.trace == old(client.trace) + [ListFiles(path.value)]
      ensures HasText(path) && old(client.NextReply()).Completed? ==>
        r == Ok(old(client.NextReply()).listing)
      ensures HasText(path) && old(client.NextReply()).Dropped? ==>
        r == Fail(Transport(old(client.NextReply()).cause))
      ensures HasText(path) ==>
        client.replyString == ReplyStringAfter(old(client.NextReply()), old(client.replyString))
      ensures client.workingDirectory == old(client.workingDirectory)
      ensures client.connected == old(client.connected)
    {
      if !HasText(path) {
        return Fail(IllegalArgument(PathRequired));
      }
      r := client.ListFiles(path.value);
    }

    /** Copies the remote file `path` into `sink`. */
    method Read(path: Option<string>, sink: Option<Stream>) returns (r: Outcome<()>)
      modifies client
      ensures !HasText(path) ==> r == Fail(IllegalArgument(PathRequired)) && unchanged(client)
      ensures HasText(path) && sink.None? ==>
        r == Fail(IllegalArgument(OutputStreamRequired)) && unchanged(client)
      ensures HasText(path) && sink.Some? ==>
        client.trace == old(client.trace) + [RetrieveFile(path.value, sink.value)]
      ensures HasText(path) && sink.Some? ==> (r.Ok? <==> Positive(old(client.NextReply())))
      ensures HasText(path) && sink.Some? && Negative(old(client.NextReply())) ==>
        r.Fail? && r.error.IOFailure?
        && Contains(r.error.message, path.value) && Contains(r.error.message, client.replyString)
        && client.replyString == old(client.NextReply()).text
      ensures HasText(path) && sink.Some? && old(client.NextReply()).Dropped? ==>
        r == Fail(Transport(old(client.NextReply()).cause))
      ensures HasText(path) && sink.Some? ==>
        client.replyString == ReplyStringAfter(old(client.NextReply()), old(client.replyString))
      ensures client.workingDirectory == old(client.workingDirectory)
      ensures client.connected == old(client.connected)
    {
      if !HasText(path) {
        return Fail(IllegalArgument(PathRequired));
      }
      if sink.None? {
        return Fail(IllegalArgument(OutputStreamRequired));
      }
      var completed := client.RetrieveFile(path.value, sink.value);
      if completed.Fail? {
        return Fail(completed.error);
      }
      if !completed.value {
        return Fail(IOFailure(TransferFailed(CopyAction, path.value, client.replyString)));
      }
      return Ok(());
    }

    /** Stores the bytes of `source` as the remote file `path`; the stream is
        checked before the path. */
    method Write(source: Option<Stream>, path: Option<string>) returns (r: Outcome<()>)
      modifies client
      ensures source.None? ==> r == Fail(IllegalArgument(InputStreamRequired)) && unchanged(client)
      ensures source.Some? && !HasText(path) ==>
        r == Fail(IllegalArgument(PathRequired)) && unchanged(client)
      ensures source.Some? && HasText(path) ==>
        client.trace == old(client.trace) + [StoreFile(path.value, source.value)]
      ensures source.Some? && HasText(path) ==> (r.Ok? <==> Positive(old(client.NextReply())))
      ensures source.Some? && HasText(path) && Negative(old(client.NextReply())) ==>
        r.Fail? && r.error.IOFailure?
        && Contains(r.error.message, path.value) && Contains(r.error.message, client.replyString)
        && client.replyString == old(client.NextReply()).text
      ensures source.Some? && HasText(path) && old(client.NextReply()).Dropped? ==>
        r == Fail(Transport(old(client.NextReply()).cause))
      ensures source.Some? && HasText(path) ==>
        client.replyString == ReplyStringAfter(old(client.NextReply()), old(client.replyString))
      ensures client.workingDirectory == old(client.workingDirectory)
      ensures client.connected == old(client.connected)
    {
      if source.None? {
        return Fail(IllegalArgument(InputStreamRequired));
      }
      if !HasText(path) {
        return Fail(IllegalArgument(PathRequired));
      }
      var completed := client.StoreFile(path.value, source.value);
      if completed.Fail? {
        return Fail(completed.error);
      }
      if !completed.value {
        return Fail(IOFailure(TransferFailed(WriteAction, path.value, client.replyString)));
      }
      return Ok(());
    }

    /** Disconnects the client; whatever disconnecting raises is swallowed
        (and, in the source, logged: `warned`). */
    method Close() returns (ghost warned: bool)
      modifies client
      ensures client.trace == old(client.trace) + [Disconnect]
      ensures warned <==> old(client.NextReply()).Dropped?
      ensures !warned ==> !client.connected
      ensures warned ==> client.connected == old(client.connected)
      ensures client.replyString == ReplyStringAfter(old(client.NextReply()), old(client.replyString))
      ensures client.workingDirectory == old(client.workingDirectory)
    {
      var disconnected := client.Disconnect();
      warned := disconnected.Fail?;
    }

    /** Whether the connection still answers a `noop`; never raises. */
    method IsOpen() returns (open: bool)
      modifies client
      ensures client.trace == old(client.trace) + [Noop]
      ensures open <==> old(client.NextReply()).Completed?
      ensures !old(client.connected) ==> !open
      ensures client.replyString == ReplyStringAfter(old(client.NextReply()), old(client.replyString))
      ensures client.workingDirectory == old(client.workingDirectory)
      ensures client.connected == old(client.connected)
    {
      var probe := client.Noop();
      open := probe.Ok?;
    }

    /** Deletes whatever is at `pathTo`, ignoring the result, then renames
        `pathFrom` to `pathTo`. Neither path is checked. */
    method Rename(pathFrom: Option<string>, pathTo: Option<string>) returns (r: Outcome<()>)
      modifies client
      ensures old(client.NextReply()).Dropped? ==>
        r == Fail(Transport(old(client.NextReply()).cause))
        && client.trace == old(client.trace) + [DeleteFile(pathTo)]
        && client.replyString == old(client.replyString)
      ensures old(client.NextReply()).Completed? ==>
        client.trace == old(client.trace) + [DeleteFile(pathTo), Call.Rename(pathFrom, pathTo)]
      ensures old(client.NextReply()).Completed? ==>
        var renamed := old(client.ReplyAt(|client.trace| + 1));
        && (r.Ok? <==> Positive(renamed))
        && (renamed.Dropped? ==> r == Fail(Transport(renamed.cause)))
        && (Negative(renamed) ==>
              r.Fail? && r.error.IOFailure? && client.replyString == renamed.text
              && Contains(r.error.message, Show(pathFrom)) && Contains(r.error.message, Show(pathTo))
              && Contains(r.error.message, client.replyString))
        && client.replyString == ReplyStringAfter(renamed, old(client.NextReply()).text)
      ensures client.workingDirectory == old(client.workingDirectory)
      ensures client.connected == old(client.connected)
    {
      var deleted := client.DeleteFile(pathTo);
      if deleted.Fail? {
        return Fail(deleted.error);
      }
      var completed := client.Rename(pathFrom, pathTo);
      if completed.Fail? {
        return Fail(completed.error);
      }
      if !completed.value {
        return Fail(IOFailure(RenameFailed(pathFrom, pathTo, client.replyString)));
      }
      return Ok(());
    }

    /** Creates every directory on `remoteDirectory`, one cumulative prefix at
        a time, for the segments of the path with blank ones dropped. A
        `false` from the client (the directory exists, or cannot be made) is
        ignored; only an exception the client raises stops the loop, and it
        propagates. */
    method Mkdir(remoteDirectory: string) returns (r: Outcome<()>)
      modifies client
      ensures
        var dirs := Prefixes(Tokenize(remoteDirectory));
        var start := old(|client.trace|);
        var k := CompletedRun(client.server, old(client.connected), start, |dirs|);
        && (k == |dirs| ==> r == Ok(()) && client.trace == old(client.trace) + MakeDirectoryCalls(dirs))
        && (k < |dirs| ==>
              r == Fail(Transport(ReplyFrom(client.server, old(client.connected), start + k).cause))
              && client.trace == old(client.trace) + MakeDirectoryCalls(dirs[..k + 1]))
        && client.replyString == ReplyTextAfter(client.server, old(client.connected), start,
                                                if k == |dirs| then k else k + 1, old(client.replyString))
      ensures client.workingDirectory == old(client.workingDirectory)
      ensures client.connected == old(client.connected)
    {
      var directories := Tokenize(remoteDirectory);
      ghost var start, connected := |client.trace|, client.connected;
      ghost var done;
      r, done := MakeDirectories(directories);
      CompletedRunExact(client.server, connected, start, |directories|, done);
    }

    /** The loop of `mkdir`: asks for `s1/`, `s1/s2/`, ... in turn, ignoring
        every `false` and stopping at the first exception, which propagates.
        `done` counts the calls that completed. */
    method MakeDirectories(directories: seq<string>) returns (r: Outcome<()>, ghost done: nat)
      modifies client
      ensures done <= |directories|
      ensures forall j :: old(|client.trace|) <= j < old(|client.trace|) + done ==>
                ReplyFrom(client.server, old(client.connected), j).Completed?
      ensures
        var dirs := Prefixes(directories);
        var start := old(|client.trace|);
        && (done == |dirs| ==>
              r == Ok(()) && client.trace == old(client.trace) + MakeDirectoryCalls(dirs)
              && client.replyString == ReplyTextAfter(client.server, old(client.connected), start, done, old(client.replyString)))
        && (done < |dirs| ==>
              var failed := ReplyFrom(client.server, old(client.connected), start + done);
              failed.Dropped? && r == Fail(Transport(failed.cause))
              && client.trace == old(client.trace) + MakeDirectoryCalls(dirs[..done + 1])
              && client.replyString == ReplyTextAfter(client.server, old(client.connected), start, done + 1, old(client.replyString)))
      ensures client.workingDirectory == old(client.workingDirectory)
      ensures client.connected == old(client.connected)
    {
      ghost var dirs := Prefixes(directories);
      ghost var start := |client.trace|;
      ghost var before := client.replyString;
      ghost var calls: seq<Call> := [];
      ghost var text := before;
      var directory := "";
      var i := 0;
      while i < |directories|
        invariant 0 <= i <= |directories|
        invariant directory == Slashed(directories[..i])
        invariant client.trace == old(client.trace) + calls && calls == MakeDirectoryCalls(dirs[..i])
        invariant client.connected == old(client.connected)
        invariant client.workingDirectory == old(client.workingDirectory)
        invariant client.replyString == text && text == ReplyTextAfter(client.server, client.connected, start, i, before)
        invariant forall j :: start <= j < start + i ==> ReplyFrom(client.server, client.connected, j).Completed?
      {
        PrefixStep(directories, i);
        directory := directory + directories[i] + [Separator];
        ghost var reply := ReplyFrom(client.server, client.connected, start + i);
        assert client.NextReply() == reply;
        var made := client.MakeDirectory(directory);
        CallsStep(dirs, i);
        calls := calls + [MakeDirectory(dirs[i])];
        ReplyTextStep(client.server, client.connected, start, i, before);
        text := ReplyStringAfter(reply, text);
        if made.Fail? {
          return Fail(made.error), i;
        }
        assert reply.Completed?;
        i := i + 1;
      }
      assert dirs[..i] == dirs;
      return Ok(()), i;
    }

    /** Whether `path` is a directory the client can change into. The working
        directory is read first, the probe changes into `path`, and the
        original directory is restored on every way out of the probe; an
        exception from the restore replaces the probe's outcome, and an
        exception from the probe propagates after the restore. */
    method Exists(path: Option<string>) returns (r: Outcome<bool>)
      modifies client
      ensures !HasText(path) ==> r == Fail(IllegalArgument(ExistsPathRequired)) && unchanged(client)
      ensures HasText(path) && old(client.NextReply()).Dropped? ==>
        r == Fail(Transport(old(client.NextReply()).cause))
        && client.trace == old(client.trace) + [PrintWorkingDirectory]
        && client.replyString == old(client.replyString)
        && client.workingDirectory == old(client.workingDirectory)
      ensures HasText(path) && Negative(old(client.NextReply())) ==>
        r == Fail(IllegalState(WorkingDirectoryUnknown))
        && client.trace == old(client.trace) + [PrintWorkingDirectory]
        && client.replyString == old(client.NextReply()).text
        && client.workingDirectory == old(client.workingDirectory)
      ensures HasText(path) && Positive(old(client.NextReply())) ==>
        var original := old(client.workingDirectory);
        var probe := old(client.ReplyAt(|client.trace| + 1));
        var restore := old(client.ReplyAt(|client.trace| + 2));
        && client.trace == old(client.trace)
             + [PrintWorkingDirectory, ChangeWorkingDirectory(path.value), ChangeWorkingDirectory(original)]
        && client.trace[|client.trace| - 1] == ChangeWorkingDirectory(original)
        && (restore.Dropped? ==> r == Fail(Transport(restore.cause)))
        && (restore.Completed? && probe.Dropped? ==> r == Fail(Transport(probe.cause)))
        && (restore.Completed? && probe.Completed? ==> r == Ok(probe.positive))
        && (Positive(restore) ==> client.workingDirectory == original)
        && (!Positive(restore) ==>
              client.workingDirectory == if Positive(probe) then path.value else original)
        && client.replyString
           == ReplyStringAfter(restore, ReplyStringAfter(probe, old(client.NextReply()).text))
      ensures client.connected == old(client.connected)
    {
      if !HasText(path) {
        return Fail(IllegalArgument(ExistsPathRequired));
      }
      var currentWorkingPath := client.PrintWorkingDirectory();
      if currentWorkingPath.Fail? {
        return Fail(currentWorkingPath.error);
      }
      if currentWorkingPath.value.None? {
        return Fail(IllegalState(WorkingDirectoryUnknown));
      }
      var original := currentWorkingPath.value.value;
      var found := false;
      // try
      var probe := client.ChangeWorkingDirectory(path.value);
      if probe.Ok? && probe.value {
        found := true;
      }
      // finally
      var restore := client.ChangeWorkingDirectory(original);
      if restore.Fail? {
        return Fail(restore.error);
      }
      if probe.Fail? {
        return Fail(probe.error);
      }
      return Ok(found);
    }
  }
}
