/**
 * The client (client.c): choose the port, look it up, connect to the first
 * usable candidate, then send each line read from standard input to the
 * server and print the line read back, until standard input runs out.
 *
 * The session is modelled as the trace of the calls it makes. Standard
 * input is the list of lines `getline` would return before it first
 * returns a negative value; the server's side is the list of replies
 * `getline` would read from the socket, after which every read fails.
 */
module Client {
  import opened Wrappers
  import opened SockCommon

  // ---------------------------------------------------------------------
  // Connecting: the search loop written inline with `connect`
  // ---------------------------------------------------------------------

  /**
   * The loop of `main` that walks the candidates trying `socket` and then
   * `connect`. It does exactly what `find_connection` does with `connect`
   * as the action: its postcondition is `FindConnection`'s with the action
   * fixed. Failure is reported under the name of `connect`.
   */
  method SearchConnect(results: seq<Candidate>) returns (r: Result<int, Fatal>, tried: nat, abandoned: seq<int>)
    ensures Search(r, tried, abandoned) == Establish(results, Connect, Connect.Name())
  {
    var connectedfd: int := -1;  // indeterminate in C until the first socket call
    var paddr: Option<nat> := None;
    var pcnd := 0;
    abandoned := [];
    while pcnd < |results| && paddr.None?
      invariant SearchInvariant(results, Connect, pcnd, paddr, connectedfd, abandoned)
    {
      var c := results[pcnd];
      connectedfd := c.socketResult;
      if connectedfd < 0 {
        // socket creation failed: logged, and the walk moves on
      } else if c.connectResult == 0 {
        paddr := Some(pcnd);
      } else {
        // the socket stays open: it joins the abandoned descriptors
        abandoned := abandoned + [connectedfd];
      }
      assert results[..pcnd + 1][..pcnd] == results[..pcnd];
      pcnd := pcnd + 1;
    }
    tried := pcnd;
    if paddr.None? {
      assert results[..pcnd] == results;
      r := Failure(NoAddress(Connect.Name()));
    } else {
      r := Success(connectedfd);
    }
  }

  // ---------------------------------------------------------------------
  // The request/response session
  // ---------------------------------------------------------------------

  /** What one `getline` on the connected socket yields: a line, or end of stream or an error. */
  datatype Reply = Response(line: Bytes) | PeerClosed

  /** The calls the session makes, in order. A read records the value `getline` returned. */
  datatype Event =
    | StdinRead(nread: int)
    | Write(fd: int, data: Bytes)
    | SocketRead(nread: int)
    | Print(text: CString)
    | ClosedLocally

  /** The reply to the `k`-th request; once the server's replies run out, every read fails. */
  function ReplyAt(replies: seq<Reply>, k: nat): Reply {
    if k < |replies| then replies[k] else PeerClosed
  }

  /**
   * What printing a `getline` buffer with the `%s` format shows: the bytes
   * before the first NUL (`getline` ends the data it stores with one).
   */
  function UpToNul(buf: Bytes): (s: CString)
    ensures s <= buf
    ensures |s| < |buf| ==> buf[|s|] == 0
  {
    if buf == [] || buf[0] == 0 then [] else [buf[0]] + UpToNul(buf[1..])
  }

  /**
   * One pass through the loop body for the stdin line `line`. The line
   * buffer is shared by both reads: when the socket read fails, the buffer
   * still holds the request, and that is what gets printed. Only the bytes
   * before the first NUL are printed.
   */
  function Round(fd: int, line: Bytes, reply: Reply): seq<Event> {
    match reply
    case Response(back) => [StdinRead(|line|), Write(fd, line), SocketRead(|back|), Print(UpToNul(back))]
    case PeerClosed => [StdinRead(|line|), Write(fd, line), SocketRead(-1), Print(UpToNul(line))]
  }

  /** The passes through the loop body for all of `lines`, four events each. */
  function Rounds(fd: int, lines: seq<Bytes>, replies: seq<Reply>): (t: seq<Event>)
    ensures |t| == 4 * |lines|
  {
    if lines == [] then []
    else Rounds(fd, lines[..|lines| - 1], replies) + Round(fd, lines[|lines| - 1], ReplyAt(replies, |lines| - 1))
  }

  /** The whole session: every round, then the failed stdin read and the "closed locally" report. */
  function SessionTrace(fd: int, lines: seq<Bytes>, replies: seq<Reply>): seq<Event> {
    Rounds(fd, lines, replies) + [StdinRead(-1), ClosedLocally]
  }

  /**
   * The loop of `main` that reads a line from standard input, writes
   * exactly the bytes read to the socket, reads the server's reply into
   * the same buffer and prints it. Only a failed stdin read ends it;
   * afterwards the local close is reported.
   */
  method Session(connectedfd: int, lines: seq<Bytes>, replies: seq<Reply>) returns (trace: seq<Event>)
    ensures trace == SessionTrace(connectedfd, lines, replies)
  {
    var line: Bytes := [];  // the reused getline buffer
    var k := 0;               // stdin lines consumed so far
    trace := [];
    while true
      invariant 0 <= k <= |lines|
      invariant trace == Rounds(connectedfd, lines[..k], replies)
      decreases |lines| - k
    {
      // nread = getline(&line, &len, stdin)
      var nread: int;
      if k < |lines| {
        line := lines[k];
        nread := |line|;
      } else {
        nread := -1;
      }
      trace := trace + [StdinRead(nread)];
      if nread < 0 {
        break;
      }
      // write(connectedfd, line, nread)
      assert line[..nread] == line;
      trace := trace + [Write(connectedfd, line[..nread])];
      // nread = getline(&line, &len, fconnected): the result is never checked
      match ReplyAt(replies, k) {
        case Response(back) =>
          line := back;
          nread := |back|;
        case PeerClosed =>
          nread := -1;
      }
      trace := trace + [SocketRead(nread), Print(UpToNul(line))];
      assert trace == Rounds(connectedfd, lines[..k], replies) + Round(connectedfd, lines[k], ReplyAt(replies, k));
      assert lines[..k + 1][..k] == lines[..k];
      k := k + 1;
    }
    assert lines[..k] == lines;
    trace := trace + [ClosedLocally];
  }

  /** The `k`-th pass through the loop occupies events `4k` to `4k + 3`. */
  lemma {:induction false} RoundsAt(fd: int, lines: seq<Bytes>, replies: seq<Reply>, k: nat)
    requires k < |lines|
    ensures Rounds(fd, lines, replies)[4 * k .. 4 * k + 4] == Round(fd, lines[k], ReplyAt(replies, k))
  {
    var n := |lines| - 1;
    var front := Rounds(fd, lines[..n], replies);
    var last := Round(fd, lines[n], ReplyAt(replies, n));
    assert Rounds(fd, lines, replies) == front + last;
    if k < n {
      RoundsAt(fd, lines[..n], replies, k);
      assert lines[..n][k] == lines[k];
      assert (front + last)[4 * k .. 4 * k + 4] == front[4 * k .. 4 * k + 4];
    } else {
      assert (front + last)[4 * k .. 4 * k + 4] == last;
    }
  }

  /** The event at position `p` of a session, read off the round it belongs to. */
  lemma SessionEventAt(fd: int, lines: seq<Bytes>, replies: seq<Reply>, p: nat)
    requires p < |SessionTrace(fd, lines, replies)|
    ensures var t := SessionTrace(fd, lines, replies);
      var k := p / 4;
      && |t| == 4 * |lines| + 2
      && (k < |lines| ==> t[p] == Round(fd, lines[k], ReplyAt(replies, k))[p % 4])
      && (p == 4 * |lines| ==> t[p] == StdinRead(-1))
      && (p == 4 * |lines| + 1 ==> t[p] == ClosedLocally)
  {
    var k := p / 4;
    if k < |lines| {
      RoundsAt(fd, lines, replies, k);
      assert Rounds(fd, lines, replies)[p] == Rounds(fd, lines, replies)[4 * k .. 4 * k + 4][p - 4 * k];
    }
  }

  /**
   * The shape of every session: stdin reads and writes alternate, one
   * write per line read, of exactly the bytes read; each write is followed
   * by one socket read before the next stdin read; the loop ends at the
   * first negative stdin read, and "closed locally" is reported once, last.
   */
  lemma {:induction false} SessionShape(fd: int, lines: seq<Bytes>, replies: seq<Reply>)
    ensures var t := SessionTrace(fd, lines, replies);
      && |t| == 4 * |lines| + 2
      && (forall p :: 0 <= p < |t| ==> (t[p].StdinRead? <==> p % 4 == 0))
      && (forall p :: 0 <= p < |t| ==> (t[p].Write? <==> p % 4 == 1 && p < |t| - 1))
      && (forall p :: 0 <= p < |t| ==> (t[p].SocketRead? <==> p % 4 == 2))
      && (forall k :: 0 <= k < |lines| ==> t[4 * k] == StdinRead(|lines[k]|) && t[4 * k + 1] == Write(fd, lines[k]))
      && (forall p :: 0 <= p < |t| && t[p].StdinRead? ==> (t[p].nread < 0 <==> p == |t| - 2))
      && (forall p :: 0 <= p < |t| ==> (t[p].ClosedLocally? <==> p == |t| - 1))
  {
    var t := SessionTrace(fd, lines, replies);
    forall p | 0 <= p < |t|
      ensures t[p].StdinRead? <==> p % 4 == 0
      ensures t[p].Write? <==> p % 4 == 1 && p < |t| - 1
      ensures t[p].SocketRead? <==> p % 4 == 2
      ensures t[p].StdinRead? ==> (t[p].nread < 0 <==> p == |t| - 2)
      ensures t[p].ClosedLocally? <==> p == |t| - 1
    {
      SessionEventAt(fd, lines, replies, p);
    }
    forall k | 0 <= k < |lines|
      ensures t[4 * k] == StdinRead(|lines[k]|) && t[4 * k + 1] == Write(fd, lines[k])
    {
      SessionEventAt(fd, lines, replies, 4 * k);
      SessionEventAt(fd, lines, replies, 4 * k + 1);
    }
  }

  /**
   * The server's replies never end the session: whatever the server sends
   * back, even nothing at all, the session lasts as long and makes the
   * same stdin reads and the same writes.
   */
  lemma {:induction false} RepliesDoNotEndSession(fd: int, lines: seq<Bytes>, replies: seq<Reply>, others: seq<Reply>)
    ensures var t, u := SessionTrace(fd, lines, replies), SessionTrace(fd, lines, others);
      && |t| == |u|
      && (forall p :: 0 <= p < |t| && (t[p].StdinRead? || t[p].Write?) ==> u[p] == t[p])
  {
    var t, u := SessionTrace(fd, lines, replies), SessionTrace(fd, lines, others);
    forall p | 0 <= p < |t| && (t[p].StdinRead? || t[p].Write?)
      ensures u[p] == t[p]
    {
      SessionEventAt(fd, lines, replies, p);
      SessionEventAt(fd, lines, others, p);
    }
  }

  // ---------------------------------------------------------------------
  // The whole client
  // ---------------------------------------------------------------------

  /** What one run of the client does. */
  datatype ClientRun = ClientRun(
    port: CString,          // the port looked up
    tried: nat,             // candidates on which socket was called
    abandoned: seq<int>,    // sockets left open by failed connects
    trace: seq<Event>,      // the session, empty when no connection was made
    end: Termination)

  /**
   * `main` of the client. The port is the first argument when there is
   * one. A failed lookup returns EXIT_FAILURE before anything is tried; a
   * search that finds no candidate exits with EXIT_FAILURE; otherwise the
   * session runs until standard input is exhausted and the process exits
   * with EXIT_SUCCESS.
   */
  method Run(argv: seq<CString>, lookup: Lookup, lines: seq<Bytes>, replies: seq<Reply>) returns (run: ClientRun)
    ensures run.port == GetPort(argv)
    ensures SelectAddresses(lookup).Failure? ==> run == ClientRun(run.port, 0, [], [], Return(EXIT_FAILURE))
    ensures SelectAddresses(lookup).Success? ==>
      var s := Establish(lookup.results, Connect, Connect.Name());
      && run.tried == s.tried
      && run.abandoned == s.abandoned
      && (s.outcome.Failure? ==> run.trace == [] && run.end == Exit(EXIT_FAILURE))
      && (s.outcome.Success? ==> run.trace == SessionTrace(s.outcome.value, lines, replies) && run.end == Exit(EXIT_SUCCESS))
    ensures ExitStatus(run.end) == EXIT_SUCCESS <==> SelectAddresses(lookup).Success? && Establish(lookup.results, Connect, Connect.Name()).outcome.Success?
  {
    var port := if |argv| > 1 then argv[1] else DEFAULT_PORT;
    if lookup.status != 0 {
      return ClientRun(port, 0, [], [], Return(EXIT_FAILURE));
    }
    var r, tried, abandoned := SearchConnect(lookup.results);
    if r.Failure? {
      return ClientRun(port, tried, abandoned, [], Exit(EXIT_FAILURE));
    }
    var trace := Session(r.value, lines, replies);
    return ClientRun(port, tried, abandoned, trace, Exit(EXIT_SUCCESS));
  }
}
