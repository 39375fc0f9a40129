/**
 * The server (server.c): choose the port, look it up, bind a socket to the
 * first usable candidate and mark it passive with `listen`. The program
 * stops there: on success `main` returns the first byte of the port string.
 */
module Server {
  import opened Wrappers
  import opened SockCommon

  /** Limit on the connections waiting in the listen queue: octal 020. */
  const BACKLOG: int := 16

  /**
   * The server's own port choice. Unlike `GetPort`, it takes the first
   * argument only when there are at least two arguments after the
   * program name.
   */
  function ServerPort(argv: seq<CString>): (port: CString)
    ensures |argv| > 2 ==> port == argv[1]
    ensures |argv| <= 2 ==> port == DEFAULT_PORT
  {
    if |argv| > 2 then argv[1] else DEFAULT_PORT
  }

  /**
   * The server and `get_port` choose the same port exactly when the
   * command line is not a single argument, or that argument is already the
   * default: a server started with one port argument ignores it.
   */
  lemma ServerPortVersusGetPort(argv: seq<CString>)
    ensures ServerPort(argv) == GetPort(argv) <==> |argv| != 2 || argv[1] == DEFAULT_PORT
  {
  }

  /** The byte at index 0 of a C string: its terminating NUL when the string is empty. */
  function FirstByte(s: CString): (b: byte)
    ensures s != [] ==> b == s[0]
    ensures s == [] ==> b == 0
  {
    if s == [] then 0 else s[0]
  }

  /** A `char` promoted to `int`, with `char` signed as on the usual Linux targets. */
  function SignedChar(b: byte): (v: int)
    ensures -0x80 <= v < 0x80
    ensures (v - b as int) % 0x100 == 0
  {
    if b < 0x80 then b as int else b as int - 0x100
  }

  /** The value `main` returns after a successful listen: `port[0]`. */
  function SuccessReturn(port: CString): int {
    SignedChar(FirstByte(port))
  }

  /**
   * The status a successful server reports is the first byte of its port,
   * so it is not EXIT_SUCCESS unless the port string is empty; for the
   * default port it is 56, the code of '8'.
   */
  lemma SuccessStatusIsFirstPortByte(port: CString)
    ensures ExitStatus(Return(SuccessReturn(port))) == FirstByte(port) as int
    ensures port != [] ==> ExitStatus(Return(SuccessReturn(port))) != EXIT_SUCCESS
    ensures ExitStatus(Return(SuccessReturn(DEFAULT_PORT))) == 0x38
  {
  }

  /**
   * The loop of `main` that walks the candidates trying `socket` and then
   * `bind`. It does exactly what `find_connection` does with `bind` as the
   * action: its postcondition is `FindConnection`'s with the action fixed.
   * Failure is reported under the name of `bind`.
   */
  method SearchBind(results: seq<Candidate>) returns (r: Result<int, Fatal>, tried: nat, abandoned: seq<int>)
    ensures Search(r, tried, abandoned) == Establish(results, Bind, Bind.Name())
  {
    var listenfd: int := -1;  // indeterminate in C until the first socket call
    var paddr: Option<nat> := None;
    var pcnd := 0;
    abandoned := [];
    while pcnd < |results| && paddr.None?
      invariant SearchInvariant(results, Bind, pcnd, paddr, listenfd, abandoned)
    {
      var c := results[pcnd];
      listenfd := c.socketResult;
      if listenfd < 0 {
        // socket creation failed: logged, and the walk moves on
      } else if c.bindResult == 0 {
        paddr := Some(pcnd);
      } else {
        // the socket stays open: it joins the abandoned descriptors
        abandoned := abandoned + [listenfd];
      }
      assert results[..pcnd + 1][..pcnd] == results[..pcnd];
      pcnd := pcnd + 1;
    }
    tried := pcnd;
    if paddr.None? {
      assert results[..pcnd] == results;
      r := Failure(NoAddress(Bind.Name()));
    } else {
      r := Success(listenfd);
    }
  }

  /** The call `listen(fd, backlog)`. */
  datatype ListenCall = ListenCall(fd: int, backlog: int)

  /** What one run of the server does. */
  datatype ServerRun = ServerRun(
    port: CString,               // the port looked up
    tried: nat,                  // candidates on which socket was called
    abandoned: seq<int>,         // sockets left open by failed binds
    listened: Option<ListenCall>, // the listen call, if one was made
    closed: Option<int>,         // the descriptor closed before exiting, if any
    end: Termination)

  /**
   * `main` of the server. A failed lookup returns EXIT_FAILURE; a search
   * that binds no candidate exits with EXIT_FAILURE. Only after a
   * successful bind is `listen` called, on the bound socket with BACKLOG;
   * when it fails the socket is closed and the process exits with
   * EXIT_FAILURE. Otherwise `main` returns `port[0]`; the final
   * `exit(EXIT_SUCCESS)` is never reached. `listenResult` is the value
   * `listen` returns.
   */
  method Run(argv: seq<CString>, lookup: Lookup, listenResult: int) returns (run: ServerRun)
    ensures run.port == ServerPort(argv)
    ensures SelectAddresses(lookup).Failure? ==> run == ServerRun(run.port, 0, [], None, None, Return(EXIT_FAILURE))
    ensures SelectAddresses(lookup).Success? ==>
      var s := Establish(lookup.results, Bind, Bind.Name());
      && run.tried == s.tried
      && run.abandoned == s.abandoned
      && (s.outcome.Failure? ==> run.listened == None && run.closed == None && run.end == Exit(EXIT_FAILURE))
      && (s.outcome.Success? ==> run.listened == Some(ListenCall(s.outcome.value, BACKLOG)))
      && (s.outcome.Success? && listenResult < 0 ==> run.closed == Some(s.outcome.value) && run.end == Exit(EXIT_FAILURE))
      && (s.outcome.Success? && listenResult >= 0 ==> run.closed == None && run.end == Return(SuccessReturn(run.port)))
    ensures run.end != Exit(EXIT_SUCCESS)
  {
    var port := if |argv| > 2 then argv[1] else DEFAULT_PORT;
    if lookup.status != 0 {
      return ServerRun(port, 0, [], None, None, Return(EXIT_FAILURE));
    }
    var r, tried, abandoned := SearchBind(lookup.results);
    if r.Failure? {
      return ServerRun(port, tried, abandoned, None, None, Exit(EXIT_FAILURE));
    }
    var listenfd := r.value;
    var listened := Some(ListenCall(listenfd, BACKLOG));
    if listenResult < 0 {
      return ServerRun(port, tried, abandoned, listened, Some(listenfd), Exit(EXIT_FAILURE));
    }
    return ServerRun(port, tried, abandoned, listened, None, Return(if port == [] then 0 else SignedChar(port[0])));
  }
}
