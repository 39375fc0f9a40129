/**
 * The socket helpers shared by the client and the server (sockcommon.c and
 * sockcommon.h): the port choice, the address lookup and the search for the
 * first address candidate that can be turned into a working socket.
 *
 * System calls are not executed. Each address candidate carries, as data,
 * the values `socket`, `bind` and `connect` would return for it, and the
 * answer of `getaddrinfo` is an input. A call to `exit(EXIT_FAILURE)`
 * becomes a `Failure` result.
 */
module SockCommon {
  import opened Wrappers

  /** A C `char` as stored in memory. */
  newtype byte = x: int | 0 <= x < 0x100

  /** Bytes as `getline` stores them: a NUL byte may occur anywhere. */
  type Bytes = seq<byte>

  /** No byte of `s` is NUL. */
  predicate NoNul(s: Bytes) {
    forall i :: 0 <= i < |s| ==> s[i] != 0
  }

  /** A NUL-terminated C string, without its terminator: none of its bytes is NUL. */
  type CString = s: Bytes | NoNul(s)

  const EXIT_SUCCESS: int := 0
  const EXIT_FAILURE: int := 1

  /** How a process ends: `main` returns a value, or `exit` is called with a status. */
  datatype Termination = Return(value: int) | Exit(status: int)

  /** The status the parent process observes: the low eight bits of the value. */
  function ExitStatus(t: Termination): (status: int)
    ensures 0 <= status < 0x100
    ensures t.Return? ==> (status - t.value) % 0x100 == 0
    ensures t.Exit? ==> (status - t.status) % 0x100 == 0
  {
    match t
    case Return(v) => v % 0x100
    case Exit(s) => s % 0x100
  }

  /** The port used when none is given on the command line: "8080". */
  const DEFAULT_PORT: CString := [0x38, 0x30, 0x38, 0x30]

  /**
   * `get_port`: the first command-line argument when there is one, the
   * default port otherwise. `argc` is the length of `argv`, whose first
   * entry is the program name.
   */
  function GetPort(argv: seq<CString>): (port: CString)
    ensures |argv| > 1 ==> port == argv[1]
    ensures |argv| <= 1 ==> port == DEFAULT_PORT
  {
    if |argv| > 1 then argv[1] else DEFAULT_PORT
  }

  /**
   * One address candidate produced by `getaddrinfo`, seen through the
   * results of the calls made on it: `socket` (a descriptor, or a negative
   * value on failure), `bind` and `connect` (0 on success).
   */
  datatype Candidate = Candidate(socketResult: int, bindResult: int, connectResult: int)

  /** What `getaddrinfo` answers: its status and, on status 0, the candidates in resolver order. */
  datatype Lookup = Lookup(status: int, results: seq<Candidate>)

  /** The function `find_connection` applies to a created socket: `bind` or `connect`. */
  datatype Action = Bind | Connect {
    /** The name under which the action is reported. */
    function Name(): string {
      match this
      case Bind => "bind"
      case Connect => "connect"
    }
  }

  /** The value `action` returns on the socket created for `c`. */
  function ActionResult(c: Candidate, action: Action): int {
    match action
    case Bind => c.bindResult
    case Connect => c.connectResult
  }

  /** The socket call for `c` succeeds: it does not return a negative value. */
  predicate SocketCreated(c: Candidate) {
    c.socketResult >= 0
  }

  /** Both steps succeed for `c`: the socket is created and the action returns 0. */
  predicate Usable(c: Candidate, action: Action) {
    SocketCreated(c) && ActionResult(c, action) == 0
  }

  /** Why a process gives up: the lookup failed, or no candidate could be used. */
  datatype Fatal = LookupFailed(status: int) | NoAddress(actionName: string)

  /**
   * `select_addresses`: a non-zero `getaddrinfo` status is fatal; otherwise
   * the candidates come back as the resolver ordered them.
   */
  function SelectAddresses(lookup: Lookup): (r: Result<seq<Candidate>, Fatal>)
    ensures r.Failure? <==> lookup.status != 0
    ensures r.Failure? ==> r.error == LookupFailed(lookup.status)
    ensures r.Success? ==> r.value == lookup.results
  {
    if lookup.status != 0 then Failure(LookupFailed(lookup.status)) else Success(lookup.results)
  }

  // ---------------------------------------------------------------------
  // Specification of the candidate search
  // ---------------------------------------------------------------------

  /** The index of the first usable candidate, if any. */
  function FirstUsable(cs: seq<Candidate>, action: Action): (r: Option<nat>)
    ensures r.Some? ==> r.value < |cs| && Usable(cs[r.value], action)
    ensures r.Some? ==> forall j :: 0 <= j < r.value ==> !Usable(cs[j], action)
    ensures r.None? ==> forall j :: 0 <= j < |cs| ==> !Usable(cs[j], action)
  {
    if cs == [] then None
    else if Usable(cs[0], action) then Some(0)
    else
      match FirstUsable(cs[1..], action)
      case None => None
      case Some(i) => Some(i + 1)
  }

  /**
   * The descriptors of the sockets that were created for candidates in
   * `cs` whose action then failed, in the order they were opened. None of
   * them is ever closed.
   */
  function Abandoned(cs: seq<Candidate>, action: Action): (fds: seq<int>)
    ensures |fds| <= |cs|
    ensures forall k :: 0 <= k < |fds| ==> fds[k] >= 0
  {
    if cs == [] then []
    else
      var last := cs[|cs| - 1];
      Abandoned(cs[..|cs| - 1], action)
        + (if SocketCreated(last) && !Usable(last, action) then [last.socketResult] else [])
  }

  /**
   * The observable effect of one search: the descriptor found (or the
   * fatal error), how many candidates were tried, and the descriptors left
   * open behind.
   */
  datatype Search = Search(outcome: Result<int, Fatal>, tried: nat, abandoned: seq<int>)

  /**
   * What a search over `cs` with `action` does, where `name` is the name
   * reported when no candidate is usable.
   */
  function Establish(cs: seq<Candidate>, action: Action, name: string): (s: Search)
    ensures s.tried <= |cs|
    ensures s.outcome.Success? ==>
      && 1 <= s.tried
      && Usable(cs[s.tried - 1], action)
      && s.outcome.value == cs[s.tried - 1].socketResult
      && (forall j :: 0 <= j < s.tried - 1 ==> !Usable(cs[j], action))
      && s.abandoned == Abandoned(cs[..s.tried - 1], action)
    ensures s.outcome.Failure? ==>
      && s.tried == |cs|
      && s.outcome.error == NoAddress(name)
      && (forall j :: 0 <= j < |cs| ==> !Usable(cs[j], action))
      && s.abandoned == Abandoned(cs, action)
  {
    match FirstUsable(cs, action)
    case Some(i) => Search(Success(cs[i].socketResult), i + 1, Abandoned(cs[..i], action))
    case None => Search(Failure(NoAddress(name)), |cs|, Abandoned(cs, action))
  }

  // ---------------------------------------------------------------------
  // The search loop, as written in find_connection
  // ---------------------------------------------------------------------

  /**
   * The state of a search loop after it has looked at the first `pcnd`
   * candidates: `paddr` is the index of the candidate found, if any, and
   * `fd` the last value `socket` returned.
   */
  ghost predicate SearchInvariant(cs: seq<Candidate>, action: Action, pcnd: int,
                                  paddr: Option<nat>, fd: int, abandoned: seq<int>)
  {
    && 0 <= pcnd <= |cs|
    && (paddr.None? ==>
         && (forall j :: 0 <= j < pcnd ==> !Usable(cs[j], action))
         && abandoned == Abandoned(cs[..pcnd], action))
    && (paddr.Some? ==>
         && paddr.value + 1 == pcnd
         && FirstUsable(cs, action) == Some(paddr.value)
         && fd == cs[paddr.value].socketResult
         && abandoned == Abandoned(cs[..paddr.value], action))
  }

  /**
   * `find_connection`: walks the candidates in order until one is found for
   * which `socket` succeeds and then `getAddr` returns 0, and returns that
   * socket. A candidate whose socket cannot be created is skipped; a socket
   * whose action fails is left open and the walk goes on. When the
   * candidates run out the process exits with failure, naming `getAddrName`.
   */
  method FindConnection(results: seq<Candidate>, getAddr: Action, getAddrName: string)
    returns (r: Result<int, Fatal>, tried: nat, abandoned: seq<int>)
    ensures Search(r, tried, abandoned) == Establish(results, getAddr, getAddrName)
  {
    var connectedfd: int := -1;  // indeterminate in C until the first socket call
    var paddr: Option<nat> := None;
    var pcnd := 0;
    abandoned := [];
    while pcnd < |results| && paddr.None?
      invariant SearchInvariant(results, getAddr, pcnd, paddr, connectedfd, abandoned)
    {
      var c := results[pcnd];
      connectedfd := c.socketResult;
      if connectedfd < 0 {
        // socket creation failed: logged, and the walk moves on
      } else if ActionResult(c, getAddr) == 0 {
        paddr := Some(pcnd);
      } else {
        // the socket stays open: it joins the abandoned descriptors
        abandoned := abandoned + [connectedfd];
      }
      assert results[..pcnd + 1][..pcnd] == results[..pcnd];
      pcnd := pcnd + 1;
    }
    tried := pcnd;
    if paddr.None? {
      assert results[..pcnd] == results;
      r := Failure(NoAddress(getAddrName));
    } else {
      r := Success(connectedfd);
    }
  }

  // ---------------------------------------------------------------------
  // Properties of the search
  // ---------------------------------------------------------------------

  /** Abandoned distributes over concatenation. */
  lemma {:induction false} AbandonedAppend(xs: seq<Candidate>, ys: seq<Candidate>, action: Action)
    ensures Abandoned(xs + ys, action) == Abandoned(xs, action) + Abandoned(ys, action)
    decreases |ys|
  {
    if ys == [] {
      assert xs + ys == xs;
    } else {
      var n := |ys| - 1;
      assert (xs + ys)[..|xs + ys| - 1] == xs + ys[..n];
      AbandonedAppend(xs, ys[..n], action);
    }
  }

  /** The abandoned descriptors only grow as the walk goes on: an earlier set is a prefix of a later one. */
  lemma {:induction false} AbandonedGrows(cs: seq<Candidate>, action: Action, i: nat, j: nat)
    requires i <= j <= |cs|
    ensures Abandoned(cs[..i], action) <= Abandoned(cs[..j], action)
  {
    assert cs[..j] == cs[..i] + cs[i..j];
    AbandonedAppend(cs[..i], cs[i..j], action);
  }

  /** No candidate: the search fails at once, naming the action, and nothing is opened. */
  lemma EmptySearchFails(action: Action, name: string)
    ensures Establish([], action, name) == Search(Failure(NoAddress(name)), 0, [])
  {
  }

  /** A candidate whose socket cannot be created is skipped: the search goes on with the next one. */
  lemma {:induction false} SkipUncreatedSocket(c: Candidate, cs: seq<Candidate>, action: Action, name: string)
    requires !SocketCreated(c)
    ensures var rest := Establish(cs, action, name);
      Establish([c] + cs, action, name) == Search(rest.outcome, rest.tried + 1, rest.abandoned)
  {
    StepRule(c, cs, action, name);
  }

  /**
   * A candidate whose socket is created but whose action fails is skipped,
   * and its descriptor is the first one left open.
   */
  lemma {:induction false} SkipFailedAction(c: Candidate, cs: seq<Candidate>, action: Action, name: string)
    requires SocketCreated(c) && ActionResult(c, action) != 0
    ensures var rest := Establish(cs, action, name);
      Establish([c] + cs, action, name) == Search(rest.outcome, rest.tried + 1, [c.socketResult] + rest.abandoned)
  {
    StepRule(c, cs, action, name);
  }

  /** A usable candidate ends the search at once: its descriptor is returned and nothing was left open. */
  lemma TakeUsable(c: Candidate, cs: seq<Candidate>, action: Action, name: string)
    requires Usable(c, action)
    ensures Establish([c] + cs, action, name) == Search(Success(c.socketResult), 1, [])
  {
    assert ([c] + cs)[0] == c;
  }

  /** One step of the walk: what the head candidate contributes, followed by the search over the rest. */
  lemma {:induction false} StepRule(c: Candidate, cs: seq<Candidate>, action: Action, name: string)
    requires !Usable(c, action)
    ensures var rest := Establish(cs, action, name);
      var created := if SocketCreated(c) then [c.socketResult] else [];
      Establish([c] + cs, action, name) == Search(rest.outcome, rest.tried + 1, created + rest.abandoned)
  {
    var all := [c] + cs;
    assert all[1..] == cs;
    var rest := Establish(cs, action, name);
    assert Abandoned([c], action) == (if SocketCreated(c) then [c.socketResult] else []) by {
      assert [c][..0] == [];
    }
    match FirstUsable(cs, action)
    case None =>
      assert FirstUsable(all, action) == None;
      AbandonedAppend([c], cs, action);
    case Some(i) =>
      assert FirstUsable(all, action) == Some(i + 1);
      assert all[..i + 1] == [c] + cs[..i];
      AbandonedAppend([c], cs[..i], action);
  }

  /**
   * Candidates after the first usable one are never tried: appending any
   * further candidates changes nothing about a search that succeeds.
   */
  lemma {:induction false} LaterCandidatesNeverTried(cs: seq<Candidate>, more: seq<Candidate>, action: Action, name: string)
    requires Establish(cs, action, name).outcome.Success?
    ensures Establish(cs + more, action, name) == Establish(cs, action, name)
  {
    var i := FirstUsable(cs, action).value;
    var all := cs + more;
    assert all[i] == cs[i];
    assert forall j :: 0 <= j < i ==> all[j] == cs[j];
    assert FirstUsable(all, action) == Some(i);
    assert all[..i] == cs[..i];
  }

  /**
   * The fallback case: when the first candidate fails (at socket creation
   * or at the action) and the second is usable, the search returns the
   * second candidate's socket and the first failure is not fatal.
   */
  lemma {:induction false} FallbackToSecond(first: Candidate, second: Candidate, action: Action, name: string)
    requires !Usable(first, action) && Usable(second, action)
    ensures Establish([first, second], action, name).outcome == Success(second.socketResult)
    ensures Establish([first, second], action, name).tried == 2
  {
    assert [first, second] == [first] + [second];
    StepRule(first, [second], action, name);
    TakeUsable(second, [], action, name);
    assert [second] + [] == [second];
  }
}
