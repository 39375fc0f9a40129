# Connection set-up of a TCP client and server, in Dafny

This project models the connection set-up of a small C socket client and
server. Both resolve a port to an ordered list of IPv4/TCP address
candidates. Each then walks that list and keeps the first candidate for
which `socket` succeeds and the role's action then returns 0. The action is
`connect` for the client and `bind` for the server. The walk is written
three times in the source:

- once generically, in `find_connection`, which takes the action as a
  function pointer;
- once inline in the client's `main`;
- once inline in the server's `main`.

The model also covers:

- the port choice (the first argument, or `"8080"`);
- the exit decisions around the lookup, the search and the server's
  `listen`;
- the client's request/response loop, as a trace of the calls it makes.

Nothing is executed. A system call becomes data: each candidate records the
values `socket`, `bind` and `connect` would return for it. The answer of
`getaddrinfo` is an input (`Lookup`), and so is the value `listen` returns.
The client's standard input and the server's replies are inputs too. A call
to `exit` becomes a `Failure` result or an `Exit` termination.

Files:

- `wrappers.dfy`: `Option` and `Result`.
- `sockcommon.dfy` (module `SockCommon`, for sockcommon.c and sockcommon.h):
  - the data model (`byte`, `Bytes` (bytes as `getline` stores them), `CString` (bytes with no NUL), `Candidate`, `Lookup`, `Action`, `Termination`);
  - `GetPort` and `SelectAddresses`;
  - the specification of a search (`FirstUsable`, `Abandoned`, `Establish`);
  - the loop `FindConnection`, proved against `Establish`;
  - lemmas for each rule of the walk.
- `client.dfy` (module `Client`): the inline connect loop `SearchConnect`,
  the session loop `Session` with its trace specification and lemmas, and
  `Run` for the client's `main`.
- `server.dfy` (module `Server`): the server's port choice, the inline bind
  loop `SearchBind`, the `listen` step and `Run` for the server's `main`.

The three loops are written out as the source writes them. Each is proved
to produce exactly `Establish(results, action, name)`, with the action fixed
to `connect` (client) or `bind` (server). So the two inline loops behave
exactly like `find_connection` with the action fixed. The search also
records the descriptors it leaves open: a socket whose `bind` or `connect`
fails is never closed.

## Behaviour as written

The model follows the code as written, including where it is surprising:

- The server takes its port from `argv[1]` only when `argc > 2`. A server
  started as `server 9090` therefore looks up `8080`.
  `Server.ServerPortVersusGetPort` states exactly when its choice differs
  from `get_port`'s.
- The loop's own logic stops only when the standard-input read fails. The
  value of the read from the socket is stored but never checked, so no
  reply, and no end of the server's stream, makes the loop stop. The client
  has no outcome for the server closing the connection; its only closing
  report is "connection closed locally". (The process can still be
  killed by a signal when it writes to a connection the server has closed;
  see "Left out".)
- The client prints a reply with the `%s` format, so only the bytes before
  the first NUL byte of the reply are printed.
- The server stops after `listen`: there is no accept loop and no
  upper-casing session. On success `main` returns `port[0]`. For the
  default port the process status is 56, not `EXIT_SUCCESS`. The
  `exit(EXIT_SUCCESS)` after that `return` is unreachable.
- A socket whose `bind` or `connect` fails is left open. The model records
  these descriptors in `abandoned`.

## Model

| member | source | states |
|---|---|---|
| `SockCommon.GetPort` | sockcommon.c:23-33 | the port is `argv[1]` exactly when `argc > 1`, otherwise the default `"8080"` |
| `SockCommon.SelectAddresses` | sockcommon.c:57-65 | a non-zero `getaddrinfo` status is a fatal failure carrying that status; status 0 yields the candidates unchanged, in resolver order |
| `SockCommon.FirstUsable` | sockcommon.c:94-116 | the index found is that of a candidate whose socket is created and whose action returns 0, and no earlier candidate has both; with no index, no candidate has both |
| `SockCommon.Abandoned` | sockcommon.c:109-115 | the descriptors left open number at most the candidates and are all valid (non-negative) descriptors |
| `SockCommon.Establish` | sockcommon.c:94-127 | a search succeeds iff some candidate is usable; then it returns the first usable candidate's descriptor, has tried exactly the candidates up to it, and has left open the sockets of the earlier candidates whose action failed; otherwise it has tried every candidate and fails naming the action |
| `SockCommon.FindConnection` | sockcommon.c:81-127 | the loop with its `pcnd && !paddr` guard returns the result, the number of candidates tried and the descriptors left open, all as `Establish` gives them |
| `SockCommon.AbandonedAppend` | sockcommon.c:109-115 | the descriptors left open by a walk over two lists in turn are those of the first list followed by those of the second |
| `SockCommon.AbandonedGrows` | sockcommon.c:109-115 | the descriptors left open after looking at i candidates are a prefix of those after j >= i candidates: the set only grows |
| `SockCommon.EmptySearchFails` | sockcommon.c:119-125 | with no candidates the search fails at once, naming the action, having tried nothing and opened nothing |
| `SockCommon.SkipUncreatedSocket` | sockcommon.c:100-107 | a candidate whose socket cannot be created is skipped: the result is that of the search over the remaining candidates, one more candidate tried, nothing more left open |
| `SockCommon.SkipFailedAction` | sockcommon.c:109-115 | a candidate whose socket is created but whose action fails is skipped, and its descriptor heads the list of descriptors left open |
| `SockCommon.TakeUsable` | sockcommon.c:109-112 | a usable head candidate ends the search: its descriptor is returned after one try, with nothing left open |
| `SockCommon.StepRule` | sockcommon.c:94-116 | for any unusable head candidate the search is the search over the rest, shifted by one try and preceded by the head's descriptor if its socket was created |
| `SockCommon.LaterCandidatesNeverTried` | sockcommon.c:94-95 | once a search succeeds, appending further candidates changes nothing: candidates after the first success are never tried |
| `SockCommon.FallbackToSecond` | sockcommon.c:94-116 | when the first of two candidates fails (either step) and the second is usable, the second's descriptor is returned after two tries and the first failure is not fatal |
| `Client.SearchConnect` | client.c:82-116 | the client's inline loop gives exactly `Establish` with `connect` as the action and "connect" as the name reported on failure, the same as `find_connection` with `connect` |
| `Client.UpToNul` | client.c:137 | what `%s` prints of the buffer is a prefix of it that contains no NUL byte and stops only at a NUL byte or at the end of the data |
| `Client.Rounds` | client.c:131-141 | every pass through the loop body contributes four calls: stdin read, write, socket read, print |
| `Client.Session` | client.c:131-145 | the session loop's trace is each round in turn, then the failed stdin read and the single "closed locally" report |
| `Client.RoundsAt` | client.c:131-141 | the calls at positions 4k to 4k+3 are the round for the k-th stdin line and the k-th reply |
| `Client.SessionEventAt` | client.c:131-145 | the session has 4n+2 calls for n lines; each position's call is the one its round puts there, and the last two are the failed stdin read and the "closed locally" report |
| `Client.SessionShape` | client.c:131-145 | stdin reads and writes alternate, one write per line read, of exactly the bytes read, and a socket read comes before the next stdin read; only the last stdin read is negative; "closed locally" is reported once, last |
| `Client.RepliesDoNotEndSession` | client.c:131-136 | the server's replies, including none at all, never change the length of the session or its stdin reads and writes: the value of the reply read is never checked |
| `Client.Run` | client.c:62-152 | the port is `get_port`'s choice; a failed lookup returns EXIT_FAILURE with nothing tried; a search with no usable candidate exits with EXIT_FAILURE and no session; otherwise the session runs to the end and the process exits with EXIT_SUCCESS; the status is EXIT_SUCCESS iff lookup and search both succeed |
| `Server.ServerPort` | server.c:51 | the server's port is `argv[1]` only when `argc > 2`, otherwise `"8080"` |
| `Server.ServerPortVersusGetPort` | server.c:51 | the server's port and `get_port`'s coincide exactly when `argc != 2` or the single argument is already the default |
| `Server.SuccessStatusIsFirstPortByte` | server.c:112-114 | the status of a successful server is the first byte of its port (its NUL terminator if the port is empty); it is not EXIT_SUCCESS for a non-empty port, and it is 56 for the default port |
| `Server.SearchBind` | server.c:68-102 | the server's inline loop gives exactly `Establish` with `bind` as the action and "bind" as the name reported on failure, the same as `find_connection` with `bind` |
| `Server.Run` | server.c:50-114 | the port is the server's own choice; a failed lookup returns EXIT_FAILURE; a search with no usable candidate exits with EXIT_FAILURE without calling `listen`; otherwise `listen` is called once, on the bound socket with backlog 16; if it fails, that socket is closed and the process exits with EXIT_FAILURE; else `main` returns `port[0]`; `exit(EXIT_SUCCESS)` is never the outcome |

## Left out

- The system and library calls themselves. For `getaddrinfo`, `socket`, `bind`, `connect`, `listen` and `getline`, only the return values are modelled, as inputs. A candidate's outcomes are fixed data, so they cannot depend on earlier calls; for example, the descriptor number `socket` hands out does not depend on descriptors leaked before it.
- The return values of `write`, `fdopen`, `fclose`, `close`, `fflush` and `freeaddrinfo` are not modelled: each call is taken to succeed. The model records two of these calls: each `write` at client.c:134 is a `Write` event of the session trace, and the server's `close(listenfd)` at server.c:108 is `ServerRun.closed`. The others leave no trace in the model. For example, `fdopen` returning NULL would break the socket read at client.c:136; the model does not capture that.
- The hints passed to `getaddrinfo` (IPv4, stream sockets, wildcard host). They shape the resolver's answer, and that answer is an input here.
- Log and report formatting on stderr and stdout (`%p`, `strerror`, `gai_strerror`, prompts, "connected to port"). The logger-name arguments of `select_addresses` and `find_connection` are only used in these messages, so they are not parameters here. The one report the client promises, "connection closed locally", is the `ClosedLocally` event.
- `argc` is taken to be the length of `argv`.
- The `getline` buffer's allocation and growth (`line` and `len` are not initialised in client.c). The model assumes two things about it. First, the first `getline` at client.c:131 works although `line` and `len` are uninitialised; in C that is undefined behaviour. Second, a failed read from the socket leaves the buffer as it was, so the request line is printed again.
- `Client.Session`: the return value of `write` is not modelled, so a short write reads as a write of all `nread` bytes. The source does not check it either.
- `Client.Session`: the process being killed by SIGPIPE is not modelled. After the server closes its end, a later `write` at client.c:134 fails with EPIPE and raises SIGPIPE, which the client does not handle. That ends the process before "connection closed locally" is reported. In the model every write is only an event, and the loop always runs until standard input is exhausted.
- `Client.Run`: for the same reason, the `Exit(EXIT_SUCCESS)` outcome assumes the process is not killed by a signal during the session.
- `Server.SignedChar`: assumes `char` is signed, as on x86-64 Linux. Where `char` is unsigned (AArch64 Linux, for one), `main` returns `port[0]` as a value from 0 to 255. The exit status the parent observes is the same byte either way (`Server.SuccessStatusIsFirstPortByte`).
- The client closes its socket twice, through `fclose(fconnected)` and then `close(connectedfd)`. These closes are not modelled.
- The accept loop, the per-client session and the upper-casing transform. server.c ends after `listen`, so there is no code for them.
- `exit` is not modelled as ending the process. It is an `Exit` termination, or a `Failure` result inside `find_connection`.
- `SockCommon.Abandoned`: its own contract states only a bound and non-negativity. What it contains is stated by `AbandonedAppend`, `SkipFailedAction` and `SkipUncreatedSocket`.
