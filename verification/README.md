# dockerui cluster router — a Dafny model

dockerui puts one HTTP front door in front of a fleet of Docker hosts. It
proxies `/localdockerapi` to the local Docker daemon over a unix socket or
TCP. It discovers sibling hosts through memberlist gossip and lists them at
`/endpoints`. It forwards `/dockerapi/{name}` to the named peer's own front
door. This project models the sequential decision logic of that router in
Dafny:

- `Router` holds the routing state: the endpoint set and the table
  `Server.Urls`, which maps a node name to a handler. A handler is
  represented by its proxy target URL, and `None` stands for Go's nil. The
  module covers how `NodesUpdater` seeds the state and folds membership
  events into it, `Destroy` (the write side of the table) and `ProxyCall`
  (the read side).
- `Endpoints` models the endpoint set (`EndpointsSet`) with its idempotent
  `Add` and `Remove`, `ToSlice`, seeding from the comma-separated `-n`
  flag, and the `/endpoints` listing, which hides loopback.
- `Headers` models `Header.Add` and `copyHeader`, the merge that appends
  values and never overwrites.
- `Handlers` models the `createHandler` selection between the TCP reverse
  proxy and the unix-socket handler, and the reply `UnixHandler.ServeHTTP`
  gives for each outcome of its socket exchange.
- `Text` models the Go `strings` functions these rely on (`Split`,
  `Contains`), each specified independently of how it is computed.
- `Wrappers` holds `Option`.

Sockets, HTTP serving, gorilla/mux and memberlist are abstracted away:

- A membership event is a plain value.
- The event channel is a `seq<NodeEvent>`.
- The result of `os.Stat` and the result of `url.Parse` (success or its error text) are inputs.
- The outcome of the exchange with the unix socket is an input.

Behaviour of the code as written that a reader of its routes and flags
might not expect. The model follows the code.
`Handlers.ServeUnixRelayingStatus` and `Handlers.RelayedStatus` are the
corrected members. They sit beside the as-written `Handlers.ServeUnix` and
`Handlers.AsWrittenStatus`:

- Every membership event that is not `NodeJoin` goes to the leave branch.
  That includes `NodeUpdate`, so a metadata update removes a live peer's
  route (`Router.UpdateDropsRoute`).
- A leave removes the address from the endpoint set even when another name
  joined from the same address (`Router.SharedAddressLeave`).
- The TCP proxy is chosen when the endpoint string contains `"http"`
  anywhere, not only when it begins with a scheme. A socket path such as
  `/run/http.sock` therefore gets the TCP proxy
  (`Handlers.HttpAnywhereSelectsTcp`).
- The listing slice starts out nil. When no address other than loopback is
  present, `/endpoints` answers `null` rather than an empty JSON array
  (`Endpoints.ListingBody`, `Endpoints.DefaultListing`).
- A request for an unknown or departed name invokes nothing
  (`Router.ProxyCall`).
- The unix-socket handler does not relay the backend's status; every
  answer reaches the client as 200 (`Handlers.ServeUnix`). See Findings.

## Model

| member | source | states |
|---|---|---|
| Text.Split | dockerui.go:191 | `strings.Split` on one character gives at least one piece; no piece holds the separator; joining the pieces with the separator gives back the input; a string without the separator splits into itself alone |
| Text.SplitJoin | dockerui.go:191 | splitting a join of separator-free parts gives back exactly those parts (the round trip in the other direction) |
| Text.Contains | dockerui.go:94 | `strings.Contains` holds exactly when the substring occurs at some position of the string |
| Endpoints.Add | dockerui.go:204 | after insertion the address is a member, no other membership changes, and inserting a member changes nothing |
| Endpoints.Remove | dockerui.go:209 | after removal the address is not a member, no other membership changes, and removing a non-member changes nothing |
| Endpoints.FromList | dockerui.go:191 | the set built from a list has exactly the list's elements as members and is no larger than the list |
| Endpoints.Seed | dockerui.go:191 | the seed set's members are exactly the pieces of the comma-split node list |
| Endpoints.DefaultSeedIsLoopback | dockerui.go:22 | with the default node list the seed set is `{"127.0.0.1"}` |
| Endpoints.ToSlice | dockerui.go:192 | the slice handed to the join holds every member of the set once and nothing else |
| Endpoints.Listing | dockerui.go:139-145 | the listed addresses are exactly the members other than `127.0.0.1`, with no repeats, and their number is the size of that set |
| Endpoints.ListingBody | dockerui.go:139-154 | the body is `null` exactly when the set holds nothing besides loopback; otherwise it is a non-empty, repeat-free array of the non-loopback members |
| Endpoints.DefaultListing | dockerui.go:139-154 | with the default seed, `/endpoints` answers `null` |
| Headers.Add | dockerui.go:72 | `Header.Add` appends the value to the key's list, creating the key if needed, and no other key changes |
| Headers.AddValues | dockerui.go:71-73 | adding a list of values to one key appends them in order; the key exists afterwards exactly when it did before or the list is non-empty; other keys are untouched |
| Headers.CopyHeader | dockerui.go:69-75 | every key ends with its old values followed by the source's values in order; a key is present exactly when it was before or the source gives it values; keys absent from the source are untouched; an empty source leaves the header unchanged |
| Handlers.CreateHandler | dockerui.go:89-107 | the TCP proxy is chosen exactly when `"http"` occurs somewhere in the endpoint and the URL parses; the socket handler is chosen exactly when it does not occur and the path exists; the chosen handler targets the endpoint string; a missing socket path is fatal with the "does not exist" message, and a URL that does not parse is fatal with the parse error's text |
| Handlers.HttpAnywhereSelectsTcp | dockerui.go:94-95 | any endpoint with `"http"` inside it whose URL parses gets the TCP proxy, whatever the socket check would say |
| Handlers.DefaultSocketSelection | dockerui.go:97-103 | `/var/run/docker.sock` gets the socket handler when the path exists and is fatal when it does not |
| Handlers.AsWrittenStatus | dockerui.go:45-67 | as written: a failed dial or exchange gives 500, and any answer reaches the client with status 200 |
| Handlers.StatusLostIff | dockerui.go:63-66 | for every exchange, the as-written status differs from the relayed one exactly when the backend answered with a status other than 200 |
| Handlers.RelayedStatus | dockerui.go:45-67 | corrected: a failure gives 500, and an answer keeps the backend's status |
| Handlers.ServeUnix | dockerui.go:45-67 | as written: a failed dial or exchange gives 500 with an empty body and the header untouched; an answer's headers are appended to the response header key by key, its body passes through unchanged, and its status reaches the client as 200 whatever the backend sent |
| Handlers.ServeUnixRelayingStatus | dockerui.go:45-67 | corrected: the same reply as the as-written handler, except that an answer keeps the backend's status |
| Router.ListenPort | dockerui.go:205 | the port exists exactly when the listen address has a `:`; it is the text after the first `:` up to the next `:` or the end, and it holds no `:` |
| Router.DefaultListenPort | dockerui.go:21 | the default listen address `:9000` gives the port `9000` |
| Router.Step | dockerui.go:200-211 | in the model, the event loop dies only on a join with no port in the listen address. A join adds the address and routes the name to `http://<addr>:<port>/dockerapi/local`. Any other event removes the address and sets the name's entry to nil. Only that name's entry and that address's membership change |
| Router.Run | dockerui.go:198-214 | the event loop folds the events in order with `Step` and yields nothing once a join kills it; the table never loses a name, its names being those it started with and those of the events |
| Router.Initial | dockerui.go:191 | the loop starts with the seed set's members being the comma-split node list, and an empty table (the empty table is the `make` in `main`, dockerui.go:227) |
| Router.Destroy | dockerui.go:170-172 | the name's entry becomes nil; every other entry is unchanged |
| Router.ProxyCall | dockerui.go:174-178 | a handler is invoked exactly when the name has a non-nil entry, and it is that entry |
| Router.DestroyThenProxyCall | dockerui.go:170-178 | after `Destroy(n)`, a call for `n` invokes nothing |
| Router.RunFailsIff | dockerui.go:198-211 | in the model, a sequence of events kills the loop exactly when the listen address has no `:` and some event is a join |
| Router.RunRoutesByLastEvent | dockerui.go:198-211 | after any sequence of events the loop survives (the listen address has a `:`, or no event is a join), a call for a name goes to the target of the last event about that name if it was a join, nowhere if it was not, and where it went at the start if no event was about it |
| Router.RunEndpointsByLastEvent | dockerui.go:198-211 | after any sequence of events the loop survives (the listen address has a `:`, or no event is a join), an address is a member exactly when the last event about it was a join, or, if none was, when it was a member at the start |
| Router.PeerTargetShape | dockerui.go:205 | every installed target starts with `http://` and ends with `/dockerapi/local` |
| Router.RunKeepsTargetsWellFormed | dockerui.go:198-211 | starting from the empty table, whenever the loop survives the events (the listen address has a `:`, or no event is a join), every non-nil entry is a target of that shape |
| Router.JoinThenLeave | dockerui.go:200-211 | after a join, a call for the peer goes to its target; after the matching leave it goes nowhere and the address is gone |
| Router.SharedAddressLeave | dockerui.go:204-210 | when two names joined from one address and one leaves, the address is gone but the other name still routes |
| Router.RepeatedJoinOverwrites | dockerui.go:205 | a second join under a name replaces its target with one built from the new address |
| Router.UpdateDropsRoute | dockerui.go:201-211 | an update event after a join removes the route and the address, like a leave |

## Left out

- HTTP serving, gorilla/mux routing and the static file server (`Start`, `InitDispatch` wiring): library plumbing, with no decision logic beyond the path table.
- The reverse proxy itself (`httputil.NewSingleHostReverseProxy`): a handler is represented only by its target string. The result of `url.Parse` is an input to `Handlers.CreateHandler`. The join branch assumes the peer URL parses, so the fatal exit that `createTcpHandler` would cause there is not modelled.
- Unix-socket dial, request framing, response reading and `io.Copy`: I/O. Their outcome is the `Exchange` input. A body copy that fails part-way is represented by the bytes actually delivered.
- Creating memberlist and joining the cluster: both panics there are fatal startup paths, and a successful join is assumed. The event channel is a `seq<NodeEvent>`.
- Concurrency: the background goroutine and the unsynchronised accesses to the map and the set. The model is sequential, so race-freedom is not stated.
- `json.Marshal` string escaping, `Content-Length`, `Content-Type` and logging. The listing body is modelled only as `null` or an array of strings.
- Flag parsing and `main`: flag values are parameters. Only the defaults `-n 127.0.0.1`, `-p :9000` and `-e /var/run/docker.sock` appear as constants.
- Canonicalisation of header keys inside `Header.Add`: keys are taken as already canonical.
- The generated `EndpointsSet` code is not part of this model. It is modelled as `set<string>` with idempotent add and remove.
- Router.Step and Router.RunFailsIff: a join whose peer URL `url.Parse` rejects is not a way to die in the model. One example is a listen port given by name, as in `-p :http`. In the program `createTcpHandler` then calls `log.Fatal` (dockerui.go:78-80). The model assumes the peer URL parses: the join's URL is never given to a parse result.
- The startup ordering between `http.ListenAndServe` failing on a listen address without a port and the event loop dying on its first join is not modelled. Only the loop's panic is (`Router.Step` returns `None`).

## Findings

| source | as written | input that shows it | evidently intended | confidence | as-written member | corrected member |
|---|---|---|---|---|---|---|
| dockerui.go:63-66 | the handler copies the backend's headers and body but never calls `WriteHeader` with the backend's status, so net/http sends its implicit 200 | the backend answers 201 Created (or 404, or 500) | the client sees the backend's own status | high; not executed | Handlers.ServeUnix and Handlers.AsWrittenStatus (with Handlers.StatusLostIff) | Handlers.ServeUnixRelayingStatus and Handlers.RelayedStatus |
