# bull-board-simple, modelled in Dafny

bull-board-simple is a launcher for a queue-monitoring dashboard. At startup
it reads `QUEUES` (a space-separated list of queue names) and `PASSWORD`.
It stops when `QUEUES` is missing or empty. Otherwise it makes one queue handle per
name and registers them with the dashboard. It then serves the panel under
`/ui` behind a login form that accepts the single account `admin` with the
configured password.

The launcher writes very little logic of its own. This model covers all of it:

- `Text`: the two JavaScript string primitives the queue list is built
  from. `SplitOnSpace` is `s.split(' ')`, with `JoinWithSpace` as its
  inverse. `Trim` is `s.trim()`, over the ECMAScript whitespace and
  line-terminator code points.
- `QueueConfig`: the `QUEUES` guard, the parse
  `split(' ').map(trim).filter(t => t !== '')`, the `PASSWORD || '123456'`
  default, and `LoadConfig`, which combines the three.
- `Dashboard`: one queue handle per parsed name, and `Boot`, which runs from
  the environment to the registered queues.
- `Auth`: the local strategy's verify callback, and an abstract session
  (`Anonymous` or `Authenticated`). It says what each login, panel request
  or session expiry leads to: `/ui` after a correct login, `/ui/login`
  after a failed one or for a panel request without a login. The
  session-store and redirect middleware are not modelled. Only the outcome
  the launcher configures them for is.

Five behaviours of the code worth pinning down:

- A whitespace-only `QUEUES` (for example `"  "`) passes the guard, because
  only an unset or empty value stops startup. It yields an empty queue list,
  and startup goes on (`BlankQueuesStartEmpty`). The model does not refuse
  to start when zero names are parsed.
- Duplicate names are kept: `"a a"` gives two handles named `a`
  (`ParseKeepsDuplicates`). The handle count is the number of non-blank
  pieces, not the number of distinct ones.
- The guard's `return` ends the module's evaluation, so nothing after it
  runs. The model treats it as a clean stop (`Err(MissingQueues)`).
- The store host, port and password are fixed in the code, not read from the
  environment. The key prefix is never applied, because the line that
  would pass it is commented out. The model claims no prefix.
- Password comparison is plain string equality, as in the code, with no
  constant-time comparison and no attempt limit.

## Model

| member | source | states |
|---|---|---|
| Text.SplitOnSpace | index.js:19 | `split(' ')` gives one more piece than there are spaces, and no piece contains a space |
| Text.JoinSplit | index.js:19 | joining the pieces of `split(' ')` with single spaces gives back the original string, so nothing is lost or reordered |
| Text.SplitJoin | index.js:19 | splitting undoes joining for space-free pieces, so the split is a bijection onto non-empty space-free piece lists |
| Text.SplitAppend | index.js:19 | `(a + ' ' + b).split(' ')` is the pieces of `a` followed by the pieces of `b` |
| Text.SplitNoSpace | index.js:19 | a string without a space splits into itself alone |
| Text.AllWhitespaceJoin | index.js:19 | a joined string is all whitespace exactly when every piece is |
| Text.TrimStart | index.js:19 | what is left is a suffix that does not start with whitespace, and everything cut off is whitespace |
| Text.TrimEnd | index.js:19 | what is left is a prefix that does not end with whitespace, and everything cut off is whitespace |
| Text.Trim | index.js:19 | `trim()` neither starts nor ends with whitespace, and is empty exactly when the input is all whitespace |
| Text.TrimIsSlice | index.js:19 | `trim()` is the slice of its input between a whitespace prefix and a whitespace suffix |
| Text.TrimUnchanged | index.js:19 | trimming leaves a string alone when its first and last characters are not whitespace |
| QueueConfig.TrimEach | index.js:19 | `map(t => t.trim())` keeps one entry per piece, and entry `k` is piece `k` trimmed |
| QueueConfig.TrimEachAppend | index.js:19 | the trimming map distributes over concatenation, so it keeps order |
| QueueConfig.DropEmpty | index.js:19 | `filter(t => t !== '')` keeps exactly the non-empty tokens, and its length is the token count minus the number of empty tokens |
| QueueConfig.DropEmptySingle | index.js:19 | the filter keeps a single token exactly when it is not the empty string |
| QueueConfig.DropEmptyAppend | index.js:19 | the filter distributes over concatenation, so it keeps order |
| QueueConfig.NamesWellFormed | index.js:19 | every name kept from space-free pieces is non-empty, contains no space, and has no leading or trailing whitespace |
| QueueConfig.NamesCount | index.js:19 | exactly one name is kept per piece that is not blank |
| QueueConfig.TrimmedPieceIsName | index.js:19 | a space-free piece that is not blank trims to a well-formed name |
| QueueConfig.ParseQueueNames | index.js:19 | every parsed name is non-empty, space-free and not padded, and there is exactly one name per non-blank space-separated piece |
| QueueConfig.ParseAppend | index.js:19 | parsing `a + ' ' + b` gives the names of `a` followed by those of `b`, so order is kept |
| QueueConfig.ParseOnePiece | index.js:19 | a space-free piece gives its trimmed self, or nothing if it is blank |
| QueueConfig.ParseName | index.js:19 | a well-formed name parses to itself alone |
| QueueConfig.ParseTwoNames | index.js:19 | two well-formed names separated by a space parse to those two names, in order |
| QueueConfig.ParseKeepsDuplicates | index.js:19 | a name listed twice is parsed twice, so duplicates are not removed |
| QueueConfig.ParseJoin | index.js:19 | any non-empty list of well-formed names, joined with single spaces, parses back to the same list in the same order |
| QueueConfig.NamesNone | index.js:19 | space-free pieces give no name exactly when every piece is blank |
| QueueConfig.ParseEmptyIffBlank | index.js:19 | the parsed list is empty exactly when `QUEUES` is nothing but whitespace |
| QueueConfig.EffectivePassword | index.js:20 | the password is `PASSWORD` when it is set and non-empty, and `'123456'` otherwise; it is never empty |
| QueueConfig.LoadConfig | index.js:13-20 | startup stops exactly when `QUEUES` is unset or empty; otherwise the names are the parse of `QUEUES` and the password is `PASSWORD \|\| '123456'`, so all names are well formed, the password is non-empty, and the list is empty exactly when `QUEUES` is whitespace only |
| QueueConfig.BlankQueuesStartEmpty | index.js:13-19 | a whitespace-only `QUEUES` passes the guard and yields no queue names |
| Dashboard.CreateQueueHandles | index.js:72 | exactly one handle per name, with the same name in the same position |
| Dashboard.Boot | index.js:13-20 | startup stops exactly when `QUEUES` is unset or empty; otherwise queue `k` is named after parsed name `k`, in the order `QUEUES` lists them, there is one well-formed queue per non-blank piece of `QUEUES`, and the password is `PASSWORD \|\| '123456'` |
| Dashboard.TwoQueuesDefaultPassword | index.js:19-20 | `QUEUES="a b"` with no `PASSWORD` gives queues `a` then `b` behind `'123456'`; `"emails reports"` is an instance |
| Auth.VerifyCredentials | index.js:30-35 | a login is accepted exactly when the user name is `"admin"` and the password equals the configured one, and then yields the user `{user: 'bull-board'}` |
| Auth.DefaultPasswordOnlyWhenUnset | index.js:20-35 | the fallback `'123456'` logs in only when `PASSWORD` is unset, empty, or itself `'123456'` |
| Auth.PasswordsDoNotCarryOver | index.js:20-35 | under two configurations with different effective passwords, one's password is refused by the other |
| Auth.EmptyFieldsRejected | index.js:20-35 | an empty user name or password is always refused, because the effective password is never empty |
| Auth.Step | index.js:88-104 | the session is authenticated exactly after a correct login or when it already was and did not expire; the panel is served exactly to a panel request on an authenticated session; the login form is shown to any session; the requested panel path is served; a panel request without a login redirects to `/ui/login`; a login redirects to `/ui` exactly when it is correct and to `/ui/login` otherwise; viewing the form or the panel changes no session |
| Auth.PanelOnlyWhenSignedIn | index.js:92-104 | over any sequence of events, the response to event `k` is the panel exactly when event `k` asks for it and either the session started authenticated or a correct login came earlier, with no expiry since |
| Auth.NoPanelBeforeLogin | index.js:100-104 | from an anonymous session, no panel is served before a correct login |

## Left out

- Queue construction against Redis and the connection options (index.js:53-65): this is a foreign client library plus network I/O. A handle records only its queue name.
- Registration with the dashboard library and its server adapter (index.js:68-74): this is third-party UI code. The model keeps only the list of handles passed to it.
- The web framework setup, view engine, session cookie, body parser and user serialisation (index.js:45-51, 76-87): this is middleware plumbing. The session appears only as the abstract `Session` value, and a session's expiry is an input event.
- The `returnTo` URL that the login guard stores in the session: after a correct login the launcher always redirects to `/ui`, so this URL changes no outcome here.
- The local strategy's own refusal of an empty user name or password before it calls the verify callback: this is library code. `EmptyFieldsRejected` shows that the callback refuses such logins anyway.
- The console messages, the listening port 3210, the startup banner and the top-level `catch` (index.js:14-15, 106-115): these are I/O and process control.
- Text.Trim: strings are sequences of Unicode scalar values rather than UTF-16 code units. Every character `trim()` removes lies in the Basic Multilingual Plane, so splitting and trimming are unaffected.
- Auth.Run: its contract states only that there is one response per event. What the responses are is stated by `PanelOnlyWhenSignedIn` and `NoPanelBeforeLogin`.
