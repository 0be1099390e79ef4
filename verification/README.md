# FairCom MCP server: a Dafny model and its proofs

This project models the parts of the FairCom MCP server that carry state, branching or
arithmetic, and proves what they promise.  `dafny verify dfyconfig.toml` checks all of it.

## What is modelled

**The upstream session** (`SessionProtocol`, `SessionRaces`, `SessionClient`, `RequestLoop`, `ErrorCodes`).
Any number of threads share one API client.  `SessionProtocol` is a state machine over their
atomic steps: each unlocked read of the token field, each acquisition of the lock, each message.
The upstream is unconstrained: every reply, and whether the action behind it was executed, is part
of the event.  Theorems are about every run.  `SessionClient.ApiClient` is the object itself; each of
its methods is proved to be a run of that machine.  `RequestLoop` is the retry loop around one
request, the verdict on the outcome that ends it, and the classification of an error as an expired
session; `ErrorCodes` is the recursive search for an error code in a reply.  `SessionRaces` says, over all
runs, exactly which clients never post a null token, never clear another thread's session and never have an
action executed twice.

**Guarded writes** (`Observability`, `GuardedWrites`, `Redaction`, `WriteCalls`, `PostedPayloads`, `CallReads`,
`CallRecords`, `WriteServer`, `WriteRuns`, `ReadBack`, `ReadBackValues`).  `GuardedWrites.CallOf` says what one call of a writing tool does, in order: audit records, requests
to the upstream, tool-call counts.  `WriteCalls` proves what holds of any one call; how often its write is posted
comes from a run of the session protocol.  `PostedPayloads` says what a write carries and when it may be made,
and `CallReads` how often a call reads, both in terms of what the call was given.  `WriteServer.Server` is the server object, and each tool is a
method proved to do exactly that to its log, its connection and its counters, and to leave in them what
`CallRecords` says can be seen of a call.  `WriteRuns` lets any number of calls interleave in any order and proves
what every log keeps.  `ReadBack` is the polling after `alter_input`, `configure_topic` and
`alter_integration_table`, with a clock in milliseconds; `ReadBackValues` says when a shown value agrees with a
requested one.

**Paged queries** (`Base64Url`, `JsonText`, `JsonObject`, `ContinuationToken`, `SqlPaging`, `SqlOrders`).  The continuation token
is printed and parsed as real text: JSON as Python's `json` writes and reads it (RFC 8259, sections 6
and 7), inside base64url (RFC 4648, section 5).  On top of it, the walk over all pages.

**The connector payload compiler** (`JsonValue`, `ConnectorTransform`, `ConnectorSchema`,
`ConnectorEntry`, `ConnectorPayload`, `CompiledFields`).  Names, property-map entries and nested settings are rewritten
several times in succession; the schema check accumulates errors; a dry run previews what a
confirmed call posts.

**Smaller languages** (`LikeFilter`, `TableListing`, `Dialect`, `JsonPointer`).  SQL LIKE compiled to a
regular expression and the loop that filters with it; the `SELECT FIRST n` rewrite; the JSON Pointer
of a validation error, read back as RFC 6901 says (sections 3 and 4).

`Prelude` and `PyText` hold Option, Result and the Python text operations that the rest uses.

## How Python is rendered

- A payload dictionary is a map, because Python compares dictionaries without regard to order; a decoded
  reply is an ordered document (`JsonText.Doc`), because the search for an error code depends on order.
  Loops over the keys of a payload take them in an arbitrary order.
- A bool counts as an int wherever the code asks `isinstance(value, int)`: `true` is accepted as port 1,
  as a `tagId`, as a unit id, and as the offset of a continuation token.
- Floats in payloads are exact numbers.  In the scale rule, `1 / scale` is exact; rounding is not modelled.
- Text in the token, LIKE, dialect and pointer modules is a sequence of code points, lone surrogates
  included.  `str.strip` and `\s` use Python's whole set of space characters.  Letter case, `\d`, `\w` and
  `isdigit` are those of ASCII.
- What the code gets from outside is a parameter: replies, clock readings, the list of registered services,
  the verdict of the SQL policy, and whether SQL or JavaScript passes its parser.

## Where the code and the obvious claim differ

Each of these is proved, with the exact condition where there is one.

- A token read twice without the lock can be null the second time.  No run posts a null token exactly if the
  client has a configured token or at most one thread (`SessionRaces.NeverNullExactly`).
- Clearing the cache does not compare tokens, so one thread can clear another's fresh session.  Every clear removes
  the token that its call's expired post carried under the same condition (`NeverClearsAnotherExactly`).  Sessions
  are bounded, not minimal: at most one more than the first posts that came back expired (`SessionsBounded`).
- An action can be executed twice exactly when the server may execute a post and still answer that the
  session has expired (`NeverTwiceExactly`).  The classification of that answer is textual: an error of any
  code whose message contains the digits 12031 is replayed (`RequestLoop.ForeignReply`).
- A success reply without a top-level `errorCode` raises if the first integer in it, or string that reads as one, down
  to depth 4, is not 0: a nested row count is enough (`ErrorCodes.NestedCountRaises`).  A top-level 0 decides success.
- The check of `errorCode` after a connector write cannot fire: the client has raised before
  (`GuardedWrites.SecondCheckNeverFires`).
- A continuation token gives `order_by` back exactly unless that text spells a character as two surrogates.
  A token that carries an `order_by` gets a second ORDER BY appended on the next page unless the statement has
  one of its own and the caller does not repeat the argument; and a page called so hands out a token that
  carries no order.  Which walks keep the SQL of their first page is exact (`SqlOrders.WalkKeepsSqlExactly`).
- The offset advances by the page size, not by the row count: a walk that ends covers the table exactly when
  every page was full (`WalkCoversExactly`, `ShortPageLosesRows`).
- The compiled LIKE expression stops at newlines: it agrees with LIKE on a name for every pattern exactly when the
  name has no newline, and for a pattern on every name exactly when the pattern has no wildcard.
- The pointer of an error about an unknown field leads elsewhere when that field's name has a dot or a bracket.
- `deleteOutput` is always rejected: the rewrite drops the `connectorName` that the check then requires.
- The `forwarded_payload` of a preview is itself an acceptable payload exactly unless it defines a modbus input
  (`ForwardedExactly`).
- Old `settings` that are no object are discarded when settings are nested; an `inputName` filter that is neither a
  string nor a list is dropped, and the listing is then unfiltered.
- A read-back name with space around it never matches a record, and the first record stands in for a name that is
  not found: a record of another name can verify any write of an input or topic (`VerifiedByOtherExactly`).
  `alter_integration_table` takes scalar fields that no record shows as met.
- `delete_input`, `create_output`, `alter_output` and `delete_output` do not record rejections, so their attempts and
  results pair only as far as their calls get to the write (`WriteRuns.AuditPairsExactly`).
- `test_integration_table_transform_steps` looks its scope up in a set.  A scope that is a list or an object makes that
  raise a TypeError, which is no validation failure: the attempt is recorded and its result is not
  (`WriteRuns.LoggingToolsPairExactly`).
- The warning text at src/faircom_mcp/server.py:853 says that a dry run does not call the backend; a dry run of a
  connector definition may ask it for its services, and nothing else (`UnconfirmedOnlyLooksUp`).

## Model

| member | source | states |
|---|---|---|
| SessionProtocol.RunInv | src/faircom_mcp/api/client.py:206-339 | the session invariant (lock ownership, conservation, provenance of tokens, history of each call, clears paid for by expired replies) holds after every run of any number of threads |
| SessionProtocol.SessionConservation | src/faircom_mcp/api/client.py:300-339 | in user/password mode, under every interleaving: sessions created = clears of a non-empty cache + 1 if the cache is full now |
| SessionProtocol.SessionsBounded | src/faircom_mcp/api/client.py:222-230 | no more sessions are created than one plus the first posts answered as expired |
| SessionProtocol.OneCreateInFlight | src/faircom_mcp/api/client.py:305-333 | two threads are never both inside createSession |
| SessionProtocol.SentTokensAreKnown | src/faircom_mcp/api/client.py:219-232 | every non-null token sent was configured or issued earlier in the run |
| SessionProtocol.TokenModeIsInert | src/faircom_mcp/api/client.py:335-339 | with a configured token no session is ever created or cleared and the cache never changes |
| SessionProtocol.CredentialsNeverMissing | src/faircom_mcp/api/client.py:309-312 | a thread that gets as far as testing the credentials has them: the ConfigurationError there is not reached |
| SessionProtocol.AtMostTwoPosts | src/faircom_mcp/api/client.py:222-232 | a call posts at most twice, the second time only after an expired reply to the first |
| SessionProtocol.DoubleEffectExactly | src/faircom_mcp/api/client.py:222-232 | a call executes its action twice if and only if its first post was executed although it was answered as expired, and its second was executed |
| SessionProtocol.AtMostOnceEffect | src/faircom_mcp/api/client.py:222-232 | if the upstream executes nothing that it answers as expired, no call executes its action twice, whatever the schedule and the failures |
| SessionRaces.NeverNullExactly | src/faircom_mcp/api/client.py:300-339 | no run of a client with these threads ever posts a null token if and only if the client has a configured token or at most one thread |
| SessionRaces.NullTokenRace | src/faircom_mcp/api/client.py:301-302 | for every client in user/password mode and any two of its threads, a run in which a first post goes out without a token |
| SessionRaces.NeverClearsAnotherExactly | src/faircom_mcp/api/client.py:335-339 | in every run every clear removes the very token that its call's expired post carried if and only if the client has a configured token or at most one thread |
| SessionRaces.StaleClearRace | src/faircom_mcp/api/client.py:335-339 | for every client in user/password mode and any two of its threads, a run in which one clears the fresh session of the other, which nobody reported expired |
| SessionRaces.NeverTwiceExactly | src/faircom_mcp/api/client.py:222-232 | against a server given by which outcomes and replies it may pair, no run executes a call's action twice if and only if the server never pairs an executed post with an expired reply, or there is no thread |
| SessionProtocol.DeadlockFree | src/faircom_mcp/api/client.py:300-339 | while a call is running, some thread can take a step other than starting a call |
| SessionClient.ApiClient.constructor | src/faircom_mcp/api/client.py:30-34 | the cache starts as the configured token |
| SessionClient.ApiClient.GetActionAuthToken | src/faircom_mcp/api/client.py:300-333 | returns the cached token, or creates and caches one session, or fails with the cache empty; in each case a run of the protocol |
| SessionClient.ApiClient.CreateUnderLock | src/faircom_mcp/api/client.py:305-333 | under the lock: creates and caches one session exactly if there are credentials and a token is issued |
| SessionClient.ApiClient.InvalidateSessionAuthToken | src/faircom_mcp/api/client.py:335-339 | empties the cache except in token mode, and records the clear of a non-empty one |
| SessionClient.ApiClient.FetchThenPost | src/faircom_mcp/api/client.py:221-225 | fetches a token and posts once with it, or ends without a post |
| SessionClient.ApiClient.JsonAction | src/faircom_mcp/api/client.py:206-232 | one uninterrupted call leaves exactly the trace and the cache of the specification and is a run of the protocol; it ends with the reply of the last post on its trace, that of the second post if the first came back as an expired session, and without a reply exactly when its last fetch got no token |
| SessionClient.ApiClient.InvalidateAndResend | src/faircom_mcp/api/client.py:226-232 | the expired branch: clear, fetch again, post the refreshed body |
| SessionClient.PostsTwiceExactly | src/faircom_mcp/api/client.py:222-232 | alone on its client, a call posts twice exactly when the first post expired and a second token could be had, and never posts a null token |
| SessionClient.TransportFailureIsNotResent | src/faircom_mcp/api/client.py:117-132 | after a timeout or a broken connection the call ends with its one post |
| RequestLoop.RequestJson | src/faircom_mcp/api/client.py:96-195 | the loop sends at most max_read_retries + 1 times if the request may be repeated and else once; every outcome but the last is a timeout, a failure or a status from 500 on, and the last is none of these or no try is left; it returns the verdict on that one, a transport error exactly without a response; the raise after the loop is not reached |
| RequestLoop.RunStops | src/faircom_mcp/api/client.py:105-135 | the recursive specification skips exactly the leading transient outcomes |
| RequestLoop.StopIsUnique | src/faircom_mcp/api/client.py:105-135 | there is only one place to stop |
| RequestLoop.Judge | src/faircom_mcp/api/client.py:137-189 | a reply is returned exactly below status 400, as JSON, without a nonzero first error code; below 400 a code is reported exactly when it is the first of the reply and not 0; from 400 on the error keeps at most 2000 characters of the body; it is retryable exactly from 500 on or, from 400 on, with code 12031 |
| RequestLoop.RaiseIfApiError | src/faircom_mcp/api/client.py:412-490 | a payload is returned exactly when it is no dictionary with a nonzero first error code in preorder, and else that code is raised with the message of the reply, never as retryable |
| RequestLoop.AppErrorExpiresExactly | src/faircom_mcp/api/client.py:341-353 | a reply below status 400 with a nonzero first code counts as an expired session if and only if that code is 12031 or its errorMessage has the digits 12031 or both `authtoken` and `session`, in any case |
| RequestLoop.HttpErrorExpiresExactly | src/faircom_mcp/api/client.py:341-376 | from status 400 on, for every text: an expired session if and only if the text is a JSON object with errorCode 12031 or an errorMessage in that wording, or its first 2000 characters, not blank, have the wording, or are JSON whose first code of preorder is 12031 or whose errorMessage has the digits |
| RequestLoop.MentionsExactly | src/faircom_mcp/api/client.py:347-364 | the wording, letter by letter |
| RequestLoop.HttpDetailsExactly | src/faircom_mcp/api/client.py:138-153 | an HTTP error keeps exactly the errorCode and the errorMessage of its text, if that is a JSON object, and the first 2000 characters |
| RequestLoop.ForeignErrorIsReplayed | src/faircom_mcp/api/client.py:347-353 | an error of another code whose message contains 12031 counts as an expired session |
| RequestLoop.ForeignReply | src/faircom_mcp/api/client.py:347-353 | for every code above 0 and any wording around the digits, free of split surrogate pairs, the text of a reply that is read so |
| ErrorCodes.ExtractIsFirstCandidate | src/faircom_mcp/api/client.py:391-410 | the search returns the first coercible candidate in preorder down to depth 4, a dictionary's own errorCode before its children, and None exactly when there is none |
| ErrorCodes.ApiErrorExactly | src/faircom_mcp/api/client.py:412-421 | a reply raises with a code if and only if it is a dictionary whose first candidate is that code and is not 0 |
| ErrorCodes.NestedCountRaises | src/faircom_mcp/api/client.py:399-402 | a nested nonzero integer raises when there is no top-level code |
| ErrorCodes.ReadCode | src/faircom_mcp/api/client.py:378-389 | a code written as text, in decimal, with a sign or not and any space around it, is read back |
| Base64Url.DecodeEncode | src/faircom_mcp/api/sql.py:191-195 | base64url decoding undoes encoding, for every byte string |
| Base64Url.GroupIsNumber | src/faircom_mcp/api/sql.py:191 | three bytes are written as four symbols that are the same number in base 64 |
| JsonText.ReadEscaped | src/faircom_mcp/api/sql.py:191-196 | reading back a written JSON string gives the text with adjacent surrogate pairs fused |
| JsonText.ReadDecimal | src/faircom_mcp/api/sql.py:191-196 | reading back a written integer gives the integer |
| JsonText.FuseExactly | src/faircom_mcp/api/sql.py:191-196 | fusing changes a text if and only if it has a split surrogate pair |
| ContinuationToken.Decode | src/faircom_mcp/api/sql.py:193-207 | whatever is accepted has an offset of at least 0 |
| ContinuationToken.TokenReads | src/faircom_mcp/api/sql.py:189-191 | the text inside a token, character by character |
| ContinuationToken.CursorExactly | src/faircom_mcp/api/sql.py:197-205 | a document is accepted exactly if it is a dictionary with an offset that is an int of at least 0 or a bool, and an order_by that is a text, null or absent |
| ContinuationToken.DecodeEncode | src/faircom_mcp/api/sql.py:189-207 | decoding an encoded cursor gives its offset and its order_by, pairs fused |
| ContinuationToken.RoundTripExactly | src/faircom_mcp/api/sql.py:189-207 | decode(encode(offset, order_by)) is the same pair if and only if order_by has no split surrogate pair |
| ContinuationToken.SplitPairIsFused | src/faircom_mcp/api/sql.py:189-207 | the smallest order_by that does not come back |
| SqlPaging.RequestOf | src/faircom_mcp/api/sql.py:43-64 | a request that is sent has a page size of at least 1 and skips no negative number of records |
| SqlPaging.NormalizedExactly | src/faircom_mcp/api/sql.py:181-187 | the SQL of a statement: stripped, then the caller's ORDER BY; or else, unless the words ORDER BY stand in it, ORDER BY 1 |
| SqlPaging.QueryPage | src/faircom_mcp/api/sql.py:33-77 | refuses exactly what the policy denies, a page or size below 1 or a token that does not decode, each with its error; else asks for one page at the offset of the token, or of the page number, with an SQL text that starts with the statement and has an ORDER BY; reports offset, limit, count and whether there is more; and hands out a token exactly when there is, which leads to the next offset under the same order |
| SqlPaging.TokenWalkExact | src/faircom_mcp/api/sql.py:33-77 | with order_by None and full pages, following tokens from page 1 with any page sizes sends the same SQL every time and returns every row once, in order |
| SqlPaging.TokenWalkLength | src/faircom_mcp/api/sql.py:224-254 | with one page size s, the walk over n rows ends after n / s + 1 requests |
| SqlPaging.WalkCoversExactly | src/faircom_mcp/api/sql.py:242-249 | a walk that ends has returned the whole table if and only if every page was full |
| SqlPaging.ShortPageLosesRows | src/faircom_mcp/api/sql.py:242-249 | an upstream that answers with a short page and claims no more ends the walk without the rows it left out |
| SqlOrders.WalkSql | src/faircom_mcp/api/sql.py:43-58 | every request of a walk, asked for with the token of the page before, carries the statement normalized with its own order and then with the order that the token brings, pairs fused |
| SqlOrders.WalkKeepsSqlExactly | src/faircom_mcp/api/sql.py:33-77 | over a walk of any number of pages, each called with any order_by, all requests carry the SQL of the first if and only if: without an order on page 1, none later (but `1`, where it is the default, on the last page); with a column on page 1, there is one page, or the statement has its own ORDER BY, the column has no split surrogate pair, and the calls name it on every other page |
| LikeFilter.CompileSqlLikePattern | src/faircom_mcp/api/tables.py:171-181 | the loop builds the specified expression |
| LikeFilter.ReadCompiled | src/faircom_mcp/api/tables.py:171-181 | read as a regular expression, it is one atom per pattern character: no character escapes its escape |
| LikeFilter.MatchesIsLikeInLine | src/faircom_mcp/api/tables.py:47-48 | matching is LIKE with wildcards that stop at a newline |
| LikeFilter.CompiledIsLike | src/faircom_mcp/api/tables.py:171-181 | for every pattern and newline-free name, the expression full-matches if and only if the name satisfies LIKE (ISO/IEC 9075-2, section 8.5) |
| LikeFilter.AgreesForAllPatternsExactly | src/faircom_mcp/api/tables.py:171-181 | on a name, the two agree for all patterns if and only if the name has no newline |
| LikeFilter.AgreesForAllNamesExactly | src/faircom_mcp/api/tables.py:171-181 | for a pattern, the two agree on all names if and only if it has no wildcard |
| TableListing.FilterEntries | src/faircom_mcp/api/tables.py:36-51 | the loop keeps what matches and counts entries, matches and entries without a name |
| TableListing.TableNameExactly | src/faircom_mcp/api/tables.py:184-195 | a text names itself, and a dictionary has its name under the first of tableName, table_name, name and table that holds a text |
| TableListing.PositionsExactly | src/faircom_mcp/api/tables.py:42-49 | the kept positions are strictly increasing and are exactly those that match |
| TableListing.CountsPartition | src/faircom_mcp/api/tables.py:36-51 | kept, dropped and unnamed entries add up to the source list |
| TableListing.FilterKeepsLike | src/faircom_mcp/api/tables.py:36-51 | among entries with newline-free names exactly those that satisfy LIKE are kept, in order, each once |
| TableListing.FilteredTwice | src/faircom_mcp/api/tables.py:36-51 | filtering again removes nothing |
| TableListing.ListTables | src/faircom_mcp/api/tables.py:14-80 | the reply lists what the filter keeps in the place where the list was, reports the counts, and is otherwise unchanged |
| TableListing.FilteredReplyReads | src/faircom_mcp/api/tables.py:53-77 | the filtered reply, key by key: the list under tables, or else that under data in result, is the filtered one, and the six members of filter say what was listed, kept and could not be named |
| Dialect.FindMatchExactly | src/faircom_mcp/api/dialect.py:18-21 | the expression matches a statement in at most one way, and the search finds it |
| Dialect.RewriteExactly | src/faircom_mcp/api/dialect.py:18-27 | a match is rewritten to TOP and keeps its prefix, its number and everything after it |
| Dialect.UnchangedExactly | src/faircom_mcp/api/dialect.py:18-21 | a statement is left alone if and only if the expression does not match |
| Dialect.RewriteIdempotent | src/faircom_mcp/api/dialect.py:18-27 | a second rewrite finds nothing |
| Dialect.RewriteKeepsWords | src/faircom_mcp/api/dialect.py:8-27 | the rewrite brings in and loses no word other than FIRST and TOP |
| Dialect.RewriteAndCheckCommute | src/faircom_mcp/server.py:4336-4340 | the unsupported features are the same before and after the rewrite |
| Dialect.FeaturesExactly | src/faircom_mcp/api/dialect.py:5-15 | reported are exactly those of FETCH, LIMIT and OFFSET that stand alone in the statement, in any case, each once, in alphabetical order |
| JsonPointer.UnescapeEscape | src/faircom_mcp/server.py:1082 | an escaped token has no slash and unescapes to itself |
| JsonPointer.ReadJoined | src/faircom_mcp/server.py:1082-1083 | a joined pointer reads back as its parts |
| JsonPointer.FindPrinted | src/faircom_mcp/server.py:1077-1081 | the tokens found in a printed path are those printed |
| JsonPointer.PointerRoundTripExactly | src/faircom_mcp/server.py:1074-1083 | print, convert, read: the tokens come back if and only if there are any and every key is non-empty and free of dots and brackets (or the path is the empty key alone) |
| ConnectorTransform.TransformConnectorRequest | src/faircom_mcp/api/connectors.py:39-100 | the imperative rewrite computes the specified payload |
| ConnectorTransform.MoveSettings | src/faircom_mcp/api/connectors.py:86-92 | the loop over the keys, in any order, splits them into the top level and the settings |
| ConnectorTransform.TransformIdempotent | src/faircom_mcp/api/connectors.py:39-100 | rewriting twice is rewriting once, for every action and payload |
| ConnectorTransform.NestingConserves | src/faircom_mcp/api/connectors.py:80-98 | every field keeps its value at the top level or in the settings, the top level wins over old settings, mirrored fields agree, no other settings key stays at the top, and nothing else is added but the createInput default |
| ConnectorTransform.NestingByName | src/faircom_mcp/api/connectors.py:9-36 | the fields that move into the settings, those that are in both places and those that stay, by name |
| ConnectorTransform.UnnestedConserves | src/faircom_mcp/api/connectors.py:62-78 | where nothing is nested, every field but the two names keeps its value and nothing is added |
| ConnectorTransform.OtherNameKept | src/faircom_mcp/api/connectors.py:62-78 | the name key of the other kind of connector is kept |
| ConnectorTransform.NamesConserved | src/faircom_mcp/api/connectors.py:62-78 | the action's own name key keeps its text or gets that of connectorName, which is dropped |
| ConnectorTransform.NothingLostExactly | src/faircom_mcp/api/connectors.py:86-98 | every field but the names survives if and only if the old settings, if any, are an object |
| ConnectorTransform.SettingsDiscarded | src/faircom_mcp/api/connectors.py:86-87 | settings that are no object are replaced |
| ConnectorTransform.FilterKeptExactly | src/faircom_mcp/api/connectors.py:48-60 | a listing filter keeps its value under its new name, or is dropped if it is an inputName that is neither string nor list and no other names are given |
| ConnectorTransform.FiltersAddNothing | src/faircom_mcp/api/connectors.py:48-60 | the listing actions add nothing |
| ConnectorSchema.ValidateConnectorSchema | src/faircom_mcp/server.py:948-1476 | the accumulating loops report exactly the errors of the payload, in the order of the entries; no errors if and only if the payload is acceptable; the status fits |
| ConnectorSchema.CheckEntry | src/faircom_mcp/server.py:1283-1452 | the errors reported for one entry are exactly those of the declarative predicate |
| ConnectorSchema.CheckMapList | src/faircom_mcp/server.py:1259-1452 | the errors of the entries, in index order |
| ConnectorSchema.CheckServer | src/faircom_mcp/server.py:1194-1257 | protocol, host and port |
| ConnectorSchema.CheckRequired | src/faircom_mcp/server.py:1150-1174 | a required field is reported exactly when it is absent, null or blank |
| ConnectorSchema.EntryOkExactly | src/faircom_mcp/server.py:1283-1452 | an entry has no errors if and only if it is accepted |
| ConnectorSchema.AcceptableExactly | src/faircom_mcp/server.py:948-1476 | a payload has no errors if and only if it is acceptable |
| ConnectorSchema.AcceptableReads | src/faircom_mcp/server.py:948-1476 | an accepted payload, field by field |
| ConnectorSchema.EntryReads | src/faircom_mcp/server.py:1283-1452 | an accepted entry, field by field |
| ConnectorSchema.RequiredReads | src/faircom_mcp/server.py:1150-1174 | the required fields by name |
| ConnectorSchema.BareHostReads | src/faircom_mcp/server.py:1194-1257 | a server is refused exactly if it is a text with a scheme, or a host, a colon and digits |
| ConnectorSchema.PortReads | src/faircom_mcp/server.py:1230-1257 | a port is any number that is whole and from 1 to 65535 |
| ConnectorSchema.EntryErrorsInRange | src/faircom_mcp/server.py:1282 | a reported index is one that the list has |
| ConnectorSchema.PointerLeadsBackExactly | src/faircom_mcp/server.py:1085-1100 | the pointer of an error leads to what it is about if and only if the field's name is plain |
| ConnectorSchema.KnownFieldsArePlain | src/faircom_mcp/server.py:1300-1301 | only an unknown field can have a name that is not |
| ConnectorEntry.NormalizeEntry | src/faircom_mcp/server.py:1569-1613 | the assignments to the copied entry compute the specified entry |
| CompiledFields.NormalizedFits | src/faircom_mcp/server.py:1569-1613 | every field of a normalized entry, in terms of the entry and the unit: the stripped type under both names, the stripped name as path, the unit, the divisor n and `divideByInteger` for a scale of 1 / n, a whole float divisor as an int, and nothing else changed or added |
| CompiledFields.CompiledFits | src/faircom_mcp/server.py:1501-1617 | every field of a compiled payload: the names, the list with each entry normalized under the payload's unit, and nothing else changed or added, before an output is rewritten |
| ConnectorEntry.NormalizedTwice | src/faircom_mcp/server.py:1569-1613 | normalizing an entry again changes nothing |
| ConnectorEntry.NormalizedVerdict | src/faircom_mcp/server.py:1569-1613 | normalizing makes no bad entry good and no good entry bad |
| ConnectorEntry.NormalizedType | src/faircom_mcp/server.py:1571-1579 | the data type, and whether its two names conflict, stay the same |
| ConnectorEntry.NormalizedKeeps | src/faircom_mcp/server.py:1569-1613 | every other field is kept |
| ConnectorEntry.DivisorExactly | src/faircom_mcp/server.py:1592-1602 | a divisor n comes from a scale if and only if the scale is 1 / n, for whole n above 1 |
| ConnectorEntry.NoOtherDivisor | src/faircom_mcp/server.py:1595-1602 | no other divisor comes from a scale |
| ConnectorPayload.RequireConnectorPayload | src/faircom_mcp/server.py:1478-1676 | returns the compiled payload exactly when it is accepted, and otherwise the refusal that fits, with the errors of the schema |
| ConnectorPayload.NameConnector | src/faircom_mcp/server.py:1504-1551 | the name comes from connectorName or the action's alias and is put under both |
| ConnectorPayload.NormalizeList | src/faircom_mcp/server.py:1563-1617 | the loop normalizes every object of the list and keeps the rest |
| ConnectorPayload.CompilationIsFixedPoint | src/faircom_mcp/server.py:1501-1676 | an accepted payload, compiled again under the same registry, is accepted and unchanged |
| ConnectorPayload.NormalizeAndCheckCommute | src/faircom_mcp/server.py:1561-1632 | for inputs, the check gives the same verdict before and after the entries are normalized |
| ConnectorPayload.ConnectorPreview | src/faircom_mcp/server.py:786-896 | a preview succeeds if and only if the payload is accepted, and shows the compiled payload and its rewrite |
| ConnectorPayload.CommittedPayload | src/faircom_mcp/server.py:2366-2413 | what a confirmed call posts, or its refusal |
| ConnectorPayload.PreviewIsCommit | src/faircom_mcp/server.py:843-887 | the previewed forwarded payload is the one posted; confirming the previewed payload posts it too; an output is posted just as it was compiled |
| ConnectorPayload.DeleteOutputIsRejected | src/faircom_mcp/server.py:989-1005 | no payload is accepted for deleteOutput |
| ConnectorPayload.ForwardedExactly | src/faircom_mcp/server.py:1619-1632 | of an accepted payload of any action, what is forwarded is itself accepted if and only if it does not define a modbus input |
| ConnectorPayload.CheckItem | src/faircom_mcp/server.py:5042-5108 | one item of a preflight: valid as a confirmed call would be, forwarded as it would post |
| ConnectorPayload.Preflight | src/faircom_mcp/server.py:5016-5132 | one outcome an item, and counts that add up |
| ConnectorPayload.AllValidExactly | src/faircom_mcp/server.py:5122-5130 | a batch is all valid if and only if each item is |
| ReadBack.FirstNamedExactly | src/faircom_mcp/server.py:2524-2528 | the search finds the first record of the name, and nothing exactly when there is none |
| ReadBack.SomeReplyShowsNameExactly | src/faircom_mcp/server.py:2524-2528 | some description has a record of the requested name if and only if the name has no space around it |
| ReadBack.MatchBearsNameExactly | src/faircom_mcp/server.py:2524-2530 | the record that is judged bears the requested name if and only if some record of the description does |
| ReadBack.VerifiedByOtherExactly | src/faircom_mcp/server.py:2529-2566 | for any planned check and any other name, some description whose records all bear that other name verifies the write if and only if it is of an input or topic, or of a table that is not renamed and has no field both added and deleted |
| ReadBackValues.TruthAgreesExactly | src/faircom_mcp/server.py:2452-2468 | a text agrees with true exactly if it denotes 1 and with false exactly if it denotes 0: in decimal, or by one of the words listed for the tool, in any case and with any space around it |
| ReadBackValues.NumberAgreesExactly | src/faircom_mcp/server.py:2452-2468 | a text agrees with a number exactly if it denotes it |
| ReadBackValues.TextsAgreeExactly | src/faircom_mcp/server.py:2452-2468 | two texts agree exactly if they denote one number, or neither denotes any and they strip alike |
| ReadBackValues.NumbersAgreeExactly | src/faircom_mcp/server.py:2465-2468 | two numbers agree exactly if their values are equal |
| ReadBackValues.RecordsExactly | src/faircom_mcp/server.py:2437-2450 | the records of a description: the objects of a list, or of the lists under four keys, or without any the object itself |
| ReadBackValues.PlanExactly | src/faircom_mcp/server.py:2478-2509 | what is verified: under which name, which fields, and when nothing is |
| ReadBackValues.JudgementExactly | src/faircom_mcp/server.py:2522-2572 | inputs and topics: no record, nothing of it shown, all that is shown agrees, or exactly what differs |
| ReadBackValues.TableJudgementExactly | src/faircom_mcp/server.py:3462-3532 | tables: no record, nothing contradicted, or exactly the fields and parts that are |
| ReadBack.CompareFields | src/faircom_mcp/server.py:2534-2556 | the loop collects the requested fields that are shown and those that differ |
| ReadBack.JudgeReply | src/faircom_mcp/server.py:2522-2572 | one description judged |
| ReadBack.VerifiedExactly | src/faircom_mcp/server.py:2558-2566 | inputs and topics: verified if and only if the record shows a requested field and every one that it shows agrees after coercion |
| ReadBack.TableVerifiedExactly | src/faircom_mcp/server.py:3462-3532 | tables: verified if and only if the record contradicts nothing that was asked |
| ReadBack.UnseenScalarsAreAccepted | src/faircom_mcp/server.py:3477-3481 | a record that shows none of the requested scalar fields verifies them |
| ReadBack.Poll | src/faircom_mcp/server.py:2511-2600 | between 1 and 21 polls; every earlier reply left the question open; the end and the reported reason are those of the replies |
| ReadBack.PollsStop | src/faircom_mcp/server.py:2574-2576 | the first poll that decides or is past the deadline is the last, and the deadline always comes |
| ReadBackValues.PollExactly | src/faircom_mcp/server.py:2511-2576 | every reply but the last leaves the question open within six seconds, and the last raised, verified the write or came after them |
| ReadBackValues.ReasonExactly | src/faircom_mcp/server.py:2568-2590 | a timeout reports the reason of the last reply with a record |
| ReadBackValues.MismatchesExactly | src/faircom_mcp/server.py:2568-2590 | and the mismatches of the last reply with any |
| ReadBack.VerifyMutation | src/faircom_mcp/server.py:2478-2600 | verification as a whole: skipped, or polled |
| Observability.AuditLog.Record | src/faircom_mcp/observability.py:85-93 | appends one event and changes nothing before it |
| Observability.AuditLog.Snapshot | src/faircom_mcp/observability.py:95-97 | the events so far |
| Observability.RuntimeMetrics.RecordToolCall | src/faircom_mcp/observability.py:18-20 | one more for its key, the same for every other |
| GuardedWrites.GetRedacted | src/faircom_mcp/server.py:416-426 | redaction leaves every field but the tokens where it was |
| GuardedWrites.SecondCheckNeverFires | src/faircom_mcp/server.py:632-647 | a reply that the client returned passes the check after the write |
| Redaction.RedactedExactly | src/faircom_mcp/server.py:416-426 | what is returned has no authToken key at any depth, and a document is left as it is if and only if it has none |
| WriteServer.Server.EnterTool | src/faircom_mcp/server.py:364-372 | the group policy, and one record of a denial |
| WriteServer.Server.Validate | src/faircom_mcp/server.py:1478-1676 | validation with exactly the reads that it makes |
| WriteServer.Server.ReadBackWrite | src/faircom_mcp/server.py:2663-2665 | the read-back of a tool that has one |
| WriteServer.Server.ConnectorTool | src/faircom_mcp/server.py:2341-2424 | in the log: one attempt, first, and at most one result, last, which is a success exactly if a real call returned, a failure exactly if a call about to write did not, a rejection as the tool records them; on the connection: the write as often as the client posts it if the call may write, each time the compiled payload, and nothing but listServices unless the call is about to write; in the counters: one count exactly if it runs and is allowed; a real call returns exactly if it completes |
| WriteServer.Server.ManageService | src/faircom_mcp/server.py:2267-2333 | the same of the connection, the counters and the return; each write has exactly the given service name, stripped, and the given command, stripped and in small letters; in the log one denial, exactly if the call runs and its group is not allowed, and nothing else |
| WriteServer.Server.SqlExecute | src/faircom_mcp/server.py:6295-6396 | the same of the connection, the counters and the return; in the log nothing for a malformed statement, and else the attempt and the denial of a call that runs and is not allowed |
| WriteServer.Server.PackageTool | src/faircom_mcp/server.py:5270-5694 | the same as for a connector tool, and a preview is recorded as a result exactly by register_code_package |
| WriteRuns.ReachableIsInterleaved | src/faircom_mcp/observability.py:80-97 | every reachable log is an interleaving of starts of the calls' own emissions |
| WriteCalls.ScriptedWritesAreAuthorized | src/faircom_mcp/server.py:364-414 | a call writes only if it is confirmed, no dry run, of an allowed group and valid, and then only its compiled payload |
| WriteRuns.ConfirmedWritesOnly | src/faircom_mcp/server.py:2346-2413 | the same of every write request in every log of any calls in any order |
| WriteCalls.UnconfirmedOnlyLooksUp | src/faircom_mcp/server.py:898-910 | dry runs, unconfirmed and rejected calls send nothing but listServices |
| WriteCalls.ConnectorShape | src/faircom_mcp/server.py:2346-2413 | a connector call records its attempt first, and its result last or not at all |
| WriteCalls.RecordedOutcome | src/faircom_mcp/server.py:611-671 | the recorded outcome is the one the call had: rejected, or success exactly if it returned |
| WriteRuns.ResultsNeverAhead | src/faircom_mcp/server.py:2346-2413 | in every log a connector tool has no more results than real attempts |
| WriteRuns.AuditPairsExactly | src/faircom_mcp/server.py:2766-2794 | when all calls have ended, results match real attempts if and only if every real call got to the write or its tool records rejections |
| WriteRuns.LoggingToolsPairExactly | src/faircom_mcp/server.py:3775-3842 | for the tools that record rejections they match if and only if no real call crashed on the scope of a transform test |
| WriteRuns.PairedUnlessCrashed | src/faircom_mcp/server.py:3780-3781 | only test_integration_table_transform_steps can crash, and a real call of a tool that records rejections is recorded exactly if it did not |
| WriteRuns.SuccessMeansVerified | src/faircom_mcp/server.py:649-671 | a recorded success belongs to a call that returned, and its read-back was confirmed or had nothing to check |
| WriteCalls.CountedOrDeniedOnce | src/faircom_mcp/server.py:364-414 | a call that gets as far as running its tool is counted exactly once if the policy allows its group and denied exactly once if not; any other call is neither |
| WriteCalls.WritesExactly | src/faircom_mcp/server.py:364-414 | a call of any of the seventeen tools posts its write exactly as often as the client posts it if it is confirmed, no dry run, valid and allowed by the policies, and never otherwise |
| WriteCalls.WritesAtMostTwice | src/faircom_mcp/api/client.py:222-232 | with the posts of an action in any run of the client, shared by any threads, a call of any tool posts its write at most twice, and twice only after an expired reply |
| WriteCalls.WritesTwiceExactly | src/faircom_mcp/api/client.py:206-232 | alone on the client, a call of any tool posts its write twice if and only if it may write, the first post came back as an expired session and a token could be had both times |
| WriteCalls.ReturnsExactly | src/faircom_mcp/server.py:611-671 | a real call of any tool returns if and only if it may write, the write returns, and a connector's reply and read-back show no error |
| WriteCalls.CountedAs | src/faircom_mcp/server.py:364-414 | whatever a call counts is its own tool, as a success exactly if it is a dry run or its write returned, and SQL was not refused |
| PostedPayloads.PermittedExactly | src/faircom_mcp/server.py:2318-2320 | manage_service is of the group admin, SQL and packages of write, all others of connector |
| PostedPayloads.MayWriteExactly | src/faircom_mcp/server.py:1678-1784 | a call may write exactly if it is confirmed, no dry run, of a permitted group, and its payload is good: for manage_service a text serviceName, one of the five commands in any case and padding, and nothing else; for tables and topics their names; for connectors an accepted payload |
| PostedPayloads.WritesCarry | src/faircom_mcp/server.py:1714-1784 | every write carries what its call was given: for manage_service the stripped name and the stripped command in small letters, for connectors the payload compiled field by field and rewritten, for all others the payload as it is |
| PostedPayloads.RejectionIsRecordedExactly | src/faircom_mcp/server.py:3775-3842 | the tools that record a rejected call, by name |
| CallReads.ReadsExactly | src/faircom_mcp/server.py:898-910 | a connector definition that names a service asks for the registered ones once, and once more for a preview; register_code_package describes the package once before its write; and a read-back describes as often as it polls; nothing else is read |
| CallReads.ReadBackToolsExactly | src/faircom_mcp/server.py:2663-2665 | three tools read back what they wrote |
| WriteRuns.LoggedWritesAtMostTwice | src/faircom_mcp/api/client.py:222-232 | in every log of any calls in any order a call has posted its write at most twice |
| CallRecords.SeenInParts | src/faircom_mcp/observability.py:80-97 | log, connection and counters see a timeline part by part |
| CallRecords.ConnectorIsSeen | src/faircom_mcp/server.py:2346-2413 | the records of a connector call: the attempt first, a result only last, and the outcome as it was |
| CallRecords.PackageIsSeen | src/faircom_mcp/server.py:5270-5694 | the same of a package call |
| CallRecords.RequestsAreSeen | src/faircom_mcp/server.py:364-414 | the requests of a call of any tool: its own write as often as the client posts it, if it may write, and only lookups unless it is about to write |

## Left out

- HTTP, TLS, SSE and ASGI handling, FastMCP registration, readiness and health: input/output and library behaviour.
- Messages, hints, examples, nearest-match texts, corrected snippets and the warnings of the schema check: cosmetic.
- Python's limit on the digits of an int and its recursion limit in `json` and in the search for an error code.
- Case folding, digits and word characters outside ASCII, in `lower`, `isdigit` and regular expressions.
- Rounding of floats, NaN and infinities in payloads, and ints too large for a float as a scale.
- The character encoding of a response: its text and its JSON are read from one decoded text.
- The time of a tool call, the timestamps of audit events, compatibility counters and the rendering of metrics.
- Config parsing, policy presets, argument aliases and the SQL policy: the verdicts of the policies are parameters.
- SQL and JavaScript parsing, and the sample rows of an SQL dry run.
- How the list of registered services is extracted from a reply: the check takes the set of their names, and a validation that
  asks for it counts as one read however often that read is posted.
- The registry is the same throughout one call; between a preview and its commit it may change in reality, and then the two may differ.
- describe_table and its fallback, list and describe tools, and the recovery guidance that alter_input adds to an error: they change nothing.
- The rows of validate_connector_payloads for services and integration tables: only connector actions are modelled.
- ReadBack.Poll: assumes that each sleep lasts at least its 0.3 seconds; the bound of 21 polls rests on it.
- WriteServer.Server.PackageTool: whether code_name, code and code_type pass their checks is a parameter, and the request that is
  built of them, as that of sql_execute, counts as the payload given.
