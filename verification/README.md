# Protocol engines and trackers of the access gateway, modelled and proved

The gateway's API puts hand-written wire-protocol engines between a user's client
and a managed database, shell or file server, and keeps small stateful records
beside them. This project models those engines in Dafny and proves what they are
for: octets pass through unchanged and messages end where they should; what the
proxy writes, a reader of the same format gets back; what it logs is what happened;
and what it promises about sessions, login attempts and launches holds over every
run, whatever runs in between.

How the code is modelled:

- A network connection is a `Streams.Conn`: the octets still to be read, the octets
  written so far, and how many more the peer takes before a write fails. A peer that
  stops sending or receiving at any point is therefore part of every claim.
- Code that updates streams, buffers, maps or arrays in place is a method or a class
  with the same loops and branches. It is proved to do what a function on values
  says, also when it stops half way, and the theorems are about that function.
- Errors are results (`Option`, `Read`, `Result`, `Verdict`), never preconditions.
- Octets are the newtype `byte`, text is a sequence of code points (`rune`), UTF-16
  code units are the newtype `unit`. Truncations the code makes (a length cut to 24
  or 32 bits, an eight-bit sequence number, a doubled 64-bit count) are written out.
- Clocks, library functions (HMAC, hash, base64, SASLprep, upper-casing) and the
  classification of SQL text are parameters; every result holds for any choice of them,
  base64 being assumed undoable and free of commas, and HMAC values 32 octets long.

The modules, one group to a component:

| modules | component |
|---|---|
| `Bytes`, `Text`, `Streams` | octets and integers on the wire, white space, connections |
| `MySqlWire`, `MySqlRelay`, `MySqlRelayLoops`, `MySqlSynthetic`, `MySqlForward`, `MySqlSession`, `MySqlHistory`, `MySqlReplies`, `MySqlFetch` | the MySQL proxy |
| `SftpFraming`, `SftpTracker`, `SftpInterleaving` | the SFTP observer of the SSH proxy |
| `Redis`, `RedisCommands` | the RESP reader and printer |
| `Tds`, `Utf16`, `Login7` | the SQL Server proxy |
| `Transcript`, `TranscriptEditing`, `TranscriptRows` | the terminal transcript |
| `Sessions`, `SessionSweep`, `SessionHistory` | session lifecycle and its background sweep |
| `PgStartup`, `Scram`, `ScramServer` | the PostgreSQL proxy's startup and authentication |
| `RateLimiter`, `LaunchTracker` | login rate limiter, connector launch tracker |

What turned out not to hold in general, with the condition under which it does:

- The proxy's own result set is accepted by its own relay if and only if it has at
  most 250 columns (`MySqlSynthetic.SyntheticAcceptedExactly`): the column count is
  cut to one octet, and 251 and above reads as something else.
- The reply to a COM_STMT_FETCH, rows without a column count, is relayed to its end if
  and only if every row, misread as an OK packet, happens to announce more results
  (`MySqlFetch.FetchRelayedExactly`); else the rest of it is left unread.
- Re-assembling SFTP packets is independent of how the stream is cut up if and only if
  no octet follows a bad length prefix (`SftpFraming.ChunkingIrrelevantExactly`): a
  bad prefix throws away the rest of its chunk, but not the next chunk.
- Cutting terminal input after a piece of text is harmless, whatever follows, if and only
  if that text is settled (`Transcript.SplittingInputExactly`): every operating system
  command in it has its BEL, and it does not end in an ESC or in a control sequence that
  lacks its final character. Text without ESC and whole control sequences are settled.
- A rewritten LOGIN7 field reads back as the given text if the text is empty, or lies in the
  Basic Multilingual Plane and is not all white space; of a field that held any character
  before, only if (`Login7.CredentialsReadBack`). The length word counts code points, not
  code units, and blank text is written as no octets but counted all the same
  (`Login7.BlankUserGrows`).
- A PostgreSQL parameter map survives printing and parsing if and only if all its keys
  and values are not empty, free of NUL and without white space at their ends
  (`PgStartup.StartupRoundTrip`).
- A SCRAM server that follows section 3 of RFC 5802 accepts the proxy's ClientKey if and
  only if the keys of the password and of the normalised password have the same hash
  (`ScramServer.ExchangeSucceedsExactly`), so it does for every password that normalisation leaves
  alone (`ScramServer.ExchangeSucceeds`): the proxy does not apply SASLprep, and vouches for ASCII
  only. A password that SASLprep changes may be rejected (`ScramServer.UnpreparedRejected`).
- A launch key's second start does not always come more than ttl after its first: TryStart
  takes its time before the lock, so times may go back. It does in all runs with given times
  if and only if no time that was more than ttl past another is followed by one within ttl of
  it (`LaunchTracker.SecondStartsLateExactly`). What decides a start in every order is
  `LaunchTracker.StartsExactly`.
- A DATA packet is logged as a download if and only if the last request put under its id is
  a READ, stored, and not yet answered (`SftpInterleaving.DownloadsAreComplete`). As a chunk
  is passed on before it is looked at, a DATA may overtake the storing of its READ, and is
  then not logged (`SftpInterleaving.DataOvertakes`).
- An active session has never ended, at any moment of a run, if and only if no shell is
  started in it after a statement that ended it (`SessionHistory.ActiveHasNotEndedExactly`):
  that update does not look at the status.

## Model

| member | source | states |
|---|---|---|
| Text.TrimExactly | apps/api/internal/redisproxy/server.go:515-521 | main result: trimming gives the one text between the white space at both ends, and that text has none at its ends |
| Text.BareTrims | apps/api/internal/redisproxy/server.go:515-521 | text is left alone exactly when it has no white space at its ends |
| Text.BlankTrims | apps/api/internal/pgproxy/server.go:709-728 | nothing is left exactly of text that is all white space |
| Text.TrimRunesExactly | apps/api/internal/handlers/sessions.go:1893-1906 | the same of text as code points |
| Text.SpaceEncodings | apps/api/internal/redisproxy/server.go:515-521 | the octet strings taken for white space are the UTF-8 encodings of the white space characters, and no others |
| MySqlWire.DecodeEncode | apps/api/internal/mysqlproxy/server.go:1022-1055 | a written packet is read back with its id and payload, whatever follows it |
| MySqlWire.EncodeDecode | apps/api/internal/mysqlproxy/server.go:1022-1055 | framing a packet that was read gives back the very octets it was read from |
| MySqlWire.ReadPacket | apps/api/internal/mysqlproxy/server.go:1022-1037 | reads one packet or, at a stream that ends inside one, nothing |
| MySqlWire.WritePacket | apps/api/internal/mysqlproxy/server.go:1040-1055 | the peer gets the framed packet, or as much of it as it takes and the write fails |
| MySqlWire.PacketLayout | apps/api/internal/mysqlproxy/server.go:1040-1055 | three octets of length, least significant first, one of id, then the payload |
| MySqlWire.LenEncRoundTrip | apps/api/internal/mysqlproxy/server.go:1595-1640 | every 64-bit value survives writing and reading, with any octets following, and exactly the octets written are consumed |
| MySqlWire.Buffer.WriteLenEncInt | apps/api/internal/mysqlproxy/server.go:1622-1640 | appends the shortest of the 1, 3, 4 and 9 octet forms |
| MySqlWire.OkStatusReadBack | apps/api/internal/mysqlproxy/server.go:1564-1584 | an OK packet with any counts and any trailing octets announces more results exactly by bit 0x0008 of its status |
| MySqlWire.OkPayloadMoreResults | apps/api/internal/mysqlproxy/server.go:1293-1301 | the proxy's own OK packet announces more results exactly by bit 0x0008 of the given status |
| MySqlWire.BuildOkPacket | apps/api/internal/mysqlproxy/server.go:1293-1301 | builds that packet through the buffer's writers; more results exactly by bit 0x0008 |
| MySqlWire.EofStatusReadBack | apps/api/internal/mysqlproxy/server.go:1586-1592 | an EOF packet announces more results exactly by bit 0x0008 of its status |
| MySqlRelay.RunTransparent | apps/api/internal/mysqlproxy/server.go:740-829 | an error-free relay of one response neither adds, drops nor reorders an octet, in either direction |
| MySqlRelay.ChainTransparent | apps/api/internal/mysqlproxy/server.go:731-738 | the same for a full response of any number of chained results |
| MySqlRelay.ResultSetThrough | apps/api/internal/mysqlproxy/server.go:758-802 | the packets of a well-formed result set lead the relay to its end, with the more-results flag of the last packet |
| MySqlRelay.RunInfile | apps/api/internal/mysqlproxy/server.go:804-829 | a LOCAL INFILE exchange moves the client's file up to its empty packet, then the server's result, and stops there |
| MySqlRelay.RunResponse | apps/api/internal/mysqlproxy/server.go:740-829 | the relay of one well-formed response (OK, ERR, LOCAL INFILE, result set) stops exactly at its end on both sides |
| MySqlRelay.ChainStopsAtItsEnd | apps/api/internal/mysqlproxy/server.go:731-829 | main result: whatever octets follow a well-formed chain of responses, the relay passes on exactly the chain and leaves the rest unread |
| MySqlRelay.RowsNeverEnd | apps/api/internal/mysqlproxy/server.go:786-802 | no row of length-encoded values and NULLs is taken for the EOF or ERR packet after the rows, whatever the values |
| MySqlRelayLoops.RelayOnePacket | apps/api/internal/mysqlproxy/server.go:898-904 | one packet moves from one connection to the other, or the read or the write fails |
| MySqlRelayLoops.RelayMany | apps/api/internal/mysqlproxy/server.go:771-779 | n packets are passed on unseen, or the first failure ends the relay |
| MySqlRelayLoops.RelayRows | apps/api/internal/mysqlproxy/server.go:786-802 | rows are relayed until an EOF or ERR packet, also when a peer fails half way |
| MySqlRelayLoops.RelayLocalInFile | apps/api/internal/mysqlproxy/server.go:804-829 | the file loop and the final reply, as the response automaton says |
| MySqlRelayLoops.RelaySingleResponse | apps/api/internal/mysqlproxy/server.go:740-784 | one response is relayed as the automaton says; after a failed write each peer has a prefix of its octets, and one of them as many as it takes |
| MySqlRelayLoops.RelayResponse | apps/api/internal/mysqlproxy/server.go:731-738 | relays the whole chain, and on an error-free return what each peer got is exactly what left the other's stream |
| MySqlRelayLoops.RelayFieldListResponse | apps/api/internal/mysqlproxy/server.go:883-896 | definitions are relayed until an EOF or ERR packet |
| MySqlRelayLoops.RelayDefinitions | apps/api/internal/mysqlproxy/server.go:860-881 | the parameter and column definitions of a PREPARE, each list with its EOF, are relayed |
| MySqlSynthetic.BuildRow | apps/api/internal/mysqlproxy/server.go:1486-1500 | one row: NULL for a missing, absent or too long value |
| MySqlSynthetic.WriteSyntheticTextResult | apps/api/internal/mysqlproxy/server.go:1467-1507 | writes the packets of the result, their ids consecutive modulo 256, or as much as the client takes |
| MySqlSynthetic.ResponseIsSynthetic | apps/api/internal/mysqlproxy/server.go:1467-1533 | up to 250 columns, the packets written are those of a result set of the protocol |
| MySqlSynthetic.ResponseWellFormed | apps/api/internal/mysqlproxy/server.go:1467-1533 | that result set is well formed and announces no further result |
| MySqlSynthetic.ResultReadBack | apps/api/internal/mysqlproxy/server.go:1467-1533 | main result: a client reads in it the given column names (cut to 250 octets, "value" for a blank one), the given values (NULL for those above 250 octets), and ids that follow the request's |
| MySqlSynthetic.MistakenForInfile | apps/api/internal/mysqlproxy/server.go:1471-1473 | a column count of 251 modulo 256 is taken for a LOCAL INFILE request |
| MySqlSynthetic.MistakenForRows | apps/api/internal/mysqlproxy/server.go:1471-1473 | above 250 columns, a count of 1 to 250 modulo 256 makes the relay stop at the EOF after the definitions |
| MySqlSynthetic.MistakenForEnd | apps/api/internal/mysqlproxy/server.go:1471-1473 | the other counts above 250 end the relay after the first packet |
| MySqlSynthetic.SyntheticAcceptedExactly | apps/api/internal/mysqlproxy/server.go:1467-1533 | main result: the relay consumes exactly the synthetic result, with none after it, if and only if it has at most 250 columns |
| MySqlForward.PreparedStmtCache.Store | apps/api/internal/mysqlproxy/server.go:127-131 | binds one id, leaves the others |
| MySqlForward.PreparedStmtCache.Lookup | apps/api/internal/mysqlproxy/server.go:133-138 | gives the statement bound to an id, if there is one |
| MySqlForward.PreparedStmtCache.Delete | apps/api/internal/mysqlproxy/server.go:140-144 | unbinds one id, leaves the others |
| MySqlForward.Proxy.WriteStartupProbeResponse | apps/api/internal/mysqlproxy/server.go:1453-1465 | answers a start-up probe with an OK packet, an empty result or one NULL row |
| MySqlForward.Proxy.RelayPrepareResponse | apps/api/internal/mysqlproxy/server.go:832-881 | relays the reply to a PREPARE; once its first packet has gone through, its statement id is bound to a statement that is not blank, even if the rest fails; before that the cache is as it was |
| MySqlForward.Proxy.OneCommand | apps/api/internal/mysqlproxy/server.go:584-719 | one turn of the switch: what is logged, forwarded, answered and remembered |
| MySqlForward.Proxy.ForwardCommands | apps/api/internal/mysqlproxy/server.go:577-721 | the loop carries out the session that the octets of both peers determine, and logs its log (a prefix when a peer stops taking octets) |
| MySqlHistory.BoundIsLastBinding | apps/api/internal/mysqlproxy/server.go:127-144 | a statement id is bound exactly when some exchange prepared it and none has since bound or closed it, and then to that exchange's SQL |
| MySqlHistory.OneExchange | apps/api/internal/mysqlproxy/server.go:584-719 | cache, start-up flag and probe count that agree with the history still agree after one more command, and that command is logged and answered rightly |
| MySqlHistory.SessionLogsRight | apps/api/internal/mysqlproxy/server.go:577-721 | so does every exchange of a session |
| MySqlHistory.ExecutionsCarryTheirStatement | apps/api/internal/mysqlproxy/server.go:645-689 | main result: an execution of id n is logged exactly when a PREPARE bound n and n was neither bound again nor closed since, with that PREPARE's truncated SQL; nothing else is logged as prepared |
| MySqlHistory.QueriesAreLogged | apps/api/internal/mysqlproxy/server.go:602-643 | main result, in every session: a query is answered by the proxy itself if and only if it is not blank and is about query_cache_size, or is a probe while only blank or so answered queries have come, and fewer than 24 probes were answered; every other query that is not blank is logged with its truncated text, and no other command is logged as a plain query |
| MySqlHistory.SqlText | apps/api/internal/mysqlproxy/server.go:603-604 | the text of a command is what stands after its first octet and before zeros at its end, without white space around it |
| MySqlHistory.TruncateKeeps | apps/api/internal/mysqlproxy/server.go:1394-1399 | a logged text is a beginning of its statement, all of it unless a limit above 0 is below its length |
| MySqlHistory.QuietCommands | apps/api/internal/mysqlproxy/server.go:577-721 | in every session: COM_STMT_CLOSE, COM_STMT_SEND_LONG_DATA, COM_QUIT and empty commands show the client nothing and read one packet; and nothing follows a COM_QUIT |
| MySqlReplies.PrepareStopsAtItsEnd | apps/api/internal/mysqlproxy/server.go:832-881 | main result: of a PREPARE reply (the statement's id, its parameters with their EOF, its columns with theirs, or an ERR packet) exactly the whole is relayed, whatever follows |
| MySqlReplies.FieldListStopsAtItsEnd | apps/api/internal/mysqlproxy/server.go:883-896 | main result: and of a FIELD_LIST reply, definitions up to an EOF or ERR packet |
| MySqlReplies.PrepareBinds | apps/api/internal/mysqlproxy/server.go:843-858 | the reply binds the id it carries to the statement, unless that is blank or the reply an ERR packet |
| MySqlReplies.MalformedReported | apps/api/internal/mysqlproxy/server.go:843-845 | a first packet that is too short or of another kind is passed on and reported as an error |
| MySqlReplies.EndsAtOnce | apps/api/internal/mysqlproxy/server.go:748-761 | an empty first packet, or a small one with the EOF mark, ends the reply |
| MySqlReplies.ReplyInSession | apps/api/internal/mysqlproxy/server.go:577-721 | main result, in a session: a command not answered by the proxy, followed by the reply its kind calls for, is one exchange in which each peer gets exactly what the other sent, and the session goes on with what comes after |
| MySqlSession.RelayConserves | apps/api/internal/mysqlproxy/server.go:731-896 | however a relay ends, each peer has got only what the other sent, in order; without an error, all that was read |
| MySqlSession.SessionConserves | apps/api/internal/mysqlproxy/server.go:577-721 | main result, for every session: the server gets what the client sent less the commands answered locally, the client what the server sent with those answers put in between, each the one for its kind of probe; nothing else is added, dropped or moved |
| MySqlSession.AnswersRead | apps/api/internal/mysqlproxy/server.go:1453-1465 | a client reads the answers as one NULL in a column "value", as no rows in the columns "Variable_name" and "Value", or as an OK packet, with nothing to follow |
| MySqlSession.FewProbesAnswered | apps/api/internal/mysqlproxy/server.go:579-625 | in a session at most 24 start-up probes are answered locally, besides queries about query_cache_size |
| MySqlFetch.FetchStops | apps/api/internal/mysqlproxy/server.go:713-720 | of the reply to a FETCH exactly the packets up to the first row that announces nothing more are relayed |
| MySqlFetch.FetchRelayedExactly | apps/api/internal/mysqlproxy/server.go:713-720 | main result: the whole reply is relayed if and only if every row, read as an OK packet, announces more results |
| MySqlFetch.ZeroRowEndsReply | apps/api/internal/mysqlproxy/server.go:713-720 | a row of zeros is such a row: the packets after it are left unread |
| MySqlFetch.FetchInSession | apps/api/internal/mysqlproxy/server.go:577-721 | main result, in a session: the client is shown the packets up to that row, and the others are where the next command's response should be |
| SftpFraming.PacketParser.Feed | apps/api/internal/sshproxy/server.go:835-858 | delivers the packets complete in buffer and chunk, in order, and keeps the rest |
| SftpFraming.FramedDelivered | apps/api/internal/sshproxy/server.go:835-858 | packets framed with lengths from 1 to 16 MiB - 4 are delivered as they are, whatever follows |
| SftpFraming.DrainConserves | apps/api/internal/sshproxy/server.go:835-858 | with good length prefixes, the delivered packets framed again and the buffer make up everything fed |
| SftpFraming.DrainAppend | apps/api/internal/sshproxy/server.go:835-858 | draining a clean beginning first changes neither packets nor buffer |
| SftpFraming.FeedIsDrain | apps/api/internal/sshproxy/server.go:835-858 | feeding a stream in chunks is feeding it at once, when nothing follows a bad prefix |
| SftpFraming.ChunkingIrrelevantExactly | apps/api/internal/sshproxy/server.go:835-858 | main result: every way of cutting a stream gives the same packets and buffer if and only if no octet follows a bad length prefix |
| SftpTracker.ReadStr | apps/api/internal/sshproxy/server.go:1066-1077 | a string found lies inside the payload, and the position after it is its end |
| SftpTracker.FormatsReadBack | apps/api/internal/sshproxy/server.go:866-1034 | OPEN, OPENDIR, READ, CLOSE, HANDLE, DATA, STATUS and NAME packets laid out as sections 3, 6 and 7 of draft-ietf-secsh-filexfer-02 say are understood with their id, path, handle and size |
| SftpTracker.RequestsRecorded | apps/api/internal/sshproxy/server.go:906-966 | main result: RENAME, WRITE, REMOVE, MKDIR, RMDIR, STAT, LSTAT, SETSTAT, REALPATH and READDIR packets of the draft are recorded with their old and new path, the path of their handle, the number of octets written, and change nothing |
| SftpTracker.RequestsWait | apps/api/internal/sshproxy/server.go:882-974 | main result: OPEN, OPENDIR and READ wait under their id with their path, handle and size; CLOSE forgets exactly its handle |
| SftpTracker.CutShort | apps/api/internal/sshproxy/server.go:866-880 | a client packet cut short before the end of its first string does nothing |
| SftpTracker.RepliesEnd | apps/api/internal/sshproxy/server.go:983-1034 | main result: STATUS, NAME, HANDLE and DATA end exactly the request with their id; HANDLE binds, unless handle or path is blank, and DATA is recorded with the path and the number of octets, if the request is a READ |
| SftpTracker.RelayState.StorePending | apps/api/internal/sshproxy/server.go:1079-1083 | a request waits under its id, replacing an earlier one |
| SftpTracker.RelayState.PopPending | apps/api/internal/sshproxy/server.go:1085-1093 | gives and removes the request waiting under an id |
| SftpTracker.RelayState.MapHandleToPath | apps/api/internal/sshproxy/server.go:1095-1102 | binds a handle unless handle or path is blank |
| SftpTracker.RelayState.LookupPathByHandle | apps/api/internal/sshproxy/server.go:1104-1108 | the path bound to a handle, or the empty path |
| SftpTracker.RelayState.DeleteHandle | apps/api/internal/sshproxy/server.go:1110-1114 | unbinds one handle |
| SftpTracker.RelayState.ParseClientPacket | apps/api/internal/sshproxy/server.go:866-975 | a client packet's effect on the tracker and the operations to record |
| SftpTracker.RelayState.ParseServerPacket | apps/api/internal/sshproxy/server.go:983-1034 | a server packet's effect on the tracker and the operations to record |
| SftpInterleaving.UninterruptedClient | apps/api/internal/sshproxy/server.go:866-975 | the critical sections of a client packet, run without interruption, do what its handler does |
| SftpInterleaving.UninterruptedServer | apps/api/internal/sshproxy/server.go:983-1034 | and those of a server packet |
| SftpInterleaving.RunKeeps | apps/api/internal/sshproxy/server.go:866-1034 | every run of critical sections keeps the invariant that ties pending requests, handles and log to the packets seen |
| SftpInterleaving.PathIsLastBinding | apps/api/internal/sshproxy/server.go:1095-1114 | after any number of events a handle's path is that of its last binding not closed since, and there is none exactly if there is no such binding |
| SftpInterleaving.RequestIsLastAsk | apps/api/internal/sshproxy/server.go:1079-1093 | after any number of events the request that waits under an id is the last one put there, unless it was answered since; none waits exactly if there is no such request |
| SftpInterleaving.DownloadsAreReal | apps/api/internal/sshproxy/server.go:866-1034 | main result, for every interleaving: a logged download stands for a DATA and the READ that waited under its id, with the size of the DATA; no READ is logged twice, or pending once it is logged; and the path is the one the READ's handle had when the READ came or, if none, when the DATA was dealt with, before the server's next packet |
| SftpInterleaving.DownloadsAreComplete | apps/api/internal/sshproxy/server.go:983-1034 | main result, the other direction: a DATA is logged, or just about to be, if and only if the last request put under its id is a READ, stored, that no reply has ended since |
| SftpInterleaving.DataOvertakes | apps/api/internal/sshproxy/server.go:806-824 | a DATA that comes before its READ is stored is not logged, and the READ goes on waiting |
| SftpInterleaving.PathsAreCurrent | apps/api/internal/sshproxy/server.go:983-1114 | main result, for every interleaving: the path a handle has is that of the last HANDLE reply that bound it, to an OPEN or OPENDIR of that path, with no CLOSE of the handle since |
| Redis.AtoiItoa | apps/api/internal/redisproxy/server.go:465-468 | a printed length is read back |
| Redis.FrameFrom | apps/api/internal/redisproxy/server.go:575-648 | reading a frame terminates on any input, and what it returns followed by what it leaves is what there was |
| Redis.Frame | apps/api/internal/redisproxy/server.go:567-573 | the same, the prefix included, and at least one octet is consumed |
| Redis.FrameReadBack | apps/api/internal/redisproxy/server.go:567-648 | main result: a well-formed frame, however nested, is consumed as a whole and nothing after it |
| Redis.FramesReadBack | apps/api/internal/redisproxy/server.go:611-637 | and so are the children of an array or a map |
| Redis.ReadFrameFromPrefix | apps/api/internal/redisproxy/server.go:575-648 | the reader with its loops and recursion gives exactly that frame and leaves exactly that rest |
| Redis.ReadFrameRaw | apps/api/internal/redisproxy/server.go:567-573 | the reader from the prefix on |
| RedisCommands.ReadValue | apps/api/internal/redisproxy/server.go:524-565 | reading a command's item accounts for every octet consumed |
| RedisCommands.ReadCommand | apps/api/internal/redisproxy/server.go:477-522 | so does reading a command |
| RedisCommands.CommandReadBack | apps/api/internal/redisproxy/server.go:462-565 | main result: any non-empty list of arbitrary octet strings, printed as a command, is read back octet for octet, whatever follows; name (upper-cased) and arguments are those strings without the white space at their ends, whole where there is none |
| RedisCommands.FramesAsCommand | apps/api/internal/redisproxy/server.go:477-565 | main result: so is an array of frames of any kind, however nested: a simple string or an integer counts with its text, other frames as empty |
| RedisCommands.OtherFrames | apps/api/internal/redisproxy/server.go:477-497 | any other frame, an empty array or one with a bad length is passed on whole and is no command |
| RedisCommands.BuildRespCommand | apps/api/internal/redisproxy/server.go:462-475 | the printer's loop builds the command |
| RedisCommands.ReadRespValueForCommand | apps/api/internal/redisproxy/server.go:524-565 | the item reader gives exactly that value and leaves exactly that rest |
| RedisCommands.ReadRespCommand | apps/api/internal/redisproxy/server.go:477-522 | the command reader gives exactly that command and leaves exactly that rest |
| Tds.WriteTdsPayload | apps/api/internal/mssqlproxy/server.go:699-737 | the loop writes the packets of the payload, or as much as the peer takes and fails |
| Tds.ReadTdsMessage | apps/api/internal/mssqlproxy/server.go:665-697 | the loop reads packets up to the end-of-message bit, or reports the bad length or the early end |
| Tds.ReadPackets | apps/api/internal/mssqlproxy/server.go:665-697 | the packets read, joined, followed by what is left, are what there was |
| Tds.MessageReadBack | apps/api/internal/mssqlproxy/server.go:665-737 | main result: for every type and payload, reading what was written gives back type, payload and the very packets, and nothing after them |
| Tds.BadPackets | apps/api/internal/mssqlproxy/server.go:665-697 | a length below 8 is reported, and so is a packet that breaks off |
| Tds.KindIsFirst | apps/api/internal/mssqlproxy/server.go:665-697 | a message has the first packet type that is not 0 |
| Tds.WireShape | apps/api/internal/mssqlproxy/server.go:699-737 | main result: ceil(n/4096) packets of at most 4104 octets, end of message on the last only, ids counting from 1 modulo 256 |
| Utf16.DecodeEncode | apps/api/internal/mssqlproxy/server.go:1035-1062 | text survives UTF-16 encoding and decoding |
| Utf16.PrefixDecodes | apps/api/internal/mssqlproxy/server.go:1035-1062 | as many code units as the text has code points decode to the text exactly when it lies in the BMP |
| Utf16.RevealObfuscated | apps/api/internal/mssqlproxy/server.go:1025-1033 | the nibble swap and the exclusive or with 0xA5 can be undone |
| Utf16.EncodeUtf16Le | apps/api/internal/mssqlproxy/server.go:1035-1047 | the loop's octets are the little-endian code units; blank text has none |
| Utf16.ObfuscateTdsPassword | apps/api/internal/mssqlproxy/server.go:1025-1033 | the loop obfuscates every octet of the encoded password |
| Login7.SetUtf16Field | apps/api/internal/mssqlproxy/server.go:899-915 | sets a field in place, or reports a field outside the record or a value too long and changes nothing |
| Login7.RewriteLogin7WithManagedCreds | apps/api/internal/mssqlproxy/server.go:890-930 | works on a copy, leaves the given record alone, and gives the rewritten record or the first error |
| Login7.SetFieldEffect | apps/api/internal/mssqlproxy/server.go:899-915 | setting one field succeeds exactly when it lies in the record and the value fits, puts zeros after the value, and changes nothing but that field and its count |
| Login7.RewriteEffect | apps/api/internal/mssqlproxy/server.go:890-930 | main result: with the fields to be set past the header, overlapping or not, and any values, the rewriting succeeds exactly when every value fits; it keeps the length and the fields' places, writes the counts, puts each value and zeros where its field was unless a later one overlaps it, and changes no other octet but the total length and the top bit of octet 25 |
| Login7.TextReadBack | apps/api/internal/mssqlproxy/server.go:917-928 | a field's text reads back exactly when it lies in the BMP |
| Login7.CredentialsReadBack | apps/api/internal/mssqlproxy/server.go:890-1062 | main result, when the fields to be set do not overlap: once rewritten, user, password (revealed) and database read back if empty, or BMP text that is not blank, and, where the field held a character, only if; a blank database leaves the old one that lies apart; the proxy's own parser reads the trimmed database |
| Login7.BlankUserGrows | apps/api/internal/mssqlproxy/server.go:899-919 | a blank user longer than the old one is accepted, and the record then claims more characters than the field had |
| Transcript.StripNothing | apps/api/internal/handlers/sessions.go:1989-1996 | text without ESC is left alone |
| Transcript.ConsumeInputChunk | apps/api/internal/handlers/sessions.go:1924-1953 | the loop that takes CR LF for one break gives what the editor without that memory gives |
| Transcript.SettledIsHarmless | apps/api/internal/handlers/sessions.go:1924-1953 | after settled text the cut changes neither commands nor leftover |
| Transcript.UnsettledHurts | apps/api/internal/handlers/sessions.go:1924-1996 | after any other text there is, for every buffer, a continuation for which it does |
| Transcript.SplittingInputExactly | apps/api/internal/handlers/sessions.go:1924-1996 | main result: cutting the input after a text is harmless for every continuation and buffer if and only if the text is settled, a scan of that text alone |
| Transcript.SplittingInput | apps/api/internal/handlers/sessions.go:1924-1953 | in particular after text without ESC, CR and LF apart included |
| Transcript.WholeSequenceIsSettled | apps/api/internal/handlers/sessions.go:1989-1996 | in particular after a whole control sequence |
| Transcript.SplittingEscape | apps/api/internal/handlers/sessions.go:1989-1996 | a control sequence cut in two is a counterexample with ESC |
| Transcript.NormalizeOutputChunk | apps/api/internal/handlers/sessions.go:1955-1987 | the output loop gives the lines of the chunk |
| TranscriptEditing.CsiIs | apps/api/internal/handlers/sessions.go:1994 | what is matched at a place is a control sequence, and the only one there |
| TranscriptEditing.OscIs | apps/api/internal/handlers/sessions.go:1995 | what is matched at a place is the longest operating system command there |
| TranscriptEditing.CsiTakenOut | apps/api/internal/handlers/sessions.go:1989-1991 | main result: the first control sequence is taken out, what stands before it stays, and what follows is taken on by itself |
| TranscriptEditing.NoCsiStays | apps/api/internal/handlers/sessions.go:1989-1991 | text without any stays as it is |
| TranscriptEditing.OscTakenOut | apps/api/internal/handlers/sessions.go:1989-1991 | the same of the first operating system command |
| TranscriptEditing.NoOscStays | apps/api/internal/handlers/sessions.go:1989-1991 | and of text without any |
| TranscriptEditing.JoinCrLfAt | apps/api/internal/handlers/sessions.go:1956 | every CR LF becomes one LF |
| TranscriptEditing.NoCrLfStays | apps/api/internal/handlers/sessions.go:1956 | and nothing else changes |
| TranscriptEditing.DropAllFirst | apps/api/internal/handlers/sessions.go:1957-1958 | a paste switch is taken out where it first occurs, and then in what follows |
| TranscriptEditing.DropAllNone | apps/api/internal/handlers/sessions.go:1957-1958 | and text without it stays as it is |
| TranscriptEditing.SurvivorsSnoc | apps/api/internal/handlers/sessions.go:2005-2014 | the characters left of a line are those that the backspaces after them never come to outnumber; one more backspace takes back the last of these |
| TranscriptEditing.CommandsTyped | apps/api/internal/handlers/sessions.go:1924-1953 | main result: the commands of a chunk are its lines, without escape sequences, each with the characters left, blank ones left out; the buffer comes first and the last line is left over |
| TranscriptEditing.LinesShown | apps/api/internal/handlers/sessions.go:1955-1987 | main result: the output lines of a chunk are, between its line feeds, the characters left after the last CR, empty ones left out |
| TranscriptRows.NormalizeTranscriptRows | apps/api/internal/handlers/sessions.go:1865-1922 | the rows are those of the accounting that the results below are about |
| TranscriptRows.NormalizeConserves | apps/api/internal/handlers/sessions.go:1865-1922 | no command and no output line is lost, added or moved, from any state on |
| TranscriptRows.NormalizeCounts | apps/api/internal/handlers/sessions.go:1890-1912 | every item keeps echoes tied to earlier commands, the queue at 32 or fewer, and in it exactly the commands that await their echo |
| TranscriptRows.TranscriptConserves | apps/api/internal/handlers/sessions.go:1865-1922 | main result: "in" rows are all non-blank commands in order; "out" rows and suppressed lines are all non-blank output lines in order; suppressed lines repeat earlier commands, in order, no command twice; at most 32 wait |
| TranscriptRows.RowByRow | apps/api/internal/handlers/sessions.go:1865-1922 | main result: row by row, every command and output line that is not blank is there in the order of the items, under its own item's id and time, less the suppressed lines |
| TranscriptRows.EchoesExactly | apps/api/internal/handlers/sessions.go:1890-1912 | main result: an output line is suppressed if and only if it equals the oldest command that awaits its echo, one not echoed so far and with fewer than 32 commands typed after it |
| TranscriptRows.CommandsOfWholeInput | apps/api/internal/handlers/sessions.go:1886-1890 | when each piece that input follows is settled, the commands are those of the whole input in one piece |
| TranscriptRows.NoEscCutsSettled | apps/api/internal/handlers/sessions.go:1886-1890 | so they are when there is no ESC in the input |
| TranscriptRows.WholeSequencesCutsSettled | apps/api/internal/handlers/sessions.go:1886-1890 | and when every piece is a whole control sequence |
| Sessions.ApplyKeeps | apps/api/internal/sessions/service.go:1712-1822 | one statement keeps the lifecycle invariant, and no session goes back to pending or changes a start that is set |
| Sessions.EveryRun | apps/api/internal/sessions/service.go:338-786 | main result, for every interleaving: active implies started, completed started and ended, failed ended; from any moment to any later one no return to pending and no changed start |
| Sessions.ExecuteIsRun | apps/api/internal/sessions/service.go:1712-1822 | an operation among others' statements, failing anywhere, is one such run |
| Sessions.Store.Exec | apps/api/migrations/000001_core_v1.up.sql:98-120 | one statement among the others', which may fail without effect; the tables refuse a session id that is taken and an event of a session that does not exist |
| Sessions.Service.CreateLaunch | apps/api/internal/sessions/service.go:354-379 | inserts a pending row, then its event, up to the first failure; on success the id was new, and the session exists for that user and action with its creation recorded |
| Sessions.LaunchCreates | apps/api/internal/sessions/service.go:354-379 | the row inserted is pending, neither started nor ended, under an id that was not taken |
| Sessions.Service.RecordConnectorLaunchEvent | apps/api/internal/sessions/service.go:633-662 | refuses other kinds and other users' sessions; records the event and, for a success, activates a pending session |
| Sessions.Service.MarkProxyConnected | apps/api/internal/sessions/service.go:1712-1736 | activates a session only if pending, then records the event |
| Sessions.Service.MarkShellStarted | apps/api/internal/sessions/service.go:1750-1773 | activates a session whatever its status, then event and audit record |
| Sessions.Service.MarkEnded | apps/api/internal/sessions/service.go:1775-1798 | completes a session, starting it if it had not started |
| Sessions.Service.MarkFailed | apps/api/internal/sessions/service.go:1800-1822 | fails a session and ends it |
| SessionSweep.Sweeper.FailUnmaterializedConnectorLaunches | apps/api/internal/sessions/service.go:664-767 | the sweep over the whole table, visited in any order, with its defaults, its check, guarded update, event and audit record, stopping at the first failure |
| SessionSweep.Sweeper.LaunchMaterialized | apps/api/internal/sessions/service.go:769-786 | has one of the action's events been recorded for the session |
| SessionSweep.OneOk | apps/api/internal/sessions/service.go:696-762 | one candidate is moved at most once, safely, and counted exactly when the whole turn succeeds |
| SessionSweep.SelectTakesOldest | apps/api/internal/sessions/service.go:678-699 | the query's rows come oldest success first, as many as there are and the limit allows, and no stale session left out is older than one taken |
| SessionSweep.MaterializedExactly | apps/api/internal/sessions/service.go:53-58 | a proxy connection materialises every launch; a success or a query only a dbeaver one, a file operation only an sftp one, a Redis command only a redis one |
| SessionSweep.LastSuccessIs | apps/api/internal/sessions/service.go:691-696 | the time the query goes by is that of the latest successful launch event of the session |
| SessionSweep.SweepRecords | apps/api/internal/sessions/service.go:738-758 | without an error every session moved has its failure recorded |
| SessionSweep.SweepIsRun | apps/api/internal/sessions/service.go:664-767 | main result: a sweep is a run of its own statements among the others', these in their order, and its moves are exactly its own guarded updates that had an effect |
| SessionSweep.UpdatesDiffer | apps/api/internal/sessions/service.go:664-786 | in any run no session is moved twice, nor one that no longer waits |
| SessionSweep.SweepIsSafe | apps/api/internal/sessions/service.go:664-786 | main result, whatever runs in between: only pending sessions are moved, to failed and nothing else, each once, never a dbeaver one nor one that had materialised when checked; the lifecycle invariant holds; and without an error the count is the number moved |
| SessionSweep.SweepIsExact | apps/api/internal/sessions/service.go:664-786 | undisturbed: exactly the selected sessions that have not materialised become failed and are counted; every other session stays as it was |
| SessionSweep.SweepFailsAllStale | apps/api/internal/sessions/service.go:664-786 | main result, undisturbed: when the stale sessions of the table do not exceed the limit, exactly those that have not materialised become failed and are counted |
| SessionHistory.TableFollows | apps/api/internal/sessions/service.go:1712-1822 | in every run the statements alone say whether a session exists, is pending, and has ended |
| SessionHistory.StatementsGiveRow | apps/api/internal/sessions/service.go:1712-1822 | main result, over every run: the statements alone give the whole row: its status is that of the last update that took effect (active, completed or failed), pending if none did; its start the time of the first that starts it, its end that of the last that ends it, its user and action those of the first insert |
| SessionHistory.StatementsGiveEvents | apps/api/internal/sessions/service.go:1625-1642 | and the events: exactly those recorded of sessions that existed by then |
| SessionHistory.OperationTakesEffect | apps/api/internal/sessions/service.go:1712-1822 | main result: when an operation that updates a session and records an event succeeds, the event is there, and the row has that status, start and end unless another statement has updated it since |
| SessionHistory.ActiveHasNotEndedExactly | apps/api/internal/sessions/service.go:1750-1822 | main result: that an active session has not ended holds at every moment of a run if and only if no shell is started in it after a statement that ended it |
| SessionHistory.SweptThenStarted | apps/api/internal/sessions/service.go:1750-1760 | a shell started just after the sweep failed its session: active, with the time of its end set |
| SessionHistory.FinalStays | apps/api/internal/sessions/service.go:1712-1822 | a completed or failed session keeps its row unless an unguarded update of it comes |
| PgStartup.CollectKeys | apps/api/internal/pgproxy/server.go:710-717 | the non-blank keys, sorted |
| PgStartup.KeysUnique | apps/api/internal/pgproxy/server.go:717 | there is only one such list, so the packet depends on the map alone |
| PgStartup.LessExactly | apps/api/internal/pgproxy/server.go:717 | keys are sorted by the first octet that differs, a beginning before what it begins |
| PgStartup.WriteStartupPacket | apps/api/internal/pgproxy/server.go:709-743 | writes the packet of the sorted keys, or as much as the peer takes |
| PgStartup.EntriesPrinted | apps/api/internal/pgproxy/server.go:719-733 | exactly the keys with a value that is not blank are printed, in their order, each with its value's text between the white space |
| PgStartup.ReadStartupPacket | apps/api/internal/pgproxy/server.go:679-693 | reads a packet, or reports a length below 8 or an early end |
| PgStartup.BadPackets | apps/api/internal/pgproxy/server.go:679-693 | a length word below 8 is an error, and so is a packet that breaks off |
| PgStartup.ParseStartupParams | apps/api/internal/pgproxy/server.go:695-707 | the loop gives the pairs up to the first blank key, later ones winning |
| PgStartup.SplitJoined | apps/api/internal/pgproxy/server.go:697 | the parts, joined by NUL, are the octets parsed |
| PgStartup.PairsExactly | apps/api/internal/pgproxy/server.go:698-705 | main result: exactly the keys of pairs before the first blank key are parsed, each with the text of the value in its last such pair |
| PgStartup.PairsClean | apps/api/internal/pgproxy/server.go:695-707 | whatever is parsed, keys are not empty, and keys and values are free of NUL and of white space at their ends |
| PgStartup.EntriesReadBack | apps/api/internal/pgproxy/server.go:695-733 | parsing printed entries gives the parameters with values that are not empty |
| PgStartup.PacketReadBack | apps/api/internal/pgproxy/server.go:679-743 | a written packet that fits its length word is read as written, and nothing after it |
| PgStartup.StartupRoundTrip | apps/api/internal/pgproxy/server.go:679-743 | main result: writing, reading and parsing gives back the map if and only if its keys and values are not empty, free of NUL and without white space at their ends |
| Scram.XorInto | apps/api/internal/pgproxy/server.go:1088-1090 | exclusive or, octet by octet, in place |
| Scram.ScramHi | apps/api/internal/pgproxy/server.go:1077-1093 | the loop computes the recursive Hi of section 2.2 of RFC 5802 for every iteration count, one below 1 counting as 1 |
| Scram.BuildClientFinal | apps/api/internal/pgproxy/server.go:970-995 | the proof and the expected server signature of section 3 of RFC 5802, for the password as it is |
| Scram.XorAllTwice | apps/api/internal/pgproxy/server.go:984-989 | the exclusive or with the signature can be undone |
| Bytes.XorIs | apps/api/internal/pgproxy/server.go:984-989 | each bit of the exclusive or is 1 where exactly one of the two is |
| ScramServer.HiIsSaltedPassword | apps/api/internal/pgproxy/server.go:1077-1093 | the proxy's running exclusive or is the salted password of section 2.2 of RFC 5802, octet by octet |
| ScramServer.ExchangeSucceedsExactly | apps/api/internal/pgproxy/server.go:969-1027 | main result, for any 32-octet HMAC, any hash and any normalisation: a server following section 3 of RFC 5802, which stores the key of the normalised password, recovers the proxy's ClientKey and accepts it if and only if the two keys have the same hash |
| ScramServer.ExchangeSucceeds | apps/api/internal/pgproxy/server.go:969-1027 | main result: for a password that normalisation leaves alone the server recovers ClientKey and accepts, and the proxy accepts its answer |
| ScramServer.OnlyExpectedAccepted | apps/api/internal/pgproxy/server.go:1014-1026 | the proxy accepts the expected server signature and no other |
| ScramServer.UnpreparedRejected | apps/api/internal/pgproxy/server.go:1108-1111 | for one HMAC, hash and normalisation, the no-break space as a password is rejected |
| RateLimiter.LoginRateLimiter.Prune | apps/api/internal/auth/rate_limiter.go:72-85 | drops from the front the attempts before the cutoff |
| RateLimiter.LoginRateLimiter.RecordFailure | apps/api/internal/auth/rate_limiter.go:33-38 | prunes the key's attempts and adds one |
| RateLimiter.LoginRateLimiter.IsBlocked | apps/api/internal/auth/rate_limiter.go:41-48 | prunes, and says whether at least max attempts are left |
| RateLimiter.LoginRateLimiter.Reset | apps/api/internal/auth/rate_limiter.go:51-55 | forgets a key |
| RateLimiter.LoginRateLimiter.Cleanup | apps/api/internal/auth/rate_limiter.go:58-70 | prunes every key and forgets those with nothing left |
| RateLimiter.PrefixPruningIsFiltering | apps/api/internal/auth/rate_limiter.go:72-85 | on a sorted list, pruning from the front leaves as many as filtering |
| RateLimiter.KeptIsEnough | apps/api/internal/auth/rate_limiter.go:33-85 | in every run, what is kept and all failures since the last reset differ only by what has left the window |
| RateLimiter.LimiterIsNaive | apps/api/internal/auth/rate_limiter.go:33-85 | main result: on a clock that never goes back, IsBlocked says yes exactly when at least max failures since the key's last reset lie within the window |
| RateLimiter.CleanupIsInvisible | apps/api/internal/auth/rate_limiter.go:58-70 | main result: on such a clock, cleaning up, or asking, at any moment changes no later answer |
| LaunchTracker.Tracker.Prune | apps/connector/cmd/connector/main.go:895-901 | drops the entries more than ttl old |
| LaunchTracker.Tracker.TryStart | apps/connector/cmd/connector/main.go:858-874 | starts a key unless a live entry is in progress or completed |
| LaunchTracker.Tracker.FinishSuccess | apps/connector/cmd/connector/main.go:876-887 | marks an entry completed and stamps it anew |
| LaunchTracker.Tracker.FinishFailure | apps/connector/cmd/connector/main.go:889-893 | forgets a key |
| LaunchTracker.HeldSince | apps/connector/cmd/connector/main.go:858-901 | from a successful start on, whatever the times, the key is held with the time of its last stamp, was reported failed, or was found more than ttl past its last stamp by a TryStart |
| LaunchTracker.StartedTwice | apps/connector/cmd/connector/main.go:858-901 | for every order of the calls and whatever times they bring: between two successful starts of a key its failure was reported, or a TryStart, the second start at the latest, came more than ttl after the key's last stamp, its first start or the latest success |
| LaunchTracker.SecondStartsLateExactly | apps/connector/cmd/connector/main.go:858-901 | main result: in every run with given times each second start comes more than ttl after that stamp, or after a failure, if and only if the times do not relapse to within ttl of a time they had left behind |
| LaunchTracker.StartedTwiceInOrder | apps/connector/cmd/connector/main.go:858-901 | so it does when the times never go back |
| LaunchTracker.ClockGoesBack | apps/connector/cmd/connector/main.go:858-866 | a relapse, and a second start that comes within ttl |
| LaunchTracker.EntriesExplained | apps/connector/cmd/connector/main.go:858-901 | every entry stems from a successful start neither reported failed nor found old since, and has the time of its last stamp |
| LaunchTracker.RefusedBecauseHeld | apps/connector/cmd/connector/main.go:858-901 | a start is refused only because of an earlier successful start, neither reported failed nor found old since, this call included |
| LaunchTracker.StartsExactly | apps/connector/cmd/connector/main.go:858-901 | main result, both directions: TryStart succeeds if and only if every earlier successful start of the key was reported failed, or found more than ttl past its last stamp, this call at the latest |

## Left out

- Sockets, TLS, certificates, timeouts, goroutine start and shutdown: a connection is octets in, octets out, and a limit on what the peer takes.
- MySQL handshake and authentication, and the SQL text matching behind the start-up probes: `classify` and the query_cache_size test are arbitrary functions of the text.
- MySQL payloads of 2^24-1 octets and their continuation packets: the relay treats each packet on its own, so the claims about where a response ends exclude them; transparency does not.
- The query-log queue, which drops entries when full, and the worker that stores them.
- SFTP: recording an operation in the database, and what its payload looks like.
- Redis: allocation failure for an announced length near 2^63; authentication, summarising and logging of commands.
- Redis.AtoiItoa: lengths above 2^63-1, which no Go slice has.
- SQL Server: PRELOGIN, login responses, query capture; parseLogin7Fields, whose result the rewriting does not use.
- Login7.RewriteEffect: fields to be set that start inside the 94-octet header, so that writing them moves others; the method's own contract covers them exactly.
- Login7.CredentialsReadBack: the "only if" for blank text written to a field that had no characters, whose count then covers octets that are not its own, whatever they are; and overlapping fields.
- Terminal transcript: base64 and UTF-8 decoding; an item whose data does not decode is `None`.
- Terminal transcript: chunks that end inside a UTF-8 sequence; they do not decode, and the code drops them.
- Sessions: joins with assets and users, event payloads, audit contents, token signing and input checks in CreateLaunch; a new session's id is whatever the database comes up with; actions are taken as already trimmed; sessions with the same success time come in an arbitrary order. A statement that fails has no effect: a database error reported after a committed update is not modelled.
- PostgreSQL: startup packets of 2^32 octets or more (the length word wraps), server-first parsing, message framing, MD5 authentication, and statement logging by name.
- The rate limiter's and the tracker's locks: each method is one critical section, in some order. The rate limiter takes its time inside, so a clock that never goes back orders the times; TryStart takes it before, so nothing is assumed of the tracker's times. Times are integers.
- The MongoDB proxy, LDAP, configuration, HTTP handlers, the user interface and everything else that holds no protocol state.
