# GreenSQL-FW: a model and its proofs

GreenSQL-FW is a proxy that stands between SQL clients and a database. It cuts the byte streams
into messages, turns every query into a pattern, looks the pattern up in a whitelist, judges
unknown queries and logs alerts. This project models those parts in Dafny and proves what they
keep over all inputs and all runs.

## Layout

| files | what they hold |
|---|---|
| `Text`, `QuotedText`, `Comments`, `Numbers`, `Spaces`, `Signs` | what each pass of the normaliser means, its fixed points, and what it leaves intact of the other passes |
| `Characters` | the character classes, by the codes the source compares with |
| `NormalForm` | the pattern of a query: canonical form, when normalising twice is normalising once |
| `Normalization` | the passes as the program runs them: one string, overwritten and erased in place |
| `CommentParts` | texts whose comments end in them, and that what a comment says does not matter |
| `SignRule` | the rule by which signs are dropped, told by the text in front of each |
| `Templates`, `SignedNumbers`, `Queries` | queries that differ only in their literals, or in the signs of their numbers, have one pattern |
| `Lexer` | the string scanner of the SQL lexer, and its agreement with the normaliser |
| `Frames` | PostgreSQL message framing (Frontend/Backend Protocol 3.0, "Messaging Overview", section 53.1.1 of the PostgreSQL 14 manual) |
| `Messages` | messages as a sender writes them, and that cutting gives them back |
| `ProxyMachine`, `ProxyInvariants`, `ProxyRuns` | a proxied connection as a state machine with histories, and its invariants over every run |
| `ProxyMessages`, `Replies` | the proxy in terms of messages: what is examined, what waits, and which queries are answered locally |
| `ProxyDelivery`, `ProxyExamples` | what the client is sent; runs in which a property fails |
| `Proxy` | the connection object: four buffers, two write events, the callbacks, each proved to do what the machine says |
| `Expressions`, `Parser`, `ParseTrees` | the expressions the grammar actions fold, the registries that own them, whole parses |
| `Whitelist` | learning, reloading and enforcing over an abstract table |
| `AlertGroups` | the cache of alert group identifiers over an abstract table |
| `MySqlPackets`, `MySqlHandshake`, `MySql` | MySQL response packets, the rewritten greeting, and the connection that passes them on |

Bytes are 0..255; a `std::string` is a sequence whose index `size` reads as zero. What a socket
accepts or delivers, what a database query returns, whether a statement works, and the verdict on a
query are arguments of the steps, so the theorems hold for all of them.

Nine things the proofs brought out about the code, each with its exact condition and an input:

* Normalising twice is not always normalising once: the line after a `#` or `--` comment is joined
  to the marker. It is exactly when the query, after the quote and comment passes, has no opening
  quote and only bare markers (`NormalForm.IdempotentExactlyWhen`, `NormalForm.MarkedNotIdempotent`).
* A request buffer of exactly eight bytes is dropped at any time, not only before the startup
  packet. So the client's stream is passed on in full exactly in the runs in which no callback had
  eight bytes to parse, and a query that is examined in one run is not in another over the same
  stream (`ProxyRuns.FullyKeptExactlyWhen`, `ProxyExamples.SameStreamTwoWays`).
* A local reply put into the client's empty queue, where the write whose result is ignored fails
  hard, is the one way to leave bytes in a queue without an armed write event; the first eight bytes
  of a client that asks for encryption can do it (`ProxyRuns.StepArms`, `ProxyExamples.ReplyIsLost`).
* The answer to eight bytes is a single byte. What the client is sent is whole frames throughout
  exactly in the runs in which no eight bytes are answered with nothing waiting to be parsed
  (`ProxyDelivery.ClientReceivesFrames`, `ProxyExamples.AnswerIsNoFrame`).
* The server's greeting escapes the rewrite exactly when a call finds five or six bytes of it
  (`MySqlHandshake.GreetingExactlyWhen`, `MySqlPackets.OpeningTorn`).
* An alert group whose lookup fails is inserted a second time (`AlertGroups.RunAgreesExactlyWhen`,
  `AlertGroups.FailedLookupRepeats`).
* A complete MySQL packet with at most one byte of payload, behind other packets, is held back until
  more bytes come (`MySqlPackets.EmptiedExactlyWhen`, `MySqlPackets.LastPacketStays`).
* A message of exactly sixteen bytes is never judged, whatever its type: the test meant for requests
  to cancel sorts it out first, so a query of ten characters is passed on unjudged (`Replies.StepReplies`,
  `Replies.SixteenBytesPass`).
* Learning skips what the cache accepts, so a cached pattern without a row would be lost at the next
  reload; no run leads to one from an empty cache (`Whitelist.RunKeepsBacked`,
  `Whitelist.UnbackedIsLost`).

## Model

| member | source | states |
|---|---|---|
| Normalization.Query.NormalizeQuery | src/normalization.cpp:29-38 | on a non-empty query the six passes leave the pattern, and never lengthen the text |
| Normalization.Query.RemoveQuotedText | src/normalization.cpp:271-300 | replacing literals in place leaves every literal as one `?` and all other text |
| Normalization.Query.LookForChar | src/normalization.cpp:352-380 | the index found is that of the closing delimiter, or the size when there is none |
| Normalization.Query.RemoveComments | src/normalization.cpp:40-46 | the three comment passes in order |
| Normalization.Query.RemoveCppComment | src/normalization.cpp:100-142 | block comments collapse to a space; the scan for the end stops as the code's does |
| Normalization.Query.RemoveHashComment | src/normalization.cpp:144-174 | the text of `#` comments goes, the marker stays |
| Normalization.Query.RemoveDashComment | src/normalization.cpp:176-204 | the same for `--` |
| Normalization.Query.RemoveNumbers | src/normalization.cpp:206-269 | each number after a separator becomes `?`, with fraction or hexadecimal digits |
| Normalization.Query.RemoveSpaces | src/normalization.cpp:53-94 | both loops and the final trim leave the stripped text |
| Normalization.Query.FixNegativeNumbers | src/normalization.cpp:302-350 | signs in front of values go, although the scan erases delimiters ahead of itself and `size()-1` wraps |
| Characters.ClassesByCode | src/normalization.cpp:17-19 | for every character, by its code: whether it is a space, a digit, a quote, a line break, in front of numbers or beside dropped spaces |
| QuotedText.CloseAtWellFormed | src/normalization.cpp:352-380 | the search stops exactly at the delimiter behind a body in which every delimiter is doubled or escaped |
| QuotedText.CloseAtIsBody | src/normalization.cpp:352-380 | conversely, wherever the search stops, it has passed a well-formed body |
| QuotedText.StripFixedPoint | src/normalization.cpp:271-300 | the pass changes nothing if and only if no quote would open a literal |
| Comments.CommentsFixedPoint | src/normalization.cpp:40-46 | the comment passes change nothing if and only if no marker has text to remove |
| CommentParts.BlockBodyVanishes | src/normalization.cpp:100-142 | after text whose blocks are closed, a closed block leaves its markers and one space if it said anything, and nothing else of its body |
| CommentParts.HashCommentVanishes | src/normalization.cpp:144-174 | a `#` comment leaves its marker joined to the next line, whatever it says and however many line breaks follow |
| CommentParts.DashCommentVanishes | src/normalization.cpp:176-204 | the same for `--`, whose second dash is looked at again with the next line |
| CommentParts.CommentsSplit | src/normalization.cpp:40-46 | text whose comments end in it is treated on its own, whatever follows, if no marker arises where the two meet |
| CommentParts.BlockCutAtSlash | src/normalization.cpp:108-136 | a block with a slash before any star loses the character before it, the slash and two more, and keeps the rest |
| CommentParts.OpenBlockLost | src/normalization.cpp:108-136 | a block that is never closed loses all its text |
| CommentParts.BlocksFirst | src/normalization.cpp:40-46 | a text on which the order of the comment passes shows |
| Numbers.NumbersFixedPoint | src/normalization.cpp:206-269 | the pass is idempotent and changes nothing if and only if no digit follows a separator |
| Numbers.NumberLengthOfLiteral | src/normalization.cpp:230-262 | the scan takes exactly a decimal or hexadecimal literal if and only if the next character cannot extend it |
| Templates.QuietExactly | src/normalization.cpp:206-222 | the pass leaves a text alone if and only if no digit in it stands behind white space or one of fifteen other characters |
| Templates.NumbersExactly | src/normalization.cpp:206-269 | each number behind one of those characters becomes one question mark, and all other text stays, digits inside words included |
| Numbers.NumbersKeepQuotes | src/normalization.cpp:206-269 | a quote that would open a literal is there after the pass if and only if one was before, the escape state included |
| Numbers.NumbersKeepBare | src/normalization.cpp:206-269 | all comment markers are bare after the pass if and only if they were before |
| Spaces.SpacesRenderShape | src/normalization.cpp:53-94 | collapsing, tightening and trimming give a rendering of the text's characters and gaps |
| Spaces.ShapeOfRespaced | src/normalization.cpp:53-94 | the output has the same non-space characters in the same order, with a space where one counts |
| Spaces.SpacesDecideEquivalence | src/normalization.cpp:53-94 | two outputs are equal if and only if resizing runs of spaces and adding or dropping optional ones leads from one input to the other |
| Spaces.SpacesFixedPoint | src/normalization.cpp:53-94 | the pass is idempotent and its fixed points are the tidy texts |
| Spaces.SpacesKeepQuotes | src/normalization.cpp:53-94 | a quote that would open a literal is there after the pass if and only if one was before, although spaces behind backslashes go |
| Spaces.SpacesKeepBare | src/normalization.cpp:53-94 | all comment markers are bare after the pass if and only if they were before |
| Spaces.SpacesKeepNumbers | src/normalization.cpp:53-94 | stripping spaces puts no digit behind a separator |
| Signs.SignsFixedPoint | src/normalization.cpp:302-350 | the pass is idempotent and its fixed points are the texts without a sign before a value |
| SignRule.SignsByRule | src/normalization.cpp:302-350 | for every text the pass drops exactly the signs behind a parenthesis, a comma or one of five keywords that stands as a word, and keeps every other character in order |
| Signs.SignsKeepNumbers | src/normalization.cpp:302-350 | dropping signs brings no number back |
| Signs.SignsKeepBare | src/normalization.cpp:302-350 | all comment markers are bare after the pass if and only if they were before: a dropped sign is never half of a `--` |
| Spaces.SignsKeepTidy | src/normalization.cpp:302-350 | dropping signs leaves space-normalised text space-normalised |
| NormalForm.FixedPoints | src/normalization.cpp:29-38 | the whole normaliser leaves a text alone if and only if it is canonical, a condition that mentions no pass: no pass can undo another |
| NormalForm.PatternForms | src/normalization.cpp:29-38 | every pattern has no number left, tidy spaces and settled signs |
| NormalForm.PatternShows | src/normalization.cpp:33-36 | for every text, the last three passes leave an opening quote if and only if there was one, and all markers bare if and only if they were |
| NormalForm.IdempotentExactlyWhen | src/normalization.cpp:29-38 | normalising twice is normalising once if and only if, once quotes and comments are handled, no quote opens a literal and every marker is bare: white space behind a line marker, white space and the closing marker behind a block's |
| NormalForm.UnmarkedIdempotent | src/normalization.cpp:29-38 | it is so for every query without comment markers outside its literals |
| NormalForm.MarkedNotIdempotent | src/normalization.cpp:144-174 | an input with a marker for which it is not |
| Queries.NumberMasked | src/normalization.cpp:206-269 | `a1=5` has the pattern `a1=?` |
| Queries.FirstNumberStays | src/normalization.cpp:212 | `5` is its own pattern |
| Queries.SignStays | src/normalization.cpp:302-350 | `x=-1` has the pattern `x=-?` |
| Templates.LiteralBlind | src/normalization.cpp:271-300 | all well-formed fillings of a template's quoted holes give one pattern, that of the template with `?` in each hole |
| Templates.NumericHolesMasked | src/normalization.cpp:206-269 | after number removal the numeric holes have become `?` whatever their literals |
| Templates.ValueBlind | src/normalization.cpp:29-38 | the same for quoted and numeric holes mixed, through the whole normaliser, with comments in the fixed texts that end there, and any in the last |
| Templates.UnmarkedFits | src/normalization.cpp:100-204 | templates without comment markers are among them |
| SignedNumbers.SignBlind | src/normalization.cpp:302-350 | in a template with quoted and numeric holes and comments in its texts, any signs behind a parenthesis, a comma or one of the five keywords leave the pattern of the template without signs, whatever fills the holes |
| Lexer.Scanner.GetQString | src/parser/sql.lex:246-309 | the token, the text of the literal with doubled delimiters undone, and how many characters were taken |
| Lexer.SearchesAgree | src/parser/sql.lex:246-309 | for every text, delimiter and escape state the lexer takes exactly what the normaliser's search passes, and the closing delimiter |
| Lexer.BothEnds | src/normalization.cpp:352-380 | the two objects on one text: the search ends where it is specified to, and the scanner stands right behind |
| Lexer.ReadInvertsDoubling | src/parser/sql.lex:256-287 | reading inverts doubling for every text that does not end in an open backslash |
| Lexer.UnterminatedRead | src/parser/sql.lex:299-308 | an unterminated literal is read to the end, doubled delimiters undone |
| Lexer.NameRead | src/parser/sql.lex:256-288 | with any other delimiter the first unescaped one ends the literal, doubled or not |
| Lexer.PlainNotEscaped | src/parser/sql.lex:289-297 | text without backslashes is such a text |
| Frames.CutContinues | src/pgsql/pgsql_con.cpp:136-154 | the frames and the leftover of a stream do not depend on where it is split |
| Frames.LeftoverIsShort | src/pgsql/pgsql_con.cpp:144-153 | the leftover is under five bytes or shorter than its own declared size |
| Frames.FrontIsWhole | src/pgsql/pgsql_con.cpp:193-201 | what is cut off is whole frames |
| Frames.FrontIsFrames | src/pgsql/pgsql_con.cpp:136-154 | the frames cut from a stream, put together, are the bytes in front of the leftover |
| Frames.WholeIsCut | src/pgsql/pgsql_con.cpp:193-201 | a buffer is emptied if and only if it holds whole frames |
| Messages.ReadBack | src/pgsql/pgsql_con.cpp:136 | reading four bytes gives back the number that a sender wrote into them, or from 2^31 on that number less 2^32 |
| Messages.CutMessages | src/pgsql/pgsql_con.cpp:136-154 | from any sequence of messages, as a sender writes them, and the start of another, exactly those messages are cut and the start is left |
| Messages.CutStream | src/pgsql/pgsql_con.cpp:192-201 | a stream of whole messages leaves nothing |
| Messages.FrameIsMessage | src/pgsql/pgsql_con.cpp:192-201 | conversely, whatever is cut is a message as a sender writes it |
| Proxy.Buffer.Append | src/buffer.cpp:24-30 | the bytes are added at the end |
| Proxy.Buffer.ChopBack | src/buffer.cpp:32-39 | the bytes go from the front, at most all |
| Proxy.Buffer.Pop | src/buffer.cpp:41-49 | what is returned and what stays is what was there |
| Proxy.Connection.ProxyWriteCb | src/proxy.cpp:268-306 | the client's queue loses what was sent, and its event is armed if something stays |
| Proxy.Connection.BackendWriteCb | src/proxy.cpp:388-430 | the same towards the backend, with the retry before the first response |
| Proxy.Connection.ExamineFrame | src/pgsql/pgsql_con.cpp:248-483 | which frames are answered locally, and what the reply and the password flag do to the connection |
| Proxy.Connection.ParseRequestBuffer | src/pgsql/pgsql_con.cpp:92-155 | short input, eight bytes, the startup packet and the frame loop, as the machine's step |
| Proxy.Connection.ParseResponseBuffer | src/pgsql/pgsql_con.cpp:175-210 | both branches leave the leftover of the stream or all of it |
| Proxy.WalkFrames | src/pgsql/pgsql_con.cpp:484-627 | the all-or-nothing loop succeeds if and only if under five bytes follow the last whole frame |
| Proxy.Connection.ValidateServer | src/proxy.cpp:432-448 | parse a response and send it on |
| Proxy.Connection.ValidateClient | src/proxy.cpp:308-344 | parse requests, flush a local reply, send the requests on |
| Proxy.Connection.ProxyCb | src/proxy.cpp:228-267 | the callback of the client's socket is a step of the machine |
| Proxy.Connection.BackendCb | src/proxy.cpp:346-386 | the callback of the backend's socket is a step of the machine |
| ProxyInvariants.StepConserves | src/proxy.cpp:228-448 | one callback keeps both streams: received is sent, then queued, then unparsed, in order |
| ProxyRuns.StepArms | src/proxy.cpp:268-344 | after a callback that leaves the connection open a write event is armed exactly when its queue is non-empty, if and only if no reply was lost to the write whose result is ignored |
| ProxyRuns.StepAligns | src/pgsql/pgsql_con.cpp:175-210 | what is forwarded to the client is whole frames of the backend, and nothing is held back when whole frames were received, while no reply was put inside a frame |
| ProxyRuns.StepInStep | src/pgsql/pgsql_con.cpp:136-154 | the frames examined are those of the stream, each once and in order |
| ProxyRuns.EveryRun | src/proxy.cpp:228-448 | all four invariants over every run of reads and partial, refused or failed writes |
| ProxyMessages.MessagesExamined | src/pgsql/pgsql_con.cpp:92-155 | in a run in which no callback had eight bytes to parse, the messages the client sent after its startup packet are examined whole, each once and in order, and the start of another is held back |
| ProxyMessages.StartupDecided | src/pgsql/pgsql_con.cpp:125-134 | a startup packet waits, closes the connection or goes on, by its written length |
| ProxyMessages.ResponsesDecided | src/pgsql/pgsql_con.cpp:175-210 | of messages from the backend and the start of another, which go on and which wait, by the first byte, the startup and password state and the length of that start; and when that state ends |
| ProxyMessages.PasswordsNoted | src/pgsql/pgsql_con.cpp:311-322 | a parse enters the password state if and only if one of the messages is a password of the right shape |
| ProxyMessages.WritesSend | src/proxy.cpp:268-306 | a write sends the front of the queue, as much as the socket takes |
| ProxyMessages.FailedWrites | src/proxy.cpp:406-417 | a failing write closes the connection, or is put off until the backend has answered once |
| Replies.StepReplies | src/pgsql/pgsql_con.cpp:355-381 | one callback answers, in order, each examined query whose verdict is a refusal with one refusal, or eight bytes with one byte, and nothing else; queries are told by their bytes, and none has sixteen |
| Replies.RefusalIsSent | src/pgsql/pgsql_con.cpp:212-218 | the refusal is three messages: an empty row description, the end of a SELECT, ready for query |
| Replies.SixteenBytesPass | src/pgsql/pgsql_con.cpp:311-314 | a query of sixteen bytes with its frame is answered by no refusal, whatever the verdict |
| Replies.RunGivesReplies | src/pgsql/pgsql_con.cpp:92-155 | the same over every run |
| Replies.AllowedRuns | src/pgsql/pgsql_con.cpp:355-381 | if every verdict is favourable the proxy answers nothing but eight-byte blocks, each once |
| ProxyRuns.StepDrops | src/pgsql/pgsql_con.cpp:105-124 | a callback drops a block if and only if it then has exactly eight bytes to parse |
| ProxyRuns.FullyKeptExactlyWhen | src/pgsql/pgsql_con.cpp:105-124 | the client's stream is passed on in full if and only if no callback of the run had eight bytes to parse |
| ProxyRuns.ChunkingIndependent | src/pgsql/pgsql_con.cpp:92-155 | two runs over the same client stream in which that never happens examine the same frames and hold back the same bytes, however it was chunked |
| ProxyRuns.SplitMatters | src/pgsql/pgsql_con.cpp:105-124 | from any state after startup, an eight-byte frame is dropped alone and examined together with the next one |
| ProxyExamples.SameStreamTwoWays | src/pgsql/pgsql_con.cpp:105-124 | two runs from the start over one client stream that examine different frames |
| ProxyExamples.ReplyIsLost | src/proxy.cpp:333-336 | eight bytes and a failing client socket leave a queued answer that no event will send |
| ProxyRuns.ReplyLands | src/pgsql/pgsql_con.cpp:112-119 | a local reply goes between whole frames of the backend, or behind an unfinished one |
| ProxyDelivery.StepDelivers | src/pgsql/pgsql_con.cpp:105-124 | after whole frames, a callback with well-formed lengths sends the client whole frames if and only if it does not answer eight bytes with nothing from the backend waiting to be parsed |
| ProxyDelivery.ClientReceivesFrames | src/pgsql/pgsql_con.cpp:175-210 | at every moment of a run with well-formed lengths what the client was sent, replies included, is whole frames, if and only if no callback of the run did that |
| ProxyExamples.AnswerIsNoFrame | src/pgsql/pgsql_con.cpp:112-119 | the first eight bytes of a client that asks for encryption are such a callback |
| Expressions.FoldIsLeaves | src/parser/sql.ypp:200-239 | the merged object holds exactly the columns among a tree's leaves, and its flag says whether a constant is among them |
| Expressions.CompMeans | src/parser/expression.hpp:136-173 | the comparison holds if and only if the column sets are equal and are empty or the flags agree |
| Expressions.CompIsEquivalence | src/parser/expression.hpp:136-173 | it is reflexive, symmetric and transitive although computed from one side |
| Expressions.Rearrangements | src/parser/sql.ypp:200-207 | swapping, regrouping and repeating operands and changing operators keep the leaves, and so does rearranging a part under a call, a CASE or a dropped sibling |
| Expressions.VerdictIgnoresArrangement | src/parser/sql.ypp:433-439 | a rearrangement compares equal to the original and changes no other comparison |
| Expressions.VerdictOnTrees | src/parser/sql.ypp:433-439 | the verdict in terms of the two trees, both directions |
| Expressions.FoldKind | src/parser/expression.hpp:97-134 | the kind of constant is that of the leaf a tree begins with, and the length that of the longest text that counts |
| Expressions.IsTrueOnTrees | src/parser/expression.hpp:175-183 | a condition is true by itself if and only if a constant occurs in its tree and no column does |
| Expressions.EmptyPwdOnTrees | src/parser/expression.hpp:185-199 | one side against another counts as an empty password if and only if it begins with a column or a star and has one column of one of three names in any case, and the other begins with a text, has no column, and its texts that count are empty |
| Expressions.EmptyPwdExactlyWhen | src/parser/expression.hpp:185-199 | the case of one column against texts |
| Parser.Expression.CompareTo | src/parser/expression.hpp:136-173 | the method computes the comparison |
| Parser.EraseRemoves | src/parser/expression.hpp:88-91 | erasing through an object's iterator removes its own node and no other |
| Parser.SqlParser.Add | src/parser/expression.hpp:115-134 | merges the columns, the flag and the longer text, and deletes the operand, which is live and not the receiver |
| Parser.SqlParser.AddField | src/parser/expression.hpp:92-96 | adds the column and deletes the string |
| Parser.SqlParser.AddConstText | src/parser/expression.hpp:97-109 | records a text constant and deletes the string |
| Parser.SqlParser.Perform | src/parser/sql.ypp:158-439 | every reduction keeps the stack live, distinct and folded as its trees say, and updates the flags as the trees require |
| Parser.SqlParser.QueryParse | src/parser/parser.cpp:60-73 | for every sequence of reductions stopped anywhere: all objects made are deleted, none twice, both registries end empty, and the flags are those of the trees |
| Parser.SqlParser.FreeExpressions | src/parser/parser.cpp:172-183 | the loop deletes every live expression and ends |
| Parser.SqlParser.FreeSqlStrings | src/parser/parser.cpp:160-171 | the loop deletes every live string and ends |
| Parser.FlagsStick | src/parser/parser.cpp:144-147 | a flag set in a parse is never cleared in it |
| Parser.RearrangedComparison | src/parser/sql.ypp:187-199 | comparing an expression with a rearrangement of itself makes the whole parse a tautology |
| ParseTrees.BuildPushes | src/parser/sql.ypp:200-239 | the reductions of any tree in bottom-up order push that tree, touch nothing else on the stack, and set the flags its CASE comparisons call for |
| ParseTrees.ComparisonVerdict | src/parser/sql.ypp:185-199 | a parsed comparison of any two trees is reported as a tautology if and only if its two sides say so or a CASE inside one does |
| ParseTrees.ConditionVerdict | src/parser/sql.ypp:181 | a condition without comparison, as in `where 1`, is reported if and only if it has a constant and no column or a CASE inside is |
| ParseTrees.RangeVerdict | src/parser/sql.ypp:193 | `a BETWEEN b AND c` is reported if and only if a says the same as b or as c or a CASE inside is; likewise for empty passwords |
| ParseTrees.ChainVerdict | src/parser/sql.ypp:185-188 | a chain of comparisons is always reported |
| ParseTrees.NamesRead | src/parser/sql.ypp:213-228 | which name of a qualified one is the column, and what a known constant is |
| ParseTrees.EmptyPasswordVerdict | src/parser/sql.ypp:433-439 | a parse of such a comparison raises that flag under the same condition, or when a CASE inside does, and the other flag only then |
| Whitelist.DbPermissions.LoadWhitelist | src/dbpermobj.cpp:50-89 | the row loop rebuilds the cache, or a failed query leaves it alone |
| Whitelist.DbPermissions.CheckWhitelist | src/dbpermobj.cpp:91-101 | the permission cached for a pattern, or zero |
| Whitelist.DbPermissions.AddToWhitelist | src/dbpermobj.cpp:103-149 | a row is inserted if and only if the lookup worked, found none, and the insertion worked |
| Whitelist.Connection.CheckQuery | src/connection.cpp:58-168 | the verdict, the pattern, the table afterwards and what is logged |
| Whitelist.LoadedMeans | src/dbpermobj.cpp:70-83 | the cache holds exactly the non-empty patterns of granting rows, with the first such row's permission |
| Whitelist.LearnedExactlyWhen | src/connection.cpp:117-133 | learning and reloading makes a pattern accepted if and only if it is non-empty and, if the table had rows for it, one grants something |
| Whitelist.RunKeepsBacked | src/dbpermobj.cpp:50-149 | every cached pattern has a row: every run of queries, reloads and changes of mode keeps it so |
| Whitelist.LearningRecords | src/connection.cpp:77-133 | a query that comes in a learning mode leaves a row for its pattern if and only if the pattern is cached or in the table, or both statements work |
| Whitelist.LearnThenEnforce | src/connection.cpp:68-133 | over positive tables, in every run from a backed cache: what comes in a learning mode, whether cached, known or new, is after any later reload accepted in every mode, for every query with its pattern, for ever |
| Whitelist.UnbackedIsLost | src/connection.cpp:77-82 | a cached pattern without a row, accepted while learning, is rejected after the reload |
| Whitelist.EnforcedOnly | src/connection.cpp:77-115 | blocking new queries accepts nothing but initial and learned patterns, after every run |
| Whitelist.CachedExactly | src/dbpermobj.cpp:50-101 | after every run a pattern is cached if and only if the last reload found a row that grants it, or without one it was cached at the start |
| Whitelist.VerdictExactly | src/connection.cpp:77-168 | after every run, in each of the eight modes, the verdict is that of the cache or else of the mode: refusing, taking, or following the permission test |
| Whitelist.ModeIsLastSet | src/connection.cpp:103 | the mode after a run is the last that was set |
| Whitelist.CaseBlind | src/connection.cpp:70-73 | queries that differ only in the case of letters have one key |
| Whitelist.LowerCaseExactly | src/misc.cpp:124-133 | which characters are made small |
| Whitelist.SameKey | src/connection.cpp:70-73 | queries that differ only in their literals have one key |
| AlertGroups.KeyInjective | src/alert.cpp:161-171 | for proxies 0..255 and databases without a comma, equal keys mean equal triples |
| AlertGroups.KeysMeet | src/alert.cpp:161-171 | for all triples, when two keys are equal |
| AlertGroups.KeysCollide | src/alert.cpp:161-171 | inputs that show both conditions are needed |
| AlertGroups.AlertLog.AgroupmapReload | src/alert.cpp:113-159 | the row loop rebuilds the map, or a failed query leaves it alone |
| AlertGroups.AlertLog.AgroupAdd | src/alert.cpp:242-313 | inserts the row and caches what the second lookup says, zero included |
| AlertGroups.AlertLog.LogAlert | src/alert.cpp:30-67 | cache, then table, then insertion; the alert is filed under the group chosen |
| AlertGroups.AlertLog.LogWhitelist | src/alert.cpp:69-106 | the same, and the group is marked as learned |
| AlertGroups.ReloadedCovers | src/alert.cpp:132-152 | every key of the map is a row's, with that row's identifier |
| AlertGroups.ReloadFinds | src/alert.cpp:113-179 | after a reload every group is found in the cache under its own identifier |
| AlertGroups.LoggedExactly | src/alert.cpp:54-67 | the alert is filed under a group with its triple, and exactly that group is marked when the whitelist logs |
| AlertGroups.PlacedExactly | src/alert.cpp:242-313 | when a group is added, and that no other is |
| AlertGroups.LoggedAgreesExactlyWhen | src/alert.cpp:44-52 | triples stay unique and the cache stays the table's if and only if no failed lookup led to a repeated insertion |
| AlertGroups.FailedLookupRepeats | src/alert.cpp:44-52 | a table, an empty cache and a failing lookup that insert a triple a second time |
| AlertGroups.RunAgreesExactlyWhen | src/alert.cpp:30-106 | over every run, whatever statements failed, triples are unique and the cache is the table's at the end if and only if no event of the run inserted a triple that was there |
| AlertGroups.WorkingLookups | src/alert.cpp:44-48 | none does in a run whose first lookups work, whatever becomes of the other statements |
| AlertGroups.SameGroupExactlyWhen | src/alert.cpp:30-106 | in every run without such an insertion, two alerts get one group if and only if they are about one proxy, database and pattern |
| MySqlPackets.TakenIsPackets | src/mysql/mysql_con.cpp:148-159 | what the loop takes is whole packets, and what it leaves is an incomplete one or at most five bytes |
| MySqlPackets.SizeRead | src/mysql/mysql_con.cpp:139 | the size read off a packet, as a sender writes it, is the size it has |
| MySqlPackets.CutIsPacket | src/mysql/mysql_con.cpp:148-155 | conversely, what is cut off is a packet as a sender writes it |
| MySqlPackets.TakesPackets | src/mysql/mysql_con.cpp:148-159 | from any sequence of packets and the start of another exactly those packets are taken, except a last one that is not the first and ends, with that start, within five bytes |
| MySqlPackets.EmptiedExactlyWhen | src/mysql/mysql_con.cpp:148-155 | whole packets are taken entirely if and only if there is one or the last has more than one byte of payload |
| MySqlPackets.LastPacketStays | src/mysql/mysql_con.cpp:148-155 | two whole packets of five bytes, of which the second stays behind |
| MySqlPackets.ForwardsPackets | src/mysql/mysql_con.cpp:126-205 | for every chunking and every mode of each call nothing is lost or reordered, and only whole packets are passed on unless a call finds five or six bytes in the opening exchange: the server's greeting or the answer to the client's first packet |
| MySqlPackets.OpeningTorn | src/mysql/mysql_con.cpp:163-168 | five bytes of an incomplete packet that are passed on |
| MySqlPackets.HoldsLittle | src/mysql/mysql_con.cpp:126-205 | what is held back is under seven bytes or an incomplete packet, and at most five where nothing is inspected |
| MySql.MySqlConnection.ParseResponse | src/mysql/mysql_con.cpp:126-205 | both loops, the short cases and the flags |
| MySql.MySqlConnection.ParseResponsePacket | src/mysql/mysql_con.cpp:575-629 | only a complete first packet with room for the flags is changed |
| MySqlHandshake.RewrittenBits | src/mysql/mysql_con.cpp:596-625 | the compression and SSL bits are cleared and every other bit of the packet is the same |
| MySqlHandshake.RewrittenAtEnd | src/mysql/mysql_con.cpp:590-625 | what happens when the packet ends between the two flag bytes |
| MySqlHandshake.OfferedFlags | src/mysql/mysql_con.cpp:598-625 | read by the same rules, the forwarded packet offers neither capability and all others |
| MySqlHandshake.LaidOutRewritten | src/mysql/mysql_con.cpp:586-625 | a greeting in the protocol's layout is changed if and only if its version string and what follows the flags exceed two bytes, and then only in the two flag bytes |
| MySqlHandshake.GreetingExactlyWhen | src/mysql/mysql_con.cpp:126-205 | for every chunking of a first server packet: it comes out rewritten, at once and with nothing held, if and only if no call finds five or six bytes of it; such a call passes them on unchanged |

## Left out

- Normalization.Query.NormalizeQuery: requires a non-empty query, because the loops compare with `size()-1`, and a size at which none of the 32-bit indices wraps. An empty query is outside what the source's loops are written for. The passes on their own are stated for every size.
- Whitelist.Connection.CheckQuery: has the same two requirements; the risk, the permission test and whether the statements worked are arguments.
- Proxy.Connection.ProxyCb: assumes no malformed length field in what is parsed (4 up to 2^31-2); the source does not check the field: a size of zero never advances its loop, and a negative one wraps when added to the position.
- Proxy.Connection.BackendCb: the same for responses.
- Proxy.Connection.ParseRequestBuffer: the same for the request buffer.
- Proxy.Connection.ParseResponseBuffer: the same for the response buffer.
- Proxy.Connection.ValidateServer: the same for the response buffer.
- Proxy.Connection.ValidateClient: the same for both buffers.
- Proxy.WalkFrames: the same for the walked buffer.
- ProxyRuns.StepAligns: where a length field is malformed the state machine stops cutting and the source does not, so the statement is about the source on well-formed lengths only; it also stops claiming alignment once a local reply was put behind bytes waiting to be parsed, because it can then land inside a frame.
- ProxyRuns.StepInStep: about the source on well-formed lengths only, and so are StepConserves, StepArms and StepDrops; `ProxyRuns.EveryRun` requires them.
- MySqlHandshake.GreetingExactlyWhen: says nothing of the calls after one that passed on five or six bytes, which no longer find a first packet alone.
- MySql.MySqlConnection.ParseResponse: requires the first server packet to be alone in the buffer; with more bytes the source reads on through a pointer into a buffer it has just shifted.
- MySql.MySqlConnection.ParseResponsePacket: has the same requirement.
- Parser.SqlParser.QueryParse: takes the sequence of shifts and reductions as given; the automaton that chooses them (`sql.tab.cpp`) is not part of this model.
- CommentParts.BlockBodyVanishes: only for bodies free of `*`, and of `/` behind the first byte, since the source's scan stops at the first `*` or before a `/`.
- Whether a byte 0xA0 counts as a space depends on the signedness of `char`; it is an unspecified constant here, so the theorems hold for both.
- A rejected PostgreSQL query is forwarded all the same: the verdict only adds a reply. No theorem says that it is withheld.
- Startup option matching, BIND parameter walking and error response logging: log-only, or not bounded by the frame.
- MySQL `parseRequest`, which reads the header at the buffer's start again for each packet.
- The text of SQL statements, escaping, truncation by `snprintf`, collations, and tables changed by other programs.
- Sockets, event loop and driver loading; `socket_write` is a count, a refusal or a failure.
- PCRE and regular expressions, the risk sum, the blacklist and the reason texts.
- `status`, which is only logged, and the `check_*_token` tests that set it.
- The connection list, `dbmap` and `proxymap` reloads, configuration and installation.
