# statsproxy, modelled and proved

statsproxy polls memcached servers, keeps their statistics in memory behind a reader/writer lock, and
serves them to telnet and HTTP clients. This project models five connected parts of it in Dafny and
proves what each of them, and their combination, guarantees.

| part of the program | modules |
|---|---|
| configuration: the hand-written lexer, the grammar and its actions (`settings_parser.y`, `addProxy`, `backend_new`) | `CStrings`, `Numerals`, `Lexer`, `Yylex`, `Settings`, `Grammar`, `Yyparse`, `Spelling`, `RoundTrip`, `ConfigText` |
| the memcached session: connect, write, read, in-place parsing of replies (`statsmc.c`, `rawPrintStats`) | `Wire`, `Session`, `StatsText`, `StatsParser`, `Protocol` |
| the poller, the cached lists and the readers (`statsproxy.c`) | `StatsCache`, `Poller`, `Outcomes`, `Pipeline`, `Snapshots` |
| tail queues (`queue.h`) | `Tailq` |
| URI coding, the generated links and the parameters read back from them (`uristrings.c`, `mcr_web.c`, `reporterCallback`) | `UriStrings`, `Links` |

How the modules are built. Code that changes things step by step is a class or a method with loops
(`Yylex.Scanner`, `Yyparse.Parser`, `Tailq.Head`, `Session.Backend`, the buffer walks of `StatsParser`,
`UriStrings` and `Links`). Each such method is proved equal to a function on values (`Lexer.Scan`,
`Grammar.Parse`, `Wire.WriteRun`, `Wire.ReadRun`, `Session.Replies`, `StatsText.ParseStats`, `Poller.WalkRun`,
`Links.Requested`), and the theorems are about those functions, so they carry over to the code's own form.
What those functions mean is pinned down from outside: by texts, words and numbers written out (`ConfigText`,
`Protocol`), by what the kernel answers (`Outcomes`, `Wire`), by definitions that share nothing with them
(`Spelling.Escapes`, `UriStrings.Encodes`, `StatsText.Weave`), and, for the readers and the poller, by what
they can always bring about and not only by what they keep.

What the outside world answers is a parameter. A run of system calls is a script, the finite list of
what the kernel and the clock answered so far; a script that ends while the code still loops is an
unfinished run, so "for all scripts" means every prefix of every run. A host lookup is a predicate on names. The
interleaving of the poller and the readers is an arbitrary sequence of steps.

Results about the code that a reader may not expect:

* `sp_memcache_write` can return nonzero after delivering everything, and 0 after closing the socket
  (`Wire.WriteCodeMisleads`); its code tells exactly whether some call failed on the way (`Wire.WriteErrSticks`).
  Delivery is told by the descriptor (`Session.Backend.Write`).
* An interval setting of n seconds becomes 1000·n milliseconds if and only if n ≤ 2147483 (`RoundTrip.MillisecondsExact`);
  above that the product wraps, and 4294968 seconds are accepted as 704 ms (`RoundTrip.WrappedTimeoutAccepted`).
* `key_href` encodes the key and then prints the original, so a key link brings its key back if and only if
  the key holds no white space, no `%`, `+`, `?` or `&`, and no inner `key=` (`Links.KeySurvivesExactly`). A key
  such as `a:b` comes back although `uri_encode` would change it.
* A write that returns an error with the socket still open makes `getStat` skip the read, and the next uri is
  given the reply that was left over (`Pipeline.StaleList`). Requests and replies stay in step throughout a run
  if and only if no write did that on a connection used again (`Pipeline.InStepExactly`).
* Hosts, ports and the reporter mode of one `proxy-mapping` block carry over into the next; only the
  intervals are reset. A block is free of what came before it if and only if it gives a front end, a back end
  and a reporter (`RoundTrip.CarriesNothingExactly`); an empty block repeats the backend before it with default
  intervals (`RoundTrip.EmptyBlockInherits`). The round trip holds with such blocks too.
* A lexer failure (-1) counts as the end of the input, so a complete configuration with junk behind it is
  accepted (`RoundTrip.AcceptedTextExactly`, `Spelling.HarmlessTails`).
* The action at the end of a block runs before the parser looks at the closing brace (`Grammar.Block`), so a
  run that ends with a syntax error may have added one backend from a block that was never closed
  (`Grammar.EveryBackendFromBlock`).
* After a setting that is refused, the backends added so far stay in the settings and are started: the
  outcome `Aborted` carries them (`Grammar.BlockMeans`).

## Model

| member | source | states |
|---|---|---|
| Yylex.Scanner.YyLex | settings_parser.y:245-564 | One call takes exactly the next token off the stream, whatever the input: blanks, comments, escapes, numerals with their restart, keywords, punctuation; end of input and every lexer failure included. A punctuation token leaves the string buffer alone. The line counter grows by the newlines in the blanks skipped, so that after any number of calls it is 1 plus the newlines of all gaps passed, and at the end of the input 1 plus those of the whole text |
| Yylex.Scanner.SkipBlanks | settings_parser.y:263-284 | White space and comments are dropped up to the first other character; every newline among them is counted |
| Yylex.Scanner.Ungetc | settings_parser.y:503-505 | Pushback is only asked for when no character is already pushed back, and restores the stream |
| Yylex.Scanner.ReadString | settings_parser.y:321-348 | The shared buffer ends up holding the unescaped literal and its NUL, or the literal is refused as too long or unfinished |
| Yylex.Scanner.ReadChar | settings_parser.y:289-316 | A character literal, its one optional escape and its closing quote, or a failure |
| Yylex.Scanner.ReadDigits | settings_parser.y:404-512 | The digit loop with its wrapping accumulator, its octal-to-decimal restart and its fraction yields the token that the whole digit run stands for |
| Yylex.Scanner.ReadNumber | settings_parser.y:353-513 | The base is chosen by the first characters; the one character read too far goes back to the stream |
| Yylex.Scanner.DecimalAgain | settings_parser.y:416-428 | The restart recomputes the value of the saved digits in base ten, modulo 2^64 |
| Yylex.Scanner.ReadWord | settings_parser.y:518-553 | The longest run of word characters, looked up as a whole; a run that fills the buffer ends the process |
| Yylex.ReadingPoint | settings_parser.y:405-434 | At the point of `0ddd.` the saved octal digits become the decimal value of that same run |
| Yylex.ReadingDigit | settings_parser.y:437-502 | One digit keeps the loop's running value congruent, modulo 2^64, to the value of all digits so far |
| CStrings.CharacterClasses | settings_parser.y:263-284 | The white space and the punctuation of the C locale, one by one |
| Numerals.DecimalDigits | statsproxy.c:492 | The decimal digits that printf writes, one by one |
| Numerals.ValueDigits | settings_parser.y:457-469 | The value of digits, one by one, in any base |
| Numerals.StrtoulOfNumber | settings_parser.y:182 | What strtoul stores in sixteen bits for blanks, a sign, digits and anything behind: the number modulo 65536, negated behind a minus sign, all ones beyond an unsigned long |
| Numerals.ScanShortOfNumber | statsproxy.c:588 | What `%hd` stores for such a text, saturation to a long included |
| Numerals.WrapStep | settings_parser.y:457-469 | Accumulating digits in a size_t loses nothing: reducing at every step or once at the end gives the same residue |
| Lexer.Scan | settings_parser.y:245-564 | Every token strictly shortens the input |
| Spelling.ScanSpelled | settings_parser.y:263-561 | Any spelling of a token (any escaping, any octal, decimal or hexadecimal numeral of up to 4096 digits the lexer takes) followed by something that cannot run into it lexes to that token and leaves the rest |
| Spelling.TokensOfRender | settings_parser.y:263-561 | Any token stream written with any spellings and any blanks and comments in between lexes back to itself, whatever stands behind it, if that starts no token |
| Spelling.TextReadBack | settings_parser.y:263-561 | And every text is such a writing of its own tokens, up to an end that starts no token |
| Spelling.LexemeSpells | settings_parser.y:286-561 | Every token the lexer takes comes from a spelling of it at the front of the text |
| Spelling.HarmlessTails | settings_parser.y:518-564 | Nothing at all, and a word that is no keyword, start no token |
| Spelling.PointRestart | settings_parser.y:405-435 | A run of octal digits, a point and more digits is the decimal number those digits spell, the whole part modulo 2^64 |
| Spelling.FractionValue | settings_parser.y:470-474 | The digits behind the point stand for their decimal value scaled down by their number |
| Spelling.UnquoteEscaped | settings_parser.y:321-348 | Escaping quotes and backslashes and reading the literal back gives the string |
| Spelling.LiteralExactly | settings_parser.y:321-348 | What stands between quotes reads as a string if and only if it is that string with a backslash before any of its characters, and before each quote and backslash |
| Spelling.StringLimit | settings_parser.y:321-348 | A literal is a token if and only if its string has at most 4094 characters |
| Spelling.NumberLimit | settings_parser.y:437-456 | More than 4096 digits, or an eight or nine in octal, are no token |
| Spelling.RefusedDigits | settings_parser.y:449-496 | The digits refused: eight and nine in octal, nine in hexadecimal, none in decimal |
| Spelling.LinesOutsideLiterals | settings_parser.y:263-284 | For every token but a quoted literal, the newlines counted are those of all characters consumed |
| Yyparse.Parser.YyParse | settings_parser.y:108-237 | The parser over the scanner and its one shared buffer returns what the grammar says of the token stream, with exactly those backends, for every input text |
| Yyparse.Parser.ParseStatements | settings_parser.y:110-124 | The statement loop, from any state of the settings |
| Yyparse.Parser.ParseUri | settings_parser.y:119-122 | The uri recorded is the string literal itself, although `;` is lexed before the action reads the buffer |
| Yyparse.Parser.ParseBlock | settings_parser.y:126-160 | One block: the settings in order, then the end-of-block action before the next token is judged |
| Yyparse.Parser.ParseMapping | settings_parser.y:126-133 | The opening brace resets the intervals and nothing else, and the block is parsed |
| Yyparse.Parser.ReadSetting | settings_parser.y:171-226 | `=`, a value of the kind the keyword asks for, and `;`, or nothing is taken for a setting |
| Yyparse.Parser.ParseSetting | settings_parser.y:171-237 | The action of a setting sees exactly its own value, string or number, and nothing else of the settings changes |
| Yyparse.Parser.CutHost | settings_parser.y:171-196 | Cutting the buffer at the first colon yields the host in front and the 16-bit port behind it, and fails when there is none |
| Yyparse.Parser.CloseBlock | settings_parser.y:134-157 | A block without ports adds nothing and aborts; a failed lookup ends the process; otherwise one backend is added at the end |
| Yyparse.LoadSettings | statsproxy.c:1314-1341 | From the text of the file to the list of backends that will be started |
| Grammar.ParseMeans | settings_parser.y:108-237 | Parsing the tokens of any configuration does what the configuration says, item by item, aborts included |
| Grammar.BlockMeans | settings_parser.y:126-237 | Inside a block any list of settings is applied in order, and the first refused one aborts, whatever follows |
| Grammar.AcceptedIsConfig | settings_parser.y:108-168 | Only configurations are accepted: every accepted token stream is the token stream of some configuration |
| Grammar.EveryBackendSound | settings_parser.y:127-157 | For every token stream, whether it is accepted, refused or ends the process, every backend ever added has 16-bit nonzero ports, a reporter mode of the three, equal positive timeouts and positive intervals |
| Grammar.EveryBackendFromBlock | settings_parser.y:126-225 | For every token stream, every backend ever added has the intervals of a block that stands in that stream: of its last setting of each kind, or the default. The block is closed, except possibly that of the last backend before the process ends |
| Grammar.LastIntervalCounts | settings_parser.y:197-225 | Whatever else a block holds, each interval is that of its last setting, or the default if there is none |
| RoundTrip.MillisecondsExact | settings_parser.y:197-202 | The milliseconds are 1000 times the seconds if and only if the seconds are at most 2147483 |
| RoundTrip.WrappedTimeoutAccepted | settings_parser.y:197-207 | A concrete setting beyond that bound which is accepted with a wrong value |
| RoundTrip.FirstColonSplits | settings_parser.y:171-183 | Whatever stands behind the first colon is what strtoul reads for the port |
| RoundTrip.HostPortSplits | settings_parser.y:171-183 | A host without a colon and a port from 1 to 65535, written `host:port`, come back exactly |
| RoundTrip.BlockApplies | settings_parser.y:127-226 | The settings of a block in any order and number have the effect of the last of each kind, whatever the block before left behind |
| RoundTrip.CarriesNothingExactly | settings_parser.y:127-133 | The effect of a block is independent of all blocks before it if and only if it gives a front end, a back end and a reporter |
| RoundTrip.EmptyBlockInherits | settings_parser.y:127-157 | An empty block right after another builds a second backend with the first one's hosts, ports, mode and uris, and default intervals |
| RoundTrip.MeaningIsDescribed | statsproxy.c:1174-1209 | A configuration builds one backend per block, in order, each with the global uris that came before it, and with what it inherits from the blocks before it |
| RoundTrip.ConfigRoundTrip | settings_parser.y:108-237 | Any configuration, inheriting blocks included, written with any spellings, blanks and comments, and with anything behind it that starts no token, lexes and parses to exactly the backends it describes |
| RoundTrip.PrintedConfigRoundTrip | settings_parser.y:108-237 | Every configuration whose strings fit the buffer has such a text |
| RoundTrip.AcceptedTextExactly | settings_parser.y:108-237 | A text is accepted with given backends if and only if it is a configuration in some spelling that means these backends, followed by something that starts no token |
| ConfigText.WordsOfTheManual | settings_parser.y:108-226 | Each of the nine words, written out, is the keyword of its grammar rule |
| ConfigText.FullConfigBuilds | settings_parser.y:108-237 | A file with all settings, word for word: the front end, back end, timeouts, poll, refresh, mode and uri of the backend are the ones written, each in its place; another reporter mode aborts, and a host that does not resolve ends the process |
| ConfigText.ShortConfigBuilds | statsproxy.h:69-77 | With both ends alone: 10000 ms of timeout, 5000 between polls, 15000 between refreshes, reporter off, no uri |
| ConfigText.OneEndAborts | settings_parser.y:134-151 | With only a front end, or only a back end, nothing is built |
| ConfigText.UnclosedBlockAdds | settings_parser.y:134-158 | A file that ends inside a block has added that block's backend before the process ends |
| UriStrings.UriEncode | uristrings.c:71-87 | The buffer of 3n+1 bytes suffices and ends up holding the encoded string |
| UriStrings.UriDecode | uristrings.c:91-110 | The buffer of n+1 bytes suffices and ends up holding the decoded bytes |
| UriStrings.MergeInverts | uristrings.c:57-67 | The two hex digits of any byte, of 128 and above too, shift and combine back to that byte |
| UriStrings.DecodeEncoded | uristrings.c:71-110 | Decoding an encoded string followed by anything gives the string followed by the decoding of the rest |
| UriStrings.UriRoundTrip | uristrings.c:71-110 | Decoding undoes encoding, for all bytes |
| UriStrings.DecodeEscape | uristrings.c:96-100 | A percent sign and any two hexadecimal digits, upper or lower case, are the byte they spell |
| UriStrings.DecodeRest | uristrings.c:96-106 | A plus sign is a space, a percent sign too near the end is dropped, every other byte stays |
| UriStrings.DecodeAnyEncoding | uristrings.c:91-110 | Decoding undoes every way of percent-encoding a string, not only the one chosen here |
| UriStrings.EncodeEncodes | uristrings.c:71-87 | What uri_encode writes is such an encoding |
| UriStrings.EncodeByByte | uristrings.c:75-83 | Unreserved bytes stay, a space is a plus sign, any other byte is its two lower-case digits |
| UriStrings.EncodeShape | uristrings.c:75-83 | Encoding is between n and 3n bytes long and made of unreserved characters, `+` and `%` |
| UriStrings.DecodeShape | uristrings.c:95-106 | Decoding never grows a string, and changes it if and only if it holds a `%` or a `+` |
| Links.ReporterParams | statsproxy.c:570-592 | The in-place cutting and the scan at every offset yield base and parameters of the decoded uri; later matches win; nothing behind the string is read or changed |
| Links.HandleReporterRequest | statsproxy.c:711-755 | From the request line to the route and the parameters, through the slash, the decoding and the cut |
| Links.SecondWord | statsproxy.c:721-737 | Any request line, from telnet or a browser: the uri is the second word, at most 1000 characters of it, without one leading slash |
| Links.ScanIsLast | statsproxy.c:583-591 | For every text: each parameter is the one behind the last place of its name, and absent when there is none |
| Links.PortSurvives | statsproxy.c:588 | A 16-bit port printed with `%hd`, `%hu` or `%d` reads back through `%hd` as the same 16 bits |
| Links.LinkRoundTrip | statsproxy.c:241-255 | The links without a key, of the service page and of `actions`: requesting one yields exactly its base, address and port, and no key |
| Links.KeyLinkRoundTrip | mcr_web.c:638-650 | The links with a key: over unreserved characters all four parts come back |
| Links.RouteIsBase | statsproxy.c:733-746 | The callback for a generated link is looked up by the link's base |
| Links.ScanFinds | statsproxy.c:583-591 | When each name occurs at one offset only, the scan yields exactly the values behind them, and before that offset nothing |
| Links.KeySurvivesExactly | mcr_web.c:638-650 | For every key without a NUL: the key link brings it back if and only if it has no white space, no `%`, `+`, `?`, `&` and no inner `key=` |
| Tailq.Head.constructor | queue.h:379-382 | An empty queue whose last pointer addresses the head |
| Tailq.Head.Init | queue.h:379-382 | Any queue becomes the empty one; its old nodes are not touched |
| Tailq.Head.InsertHead | queue.h:384-392 | The sequence gains the node in front and the links stay sound |
| Tailq.Head.InsertTail | queue.h:394-399 | The sequence gains the node at the end, through the last pointer |
| Tailq.Head.InsertAfter | queue.h:401-409 | The sequence gains the node right behind the given one |
| Tailq.Head.InsertBefore | queue.h:411-416 | The sequence gains the node right before the given one, through the back link alone |
| Tailq.Head.Remove | queue.h:418-425 | The sequence loses exactly that node, wherever it stands |
| Tailq.Head.BackLinks | queue.h:361-376 | What the header promises: every back link addresses the pointer to its own node, and the last pointer addresses the pointer that ends the list |
| Tailq.Head.LastPun | queue.h:444-445 | The struct cast behind LAST lands on the last node, or NULL when the queue is empty |
| Tailq.Head.PrevPun | queue.h:446-447 | The struct cast behind PREV lands on the predecessor, or NULL at the front |
| Tailq.Head.Foreach | queue.h:427-430 | The loop visits the nodes in order, each once |
| Tailq.Head.ForeachReverse | queue.h:432-435 | The reverse loop visits exactly the reversal |
| StatsCache.RemoveOldStats | statsproxy.c:765-782 | Every node of the list is freed, each once and none is used afterwards; the list is empty |
| StatsCache.AddNewStats | statsproxy.c:808-819 | All nodes are moved, in order, behind those already there; the source list is empty |
| StatsCache.InsertNew | statsproxy.c:785-806 | One new live node with the given contents at the end |
| StatsCache.ReplaceStats | statsproxy.c:859-865 | The cache consists of exactly the new nodes, all live; every old node is freed; the source is empty |
| StatsText.FieldsOfWeave | statsmc.c:375-398 | The tokens of a text are its maximal delimiter-free runs: any way of seeing the text as runs kept apart by delimiters gives these |
| StatsText.FieldsCover | statsmc.c:375-398 | And every text is such a weave of its tokens and gaps |
| StatsText.ParsePrinted | statsproxy.c:479-495 | Printing a list of names and values that are words, and parsing the text, gives the list; the END line adds nothing |
| StatsText.ParsedRelayable | statsmc.c:328-401 | Whatever the server sent, the names and values parsed are words |
| StatsText.RelayFixpoint | statsproxy.c:479-495 | For every text, parsing, printing and parsing again gives the same stats |
| Protocol.LineMeans | statsmc.c:328-385 | For every line, with or without `STAT ` in front and with any blanks: the first two words are name and value, fewer say nothing, more do not count |
| Protocol.StatLine | statsmc.c:372-385 | `STAT name value` is the stat of that name and value |
| Protocol.ReplyMeans | statsmc.c:375-398 | A reply is its lines, one by one, whatever line ends are between them |
| Protocol.TextForClients | statsproxy.c:484-494 | Entry by entry `STAT name value`, a number in decimal digits, a line end, and at last `END` |
| Protocol.PrintedIsReplyExactly | statsproxy.c:479-495 | The printed text is itself a whole reply if and only if no word in it contains ERROR and no value ends in END |
| Protocol.ChainedProxy | statsproxy.c:845-867 | A proxy that polls such a proxy gets exactly its list |
| StatsParser.StrtokR | statsmc.c:341-349 | One strtok_r call in the buffer, its cut and its continuation |
| StatsParser.TokenCut | statsmc.c:375-398 | After one call the token reads as the first field, the other fields are still ahead, and nothing else has changed |
| StatsParser.ParseBasic | statsmc.c:328-357 | The first two words of the line or nothing; only the line itself is written |
| StatsParser.PendingKept | statsmc.c:375-398 | Writing inside the current line leaves the outer walk the same lines still to visit |
| StatsParser.AddStats | statsmc.c:360-401 | The nested walk over the buffer appends exactly the stats of the text, in order, and counts them |
| StatsParser.RawPrintStats | statsproxy.c:479-495 | What a telnet client gets is the printed list |
| Wire.WriteDelivers | statsmc.c:172-242 | For every sequence of answers, what was sent is a prefix, and the loop returns without bailing if and only if it is everything |
| Wire.WriteErrSticks | statsmc.c:184-233 | The return code is 0 if and only if no call on the way failed |
| Wire.WriteCodeMisleads | statsmc.c:222-233 | Delivered with a nonzero code, and closed with code 0: both happen |
| Wire.WriteReturnsExactly | statsmc.c:185-233 | The write returns, everything sent, if and only if the kernel takes it all: some bytes at a time while no time is missing, nothing while time is left and poll works |
| Wire.ClockDistance | statsmc.c:149-162 | The time left shrinks with the distance from the start, also when the clock goes back |
| Wire.ReadErrIsBail | statsmc.c:254-325 | With a zeroed buffer a finished read returns 0 if and only if it did not bail |
| Wire.FragmentationIndependence | statsmc.c:245-317 | A run ends with exactly the whole reply in the buffer, no error, nothing unread and the socket open if and only if its script delivers that reply: in any non-empty pieces, at any times, with waits in between as long as time was left when each began |
| Wire.LatePieceDelivered | statsmc.c:261-307 | A reply that comes at the very limit, after a wait, is such a delivery |
| Wire.ExactRun | statsmc.c:245-317 | An answer without END that fills the space asked for, delivered in this way, is read whole and without error |
| Wire.ReadsTextExactly | statsmc.c:245-317 | With room for exactly a text, the read ends with it and without error if and only if the stream begins with a delivery of it |
| Wire.PartDelivered | statsmc.c:245-317 | After a part without END and errors the call goes on exactly from there |
| Wire.ReadBreaksOff | statsmc.c:259-290 | After any part, an errno other than the two for waiting, no time left or a failing poll ends the call with that error and the socket closed |
| Wire.ReadEndsAtEof | statsmc.c:303-307 | After any part, the end of the stream ends the call without error, with that part and the socket open |
| Wire.ReadEndsOnError | statsmc.c:309-314 | A text with ERROR in it, in any pieces, ends the call with ECANCELED and the socket closed |
| Wire.BufferFilled | statsmc.c:254-318 | A delivery that fills the room ends the call; what follows stays unread |
| Wire.ReadTerminates | statsmc.c:254-317 | Each turn of the read loop uses up a byte of room or a millisecond of the time limit |
| Wire.ReadIterationBound | statsmc.c:254-317 | With a clock that never goes back and waits of at least a millisecond, the loop turns at most len + timeout + 1 times |
| Session.LedgerAlternates | statsmc.c:82 | What the ledger means: each socket opened is closed before anything else happens, and each close belongs to the open right before it |
| Session.ConnectedExactly | statsmc.c:88-135 | An attempt leaves a connected socket if and only if every call it needs succeeds; it returns the first error, or 0 when there is no socket or mode to be had |
| Session.AttemptsExactly | statsproxy.c:832-840 | The attempts end with the first that returns 0 or with the sixth |
| Session.Backend.Connect | statsmc.c:70-145 | The code, the descriptor and the exact sockets opened and closed, for every way an attempt can go; failures that return 0 included |
| Session.Backend.CheckAndConnect | statsproxy.c:821-842 | At most six attempts; a nonzero result means six failed ones and no open socket; an open socket is left alone |
| Session.Backend.Write | statsmc.c:172-242 | The bytes accepted are a prefix of the command, sent once and in order, the empty command included; when the call is over, the descriptor is open if and only if that prefix is the whole command |
| Session.Backend.Read | statsmc.c:245-326 | The buffer holds what arrived and zeros behind it; descriptor, code, done flag and time left as the run of answers determines |
| Session.Backend.ReadBuffer | statsmc.c:417-435 | One turn of the reply loop: the run of one read into a zeroed buffer and, unless it failed, the stats of its text appended and counted |
| Session.Backend.ReadReplies | statsmc.c:404-444 | The stats of the successive buffers are appended; a server error counts as no error and closes the socket; a reply without stats ends the loop |
| Session.Backend.Close | statsmc.c:456-463 | The open socket, if any, is closed once |
| Session.ReplyComesThrough | statsmc.c:404-444 | However a whole reply is cut up and delayed, exactly its stats come out and the socket stays open |
| Poller.GetStat | statsproxy.c:845-867 | The effect that `Outcomes` describes, on the list and on the socket, every replaced node freed; and the bytes of the command that go out |
| Poller.Request | statsproxy.c:986-992 | The request for one uri, health or stats: its effect on the list, the socket and the wire |
| Poller.PolledReply | statsproxy.c:845-867 | A command delivered without an error code and answered by a whole reply leaves exactly the stats of that reply in the cache |
| Poller.Probe | statsproxy.c:908-936 | The liveness exchange, with its response time and its effect on the socket |
| Poller.InstallHealth | statsproxy.c:938-950 | The old list is freed and the four health stats stand in its place, in this order |
| Poller.GetHealth | statsproxy.c:870-951 | The health list is replaced whether the server is alive or not |
| Poller.StoredIsAlive | statsproxy.c:908-936 | A server that takes the command without an error code and answers STORED in any pieces is reported alive with the measured time, and the socket stays open |
| Poller.PollUri | statsproxy.c:986-994 | One visit changes at most the list of its own uri; no node is shared or lost; the time of the poll is recorded |
| Poller.PollEntry | statsproxy.c:986-994 | The same on values: all other entries of the cache are as before |
| Poller.Visit | statsproxy.c:974-996 | One turn of the loop does one step of the walk: connecting, the request, the next uri, the disconnect after the last |
| Poller.RunBackend | statsproxy.c:954-1020 | Runs of any length: the cache is the one the walk on values reaches, the lists stay sound and apart, and the socket is owned all along; without uris nothing is ever opened |
| Poller.RoundRenews | statsproxy.c:974-996 | A round in which every uri is answered leaves in the cache exactly what the servers answered, each under its own uri, and the socket closed |
| Poller.UnreachableKeeps | statsproxy.c:978-980 | While the server cannot be reached, the cached lists and times stay as they are |
| Poller.ListsComeFromVisits | statsproxy.c:974-996 | In every run each cached list is the initial one or what a single visit of that same uri installed |
| Outcomes.StatsCommandText | statsproxy.c:851 | The command on the wire is `stats`, the uri and a line end, cut off at 63 characters |
| Outcomes.LivenessCommandText | statsproxy.c:870-871 | The liveness command announces as many bytes as it sends |
| Outcomes.KeptExactly | statsproxy.c:852-866 | A stats visit that comes to an end leaves the list alone if and only if the socket was closed or a call of the write failed; otherwise it replaces it |
| Outcomes.LateWriteEmpties | statsmc.c:225-231 | A write that runs out of time without a failing call empties the list |
| Outcomes.FailedWriteKeeps | statsmc.c:187-222 | A write that fails for good closes the socket and keeps the list |
| Outcomes.BrokenReadEmpties | statsproxy.c:857-866 | A read that breaks off after any part of the reply, by errno, time limit or poll, empties the list |
| Outcomes.ErrorEmpties | statsproxy.c:857-866 | A server that answers with ERROR has its list emptied |
| Outcomes.EndOfFileInstalls | statsproxy.c:857-866 | A server that closes in the middle of a reply has the stats so far installed |
| Outcomes.LongReply | statsmc.c:414-439 | A reply longer than the buffer yields the stats of one buffer after another, but nothing after a first buffer without any |
| Outcomes.AliveExactly | statsproxy.c:908-936 | Liveness is reported if and only if the server takes the whole command without a failing call and its answer begins with STORED, in time |
| Outcomes.HealthReported | statsproxy.c:894-950 | The four health stats with their names, order and values, in every case |
| Outcomes.VisitDates | statsproxy.c:976-996 | Every visit that ends dates its own entry, touches no other and hands on to the next uri, the socket closed after the last |
| Pipeline.ReadsFirst | statsmc.c:245-317 | A reader of replies that neither waits for ever nor bails stops with the first whole reply of the stream in its buffer, and with nothing that is not in the stream |
| Pipeline.InStepVisit | statsproxy.c:845-867 | A visit that finds nothing left over installs its own reply or nothing, and leaves nothing over, or exactly the reply it skipped |
| Pipeline.InStepExactly | statsproxy.c:852-857 | Over whole runs: requests and replies stay in step if and only if no write, on a connection used again, delivered its command and still returned an error |
| Pipeline.ListsAreOwn | statsproxy.c:974-996 | In a run that stays in step every list of a stats uri is the initial one, or empty, or made of a reply to a command of that very uri |
| Pipeline.OlderReplyFirst | statsproxy.c:845-867 | A visit that finds an older reply and installs a list installs one that begins with the stats of the older reply |
| Pipeline.SlowWriteLeaves | statsmc.c:184-229 | A would-block and then a full write deliver the command and return an error with the socket open |
| Pipeline.StaleList | statsproxy.c:852-857 | After such a write the next uri's list becomes the stats of the reply to the uri before it |
| Snapshots.ReplacingKeeps | statsproxy.c:859-865 | The steps that clear and refill a list keep the invariant, and only the last of them shows, as one install |
| Snapshots.PollerKeeps | statsproxy.c:859-865 | Every smallest poller step keeps the invariant and shows in the atomic cache as nothing, a state change, or one whole list installed |
| Snapshots.ReaderKeeps | statsproxy.c:535-555 | Every smallest reader step keeps the invariant and shows as nothing or as one print of the current list in state POLLING |
| Snapshots.RunRefinesAtomic | statsproxy.c:1083-1099 | Every interleaving of one poller and any number of readers behaves like a cache whose installs and prints are single steps |
| Snapshots.EveryReportIsSnapshot | statsproxy.c:535-555 | Whatever a reader prints is the initial empty list or exactly the list of the latest write section completed for its uri, never a mix and never a freed node |
| Snapshots.RefusedOnlyOutsidePolling | statsproxy.c:537-541 | In every run a reader is refused only in a state that is not POLLING |
| Snapshots.ReaderPrints | statsproxy.c:535-555 | From every reachable state in which nobody writes and the state is POLLING, an idle reader that asks for a uri prints, by its own steps alone, exactly the current list of that uri |
| Snapshots.ReportsAnswer | statsproxy.c:526-555 | Whatever a reader reports is for a uri that it asked for |
| Snapshots.NoDeadlock | statsproxy.c:1083-1099 | In every reachable state the poller or a holder of the lock can move |
| Snapshots.TurnIsTalked | statsproxy.c:978-984 | A connection that works leads from a uri's turn to POLLING and to talking for that uri |
| Snapshots.ReplyIsInstalled | statsproxy.c:859-865 | From every reachable state in which the poller talks and no reader holds the lock, a reply is installed whole by the poller's own steps |
| Snapshots.PollerGoesOn | statsproxy.c:970-1010 | The poller starts with the first uri, starts over after a failed connection and after a round, and passes on when there is nothing to install |
| Snapshots.StatusAlwaysFits | statsproxy.c:966-984 | In every run the state is POLLING while the poller talks and installs, and CONNECTING while it connects |
| Snapshots.CurrentWasInstalled | statsproxy.c:859-865 | That current list is one that was installed whole for that uri, or the empty one if none was |
| Snapshots.PrintUndisturbed | statsproxy.c:535-555 | During a print the state stays POLLING and no list changes |

## Left out

- HTML pages, HTTP headers, the logo, logging, usage: formatting only. `countStat` only decides on a log line, so the printer is modelled without it.
- The remote reporter protocol (`mcr_update` and its relatives, `mcr_instanceOp`, `mcr_getAddr`): network code against a server that is not part of the repository.
- System calls, the clock, DNS and threads: scripts and parameters, as described above. The addresses a lookup finds are not kept. The pauses between retries and between rounds are not modelled; the loop of the poller never ends, as in the code.
- Strings allocated for names, values and uris: values here. Only list nodes are tracked from allocation to `free`.
- The tables of the generated parser: a deterministic descent that takes a default reduction without looking at the next token. A syntax error and a keyword too long for the buffer end the process, with the backends added so far in memory.
- FLOAT values: real numbers, without rounding. No grammar rule uses them.
- Hexadecimal numerals: as coded, digits 0 to 8 only; letters end the run.
- Pipeline.InStepExactly: the server answers each stats command with one whole reply of fewer than 32768 bytes and the liveness command with STORED; a server that closes the connection early, or answers otherwise, is not part of these theorems.
- Bytes behind a buffer: a reply that fills all 32768 bytes leaves no NUL, and the cell behind the buffer is taken to be one. Theorems about whole replies ask for fewer bytes than that.
- The request line: `fgets` cutting a line at the request limit, lines of fewer than two words, repeated requests on one telnet connection and the check of the method are not modelled; a generated link is requested as it stands, after the slash.
- The cut of a link that would not fit the buffer of `snprintf`: links are short enough here.
- Callbacks other than the reporter's parameters: `findCallback` and the pages behind it.
- Local uris: `addLocalUri` has no caller, so a backend's uris are the global ones.
- The other queue families of `queue.h`: this program does not use them.
- Snapshots.RunRefinesAtomic: the lists stand for values and freed cells, one cell per step; what a visit installs is arbitrary there and pinned down in `Poller`.
- Poller.RunBackend: the bep->state assignments under the write lock are modelled in `Snapshots` alone, and the final HALTED after the loop, which never ends, is not.
