# Clittle, modelled and proved

Clittle is a collection of small C programs. This project models six of its components
in Dafny and proves what they are for.

- **Declaration reader** (`DeclLexer`, `DeclWords`, `DeclMachine`, `DeclStopping`, `DeclReader`, `DeclReading`,
  `DeclExamples`). A machine of state functions reads a C declaration and prints it in English. The functions of
  `DeclMachine` say what each state does; `DeclStopping` tells by its tokens on which texts it stops;
  `DeclReader.Reader` is the program with its stack, current token and next state. `DeclReading` holds the trees of
  the supported declarations, their tokens and their English, by structural recursion, and proves that the machine
  computes it. `DeclWords` tells what the lexer does by the listed characters and words, `DeclExamples` reads one
  declaration letter by letter.
- **Rotation** (`Rotation`). The cycle-following in-place rotation, for every length and shift instead of the
  literals 9 and 15.
- **NAT check** (`NatClient`, `NatSteps`, `NatHistory`, `NatCheck`, `NatProtocol`, `NatVerdicts`, `NatScenario`).
  The client's handlers as functions of the answers of the operating system and the network; the client program as a
  class that does the same, with its two loops, for which the client's theorems are proved again; and the whole
  protocol as a transition system: the client, a worker for every connection at servers 1 and 2, a worker for every
  bounce connection at server 3, and every datagram ever sent, which may be lost, repeated or reordered. `NatSteps`
  tells every step field by field, `NatHistory` what the client has found out and reports by what has happened in
  the run, `NatVerdicts` what the verdicts owe to the actions of the whole system; `NatScenario` shows that each is
  reached.
- **Text codecs** (`Bits`, `Utf8`, `Utf8Table`, `Utf8Bits`, `Utf8Text`, `Ncr`, `NcrBuffers`, `Percent`, `PercentText`,
  `Units`, `AnyText`). UTF-8 in the six-byte form of section 2 of RFC 2279, decimal character references (section
  5.3.1 of HTML 4.01), percent encoding (section 2.1 of RFC 3986) and two-byte units. `Bits` defines C's and, or and
  shifts digit by digit; the methods of `Utf8Bits` encode and decode with them as the source does, and are proved to
  compute the remainders and quotients of the model. `AnyText` and `PercentText` say what the converters make of any
  text, well-formed or not.
- **Growable array** (`IntArray`) and **ring of messages** (`RingBuffer`), as classes over arrays.

`Arithmetic`, `Decimal`, `Sequences` and `Buffers` hold what these share.

What the code does is followed where its own comments say something else. In `natserver.c` the comments at the forks
take the parent for the child; one process serves and the other goes back to the loop, which is all the model
needs. `_utf8_to_unicode` is commented to return -1 on failure and returns 0. The comment table of UTF-8 ends its
four-byte row at 0x1FFFFF, but the branch runs to 0x7FFFFFF and loses bits above that; the six-byte branch of the
encoder is unreachable. `utf8_to_unicode` is commented to return -3 for a small buffer, but returns -2.
The array's reduction asks malloc for `2*capacity` bytes; it is modelled as that many slots.

Assumptions that a theorem needs are in its `requires`. For the protocol they are: public addresses and ports are
not zero, the NAT's endpoints are not the servers', nobody else sends from the client's or the servers' endpoints, a
connection from server 3's address is server 3's, one TCP read or write moves a whole message, and server 3's worker
does not die before it calls connect.

Some of what one would expect of the code is false. Where that is so a lemma says for all inputs when it holds, and
another gives an input on which it does not:

- the declaration reader stops and never looks below its stack: `DeclStopping.EndsExactly`, `FailingTexts`;
- the indices of the rotation are not negative: `Rotation.NegativeIndexExactly`, whose condition gives the inputs;
- the UTF-8 check returns: `Utf8Text.LoopsForEverExactly`, `StrayContinuation`;
- the percent converters stay within `len` bytes and their input: `Percent.EncoderOverrunsExactly`, `EncoderOverrun`;
  `ReadsInsideExactly`, `OverfillsExactly`, `DecoderOverruns`;
- so do those of two-byte units: `Units.OverrunsExactly`, `UnitOverrun`; `ReadsUnitsExactly`, `OddRunsPast`;
- the array has a slot for what it accepts: `IntArray.AddFitsExactly`, `AllowedExactly`, `AddAfterEmptied`.

## Model

| member | source | states |
|---|---|---|
| DeclLexer.SpellTokens | src/FSM/cAnalizeFsm.c:66-82 | cutting a text that spells given tokens with blanks between them gives exactly those tokens, then those of what follows |
| DeclWords.WordCut | src/FSM/cAnalizeFsm.c:40-82 | behind any blanks, every word of the 52 letters and 10 digits in front of anything else is one token and the rest is left; it is a QUALIFIER if it is const, which comes out as readonly, or volatile, a TYPE if it is one of the twelve type words, and an IDENTIFIER otherwise |
| DeclWords.CharCut | src/FSM/cAnalizeFsm.c:66-82 | every other character but a blank is a token of its own, whose class is the character |
| DeclWords.BlanksOnly | src/FSM/cAnalizeFsm.c:70 | blanks alone give no token |
| DeclExamples.NextRead | src/FSM/cAnalizeFsm.c:90-180 | `char *const (*next)();` is read as "next is point to function returning readonly point to char", word for word |
| DeclExamples.BoundExamples | src/FSM/cAnalizeFsm.c:119-121 | the bound 10 is written as 0..9 and the bound 0x1f, of which only the 0 is read, as 0..-1 |
| DeclExamples.ArrayExamples | src/FSM/cAnalizeFsm.c:116-126 | brackets around 10 are read as "array 0..9 of", empty ones as "array of" |
| DeclReader.Reader.GetToken | src/FSM/cAnalizeFsm.c:66-82 | the current token is the first of the unread text and the rest stays unread; at the end it is the end-of-input token for ever |
| DeclReader.Reader.Scan | src/FSM/cAnalizeFsm.c:68-81 | blanks are skipped and the first token is taken, which `DeclWords.WordCut` and `CharCut` tell by the listed characters |
| DeclReader.Reader.Push | src/FSM/cAnalizeFsm.c:37 | the token goes on top of the stack and nothing below changes |
| DeclReader.Reader.Pop | src/FSM/cAnalizeFsm.c:36 | the top token comes off and nothing below changes |
| DeclReader.Reader.DoInitialize | src/FSM/cAnalizeFsm.c:99-109 | the state's effect on input, stack and output is the machine's, on every input with a name and room on the stack for the tokens before it |
| DeclReader.Reader.DoGetArray | src/FSM/cAnalizeFsm.c:113-127 | the loop over bounds has the machine's effect on every input |
| DeclReader.Reader.DoGetParms | src/FSM/cAnalizeFsm.c:130-140 | skipping to the closing parenthesis has the machine's effect whenever there is one ahead |
| DeclReader.Reader.DoGetLparen | src/FSM/cAnalizeFsm.c:143-153 | the state's effect is the machine's, on an empty stack too |
| DeclReader.Reader.DoGetPtrPart | src/FSM/cAnalizeFsm.c:156-170 | the state's effect is the machine's whenever the stack is not empty |
| DeclReader.Reader.DoGetType | src/FSM/cAnalizeFsm.c:172-180 | the remaining tokens are written from the top and the stack is empty |
| DeclReader.Reader.Drive | src/FSM/cAnalizeFsm.c:90-96 | on every text whose tokens let it stop, the driver loop ends in the configuration the machine's run ends in |
| DeclMachine.PushAllExactly | src/FSM/cAnalizeFsm.c:99-109 | the first state stacks exactly the tokens before the first identifier, and never ends exactly if there is none |
| DeclMachine.SkipsForEverExactly | src/FSM/cAnalizeFsm.c:134-136 | skipping never ends exactly if no closing parenthesis is ahead |
| DeclStopping.HangsExactly | src/FSM/cAnalizeFsm.c:113-170 | behind the name the reader hangs exactly if the tokens can be cut into at most as many visits (a suffix and one token) as there are stacked parentheses it gets to, and then an opening parenthesis never closed |
| DeclStopping.ClosedNeverHangs | src/FSM/cAnalizeFsm.c:130-140 | it does not if every opening parenthesis has a closing one somewhere behind it |
| DeclStopping.EndsExactly | src/FSM/cAnalizeFsm.c:90-180 | of every text: it hangs exactly without a name or on such parameters, looks below its stack exactly if it does not hang and all tokens before the name are parentheses, stars and qualifiers, and stops otherwise |
| DeclStopping.FailingTexts | src/FSM/cAnalizeFsm.c:90-180 | the empty text and a name with an open parenthesis hang; a name alone makes it look below its stack |
| DeclMachine.CallsBounded | src/FSM/cAnalizeFsm.c:90-180 | from any state after the first, the number of state calls is at most three for every stacked token plus a constant |
| DeclMachine.DriverCallsBounded | src/FSM/cAnalizeFsm.c:90-180 | with k tokens stacked the driver makes at most 3k + 6 state calls, whatever the input holds |
| DeclMachine.EveryTokenPoppedOnce | src/FSM/cAnalizeFsm.c:143-180 | a run that stops has taken off every stacked token exactly once, from the top, and leaves an empty stack |
| DeclMachine.UndefinedExactly | src/FSM/cAnalizeFsm.c:156-170 | a run that does not hang looks at an empty stack exactly when every stacked token is a parenthesis, star or qualifier |
| DeclMachine.TypeKeepsRunDefined | src/FSM/cAnalizeFsm.c:99-170 | a TYPE among the stacked tokens keeps every run defined |
| DeclReading.NumberOfWord | src/FSM/cAnalizeFsm.c:120 | the number of a word is that of the digits it starts with, whatever letters follow them |
| DeclReading.BoundsRead | src/FSM/cAnalizeFsm.c:113-127 | the loop reads any number of bounds, open or any words that start with a digit, as their English, whatever is stacked and follows |
| DeclReading.SuffixRead | src/FSM/cAnalizeFsm.c:113-140 | arrays or a parameter list are read as their English and the machine goes on at the stack |
| DeclReading.PrefixesRead | src/FSM/cAnalizeFsm.c:143-170 | stacked stars and qualifiers are read from the name outwards |
| DeclReading.DeclaratorRead | src/FSM/cAnalizeFsm.c:113-170 | a declarator of any nesting is read as its English, its tokens are gone on both sides, and nothing else is touched |
| DeclReading.GroupRead | src/FSM/cAnalizeFsm.c:143-153 | a parenthesised declarator is read completely before what stands outside its parentheses |
| DeclReading.SpecifiersRead | src/FSM/cAnalizeFsm.c:156-180 | specifiers with a TYPE among them are written in reverse order and the machine stops |
| DeclReading.DeclarationRead | src/FSM/cAnalizeFsm.c:90-180 | for every declaration tree and every text with its tokens, the run stops with exactly its English written, an empty stack and one token read beyond it |
| DeclReading.WrittenDeclarationRead | src/FSM/cAnalizeFsm.c:40-180 | the same for the declaration written out as text |
| Rotation.Rotate | src/Practice/while.c:235-300 | ends with every element moved k places on, after gcd(n, k mod n) rounds, having written the slots in the order of WriteOrder; for every shift on which no index is negative |
| Rotation.NegativeIndexExactly | src/Practice/while.c:242-255 | with C's remainder the first index is negative exactly for a negative shift that is no multiple of the length; on every other shift each index is the slot shift places on |
| Rotation.RemainderTruncates | src/Practice/while.c:244-254 | the remainder of the model is what a division that rounds towards zero leaves over, with the sign of the dividend |
| Rotation.RotatedAt | src/Practice/while.c:247-276 | rotating by k puts the element at j to (j + k) mod n |
| Rotation.RotatedTwice | src/Practice/while.c:235-300 | rotations add up |
| Rotation.RotatedUndone | src/Practice/while.c:235-300 | rotating by n - k mod n undoes rotating by k |
| Rotation.HopClass | src/Practice/while.c:253-257 | the walk never leaves its class modulo the gcd |
| Rotation.HopInjective | src/Practice/while.c:251-298 | no slot comes twice within one cycle |
| Rotation.HopCovers | src/Practice/while.c:251-298 | every slot of the class is on the cycle |
| Rotation.BackAtStart | src/Practice/while.c:298 | the do-while condition fails exactly after a whole cycle of n / gcd hops |
| Rotation.EverySlotWrittenOnce | src/Practice/while.c:247-300 | all rounds together write every slot exactly once |
| Rotation.NextSlot | src/Practice/while.c:253-257 | the next slot of an unfinished cycle has not been written, and is the one written next |
| Rotation.MovedStep | src/Practice/while.c:253-259 | one hop puts the carried element where it belongs and picks up one that is still original |
| Rotation.CountTellsRounds | src/Practice/while.c:247 | stopping on the count is stopping after gcd rounds |
| Arithmetic.GcdIsGreatest | src/Practice/while.c:247-300 | the number of rounds is a common divisor and every common divisor divides it |
| NatCheck.Program.constructor | src/P2P/natcheck.c:586-703 | the program starts with seven sockets, two of them connecting, and nothing found out |
| NatCheck.Program.ListenTcp | src/P2P/natcheck.c:232-273 | all waiting connections are taken as the client model says; an accept error ends the program |
| NatCheck.Program.CheckTcp | src/P2P/natcheck.c:275-417 | one call on one of the four socket variables has the effect of the model's step |
| NatCheck.Program.ReceiveReply | src/P2P/natcheck.c:320-416 | a reply is used, refused or ends the program as the model says; reply 2 leaves the loopback's socket waiting for its connect, and server 3's exactly if that connect got under way |
| NatCheck.Program.JudgeTooSoon | src/P2P/natcheck.c:756-761 | the flag is set as the model's step says |
| NatCheck.Program.CheckLoopback | src/P2P/natcheck.c:508-552 | both loopback sockets are served as the model's step says |
| NatCheck.Program.Receive | src/P2P/natcheck.c:419-454 | one datagram is recorded, ignored or drawn a warning for as the model says |
| NatCheck.Program.RecvUdpAll | src/P2P/natcheck.c:456-506 | all waiting datagrams in order |
| NatCheck.Program.BeginTry | src/P2P/natcheck.c:706-732 | through any NAT, what a try hands the two UDP sockets is the set of datagrams by which the protocol's transition system makes its step; the client's invariant is kept |
| NatCheck.Program.Round | src/P2P/natcheck.c:733-769 | one round of the inner loop is the model's nine steps in order, up to a fatal one; it keeps the client's invariant and changes no recorded address |
| NatCheck.Program.Loop | src/P2P/natcheck.c:706-769 | the loop of tries around the loop of rounds ends where the model's run on the same answers does, with the invariant kept |
| NatCheck.Program.Drive | src/P2P/natcheck.c:682-830 | from the start, whatever the answers: at the end the select sets are sound unless the program died, a raised flag means an early accepted callback and at the report is raised exactly then, every address recorded after any number of rounds is still the same, and the report is the one that the history of a run tells |
| NatClient.DrivenReached | src/P2P/natcheck.c:706-769 | wherever answers lead the program, events lead the step machine, so what holds in all reachable states holds of the program |
| NatClient.DrivenWritesOnce | src/P2P/natcheck.c:706-769 | what is recorded after some rounds is the same after all of them |
| NatClient.AcceptAllWatched | src/P2P/natcheck.c:232-273 | accepting any connections keeps the select sets sound, even when closed numbers are used again |
| NatClient.DialWatched | src/P2P/natcheck.c:357-408 | the two connects after server 2's reply keep the select sets sound and put their sockets into the write set, server 3's only if its connect got under way |
| NatClient.CheckKeepsDescriptors | src/P2P/natcheck.c:275-417 | every call of the reply handler does |
| NatClient.LoopbackKeepsDescriptors | src/P2P/natcheck.c:508-552 | closing the loopback sockets does |
| NatClient.StepKeepsClientInv | src/P2P/natcheck.c:706-769 | every step keeps the client's invariant whatever it is answered |
| NatClient.SelectSetsSound | src/P2P/natcheck.c:682-703 | in every reachable state the read and write sets are disjoint, hold only open descriptors of live socket variables, each in one variable, and lie within maxsock; the callback is never waiting for a connect |
| NatClient.TooSoonExactly | src/P2P/natcheck.c:751-761 | in every reachable state a raised flag means that server 3 was recorded in an earlier round than server 2, if ever, over an accepted connection and before any connect to server 3; after a round's test it is raised exactly then, before it exactly if that was so in an earlier round |
| NatClient.AddressesWrittenOnce | src/P2P/natcheck.c:341-354 | a recorded public address is never changed by any step |
| NatClient.RecvUdpWritesOnce | src/P2P/natcheck.c:431-453 | nor by any sequence of datagrams |
| NatClient.TooSoonHappens | src/P2P/natcheck.c:232-273 | from every initial state the flag can be raised by an accepted early callback |
| NatSteps.ConnectingStep | src/P2P/natcheck.c:285-315 | a socket waiting to be connected moves from the write set to the read set exactly when the request is sent, and only a hard error ends the program |
| NatSteps.WaitingStep | src/P2P/natcheck.c:317-347 | a socket waiting for the reply goes on waiting while nothing has come, and anything but a first whole reply makes it be given up, with nothing else changed |
| NatSteps.FirstReplyStep | src/P2P/natcheck.c:354-416 | the first reply of server 1 or 3 is recorded with its round and its socket given up, with nothing else changed |
| NatSteps.SecondReplyStep | src/P2P/natcheck.c:357-416 | that of server 2 is recorded, and its socket given up; the loopback's socket is watched, or the program dies, and server 3's is watched if its connect got under way |
| NatSteps.ReplyTwoWatches | src/P2P/natcheck.c:357-408 | in every run the step that records reply 2 leaves the loopback's socket in the write set, and server 3's exactly if its connect got under way |
| NatSteps.LoopbackStep | src/P2P/natcheck.c:508-552 | what becomes of both loopback sockets, of the sets and of the flag, for every answer |
| NatSteps.OtherSteps | src/P2P/natcheck.c:706-769 | the steps around the handlers: select, an accept error, the test for a reply that came too soon, and what a timeout ends |
| NatSteps.ListenKeepsFirst | src/P2P/natcheck.c:255-271 | of all connections accepted the first from server 3 and the first from anywhere else are kept and watched, if there was none, and all others closed |
| NatHistory.UdpFoundExactly | src/P2P/natcheck.c:419-506 | in every run the address recorded for a server is the one in its first report, it is warned about exactly if a later report differs from that, and the loopback flag says that a loopback datagram arrived |
| NatHistory.TcpFoundExactly | src/P2P/natcheck.c:320-355 | in every run the address recorded for a server is the one in the first reply read from it, for server 3 over either socket |
| NatHistory.TcpLoopExactly | src/P2P/natcheck.c:537-549 | in every run the flag says that a message with the right number was read from the incoming loopback connection |
| NatHistory.TriesCounted | src/P2P/natcheck.c:706-769 | a run reports after exactly twenty tries |
| NatHistory.ReportExactly | src/P2P/natcheck.c:771-861 | the report of every run: which server was not heard from, in the order of the tests, and if all were, every verdict by the replies, reports and loopback messages of the run |
| NatProtocol.AskingServer3KeepsTcpInv | src/P2P/natserver.c:188-206 | connecting to server 3 and writing the bounce request keep the protocol's TCP invariant |
| NatProtocol.WorkersKeepTcpInv | src/P2P/natserver.c:126-226 | so do the other steps of the workers of servers 1 and 2 |
| NatProtocol.DiallingKeepsTcpInv | src/P2P/natserver.c:385-433 | so does reading the bounce request and calling connect |
| NatProtocol.BouncersKeepTcpInv | src/P2P/natserver.c:438-497 | so do the later steps of server 3's worker, its death included |
| NatProtocol.ClientKeepsTcpInv | src/P2P/natcheck.c:275-417 | so does every client step |
| NatProtocol.Server3DialsFirst | src/P2P/natserver.c:188-222 | in every interleaving, once the client has recorded server 2's reply or connected to server 3, server 3 has called connect for the public endpoint server 2 saw, which is the one recorded |
| NatProtocol.Server3DialledBeforeReply | src/P2P/natserver.c:426-493 | and it had done so before the very step that records the reply |
| NatProtocol.ServersKeepUdpInv | src/P2P/natserver.c:229-284 | every datagram a server adds is addressed to and carries the endpoint that server saw; bounce requests come from server 2 only and go to server 3's private port only |
| NatProtocol.ArrivalTellsMapping | src/P2P/natcheck.c:456-506 | a server's report that reaches the client carries the NAT's mapping for that server; one from server 3 gets in only through a NAT that lets it in unsolicited |
| NatProtocol.ConsistencyVerdicts | src/P2P/natcheck.c:795-842 | a run that reports says consistent translation, for TCP and for UDP, exactly when the NAT maps the socket alike towards servers 1 and 2, and neither of these is ever printed to report inconsistently |
| NatVerdicts.NoForgeryNoWarning | src/P2P/natserver.c:273-283 | in every run in which no stranger sends a bounce request to server 3's private port, no server is ever said to report inconsistently, and every report of server 3 goes to and is about an endpoint whose request server 2 has answered |
| NatScenario.ForgeryWarns | src/P2P/natserver.c:499-558 | and one such forged request is enough for a warning, through every open NAT that maps the two servers differently |
| NatVerdicts.TrySendsExactly | src/P2P/natcheck.c:712-732 | every try sends one request to each of servers 1 and 2 and, once server 2's report is known, one probe to the endpoint server 2 sees; no other step sends anything |
| NatProtocol.UdpFilterVerdict | src/P2P/natcheck.c:853-860 | unsolicited datagrams are reported as not filtered only if the NAT lets server 3 in unsolicited, and nothing was ever sent from the client's endpoints to server 3 |
| NatProtocol.CheckKeepsInbound | src/P2P/natcheck.c:320-416 | recording a reply keeps that an accepted connection heard before server 2 came through a NAT that lets server 3 connect in |
| NatProtocol.TcpFilterVerdict | src/P2P/natcheck.c:823-830 | unsolicited connections are reported as not filtered exactly if reply 3 was recorded in an earlier round than reply 2; then it was sent by server 3, came over an accepted connection, and the NAT lets server 3 connect in unsolicited |
| NatVerdicts.SimultaneousOpenVerdict | src/P2P/natcheck.c:805-812 | a run that reports says that simultaneous open works exactly if a reply of server 3 was recorded; then server 3 has sent it, after dialling the endpoint in it |
| NatScenario.VerdictReached | src/P2P/natcheck.c:682-860 | from every start through every NAT a run of the whole system gets to a verdict, even if server 3's worker dies; through one that lets server 3 in unsolicited, to the verdict that says so for TCP and UDP |
| NatScenario.SimultaneousOpenReached | src/P2P/natcheck.c:357-416 | through every NAT, a filtering one too, a run in which server 3's reply comes over the client's own connection after server 2's, and the report says that simultaneous open works and nothing unsolicited gets in |
| Utf8.RoundTripExactly | src/utf8ToUnicodeToNCR/utf8ToUnicodeToNCR.c:182-305 | decoding the encoding of a 32-bit number gives it back exactly up to 0x1FFFFF |
| Utf8.ValueOfEncode | src/utf8ToUnicodeToNCR/utf8ToUnicodeToNCR.c:182-305 | and what it gives otherwise: the remainder modulo 2^21 up to 0x7FFFFFF, modulo 2^26 above |
| Utf8.EncodeOfValue | src/utf8ToUnicodeToNCR/utf8ToUnicodeToNCR.c:182-305 | encoding the value of a well-formed word gives the word back exactly if it has at most four bytes and is in shortest form |
| Utf8Table.HeadCountsOnes | src/utf8ToUnicodeToNCR/utf8ToUnicodeToNCR.c:42-59 | the ones at the front of a byte tell how many bytes its character has: none one byte, one no character, two to six as many, seven and eight five |
| Utf8Table.ValueTakesSixBits | src/utf8ToUnicodeToNCR/utf8ToUnicodeToNCR.c:182-225 | the number of a character of any length is the free bits of its head followed by six bits of every further byte |
| Utf8.EncodeIsWord | src/utf8ToUnicodeToNCR/utf8ToUnicodeToNCR.c:253-305 | every encoding is a head with exactly the continuation bytes it announces, without a zero byte for a number above 0 |
| Utf8.WordLength | src/utf8ToUnicodeToNCR/utf8ToUnicodeToNCR.c:42-75 | a well-formed word in front of any text is taken as one character |
| Utf8Text.CharacterBody | src/utf8ToUnicodeToNCR/utf8ToUnicodeToNCR.c:65-75 | the scan of continuation bytes gives the first place where one is missing, and never looks past the terminator |
| Utf8Text.Decode | src/utf8ToUnicodeToNCR/utf8ToUnicodeToNCR.c:182-225 | length and value of the first character, cut short where its bytes end |
| Utf8Text.IsUtf8Character | src/utf8ToUnicodeToNCR/utf8ToUnicodeToNCR.c:80-90 | true exactly if all announced bytes are there, and only then the cursor moves |
| Utf8Text.IsUtf8Str | src/utf8ToUnicodeToNCR/utf8ToUnicodeToNCR.c:92-104 | on every string without a stray continuation byte behind words, the verdict and all cursor positions are those of the scan |
| Utf8Text.StallsExactly | src/utf8ToUnicodeToNCR/utf8ToUnicodeToNCR.c:92-104 | the scan stalls exactly on the strings in which words are followed by a continuation byte |
| Utf8Text.LoopsForEverExactly | src/utf8ToUnicodeToNCR/utf8ToUnicodeToNCR.c:92-104 | on exactly these the loop goes round once more after every number of rounds |
| Utf8Text.StrayContinuation | src/utf8ToUnicodeToNCR/utf8ToUnicodeToNCR.c:92-104 | the string of the one byte 0x80 is such a string |
| Utf8Text.PassedAreWords | src/utf8ToUnicodeToNCR/utf8ToUnicodeToNCR.c:80-104 | what the scan has passed is made of words, and the byte behind them tells how it ends |
| Utf8Text.AcceptsExactly | src/utf8ToUnicodeToNCR/utf8ToUnicodeToNCR.c:80-104 | the strings accepted are exactly the concatenations of well-formed words |
| Utf8Text.EncodedTextAccepted | src/utf8ToUnicodeToNCR/utf8ToUnicodeToNCR.c:92-104 | the encodings of any code points up to 0x1FFFFF are accepted and the scan stands exactly at their boundaries |
| Utf8Text.EncodedHeads | src/utf8ToUnicodeToNCR/utf8ToUnicodeToNCR.c:42-59 | a byte of such a text looks like a head exactly at a boundary |
| Bits.Split | src/utf8ToUnicodeToNCR/utf8ToUnicodeToNCR.c:194-222 | a shift and a mask of ones take a number apart without loss |
| Bits.OrDisjoint | src/utf8ToUnicodeToNCR/utf8ToUnicodeToNCR.c:194-222 | joining fields that do not overlap adds them |
| Bits.AndBit | src/utf8ToUnicodeToNCR/utf8ToUnicodeToNCR.c:194-222 | a bit of the and is set exactly if it is set in both |
| Bits.OrBit | src/utf8ToUnicodeToNCR/utf8ToUnicodeToNCR.c:194-222 | a bit of the or is set exactly if it is set in one of them |
| Bits.ShlBit | src/utf8ToUnicodeToNCR/utf8ToUnicodeToNCR.c:194-222 | a left shift moves every bit up and fills with zeros |
| Bits.ShrBit | src/utf8ToUnicodeToNCR/utf8ToUnicodeToNCR.c:253-305 | a right shift moves every bit down |
| Utf8Bits.ContinuesMasked | src/utf8ToUnicodeToNCR/utf8ToUnicodeToNCR.c:72 | the masked comparison is the test for a continuation byte |
| Utf8Bits.JoinSix | src/utf8ToUnicodeToNCR/utf8ToUnicodeToNCR.c:215-222 | the masks, shifts and ors of the longest branch give the number of the six bytes |
| Utf8Bits.EncodeInto | src/utf8ToUnicodeToNCR/utf8ToUnicodeToNCR.c:253-305 | the masks, shifts and ors write exactly the bytes of the encoding, and nothing behind them |
| Ncr.AnalizeNcrCharacter | src/utf8ToUnicodeToNCR/utf8ToUnicodeToNCR.c:334-349 | the reader returns the number of the reference or -1 within 32 bits at every step, and where the text goes on |
| Ncr.DigitStep | src/utf8ToUnicodeToNCR/utf8ToUnicodeToNCR.c:344-345 | the guard before a digit fails exactly if the number would leave 31 bits, and then no further digit brings it back |
| Ncr.DigitsRead | src/utf8ToUnicodeToNCR/utf8ToUnicodeToNCR.c:334-349 | any digit string is read as its exact value up to 2^31 - 1 and as -1 above |
| Ncr.WrittenReads | src/utf8ToUnicodeToNCR/utf8ToUnicodeToNCR.c:231-244 | a printed reference reads back as its number |
| Ncr.WrittenShort | src/utf8ToUnicodeToNCR/utf8ToUnicodeToNCR.c:231-244 | a printed reference has at most 13 characters |
| Ncr.EncodedToReferences | src/utf8ToUnicodeToNCR/utf8ToUnicodeToNCR.c:426-451 | encoded code points become exactly their references when these and a terminator fit, and the result is -3 otherwise |
| Ncr.ReferencesToEncoded | src/utf8ToUnicodeToNCR/utf8ToUnicodeToNCR.c:394-420 | references become exactly the encodings when these fit, and the result is -3 otherwise |
| AnyText.ReferenceExactly | src/utf8ToUnicodeToNCR/utf8ToUnicodeToNCR.c:334-349 | a text starts with a reference exactly if it is the opening mark, digits whose value is at most 2^31 - 1, possibly none, and a semicolon |
| AnyText.EveryTextCut | src/utf8ToUnicodeToNCR/utf8ToUnicodeToNCR.c:42-75 | every text is made of characters, complete or cut short where their bytes end, up to its end or a stray continuation byte |
| AnyText.AnyTextToReferences | src/utf8ToUnicodeToNCR/utf8ToUnicodeToNCR.c:426-451 | of any text the characters become their references while there is room; the result is the length at the end, -2 at a stray continuation byte and -3 at the first character without room |
| AnyText.AnyReferences | src/utf8ToUnicodeToNCR/utf8ToUnicodeToNCR.c:394-420 | of any text the references become their encodings while there is room; the result is the length at the end, -2 where no reference stands and -3 at the first without room |
| Ncr.RoundTripFromUtf8 | src/utf8ToUnicodeToNCR/utf8ToUnicodeToNCR.c:394-451 | UTF-8 of code points from 1 to 0x1FFFFF to references and back is the identity |
| Ncr.RoundTripFromReferences | src/utf8ToUnicodeToNCR/utf8ToUnicodeToNCR.c:394-451 | canonical references to UTF-8 and back is the identity |
| NcrBuffers.UrlUtf8ToNcr | src/utf8ToUnicodeToNCR/utf8ToUnicodeToNCR.c:426-451 | result code, text written and untouched rest of the buffer are those of the conversion, on every terminated input |
| NcrBuffers.Utf8ToNcr | src/utf8ToUnicodeToNCR/utf8ToUnicodeToNCR.c:231-244 | the reference of the first character, which fits the scratch buffer |
| NcrBuffers.UrlNcrToUtf8 | src/utf8ToUnicodeToNCR/utf8ToUnicodeToNCR.c:394-420 | result code, bytes written and untouched rest of the buffer are those of the conversion, on every terminated input |
| Percent.PercentRoundTrip | src/utf8ToUnicodeToNCR/utf8ToUnicodeToNCR.c:466-519 | every accepted string comes back from its encoding, which is exactly three times as long |
| Percent.MergeOfSplit | src/utf8ToUnicodeToNCR/utf8ToUnicodeToNCR.c:453-460 | shift and mask give the two halves of a byte, and merging them gives the byte |
| Percent.HexOfDigit | src/utf8ToUnicodeToNCR/utf8ToUnicodeToNCR.c:312-328 | a half byte written as a hexadecimal digit reads back |
| PercentText.HexDigitListed | src/utf8ToUnicodeToNCR/utf8ToUnicodeToNCR.c:324-328 | hexadecimal digits are written as 0-9 and A-F |
| PercentText.HexValueListed | src/utf8ToUnicodeToNCR/utf8ToUnicodeToNCR.c:312-317 | both cases are read, and any other byte as its distance from 0, modulo 256 |
| PercentText.MergeBits | src/utf8ToUnicodeToNCR/utf8ToUnicodeToNCR.c:453 | of any two merged bytes the first gives the high half and the second the low one and whatever else it has |
| Percent.Utf8ToUrlComponent | src/utf8ToUnicodeToNCR/utf8ToUnicodeToNCR.c:498-519 | -1 for no UTF-8 with the buffer unchanged; otherwise the triples of all bytes that fit, then zeros, and -2 if some do not; in any buffer that holds what is written |
| Percent.EncoderOverrunsExactly | src/utf8ToUnicodeToNCR/utf8ToUnicodeToNCR.c:507-516 | the last terminator falls behind len bytes exactly if there are triples and they fill these up |
| Percent.EncoderOverrun | src/utf8ToUnicodeToNCR/utf8ToUnicodeToNCR.c:507-516 | one byte for a buffer of three needs four |
| PercentText.UrlComponentToUtf8 | src/utf8ToUnicodeToNCR/utf8ToUnicodeToNCR.c:466-490 | the buffer holds what comes out and is untouched behind it, on every text not read past and in every buffer that holds it; every piece of a text that has room is one byte of it, and a text without a percent sign comes out unchanged |
| PercentText.TextDecoded | src/utf8ToUnicodeToNCR/utf8ToUnicodeToNCR.c:466-490 | of any text of plain characters and triples that has room, a plain character stands for itself and a triple for the number its two hexadecimal digits write, in capitals or not |
| PercentText.FullDropsPairs | src/utf8ToUnicodeToNCR/utf8ToUnicodeToNCR.c:474-484 | once the buffer is full every percent sign is dropped with the character after it, while plain characters still come out |
| PercentText.CutTriple | src/utf8ToUnicodeToNCR/utf8ToUnicodeToNCR.c:474-482 | a triple cut short by the end takes the terminator for its last digit |
| PercentText.PlainUnchanged | src/utf8ToUnicodeToNCR/utf8ToUnicodeToNCR.c:484 | text without a percent sign comes out unchanged whatever the room |
| Percent.ReadsInsideExactly | src/utf8ToUnicodeToNCR/utf8ToUnicodeToNCR.c:470-488 | decoding reads behind the terminator exactly on a last percent sign that meets room and is not part of a triple before it |
| Percent.EndsOtherwise | src/utf8ToUnicodeToNCR/utf8ToUnicodeToNCR.c:470-488 | a text that does not end in a percent sign is not read past |
| Percent.OverfillsExactly | src/utf8ToUnicodeToNCR/utf8ToUnicodeToNCR.c:470-488 | more than len bytes come out exactly if a plain character stands behind as many pieces as there is room for and any pairs skipped after them |
| Percent.DecoderOverruns | src/utf8ToUnicodeToNCR/utf8ToUnicodeToNCR.c:470-488 | a lone percent sign is read past; two plain characters overfill one byte |
| Units.UnitsRoundTrip | src/utf8ToUnicodeToNCR/utf8ToUnicodeToNCR.c:526-581 | text of shortest-form characters up to 0xFFFF comes back from its units, two bytes for every character |
| Units.EncodedToUnits | src/utf8ToUnicodeToNCR/utf8ToUnicodeToNCR.c:526-547 | such text becomes its units in order, low byte first, exactly if every character fits where it stands; the result is -2 otherwise |
| AnyText.AnyTextToUnits | src/utf8ToUnicodeToNCR/utf8ToUnicodeToNCR.c:526-547 | of any text the characters, cut short or not, become their units while there is room; the result is the length at the end and -2 at a stray continuation byte or the first character without room |
| AnyText.AnyUnits | src/utf8ToUnicodeToNCR/utf8ToUnicodeToNCR.c:554-581 | of any units those that fit become their encodings, and the first that does not ends it with -3 |
| Units.UnitKeepsLowBytes | src/utf8ToUnicodeToNCR/utf8ToUnicodeToNCR.c:541 | a unit holds the two low bytes of any number, low byte first; what is above 0xFFFF is lost |
| Units.RoomSuffices | src/utf8ToUnicodeToNCR/utf8ToUnicodeToNCR.c:526-547 | room for one byte more than the units is always enough |
| Units.UnitsToEncoded | src/utf8ToUnicodeToNCR/utf8ToUnicodeToNCR.c:554-581 | units from 0 to 0xFFFF become the encodings when these fit, and the result is -3 otherwise |
| Units.Utf8ToUnicode | src/utf8ToUnicodeToNCR/utf8ToUnicodeToNCR.c:526-547 | result code and bytes written are those of the conversion, on every terminated input, with zeros behind them up to len; one byte more than len is needed only where it is written |
| Units.OverrunsExactly | src/utf8ToUnicodeToNCR/utf8ToUnicodeToNCR.c:536-545 | a byte is written behind len exactly if len is odd, the characters before all had room, and the next one, on the last byte of the room, is a single byte |
| Units.UnitOverrun | src/utf8ToUnicodeToNCR/utf8ToUnicodeToNCR.c:536-545 | one letter for a buffer of one byte |
| Units.UnicodeToUtf8 | src/utf8ToUnicodeToNCR/utf8ToUnicodeToNCR.c:554-581 | result code, bytes written and untouched rest are those of the conversion, on every input inside which the source stays |
| Units.ReadsUnitsExactly | src/utf8ToUnicodeToNCR/utf8ToUnicodeToNCR.c:561-579 | the loop stays inside its input exactly if the length is even or the encodings of the whole units do not fit |
| Units.FullExactly | src/utf8ToUnicodeToNCR/utf8ToUnicodeToNCR.c:571-573 | the result is -3 exactly if the encodings of the whole units do not fit |
| IntArray.CopiesBounded | src/Storage/linear/array/intarray.c:34-156 | A adds and R removes from n empty slots copy at most 2A + R + n/2 elements by growing and shrinking, and the used slots never exceed the allocated ones |
| IntArray.RunCost | src/Storage/linear/array/intarray.c:34-156 | the same from any state, with the potential that pays for the copies |
| IntArray.SlotsExactly | src/Storage/linear/array/intarray.c:34-133 | an add doubles the slots exactly if all are used, and a remove leaves twice the elements left exactly if these use at most a quarter; only then are elements copied, every one once |
| IntArray.AddFitsExactly | src/Storage/linear/array/intarray.c:63-93 | an accepted add leaves no more elements than slots exactly if there was a slot before |
| IntArray.AllowedExactly | src/Storage/linear/array/intarray.c:34-156 | a run never adds to an array without slots exactly if nothing is put at index 0 after the remove that empties it |
| IntArray.NeverEmptiedAllowed | src/Storage/linear/array/intarray.c:111-133 | a run that never empties the array never adds to one without slots |
| IntArray.Inserted | src/Storage/linear/array/intarray.c:79-84 | the value stands at the index, what was before it stays, what was from it on moves up by one |
| IntArray.RemoveTakesLast | src/Storage/linear/array/intarray.c:135-156 | a remove takes out the last occurrence and keeps the order of all others |
| IntArray.RemoveOfAbsent | src/Storage/linear/array/intarray.c:153-155 | removing what is not there changes nothing |
| IntArray.AddThenRemove | src/Storage/linear/array/intarray.c:63-156 | removing a value just inserted, with no equal one behind it, gives the contents back |
| IntArray.Container.constructor | src/Storage/linear/array/intarray.c:11-32 | an empty array with the slots asked for, or none |
| IntArray.Container.Grow | src/Storage/linear/array/intarray.c:34-60 | twice the slots, the same contents, every element copied once |
| IntArray.Container.Insert | src/Storage/linear/array/intarray.c:63-93 | inserts at the index, doubling the slots exactly if all are used, or refuses an index out of range and changes nothing |
| IntArray.Container.Find | src/Storage/linear/array/intarray.c:95-109 | the last place of the value, or -1 |
| IntArray.Container.Reduce | src/Storage/linear/array/intarray.c:111-133 | shrinks exactly if at most a quarter of the slots is used, the contents unchanged |
| IntArray.Container.Delete | src/Storage/linear/array/intarray.c:135-156 | takes out the last occurrence and shrinks exactly if at most a quarter of the slots is used then, or changes nothing |
| RingBuffer.RenderShowsLast | src/ringBuffer/ringBuffer.c:91-133 | after any history of adds and clears, the rendering shows exactly the last min(count, N) messages since the last clear, oldest first, each once, with their slot numbers |
| RingBuffer.AfterHolds | src/ringBuffer/ringBuffer.c:52-77 | after any history each of the last N messages is in the slot of its number modulo N, and a slot no message has got to since the last clear is free |
| RingBuffer.MsgEntity.Add | src/ringBuffer/ringBuffer.c:52-77 | the message goes to the slot of the cursor modulo N, and nothing else changes but the cursor |
| RingBuffer.MsgEntity.Render | src/ringBuffer/ringBuffer.c:91-133 | the walk from the head visits the slots of the model's walk, in order |
| RingBuffer.MsgEntity.Clear | src/ringBuffer/ringBuffer.c:156-170 | every slot is free and counting starts again |

## Left out

- DeclReader.Reader.ReadSize: takes a bound of any size; what atoi does beyond the range of int is undefined and not modelled.
- DeclReader.Reader.Drive: says nothing of the texts on which the source hangs or looks below its stack, which `DeclStopping.EndsExactly` gives, nor of more tokens before the name than the stack has slots, for which the source does not check.
- The 64-byte buffer of one token is not modelled; the number of stack slots is a parameter instead of 100.
- Rotation.Rotate: says nothing of the shifts that give a negative index in C, which `NegativeIndexExactly` gives. The printing of intermediate rows is not modelled.
- The other programs of `while.c` (matrix printers, `reverse`) are not modelled.
- NatProtocol.WorkersKeepTcpInv: the server processes are steps of a transition system on values, not classes; sockets, select, errno, time-outs as clock values and verbose printing do not appear.
- NatCheck.Program.RecvUdpAll: a receive error other than "would block", after which the source looks at an old buffer, is not modelled.
- NatHistory.TcpLoopExactly: does not tell where a loopback message came from, for TCP or UDP, since the source asks only for the right number.
- Allocation failure, null pointers and freeing of memory are not modelled in any component.
- The GBK conversions and predicates, `get_str_code_type` and `is_ncr_str` are not modelled.
- Utf8Text.IsUtf8Str: says nothing of the strings on which the source loops for ever, which `LoopsForEverExactly` gives.
- Percent.Utf8ToUrlComponent: says nothing of these either, nor of buffers too short for what is written, the terminator behind the last triple included.
- PercentText.UrlComponentToUtf8: says nothing of texts that are read past their terminator, nor of buffers too short for the result, since the source checks neither.
- Units.Utf8ToUnicode: says nothing of a buffer of exactly len bytes where one more is written.
- Units.UnicodeToUtf8: says nothing of odd lengths with room for the whole units, on which the source runs past its input.
- RingBuffer.MsgEntity.Render: gives slot numbers and messages in order, not the JSON text, the time stamps or the size estimate; the cursor is unbounded.
- IntArray.Container.Insert: needs a slot to exist, since shrinking an emptied array leaves none and doubling none gives none. The numbers of slots are unbounded.
- Linked lists, trees, heaps, file, time, network and system demos are not modelled.
