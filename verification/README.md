# Model of a publish/subscribe server and its subscribers

The server accepts TCP subscribers by id, keeps their subscriptions over disconnects, turns
UDP datagrams into lines of text and sends each line to the connected subscribers with a
matching topic. This project models the server, the subscriber, the frames between them, the
wildcard matcher and the decoding of datagrams, and proves what they promise.

- Topics.dfy: cutting topics into tokens, and the inverse
- Matching.dfy: the declarative match relation, the greedy two-index search, soundness, completeness by uniqueness, self-match
- LeftmostSearch.dfy: what the search accepts, stated without the search
- Completeness.dfy: exactly which subscriptions the search serves completely
- ShortMisses.dfy: the shortest topic that a subscription misses
- Interest.dfy: when a client wants a topic, by lookup and scan, against the declarative relation
- Wire.dfy: message frames and byte streams as values
- Network.dfy: sockets with arbitrary partial transfers, and the two transfer functions
- ServerModel.dfy: the server's state, what each event does to it, and the descriptor invariant
- ClientHistory.dfy: what a client is sent, defined by its own history alone, and the simulation
- ServerRound.dfy: one pass of the client loop as events, and the bytes on each connection
- ServerInput.dfy: what a run takes off the connections, against what the peers write
- MainLoop.dfy: one iteration and the whole main loop, as events
- Iteration.dfy: what one iteration does to each client, and in which order
- Server.dfy: class `Server`: the methods, proved against the events
- DecimalText.dfy, Scaling.dfy, UdpPayload.dfy: printed numbers, rounded division, datagrams to text
- PublishedText.dfy: the published line read back, in terms of the datagram's bytes
- Distributed.dfy: the server and any number of subscribers over FIFO channels
- Channels.dfy: what arrives at each subscriber, against its history
- AnswerOrder.dfy: when the message a subscriber takes for an answer is the answer
- Subscriber.dfy: class `Subscriber`

How the pieces meet: each method of `Server` equals an event of ServerModel in state and in
bytes written; `Server.Round` composes them into the run of one loop iteration and
`Server.Run` into that of the loop; over all runs ClientHistory says what every client is
sent, `ServerRound.WireMatchesHistory` says it of the bytes written and
`ServerInput.InputMatchesHistory` of the bytes read; `Server.Serve` has all of it from start to
exit. The same events drive Distributed, whose runs are legal runs of the server, whose
channels carry what ClientHistory says (`Channels.RunRecorded`), and in which the steps of a
subscriber are those that the methods of class `Subscriber` perform.

What is a parameter: the descriptor that accept() picks (any that is not open, closed ones
included), the bytes a peer will write before it closes, the readiness flags of poll(), the
size of each partial transfer, the byte order of the host, the order in which maps are
iterated, and the rounding of floating-point division.

Where code and documentation disagree the code is modelled: the command is one byte
(protocols.h:44) although README.md:81-84 speaks of two; a final `*` needs one level although
README.md:135-138 says any number; a subscriber that exits sends no message but closes its
socket (Subscriber.cpp:20-22 against README.md:126-127); a server that exits only closes its
sockets (Server.cpp:23-34 against README.md:140-142).

Three properties one might expect are false of the code, and the model says exactly when they
hold. A subscription does not get every topic it matches (`Completeness.MissedExamples`); it
does exactly when each `*` ends it or is followed by one literal, any number of `+` and
another `*` (`Interest.DeliveryCompleteExactly`), and with the topics limited to the 50 bytes
of a datagram exactly when a recursion over the pattern says so
(`Interest.PublishableCompleteExactly`). The direct lookup of a topic is not a mere
shortcut for the scan (`Interest.FastPathExample`, the topic `*/*`); it is one exactly for the
topics whose tokens the search accepts against themselves (`Interest.FastPathExactly`). A
subscriber does not always take the reply to its request for the answer
(`AnswerOrder.WrongAnswerRun`); it does exactly when the next message is no publication and
every reply missed before has since been read (`AnswerOrder.RightAnswerExactly`).

## Model

| member | source | states |
|---|---|---|
| Topics.TokenizeTopic | Server.cpp:524-532 | the `getline` loop produces the token vector of the topic |
| Topics.TokenizeCut | Server.cpp:524-532 | a nonempty text is cut at its first `/` or taken whole; nothing is read after a final `/` |
| Topics.TerminatedTokenize | Server.cpp:524-532 | tokens with a `/` after each give the topic back, a missing final `/` added |
| Topics.JoinRestoresTopic | Server.cpp:524-532 | joining the tokens and restoring a final `/` if there was one gives the topic back, for every topic |
| Topics.TokenizeTerminated | Server.cpp:524-532 | slash-free tokens, each terminated by `/`, tokenize to themselves |
| Topics.TokenizeKernel | Server.cpp:524-532 | two topics have equal token vectors exactly when they agree up to a missing final `/` |
| Matching.FindFrom | Server.cpp:578-589 | the leftmost position holding the token literally, or the end |
| Matching.AdvanceTo | Server.cpp:578-589 | the inner loop stops at that position and compares no topic token twice |
| Matching.CompareTokenVectors | Server.cpp:551-609 | the two-index loop decides the greedy search; every topic token is compared at most once and the outer iterations are at most the pattern length plus one |
| Matching.GreedyFromIsGreedy | Server.cpp:551-609 | the index form of the search is the suffix form used by the proofs |
| Matching.LoggedOnce | Server.cpp:560-602 | the log of compared positions is strictly increasing, so no longer than the topic |
| Matching.MatchesPeels | Server.cpp:551-609 | cutting the topic into stretches all at once and consuming the pattern from its front are the same relation |
| Matching.MatchesSelf | README.md:135-139 | every token vector, wildcards or not, matches itself declaratively |
| Matching.LooseMatchesIff | README.md:135-139 | the documented reading differs from the code's only where a final `*` has no level left |
| Matching.GreedySound | Server.cpp:551-609 | whatever the search accepts matches declaratively, for all patterns and topics |
| Matching.GreedyLiteral | Server.cpp:598-608 | without wildcards the search is equality of token vectors |
| Matching.CompleteByUniqueness | Server.cpp:551-609 | no wildcard right after a `*` and no literal after a `*` twice in the topic: search and relation agree |
| Matching.SelfMatch | Server.cpp:551-609 | a token vector is accepted by its own pattern exactly when every run of `*` has odd length, unless its first even run stands right before a `+` with another `*` later |
| Matching.MisalignedExamples | Server.cpp:568-591 | `*/*/+/a/*` rejects itself and `*/*/+/*` accepts itself, so the excluded kind of pattern goes both ways |
| LeftmostSearch.SearchExactly | Server.cpp:551-609 | for every pattern and topic: the search accepts exactly the topics that can be cut with each acting `*` covering no level equal to the token behind it, which is taken literally |
| LeftmostSearch.LiteralSearchExactly | Server.cpp:551-609 | where only literals follow a `*`: the declarative relation with each `*` stopping at the first such literal |
| LeftmostSearch.WildcardSearchRejects | Server.cpp:568-591 | where a wildcard follows a `*`, no topic without wildcards is accepted |
| LeftmostSearch.FirstAnchorOnly | Server.cpp:577-591 | `*/pressure` rejects `upb/pressure/ec/pressure` and accepts `upb/ec/pressure` |
| Completeness.StarAbsorbs | Server.cpp:568-591 | exchange step: a `*` behind some `+` covers what an earlier choice leaves over |
| Completeness.CompleteByExchange | Server.cpp:568-591 | if each `*` is last or followed by one literal, any number of `+` and another `*`, the search accepts exactly the matching topics |
| Completeness.MissedTopic | Server.cpp:568-591 | every other pattern has a topic without wildcards that matches and is rejected; made with a one-letter token it takes less than twice the characters of the pattern |
| Completeness.SearchCompleteExactly | Server.cpp:551-609 | the subscriptions for which the search finds every match, decided on the pattern alone, both directions |
| Completeness.DocumentedCompleteExactly | README.md:135-139 | by the documented reading of `*` the search is complete exactly for subscriptions without `*` |
| Completeness.MissedExamples | Server.cpp:568-591 | `*/a/b` rejects `x/a/c/a/b` and `*/a` rejects `a/x/a`, though both match |
| ShortMisses.ShortestHasLength | Server.cpp:524-532 | the length counted for a token vector is that of a topic with these tokens |
| ShortMisses.LengthLeast | Server.cpp:524-532 | and no topic with these tokens is shorter |
| ShortMisses.LostApart | Server.cpp:568-591 | a match that is lost when one level is put before it shows in the recursion over the pattern |
| ShortMisses.ApartLoses | Server.cpp:568-591 | and whatever that recursion says is such a match |
| ShortMisses.MissedIsLong | Server.cpp:551-609 | no matching topic that the search rejects is shorter than the recursion over the pattern says |
| ShortMisses.ShortMissed | Server.cpp:551-609 | a topic of that length matches and is rejected |
| ShortMisses.StarLiteralMisses | Server.cpp:568-591 | `*` and one literal: the shortest missed topic is the literal twice, so a literal of 26 bytes misses nothing that a datagram carries |
| Wire.ParseIff | protocols.cpp:11-77 | reading one message is the exact inverse of framing, whatever follows |
| Wire.FrameBytes | protocols.cpp:80-141 | a frame in plain numbers: command, length with the high byte first, payload |
| Wire.OnTheWire | protocols.h:17-26 | the ten command numbers and a request, byte by byte |
| Wire.PrefixFree | protocols.cpp:80-141 | no frame begins another frame |
| Wire.CutFrameUnreadable | protocols.cpp:21-74 | a frame cut short reads as the end of the stream |
| Wire.TruncatedStream | protocols.cpp:21-74 | a stream cut anywhere yields exactly the messages whose frames are complete |
| Wire.ParseAllStream | protocols.cpp:11-141 | whole streams come back unchanged |
| Wire.CString | Server.cpp:265 | the text before the first NUL, character by character |
| Wire.CStringOfZeroEnded | Subscriber.cpp:53-58 | a text sent with its terminating NUL is read back unchanged |
| Network.Net.Send | protocols.cpp:94 | any nonempty beginning of the buffer goes out |
| Network.Net.Recv | protocols.cpp:22 | any nonempty beginning of what is left arrives, nothing only at the end of the stream |
| Network.Net.Accept | Server.cpp:251 | a descriptor that is not open is opened with an empty output stream |
| Network.Net.Close | Server.cpp:178 | the descriptor is no longer open |
| Network.NetworkOrder | protocols.cpp:86-122 | the swapped length lies in memory in network order on either kind of host, and swapping twice undoes it |
| Network.Overwritten | protocols.cpp:34-50 | two received bytes written over the length field give the length sent |
| Network.SendBytes | protocols.cpp:90-138 | the loop over partial sends writes the whole buffer |
| Network.RecvBytes | protocols.cpp:18-74 | the loop over partial receives fills the buffer or has met the end of the stream |
| Network.SendEfficient | protocols.cpp:80-141 | exactly one frame is written, 3+len bytes are counted, and `len` is restored |
| Network.RecvHeader | protocols.cpp:17-50 | command and length are read, or the stream has ended before |
| Network.RecvEfficient | protocols.cpp:11-77 | one message is taken off the stream and 3+len returned, or 0 when its frame is incomplete, with the structure as far as it was filled |
| Network.SendAll | protocols.cpp:80-141 | messages sent one by one put the concatenation of their frames on the wire |
| Network.ReceiveAll | protocols.cpp:11-77 | receiving until 0 yields every complete message and terminates |
| Network.Relay | protocols.cpp:11-141 | any list of messages arrives unchanged under any splitting of sends and receives and any byte orders |
| Interest.FastPath | Server.cpp:506-512 | direct lookup else scan equals the scan alone for topics whose runs of `*` are odd |
| Interest.FastPathExactly | README.md:180-184 | the direct lookup is only a shortcut exactly for the topics that accept themselves, which are those with odd runs of `*` (the misaligned kind aside) |
| Interest.FastPathNoAdjacentStars | Server.cpp:506-512 | in particular for topics without two adjacent `*` |
| Interest.FastPathExample | Server.cpp:506-512 | the subscription and topic `*/*`: found by the lookup, missed by the scan |
| Interest.InterestedSound | Server.cpp:506-512 | whoever gets a publication has a subscription that matches its topic, for all subscriptions and topics |
| Interest.InterestedExactly | Server.cpp:506-512 | who gets a publication, for all subscriptions and topics, stated without lookup and search |
| Interest.InterestedMatches | Server.cpp:506-512 | with subscriptions that miss nothing, interest is the declarative relation, for all topics |
| Interest.DeliveryCompleteExactly | Server.cpp:506-512 | a subscription gets all topics it matches, by lookup and scan together, exactly when its pattern is of the stated form |
| Interest.UpToExactly | Server.cpp:506-512 | for every length n: a subscription gets all topics of at most n characters that it matches exactly when the recursion over its pattern finds none missed within n |
| Interest.PublishableCompleteExactly | Server.cpp:408-411 | which subscriptions get all topics that they match and that a datagram can carry, for every subscription that a subscriber can send |
| Interest.ShortCompleteExactly | Server.cpp:408-411 | for subscriptions of at most 25 bytes these are the ones that miss nothing at all |
| ServerModel.HolderExists | Server.cpp:326-336 | every polled client descriptor has exactly one holder, and it is connected |
| ServerModel.ClientErased | Server.cpp:178-180 | erasing a client entry removes exactly that entry and never a fixed one |
| ServerModel.StepKeepsInv | Server.cpp:119-323 | every event keeps the count, the distinct descriptors, their bijection with the connected clients, -1 for the others, and the stored tokens |
| ServerModel.StepKeepsTopics | Server.cpp:299-394 | no client is forgotten; connects and disconnects change no subscription, a request only its own topic of its own client |
| ServerModel.StepKeepsFixed | Server.cpp:119-323 | no event moves the three fixed descriptors |
| ServerModel.FanOutExactly | Server.cpp:489-521 | one publication: the same message once to each connected client with a matching subscription, to nobody else, as many as there are such clients |
| ServerModel.SameCount | Server.cpp:500-517 | an injective image has as many elements, so recipients and messages are equally many |
| ClientHistory.ConnectedExactly | Server.cpp:270-323 | connected is who has connected and not disconnected since |
| ClientHistory.SubscribedExactly | Server.cpp:339-394 | subscribed is whose last request about the topic subscribes, however often it came and went |
| ClientHistory.StepRefines | Server.cpp:247-394 | one server event is at most one act of each client with the same effect and the same message |
| ClientHistory.RunRefines | Server.cpp:119-521 | over every legal run the server's state and all messages to a client are those its own history calls for |
| ClientHistory.SendsAccounted | Server.cpp:247-521 | every message goes to the connection of a connected client, or is the denial to a rejected peer |
| ClientHistory.RunPublications | Server.cpp:489-521 | a client gets, in order and once, exactly the publications it wanted while it was connected; nothing is stored for it |
| ClientHistory.WantedSound | Server.cpp:506-512 | after any history a client wants only topics that one of its subscriptions matches |
| ClientHistory.WantedMatches | Server.cpp:506-512 | for subscriptions that miss nothing, being wanted is the declarative relation, for all topics |
| ClientHistory.RepliesPaired | Server.cpp:339-394 | publications dropped, the k-th message answers the k-th request with the right kind, over all connections |
| ClientHistory.RepliesRebuild | Server.cpp:339-394 | requests and replies alone reproduce the subscriptions |
| ClientHistory.SuccessIffChange | Server.cpp:352-393 | a request succeeds exactly when it changes the subscriptions, and it touches its topic only |
| ClientHistory.RunRepliesPaired | Server.cpp:310-394 | the same over every run of the server; subscriptions survive disconnects and reconnects |
| ServerRound.PassResult | Server.cpp:155-194 | one pass: every ready entry is one legal event, in order, and the entries shrink to their survivors in the old order |
| ServerRound.AcceptedNotServed | Server.cpp:236-243 | a client accepted in the same round causes no event in this pass |
| ServerRound.AcceptedPass | Server.cpp:145-155 | the pass after a connection request serves exactly what it would have served without it |
| ServerRound.FinalConcat | Server.cpp:127-195 | rounds one after the other are one run: states, bytes and legality compose |
| ServerRound.LeadsOn | Server.cpp:127-195 | legal runs compose in state and bytes, so any number of rounds is one legal run |
| ServerRound.WireMatchesHistory | Server.cpp:119-521 | the bytes written to a connected client are the frames of exactly the messages its history calls for since it connected |
| ServerInput.PassFeeds | Server.cpp:155-194 | a pass takes off each stream what its events say: one request frame, or the end |
| ServerInput.FeedsOn | Server.cpp:127-195 | what rounds one after the other read is what they read as one run |
| ServerInput.FeedsDetermined | Server.cpp:127-195 | events and accepted peers leave exactly one possible rest on every stream |
| ServerInput.RequestsConserved | Server.cpp:155-190 | the requests served on a connection, then those still unread, are the requests its peer writes: none invented, lost, repeated or reordered |
| ServerInput.InputMatchesHistory | Server.cpp:119-394 | over any number of rounds, the requests in a connected client's history since it connected are, in order, a beginning of those its peer writes after its id |
| MainLoop.AllTextualAfter | Server.cpp:155-194 | peers that end every text with a NUL still do so after a pass |
| MainLoop.ReachedOn | Server.cpp:127-195 | one more iteration continues the run of the iterations before it, in events, bytes written and bytes read |
| MainLoop.LoopHandles | Server.cpp:127-195 | the loop publishes every datagram of a known type once and in order, and accepts every peer in order |
| MainLoop.LoopServes | Server.cpp:119-394 | after any number of iterations the bytes to and from each connected client are those of its history |
| Iteration.PassServesOnce | Server.cpp:154-189 | a pass takes exactly one message off the stream of a readable entry and nothing off the others |
| Iteration.RoundServesAll | Server.cpp:130-189 | in an iteration every polled client whose descriptor is ready is served once, with the message its stream begins with, and no other client is touched |
| Iteration.RoundInTurn | Server.cpp:133-155 | first the wake-up, then the datagram, then the connection request, then the clients |
| Iteration.PassInOrder | Server.cpp:155-194 | the clients are served in the order of the vector |
| Server.CheckWildcardTopic | Server.cpp:535-548 | the loop finds a matching subscription exactly when there is one |
| Server.Server.constructor | Server.cpp:94-116 | after `prepare` three fixed descriptors are polled and there are no clients |
| Server.Server.GetClientFromFd | Server.cpp:326-336 | the holder of a polled descriptor is found; the placeholder only when nobody holds it |
| Server.Server.AddClientPollfd | Server.cpp:236-244 | one unready entry is appended and counted |
| Server.Server.SendReply | Server.cpp:216-233 | a reply without payload is written as one frame and the state is untouched |
| Server.Server.AcceptClient | Server.cpp:247-268 | the first message of the accepted connection is its id |
| Server.Server.RegisterClient | Server.cpp:271-288 | an unknown id gets a structure of its own and a poll entry |
| Server.Server.ReconnectClient | Server.cpp:310-315 | a known id gets the new descriptor and keeps its subscriptions |
| Server.Server.AnswerConnection | Server.cpp:270-323 | accepted or denied as the event says; a denied descriptor is closed again |
| Server.Server.ManageConnectionRequest | Server.cpp:247-323 | the whole connection request is the event Accepted, in state and bytes |
| Server.Server.ApplyRequest | Server.cpp:348-393 | reply and new subscriptions of a request |
| Server.Server.ManageSubscribeUnsubscribe | Server.cpp:339-394 | a request is the event Requested, in state and bytes |
| Server.Server.Wants | Server.cpp:500-512 | connected and interested, by lookup or scan |
| Server.Server.FanOut | Server.cpp:500-517 | in any order of clients, each recipient gets one frame of the one shared message |
| Server.Server.SendMsgIfSubscribed | Server.cpp:489-521 | a publication is the event Published, in state and bytes |
| Server.Server.ManageUdpMessage | Server.cpp:397-426 | a datagram of a known type is published as its formatted text, any other is dropped |
| Server.Server.DropClient | Server.cpp:169-181 | the client is marked, its descriptor closed and its entry erased |
| Server.Server.RemoveClient | Server.cpp:169-181 | an ended connection is the event Closed |
| Server.Server.ServeEntry | Server.cpp:163-189 | a ready entry receives once and is one event; the entry is erased exactly when the stream had ended |
| Server.Server.ServeClients | Server.cpp:154-194 | the loop that erases while it iterates performs exactly the events of the pass |
| Server.Server.PollSockets | Server.cpp:130 | poll() flags exactly the ready descriptors and changes nothing else |
| Server.Server.Round | Server.cpp:127-195 | one iteration of the main loop is the legal run of its events, in state, bytes written and bytes read; each ready client is served exactly once, the others not at all, in the order of the loop |
| Server.Server.Run | Server.cpp:119-198 | the loop up to the exit command is the legal run of its iterations, in state, bytes written and bytes read |
| Server.Server.CloseSockets | Server.cpp:23-34 | the destructor closes everything that is polled except stdin |
| Server.Serve | server_main.cpp:22-36 | from start to exit: datagrams published and peers accepted in order, every connected client served as its history says, only stdin left open |
| DecimalText.NumberOfDigits | Server.cpp:443 | the printed digits of a number read back as that number |
| DecimalText.DigitsNumeral | Server.cpp:443 | and have no superfluous zeros |
| DecimalText.NumeralExamples | Server.cpp:443-473 | four numerals character by character |
| DecimalText.DigitsLength | Server.cpp:419-443 | a number below 10^k has at most k digits |
| DecimalText.ParsePrinted | Server.cpp:453-473 | a number printed with a fixed number of decimals reads back as the same number, sign included |
| DecimalText.FixedLength | Server.cpp:453-473 | length bound of a printed decimal number |
| Scaling.ExactRounds | Server.cpp:465-467 | exact arithmetic is one of the admissible roundings |
| Scaling.ErrorStep | Server.cpp:465-467 | one rounded division stays in the normal range and adds at most two units of relative error |
| Scaling.AccumulatedError | Server.cpp:465-467 | after k divisions the value is within 2k units of relative error, for every mantissa below 2^32 and k up to 255 |
| Scaling.NearestIsMantissa | Server.cpp:456-474 | whichever nearest integer the scaled value is rounded to, it is the mantissa |
| Scaling.HundredthNearest | Server.cpp:446-454 | the same for one division by a hundred |
| Scaling.PrintFixed | Server.cpp:473 | any nearest decimal may be printed |
| UdpPayload.MagnitudeOfSent | Server.cpp:433-461 | the decoder reads the number its sender laid out in network order |
| UdpPayload.ShortOfSent | Server.cpp:446-450 | the same for the 16-bit number of a SHORT_REAL |
| UdpPayload.IntExactly | Server.cpp:432-444 | the printed integer is the one sent exactly when that fits in 32 bits, and always equal to it modulo 2^32 |
| UdpPayload.SignedTextReadsBack | Server.cpp:443 | the printed integer reads back as itself |
| UdpPayload.InterpretUdpPayload | Server.cpp:429-486 | with rounded arithmetic the text is still the exact one; unknown types are refused |
| UdpPayload.FloatReadsBack | Server.cpp:446-474 | a FLOAT or SHORT_REAL text reads back as exactly the number sent, signed zeros included |
| UdpPayload.Buffer | Server.cpp:401-406 | the buffer of 1600 bytes holds the datagram, cut where it is longer, and zeros behind it |
| UdpPayload.PublishableExactly | Server.cpp:408-411 | the topics of datagrams, and those of publications, are exactly the texts of up to 50 non-NUL bytes |
| UdpPayload.HeadingLength | Server.cpp:408-419 | length bound of address, port and topic |
| UdpPayload.PayloadLength | Server.cpp:429-480 | length bound of each payload type |
| UdpPayload.MessageFits | Server.cpp:495-497 | text and terminating NUL fit in 1600 bytes, so the 16-bit length is exact |
| UdpPayload.TextArrives | Server.cpp:495-497 | the subscriber reads off the wire exactly the text the server composed |
| PublishedText.DatagramFields | Server.cpp:401-414 | topic, type and payload of a datagram, byte by byte |
| PublishedText.KnownTypes | Server.cpp:432-485 | the known types are 0 to 3 |
| PublishedText.IntTextMeans | Server.cpp:432-444 | INT: the text reads back as the number in 32-bit range that equals the signed one sent modulo 2^32 |
| PublishedText.ShortRealTextMeans | Server.cpp:446-454 | SHORT_REAL: the text reads back as the 16-bit number sent, with two decimals |
| PublishedText.FloatTextMeans | Server.cpp:456-474 | FLOAT: the text reads back as the signed 32-bit number sent, with as many decimals as the last byte says |
| PublishedText.StringTextMeans | Server.cpp:476-480 | STRING: the text is the bytes before the first NUL |
| PublishedText.IntTextExamples | Server.cpp:432-444 | the texts of 5 and -5 |
| PublishedText.PublicationReads | Server.cpp:408-424 | a publication is a text with its NUL: the sender's octets in order, its port, the topic of the datagram and the text of its value |
| Distributed.DoKeepsInv | Server.cpp:155-323 | every action of server or subscribers keeps the system invariant |
| Distributed.MutualExclusion | Server.cpp:299-318 | in every reachable state at most one subscriber per id has been accepted |
| Distributed.FreedOnlyAtEnd | Server.cpp:169-181 | an id is freed only by consuming the end of stream of its holder, after all its requests |
| Distributed.VerdictFirst | Subscriber.cpp:66-79 | the first message read is the verdict, and the subscriber runs exactly when the server accepted it |
| Distributed.NeverCutOff | Subscriber.cpp:110-116 | no reachable subscriber meets an end of stream while the server runs |
| Distributed.RepliesInOrder | Server.cpp:339-394 | requests are consumed in the order sent, and the k-th reply answers the k-th consumed request |
| Distributed.ServerRunsWithin | Server.cpp:119-198 | whatever the subscribers do, the server makes one of its own legal runs |
| Channels.ActionGrows | Server.cpp:155-323 | every action adds to an open connection exactly what its event writes there and consumes |
| Channels.RunRecorded | Server.cpp:119-521 | over every run, the messages read by a subscriber and those on their way to it are those its history calls for since it connected, and the requests consumed are those of that history |
| Channels.LogIsWire | Server.cpp:119-521 | their frames are the bytes that the server has written to the connection |
| Channels.SubscriberHears | Server.cpp:489-521 | a subscriber gets exactly the publications its client wanted when they were published, since it was accepted, once and in order |
| AnswerOrder.AnswersBalance | Subscriber.cpp:121-242 | over every run: replies read plus publications taken for replies are the requests and the verdict plus the strays read |
| AnswerOrder.RightAnswerExactly | Subscriber.cpp:138-162 | the message taken for an answer is the reply to the pending request exactly when it is no publication and every reply missed before was read as a stray |
| AnswerOrder.CleanAnswers | Subscriber.cpp:220-242 | while no publication was taken for an answer, the command byte alone tells whether the next one is right, and no stray is read |
| AnswerOrder.OvertakenExactly | Subscriber.cpp:138-162 | in every reachable state, a subscriber that asks can be overtaken by the publication of a datagram exactly when it has a subscription |
| AnswerOrder.WrongAnswerRun | Subscriber.cpp:138-162 | for any datagram, a run in which its publication is taken for the answer to a subscribe request |
| AnswerOrder.WaitingProgresses | Subscriber.cpp:138-141 | no deadlock: in every reachable state a waiting subscriber can read or the server has its request to serve |
| Subscriber.Subscriber.Exchange | Subscriber.cpp:121-141 | one request frame out, one message in |
| Subscriber.PollsAccounted | Subscriber.cpp:83-118 | any polls send exactly the typed requests, in order, and neither lose nor reorder a message received |
| Subscriber.EarlyArrival | Subscriber.cpp:121-242 | reading a message and a later arrival commute, so having all input at hand changes no step |
| Subscriber.Subscriber.CheckConnectionValidity | Subscriber.cpp:48-80 | the id goes out as CONNECT_REQ and the next message is the verdict, nothing being no acceptance: the steps Dial and ReadVerdict of Distributed |
| Subscriber.Subscriber.SubscribeUnsubscribeTopic | Subscriber.cpp:121-162 | the request goes out and the next message, whatever it is, is taken as its answer, nothing being no success: the steps Ask and Read |
| Subscriber.Subscriber.ManageTcpData | Subscriber.cpp:220-242 | one message is read; publications are printed, and the end of the stream ends the run |
| Subscriber.Subscriber.ManageStdinData | Subscriber.cpp:165-217 | a typed request is sent and answered, only exit ends the run, and anything else does nothing |
| Subscriber.Subscriber.Serve | Subscriber.cpp:96-117 | one iteration: the line from stdin and its answer first, then the message on the socket |
| Subscriber.Subscriber.Run | Subscriber.cpp:83-118 | the bytes sent are the frames of the typed requests in order, every message is read once and in order, as the answer to a request or on its own as the polls say, and exactly the publications not taken for an answer reach the screen |
| Subscriber.Subscriber.Close | Subscriber.cpp:20-22 | the destructor closes the socket |

## Left out

- Socket creation, bind, listen, setsockopt and the real poll: replaced by the parameters named above.
- Errors of send and recv other than the end of the stream, failing allocation and process exit: calls are taken to succeed.
- A send that moves zero bytes: the loop would repeat it, so it is no step of the model.
- Peers that send no payload, or one without a NUL, where the server reads a text: the server does not check it; it is a precondition wherever a text is read.
- Console output other than the publications a subscriber prints, and `inet_ntoa` beyond its text.
- Reading commands with `strtok`, and the arguments of the two main programs.
- The exit of the server within Distributed: there the server runs on, which is why no running subscriber meets an end of stream.
- The receive and format buffers are values: `UdpPayload.MessageFits` shows that the text fits, but writing into the buffer is not modelled.
- The three copies of the receive loop and of the send loop are one method each.
- In the server's connection and request methods a reply is written in one place after the state change, not once in each branch; the order of state change and reply within one event is not visible to any peer.
- Interest.FastPathExactly: the closed form on the runs of `*` leaves out topics whose first even run stands right before a `+` with another `*` later; the search runs on misaligned there and either outcome occurs (`Matching.MisalignedExamples`), so for them the condition is the comparison of the topic with itself.
- Interest.FastPath: one direction only, for every set of subscriptions; FastPathExactly has the other direction.
- Distributed.RepliesInOrder: pairs what the server writes; which of it the subscriber takes for its answers is in AnswerOrder.
- Network.RecvEfficient: the part of an incomplete payload's buffer that was never filled has no value in the model.
- Completeness.SearchCompleteExactly: is about the scan alone; Interest.DeliveryCompleteExactly has lookup and scan together.
- Subscriber.Subscriber.Run: the loop runs over a given finite list of poll results.
- Server.Server.Run: the loop runs over a given finite list of what its iterations find.
- Binary64 is modelled by its relative rounding error in the normal range; the exactness of small integers as doubles is taken from it.
