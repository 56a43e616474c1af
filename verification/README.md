# ii-go message node: a verified model

ii-go is an IDEC message node. It keeps an append-only log of message bundles, an index file
derived from that log, and in-memory tables read from the index. Queries and topic grouping work
on those tables, and a fetch protocol copies the log of one node to another. This project models
that core in Dafny and proves what it is for: the derived data always agrees with the plain log,
the optimised scans and walks answer what their simple forms answer, and a fetch misses nothing.

Go strings are byte strings, so `Bytes.Str` is a sequence of characters below 256. SHA-256 enters
as a parameter `sum`, of which only the shape of its result is used (`Log.GoodSum`: twenty bytes,
no dot, colon or newline). The clock enters as a parameter `now`. File offsets are 64-bit: theorems
about runs ask that the log's final size fits (`MAX_INT64`). Messages are stored as they come, with
the carriage returns a browser puts into a post; every theorem about reading says what comes back,
the message without them (`Codec.Stripped`).

| file | what it holds |
|---|---|
| Bytes.dfy | splitting, joining, file lines, decimal numbers |
| Base64.dfy | RFC 4648 section 4 with Go's decoding rules |
| Tags.dfy, Codec.dfy | tags, messages and their bundle lines |
| Log.dfy | the index as text and as a table, and the table a log means |
| Store.dfy | files, handles, steps, and theorems over every run |
| Query.dfy | the stateful query predicate, SelectIDS, the counts of Echoes |
| EchoList.dfy | the list Echoes makes of them, newest first |
| Topics.dfy | GetTopics with its marks and cache, against the plain walk |
| Cycles.dfy | exactly when a call of GetTopics returns, reply cycles included |
| TopicOrder.dfy | the order of the ids inside a topic, and what a topic is in terms of the reply chain |
| Db.dfy | the `DB` object, each method proved against the functions above |
| Thread.dfy | the listing callers pass to GetTopics, and `get -t` |
| Clean.dfy | the two-pass compaction |
| Url.dfy | what arrives of a request path pasted together from ids and echo names |
| Serve.dfy, Fetch.dfy | the two sides of the fetch protocol |
| FetchRun.dfy | Fetch with its goroutines between two nodes, in every interleaving |
| FetchData.dfy | what such a run leaves in the local database |
| FetchCopies.dfy, FetchExact.dfy | that the messages gained are those of the remote, and which ids are gained, exactly |
| Quota.dfy | the posting limit, with calls between their scan and their store |
| Users.dfy | the user file and its object, under requests that run one after the other |
| Requests.dfy | the same object under requests that overlap |
| Pager.dfy | the pager, in 64 bits |
| Examples.dfy | reachable inputs on which an expected property fails |

How the parts fit. A handle's table is described by `Log.View`, the table a list of log lines
means. `Store.Run` runs any sequence of stores, edits, blacklistings, loads, rebuilds and index
removals by any number of handles; `Store.Consistent` is what every run keeps. The methods of
`Db.DB` are proved equal to the functions used by those steps, so the theorems speak about
them. Lemmas whose names end in `Iff`, and the round trips, give exact conditions. Those whose names
end in `Tells` (and `TopicOrder`, `FetchCopies`, `FetchExact`) say what a function answers without
naming the functions it is made of: in fields, positions, separators and numbers.

Where the code and its comments disagree, the code is followed: a blacklisted message gets its own
offset negated rather than -1 (ii/db.go:847-850 against 897-899), so at offset 0 it is not hidden.

Properties that fail, each with the exact condition under which it holds, for all inputs, and an
input the program can receive on which it does not:

- The user file does not keep distinct users when requests overlap. LoadUsers, Add and Edit each hold
  the lock on their own, and a request is several of them. In any interleaving the file stays one of
  distinct users with ids that were given out exactly when every accepted registration found none
  waiting to be loaded and a free id, and every edit found none waiting and an id that no other user
  has (`Requests.HealthyIff`; `Examples.SignedUpTwice`, the register form sent twice;
  `Examples.EditForgetsBob`, an edit after a registration not loaded yet). One after the other, only
  the id can fail: it is free exactly when the largest is not the last 32-bit number or the first one
  is not taken (`Users.AddKeepsFile`; `Examples.IdsRunOut`).
- The maps after LoadUsers are those of the file exactly when every edit that was not written (it
  would have left nobody in the file) says what the file says; every known secret leads to a user who
  has it exactly when no such edit changed the secret of a user it led to (`Users.UsersStayDistinct`,
  `Users.SecretsIff`; `Users.RemovingTheLastUser`, `Examples.StaleSecretStays`).
- The policy's limit on new users counts in the first load that reads the user file and in no later
  one, as the policy is not read again while its size is the same (`Users.LimitHoldsIff`;
  `Examples.LimitForgotten`).
- The posting limit is not kept when calls overlap: the scan and the store are two operations. With at
  most k calls of the user between them at once the limit is exceeded by at most k - 1
  (`Quota.QuotaHolds`), and with two it is (`Examples.TwoPostsAtOnce`). A message counts for its sender
  exactly when its To holds no colon, or the sender's name after its first one (`Quota.ChargedIff`;
  `Examples.ChargedToAnother`). Moderating or blocking a user lifts the limit, because the statuses
  set there are not the ones the policy looks for (`Quota.ActedIsUnlimited`).
- A fetcher that meets no error does not always leave its whole list known. It does exactly when
  every missing id is one a request path can carry, free of '/', '%', '?', '#' and control bytes,
  all of which IsMsgId accepts (`FetchData.CompleteIff`; `Examples.SlashedIdIsNeverFetched`). An echo
  is listed under its own name exactly when that name is such a text (`Serve.EchoListedIff`;
  `Examples.SlashedEchoReadsAnother`). The theorems about whole runs allow any names on the list, and
  promise completeness for an echo that no other name on it reaches (`FetchData.Alone`).
- One fetcher on its own, for every limit, mode and set of known ids: `Fetch.FetchCompleteIff`. With
  the feature "u/e" and without force, a known last id ends the fetch and any hole before it stays
  (`Examples.HoleStays`); without the feature the whole list is asked for whatever the limit
  (`Examples.NoFeatureIsFull`); otherwise the limit in force must not be positive or its window must
  reach back to the known part.
- A call of GetTopics does not return on every reply cycle: `Cycles.CallReturnsIff` gives the exact
  condition on the reply graph and the calls before, `Examples.CycleNeverReturns` a log.
- The topics of a private echo can hold messages the user may not read, and the page that prints them
  does not ask. They hold readable ones only exactly when all messages of the echo on the reply chains
  of those listed are readable (`Thread.GroupsReadableIff`).
- Blacklisting hides a message exactly when its record is not the first line of the log
  (`Store.HiddenIff`; `Examples.FirstBlacklistedIsShown`); cleaning keeps a message hidden exactly
  when the first line of the log before was not one of its own (`Clean.CleanKeepsIndex`;
  `Examples.CleaningReveals`).
- A message comes back from its bundle as it is exactly when it meets `Codec.Survives`, which allows no
  carriage return; without its carriage returns, exactly when what is left meets it
  (`Codec.MessageRoundTrip`, `Codec.BundleStripsIff`; `Examples.PostLosesReturn`).
- A message that comes without an id is stored under the id that its bundle, sent without one, has at
  the receiver. That is so for every message without carriage returns (`Codec.FreshIdDecodes`); with
  them, exactly when the sums of its text with and without them are the same (`Codec.FreshIdIff`;
  `Examples.PostChangesId`).
- The index record written with a message is the one a rebuild prints exactly when its echo, To and
  From hold no carriage return (`Store.AppendLineIff`; `Examples.ReturnInTo`). It reads back to the
  fields it was made of exactly when none of them holds a colon (`Log.RecordRoundTrip`;
  `Examples.ColonMovesFields`); the run theorems hold in either case.
- Tags survive being printed and parsed exactly when they are canonical (`Tags.TagsRoundTrip`;
  `Examples.BlankIsTrimmed`).
- A clean run completes exactly when both passes count every id alike (`Clean.Pass2`;
  `Examples.CleaningStops`).
- The page shown is the page asked for, or the first when it lies before that, exactly when its start
  fits in 64 bits (`Pager.TakenIff`; `Pager.LastNumberIsFirstPage`).

## Model

| member | source | states |
|---|---|---|
| Base64.DecodeEncode | ii/msg.go:162 | decoding undoes encoding for every byte string |
| Base64.SymTells | ii/msg.go:340 | the alphabet of RFC 4648, Table 1, symbol by symbol |
| Base64.EncodeTells | ii/msg.go:340 | three bytes as a 24-bit number are its four base-64 digits; one or two bytes at the end are filled with zero bits and padded |
| Tags.MakeTags | ii/msg.go:206-222 | the parsing loop gives the keys in order and the last value of each, or the error for an odd number of parts |
| Tags.String | ii/msg.go:285-297 | the printing loop, last slash cut off, gives keys and values joined by slashes |
| Tags.ParseTells | ii/msg.go:206-222 | blanks at the ends cut off, the even parts between slashes are the keys in order, each key has the part after its last appearance, and an odd number of parts is the error |
| Tags.PrintTells | ii/msg.go:285-297 | between the slashes of a printed text stand each key and then its value, in order |
| Tags.TagsRoundTrip | ii/msg.go:206-222 | parsing what was printed restores list and map if and only if the tags are canonical |
| Tags.ParsePrintParse | ii/msg.go:206-222 | whatever MakeTags accepts, repeated keys and empty values included, prints to a text that parses to the same tags |
| Tags.TagSet.Add | ii/msg.go:245-260 | in place: known keys keep their position and take the last value given, new keys go to the end, an odd number of parts changes nothing |
| Tags.TagSet.Del | ii/msg.go:264-282 | in place: the key leaves the map and, once, the list; an ordered map stays one |
| Tags.PutAllOrdered | ii/msg.go:253-259 | adding to an ordered map never duplicates or reorders a key |
| Tags.PutAllHash | ii/msg.go:253-259 | after adding, the map is the old one overridden by the pairs added |
| Tags.RemoveOrdered | ii/msg.go:264-282 | deleting from an ordered map leaves an ordered map |
| Tags.EditsTell | ii/msg.go:245-282 | after any sequence of Add and Del on any ordered map: exactly the keys it had or that were set, and not deleted since, once each, with the last value, in the order of their first insertion since they were last deleted |
| Codec.DecodeBundle | ii/msg.go:147-202 | the decoder's checks in the source's order, with the loop that rebuilds the body |
| Codec.BundleText | ii/msg.go:315-341 | the bundle byte for byte: id, colon, and the Base64 of tags, echo, date, sender, address, recipient, subject, an empty line and the text |
| Codec.DecodeIff | ii/msg.go:147-202 | a line decodes to a message if and only if it spells it: every field from its own line of the decoded body, the id from before the colon or, without one, the sum of the body |
| Codec.FilledTells | ii/msg.go:333-339 | for every message: an id given is kept, a date of 0 becomes the time, any other date stays, nothing else changes, and nothing at all without an echo |
| Codec.FreshIdDecodes | ii/msg.go:167-169 | the id given to a message without one is the id that DecodeBundle works out from its bundle without the id: that half decodes to the message as stored |
| Codec.FreshIdIff | ii/msg.go:166-169 | carriage returns included: the body alone decodes to the message as it is read back, if and only if the sums of the text with and without them are equal |
| Examples.PostChangesId | ii/msg.go:166-169 | a two-line post as a browser sends it, without an id: stored under one id, while its body alone decodes under another |
| Codec.BodyOf | ii/msg.go:197-200 | the body loop with its trimmed newline joins the lines after the header |
| Codec.MessageRoundTrip | ii/msg.go:147-202 | a message comes back exactly from its bundle line if and only if it meets `Survives` |
| Codec.BundleStripsIff | ii/msg.go:147-202 | a message comes back without its carriage returns, those of the body included, if and only if what is left of it meets `Survives` |
| Examples.PostLosesReturn | ii/msg.go:166 | a two-line post as a browser sends it is storable and decodes to the post without its carriage return |
| Examples.BlankIsTrimmed | ii/msg.go:206-222 | Add("a/b ") on empty tags: printing and parsing lose the blank |
| Codec.DecodeSurvives | ii/msg.go:147-202 | every message decoded from a line with an id survives a further round trip |
| Codec.UrlSafeAlike | ii/msg.go:160-161 | every body free of '-' and '_' decodes to the same result when it is respelled in the URL-safe alphabet |
| Log.RecordRoundTrip | ii/db.go:904 | an index record parses back to its message's data if and only if none of the five text fields holds a colon |
| Log.RecordParses | ii/db.go:299-311 | whatever To, From and repto hold, the record of a colon-free id and echo reads back with that id, echo and offset, and with the first three parts of the rest |
| Examples.ColonMovesFields | ii/db.go:904 | a decodable message to "a:b" whose index record says to "a" and from "b" |
| Log.LoadSound | ii/db.go:299-321 | reading index lines keeps the table an ordered map: no duplicate ids, keys equal to the list, numbers equal to positions |
| Log.LoadOfPrint | ii/db.go:202-225 | loading a freshly printed index gives the table the log means |
| Log.LoadTail | ii/db.go:270-281 | reading only the tail past an earlier size completes the earlier table to the current one |
| Log.ViewGrows | ii/db.go:312-318 | a longer log never moves a message: the list only grows at its end, numbers stay |
| Log.ViewLast | ii/db.go:299-321 | the entry of an id is the record of the last line carrying it |
| Log.TableTells | ii/db.go:202-225 | an id is in the table if and only if a line carries it; its entry has the echo and byte offset of the last such line, negative for a blacklisted message, and its recipient, sender and the message replied to where they hold no colon |
| Log.NumberOrder | ii/db.go:312-318 | of two ids in the table, the one that appeared first in the log has the smaller number |
| Log.OffsetReadsLast | ii/db.go:424-437 | seeking to the absolute offset of an entry and reading one line gives the last line carrying the id |
| Store.RefreshGood | ii/db.go:243-333 | from any consistent state LoadIndex leaves the index file as a rebuild would write it and the handle equal to one loaded from scratch |
| Store.StoreGood | ii/db.go:871-909 | one _Store call: refused exactly when the id it came with is known and it is no edit, otherwise one line more, index still equal to a rebuild; what the line says is `Store.StoredIsRead`, which id a message without one gets `Codec.FreshIdDecodes` |
| Store.StoredIsRead | ii/db.go:871-909 | storing or editing and reading back through any handle: a known id that is no edit writes nothing; otherwise one line, which is what is read for its id, and which decodes to the message given without carriage returns, with a date of 0 replaced by the time and a given id kept |
| Store.AppendGood | ii/db.go:892-907 | the index record appended is the one a rebuild of the longer log would print |
| Store.AppendLineIff | ii/db.go:892-907 | of any message whose line decodes: the appended record is the one a rebuild prints if and only if echo, To and From hold no carriage return |
| Examples.ReturnInTo | ii/db.go:904 | a message to "a\rb" whose record is not what a rebuild prints |
| Store.StartConsistent | ii/db.go:914-924 | any good log without an index is a possible start |
| Store.DoKeeps | ii/db.go:243-333 | every single step by any handle keeps the files and all handles consistent |
| Store.RunKeepsConsistent | ii/db.go:871-909 | over every interleaving: index file byte for byte equal to a rebuild, every handle a snapshot, the log extended by exactly the messages written, each decodable to itself without its carriage returns |
| Store.RefreshEqualsFresh | ii/db.go:270-295 | a handle refreshed after a run equals one newly opened |
| Store.GetReadsLast | ii/db.go:412-443 | through any handle, the bundle read for an id is the last log line carrying it, or nothing |
| Store.GetTells | ii/db.go:412-443 | what is read for an id, hidden messages on request or not: the last line carrying it, unless its message is blacklisted, the line is not the log's first and hidden ones are not asked for |
| Store.LastWriteWins | ii/db.go:412-443 | after any run, the bundle of the last message written for an id is what is read, and it decodes to that message without its carriage returns |
| Store.HiddenIff | ii/db.go:216-219 | an entry is hidden if and only if its last record has the blacklist tag and is not the first line of the log |
| Examples.FirstBlacklistedIsShown | ii/db.go:897-899 | a message stored first of all with the blacklist tag has offset 0 and is served |
| Store.BanHides | ii/db.go:851-853 | blacklisting a stored message hides it |
| Store.BlacklistedTells | ii/db.go:851-853 | blacklisting sets the one tag, at the end of the list if new, and changes nothing else |
| Store.BanStorable | ii/db.go:851-853 | a storable message stays storable with the blacklist tag added |
| Store.BlacklistIsPermanent | ii/db.go:884-886 | no run of plain stores changes an existing entry: a blacklisted message stays hidden and stays known |
| Store.RunNeverMoves | ii/db.go:312-318 | no run, edits included, changes a message's number or its place in the list |
| Query.Query.Match0 | ii/db.go:558-605 | the predicate's answer and the Skip and Count it leaves; what it lets through is `Query.SelectedIff` |
| Query.Query.Match | ii/db.go:608-614 | the same with inversion |
| Query.SelectedIff | ii/db.go:558-605 | what a query answers that cuts nothing off: an id if and only if its record meets each field asked for (To, From, Echo, Repto exact or "!" for none, Blacklisted, NoAccess), and a message of a private echo only for a named user, who wrote it or to whom or to "All" it is addressed; in ascending number |
| Query.SelectedWindow | ii/db.go:509-519 | what any other query without inversion answers of that list, for every Skip, Count, Start and Lim, with the bounds of the piece as numbers |
| Query.SelectIDS | ii/db.go:715-764 | forward and backward scans with their early exits answer `Selection`, the scan without exits, which `Query.SelectedIff` and `Query.SelectedWindow` say in terms of records |
| Query.SelectForwards | ii/db.go:750-763 | the upward loop, stopping at Lim answers |
| Query.ScanBackwards | ii/db.go:733-744 | the downward loop, each hit put in front, stopping at -Start answers |
| Query.TakenIsWindow | ii/db.go:592-603 | consuming Skip and Count during a scan takes exactly the window F[Skip..Skip+Count] of the filtered messages, and leaves the budget stated |
| Query.SelectionIsSlice | ii/db.go:509-519 | a query without inversion answers one contiguous piece of the filtered list, in list order, with its bounds given for every Skip, Count, Start and Lim |
| Query.InvertedIsComplement | ii/db.go:608-614 | with Start and Lim at zero the inverted query answers exactly the complement, in list order |
| Query.RemovalIsOutside | ii-tool/main.go:517-541 | the inverted select of an echo answers the messages of every other echo |
| Query.Echoes | ii/db.go:654-685 | the counting loop gives, per echo, count, topics and last of the matching shown messages |
| EchoList.Listed | ii/db.go:686-697 | the echoes asked for in their order, or every counted one once; what a row says is `EchoList.RowsTell` |
| EchoList.RowsTell | ii/db.go:654-710 | the rows of a listing of all echoes are newest first, and every row's count and topics are the lengths of the SelectIDS listings of its name without and with Repto "!", its last entry the last of the first, its message the one decoded at the offset of that entry |
| EchoList.TellsInRun | ii/db.go:699-705 | in every run the line at that offset is the last one of the id, and the row's message is what it decodes to |
| EchoList.ListedAsAsked | ii/db.go:686-709 | an echo with messages is listed as often as it was asked for, any other never |
| EchoList.SortsStably | ii/db.go:706-708 | the list is newest first, has lost and gained nothing, and echoes of one date keep their order |
| EchoList.SortedIsOne | ii/db.go:706-708 | there is only one such list |
| EchoList.LastIsRead | ii/db.go:699-705 | in every run the message loaded for a shown entry is the one its last line carries, never the blank one |
| Query.CountsAgree | ii/db.go:635-698 | Count, Topics and Last agree with the lengths and the last element of the corresponding SelectIDS listings |
| Query.CountsSum | ii/db.go:654-685 | the counts add up to the number of messages shown |
| Topics.TopicWalk | ii-tool/main.go:487-496 | the cache-free loop computes the topic of a message |
| Topics.TopicIsHead | ii-tool/main.go:487-496 | a topic is a message of the same echo, no self-reply, and its own topic |
| Topics.LineTopic | ii/db.go:794-810 | all messages collected on one walk share the walker's topic |
| Topics.Walk | ii/db.go:794-806 | the marking loop, wherever it halts, leaves what `Walked` says, cycles included |
| Topics.WalkAcyclic | ii/db.go:794-806 | without reply cycles it halts, has collected exactly the same-echo chain and marked exactly its uncached members |
| Topics.SortSorts | ii/db.go:814-816 | the sort by number is ascending |
| Topics.SortPermutes | ii/db.go:814-816 | the sort is a permutation |
| Topics.Place | ii/db.go:817-828 | the filing loop: new members to the end of their topic, members already filed passed over |
| Topics.FiledSoFar | ii/db.go:817-828 | filing a sorted line adds each member once to its topic, caches its topic and leaves no mark |
| Topics.GroupTopics | ii/db.go:771-832 | the whole loop, on any input for which it returns, leaves topics and cache as `HandleAll` says; which members, `Topics.GroupsExact` and `Cycles.GroupsReached`, in which order, `TopicOrder.GroupsContinue` and `TopicOrder.OneMessage` |
| Topics.GroupsComplete | ii/db.go:771-832 | without reply cycles: returns, leaves no mark, files every listed message that is no self-reply under the topic of the plain walk, and nothing that is on no listed message's line |
| Topics.ExactlyOneTopic | ii/db.go:771-832 | each such message stands in exactly one topic, once, and every topic starts with its head |
| Topics.GroupsExact | ii/db.go:771-832 | on an ancestor-closed input each topic holds exactly the listed messages whose plain walk ends there |
| Topics.CachedCallAgrees | ii/db.go:784-793 | two calls with whatever cached topics give the same topics with the same members |
| Cycles.TurnsAre | ii/db.go:794-806 | turn by turn, the loop stands at the n-th message of the reply chain with its echo's messages collected and marked |
| Cycles.WalkHaltsIff | ii/db.go:794-806 | one walk halts if and only if the chain ends or returns to a message of the walker's echo that had no topic |
| Cycles.CallReturnsIff | ii/db.go:771-832 | after any earlier calls a call returns if and only if each message was reached from an earlier one, or its chain ends, or comes back to a message of its echo no earlier one reached; then exactly what was reached has a cached topic |
| Cycles.GroupsReached | ii/db.go:771-832 | reply cycles included, the groups of a first call hold exactly the messages of its inputs' echoes on their reply chains |
| TopicOrder.GroupsContinue | ii/db.go:812-828 | whatever is cached and cycles included, the ids that one more input message adds to a topic stand at its end in ascending Num; a new topic starts with its head and goes on in ascending Num |
| TopicOrder.OneMessage | ii/db.go:794-828 | a call on one message with nothing cached, exactly: nothing for a self-reply, otherwise one topic, the head and then the other messages of the echo on the reply chain, each once, in ascending Num |
| TopicOrder.OldestFirst | ii-node/web.go:626-634 | where every message was stored after the one it replies to, each topic of an ancestor-closed listing in list order is in ascending Num: its last id is its newest message |
| TopicOrder.TopicIsFurthest | ii/db.go:794-811 | the topic of a message is the last one on its reply chain of the same echo that does not reply to itself, whatever other echoes the chain passes through |
| Examples.CycleNeverReturns | ii/db.go:794-806 | three decodable lines, two replying to each other: the first two alone and the third alone are grouped, the listing of all three never is |
| Db.DB.CreateIndex | ii/db.go:202-225 | the printing loop with running offset writes `IndexText`, over the old file without truncation |
| Db.DB.LoadIndex | ii/db.go:243-333 | every branch: missing, first load, tail, unchanged, truncated, malformed line; what the last two leave is `Store.BadTail` and `Store.ShrunkIndex` |
| Store.BadTail | ii/db.go:297-328 | a line that is no record after the place read up to: nothing moves on and the next load fails again; the list stays, though the entries before the line are in the map already |
| Store.ShrunkIndex | ii/db.go:281-288 | an index file shorter than what was read: printed anew over the old text, which stays behind the new one where it is longer; the first record then ends the program, the first bad line the load |
| Db.ReadLines | ii/db.go:297-321 | the line loop updates list, map and counter as `LoadLines` says, stopping at a malformed line |
| Db.DB.Lookup | ii/db.go:340-353 | the refreshed entry, hidden ones only on request |
| Db.DB.LookupIDS | ii/db.go:392-405 | the visible entries of the ids, repeated refreshes changing nothing |
| Db.DB.GetBundle | ii/db.go:412-443 | the line at the absolute offset of the entry |
| Db.DB.ServeMessages | ii-node/main.go:240-248 | the bundles of the visible public messages asked for, in order |
| Db.DB.Save | ii/db.go:871-909 | the new state of both files and of the handle, and the message with what Encode fills in, which `Codec.FilledTells` and `Codec.FreshIdDecodes` say field by field |
| Db.DB.Blacklist | ii/db.go:851-853 | the tag added in place, then an edit |
| Db.DB.SelectIDS | ii/db.go:715-764 | the refresh followed by the scan's answer, said in terms of the table's records by `Query.SelectedIff` and `Query.SelectedWindow` |
| Db.DB.GetFast | ii/db.go:497-507 | the decoded line of a visible entry, without a refresh |
| Db.DB.Echoes | ii/db.go:635-710 | the refresh, the counts, then the echoes asked for with their last messages, newest first; asked for all echoes, every row tells the lengths of its name's SelectIDS listings, their last entry and its message |
| Db.DB.GetTopics | ii/db.go:771-832 | the refresh, then the grouping on any input for which it returns; without reply cycles, after any sequence of calls and refreshes, it is complete and sound, and in ascending Num where replies follow what they reply to; on one message with nothing cached, the exact sequence |
| Db.AcyclicReturns | ii/db.go:771-832 | without reply cycles every call returns, whatever topics the refresh kept |
| Db.RefreshSound | ii/db.go:243-333 | whatever the index file holds, a successful refresh leaves an ordered table |
| Db.ViewPlainIds | ii/db.go:202-225 | ids read from a log are twenty bytes long, so never empty and never the walk's mark |
| Db.RemovalKeepsLatest | ii-tool/main.go:517-541 | `-i -b select e` prints, for the messages of all other echoes in list order, the last line carrying each |
| Thread.ListingClosed | ii-node/web.go:608 | the listing of a public echo holds with each message its visible same-echo ancestors, so that its groups are determined |
| Thread.ThreadExact | ii-tool/main.go:485-505 | what `get -t` prints: the head, then exactly the visible messages of the echo with the same topic, each once; a self-reply alone |
| Thread.ThreadAscends | ii-tool/main.go:497-505 | where every message was stored after the one it replies to, what `get -t` prints is in ascending Num, whatever is cached |
| Thread.GroupsReadableIff | ii-node/web.go:680-712 | the groups of a listing hold messages the user may read only, if and only if everything of the echo on the listed messages' reply chains is readable |
| Thread.GroupsReadable | ii-node/web.go:680-712 | without reply cycles that is enough after any earlier calls |
| Thread.GetThread | ii-tool/main.go:477-505 | the command, with its lookups, listing, walk and grouping, each with its own refresh, wherever its walk ends and its call of GetTopics returns |
| Clean.Pass1 | ii-tool/main.go:321-340 | the first pass counts every id and remembers the last line of repeated ones |
| Clean.Pass2 | ii-tool/main.go:353-401 | aborts if and only if an id occurs more often than counted, completes if and only if all counts agree, and writes the picked lines |
| Examples.CleaningStops | ii-tool/main.go:353-401 | a log that gains a message between the passes: an id occurs more often than was counted |
| Clean.Clean | ii-tool/main.go:315-402 | when both passes see the same file the output is the compaction; nothing is written when no id repeats |
| Clean.CompactedKeeps | ii-tool/main.go:371-379 | the compaction has one line per id in first-appearance order, the last of its id, and compacting again changes nothing |
| Clean.CleanedTells | ii-tool/main.go:353-401 | each line written is the last one of its id, every id that had an entry is among them, once, and they stand in the order of first appearance, an entry being a line of two parts with an id in front |
| Clean.NothingRepeats | ii-tool/main.go:321-345 | there is nothing to do if and only if no two entries have the same id |
| Clean.CleanKeepsIndex | ii-tool/main.go:315-402 | the rebuilt index keeps list and numbers, every id reads the same line, what was shown stays shown, and a hidden message stays hidden if and only if the first line before was not one of its own |
| Examples.CleaningReveals | ii-tool/main.go:315-402 | a log of two messages, the first blacklisted later and hidden, which cleaning shows again |
| Serve.GetUe | ii-node/main.go:103-126 | the lines written for a u/e path, slice suffix parsed |
| Serve.UeTells | ii-node/main.go:103-126 | one echo asked for whole: its name, then the ids of its messages the user may see, in ascending number; a name that is no echo name is passed over |
| Serve.UeAppends | ii-node/main.go:103-126 | several echoes are answered one after the other, and a slice at the end goes for each |
| Serve.SliceRoundTrip | ii-node/main.go:109 | a printed slice suffix parses back to its numbers |
| Serve.EchoIsNoSlice | ii-node/main.go:109-113 | an echo name is never taken for a slice |
| Serve.GetId | ii/net.go:60-72 | the dot-free lines glued together |
| Url.ArrivedElement | ii-node/main.go:241 | of a joined path only plain parts can arrive as elements no shorter than the parts: nothing else comes out of cutting, decoding and splitting |
| Url.ElementsArrive | ii-node/main.go:241 | a path joined from plain parts arrives and splits into them |
| Url.EscapedArrives | ii-node/main.go:241 | any bytes at all, each written as a percent sign and two digits, arrive as they were |
| Serve.RequestAnswered | ii-node/main.go:103-126 | from the request text through URL parsing, splitting, slice scan and selection to the client's filtered lines: exactly the slice asked for of a plain echo's public messages |
| Serve.PublicIff | ii-node/main.go:120 | the list of an echo holds the ids of its shown messages, unless it is private, in ascending number |
| Serve.EchoListedIff | ii-node/main.go:252-255 | an echo with public messages is listed under its name if and only if the name is plain; otherwise none of its messages is in the answer |
| Examples.SlashedEchoReadsAnother | ii-node/main.go:252-255 | asking for the valid echo name "a/b.c" gives the list of "b.c" |
| Serve.PublicDistinct | ii-node/main.go:120 | the lists of different echoes are disjoint and repeat no id |
| Fetch.ProbeLimit | ii/net.go:103-125 | at most seventeen probes, ending at the first doubled limit whose window starts at a known id, 64-bit wrap-around included |
| Fetch.SettleDoubles | ii/net.go:103-125 | a limit that probing ends with is the first in the row of doublings whose window starts at a known id, at most sixteen on |
| Fetch.SettleCovers | ii/net.go:103-125 | with a known prefix, a positive limit that probing ends with means the window holds everything missing |
| Fetch.SettledCovers | ii/net.go:112-121 | the probe that stops the doubling certifies the window |
| Fetch.Fetcher | ii/net.go:85-147 | which ids are asked for, for every limit, mode and set of known ids |
| Fetch.ToFetchTells | ii/net.go:85-147 | nothing when the fast path ends the fetch; otherwise exactly the unknown ids among the last k of the list, or in all of it, in the order of the list, k being the limit given, the one probing ends with, or none without the feature |
| Fetch.FetcherMissing | ii/net.go:85-147 | with limit at most zero and a known prefix, exactly the missing ids are asked for, in list order |
| Fetch.FetchCompleteIff | ii/net.go:85-147 | a fetch that stores all it asks for leaves everything known if and only if: no feature; or the last id is known and there is no hole; or the limit in force is not positive or reaches the known part |
| Fetch.WindowCompleteIff | ii/net.go:130-145 | a window asked for leaves everything known if and only if it reaches back to the known part |
| Examples.HoleStays | ii/net.go:92-100 | a fetch of one message followed by one of two: a hole that the second does not look at, though its window covers it |
| Examples.NoFeatureIsFull | ii/net.go:126-128 | without the feature a fetch of one message makes the whole list known |
| Fetch.StoreHead | ii/net.go:244-246 | storing the next missing id keeps the known ids a prefix of the list |
| Fetch.StoreRequests | ii/net.go:227-255 | the request strings sent are those of consecutive groups of eight |
| Fetch.BatchesPartition | ii/net.go:232-253 | the groups lose and reorder nothing, hold one to eight ids, and are as few as that allows |
| Fetch.RequestPathIff | ii-node/main.go:240-241 | a batch arrives as it was sent if and only if all its ids are plain; in any case every element of an id's length is a plain id of the batch |
| Fetch.ServedCarried | ii-node/main.go:240-248 | whatever id a consistent node answers, the line decodes to a storable message with that id |
| Fetch.BundleCarried | ii-node/main.go:240-248 | every public id of a consistent node is answered so |
| Fetch.AnswerTells | ii-node/main.go:240-248 | what is answered for an id, whatever it is: the last log line carrying it, if its message is of no private echo and not hidden, otherwise nothing |
| Fetch.LinesCarried | ii-node/main.go:240-248 | any request, whatever its elements, is answered with one such line per id answered, in order |
| Fetch.BatchCarried | ii-node/main.go:240-248 | a batch is answered with one such line per id, in order |
| Fetch.CarriedIsStored | ii/net.go:238-247 | storing it at another node makes exactly that id known in addition; which message it is, `FetchCopies.FetchCarries` |
| FetchRun.StepControl | ii/net.go:262-297 | every step keeps the lock, the one-fetcher-per-echo and the bound invariants |
| FetchRun.RunControl | ii/net.go:262-297 | in every interleaving at most max(1, MaxConnections) started fetchers have not broadcast, a parked master waits on a fetcher that has not broadcast, and each valid echo has exactly one fetcher |
| FetchRun.SomeoneMoves | ii/net.go:281-288 | no reachable state but the final one is stuck: no wake-up is lost |
| FetchRun.StepShrinks | ii/net.go:262-297 | whatever the echo names and answers, every step makes a natural-number measure smaller |
| FetchRun.RunsAreFinite | ii/net.go:262-297 | no interleaving is longer than the measure of its start |
| FetchRun.CanFinish | ii/net.go:262-297 | from wherever an interleaving has come it can go on without network errors until Fetch has returned |
| FetchData.BodyData | ii/net.go:92-146 | every step of a fetcher, from request text through answer, decoding and _Store on the local node, keeps that node consistent, adds only listed plain ids, keeps a prefix and a complete queue; what the lines say is `FetchCopies.FetchCarries` |
| FetchData.BatchAnswer | ii/net.go:232-253 | the answer to a batch carries plain ids of the batch only, and all of them when all are plain |
| FetchData.PlainAlone | ii/net.go:85-147 | where all valid names on the list are plain, each is reached by its own fetcher only |
| FetchData.FetchComplete | ii/net.go:85-147 | in any interleaving with errors anywhere, whatever the echo names, the local node stays consistent and every good echo's known ids stay a prefix of the remote's list; when Fetch returns, every fetcher without an error has made the whole list of a good echo known; the messages themselves are `FetchCopies.FetchCarries` |
| FetchCopies.FetchCarries | ii/net.go:238-247 | in any interleaving with errors anywhere: for an id held before, the last line of the local log is the one it was; for an id gained, it decodes to the message that the remote's last line of the id decodes to, with only a date of 0 replaced |
| FetchExact.FetchExactly | ii/net.go:85-147 | when Fetch has returned from a run without errors, in whatever interleaving, the ids of an echo are those held before and exactly those its fetcher alone would have asked for, for every limit and mode |
| FetchData.CompleteIff | ii/net.go:85-147 | such a fetcher, of an echo that no other name on the list reaches, leaves the whole list known if and only if every missing id is one a request path can carry |
| FetchData.NeverArrives | ii/net.go:227-255 | an id that a path cannot carry is obtained in no interleaving |
| FetchData.CalmRun | ii/net.go:227-255 | a run without network errors cuts no fetcher when ids and echo names can be sent, slashes in ids included |
| Examples.SlashedIdIsNeverFetched | ii/msg.go:54-56 | a remote with the one public id "aaaaaaaaa/bbbbbbbbbb": a run to the end without any error leaves it missing |
| FetchRun.ReturnedDone | ii/net.go:294-296 | Fetch returns only after every fetcher has called Done |
| Quota.PointPolicy | ii-node/main.go:24-39 | the decision made through SelectIDS and LookupIDS |
| Quota.PolicyCounts | ii-node/main.go:33-36 | the Lim-truncated scan decides as a full count would, for every limit |
| Quota.PolicyTells | ii-node/main.go:24-39 | refused if and only if the status is "new" or "moderated" and at least as many visible public messages as the limit tag says, none meaning 0, stand under the name |
| Quota.CheckTells | ii-node/main.go:66-76 | the first half of a post lets it through on that condition, counted over the log as it is, and writes nothing |
| Quota.KeepTells | ii-node/main.go:41-83 | the second half writes nothing for a known id that is no edit, otherwise one line, of the message as given but from the user |
| Quota.LineAddsOne | ii-node/main.go:78 | a stored message adds at most one post, and only to the name its record carries |
| Quota.ChargedIff | ii/db.go:904 | a message counts for its sender if and only if To holds no colon, or the sender's name after its first one |
| Examples.ChargedToAnother | ii/db.go:904 | a storable message to "x:y" that counts for "y" |
| Quota.ActedIsUnlimited | ii-node/web.go:1225-1240 | whatever the administrator does to a user, limits of 3 and 0 included, the policy refuses that user nothing afterwards |
| Quota.QuotaHolds | ii-node/main.go:41-83 | in any interleaving of the scans and stores of posts and edits a limited user's visible public messages exceed the larger of the limit and the starting number by at most k - 1, with at most k of the user's calls between scan and store at once |
| Examples.TwoPostsAtOnce | ii-node/main.go:66-78 | limit 1, an empty log and two calls scanned before either stores: two posts |
| Users.LineParses | ii/db.go:1118-1119 | a user line reads back to the user |
| Users.UserLineTells | ii/db.go:1118-1119 | the line of a user, field by field |
| Users.ParseTells | ii/db.go:1231-1265 | what a load makes of any line: a lock line, one passed over, one that ends the load, or the user read off its first five parts |
| Users.MemTells | ii/db.go:1262-1265 | the list has all names in order; a name leads to the last user who has it, an id and a secret to the name of the last one; nothing else is in the maps |
| Users.MapsAgree | ii/db.go:1262-1265 | with distinct users the three maps and the list agree, and every known secret leads to a user who has it |
| Users.UDB.LoadUsers | ii/db.go:1214-1274 | nothing when the size is unchanged, otherwise the maps built anew up to a line that makes it index past the end, and registration locked by a lock line or the limit on new users |
| Users.UDB.LoadPolicy | ii/db.go:1163-1199 | the limit on new users, none while the size of the policy is the one last read |
| Users.LimitTells | ii/db.go:1176-1184 | the limit is the number on the policy's last line without a colon, none when there is no such line |
| Users.LockedIff | ii/db.go:1232-1264 | a load of any lines leaves registration locked if and only if one is a lock line or the limit it works with is reached |
| Users.LimitHoldsIff | ii/db.go:1161-1274 | over any run of requests, one after the other, and a load: locked if and only if the file has a lock line, or was read once only and holds as many new users as the policy allows |
| Examples.LimitForgotten | ii/db.go:1161-1274 | the policy allows one new user, and two register |
| Users.UDB.Add | ii/db.go:1086-1123 | the checks, the id one past the largest in 32 bits, the line and the list entry appended, the maps left alone |
| Users.RegisterTells | ii/db.go:1086-1123 | accepted if and only if the name is new and well formed, mail and password pass and the file is not locked; then the file gains one line with the id after the largest, in 32 bits, and nothing else changes but the list |
| Users.UDB.Edit | ii/db.go:1136-1159 | the map changed first, the file rewritten from the list without the removed users; nothing moved into place when none is left |
| Users.AlterTells | ii/db.go:1136-1159 | an unknown name changes nothing; otherwise the record is replaced, its id kept, and the file is one line for each listed name but those marked for removal, in order, or the old file when no line is left |
| Users.UDB.HandleAll | ii-node/web.go:168-199 | any sequence of requests on one object, one after the other and each loading first, leaves the state `AfterAll` says |
| Users.AddKeepsFile | ii/db.go:1105-1119 | the file gains exactly the new user; its users stay distinct if and only if the next id is free, and the new id exceeds the others if and only if the largest is not the last 32-bit number |
| Examples.IdsRunOut | ii/db.go:1105-1111 | a user with the last 32-bit id, then two registrations: the second repeats the first one's id |
| Users.EditKeepsFile | ii/db.go:1136-1159 | an edit keeping id and name gives the users as loaded, the edited one replaced and removed ones dropped, in the same order, still distinct |
| Users.UsersStayDistinct | ii/db.go:1086-1274 | over any run of requests on one object, one after the other, size shortcut and failed edits included: ids and names in the file stay distinct, LoadUsers returns normally, its maps are those of the file if and only if every unwritten edit says what the file says, and known secrets lead to users who have them if and only if no such edit changed one that did |
| Users.SecretsIff | ii/db.go:1142-1157 | that condition on secrets, for any maps that hold unwritten edits |
| Requests.PerformAll | ii-node/web.go:168-199 | any interleaving of the loads, reads, registrations and edits of any requests leaves object and records held as `Run` says |
| Requests.AloneIsCall | ii-node/web.go:168-199 | a request that nobody interrupts does what the sequential model says |
| Requests.StepIff | ii/db.go:1086-1274 | from a state kept so far, the file stays one of distinct users with ids given out if and only if the step is safe, and then the state is kept |
| Requests.HealthyIff | ii/db.go:1086-1274 | over any interleaving: the file stays such a one all the way if and only if every accepted registration found none waiting to be loaded and a free id, and every edit of a loaded user found none waiting and its id with no other user who stays |
| Requests.LoadAfter | ii/db.go:1214-1274 | after such an interleaving LoadUsers returns normally, with maps and secrets as after sequential requests |
| Requests.WaitingText | ii/db.go:1142-1157 | an edit while a registration waits to be loaded writes that user with id 0, without mail and secret |
| Examples.SignedUpTwice | ii-node/web.go:168-199 | the register form sent twice on an empty file: two users of one name and one id |
| Examples.EditForgetsBob | ii-node/web.go:168-199 | a registration, then an edit of another user without a load between: the new user has id 0 |
| Users.RemovingTheLastUser | ii/db.go:1142-1157 | marking the only user for removal with a new secret writes nothing, the next load does nothing, and the old secret leads to a user without it |
| Examples.StaleSecretStays | ii/db.go:1142-1157 | such a run from a concrete file |
| Pager.Context.MakePager | ii-node/web.go:473-503 | pages, page, start and the pager list for every count and every 64-bit page number |
| Pager.PagerTells | ii-node/web.go:473-503 | fifty messages to a page; page 0 is the first, -1 the last, and nothing lies before the first; the start is that of the page, as long as it fits in 64 bits |
| Pager.TakenIff | ii-node/web.go:477-488 | page and start are those asked for, nothing lying before the first, if and only if the start fits in 64 bits |
| Pager.LastNumberIsFirstPage | ii-node/web.go:477-488 | the largest page number shows the first page |
| Pager.PagesPartition | ii-node/web.go:535-556 | every position lies on exactly one page, the one computed for it, and no page is empty |
| Pager.PagerShape | ii-node/web.go:489-501 | the list starts at 1, ends at the last page, shows exactly the pages within ten of the current one, ascending, with one gap mark wherever pages are left out and nowhere else, in at most 25 entries |

## Left out

- The file lock and the mutexes (ii/db.go:104-127): an operation that takes a lock is one atomic step. Those that a request strings together are steps of their own in Quota, Requests and FetchRun; `get -t`, `clean` and the fetch loop are modelled with a refresh for each.
- An unterminated last log line, as a crash leaves it: runs start from a log of complete lines.
- Store.RunKeepsConsistent: asks that no message written has a carriage return inside echo, To or From, because then the index is no longer what a rebuild prints (`Store.AppendLineIff`). Messages that arrive are cut at lines and these fields trimmed, so that only a carriage return in the middle of one is excluded, or one inside a tag, as a typed "@repto:" line can bring.
- Db.DB.LoadIndex: a truncated index is modelled up to the crash it ends in (the new table's map is never allocated); no run theorem covers it, since no modelled step shrinks the index file.
- Db.DB.GetTopics: asks that the input still describes the refreshed table: entries that a refresh replaced under the caller keep marks of their own, which are not modelled; nor are concurrent calls.
- Query.Query.Match0: the Match callback, which no caller in the repository sets, is a function of the entry alone; one that changes the query is not modelled.
- Fetch.CarriedIsStored: speaks of one line and one store, and claims the id only; the message is `FetchCopies.FetchCarries`. A message dated 0 is stored with the local time, so its bundle differs from the remote's.
- FetchExact.FetchExactly: asks for a list that names no echo twice, and is about an echo that no other name on it reaches and whose missing ids a request path can carry (`FetchExact.Exact`); of the others it is said which ids are not obtained (`FetchData.NeverArrives`) and what those obtained say (`FetchCopies.FetchCarries`).
- FetchData.FetchComplete: HTTP is the delivery of a parsed path and of lines, a network error may hit any fetcher at any step, and the remote does not change during the run. net/http answers a path with empty, "." or ".." elements with a redirect to the shortened path, from which ".." has removed the element before it too and which may belong to another handler; here such a request is answered by the handler it names, from the elements as they are. Plain ids and echo names make no such path, and of others it is only claimed that they are not obtained.
- Users.UDB.LoadUsers: one object owns the file; a second process writing a file of the same size would not be noticed. The policy's expressions, which choose the first tags of a user, are parameters of a call, and the policy does not change during a run.
- Users.UDB.Edit: a user record is a value; in Go the copies handed out share their tag map with the loaded one.
- Users.UDB.Add: the e-mail expression, the password hash and MakeSecret are parameters.
- Requests.PerformAll: a record is read by name; reading it by secret or id gives the record of the name that they lead to.
- Quota.PointPolicy: PointMsg's other checks (credentials, format, repto, echo access) end a call before its store. An administrator's edit of another user's message is not a step of the model.
- Bytes.ScanItoaThen: multi-byte Unicode blanks before a number, which Sscanf also skips, are not modelled.
- SHA-256, HTTP, templates, cookies, regular expressions, logging, file-system errors, the XPM decoder, gemini export, `DecodeMsgline` and the web front end's text filters.
