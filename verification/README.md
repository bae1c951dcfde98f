# Verified model of a poll-driven HTTP server

This project models, in Dafny, the logic of a small HTTP/1.1 server written in C: the cache of files
it builds from a directory, the parsing of request lines, the answers it produces, and the event loop
which serves its clients. It proves what this logic guarantees, and states exactly when it does not
do what its comments say.

The operating system appears as calls whose results are arbitrary within a contract: `read` delivers
at most what was asked, `write` accepts at most what was given or fails, `poll` counts the entries it
has something to report about, a new descriptor is one that is not in use, a directory does not
change between two passes, and the programs `file` and `gzip` print arbitrary bytes.

| file | what it holds |
|---|---|
| `toolbox.dfy`, `system.dfy` | path and string helpers; reading the output of a child process |
| `disk.dfy`, `cache_spec.dfy`, `lookup.dfy`, `build_lookup.dfy`, `disk_lookup.dfy` | the build and the lookup on values, and their theorems: greedy allocation, conservation of the budget, round trip, correspondence with the disk |
| `file_cache.dfy`, `cache_building.dfy`, `cache.dfy` | the same on objects changed in place, tied to the values |
| `http_types.dfy`, `request.dfy` | end of header, Request-Line (section 5.1 of RFC 2616) |
| `http.dfy`, `http_round_trip.dfy` | deciding and serialising answers (sections 6 and 6.1 of RFC 2616) |
| `sending.dfy` | what a client receives when writes are short, as the code is and as it is meant |
| `os.dfy`, `client_table.dfy`, `serving.dfy`, `event_loop.dfy` | clients, their doubly-linked list, the steps of a client, the rounds of the main loop |
| `runs.dfy`, `end_to_end.dfy` | results on whole runs, and across all of these |

`dafny verify dfyconfig.toml` checks the whole project. A C string is the sequence of its characters,
without the NUL. Functions of the C code that change their arguments are methods proved against
functions or predicates on values, and the theorems are about the latter. Ghost fields of clients and
of the server record history: reads, bytes accepted by each write, bytes received, clients accepted
and deleted; the operating system logs the calls made to it. A run is described by one record for each
round: what was reported, the calls made for each client, and what the clients were like before and
after.

Main results:

* The tree in memory mirrors the directory (`DiskLookup.TreeMirrorsDisk`), every file is found again
  from the path stored in it, as the same object (`Cache.FindStoredFile`), a lookup finds a file
  exactly at its position (`BuildLookup.FoundIffAtPosition`), and a GET or HEAD of any file of the
  directory, on a well-formed line, is answered with this file (`EndToEnd.EveryFileIsServed`).
* In any round of a run, a request that is read at once is so answered exactly if an even number of
  bytes was read before it on the connection, as for the first one, or if the buffer still has an
  older double CRLF at the right distance (`EndToEnd.RequestIsServed`,
  `Serving.SecondRequestIsMissed`, `Serving.SecondRequestIsSeen`); and if the next write step is not
  cut short, its client receives the header and the content of this file (`EndToEnd.FileIsReceived`).
* The recursive build with its shared budget is one greedy fold over the flattened directory
  (`CacheSpec.FillIsGreedy`), and the budget is conserved, down to the bytes that the files hold in
  memory (`CacheSpec.FillConservesBudget`, `Cache.BuildCacheFromDisk`).
* In every round of the event loop each client gets what is due to it, once, although clients are
  unlinked during the traversal and the traversal stops early: the calls made are exactly one read,
  one write step or one hang-up for each ready client, with their arguments, whether or not it
  remains, and what was read is answered (`EventLoop.ServeReadyClients`, `Runs.RemovedIffClosed`).
  What is due is told from the state of the client and its report alone (`Runs.WhatIsDone`), as is
  what becomes of it after a read or a write (`Runs.WhatIsRead`, `Runs.WhatIsSent`), and no client is
  ever left out of the poll (`Runs.ClientsArePolled`).
* In each round the server polls, and a client is accepted whenever the listening socket is reported
  ready and there is room (`EventLoop.HandleOneRound`); over a whole run each accepted client is
  deleted exactly once, and unless a call failed the run goes on to its end and all descriptors are
  closed (`EventLoop.RunServer`). No more is read from a client than its buffer holds
  (`Runs.ReadsAreBounded`).
* For every text of a request, the code of its answer, each of its fields and its content are decided
  by its first line and the cache (`Http.AnswerDecision`, `Http.AnswerTells`), and the whole text of
  the header is given (`Http.FileText`, `Http.ErrorText`, `Http.StatusLineIs`). This text fits in its
  buffer, can be read back, and ends at its only empty line (`Http.HeaderFits`,
  `HttpRoundTrip.AnswerHeaderRoundTrip`, `HttpRoundTrip.HeaderEndsOnce`).
* An answer, still being sent or finished, is received intact if and only if one write took all of its
  header and what the writes took of its body makes this body (`EndToEnd.AnswerIntactIff`,
  `EndToEnd.FinishedIntactIff`), because each write starts again at the beginning of its buffer; a
  client receiving a non-empty body from memory never waits for a request again (`Runs.SendsForever`).
  With the offsets used as meant, short writes do no harm (`Sending.RepairedSending`).

Where the code differs from its own comments, the model follows the code:

* `src/file_cache.c:325-328`: the factor 1.2 is cut to 1 by a cast, so a compressed file is truncated
  when it is longer than the raw one (`CacheSpec.LoadedInFullIff`, `CacheSpec.GzipLongerThanData`).
* `src/file_cache.c:616-619`: nothing in the lookup tests the length of a path or of a name; the names
  of targets fit in their buffer because the parser refuses those of more than 1024 characters
  (`Cache.NameFits`).
* `src/toolbox.c:159-180`: the last name of a path without slash loses its first character
  (`Toolbox.LastNameIffSlash`, `Toolbox.FirstCharacterLost`).
* `src/parse_header.c:105-114`: the search for the end of the header goes by steps of two, and misses a
  header followed by an odd number of bytes (`RequestParsing.HeaderSeenIff`,
  `RequestParsing.HeaderMissed`).
* `src/parse_header.c:153-167`: white space of any kind is skipped before a token, but only spaces after
  it, and what was skipped before it is not counted in its length: a line with a tab, or beginning with
  a space, is taken for one of another version (`RequestParsing.TabIsNotCounted`,
  `RequestParsing.FirstSpaceIsNotCounted`).
* `src/parse_header.c:206`: one right character is enough at the end of the line
  (`RequestParsing.LineEndCheckedIff`, `RequestParsing.LineEndNotCrlf`).
* `src/server.c:114-142`: the state of a new client is not set; the model takes "waiting for a request".
* `src/server.c:405-409`: the offset in the request buffer is never advanced: each read is stored at the
  start of the buffer, while lengths accumulate and are never reset. So a request that comes after an
  odd number of bytes is not seen, unless an older double CRLF is left in the buffer at the right
  distance (`Serving.ReadIsSeenIff`, `Serving.SecondRequestIsMissed`, `Serving.SecondRequestIsSeen`),
  and one that is cut in pieces is answered as its last piece (`EndToEnd.ReadIsAnswered`).
* `src/server.c:415-421`: a read of 0 bytes is taken for the end of the connection, but once the bytes
  counted fill the buffer the server asks for 0 bytes, and removes a client that has not left
  (`Runs.FullBufferIsDropped`, `Runs.OneRequestFillsBuffer`).
* `src/server.c:516-529`: the offset in a body is never advanced: a non-empty body kept in memory is
  sent again at each step, and its client never goes back to waiting (`Runs.SendsForever`,
  `Sending.ReceivedIffOnlyOneWrite`, `Sending.BodySentTwice`).
* `src/server.c:550`: the test after `sendfile` is about the header, so a client receiving a file from
  the disk is always disconnected after one call (`Serving.FileSentIffOneCall`).

## Model

| member | source | states |
|---|---|---|
| Toolbox.PathBuffer.AppendName | src/toolbox.c:184-200 | the name is appended after exactly one separator, or nothing changes, according to the length test |
| Toolbox.ExtractLastNameOfPath | src/toolbox.c:159-180 | the loop returns what follows the last slash found after the first character |
| Toolbox.LastNameOfJoin | src/toolbox.c:159-200 | extracting the last name undoes appending a name without slash |
| Toolbox.LastNameIffSlash | src/toolbox.c:159-180 | the extracted name is the last name of the path if and only if the path has a slash |
| Toolbox.FirstCharacterLost | src/toolbox.c:159-180 | a concrete path whose name loses its first character |
| Toolbox.ConsumeLeadingWhiteSpace | src/toolbox.c:203-209 | the pointer is moved past exactly the leading spaces |
| Toolbox.OnlySpacesAreSkipped | src/toolbox.c:203-209 | nothing but leading spaces is skipped, and what remains does not begin with a space |
| Subprocess.Pipe.Read | src/system.c:55-56 | contract of one read: an arbitrary non-empty part of what is pending, nothing only at the end |
| Subprocess.RunReadableProcess | src/system.c:51-76 | whatever the chunks, the buffer gets the first bytes of the stream, as many as fit, their number is returned and nothing else changes |
| Subprocess.KeptIsComplete | src/system.c:51-63 | the buffer holds the whole stream if and only if it is long enough |
| Disk.PathsFitIff | src/file_cache.c:409-455 | no path is too long if and only if no path met, apart from the current directory and its parent, has more than 1025 characters |
| CacheSpec.CostIsHeld | src/file_cache.c:508-512 | what a file takes from the budget is the number of bytes it has in memory |
| CacheSpec.FillConservesBudget | src/file_cache.c:459-582 | at every level of the recursion, space left plus bytes held in memory by the files made is the space given, and a non-negative space stays so |
| CacheSpec.FillIsGreedy | src/file_cache.c:459-566 | the recursive build yields the same files, with multiplicity, and the same free space as one greedy fold over the flattened directory: the space given less the bytes held |
| CacheSpec.GreedyAt | src/file_cache.c:373-389 | in the fold, each file is made with the space given less the bytes held by the files before it |
| CacheSpec.GreedyLoadsWhatFits | src/file_cache.c:373-389 | a file is loaded if and only if its raw size is at most the space given less the bytes held by its predecessors |
| CacheSpec.SecondFileIsLeftOut | src/file_cache.c:496-515 | of two files of 80 bytes that gzip does not shorten, a cache of 100 bytes holds the first one only |
| CacheSpec.FillFilesOk | src/file_cache.c:284-389 | in every cached file: must_unload iff not loaded, gzip encoding iff compressed, content iff loaded and of the announced size, bounded type; and, if the sizes on the disk fit in an int, so do those of the cache |
| CacheSpec.LoadedInFullIff | src/file_cache.c:315-344 | a loaded file is complete if and only if it is small or its gzip form is no longer than its raw form |
| CacheSpec.GzipLongerThanData | src/file_cache.c:325-336 | whatever gzip prints, a file of 64 bytes whose gzip form has 65 loses the last one |
| CacheSpec.MimeTypeOfLine | src/file_cache.c:255-280 | the type is the line printed by file without its newline, cut to 254 characters |
| Lookup.ComponentsSplitOnRuns | src/file_cache.c:620-656 | the cursor loop cuts a path as splitting on every slash and dropping empty names, except the last one, does |
| Lookup.WalkIffAt | src/file_cache.c:588-657 | in a tree with distinct sibling names the walk finds a file if and only if the names are its position |
| Lookup.PathOfPosition | src/file_cache.c:480-501 | the stored path of a file is the root, a separator and the names of its position joined by slashes |
| Lookup.LookupFindsEveryFile | src/file_cache.c:620-657 | the stored path of any file, without the root, is cut into its position and leads back to it |
| Lookup.OddPathsFindNothing | src/file_cache.c:620-657 | a path with a dot or dot-dot component, an empty path and a path ending with a slash find nothing |
| Lookup.NoOddNames | src/file_cache.c:402-406 | no file or folder of a tidy tree, at any level, is named dot or dot-dot, or has a slash in its name |
| BuildLookup.BuildIsTidy | src/file_cache.c:459-566 | a directory with proper distinct names gives a tree with distinct plain names and correct paths |
| BuildLookup.BuiltNamesAreNotOdd | src/file_cache.c:402-536 | nor does any of a tree built from a well-named directory |
| BuildLookup.BuiltFilesAreFound | src/file_cache.c:459-657 | round trip of build and lookup for every file of every well-named directory |
| BuildLookup.FoundIffAtPosition | src/file_cache.c:459-657 | any target finds a file if and only if splitting the target gives the position of this file |
| DiskLookup.TreeMirrorsDisk | src/file_cache.c:459-566 | a position holds a file in the built tree if and only if it holds a regular file on the disk, and the first is what the cache keeps of the second, given the space left by the files before it |
| DiskLookup.DiskFileIsFound | src/file_cache.c:459-657 | looking up the names of a file of the disk, joined by slashes, finds what the cache keeps of it, at its index in the flattened directory |
| DiskLookup.KeptFile | src/file_cache.c:373-389 | this file is loaded if and only if its raw size is at most the space given less the bytes held by the files before it |
| DiskLookup.StoredPathFits | src/file_cache.c:480-484 | the path stored in a file of a cache that could be built has at most 1025 characters, and the target made from it at most the 1024 that a request may have |
| FileCaching.File.SetFileType | src/file_cache.c:255-280 | the type field becomes the type read from the output of file, nothing else changes |
| FileCaching.File.SetRawFileContent | src/file_cache.c:284-311 | the reading loop puts the data of the file in its buffer; content, state and encoding after it |
| FileCaching.File.SetCompressedFileContent | src/file_cache.c:315-344 | the content is the part of the gzip output that fits in the raw size, and the size is its length |
| FileCaching.File.SetFileContent | src/file_cache.c:373-389 | loads if and only if the file fits, raw under 64 bytes and compressed otherwise |
| FileCaching.Folder.constructor | src/file_cache.c:115-138 | an empty folder with room for the counted files and subfolders |
| FileCaching.Folder.AddFile | src/file_cache.c:177-188 | appends a file in place, and the size of the folder stays the recursive sum of the sizes below it |
| FileCaching.Folder.AddSubfolder | src/file_cache.c:192-202 | appends a folder in place, and the size stays the recursive sum |
| CacheBuilding.PassesAgree | src/file_cache.c:409-566 | the counting pass counts exactly what the filling pass inserts |
| CacheBuilding.CountFilesAndFoldersInDirectory | src/file_cache.c:409-455 | the loop counts the files and folders, or fails if and only if a path is too long |
| CacheBuilding.CreateFile | src/file_cache.c:496-515 | one file is made as specified, and the shared free space is decreased by the number of bytes of its content |
| CacheBuilding.RecursivelyFillFolder | src/file_cache.c:459-536 | the loop makes the specified folder, in bounds, both arrays ending full, or fails if and only if a path below is too long |
| CacheBuilding.RecursivelyBuildFolder | src/file_cache.c:538-566 | the two-pass build makes the specified tree in fresh objects and leaves the specified free space |
| Cache.FileAtIsWalk | src/file_cache.c:588-657 | the object found in memory represents the file found on values |
| Cache.StoredIsFound | src/file_cache.c:588-657 | the object found at a position is the one stored there, and no other |
| Cache.FindSubfolderInFolder | src/file_cache.c:590-600 | the first subfolder with the name, null if and only if there is none |
| Cache.FindFileInFolder | src/file_cache.c:604-614 | the first file with the name, or null |
| Cache.FileCache.FindFileInCache | src/file_cache.c:620-657 | the cursor loop returns the object reached by walking the components of the path, of any length, provided that the names it copies fit in its buffer |
| Cache.FindFrom | src/file_cache.c:627-656 | the same from any position of the cursor, names being copied within their 1024-byte buffer |
| Cache.NextFolder | src/file_cache.c:641-655 | one step of the loop goes down one level of the walk |
| Cache.NameFits | src/file_cache.c:646-647 | a name that ends with a slash fits in the buffer when every slash of the path comes soon enough after the one before it |
| Cache.BuildCacheFromDisk | src/file_cache.c:568-582 | the cache is the specified tree, its size is the number of bytes that its files hold in memory, between 0 and the maximum |
| Cache.BuiltObjectIsFound | src/file_cache.c:459-657 | the target made from the stored path of any file object of a built cache is short enough, and is looked up to this very object |
| Cache.FindStoredFile | src/file_cache.c:459-657 | findFileInCache, called with this target, returns this object |
| RequestParsing.BufferContainsFullHttpHeader | src/parse_header.c:89-118 | true if and only if the text has 18 bytes and a double CRLF is followed by an even number of bytes |
| RequestParsing.HeaderSeenIff | src/parse_header.c:89-118 | a complete header is detected if and only if an even number of bytes follows it |
| RequestParsing.HeaderMissed | src/parse_header.c:89-118 | a concrete complete header that is not detected |
| RequestParsing.FindOptionValueFromString | src/parse_header.c:125-140 | the value of the first matching entry of a table, or of its final entry |
| RequestParsing.MethodTable | src/parse_header.c:54-64 | the eight methods known, by their names, any other being unknown |
| RequestParsing.VersionTable | src/parse_header.c:66-71 | the three versions known, by their names, any other being unknown |
| RequestParsing.TablesInvertNames | src/parse_header.c:54-71 | the tables map a token to a method or a version if and only if it is its name |
| RequestParsing.ScanString | src/parse_header.c:153-153 | the token sscanf returns: the longest word after white space |
| RequestParsing.TokenIsFirstWord | src/parse_header.c:153-153 | a token is the first word, after and before white space of any of its six kinds |
| RequestParsing.ParseHttpHeaderFirstLine | src/parse_header.c:143-213 | the pointer-advancing parser computes the specified header and code, on every string |
| RequestParsing.FirstLineDecision | src/parse_header.c:143-213 | for every line of three tokens: 501, then 414, then 505, then the end of the line decide the code, and 200 gives the three fields |
| RequestParsing.FewTokensDecision | src/parse_header.c:143-195 | every line with no token, with one or with two is answered 400, unless its method is unknown or its target too long |
| RequestParsing.TabIsNotCounted | src/parse_header.c:143-213 | a concrete line with a tab, answered 505 |
| RequestParsing.FirstSpaceIsNotCounted | src/parse_header.c:143-213 | a concrete line that begins with a space, answered 505 |
| RequestParsing.RequestLineRoundTrip | src/parse_header.c:143-213 | printing a method, a target and a version with any spacing and CRLF, then parsing, gives them back with code 200 |
| RequestParsing.LineEndCheckedIff | src/parse_header.c:204-209 | a corollary of FirstLineDecision: the end of the line is checked properly if and only if its two characters are both right or both wrong |
| RequestParsing.LineEndNotCrlf | src/parse_header.c:206-209 | a concrete line that does not end with CRLF and is accepted |
| RequestParsing.AcceptedRequest | src/parse_header.c:143-209 | after 200 the method and version are known, and the target is a word of at most 1024 characters |
| Http.PrepareGeneralHttpAnswer | src/http.c:233-241 | a fresh answer with the code, the date and the server name, and no body |
| Http.PrepareHttpError | src/http.c:244-250 | an error answer has no body and length 0 |
| Http.PrepareHttpValidAnswer | src/http.c:253-282 | the answer describes the file, with a body from memory or from the disk for GET only |
| Http.ProduceHttpAnswerFromRequest | src/http.c:305-357 | the answer is the specified one for the request and the cache |
| Http.AnswerDecision | src/http.c:291-357 | for every request text: a parse that failed keeps its code; otherwise 505 iff the version is not 1.1, then 501 iff the method is neither GET nor HEAD, then 404 or 200 as a file is found; the two tests answering 400 never succeed; only six codes occur |
| Http.AnswerTells | src/http.c:229-357 | for every request text: the fields of the answer with their values; with 200 and no other code it gives the file found at the target, with a content for GET only, from memory or by its path; otherwise length 0, no type, no encoding, no body |
| Http.StatusLineIs | src/http.c:143-177 | the status line of each of the eleven codes: its three digits and its description |
| Http.FileLines | src/http.c:364-372 | the whole status line for 200 and 404 |
| Http.ErrorLines | src/http.c:364-372 | the whole status line for 400 and 414 |
| Http.UnsupportedMethodLine | src/http.c:364-372 | the whole status line for 501 |
| Http.UnsupportedVersionLine | src/http.c:364-372 | the whole status line for 505 |
| Http.ErrorText | src/http.c:364-426 | the whole text of the header of an answer without body: status line, Content-Length: 0, Date, Server, empty line |
| Http.FileText | src/http.c:364-426 | the whole text of the header of an answer giving a file: HTTP/1.1 200 OK, its five fields, empty line |
| Http.SnPrintf | src/http.c:368-371 | contract of snprintf with an explicit size, truncation included |
| Http.WriteHttpAnswerFirstLine | src/http.c:364-372 | the buffer gets as much of the status line (the one of Http.StatusLineIs) as fits, with a NUL, and its full length is returned |
| Http.WriteHttpOptionFields | src/http.c:375-407 | the fields that are set are appended in order and their length is returned |
| Http.FillHttpAnswerHeaderBuffer | src/http.c:410-426 | the buffer holds the serialised header and its length is returned |
| Http.HeaderFits | src/http.c:364-426 | every header produced from a coherent cache takes less than the 2048 bytes of the default buffer |
| HttpRoundTrip.HeaderEndsOnce | src/http.c:420-425 | a double CRLF ends at the last byte of the header and nowhere else |
| HttpRoundTrip.DecimalRoundTrip | src/http.c:368-384 | printing a number in decimal and reading it gives it back |
| HttpRoundTrip.DecodeStatus | src/http.c:364-372 | the number read in the status line is the one of the code, given for each of the eleven codes |
| HttpRoundTrip.FieldsTellTheHeader | src/http.c:375-407 | each value of the header is found under the name of its own field, and under no other |
| HttpRoundTrip.AnswerHeaderRoundTrip | src/http.c:364-426 | splitting the bytes on CRLF and reading the lines gives back the code as a number (200 for Http200, and so on for each code), the fields in order, the length as a number and each value under its name |
| Sending.SentLength | src/server.c:488-492 | the number of bytes received is the sum of the counts, hence the offset for a header |
| Sending.HeaderReceivedIffOneWrite | src/server.c:463-493 | a fully sent header is received intact if and only if one call took all of it |
| Sending.HeaderInTwoWrites | src/server.c:463-493 | a concrete header taken in two writes, which is not received |
| Sending.ReceivedIffFits | src/server.c:516-529 | any text sent by calls which each start at its beginning is received intact if and only if the counts add up to its length and each call gave what the text has at the place reached |
| Sending.ReceivedIffOnlyOneWrite | src/server.c:516-529 | for a text with no beginning that is also an end: if and only if one call took all and the others nothing |
| Sending.BodySentTwice | src/server.c:516-529 | a concrete body which, taken twice, is received twice |
| Sending.RepetitionHidesShortWrites | src/server.c:516-529 | a concrete body with such a beginning, received intact in two writes |
| Sending.StepKeepsValid | src/server.c:570-584 | with the repairs, one step keeps what was received a prefix of header then body, and progresses |
| Sending.RepairedSending | src/server.c:463-584 | with the repairs, under any short writes the client receives header then body in order, and the server waits iff it received all |
| Sending.RepairedSendingEnds | src/server.c:463-584 | with the repairs, sending ends after at most as many effective steps as there are bytes |
| OperatingSystem.Os.Poll | src/server.c:642-644 | contract of poll: reports allowed by each entry, and their number; the entries with their reports are logged |
| ClientTable.Client.constructor | src/server.c:114-142 | a new client waits for a request with empty buffers |
| ClientTable.AddClientToServer | src/server.c:318-344 | the client becomes the first of the doubly-linked list |
| ClientTable.Unlink | src/server.c:350-359 | the pointer surgery takes exactly the client out of the chain |
| ClientTable.RemoveClientFromServer | src/server.c:346-365 | the list loses this client only, its descriptor is closed and it is deleted once |
| ClientTable.DeleteClient | src/server.c:90-112 | the descriptor, which must be open, is closed |
| ClientTable.DropClient | src/server.c:346-365 | removing a client keeps the invariant of the server |
| Serving.ProcessClientRequest | src/server.c:428-459 | incomplete header: back to waiting, nothing else changes; complete header: a fresh answer to the request in the buffer, with its header serialised and offset 0 |
| Serving.ReadFromClient | src/server.c:400-425 | invariant kept; one call to read, for all that the buffer may still be said to hold; nothing read removes the client; otherwise the data and its NUL replace the start of the buffer, the stored length grows by what was read, staying below the buffer size, and the request is processed |
| Serving.OnlyLastReadIsParsed | src/server.c:405-448 | the request that is parsed is what the last read delivered |
| Serving.ReadIsSeenIff | src/server.c:405-436 | bytes ending with their only double CRLF, read at once after n bytes, are seen as a complete header if and only if there are 18 bytes in all and n is even, or the buffer still has an older double CRLF at an even distance from the end of what is searched |
| Serving.SecondRequestIsMissed | src/server.c:405-436 | two concrete requests, of which the second one, after an odd number of bytes, is not detected |
| Serving.SecondRequestIsSeen | src/server.c:405-436 | a longer first request, after which the same second one is detected, thanks to what is left of the first |
| Serving.WriteHttpHeaderToClient | src/server.c:463-493 | invariant kept; one call to write, offered as many bytes as remain of the header, from its beginning; the client is removed if and only if this call found the connection reset; otherwise the offset advances by the count and the result tells whether it reached the length; the server ends only if the call failed otherwise |
| Serving.WriteBodyToClient | src/server.c:506-527 | one call to write, offered the whole body; the client is removed if and only if the connection is reset |
| Serving.SendFileToClient | src/server.c:539-566 | the file is opened and one call to sendfile made, for what remains of its length; once the header is sent, or if the connection is reset, the file is closed and the client removed; otherwise both are left and the offset advances |
| Serving.FileSentIffOneCall | src/server.c:539-560 | a client being sent a file is removed after one call, and received the whole file if and only if this call took all of it |
| Serving.WriteHttpContentToClient | src/server.c:497-567 | no body: no call, done; body in memory: one more write, done iff the body is empty, client removed iff reset; body on the disk: it is sent by one call and the client is removed |
| Serving.WriteToClient | src/server.c:570-584 | invariant kept; exactly the calls of one step are made, with the bytes due to each; the client is removed only for a reset or after its file; if it remains, the history and the offset tell what was taken, its answer is still the one made for its request, and it waits again iff its header is sent and its body is absent or empty; the server ends only if one of these calls failed otherwise |
| EventLoop.AcceptNewClient | src/server.c:372-394 | invariant kept; unless the limit is reached or accept fails, one more client, new and waiting, is listed first |
| EventLoop.DeleteServer | src/server.c:207-219 | the listening socket then all listed descriptors are closed, in order, and each client ever accepted was deleted exactly once |
| EventLoop.BuildPolledSockets | src/server.c:603-637 | one entry for the listening socket and one for each client in list order, in bounds, asking for the event of its state |
| EventLoop.EntryAsksForAction | src/server.c:616-697 | the event polled for a state is the one served in this state: nothing is done if and only if nothing but errors is reported |
| EventLoop.ServeClient | src/server.c:661-697 | what is due to the client according to its state and reports is performed, once, whether or not it is still listed: the calls made, with their arguments, are exactly those of one read, one write step or one hang-up; they tell whether it was removed; a read is stored and the request processed, answered by an answer to what is parsed or left waiting; reads and writes are counted |
| EventLoop.ServeOneOf | src/server.c:661-697 | the same, all the other clients being left as they are |
| EventLoop.TallyEnd | src/server.c:699-701 | when the count reaches the result of poll, no entry further on is ready and neither is the listening socket |
| EventLoop.ServeTurn | src/server.c:659-704 | the saved successor stays the next client although the current one may be deleted, served clients stay served and the others are untouched |
| EventLoop.ServeReadyClients | src/server.c:646-705 | with unlinking and early exit each client listed at the start, removed or not, gets what is due to it, exactly once, and no other call is made |
| EventLoop.HandleOneRound | src/server.c:603-714 | the same for a whole round with its poll: the calls made are one poll, which gave the report, those due to each client, then accept if and only if the listening socket was ready and there was room, its client being listed first; if a call fails, those made until then are these |
| EventLoop.FailureIsFatal | src/server.c:644-714 | an unfinished round ends with the call that failed: poll, then nothing else; accept, the listening socket being ready and some slot free; or, serving a client, open, write or sendfile, the last two for another reason than a reset |
| EventLoop.HandleClientRequests | src/server.c:590-716 | after any number of rounds the invariant holds, the cache is unchanged, the calls made are those of the recorded rounds, each beginning as the previous one ended with its poll, and the clients accepted are those of the records, each once; after a failed call, the calls of the complete rounds come first, then those of the unfinished one |
| EventLoop.RunServer | src/main.c:19-73 | for a whole run: it starts unless a path is too long; its calls are those of its rounds, then the closing of what is open; each client accepted in a round is deleted exactly once; it ends early only because a call failed, after the calls of the complete rounds and those due until then, and otherwise no descriptor is left open |
| Runs.WhatIsDone | src/server.c:608-697 | in any round, from the state of a client and its report alone: the event it is polled for; a hang-up, whatever else is reported, gives one close and its removal; a waiting client ready to be read from gives a read of all the room left but a NUL; an answering client ready to be written to gives a write of as many bytes of its header as remain; in all other cases no call is made and nothing changes |
| Runs.WhatIsRead | src/server.c:400-459 | what a read makes of a client: removed if nothing was read; otherwise the data, a NUL and the rest of the old buffer, the length increased, and an answer to be sent from its start if and only if the end of a header is seen |
| Runs.WhatIsSent | src/server.c:463-584 | what a write makes of a client: still answered as long as its header is not complete; then waiting if its answer has no body, or an empty one that is taken; still answered, after a write of the whole body, if it has one in memory; removed after open, sendfile and two closes if it is in a file; removed after a reset |
| Runs.WhatIsCounted | src/server.c:463-529 | the offset of the header advances by what the first call took; nothing else that is to be sent changes, and the bytes received are those that the calls took |
| Runs.WhoIsListed | src/server.c:346-394 | after a round the list holds the clients that were not closed and first the new one; one is accepted if and only if the listening socket was ready and a slot was free |
| Runs.RemovedIffClosed | src/server.c:661-697 | a client leaves in a round if and only if its descriptor is closed, and then it hung up, its connection ended, its buffer was full, its connection was reset or a file was sent to it, each with the calls that show it |
| Runs.FullBufferIsDropped | src/server.c:405-421 | a read asks for the size of the buffer less one and less the bytes counted since the client was accepted; when this is 0 the client is removed, although it sent something |
| Runs.OneRequestFillsBuffer | src/server.c:405-421 | a concrete client, whose buffer its first request fills, is removed by its next read |
| Runs.ClientsArePolled | src/server.c:608-637 | in every round of a run each listed client is polled, for reading if it waits and for writing if it is answered: none is ever left between two states |
| Runs.SendsForever | src/server.c:516-584 | once a client is being sent a non-empty body kept in memory, in every later round it is gone or is still being sent the same answer |
| Runs.NotAcceptedAgain | src/server.c:372-394 | a client that was listed in a round is accepted in none of the next ones |
| Runs.ReadsAreCounted | src/server.c:405-409 | over a run, the length kept for a client is that of all it sent, whatever was answered in between |
| Runs.ReadsAreBounded | src/server.c:405-409 | over a run, a client is read from at most as many times as its buffer has bytes, and for fewer bytes in all |
| Runs.AnswersAreTold | src/server.c:463-584 | over a run, what each listed client received of its last answer, complete or not, is what the recorded calls to write gave it |
| EndToEnd.EveryFileIsServed | src/server.c:444-458 | a GET or HEAD of the names of any file of the disk is answered 200 with its size, its type, gzip or identity, and, for GET, its bytes if it has less than 64, or what was kept of its gzip form, or its path if it was too large for the space left to it |
| EndToEnd.ReadIsAnswered | src/server.c:400-459 | bytes ending with their only double CRLF, read at once after n bytes, are answered under the condition of ReadIsSeenIff exactly, and then as if nothing had come before: a request cut in pieces is answered as its last piece |
| EndToEnd.RequestIsServed | src/server.c:400-459 | in any round of a run: a request for a file, read at once after n bytes, is answered if and only if n is even or an older double CRLF is left in the buffer at the right distance, and then its answer gives this file |
| EndToEnd.WholeAnswerSent | src/server.c:463-584 | when each call of a first write step takes all, header and body are sent, from memory or from the disk |
| EndToEnd.FileIsReceived | src/server.c:400-584 | the exchange over two rounds: after an answered request, a write step whose calls take all delivers the header of the answer and the bytes of the file, or what was kept of its gzip form, a file that is not in memory being sent from the disk |
| EndToEnd.OnlyFilesAreServed | src/server.c:444-458 | an answer 200 gives the file whose position is the split target |
| EndToEnd.AnswerIsCoherent | src/server.c:444-458 | an answering client has one of six codes, a header offset in bounds, and no body or that of a file of the cache with matching lengths |
| EndToEnd.AnswerIntactIff | src/server.c:463-584 | for a listed client in any state of a run: its header is received intact if and only if one write took all of it, and the whole answer if and only if moreover what the writes took of the body makes the body; for a body with no beginning that is also an end, if and only if one write took all and the others nothing |
| EndToEnd.FinishedIntactIff | src/server.c:463-584 | in any round of a run, for a client that waits again after a write step: its answer has no body, it received as many bytes as the header has, and they are the header if and only if one write took all of it |

## Left out

- Toolbox.PathBuffer.AppendName: does not model the capacity of the buffer; the test at `src/toolbox.c:192` accepts paths of 1024 and 1025 characters, which the 1024-byte buffers of its callers cannot hold.
- FileCaching.File.SetRawFileContent: assumes that `read` on a regular file delivers all that was asked for and remains; after a short read the destination at `src/file_cache.c:299` would not advance.
- Subprocess.Pipe.Read: does not model failures of `read`, which end the process.
- Cache.FileCache.FindFileInCache: requires that the names to be copied fit in the 1024-byte buffer; what an overrun would do is not modelled.
- Http.WriteHttpOptionFields: requires room for the fields; with less, the sizes given to `snprintf` would become negative and be converted to huge unsigned ones.
- Http.FillHttpAnswerHeaderBuffer: requires room for the header, for the same reason; `Http.HeaderFits` shows that there always is.
- ClientTable.DeleteClient: does not model the freeing of the structures.
- EventLoop.HandleClientRequests: runs any finite number of rounds of the endless loop, since a method must terminate.
- EventLoop.ServeReadyClients: takes the poll array as a sequence, because this loop only reads it.
- EventLoop.AcceptNewClient: the use of the null result at `src/server.c:711` when the limit is reached is not modelled; no client is added.
- Serving.ReadFromClient: failures of `read` are not modelled; a negative result would put the NUL before the buffer.
- HttpRoundTrip.AnswerHeaderRoundTrip: assumes that no field value has a CR or LF; the output of `file` and `strftime` is otherwise arbitrary.
- Http.HeaderFits: assumes that file sizes fit in a C `int`; other sizes and totals are unbounded integers.
- Sockets, bind, listen, addresses, signals, fork, exec, pipes and `stat` failures: foreign calls, of which only the results above are kept; errors that end the process are modelled as an early end.
- Memory: allocation failures and `free` are not modelled; a deleted client is one that is no longer listed and whose descriptor is closed. An answer holds its body by value, not by a pointer into the cache, which is never modified.
- The byte that follows the C string of a request in memory is arbitrary when it lies outside the buffer (`src/parse_header.c:206`).
- Printing, colours, the functions giving the names of states and methods, and the web pages: user interface.
- `removeFileContent`, `convertStringToUppercase`, option fields of requests, query strings and the commented-out parser: never called.
