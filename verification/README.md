# Verified models of curl's core algorithms

A Dafny project about the hard inner parts of curl 7.61.1's `lib/` directory: how they are meant to
behave on every input, in every interleaving and over whole runs, proved of models that follow the C
code branch by branch. Each source file has its own module or group of modules.

- **FTP LIST parser** (`FtpList`, `FtpListParser`, `FtpListRoundTrip`, `FtpListLines`,
  `FtpListNtRoundTrip`, `FtpListFilter`). The byte-at-a-time automaton for Unix and Windows NT listings as
  a function on parser values, a class that runs it over a growable line buffer with saved offsets, and
  printers for both styles of listing that it is inverse to, with the glob matcher as its filter, too; for
  Unix also the converse, that nothing else is ever listed. Entries keep the raw line buffer and the
  offsets of their strings, as the C structure does.
- **Threaded resolver** (`ResolverThreads`). The shared record and its `done` flag as a state machine
  whose steps are interleaved freely; any number of requests and abandoned threads.
- **SASL client** (`SaslSpec`, `Sasl`). Seventeen states, mechanism choice, and the fallback to the next
  mechanism after a cancelled dialog. Message builders, send callbacks and the server are inputs.
- **Glob matcher** (`FnmatchSpec`, `Fnmatch`, `FnmatchBracket`). The backtracking matcher and bracket
  parser against a declarative matcher over tokens and a grammar of bracket expressions.
- **Content decoding** (`GzipHeader`, `GzipWriter`, `DeflateWriter`, `ZlibWriter`, `Zlib`, `ZlibCodec`,
  `ZlibSample`, `ContentEncodingSpec`, `ContentEncoding`). The zlib writers across arbitrary writes, for gzip with its
  header and trailer and for zlib or raw deflate data, and the stack of decoders built from a header
  value, in which those writers are lawful decoders. Inflate itself is any library with the stated
  contract, of which `ZlibSample` is a small one.
- **Hash table and connection cache** (`HashSpec`, `HashWalk`, `Hash`, `ConnCacheLists`,
  `ConnCacheWalk`, `ConnCache`). The chained table as a finite map, its iterator under removal, and on
  top of it bundles, back pointers, counters and walks whose callback may remove connections.
- **Codecs and string transforms** (`DotdotSpec`, `Dotdot`, `Base64`, `Base64Codec`, `Escape`,
  `EscapeCodec`, `Hmac`, `Hostcheck`).

`CText` holds C characters, strings and bytes, `Wrappers` optional values and lists of lists. Methods
and classes are the imperative code; each is proved against functions on values, and the lemmas about
those functions are the results.

Linked lists are modelled by their contract (insert at the tail; remove this element and call the
destructor) as sequences in fields; the address of a list element is a number that is never reused
while it is alive.

## Model

| member | source | states |
|---|---|---|
| FtpList.RunAppend | curl/7.61.1/curl-7.61.1/lib/ftplistparser.c:326-1020 | Reading one piece of a listing and then another is reading both at once: the parser state is all that is carried over. |
| FtpList.ChunkIndependence | curl/7.61.1/curl-7.61.1/lib/ftplistparser.c:326-1020 | However a listing is cut into network chunks, the final parser (automaton state, error, unfinished line, saved offsets, accepted entries) is that of one call with all the bytes; this includes cuts inside the re-scan of the first line and input after an error. |
| FtpList.ErrorIsFinal | curl/7.61.1/curl-7.61.1/lib/ftplistparser.c:336-339 | Once an error is recorded, further input changes nothing. |
| FtpList.Rescan | curl/7.61.1/curl-7.61.1/lib/ftplistparser.c:397-441 | A first byte that does not begin a total line is dropped from the buffer and read again as a file type, and that second reading is what the whole step does. |
| FtpList.StepKeepsInv | curl/7.61.1/curl-7.61.1/lib/ftplistparser.c:355-1007 | Every byte keeps the offset invariant: inside any token item_offset + item_length is the fill of the line buffer, and the other states bound the fill as the code relies on; the listing style, once detected, stays. |
| FtpList.RunKeepsInv | curl/7.61.1/curl-7.61.1/lib/ftplistparser.c:326-1020 | The offset invariant holds after every run of any length. |
| FtpList.ListOnlyGrows | curl/7.61.1/curl-7.61.1/lib/ftplistparser.c:271-324 | A run only appends to the list, it never drops or reorders an entry, and every entry appended was accepted by the name filter. |
| FtpListParser.ListParser.Append | curl/7.61.1/curl-7.61.1/lib/ftplistparser.c:358-392 | The byte is stored at b_used and the buffer grows by a fixed step, so that b_used stays below b_size with room for a NUL. |
| FtpListParser.ListParser.ParseList | curl/7.61.1/curl-7.61.1/lib/ftplistparser.c:326-1020 | The loop over the caller's bytes, with the buffer written in place, ends in the state of the specification automaton and always reports all bytes as taken. |
| FtpListParser.ListParser.ParseTransfer | curl/7.61.1/curl-7.61.1/lib/ftplistparser.c:326-1020 | A whole transfer of any chunks leaves the object in the state of one call with the concatenated bytes. |
| FtpListRoundTrip.PermissionRoundTrip | curl/7.61.1/curl-7.61.1/lib/ftplistparser.c:206-269 | The nine-letter text of every mode, set-id and sticky bits included, is read back to exactly the bits of the mode and never as malformed. |
| FtpListRoundTrip.LineRoundTrip | curl/7.61.1/curl-7.61.1/lib/ftplistparser.c:442-864 | From the start of a line, one line of the printed form (any type, mode, link count, owner, group, size, date, name, with any blanks and leading zeros; for links any name behind which the arrow is found, and any target) is read without error and, if the filter accepts its name and no link target holds " -> " again, appended with every field as printed, strings as far as their first NUL, the largest link count or size as unknown. |
| FtpListRoundTrip.LinkReadBackIff | curl/7.61.1/curl-7.61.1/lib/ftplistparser.c:756-862 | A printed link without NUL bytes that the filter accepts is read back, field by field, if and only if the states that look for " -> " run over its name without completing an arrow and end where they began: a byte that breaks an arrow off is not looked at again, so that "a " hides the arrow behind it. |
| FtpListRoundTrip.LinkReading | curl/7.61.1/curl-7.61.1/lib/ftplistparser.c:756-862 | The line of any other link is read as the link with another name and target that has the same text, the name ending at the first arrow that is completed, or it is an error and nothing is listed. |
| FtpListRoundTrip.ListingRoundTrip | curl/7.61.1/curl-7.61.1/lib/ftplistparser.c:355-864 | Parsing a printed listing of any length appends exactly the accepted entries, in order, described field by field, and leaves no error and no unfinished line. |
| FtpListRoundTrip.TotalLineSkipped | curl/7.61.1/curl-7.61.1/lib/ftplistparser.c:397-440 | A leading "total" line with any padding, any number and either line end is skipped and nothing is listed. |
| FtpListRoundTrip.ChunkedListingRoundTrip | curl/7.61.1/curl-7.61.1/lib/ftplistparser.c:326-1020 | The whole way: a printed listing with or without its total line, cut into any chunks, gives back the accepted entries. |
| FtpListRoundTrip.LineMeaning | curl/7.61.1/curl-7.61.1/lib/ftplistparser.c:442-864 | Every printed line, whatever the name of a link, is read as what it means: itself, or for a link whose name hides the arrow the link made by the first arrow that is completed; where no arrow is completed, or nothing follows it, the line is an error and lists nothing. |
| FtpListRoundTrip.ListingMeaning | curl/7.61.1/curl-7.61.1/lib/ftplistparser.c:355-864 | For printed listings with links of any names: an error is recorded exactly when some line means none, and the list gets exactly the accepted ones of the items meant before it, in order. |
| FtpListRoundTrip.ChunkedListingMeaning | curl/7.61.1/curl-7.61.1/lib/ftplistparser.c:326-1020 | The same into a new parser, with or without a total line and in any chunks. |
| FtpListLines.ReadTotal | curl/7.61.1/curl-7.61.1/lib/ftplistparser.c:397-440 | The converse for the first line: one that begins with "t" and is not the word "total", white space and digits, carriage returns left out, lists nothing, and neither does anything behind it. |
| FtpListLines.PermissionText | curl/7.61.1/curl-7.61.1/lib/ftplistparser.c:206-269 | Permission characters that are not malformed are the nine-letter text of a mode. |
| FtpListLines.ReadColumn | curl/7.61.1/curl-7.61.1/lib/ftplistparser.c:505-627 | Each of the columns link count, user, group and size is read as blanks, a text of its kind and a blank; otherwise nothing more is ever listed, also for a size that overflows, on which the state is not left. |
| FtpListLines.ReadLine | curl/7.61.1/curl-7.61.1/lib/ftplistparser.c:442-864 | Whatever the input at the start of a line, it begins with a line of the printed form (for a link, one whose name is readable), or nothing more is ever listed. |
| FtpListLines.EntriesAreLines | curl/7.61.1/curl-7.61.1/lib/ftplistparser.c:355-864 | The converse of the round trip: every input begins with some lines of the printed form, the list gets exactly the accepted ones of them, in order and described field by field, and everything behind them lists nothing. |
| FtpListLines.ListIsLines | curl/7.61.1/curl-7.61.1/lib/ftplistparser.c:326-1020 | For a whole response in any chunks that does not begin with a digit: it is a total line or none, then lines of the printed form, then a rest, and the list is exactly the accepted lines. |
| FtpListFilter.Compare | curl/7.61.1/curl-7.61.1/lib/ftplistparser.c:295-311 | The comparison returns 0 exactly when the name can be cut into pieces that fit the pattern, which has at most two star groups. |
| FtpListFilter.WildcardListing | curl/7.61.1/curl-7.61.1/lib/ftplistparser.c:295-324 | With the glob matcher as the filter, a printed listing with or without its total line, with links of any names and in any chunks, leaves exactly the items whose names the pattern stands for, in order and without the ambiguous links, of those read before the first line that is an error; an error is recorded exactly when there is such a line. |
| FtpListFilter.StarListsAll | curl/7.61.1/curl-7.61.1/lib/ftplistparser.c:295-311 | The pattern "*" lets every name through. |
| FtpListNtRoundTrip.LineRoundTrip | curl/7.61.1/curl-7.61.1/lib/ftplistparser.c:866-1000 | A printed Windows NT line (date, time, "<DIR>" or a size, name, any gaps, either line end) is read without error and, if the filter accepts the name, appended with every field as printed. |
| FtpListNtRoundTrip.ListingRoundTrip | curl/7.61.1/curl-7.61.1/lib/ftplistparser.c:866-1000 | Parsing a printed NT listing of any length appends exactly the accepted entries, in order. |
| FtpListNtRoundTrip.ChunkedListingRoundTrip | curl/7.61.1/curl-7.61.1/lib/ftplistparser.c:326-1020 | The same into a new parser, which detects the style by the first byte, for any cutting into chunks. |
| ResolverThreads.ThreadStepKeepsCurrent | curl/7.61.1/curl-7.61.1/lib/asyn-thread.c:272-305 | Each resolver-thread step on the record the transfer still owns keeps the ownership invariant. |
| ResolverThreads.ThreadStepKeepsAbandoned | curl/7.61.1/curl-7.61.1/lib/asyn-thread.c:292-298 | Each resolver-thread step on a record left to the thread keeps the invariant that the thread alone will release it. |
| ResolverThreads.RecordStepKeepsCurrent | curl/7.61.1/curl-7.61.1/lib/asyn-thread.c:249-261 | Each parent step (creation, polling, joining, completion, destruction) on its record keeps the ownership invariant. |
| ResolverThreads.DestroyStepKeepsCurrent | curl/7.61.1/curl-7.61.1/lib/asyn-thread.c:345-376 | Each step of destroying the async data keeps it: whoever finds the done flag set is the one who frees. |
| ResolverThreads.UseStepKeepsCurrent | curl/7.61.1/curl-7.61.1/lib/asyn-thread.c:384-562 | So does each step of thread creation, also when it fails, of polling and of waiting. |
| ResolverThreads.NextKeepsInv | curl/7.61.1/curl-7.61.1/lib/asyn-thread.c:187-562 | Every interleaved step of parent and any number of threads keeps the invariant over all records. |
| ResolverThreads.NeverTwice | curl/7.61.1/curl-7.61.1/lib/asyn-thread.c:187-376 | At every point of every interleaving each record is released at most once, nobody touches it after its release, and its address list is handed to the callback or freed at most once in all. |
| ResolverThreads.FinishedExactlyOnce | curl/7.61.1/curl-7.61.1/lib/asyn-thread.c:249-376 | In every finished run each record was released exactly once and each address list that was produced was either handed over or freed, never both and never neither. |
| ResolverThreads.InternalStepsDescend | curl/7.61.1/curl-7.61.1/lib/asyn-thread.c:272-562 | Without new commands the steps of parent and threads strictly lower a rank, so they end. |
| ResolverThreads.NoDeadlock | curl/7.61.1/curl-7.61.1/lib/asyn-thread.c:272-562 | While the parent is inside a call or a thread is alive, some step is possible. |
| ResolverThreads.Settles | curl/7.61.1/curl-7.61.1/lib/asyn-thread.c:345-562 | From every reachable state the internal steps lead, in a bounded number, to an idle parent and ended threads; after a cancel, a wait or a successful poll nothing is left behind. |
| SaslSpec.SelectIsFirst | curl/7.61.1/curl-7.61.1/lib/curl_sasl.c:280-384 | The mechanism chosen is eligible and no eligible one comes before it in the preference order; none is chosen exactly when none is eligible. |
| SaslSpec.ContinueKeepsInv | curl/7.61.1/curl-7.61.1/lib/curl_sasl.c:410-629 | Every call keeps the invariant that in a dialog the bit of the mechanism in use is still set among the offered ones. |
| SaslSpec.XorMakesReady | curl/7.61.1/curl-7.61.1/lib/curl_sasl.c:594-603 | Hence xor-ing the cancelled mechanism out of the set really removes one bit. |
| SaslSpec.RestartDescends | curl/7.61.1/curl-7.61.1/lib/curl_sasl.c:594-603 | After a cancelled dialog the next one starts with exactly one mechanism fewer. |
| SaslSpec.DialogDescends | curl/7.61.1/curl-7.61.1/lib/curl_sasl.c:451-592 | Inside a dialog the mechanisms stay and the number of steps left in it goes down. |
| SaslSpec.ContinueDescends | curl/7.61.1/curl-7.61.1/lib/curl_sasl.c:410-629 | While progress is in-progress each call lowers the pair of mechanisms left and steps left. |
| SaslSpec.RunEnds | curl/7.61.1/curl-7.61.1/lib/curl_sasl.c:253-629 | Whatever the server answers and the builders return, a run ends after at most four calls for each offered mechanism plus four. |
| SaslSpec.SuccessExactly | curl/7.61.1/curl-7.61.1/lib/curl_sasl.c:410-453 | Done with success is reported exactly in a final state on the final code, or in the stopped state on the continuation code. |
| SaslSpec.StoppedMachineLies | curl/7.61.1/curl-7.61.1/lib/curl_sasl.c:435-453 | A stopped machine that is continued all the same reports success on the continuation code: why runs must not be continued after Done. |
| SaslSpec.RunIsSafe | curl/7.61.1/curl-7.61.1/lib/curl_sasl.c:253-629 | In every run not continued after Done: success only when the last server code was the final code; every response answered a continuation code; the mechanisms tried were offered and usable, pairwise distinct, and strictly descend the preference order. |
| Sasl.SaslMachine.Start | curl/7.61.1/curl-7.61.1/lib/curl_sasl.c:253-403 | The method, field by field, does what the specification of starting does. |
| Sasl.SaslMachine.SendAuth | curl/7.61.1/curl-7.61.1/lib/curl_sasl.c:386-400 | The authentication command goes out with or without the initial response, and the state after it says which. |
| Sasl.SaslMachine.Continue | curl/7.61.1/curl-7.61.1/lib/curl_sasl.c:410-629 | The method does what the specification of continuing does. |
| Sasl.SaslMachine.Finish | curl/7.61.1/curl-7.61.1/lib/curl_sasl.c:608-628 | Cancel on an unusable challenge, response, or failure, as specified. |
| Sasl.SaslMachine.Authenticate | curl/7.61.1/curl-7.61.1/lib/curl_sasl.c:253-629 | A protocol that drives the machine with an endless supply of replies stops within the bound, with all safety properties of runs. |
| Fnmatch.ParseKeyword | curl/7.61.1/curl-7.61.1/lib/curl_fnmatch.c:81-135 | The two-state scan accepts exactly a class name that is followed by ":]" within the ten characters the code counts, and raises that flag only. |
| Fnmatch.SetCharOrRange | curl/7.61.1/curl-7.61.1/lib/curl_fnmatch.c:150-169 | A character, or a range within one kind of letters or digits, is added flag by flag. |
| Fnmatch.SetCharset | curl/7.61.1/curl-7.61.1/lib/curl_fnmatch.c:172-262 | The bracket parser fills the array with exactly the set and end position of the specification, or rejects. |
| Fnmatch.IsMember | curl/7.61.1/curl-7.61.1/lib/curl_fnmatch.c:311-337 | Membership is the character's own flag, else only the first enabled class in the code's order, negated on demand. |
| Fnmatch.Regroup | curl/7.61.1/curl-7.61.1/lib/curl_fnmatch.c:279-300 | Regrouping stars and question marks, and stopping early at the end of the pattern, does not change the answer. |
| Fnmatch.TrySuffixes | curl/7.61.1/curl-7.61.1/lib/curl_fnmatch.c:301-305 | Trying every suffix but the empty one loses nothing, since a plain token follows. |
| Fnmatch.Loop | curl/7.61.1/curl-7.61.1/lib/curl_fnmatch.c:264-357 | The backtracking loop answers whether the rest of the tokenised pattern matches declaratively within the star budget, and enters itself a bounded number of times. |
| Fnmatch.CurlFnmatch | curl/7.61.1/curl-7.61.1/lib/curl_fnmatch.c:362-370 | The result is MATCH exactly when the name can be cut into pieces that fit the tokens one by one and the pattern has at most two star groups; FAIL exactly for a missing argument; at most 1 + n + n*n entries into loop for a name of length n. |
| FnmatchSpec.StarTakesAll | curl/7.61.1/curl-7.61.1/lib/curl_fnmatch.c:279-300 | A star at the end of a pattern matches every name, empty or not. |
| FnmatchSpec.StarAny | curl/7.61.1/curl-7.61.1/lib/curl_fnmatch.c:279-300 | A star followed by a question mark matches exactly what takes one character first and then goes on with the star, which is why the code may skip the question mark's character at once. |
| FnmatchSpec.NothingLeft | curl/7.61.1/curl-7.61.1/lib/curl_fnmatch.c:301-305 | A pattern that does not begin with a star does not match the empty name, so the empty tail need not be tried. |
| FnmatchBracket.ParserIsGrammar | curl/7.61.1/curl-7.61.1/lib/curl_fnmatch.c:172-262 | The bracket parser accepts exactly the texts of a grammar (negation, leading right bracket, then the longest item at each place: a character, bare or escaped, a range with bare or escaped ends, a class), ends at their closing bracket, and builds exactly the set that the items denote. |
| FnmatchBracket.BracketRoundTrip | curl/7.61.1/curl-7.61.1/lib/curl_fnmatch.c:172-262 | Every expression of the grammar is one token of the pattern, denoting its items, and the pattern goes on behind its bracket. |
| FnmatchBracket.NoExpression | curl/7.61.1/curl-7.61.1/lib/curl_fnmatch.c:310-350 | From a left bracket on, the pattern is the one token that nothing fits exactly when no expression of the grammar stands behind the bracket, and it then matches no name. |
| FnmatchBracket.ItemUnique | curl/7.61.1/curl-7.61.1/lib/curl_fnmatch.c:150-262 | At most one item is the longest at an offset, so the reading of an expression is unique. |
| FnmatchBracket.PrintedBody | curl/7.61.1/curl-7.61.1/lib/curl_fnmatch.c:172-262 | Every non-empty list of characters, ranges and classes, in either negation, has an expression: the items one after the other with the single characters escaped. |
| FnmatchBracket.MemberMeaning | curl/7.61.1/curl-7.61.1/lib/curl_fnmatch.c:311-337 | A character is in such a set exactly when it is listed or in a listed range, or else in the first named class in the code's order, all of it negated or not. |
| FnmatchBracket.ContainsTable | curl/7.61.1/curl-7.61.1/lib/curl_ctype.c:44-131 | One class contains another exactly when its parts do, by the table of nine parts (digits, A-F, G-Z, a-f, g-z, blank, tab, the other white space, punctuation). |
| FnmatchBracket.UnionExactlyWhen | curl/7.61.1/curl-7.61.1/lib/curl_fnmatch.c:316-337 | The set is the union of its items exactly when each part of each named class is, by that table, a part of the first named class, or else has all its characters listed. |
| FnmatchBracket.ClassesUnionExactlyWhen | curl/7.61.1/curl-7.61.1/lib/curl_fnmatch.c:316-337 | Of class names alone the set is the union exactly when the table has every named class inside the first one. |
| FnmatchBracket.DigitIsLost | curl/7.61.1/curl-7.61.1/lib/curl_fnmatch.c:316-337 | A set of digits and letters by class names does not contain the digit 5. |
| GzipHeader.CheckGzipHeader | curl/7.61.1/curl-7.61.1/lib/content_encoding.c:356-431 | The function with its moving counters returns the specified verdict. |
| GzipHeader.VerdictStable | curl/7.61.1/curl-7.61.1/lib/content_encoding.c:356-431 | A verdict of OK or BAD does not change when more data follows. |
| GzipHeader.HeaderVerdict | curl/7.61.1/curl-7.61.1/lib/content_encoding.c:356-431 | On every beginning of a stream with a valid header of section 2.3 of RFC 1952 the verdict is underflow until the header is complete and exactly its length from then on. |
| GzipHeader.AcceptedExactly | curl/7.61.1/curl-7.61.1/lib/content_encoding.c:356-431 | The verdict is OK with length n exactly for data that begins with a valid header of length n. |
| GzipWriter.SplitIndependence | curl/7.61.1/curl-7.61.1/lib/content_encoding.c:434-560 | The way the data is cut into writes has no influence on the writer, the result, or the bytes that inflate sees. |
| GzipWriter.FeedHeader | curl/7.61.1/curl-7.61.1/lib/content_encoding.c:467-537 | Header bytes are kept until a verdict on all of them together; what follows the header goes on to inflate. |
| GzipWriter.FeedTrailer | curl/7.61.1/curl-7.61.1/lib/content_encoding.c:136-157 | Trailer bytes one by one come to the same as all of them at once, and a byte too many is a write error. |
| GzipWriter.InflateSeesTheBody | curl/7.61.1/curl-7.61.1/lib/content_encoding.c:434-560 | For any cutting of a stream inflate is handed exactly what follows the header, as long as it wants data. |
| GzipWriter.WholeStream | curl/7.61.1/curl-7.61.1/lib/content_encoding.c:136-560 | Once inflate is finished, eight trailer bytes are taken across any split: with fewer the writer waits for the exact rest, with eight it is done, with more the result is a write error. |
| GzipWriter.WholeTransparentStream | curl/7.61.1/curl-7.61.1/lib/content_encoding.c:331-337 | With a zlib that reads the gzip format itself, inflate sees the whole stream in any pieces, and anything behind it is a write error. |
| DeflateWriter.ZlibStream | curl/7.61.1/curl-7.61.1/lib/content_encoding.c:260-296 | However data in the zlib format is cut, inflate sees all of it in that format and there is no new start; anything behind it is a write error. |
| DeflateWriter.RawStream | curl/7.61.1/curl-7.61.1/lib/content_encoding.c:159-257 | Raw deflate data in which zlib finds its own format missing at some byte is decoded exactly when the first write leads to a new start: it reaches that byte, and the portions taken before it have given no output, which would have been passed on as zlib data. Then up to four bytes behind the data are tolerated. Otherwise the transfer fails with bad content encoding, whatever follows. |
| DeflateWriter.RawStreamSilent | curl/7.61.1/curl-7.61.1/lib/content_encoding.c:214-254 | Where zlib has no output for the data up to that byte, only the length of the first write counts: the data is decoded exactly when the first write reaches the byte. |
| Zlib.SilentBreak | curl/7.61.1/curl-7.61.1/lib/content_encoding.c:185-232 | Input that is bad before there is any output for it leads to the error quietly, in whatever portions inflate takes it. |
| Zlib.BreakIsSeen | curl/7.61.1/curl-7.61.1/lib/content_encoding.c:185-232 | A quiet error only comes from a byte at which the input is bad, with no end of the stream before it. |
| ZlibSample.FramedIsLawful | curl/7.61.1/curl-7.61.1/lib/content_encoding.c:185-232 | A small library with formats that end and that can be bad keeps the contract asked of inflate. |
| ZlibSample.FramedStreams | curl/7.61.1/curl-7.61.1/lib/content_encoding.c:185-232 | Each of its formats has an encoder whose streams are read to their ends and turned into the text again, so what the results ask of the formats can be met. |
| ZlibSample.RestartIsMissed | curl/7.61.1/curl-7.61.1/lib/content_encoding.c:203-232 | With that library, raw deflate data that can pass for zlib data up to a byte of output, all of it in the first write, fails with bad content encoding: the new start does not come. |
| ZlibWriter.Stage.ProcessTrailer | curl/7.61.1/curl-7.61.1/lib/content_encoding.c:136-157 | The trailer counter and the state after a piece of the trailer. |
| ZlibWriter.Stage.Portion | curl/7.61.1/curl-7.61.1/lib/content_encoding.c:185-212 | One call of inflate into the buffer of fixed size, its output passed on only with the statuses OK and end of stream; a refusal by the next writer ends the stage. |
| ZlibWriter.Stage.InflateStream | curl/7.61.1/curl-7.61.1/lib/content_encoding.c:159-257 | Whatever portions inflate takes and gives, the loop ends as byte-by-byte feeding does, and the next writer has got all the output there is for the bytes taken; for bad data a part of it, and after a refusal everything before the refused piece. There is a new start in raw mode with the data of this write exactly when the state was the initial one and the calls come to bad data before one of them gives output. |
| ZlibWriter.Stage.GzipWrite | curl/7.61.1/curl-7.61.1/lib/content_encoding.c:434-560 | One write in any state, header parsing or transparent, equals byte-by-byte feeding in state, code and output. |
| ZlibWriter.Stage.DeflateWrite | curl/7.61.1/curl-7.61.1/lib/content_encoding.c:280-296 | Unless the next writer refuses, one write of the deflate writer is the specified write in state, format and code, in every state, with the new start under exactly the specified condition; the next writer has the output as above. |
| ZlibCodec.WriterIsLawful | curl/7.61.1/curl-7.61.1/lib/content_encoding.c:159-257 | A writer that undoes an encoding meets the law that the stack of decoders asks for: output only grows, beginnings of encoded data are accepted, and decoding gives back what was encoded. |
| ZlibCodec.GzipUndone | curl/7.61.1/curl-7.61.1/lib/content_encoding.c:434-560 | The gzip writer for old zlib versions undoes gzip: valid header, raw deflate data, eight trailer bytes. |
| ZlibCodec.StreamsUndone | curl/7.61.1/curl-7.61.1/lib/content_encoding.c:159-257 | A writer that lets zlib read the gzip format or the zlib format and has begun undoes that format. |
| ZlibCodec.GzipPipeline | curl/7.61.1/curl-7.61.1/lib/content_encoding.c:434-987 | A body sent under any recognised list of encodings, gzip done by the gzip writer, is delivered as it was, whatever the pieces. |
| ZlibCodec.Transfer | curl/7.61.1/curl-7.61.1/lib/content_encoding.c:434-560 | Pieces written one after the other to a gzip stage: it fails exactly when the decoder does not accept the data, unless the next writer refuses, and else the next writer has received exactly the decoded data. |
| ZlibCodec.DeflateTransfer | curl/7.61.1/curl-7.61.1/lib/content_encoding.c:159-296 | Pieces written one after the other to a new deflate stage: unless the next writer refuses, state, format and code are those of the specified writes, and the next writer has received all the output there is for the bytes taken in that format, after bad data a beginning of it. |
| ZlibCodec.ZlibDelivered | curl/7.61.1/curl-7.61.1/lib/content_encoding.c:159-296 | For the zlib encoding of a body, cut anyhow, the specified writes end well and their output is the body. |
| ZlibCodec.RawDelivered | curl/7.61.1/curl-7.61.1/lib/content_encoding.c:159-296 | For a raw deflate encoding that zlib finds bad at some byte, their output is the body exactly when the first write leads to a new start, and else they fail with bad content encoding. |
| ZlibCodec.DeflaterIsRunning | curl/7.61.1/curl-7.61.1/lib/content_encoding.c:159-296 | Data in which zlib finds nothing bad passes a new deflate writer as it passes one that has begun, which is the lawful decoder of the stack. |
| ContentEncodingSpec.StackInvertsEncoding | curl/7.61.1/curl-7.61.1/lib/content_encoding.c:900-906 | Writing en(...e1(body)), in any pieces, to the decoders stacked for e1 to en delivers body to the client. |
| ContentEncodingSpec.PushDecoders | curl/7.61.1/curl-7.61.1/lib/content_encoding.c:939-987 | Pushing recognised names one after the other gives the decoders in the order in which they must undo the encodings, above the client writer. |
| ContentEncodingSpec.PipelineInverse | curl/7.61.1/curl-7.61.1/lib/content_encoding.c:880-987 | For a header value that lists recognised encodings, with any blanks and empty items, a body encoded in the listed order is delivered as it was (section 3.1.2.2 of RFC 7231). |
| ContentEncodingSpec.NothingPassesError | curl/7.61.1/curl-7.61.1/lib/content_encoding.c:845-861 | Behind an unknown encoding the client never gets a byte. |
| ContentEncodingSpec.UnknownOnTop | curl/7.61.1/curl-7.61.1/lib/content_encoding.c:939-987 | An unknown encoding in the list is no error by itself; with it on top every non-empty write fails and no empty one does. |
| ContentEncoding.Request.BuildStack | curl/7.61.1/curl-7.61.1/lib/content_encoding.c:939-987 | The scan over the header value pushes exactly the names between commas, trimmed, empty ones skipped, and notes a chunked coding when asked to. |
| ContentEncoding.Request.ParseName | curl/7.61.1/curl-7.61.1/lib/content_encoding.c:949-958 | One turn of the scan takes exactly the next name off the list of names. |
| ContentEncoding.Request.Write | curl/7.61.1/curl-7.61.1/lib/content_encoding.c:900-906 | A write runs down the stack as specified, also when a stage fails. |
| ContentEncoding.Request.Cleanup | curl/7.61.1/curl-7.61.1/lib/content_encoding.c:909-921 | Every stage is closed exactly once, from the top down. |
| ContentEncoding.Request.Receive | curl/7.61.1/curl-7.61.1/lib/content_encoding.c:900-987 | Building the stack from the header and writing a correctly encoded body in any pieces gives the client the body. |
| HashSpec.DroppedSound | curl/7.61.1/curl-7.61.1/lib/hash.c:139-153 | Removing the element for a key from its slot removes exactly that key from the map and keeps the placement invariant. |
| HashSpec.AppendedSound | curl/7.61.1/curl-7.61.1/lib/hash.c:124-128 | Appending a new key at the tail of its slot adds exactly that pair to the map. |
| HashSpec.FoundInMap | curl/7.61.1/curl-7.61.1/lib/hash.c:159-176 | Searching one slot finds exactly what the map has under the key. |
| HashSpec.SizeIsKeys | curl/7.61.1/curl-7.61.1/lib/hash.c:109-153 | A sound table has as many elements as its map has keys. |
| Hash.HashTable.constructor | curl/7.61.1/curl-7.61.1/lib/hash.c:56-82 | A new table stands for the empty map. |
| Hash.Init | curl/7.61.1/curl-7.61.1/lib/hash.c:56-82 | Initialisation fails exactly for zero slots or without memory, and else gives a table that stands for the empty map. |
| Hash.HashTable.Destroy | curl/7.61.1/curl-7.61.1/lib/hash.c:204-216 | Every list is emptied from its tail, slot by slot; nothing is left, and the stored values are destroyed in that order. |
| Hash.DestroyedOnce | curl/7.61.1/curl-7.61.1/lib/llist.c:133-139 | The values destroyed are, with multiplicity, those that cleaning with a criterium that spares nothing destroys. |
| Hash.HashTable.Add | curl/7.61.1/curl-7.61.1/lib/hash.c:108-132 | Insertion is map update; when memory fails the key is gone; the value that was there is destroyed exactly once. |
| Hash.HashTable.Delete | curl/7.61.1/curl-7.61.1/lib/hash.c:139-153 | Deletion is map removal, reported truthfully, and destroys the removed value once. |
| Hash.HashTable.Pick | curl/7.61.1/curl-7.61.1/lib/hash.c:159-176 | Lookup is map lookup, NULL standing for both a missing key and a stored NULL. |
| Hash.HashTable.SizeCountsKeys | curl/7.61.1/curl-7.61.1/lib/hash.c:109-153 | The size field of a valid table is the number of keys of its map. |
| Hash.HashTable.CleanWithCriterium | curl/7.61.1/curl-7.61.1/lib/hash.c:229-255 | One walk with removals leaves exactly the elements that the criterium spares, in order, and destroys the values of the others once each, in walk order. |
| Hash.SparedMap | curl/7.61.1/curl-7.61.1/lib/hash.c:229-255 | On the map this is the restriction to the keys whose values are spared. |
| HashWalk.NextTakesFirst | curl/7.61.1/curl-7.61.1/lib/hash.c:288-315 | Each call of the iterator delivers the first element that is left, and nothing once none is left. |
| HashWalk.FullIteration | curl/7.61.1/curl-7.61.1/lib/hash.c:280-315 | Any number of calls delivers every element exactly once, in slot order, and then nothing any more. |
| HashWalk.RemoveBehind | curl/7.61.1/curl-7.61.1/lib/hash.c:288-315 | Removing an element that was already passed leaves the iterator good and its remaining elements unchanged. |
| Hash.HashIterator.NextElement | curl/7.61.1/curl-7.61.1/lib/hash.c:288-315 | The method delivers the first of the elements left and stays at the end. |
| ConnCache.Bundle.AddConn | curl/7.61.1/curl-7.61.1/lib/conncache.c:98-105 | The connection is last in the list, counted, and points back. |
| ConnCache.Bundle.RemoveConn | curl/7.61.1/curl-7.61.1/lib/conncache.c:108-124 | The first list element that is this connection is removed and uncounted, its back pointer cleared; the answer says whether it was there. |
| ConnCache.ConnCache.BooksBalance | curl/7.61.1/curl-7.61.1/lib/conncache.c:98-124 | In a valid cache num_conn is the sum of the bundle counts, each count is the length of its list, and a connection points at a bundle exactly when it is in the list of that bundle. |
| ConnCache.ConnCache.FindBundle | curl/7.61.1/curl-7.61.1/lib/conncache.c:214-226 | The bundle filed under the key of the connection, or none when the key is unknown. |
| ConnCache.ConnCache.AddConn | curl/7.61.1/curl-7.61.1/lib/conncache.c:261-303 | The invariant is kept; success exactly when there was a bundle for the key or memory for one; then the connection is in the bundle filed under its key, behind all others, with a fresh number; on failure nothing changes. No bundle is destroyed. |
| ConnCache.ConnCache.RemoveBundle | curl/7.61.1/curl-7.61.1/lib/conncache.c:237-259 | The walk finds the one entry of the bundle and deletes exactly that entry, which destroys the bundle once; for a bundle that is not filed it changes nothing. |
| ConnCache.ConnCache.RemoveConn | curl/7.61.1/curl-7.61.1/lib/conncache.c:305-330 | The invariant is kept; the connection is out of the walk and nothing else is; its bundle and hash entry go exactly when it was the last one in it; a connection without bundle changes nothing, so an extracted one is never counted down twice. |
| ConnCacheLists.LinkAdded | curl/7.61.1/curl-7.61.1/lib/conncache.c:98-105 | Adding one connection keeps the correspondence of back pointers and lists. |
| ConnCacheLists.LinkCut | curl/7.61.1/curl-7.61.1/lib/conncache.c:108-124 | So does cutting one out. |
| ConnCacheLists.MembersDistinct | curl/7.61.1/curl-7.61.1/lib/conncache.c:344-381 | No connection is met twice in a walk. |
| ConnCacheLists.DropBehind | curl/7.61.1/curl-7.61.1/lib/conncache.c:237-259 | Deleting the hash entry of a bundle that the iterator has passed does not disturb the iterator. |
| ConnCacheWalk.CutOne | curl/7.61.1/curl-7.61.1/lib/conncache.c:363-378 | A callback that removes the connection it is given, possibly with the bundle and the entry, leaves the walk where it must go on. |
| ConnCacheWalk.LeaveBundle | curl/7.61.1/curl-7.61.1/lib/conncache.c:360-366 | After a bundle the walk stands before the next one, whether or not the entry is still there. |
| ConnCacheWalk.WalkMembers | curl/7.61.1/curl-7.61.1/lib/conncache.c:344-381 | During a walk the cache holds the survivors so far and everything not yet visited. |
| ConnCacheWalk.SurvivorIff | curl/7.61.1/curl-7.61.1/lib/conncache.c:344-381 | The survivors are exactly the connections that the callback did not remove. |
| ConnCache.ConnCache.Foreach | curl/7.61.1/curl-7.61.1/lib/conncache.c:344-381 | The callback is called exactly once for each connection present at the start, in walk order, even when it removes the connection it is given; the walk ends early exactly after the first call that asks for it, and TRUE says so; afterwards exactly the removed connections are missing. |
| ConnCache.ConnCache.ExtractBundle | curl/7.61.1/curl-7.61.1/lib/conncache.c:454-494 | The first of the idle connections of greatest non-negative age in the bundle is taken out, or none if there is none. |
| ConnCache.ConnCache.ExtractOldest | curl/7.61.1/curl-7.61.1/lib/conncache.c:502-557 | The same over the whole cache; the invariant is kept, and only that connection leaves. |
| ConnCache.ConnCache.FindFirst | curl/7.61.1/curl-7.61.1/lib/conncache.c:389-412 | The first connection that a walk meets, skipping empty bundles, or none exactly when the cache is empty. |
| ConnCache.ConnCache.ReturnConn | curl/7.61.1/curl-7.61.1/lib/conncache.c:420-443 | Over the limit the oldest idle connection is extracted and closed, counted down once though disconnecting asks for its removal again; FALSE exactly when it is the connection itself. |
| Dotdot.Shorten | curl/7.61.1/curl-7.61.1/lib/dotdot.c:124-130 | The backward loop removes the last segment with its slash from the output. |
| Dotdot.MoveSegment | curl/7.61.1/curl-7.61.1/lib/dotdot.c:159-163 | The forward loop moves the first path segment to the output. |
| Dotdot.Round | curl/7.61.1/curl-7.61.1/lib/dotdot.c:89-164 | One round over the two buffers is one step of the procedure of section 5.2.4 of RFC 3986, and whatever it writes it ends with a terminator. |
| Dotdot.Dedotdotify | curl/7.61.1/curl-7.61.1/lib/dotdot.c:53-180 | The buffer up to the write position is the path before the "?" rewritten by that procedure, followed by the query, and fits the input-sized buffer. The buffer is a C string with that content exactly for inputs that have a query or more in their path than "./" and "../" prefixes; for the others it is as the allocation left it. |
| DotdotSpec.RewriteIsStack | curl/7.61.1/curl-7.61.1/lib/dotdot.c:89-166 | The rewriting procedure is the fold over the "/"-separated segments in which "." stays, ".." pops, and anything else is pushed. |
| DotdotSpec.OutputIsClean | curl/7.61.1/curl-7.61.1/lib/dotdot.c:89-166 | The output has no "." and no ".." segment, and rewriting it again changes nothing. |
| Dotdot.ResultParts | curl/7.61.1/curl-7.61.1/lib/dotdot.c:168-176 | The query of the result is the query of the input, the path part is the rewritten path without dot segments, and the result is not longer than the input. |
| Dotdot.Idempotent | curl/7.61.1/curl-7.61.1/lib/dotdot.c:53-180 | Removing dot segments is idempotent, and a result may be passed in again exactly when a path is left or there is no query. |
| Dotdot.AbsoluteIdempotent | curl/7.61.1/curl-7.61.1/lib/dotdot.c:53-180 | For an input that begins with "/" the result does too, may be passed in again, and stays as it is. |
| Base64.RoundTrip | curl/7.61.1/curl-7.61.1/lib/base64.c:99-271 | Decoding the encoding of any non-empty byte string gives it back (section 4 of RFC 4648). |
| Base64.EncodeOfDecode | curl/7.61.1/curl-7.61.1/lib/base64.c:45-271 | Encoding what was decoded gives the string back exactly when the bits that no byte takes up are zero. |
| Base64.DecodedLength | curl/7.61.1/curl-7.61.1/lib/base64.c:134-138 | A well-formed string decodes to three bytes for every four characters, less its padding. |
| Base64.BufferSuffices | curl/7.61.1/curl-7.61.1/lib/base64.c:197-260 | The size n * 4 / 3 + 4 always holds the result and its NUL, and is used up exactly when n mod 3 is 1. |
| Base64Codec.MaskedSixes | curl/7.61.1/curl-7.61.1/lib/base64.c:227-232 | The masks and shifts of the encoder are the four 6-bit values of the 24-bit group. |
| Base64Codec.Base64Encode | curl/7.61.1/curl-7.61.1/lib/base64.c:170-271 | The loop writes the encoding of the data, NUL-terminated, into a buffer of that size and returns its length. |
| Base64Codec.Lookup | curl/7.61.1/curl-7.61.1/lib/base64.c:57-66 | The search through the table succeeds exactly for characters of the alphabet, with their value. |
| Base64Codec.DecodeQuantum | curl/7.61.1/curl-7.61.1/lib/base64.c:45-83 | Four characters give 3 minus as many bytes as there are "=" among them, in any place and wrapping around for four, and 0 when one of the others is not in the alphabet; the first byte is always written. |
| Base64Codec.Base64Decode | curl/7.61.1/curl-7.61.1/lib/base64.c:99-168 | Success exactly for a non-empty multiple of four alphabet characters of which at most two at the end are "="; then exactly rawlen bytes and a NUL are written, and they are the decoded ones. |
| Escape.RoundTrip | curl/7.61.1/curl-7.61.1/lib/escape.c:79-203 | Unescaping an escaped byte string gives it back, zero bytes included. |
| Escape.OutputAlphabet | curl/7.61.1/curl-7.61.1/lib/escape.c:93-132 | Escaped text has only unreserved characters and "%" followed by two upper-case hexadecimal digits (sections 2.1 and 2.3 of RFC 3986). |
| Escape.EscapeOfUnescape | curl/7.61.1/curl-7.61.1/lib/escape.c:79-203 | Escaping what was unescaped gives the text back exactly for text in the form that escaping produces. |
| EscapeCodec.PutEscaped | curl/7.61.1/curl-7.61.1/lib/escape.c:101-130 | One doubling at most, and it makes room for the character at hand, its triplet and the NUL. |
| EscapeCodec.EasyEscape | curl/7.61.1/curl-7.61.1/lib/escape.c:79-133 | The result is the escaped text with its NUL, in a buffer that started at the input size and was doubled at most twice; NULL exactly for a negative length. |
| EscapeCodec.UrlDecode | curl/7.61.1/curl-7.61.1/lib/escape.c:145-203 | The result is the unescaped text and its length; an error exactly when control characters are unwanted and the result has one. |
| Hmac.Prime | curl/7.61.1/curl-7.61.1/lib/hmac.c:83-97 | The two byte loops feed both contexts the key block, filled up with zeros, xor-ed with the two pads. |
| Hmac.HmacContext.constructor | curl/7.61.1/curl-7.61.1/lib/hmac.c:50-101 | A context for any key length: long keys are hashed first. |
| Hmac.HmacContext.Update | curl/7.61.1/curl-7.61.1/lib/hmac.c:103-110 | The message so far grows by the data. |
| Hmac.HmacContext.Final | curl/7.61.1/curl-7.61.1/lib/hmac.c:113-130 | The result is H((K xor opad) followed by H((K xor ipad) followed by message)) of section 2 of RFC 2104. |
| Hmac.Digest | curl/7.61.1/curl-7.61.1/lib/hmac.c:50-130 | For any splitting of a message over update calls the result is that of the whole message. |
| Hostcheck.Trim | curl/7.61.1/curl-7.61.1/lib/hostcheck.c:76-82 | One trailing dot is cut off in the buffer. |
| Hostcheck.LabelsIff | curl/7.61.1/curl-7.61.1/lib/hostcheck.c:110-126 | The code's label comparisons hold exactly when the host equals, ignoring case, pre + w + suf + .rest for some non-empty w without dots. |
| Hostcheck.Hostmatch | curl/7.61.1/curl-7.61.1/lib/hostcheck.c:66-127 | The match is the declarative rule of section 6.4.3 of RFC 6125 on the names without trailing dots: wildcard rule for an enabled wildcard and a host that is no address, whole-name equality otherwise. |
| Hostcheck.CertHostcheck | curl/7.61.1/curl-7.61.1/lib/hostcheck.c:129-151 | The same on copies, and nothing matches an empty name. |

## Left out

- Allocation failure is modelled only where a property needs it: insertion into the hash table, adding a connection, constant SASL responses, creating a resolver record.
- Integer widths: sizes, offsets and lengths are unbounded, so wrap-around of `item_length`, of the NT size field and of 32-bit size checks in the base64 encoder is not modelled; link counts and file sizes do follow the overflow results of `strtol` and `curlx_strtoofft`.
- FTP entries that are not links: saved offsets are not reset between lines, so nothing is said about the link target of such an entry.
- The name filter of the FTP parser is any predicate on names, the glob matcher in FtpListFilter; a matcher set by the application, and the begin and end callbacks of a transfer, are not part of this model.
- ResolverThreads.DestroyStepKeepsCurrent: setting the flag and detaching the thread is one step, because the C code reads the thread handle after releasing the mutex (lib/asyn-thread.c:361); the order of that later read against the thread's own end is not modelled.
- The poll interval, timers and file descriptors of the resolver, and the variant for builds without `getaddrinfo`.
- Decoding of the server's mechanism list and of URL options in curl_sasl.c, and the content of SASL messages; the set of mechanisms is an input.
- ZlibWriter.Stage.InflateStream: inflate is any library that keeps the contract in module Zlib: it takes bytes until the end or an error and makes progress while there is input or output left; how it decodes, its other statuses (they end in bad content encoding), failing allocations of the buffers or of the new start in raw mode, and errors of inflateEnd are not modelled.
- ContentEncodingSpec.PipelineInverse: a decoder's output for one write is one piece for the stage below, which ZlibCodec.Transfer shows to make no difference for gzip; brotli is known by its law only.
- Initialisation results of the decoders and clients that ignore the body.
- Hash.HashTable.constructor: requires at least one slot; Hash.Init is the function that may fail.
- Hostcheck.CertHostcheck: a NULL name is the same as an empty one.
- Hash functions: any function into the slots; the string hash of lib/hash.c:257-269 is one instance, and key comparison is equality.
- Freeing the slot array after Curl_hash_destroy; Curl_hash_clean is the walk with a criterium that spares nothing.
- Locking of a shared connection cache, and the connections' own network state.
- ConnCache.ConnCache.Foreach: the callback may remove the connection it is given; a callback that removes others is outside the contract of the C function.
- ConnCache.ConnCache.AddConn: requires that the connection is in no bundle, as all callers ensure; two hosts whose printed keys are equal after the cut at 127 characters share a bundle.
- Closing all connections (lib/conncache.c:559-588): the loop ends only when disconnecting really removes the connection, which it does not for one in use; disconnecting itself is not part of this model.
- Dotdot.Dedotdotify: requires a non-empty part before a "?", since with an empty one the C loop copies the cut-off terminator and reads on behind it, so that the code fixes no result.
- FtpListRoundTrip.LineRoundTrip: requires a line of the printed form and, for a link, a readable name; LineMeaning has the other links, and FtpListLines.ListIsLines shows that nothing else is listed. The converse for Windows NT listings is not part of this model.
- Character set conversion in the base64 and percent codecs, and realloc failure.
- Hmac.Digest: the hash is a function of all bytes fed to it, with digests of a fixed size that is not larger than a block; a caller of the three HMAC functions, not a function of the repository.
- Recognising an IP address in lib/hostcheck.c is a parameter.
- The rest of the library: sockets, address retries, protocols, TLS backends, cookies, forms, easy and multi interfaces; foreign code such as zlib, brotli, DES, MD4, MD5, GSSAPI and SSPI.
