# aura-httpd in Dafny

aura-httpd serves the nodes of an aura network over HTTP. This project models the parts of it that
compute, parse or keep state, in the form the source has (methods over arrays, fields and loops where it
works in place, functions where it computes), and proves what they are for.

| file | models |
|---|---|
| `Text`, `Wrappers` | C library calls on bytes: `strchr`, `strstr`, `strtoul`, `printf` of numbers |
| `Utf8`, `Utf8Bits` | `putc_utf8`, on numbers and on the bits of words, and a decoder after section 4 of RFC 3629 |
| `EntityLookup`, `EntityTable` | the prefix comparator, `bsearch`, and all 253 rows of the entity table |
| `Entity`, `EntityLaws`, `EntityMeaning` | the HTML entity decoder, in place or into another buffer; the page's escaping; what references mean |
| `ContentDisposition` | names taken out of a Content-Disposition header |
| `Extents` | peeking into a chain of extents and dumping them into a file |
| `Multipart`, `MultipartRoundTrip` | the multipart upload parser, and the printer it undoes |
| `CallServer`, `CallServerLaws`, `CallNode`, `CallProtocol` | asynchronous calls: server and node as functions and as callbacks, then pages over a lossy network |
| `Serdes`, `SerdesLaws` | the three loops that interpret a format string |
| `UploadQueue`, `UploadQueueLaws`, `UploadOutcomes` | the upload queue of the drop zone: what it keeps, and what becomes of each file |
| `Squash` | the bisection of `detectVerticalSquash` |
| `BufferModule` | the upload module that keeps uploads in memory |

Bytes are chars below 256 and a C string is a stretch of an array up to its first NUL. An evbuffer is
the string of its bytes, or a list of extents where extents matter. The registry of an evhttp server is a
map from path to object. A method that runs an algorithm as the source does is proved equal to a function,
and the theorems are about that function.

## What the code does not do

Where the code falls short of its documentation or of what its callers would expect, there is a theorem
with an input on which it does, and one with the condition under which it does not.

- `include/aura-httpd/entity.h` promises the length of the decoded text. A reference to code point zero
  (`&#;`, `&#0;`, `&#x 0x00;`: `EntityLaws.TextsThatDecodeToNul`) puts a NUL byte into it, and the returned
  length is what `strlen` sees if and only if the text has no such reference
  (`EntityLaws.ReturnedLengthIsStrLen`).
- Section 5.1.1 of RFC 2046 lets a part contain the delimiter anywhere but at the start of a line. The
  parser searches for it anywhere: `MultipartRoundTrip.LegalContentCutShort` is a legal content that is cut
  short. A whole body is delivered if and only if the delimiter is in none of the contents
  (`MultipartRoundTrip.BodyDelivered`).
- The same section allows a preamble. The parser keeps the position of the first delimiter, drains
  everything before the data, and reads the data from that position on, so a preamble shifts the data by its
  own length: one line of it and `hello!` is saved as `lo!`, CR, LF, `-` (`MultipartRoundTrip.PreambleSpoils`).
  The body survives if and only if the first content's bytes also stand that much further on
  (`MultipartRoundTrip.PreambleDelivered`).
- The search for `name="` in a header also finds it at the end of a longer word: `filename="x"; name="b"` and
  `nickname="x"; name="b"` have the name `x` (`ContentDisposition.NameMistaken`). The search is right if and
  only if no `name="` that ends a longer word or is quoted stands before the parameter
  (`ContentDisposition.NameSearch`); where one does, its value is given instead
  (`ContentDisposition.NameExtracted`), and after a file name that is the file name
  (`ContentDisposition.NameFoundInFilename`).
- A result read over two connections is freed by both when they close: always
  (`CallServerLaws.TwoReadersCorrupt`), and in a run of six steps (`CallServerLaws.TwoReadersRun`); closing
  frees twice if and only if the hook's call is gone (`CallServerLaws.CloseKeeps`).
- A connection that outlives the unmounting frees again if and only if its hook is armed
  (`CallServerLaws.CloseAfterUnmount`), as after any result that was just read
  (`CallServerLaws.UnmountedTooEarly`).
- No readout ever shows the status `dead`, because a completed call is answered with its result
  (`CallServerLaws.ReadoutTruthful`).
- `callid` is a C `int` that wraps. A new call keeps the registry sound if and only if no live call has
  its path (`CallServerLaws.CreateKeeps`), which holds as long as fewer than 2^32 calls are numbered while
  one is live (`CallServerLaws.WindowGivesFreshPath`); calls that fail to start use up numbers too, and
  2^32 - 1 of them are enough (`CallServerLaws.WrappedPathIsTaken`). Runs of the model accept a call only
  at a free path; in runs of fewer than 2^32 steps every next path is free
  (`CallServerLaws.ShortRunsHaveFreshPaths`, `CallProtocol.ShortRunsHaveFreshPaths`).
- `auraCallAsync` does not pass `arg` on to the poll. A handler gets its `arg` if and only if it is told of a
  failure or the call was synchronous (`CallProtocol.ArgReachesHandler`); `CallProtocol.ArgLost` is a run in
  which it goes without.
- A string given for a binary field is put into the buffer, quotes and all, but never taken out, so later
  fields are read from the wrong place: an empty string makes a following 5 come back as 34
  (`SerdesLaws.StringShiftsFields`). Filling and reading back meet if and only if no binary field is given a
  string (`SerdesLaws.RoundTrip`).
- The upload module's pointer to the buffer in the making outlives that buffer. A refused upload frees it
  twice, and so does the upload after one whose body is cut off after header lines
  (`BufferModule.FreedTwice`); a part without header lines is put into no buffer at all. An upload stays
  within its memory if and only if none of this is the case (`BufferModule.PostSafe`).
- Dropping a buffer never gives its bytes back to the quota: an upload fits if and only if it fits beside
  everything ever accepted (`BufferModule.QuotaIsForGood`).
- A failed request fails every one of its files once for each of them; this is proved to change nothing after
  the first time (`UploadQueueLaws.FailedReply`).

## Model

| member | source | states |
|---|---|---|
| Utf8.EncodeThenDecode | entity.c:285-320 | For every code point, surrogates included: the bytes have the shortest length that section 3 of RFC 3629 allows, and a decoder of its grammar gets the code point back whatever follows, exactly when it is no surrogate |
| Utf8.DecodeThenEncode | entity.c:285-320 | Every well-formed sequence is what the encoder writes for its code point, so overlong forms and surrogates are not among them |
| Utf8.EncodePrefixFree | entity.c:285-320 | No encoding is a prefix of another one, and none is shared by two code points |
| Utf8Bits.PutcWordsAreEncode | entity.c:285-320 | On all 2^64 words the shifts, masks and ors of the source are, bit for bit, the bytes that the encoder on numbers gives for the word's number, and none beyond 0x10FFFF; so the casts to bytes lose nothing |
| Utf8Bits.NumberInjective | entity.c:285-320 | Different words stand for different numbers, so nothing is confused by that reading |
| EntityLookup.CompareZero | entity.c:270-275 | The comparator says "equal" exactly when the key is a prefix of the name |
| EntityLookup.CompareMonotone | entity.c:270-275 | The comparator is monotone over ascending keys none of which is a prefix of the other: what bisection needs |
| EntityLookup.KeysPrefixFree | entity.c:14-268 | Keys with their only semicolon at the end are prefix-free |
| EntityLookup.LookupUnique | entity.c:277-283 | At most one key is a prefix of a name, so any hit is the hit of a linear scan |
| EntityLookup.GetNamedEntity | entity.c:277-283 | Binary search under the prefix comparator returns, for every name and valid table, what a linear scan finds: the unique key that is a prefix, or nothing exactly when there is none |
| EntityLookup.HitEndsAtFirstSemicolon | entity.c:349-356 | On a hit the first semicolon after the ampersand is the last byte of the key, so the two ways the code finds the end of the reference agree |
| EntityTable.NamedEntitiesValid | entity.c:14-268 | The source's own table, all 253 rows, is strictly ascending, has semicolons only at the ends of keys, and no row is longer than what it replaces |
| EntityTable.NamedEntitiesEscapes | entity.c:14-268 | The table has the three entities that the page's escaping uses |
| Entity.ReferenceShrinks | entity.c:322-360 | No decoded reference is longer than its text, for every number strtoul accepts and every row of a valid table |
| Entity.DecodeShrinks | include/aura-httpd/entity.h:11-17 | Decoding never lengthens a text |
| Entity.ParseEntity | entity.c:322-360 | Writes just the replacement and moves both pointers past it, or moves and writes nothing exactly when the text does not begin with a reference |
| Entity.DecodeHtmlEntities | entity.c:362-388 | In place or into another buffer, what memory holds is the recursive decoding of the original text and a NUL, the returned length is its length, and memory beyond the original text is untouched |
| EntityLaws.ReferenceNul | entity.c:328-344 | A reference yields a NUL byte exactly when it is a number sign, optional `x`, what strtoul skips, zeros or nothing, and a semicolon |
| EntityLaws.DecodeNul | entity.c:362-388 | The decoding is free of NUL exactly when the text has no reference to zero |
| EntityLaws.TextsThatDecodeToNul | entity.c:328-344 | `&#;`, `&#0;` and `&#x 0x00;` are such references and decode to a text with a NUL |
| EntityLaws.ReturnedLengthIsStrLen | include/aura-httpd/entity.h:11-17 | The returned length is what strlen sees exactly when the text has no reference to zero |
| EntityLaws.ThreePassesAreOne | www/utils.js:10 | The three passes in turn replace each character once: no pass touches what an earlier one put in |
| EntityLaws.DecodeEscape | www/utils.js:10 | Decoding undoes escaping for every string, with any valid table that knows the three entities |
| EntityLaws.PageTextSurvives | www/utils.js:10 | The same for the source's own table, with no condition left |
| EntityLaws.StrToUlDigits | entity.c:328-344 | Reading back a run of digits gives its value, up to the overflow of a 64-bit unsigned long |
| EntityLaws.NumericReferenceDecodes | entity.c:328-344 | A number of any length in either base and case, with leading zeros or not, becomes its UTF-8 bytes, or stays as written exactly when it is beyond Unicode |
| EntityLaws.CodePointRoundTrip | entity.c:322-388 | A code point printed as a reference, decoded, and read as UTF-8 is itself, and the rest of the text is decoded independently |
| EntityMeaning.NamedReferenceDecodes | entity.c:349-356 | For every valid table and row: `&` and the key become the UTF-8 bytes of the row's code point, a reader of UTF-8 gets that code point back, and the rest is decoded independently |
| EntityMeaning.EveryEntityDecodes | entity.c:14-268 | The same for each of the 253 rows of the source's table, none of which a numeric reference hides |
| EntityMeaning.DigitsByPlace | entity.c:328-344 | A digit of either case is worth its place among the sixteen |
| EntityMeaning.StrToUlPrefixed | entity.c:328-344 | Spaces, a sign and in base 16 an `0x` are stepped over, a negative number is taken modulo 2^64, and a larger one is reported as out of range |
| EntityMeaning.ReferenceShape | entity.c:322-360 | A reference ends at the first semicolon after its ampersand, if it is one at all |
| EntityMeaning.NoSemicolonStays | entity.c:325-327 | A text without a semicolon is its own decoding, ampersands included |
| EntityMeaning.UnknownStays | entity.c:362-388 | An ampersand that begins no reference stays, with the text up to the next one |
| EntityMeaning.TooLargeStays | entity.c:335-342 | A number beyond Unicode stays as written, and the rest is decoded independently |
| ContentDisposition.SanitizeString | fs_upload.c:47-55 | In memory, every slash and nothing else becomes an underscore, and the length stays |
| ContentDisposition.ExtractKeyValue | fs_upload.c:57-83 | A fresh C string with what the quotes hold, decoded, cut at a NUL and with slashes replaced; null exactly when the key is not there |
| ContentDisposition.NameRoundTrip | fs_upload.c:57-83 | A name that was escaped into a header, up to a quote or the end of it, comes out again with its slashes replaced, and unchanged exactly when it has none |
| ContentDisposition.NoSlash | fs_upload.c:47-83 | No header makes a name with a slash, not even through a numeric reference |
| ContentDisposition.NameSearch | fs_upload.c:66-74 | The search for `name="` ends at the parameter `name`, outside quotes and at the start of a word, or finds nothing where there is none, exactly when no `name="` of another kind comes first |
| ContentDisposition.NameExtracted | fs_upload.c:57-83 | Without such a decoy the name is the parameter's value; with one it is the first decoy's, so it is right exactly when the two values are one |
| ContentDisposition.NameFoundInFilename | fs_upload.c:57-97 | A file name with no `name="` before it is such a decoy, and both names come out as its value |
| ContentDisposition.NameMistaken | fs_upload.c:66-74 | `filename="x"; name="b"` and `nickname="x"; name="b"` yield the name `x` for `b`, and their first halves `x` for none |
| Extents.Peek | fs_upload.c:176-191 | The environment's evbuffer_peek: the least number of extents that hold the bytes, and as many of them as fit |
| Extents.CoversUnique | fs_upload.c:176-191 | That number is unique |
| Extents.PeekRealloc | fs_upload.c:176-191 | Ends, after at most one retry, with an array that holds all extents needed, reallocated exactly when the given one was too short |
| Extents.DumpIovec | fs_upload.c:149-162 | However bytes are split into extents, empty ones included, the loop ends and has written just the first `length` |
| Extents.SaveData | fs_upload.c:272-279 | Peeking and dumping together are a flat copy |
| Multipart.Parser.HandleHeaderLine | fs_upload.c:199-219 | The module gets the key and value of the line and nothing else; stop on an empty line or an objection |
| Multipart.Parser.HandleHeaderLines | fs_upload.c:241-250 | The loop over header lines consumes and reports what the recursive reading does |
| Multipart.Parser.HandleNextFile | fs_upload.c:221-298 | One part: result, remaining input and reported events agree with the functional parser, on every input |
| Multipart.Parser.HandleUpload | fs_upload.c:330-342 | The loop over parts agrees with the recursive parse of the whole body and ends for every body |
| Multipart.NextFile | fs_upload.c:233-293 | A round that asks for another has consumed at least a delimiter |
| Multipart.ErrorEndsFile | fs_upload.c:253-298 | A part after which the loop goes on left no error behind |
| MultipartRoundTrip.NoStraddling | fs_upload.c:257-273 | A delimiter cannot straddle the line end before the real one: an early match lies in the content |
| MultipartRoundTrip.FindDelimiter | fs_upload.c:257-273 | The search ends at the real delimiter exactly when the content holds none |
| MultipartRoundTrip.KeyValueOf | fs_upload.c:209-211 | A header line with any number of spaces after the colon, none included, gives its key and its value |
| MultipartRoundTrip.PartParsed | fs_upload.c:221-298 | For every module and log, a printed part makes the module hear its headers and content in order, up to its first objection, and leaves the input at the next delimiter |
| MultipartRoundTrip.UploadOfRender | fs_upload.c:221-342 | Parsing undoes printing for every module, boundary, list of parts and epilogue; it ends well, or at the module's first objection |
| MultipartRoundTrip.RoundTrip | fs_upload.c:221-342 | For a module that accepts everything, the same headers and contents in the same order, and result 0 |
| MultipartRoundTrip.ContentDelivered | fs_upload.c:257-279 | A content comes through whole exactly when the delimiter occurs nowhere in it |
| MultipartRoundTrip.ContentCut | fs_upload.c:257-279 | A content with the delimiter in it is reported otherwise, or the parse ends before its data |
| MultipartRoundTrip.BodyDelivered | fs_upload.c:221-342 | A whole body of parts is reported, headers and contents in order and nothing else, exactly when no content has the delimiter in it |
| MultipartRoundTrip.LegalContentCutShort | fs_upload.c:257-279 | A content that section 5.1.1 of RFC 2046 allows and that is cut short |
| MultipartRoundTrip.PreambleShifts | fs_upload.c:263-279 | After a preamble the data are read from its length on: refused, past the end, or shifted, by exact conditions on the lengths |
| MultipartRoundTrip.PreambleExact | fs_upload.c:263-279 | For every content and preamble: delivery is right exactly when the preamble is no longer than the data and the line end, and the content stands at its length in the body too |
| MultipartRoundTrip.PreambleDelivered | fs_upload.c:221-342 | A whole body behind a preamble is reported right exactly when the first content meets that condition, whatever the other parts |
| MultipartRoundTrip.PreambleHarmless | fs_upload.c:263-279 | In particular, a content without CR and no shorter than the preamble is delivered exactly when the preamble is empty |
| MultipartRoundTrip.PreambleSpoils | fs_upload.c:263-279 | A legal body with one line of preamble whose content is saved as something else |
| MultipartRoundTrip.UploadEnd | fs_upload.c:330-342 | On any bytes and for any module: it ends well only with a closing delimiter in front of what is left, what is left is the end of the body, and a body without the delimiter is an error at once |
| MultipartRoundTrip.NoClosingDelimiter | fs_upload.c:288-293 | An upload without a closing delimiter never ends well, whatever its parts |
| MultipartRoundTrip.ObjectionIsError | fs_upload.c:281-298 | An upload that the module objected to ends in an error |
| MultipartRoundTrip.ReadLineBare | fs_upload.c:244 | A line may end in LF alone |
| MultipartRoundTrip.LineCutAtNul | fs_upload.c:206-211 | A NUL byte hides the rest of a header line, and in front ends the headers |
| MultipartRoundTrip.BrokenOffHeaders | fs_upload.c:241-261 | A body that breaks off in a header line is an error, without that line being told |
| MultipartRoundTrip.NoColonAborts | fs_upload.c:209-211 | A header line without a colon has no value, and the code follows a null pointer |
| MultipartRoundTrip.NoLineEndAborts | fs_upload.c:272-274 | A part that ends right after its headers has a length below zero |
| MultipartRoundTrip.EndAfterDelimiterAborts | fs_upload.c:285-290 | A body that ends within two bytes of a delimiter is read past its end after the part was told |
| MultipartRoundTrip.NextFileHeeds | fs_upload.c:211-282 | On any bytes, no handler of the module is called after it objected, within a part |
| MultipartRoundTrip.UploadHeeds | fs_upload.c:330-342 | The same over a whole upload of any bytes |
| MultipartRoundTrip.RoundsBounded | fs_upload.c:330-334 | Rounds times the length of a delimiter is bounded by the length of the body |
| CallNode.Node.CallCreate | call_resource.c:102-154 | New lists, registry, counter and reply, for each way it can fail; keeps the invariant exactly when it fails or the path is free |
| CallNode.Node.CallCompleted | call_resource.c:64-77 | The result is kept; a synchronous call is answered and its connection's close hook set; keeps the invariant |
| CallNode.Node.ResourceReadout | call_resource.c:21-47 | Status before completion; after it the result, the move to the other list and the hook; keeps the invariant |
| CallNode.Node.CallDelete | call_resource.c:80-87 | Off its list and the registry; deleting what is gone is recorded as corruption; lists and registry still agree |
| CallNode.Node.ConnectionClosed | call_resource.c:14-19 | The connection's last hook, if any, deletes its call; keeps the invariant exactly when that call is live |
| CallNode.Node.CallresourceCleanup | call_resource.c:89-100 | Both loops over lists that the deletions shorten; from a sound state everything is empty afterwards and nothing was freed twice |
| CallServerLaws.PathPrinted | call_resource.c:132 | The path is the number in decimal below 2^31 and a negative number from there to 2^32 |
| CallServerLaws.PathsAgree | call_resource.c:125-134 | Two calls share a path exactly when their numbers agree modulo 2^32 |
| CallServerLaws.CreateKeeps | call_resource.c:102-154 | Creating keeps the invariant (one list each, registry and paths inverse of each other, garbage is complete, deletions accounted for) exactly when it fails or the path is free |
| CallServerLaws.CreateTells | call_resource.c:118-149 | Refused arguments change nothing, a refusal of the node uses up a number, and otherwise the call is pending at its path, as any reader of it is told |
| CallServerLaws.CompleteKeeps | call_resource.c:64-77 | Completion keeps the invariant |
| CallServerLaws.ReadoutKeeps | call_resource.c:21-47 | So does a readout over any open connection |
| CallServerLaws.CloseKeeps | call_resource.c:14-19 | So does closing, exactly when the hook's call is still live; otherwise that call is deleted for the second time and two connections were armed for it |
| CallServerLaws.SynchronousFreed | call_resource.c:64-87 | A synchronous call is answered with its result, and nothing of it is left once that connection closes |
| CallServerLaws.AsynchronousWaits | call_resource.c:64-69 | The completion of an asynchronous call is told to nobody and sets no hook; its path gives the result from then on |
| CallServerLaws.ReadFreed | call_resource.c:14-47 | A read result moves its call to the list of garbage, and nothing of it is left once that connection closes |
| CallServerLaws.FreedInTheEnd | call_resource.c:14-77 | In every such run, a call is deleted once one of its connections closed, unless another call was answered on that connection too |
| CallServerLaws.WindowGivesFreshPath | call_resource.c:125-132 | Fewer than 2^32 numbers between live calls give a free path |
| CallServerLaws.ShortRunsHaveFreshPaths | call_resource.c:125-132 | After any run of fewer than 2^32 steps the next path is free, so that asking for a free path excludes none of these |
| CallServerLaws.LivePathsDistinct | call_resource.c:125-147 | Live calls have pairwise distinct paths |
| CallServerLaws.RunSound | call_resource.c:14-154 | In every run that accepts calls at free paths, each deletion is of a completed call and is charged to a distinct closed connection; until the first second deletion the invariant holds |
| CallServerLaws.NoEarlyDeletion | call_resource.c:14-77 | In every such run before unmounting, no call is deleted before it completed |
| CallServerLaws.DeletedOnce | call_resource.c:14-77 | In such runs that answer each call over one connection, none is deleted twice |
| CallServerLaws.TwoReadersCorrupt | call_resource.c:21-47 | From every sound state, reading a result over two connections and closing both deletes it twice |
| CallServerLaws.TwoReadersRun | call_resource.c:14-154 | A run of six steps from mounting after which one call was deleted twice |
| CallServerLaws.WrappedPathIsTaken | call_resource.c:125-147 | A run from mounting reaches a live call whose path the next number takes again; the next call is accepted at a path that leads to the first |
| CallServerLaws.ReadoutTruthful | call_resource.c:21-47 | A readout says "pending" before the completion and gives the node's result after it; nothing else is ever visible |
| CallServerLaws.CleanupEmpties | call_resource.c:89-100 | Unmounting deletes every live call once, in list order, and leaves lists, memory and registry empty |
| CallServerLaws.CloseAfterUnmount | call_resource.c:14-19 | After it, a closing connection frees memory again exactly when its hook is armed |
| CallServerLaws.UnmountedTooEarly | call_resource.c:14-100 | A run in which a result was read, unmounting, and closing the reader's connection: freed again |
| CallProtocol.PollFinds | www/aura.js:11-25 | A poll reaches the page's own call, which no other connection was answered for |
| CallProtocol.StepKeeps | www/aura.js:11-61 | The invariant of pages, server and network is kept by every step, lost messages included |
| CallProtocol.HandlerOnce | www/aura.js:11-61 | In every interleaving that accepts calls at free paths, a page's handler runs at most once, with data only after its own call completed, and with those data |
| CallProtocol.HandlerCalled | www/aura.js:11-61 | In every such interleaving in which no poll of a page is lost, a page at its end had its handler called exactly once |
| CallProtocol.ResultDelivered | www/aura.js:11-61 | In every such interleaving in which no message of a page is lost, a page at its end was told exactly the result of its call, with `arg` exactly if the call was synchronous, or exactly a failure with `arg` if there is no call |
| CallProtocol.ArgReachesHandler | www/aura.js:27-45 | In every such interleaving a handler gets its `arg` exactly when it is told of a failure or the call was synchronous |
| CallProtocol.ArgLost | www/aura.js:27-45 | A run of one call, one result and one poll in which the handler gets the result without its `arg` |
| CallProtocol.ShortRunsHaveFreshPaths | www/aura.js:27-61 | In interleavings of fewer than 2^32 actions every call meets a free path, so the results above hold of all of these |
| CallProtocol.PollNeverMisses | www/aura.js:11-25 | A polling page never meets a missing resource or another page's call |
| CallProtocol.NeverDeletedTwice | www/aura.js:11-45 | With such pages every call is answered over at most one connection, deleted at most once, and not before it completed |
| CallProtocol.CallsApart | www/aura.js:27-61 | Two pages never share a call |
| Serdes.FormatToJson | serdes-json.c:13-72 | The loop yields the recursive list of types, or stops at the same unknown code |
| Serdes.BufferToJson | serdes-json.c:74-134 | The loop yields the recursive list of values and leaves the same bytes unread, or stops where that does |
| Serdes.BufferFromJson | serdes-json.c:150-218 | The loop returns the same result, after the same bytes, as the recursive filling; -1 and no bytes for what is no array |
| SerdesLaws.CodesMean | serdes-json.c:21-48 | For each of the eight integer codes: the name it is listed by, the bytes it puts, and the range of integers that come back unchanged, all as literals |
| SerdesLaws.OtherCodes | serdes-json.c:49-72 | A handle is listed and read as a word and stops the filling; an unknown code stops the first two loops and is skipped by the third |
| SerdesLaws.BinaryListed | serdes-json.c:52-63 | A binary field is listed with its length, and stops the loop exactly if that is zero or missing |
| SerdesLaws.AtoiSigned | serdes-json.c:53 | A length is read behind spaces and a sign |
| SerdesLaws.TypesOfFormat | serdes-json.c:13-72 | For every typed field list printed to a format, the first loop finds just its fields |
| SerdesLaws.ItemsOfFormat | serdes-json.c:74-134 | The second finds one value a field, from the bytes at its place, and fails exactly when the buffer is shorter than the widths |
| SerdesLaws.FillOfFormat | serdes-json.c:150-218 | The third takes one argument a field and fails with -1 exactly when an integer field has no integer |
| SerdesLaws.LoopsAgree | serdes-json.c:13-218 | Type names, values and arguments taken all equal the number of fields |
| SerdesLaws.LoadedStored | serdes-json.c:150-218 | Storing a 64-bit integer in a width and loading it wraps it; the identity exactly in range, and always for 64 bits |
| SerdesLaws.FromToBytes | serdes-json.c:74-134 | Bytes put in a width and taken in that width give back the number |
| SerdesLaws.RoundTrip | serdes-json.c:74-218 | Filling and reading back: result 0 and, exactly when no binary field is given a string, each integer comes back wrapped to its type with nothing left over |
| SerdesLaws.FillAndReadBack | serdes-json.c:74-218 | The same through one buffer that is filled, rewound and read by the loops of the source |
| SerdesLaws.BytesLength | serdes-json.c:150-218 | What is written is never shorter than the sum of the widths, and just as long exactly when no binary field is given a string |
| SerdesLaws.EchoIdentity | serdes-json.c:74-218 | Slot by slot, an integer comes back unchanged exactly when its type can hold it |
| SerdesLaws.StringShiftsFields | serdes-json.c:150-218 | An empty string for a binary field makes the next integer field read a quote, and two bytes are left over |
| UploadQueue.Dropzone.FilesWithStatus | www/dropzone.js:496-507 | The loop keeps the files of a status, in list order |
| UploadQueue.Dropzone.ProcessQueue | www/dropzone.js:1136-1159 | One request for several files, or one for each, as the functional queue has it |
| UploadQueue.Dropzone.CancelUpload | www/dropzone.js:1195-1221 | The new state for each status the file may have, the files of its request included |
| UploadQueue.Dropzone.OnReply | www/dropzone.js:1295-1327 | Reply or failure of a request, ignored after its cancellation |
| UploadQueueLaws.ProcessedKeeps | www/dropzone.js:1136-1177 | The first waiting files start, in list order and as many as there are slots; nothing else changes; afterwards none waits or every slot is taken |
| UploadOutcomes.RequestsByMode | www/dropzone.js:1136-1159 | With `uploadMultiple` the started files go out in one request, without it in one each, in order, and no other request changes |
| UploadOutcomes.ReplyGives | www/dropzone.js:1295-1327 | After a 2xx reply every file of the request succeeded, after any other outcome every one failed, and after a cancellation nothing changes; other files only start |
| UploadOutcomes.CancelGives | www/dropzone.js:1195-1221 | Cancelling an uploading file cancels just the files of its request, a waiting one just itself, an ended one nothing; other files only start |
| UploadOutcomes.AddGives | www/dropzone.js:978-1002 | A new file is last on the list: failed exactly if not accepted, else queued exactly with `autoQueue`, and with `autoProcessQueue` a timer is set for it |
| UploadOutcomes.EnqueueGives | www/dropzone.js:1013-1026 | Just an accepted file that was only added can be enqueued |
| UploadOutcomes.RemoveGives | www/dropzone.js:1056-1065 | Just that file leaves the list, and it is cancelled exactly if it was uploading |
| UploadOutcomes.NothingStartsAlone | www/dropzone.js:1195-1421 | Without `autoProcessQueue` no file starts but by processQueue |
| UploadOutcomes.OutcomeIsTheAnswer | www/dropzone.js:978-1421 | In every run a file has succeeded exactly if its request got a 2xx reply while it was uploading, and failed exactly if it got another outcome then or the file was not accepted |
| UploadQueueLaws.StartCore | www/dropzone.js:1165-1177 | A request for waiting files within the slots keeps the invariant of files, requests and slots |
| UploadQueueLaws.AddKeeps | www/dropzone.js:978-1002 | A new file, accepted or not, keeps the invariant |
| UploadQueueLaws.EnqueueKeeps | www/dropzone.js:1013-1026 | Enqueueing keeps it, a call of processQueue being owed |
| UploadQueueLaws.CancelKeeps | www/dropzone.js:1195-1221 | Cancelling keeps it, and the file has ended even though the queue is restarted |
| UploadQueueLaws.RemoveKeeps | www/dropzone.js:1056-1065 | Removing keeps it |
| UploadQueueLaws.ReplyKeeps | www/dropzone.js:1248-1328 | Any outcome of a request keeps it |
| UploadQueueLaws.FailedReply | www/dropzone.js:1406-1421 | Failing all files of a request once for each of them equals failing them once |
| UploadQueueLaws.Disable | www/dropzone.js:812-825 | Afterwards every file of the list has ended, and those that had ended before are as they were |
| UploadQueueLaws.StepKeeps | www/dropzone.js:978-1421 | Every action, in single and multiple mode, keeps the invariant and leaves ended files alone |
| UploadQueueLaws.UploadsBounded | www/dropzone.js:1136-1159 | In every run, never more uploads than `parallelUploads` |
| UploadQueueLaws.WorkConserving | www/dropzone.js:1136-1159 | In every run with automatic processing, once no timer is owed, either no file waits or all slots are taken |
| UploadQueueLaws.QueueRunsDry | www/dropzone.js:1136-1421 | In every run with automatic processing and a slot, once no timer is owed and no request but canceled ones is open, every file of the list has ended or was never enqueued |
| UploadQueueLaws.GroupsShareStatus | www/dropzone.js:1195-1242 | In every run, files of one request share one status |
| UploadQueueLaws.EndedForGood | www/dropzone.js:1195-1421 | Success, error and cancellation are never left, whatever follows |
| Squash.DetectVerticalSquash | www/dropzone.js:1673-1691 | Ends on every alpha column at a row boundary, opaque above or at the top and transparent below or at the bottom; on opaque rows above transparent ones at the one between, 1 standing for none |
| BufferModule.Module.HandleUpload | fs_upload_mod_buffer.c:251-279 | Refused exactly beyond the quota, without memory or without a current buffer; otherwise listed last, registered and counted; a refusal releases the current buffer and its error releases it again; keeps registry, listing and quota in agreement |
| BufferModule.Module.HandlePost | fs_upload.c:300-345 | A whole upload: the hook, headers and data of each part up to a refusal or the end, and the error that is sent for a failure; keeps the same agreement |
| BufferModule.PostSafe | fs_upload_mod_buffer.c:251-298 | An upload frees nothing twice and uses no missing buffer exactly when the one before was not cut off after header lines, every part up to a refused one has header lines, and none of these is refused |
| BufferModule.PostIsRun | fs_upload_mod_buffer.c:251-275 | Such uploads are runs of the actions below, so all that holds of runs holds of them |
| BufferModule.FreedTwice | fs_upload.c:99-110 | One upload over the quota, and one cut off with any other after it, free a buffer twice |
| BufferModule.Module.HandleRequest | fs_upload_mod_buffer.c:46-80 | A visit to a drop path unregisters and unlists its buffer; every other visit changes nothing |
| BufferModule.RefusalLeaves | fs_upload_mod_buffer.c:251-279 | A refusal changes nothing beyond the quota, uses up a number without memory, and by itself frees the current buffer twice |
| BufferModule.FreedIsFinal | fs_upload_mod_buffer.c:181-249 | Whatever is done next with a freed current buffer uses its memory |
| BufferModule.FirstUploadFits | fs_upload_mod_buffer.c:164 | The quota of a new module is 8388608 bytes |
| BufferModule.RunKeeps | fs_upload_mod_buffer.c:46-275 | Every run of uploads and visits keeps registry, listing, numbers and quota in agreement |
| BufferModule.RegistryAgrees | fs_upload_mod_buffer.c:46-275 | From the start: the registered paths are exactly the two of each listed buffer; the listing ascends in numbers, all below the next; bytes held are within what is counted and that within the quota |
| BufferModule.NeverReused | fs_upload_mod_buffer.c:256-258 | A number that was used and is not listed never comes back |
| BufferModule.KeptUntilDropped | fs_upload_mod_buffer.c:125-132 | A buffer keeps its place, data and download path through every run without a visit to its drop path |
| BufferModule.UploadThenDrop | fs_upload_mod_buffer.c:125-132 | An upload is last in the listing with its data; dropping it gives back the listing and the registry, but not the quota |
| BufferModule.PathsPrinted | fs_upload_mod_buffer.c:40-62 | `/download/` and the number changes nothing, `/drop/` and the number takes the upload away |
| BufferModule.HeldIsTaken | fs_upload_mod_buffer.c:251-275 | Without drops, just the bytes accepted are held |
| BufferModule.QuotaIsForGood | fs_upload_mod_buffer.c:251-275 | After any run an upload fits exactly when it fits beside everything accepted before, dropped or not |

## Left out

- HTTP, libevent, libaura and json-c internals and sockets: replaced by the models named above.
- Failing allocations, except where the upload module loses its buffer for want of memory.
- Entity.DecodeHtmlEntities: two overlapping but different buffers are not modelled; the destination is the source or a separate array. `isspace` is that of the C locale, and an unsigned long has 64 bits.
- CallServerLaws.RunSound: runs of 2^32 steps or more that accept a call at a path in use.
- ContentDisposition.NameSearch: a backslash does not quote a quotation mark; the code does not look for one either.
- ContentDisposition.ExtractKeyValue: keys longer than the eight characters its pattern buffer holds; no caller has one.
- Multipart.Parser.HandleNextFile: where the C code goes through a null pointer (a header line without a value, a body that ends before its empty line) or past its data, the model says `Abort` and no more.
- Multipart.Parser.HandleUpload: the search for the boundary in the request headers, and the replies; an evbuffer position is a number, without the cached chain pointer that a drain makes stale.
- Extents.Peek: describes evbuffer_peek as libevent does; it is not code of this repository.
- CallNode.Node.CallCompleted: a page's request that is gone before its synchronous call completes; a run closes such a connection only after the completion.
- CallNode.Node.ConnectionClosed: a connection has one hook at a time, as in libevent; other users of the hook are not modelled.
- CallProtocol.HandlerOnce: runs of 2^32 actions or more that accept a call at a path in use; the time between polls, and a page's handler that is not a function.
- Serdes.BufferFromJson: buffer handles (`URPC_BUF`), which the source marks as unimplemented, and the alignment of binary data; the letters of the format codes are a parameter, because their header is not part of this model.
- UploadQueueLaws.StepKeeps: file objects are numbers and their fields maps, so a file is not added twice; `accept` answers at once; event handlers do not call back into the queue; `parallelUploads` is a natural number.
- UploadQueueLaws.ReplyKeeps: how a reply's status and content type are turned into success or failure.
- BufferModule.Module.HandleUpload: the names kept beside a buffer; numbers do not overflow. After memory was freed twice or no buffer was used, the model goes on with its lists and says nothing of the process.
- BufferModule.Module.HandleRequest: the bytes a download sends, and the two replies.
- `server.c`, `vfs.c`, `mime.c`, `json-helpers.c`, `fs_static.c`, `fs_control.c`, `fs_node.c`: prefix tests, table lookups and plumbing that would add only easy members.
- `v4l2_read.c`, `fs_v4l2.c`, `v4l2fs_thread.c`, `fs_memcache.c`, `main.c`: devices, stubs and start-up.
- DOM, thumbnails, drag and drop and drawing in `www/dropzone.js`, and `www/utils.js` beyond its escaping: user interface.
