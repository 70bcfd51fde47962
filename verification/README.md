# WhatsApp MCP server: verified model

A Dafny model of the hard parts of the API: bounded message pages and their
cursors, the codecs and orders they rest on, the blind search indexes, the
fingerprints of send requests, and four protocols that must survive crashes and
concurrent workers. `dafny verify dfyconfig.toml` checks everything.

## How it is laid out

| file | what it models |
|---|---|
| `Order`, `Sorting`, `Options` | lexicographic comparison, sorting, optional values |
| `Utf16`, `Utf8`, `Base64`, `Frames` | strings as code units, their code points and bytes; base64 and its URL form; length-prefixed frames |
| `Json`, `MessagePages`, `MessageWalk` | the size of a JSON text, fitting a page to it, and following cursors to the end |
| `GroupPages` | the in-memory paging of `list_groups` |
| `BlindIndex`, `MessageSearch`, `PrefixIndex` | keyed indexes for words and for name prefixes |
| `SendFingerprint`, `SendProtocol`, `SendOutcomes`, `SendStatus`, `SendReplies`, `SendWorker` | what identifies a send request, the single provider attempt, and what becomes of its status |
| `SetupRow`, `SetupProtocol`, `SetupOutcomes`, `SetupWorkers` | leases of a connection setup: provisioning and cleanup, and how attempts end |
| `ExclusionRules`, `ExclusionProtocol`, `ExclusionAnswers`, `ExclusionIdempotency`, `ExclusionRecovery`, `ExclusionBlockade`, `ExclusionWorkers` | recipient exclusions: journal before acknowledgement, and the recovery pass |
| `JournalScan` | reapplying journal evidence after a restore |
| `WebhookSweep` | the checkpointed sweep over stored webhook objects |

The send, setup and exclusion protocols come twice: as a state machine whose every
run is quantified over, and as the worker code, a class whose methods perform the
machine's actions in the order of the source while others run in between. The scan
and the sweep are loops of one worker, with their crashes described by how far they
came. The stored procedures are part of the model (`SetupRow`, `ExclusionRules`, the
commit and record actions of `SendProtocol`), written after their SQL.

## What is assumed

- The keyed hash is injective; encryption and hashing of attachments are not
  modelled. Normalization is an abstract function that keeps strings well formed.
  Message search, which composes before and after lower case, is assumed to leave
  the words of a normalized string alone; of the normalization of group and contact
  names nothing more is assumed. Letters and digits are abstract classes in which a
  start character is also a continuation character.
- Every database call takes effect at one instant and commit times follow the
  clock; a call may stop at any point, and its reply may be lost.
- A provider creation takes effect between its call and the end of the renewed
  lease, and not after the call was answered with an error; a deletion while its
  worker waits for it; a listing shows the sessions that exist.
- A send operation and its idempotency binding come and go together: one
  statement inserts them and every deletion cascades from the operation, its log,
  its grant or its connection.
- The checkpoint of the webhook sweep lies in an eventually consistent key-value
  store (`apps/api/src/webhook-production.ts:365-395`); a round of the model reads
  the value saved last, or starts over when the bucket refuses it. A round that
  reads an older value is not modelled.
- A bucket listing returns a run of the keys beyond its cursor, and unless it
  reached the end its new cursor stands at the last of them.
- The store of messages or groups does not change during a walk; signed cursors
  decode to what was encoded.

## Where the code falls short of its intent

Each of these has its exact condition, and a concrete input or reachable run that
shows it.

- `hasUnpairedSurrogate` misses a lone high surrogate at the end of a string
  (`Utf16.HasUnpairedSurrogate`, `Utf16.ScannersDisagree`), and the encoder writes
  U+FFFD for it. Two requests share both fingerprints exactly when that replacement
  makes them equal (`SendFingerprint.FingerprintsIdentifyRequest`,
  `SendFingerprint.AcceptedTextsMeetIff`): two texts ending in different lone
  surrogates (`SendFingerprint.TrailingSurrogatesShareFingerprint`), or one of them and
  a well-formed text ending in U+FFFD (`SendFingerprint.ReplacementSharesFingerprint`).
- The request fingerprint, all that the commit compares, confuses a PDF with a
  text that spells out its identity (`SendFingerprint.SharedRequestParts`,
  `SendFingerprint.RequestFingerprintIsNotEnough`); together with the shape
  fingerprint, which only `preflight` compares, it does not.
- A key that was used leads to a second provider attempt exactly when its first
  operation was purged, after 90 days, or its connection deleted, which can be at
  any time while the grant covers another connection
  (`SendProtocol.NextCreationIff`, `SendProtocol.DeletionAllowsSecondAttempt`,
  `SendProtocol.PurgeAllowsSecondAttempt`). A restore of the database to an earlier
  snapshot is not among the actions of this model.
- Searches of groups and contacts are folded twice and names once, and folding
  twice is not folding once: lower case can leave a pair that NFKC composes. A group
  is then not found by its own name, or the search ends as "service unavailable"
  (`PrefixIndex.GroupSearchAgrees`, `PrefixIndex.GroupNotFoundByItsName`,
  `PrefixIndex.GroupSearchTooShort`); the same holds of contacts, where folding can
  also turn a name into a telephone number (`PrefixIndex.ContactListAgreesIff`,
  `PrefixIndex.WidePlusIsRefused`).
- A receipt does not stay true: webhook evidence moves the status on and, over a
  failure, back (`SendStatus.IdentifiedChangesIff`, `SendStatus.SentCanGoBack`).
  An unknown status, which the same update means to replace, never changes
  (`SendStatus.UnknownStays`).
- Preparing an account deletion clears the provisioning lease, so a creation in
  flight can leave a session behind a completed cleanup
  (`SetupProtocol.DeletionSafeIff`, `SetupProtocol.DeletionOrphanIsReached`).
- The idempotency key of an exclusion is forgotten by a journal replay between
  append and finalize and by the purge of its binding
  (`ExclusionIdempotency.RetryIsReplayIff`, `ExclusionIdempotency.ReplayForgetsKey`,
  `ExclusionIdempotency.PurgeForgetsKey`).
- The recovery pass lists transitions of inactive accounts but cannot finalize
  them, still counts them as recovered, and a hundred of them block it for as long
  as they are left: an account is inactive with a connection that is not being
  deleted only until its unfinished deletion completes
  (`ExclusionRecovery.PassCompletesIff`, `ExclusionRecovery.PassAdvancesIff`,
  `ExclusionBlockade.PassesAreStuck`).
- The journal scan lists only recipients without a rule, so a crash in the middle
  of one recovery loses the rest of its transitions
  (`JournalScan.CrashCostsExactly`, `JournalScan.InterruptedRecoveryAdmits`).
- The journal scan reads only the first 1,000 recorded prefixes, while the restore
  records all that it found no recipient for. Prefixes of recipients that never
  return stay recorded, and a thousand of them starve every recipient behind them,
  without any crash (`JournalScan.RecoveredEventuallyIff`, `JournalScan.FrontBlocks`,
  `JournalScan.DeadPrefixesStarve`).
- One stored webhook object in conflict stops the sweep for all behind it
  (`WebhookSweep.CompletesIff`, `WebhookSweep.ConflictBlocksForGood`).

## Model

| member | source | states |
|---|---|---|
| `Base64.IsStandardPaddedBase64` | apps/api/src/base64-url.ts:12-49 | The scanner accepts a string exactly when it is the padded encoding of some non-empty byte sequence |
| `Base64.CanonicalIffEncoding` | apps/api/src/base64-url.ts:12-49 | Alphabet, padding and zero unused bits (sections 3.5 and 4 of RFC 4648) together hold exactly of the encodings of non-empty byte sequences |
| `Base64.EncodeBase64` | apps/api/src/base64-url.ts:1-7 | The chunk loop's text decodes to the bytes, and is canonical unless empty |
| `Base64.DecodeOfEncode` | apps/api/src/base64-url.ts:1-10 | Decoding what was encoded gives the bytes back, for all bytes |
| `Base64.EncodeOfDecode` | apps/api/src/base64-url.ts:9-49 | A padded string decodes to some bytes, and encoding them gives the same string exactly when it is canonical |
| `Base64.BtoaCanonical` | apps/api/src/base64-url.ts:1-7 | An encoding is canonical and its symbols are the six-bit groups of the bytes |
| `Base64.SymbolsAreTable` | apps/api/src/base64-url.ts:1-10 | The symbols are those of table 1 of RFC 4648, the letters and digits in order, 62 and 63 as `+` and `/`, and reading a symbol inverts writing it |
| `Base64.UrlSymbolsAreTable` | apps/api/src/base64-url.ts:51-66 | The URL form differs in the symbols of 62 and 63, `-` and `_` |
| `Base64.ReencodedIffCanonical` | apps/api/src/base64-url.ts:12-49 | Of all padded strings that decode alike, only the canonical one is reproduced |
| `Base64.AtobOfPadded` | apps/api/src/base64-url.ts:9-10 | The forgiving decoder returns exactly the bytes of the six-bit groups of a padded string |
| `Base64.WhitespaceIsDropped` | apps/api/src/base64-url.ts:9-10 | The decoder drops tabs, line feeds, form feeds, carriage returns and spaces anywhere and keeps the rest in order |
| `Base64.UrlRoundTrip` | apps/api/src/base64-url.ts:51-66 | The URL form decodes back exactly for non-empty bytes (empty bytes are refused), in ceil(4n/3) characters |
| `Base64.EncodeUrlShape` | apps/api/src/base64-url.ts:51-55 | Length and alphabet of the URL form, and that its characters are the six-bit groups |
| `Base64.EncodeUrlInjective` | apps/api/src/base64-url.ts:51-66 | Different non-empty byte sequences have different URL forms |
| `Base64.DecodeUrlAccepts` | apps/api/src/base64-url.ts:57-66 | The URL decoder accepts exactly the non-empty strings over its alphabet whose length is not 1 modulo 4 |
| `Base64.AttachmentBounds` | apps/api/src/image-source.ts:9-17 | On encodings, the image bound is exactly 5,000,001 bytes and the PDF bound exactly 16,777,218 |
| `Base64.PdfPatternIsPadded` | apps/api/src/pdf-source.ts:120-129 | The PDF pattern matches exactly the empty string and the padded strings |
| `Base64.PdfPatternExactly` | apps/api/src/pdf-source.ts:120-129 | What the PDF check accepts decodes within the bound, and is canonical exactly when it is non-empty and re-encodes to itself |
| `Base64.PdfPatternIsLooser` | apps/api/src/pdf-source.ts:120-129 | A concrete string with non-zero unused bits that the PDF check accepts and the standard check refuses |
| `Utf16.HasOnlyUnicodeScalars` | apps/api/src/message-search-privacy.ts:34-49 | The scanner holds exactly of the strings that encode some sequence of Unicode scalars |
| `Utf16.WellFormedIffEncoding` | apps/api/src/message-search-privacy.ts:34-49 | That sequence is unique: it is what iterating the string yields (section 2 of RFC 2781) |
| `Utf16.HasUnpairedSurrogate` | apps/api/src/mcp.ts:754-764 | The second scanner reports every ill-formed string except those whose only fault is a high surrogate at the very end |
| `Utf16.TrailingHighIsIllFormed` | apps/api/src/mcp.ts:754-764 | The strings it misses are ill-formed, so the two scanners disagree on exactly that family |
| `Utf16.ScannersDisagree` | apps/api/src/mcp.ts:754-764 | A concrete string on which they disagree |
| `Utf16.EncodeCodePoints` | apps/api/src/mcp.ts:3180-3189 | Joining the elements of a string gives the string back, unpaired surrogates included |
| `Utf16.JoinedPrefix` | apps/api/src/mcp.ts:3180-3189 | Joining the first elements gives a prefix of the string with exactly these elements |
| `Utf16.PrefixIffCodePointPrefix` | apps/api/src/mcp.ts:1956-1961 | For a well-formed prefix, code-unit startsWith is the prefix relation on code points |
| `Utf16.IllFormedPrefixDiffers` | apps/api/src/mcp.ts:1956-1961 | It is not when the prefix ends inside a surrogate pair |
| `Utf8.CompareUtf8` | apps/api/src/message-search-privacy.ts:23-32 | The byte loop orders strings as their code points, unpaired surrogates counting as U+FFFD; on well-formed strings it is zero only for equal ones |
| `Utf8.ByteOrderIsPointOrder` | apps/api/src/message-search-privacy.ts:23-32 | UTF-8 byte order is code-point order on all code-point sequences (sections 1 and 3 of RFC 3629) |
| `Utf8.BytesInjective` | apps/api/src/message-search-privacy.ts:23-32 | Different code-point sequences have different bytes |
| `Utf8.BytesSpellPoint` | apps/api/src/message-search-privacy.ts:23-32 | A code point takes one to four bytes by the ranges of section 3 of RFC 3629, its leading byte says how many, and the bits spell it out |
| `Utf8.TextEncodeEquality` | apps/api/src/message-search-privacy.ts:23-32 | Two strings share their bytes exactly when they agree after replacement of unpaired surrogates |
| `Utf8.IllFormedStringsCompareEqual` | apps/api/src/message-search-privacy.ts:23-32 | Two different ill-formed strings that compare equal |
| `Utf8.CodeUnitOrderDiffers` | apps/api/src/mcp.ts:1625-1626 | The order of `compareText` is another one: a pair of strings the two comparisons put in opposite order |
| `Sorting.SortSorts` | apps/api/src/mcp.ts:1962-1966 | Sorting distinct elements under a total order yields a strictly ascending list |
| `Sorting.AscendingIsUnique` | apps/api/src/mcp.ts:1962-1966 | There is only one ascending list of given elements, so the sorting algorithm does not matter |
| `Sorting.CanonicalForm` | apps/api/src/message-search-privacy.ts:51-61 | Removing duplicates and sorting depends only on the set of elements |
| `MessagePages.FitOutput` | apps/api/src/mcp.ts:3119-3204 | The shrink loop and the cut of a last message give exactly the result the page has to be fitted to, and never more than 65,536 bytes except for an empty page of `read_messages` |
| `MessagePages.FitText` | apps/api/src/mcp.ts:3176-3204 | The binary search returns the longest text prefix that fits, and fails exactly when even empty text does not |
| `MessagePages.FitIsUnique` | apps/api/src/mcp.ts:3540-3630 | There is only one such result: the longest newest-first prefix that fits 32,768 bytes (or the last message), whole or with its longest fitting text; for an empty page itself, refused by `search_messages` alone when over 65,536 bytes |
| `MessagePages.FittedShows` | apps/api/src/mcp.ts:3119-3204 | A fitted page shows the newest messages with their texts as loaded; only a single message larger than 65,536 bytes by itself has its text cut to whole elements, and is marked exactly when some are missing; the page says that it was limited exactly when it was, messages were dropped, or a text was fitted |
| `MessagePages.DroppedDoNotFit` | apps/api/src/mcp.ts:3157-3173 | With any more of the loaded messages the page would exceed 32,768 bytes |
| `MessagePages.KeptPageFits` | apps/api/src/mcp.ts:3157-3204 | A page of several messages fits 32,768 bytes and any checked page 65,536 |
| `MessagePages.FailsOnlyOf` | apps/api/src/mcp.ts:3157-3204 | "Service unavailable" comes only of a cursor that cannot be signed, a single message that is too large even with an empty text, or a checked page without messages |
| `MessagePages.UnsignedIff` | apps/api/src/mcp.ts:3141-3154 | A selection is lost exactly when more remains beyond it and its last message has no cursor |
| `MessagePages.MessagesAreWritten` | apps/api/src/mcp.ts:3119-3133 | The messages stand in the JSON oldest first for the one tool and newest first for the other |
| `MessagePages.KeepsUnique` | apps/api/src/mcp.ts:3157-3173 | At most one number of messages is the longest that fits |
| `MessagePages.LongerTextIsBigger` | apps/api/src/mcp.ts:3180-3200 | A longer text prefix makes a strictly longer JSON text, escapes and the change of the truncation flag included |
| `MessagePages.FitsOrFails` | apps/api/src/mcp.ts:3157-3204 | A page that was fitted did not at the same time have to fail |
| `MessagePages.EmptyTextFits` | apps/api/src/mcp.ts:3176-3204 | A fitted output whose text was cut is one whose message fits with empty text |
| `Json.EscapeOccupies` | apps/api/src/mcp.ts:3155-3156 | The bytes of an escaped string are the counted ones, for every string (section 7 of RFC 8259) |
| `Json.TextOccupies` | apps/api/src/mcp.ts:3155-3156 | The UTF-8 bytes of a JSON text are exactly its computed size |
| `Json.StringReadsBack` | apps/api/src/mcp.ts:3157-3173 | A reader after section 7 of RFC 8259 gets every string back from what is written, unpaired surrogates included, and stops at its closing quotation mark |
| `Json.PointSizeIs` | apps/api/src/mcp.ts:3157-3173 | Two bytes for a character with a short escape, six for another control character or an unpaired surrogate, one to four for any other |
| `Json.FixedTexts` | apps/api/src/mcp.ts:3157-3173 | The fixed texts and structural characters of RFC 8259 |
| `MessageWalk.TakeMessageRows` | packages/db/src/mcp-tool.ts:1105-1138 | The row loop returns the longest beginning of the rows within the limit whose ciphertext fits the budget, or one row, with exact flags for rows left and for the budget having cut or been exceeded |
| `MessageWalk.LoadPage` | packages/db/src/mcp-tool.ts:1057-1103 | A loaded page is a run of the rows beyond the boundary, non-empty while any remain, with an exact has-older flag, within the ciphertext budget and marked as limited exactly when that cut it |
| `MessageWalk.BeyondRow` | packages/db/src/mcp-tool.ts:1057-1103 | Beyond the key of a row lies exactly the rest of the ordered store |
| `MessageWalk.NewestFirst` | packages/db/src/mcp-tool.ts:1102 | The order of a store: later messages first, and of one moment the greater ids |
| `MessageWalk.FittedPage` | apps/api/src/mcp.ts:3119-3204 | A fitted non-empty page has a cursor exactly when its has-older flag is set, and the cursor stands at the oldest message kept |
| `MessageWalk.NextBoundary` | apps/api/src/mcp.ts:3141-3154 | The next boundary leaves exactly what the page did not deliver |
| `MessageWalk.WalkDelivers` | apps/api/src/mcp.ts:3119-3173 | Following cursors delivers a prefix of the store in order, all of it exactly when the last page has no cursor, in at most one page a message |
| `MessageWalk.CompleteWalkDeliversStore` | apps/api/src/mcp.ts:3119-3173 | A walk to the end delivers every stored message exactly once, newest first |
| `MessageWalk.WalkCompletes` | apps/api/src/mcp.ts:3540-3600 | If no page ends in an error, such a walk exists from any boundary |
| `GroupPages.AnySortAgrees` | apps/api/src/mcp.ts:1962-1966 | Whatever algorithm sorts by name and public id, it returns this list |
| `GroupPages.MatchingIsSubsequence` | apps/api/src/mcp.ts:1956-1961 | The filter keeps exactly the groups whose name starts with the search |
| `GroupPages.BeyondElement` | apps/api/src/mcp.ts:1967-1975 | Beyond the boundary of one group lies exactly the rest of the sorted list |
| `GroupPages.PageNumber` | apps/api/src/mcp.ts:1976-1987 | Page n is the slice of the sorted list at n times the limit |
| `GroupPages.WalkExtends` | apps/api/src/mcp.ts:1976-1987 | However many pages were fetched, following the cursors from there comes to an end |
| `GroupPages.WalkExists` | apps/api/src/mcp.ts:1976-1987 | So there is a finished walk from no cursor on |
| `GroupPages.WalkEqualsSortedList` | apps/api/src/mcp.ts:1956-1987 | The pages of a finished walk concatenate to the filtered sorted list, each group once, in max(1, ceil(n/limit)) pages |
| `Frames.FramedInjective` | apps/api/src/send-text-message.ts:92-108 | A length-prefixed frame determines its parts, any number of them, each under 2^32 bytes |
| `Frames.AppendLengthPrefixed` | apps/api/src/message-search-privacy.ts:123-136 | Writes the big-endian length and the value at the offset and nothing else, and returns the offset behind them |
| `Frames.FrameParts` | apps/api/src/send-text-message.ts:98-108 | The framing loop fills the array with the frame of the parts |
| `Frames.Be32Injective` | apps/api/src/send-text-message.ts:104-105 | Four big-endian bytes determine a length under 2^32 |
| `BlindIndex.SignedInjective` | apps/api/src/message-search-privacy.ts:156-192 | With an injective keyed hash, an encoded signature determines the signed bytes |
| `BlindIndex.OnlyTheHashShows` | apps/api/src/group-privacy.ts:14-50 | A written index shows nothing of its message but the keyed hash |
| `MessageSearch.WriteIndexFrame` | apps/api/src/message-search-privacy.ts:137-154 | The frame written at the moving offset is the domain, the version and the two framed parts |
| `MessageSearch.TokenInjective` | apps/api/src/message-search-privacy.ts:156-192 | A search token determines the connection and the term |
| `MessageSearch.WordsAreMatches` | apps/api/src/message-search-privacy.ts:16-61 | The words of a text are the texts of all greedy matches of the word pattern and of nothing else |
| `MessageSearch.TermsAreAllWords` | apps/api/src/message-search-privacy.ts:51-61 | The terms of a text are exactly the words of the folded text |
| `MessageSearch.SearchFindsWords` | apps/api/src/message-search-privacy.ts:63-104 | A validated query finds a text exactly when every word of the query is a word of the text, both folded |
| `MessageSearch.QueryIsValidIff` | apps/api/src/message-search-privacy.ts:63-79 | A query is accepted exactly when it is well formed, has 1 to 256 characters and, folded, 1 to 8 different words |
| `MessageSearch.TermsAscend` | apps/api/src/message-search-privacy.ts:51-61 | The terms ascend by their UTF-8 bytes, none twice |
| `MessageSearch.StoredAreTokens` | apps/api/src/message-search-privacy.ts:156-217 | What is stored for a text are exactly the tokens of its terms |
| `MessageSearch.TokenIsBlind` | apps/api/src/message-search-privacy.ts:156-192 | A token shows nothing of connection and term but their keyed hash |
| `MessageSearch.TermsAreCanonical` | apps/api/src/message-search-privacy.ts:51-61 | The term list depends only on the set of terms and is stable under being formed again |
| `MessageSearch.CanonicalQuery` | apps/api/src/message-search-privacy.ts:80-104 | A query that passes the canonical check is well formed, sorted and free of duplicates |
| `MessageSearch.BlindSearchAgrees` | apps/api/src/message-search-privacy.ts:194-246 | The query's tokens are among the text's tokens exactly when its terms are among the text's terms, which is what verification on plaintext decides |
| `MessageSearch.ProducedTermsAreTerms` | apps/api/src/message-search-privacy.ts:51-61 | Every term of a well-formed text tokenizes again to itself alone |
| `MessageSearch.ValidatedIsCanonical` | apps/api/src/message-search-privacy.ts:63-104 | What validation returns passes the canonical check |
| `MessageSearch.IndexingSucceeds` | apps/api/src/message-search-privacy.ts:156-217 | Indexing never refuses a well-formed text or a validated query |
| `PrefixIndex.PrefixIndexAgrees` | apps/api/src/group-privacy.ts:52-80 | A search's index is among the prefix indexes of a name exactly when the search is a code-point prefix of it; for well-formed strings that is startsWith, and cutting names at 64 changes nothing |
| `PrefixIndex.GroupSearchIndexIff` | apps/api/src/group-privacy.ts:52-62 | A group search has an index exactly for a connection id and 3 to 64 folded characters |
| `PrefixIndex.GroupIndexesIff` | apps/api/src/group-privacy.ts:64-80 | A nameless group is stored without indexes; indexing fails exactly for a name of three characters or more under something that is no connection id |
| `PrefixIndex.GroupIndexesSeparate` | apps/api/src/group-privacy.ts:14-50 | Indexes of different connections never meet, and those of one only for values with the same bytes |
| `PrefixIndex.IndexIsBlind` | apps/api/src/group-privacy.ts:14-50 | An index shows nothing of the name but its keyed hash |
| `PrefixIndex.GroupIndexFinds` | apps/api/src/group-privacy.ts:52-80 | `list_groups` folds a search, the index folds it again, names are folded once: the index exists exactly when the twice folded search has 3 to 64 characters, and is stored for exactly the names that start with it when folded |
| `PrefixIndex.GroupSearchAgrees` | apps/api/src/mcp.ts:1732-1735 | For a search that the request accepts, the index exists and agrees with the in-memory filter on every well-formed name if and only if folding the search a second time leaves it alone |
| `PrefixIndex.GroupNotFoundByItsName` | apps/api/src/group-privacy.ts:11-12 | "J" U+030C "abc", which NFKC composes only after lower case: a group of exactly this name has no index that a search by this name asks for, although the filter would keep it |
| `PrefixIndex.GroupSearchTooShort` | apps/api/src/mcp.ts:1859-1862 | "J" U+030C "a" is long enough for the request and has no index |
| `PrefixIndex.ContactSearchAgrees` | apps/api/src/directory-privacy.ts:69-110 | A contact search by name finds exactly the contacts whose folded name starts with it; a telephone number finds none by name |
| `PrefixIndex.ContactSearchIndexIff` | apps/api/src/directory-privacy.ts:69-92 | A contact search has an index exactly for a telephone number, or for 3 to 64 folded characters without a plus sign in front |
| `PrefixIndex.PhoneIff` | apps/api/src/directory-privacy.ts:77-84 | A telephone number is a plus sign and 7 to 15 digits, the first not zero |
| `PrefixIndex.ContactListAgreesIff` | apps/api/src/mcp.ts:2048-2053 | `list_contacts` folds a search by name and `contactSearchIndex` looks at it anew: the index exists and agrees with the folded names if and only if folding brought no plus sign to the front and folding again leaves the search alone |
| `PrefixIndex.WidePlusIsRefused` | apps/api/src/mcp.ts:2197-2202 | A search with U+FF0B in front is accepted and then refused as a telephone number |
| `PrefixIndex.ContactLayoutInjective` | apps/api/src/directory-privacy.ts:24-42 | The NUL-separated message of a contact index determines connection, namespace and value |
| `PrefixIndex.PhoneMeetsNoName` | apps/api/src/directory-privacy.ts:69-92 | The index of a telephone number is never among the prefix indexes of a name |
| `PrefixIndex.PrefixIndexCount` | apps/api/src/group-privacy.ts:64-80 | No more than 62 indexes are stored for a name, and none beyond its length |
| `PrefixIndex.IllFormedNamesMatch` | apps/api/src/group-privacy.ts:52-80 | For ill-formed strings the index can match without being a prefix: a concrete pair |
| `SendFingerprint.ComputeFingerprint` | apps/api/src/send-text-message.ts:82-111 | The framing loop and the keyed hash compute the fingerprint of the parts |
| `SendFingerprint.FingerprintInjective` | apps/api/src/send-text-message.ts:82-111 | On well-formed parts under 2^32 bytes, fingerprints are equal exactly when the part lists are |
| `SendFingerprint.SharedRequestParts` | apps/api/src/send-text-message.ts:231-245 | Exactly which different requests share a request frame: a text and a PDF whose identity the text spells out |
| `SendFingerprint.SharedShapeParts` | apps/api/src/send-text-message.ts:246-264 | The shape frame determines subject, connection, destination and kind of content, and nothing more |
| `SendFingerprint.FingerprintsMeetIff` | apps/api/src/send-text-message.ts:82-111 | For all part lists under 2^32 bytes, well formed or not: fingerprints are equal exactly when the lists have equal length and their parts agree after each unpaired surrogate became U+FFFD |
| `SendFingerprint.FingerprintIsBlind` | apps/api/src/send-text-message.ts:82-111 | A fingerprint shows nothing of the request but its keyed hash |
| `SendFingerprint.WellFormedAreIdentified` | apps/api/src/send-text-message.ts:199-264 | For requests of well-formed strings the two fingerprints together are equal exactly for equal requests |
| `SendFingerprint.FingerprintsIdentifyRequest` | apps/api/src/send-text-message.ts:199-264 | For all issued requests the two fingerprints together are equal exactly when replacing every unpaired surrogate by U+FFFD makes the requests equal |
| `SendFingerprint.AcceptedTextsMeetIff` | apps/api/src/mcp.ts:754-775 | Of the texts that the send validation accepts, replacing makes exactly those equal that differ at most in their last unit, it being U+FFFD or a lone high surrogate in both |
| `SendFingerprint.ReplacementSharesFingerprint` | apps/api/src/send-text-message.ts:82-111 | A well-formed text ending in U+FFFD and the accepted text with a lone high surrogate in its place share both fingerprints |
| `SendFingerprint.RequestFingerprintIsNotEnough` | apps/api/src/send-text-message.ts:231-245 | A text request and a PDF request with the same request fingerprint |
| `SendFingerprint.TrailingSurrogatesShareFingerprint` | apps/api/src/send-text-message.ts:82-111 | Texts that end in different lone high surrogates, which the validation lets pass, share both fingerprints |
| `SendProtocol.RunInv` | packages/db/src/send.ts:512-1182 | The invariant of commit, attempt, record, lease expiry, webhook evidence, purge and connection deletion holds after every run |
| `SendProtocol.AtMostOneAttempt` | apps/api/src/send-text-message.ts:266-393 | In every run each attempted call had its own creating commit and attempts once; of two attempts under a key, the operation of one had been purged, 90 days on, or dropped with its connection before the other's was created |
| `SendProtocol.OneAttemptWithinBindingLife` | apps/api/src/send-text-message.ts:266-393 | Within one binding life at most one attempt, unless a connection used with the key is deleted |
| `SendProtocol.NextCreationIff` | packages/db/drizzle/0000_baseline.sql:7446-7462 | After an operation was created, the next commit under its key creates another exactly when the operation was purged or its connection deleted in between |
| `SendProtocol.HeldUntilFreed` | packages/db/drizzle/0000_baseline.sql:7446-7462 | Until then, through any run, the operation stays and nothing else is created under the key |
| `SendProtocol.FreeKeySends` | apps/api/src/send-text-message.ts:266-537 | A call that finds the key free reaches the provider |
| `SendProtocol.DeletionAllowsSecondAttempt` | packages/db/drizzle/0000_baseline.sql:9506-9518 | A run with two attempts under one key at one instant: the first one's connection is deleted, the second uses another |
| `SendProtocol.PurgeAllowsSecondAttempt` | packages/db/drizzle/0000_baseline.sql:9771-9803 | A run with two attempts on one connection, the second after the purge of the first |
| `SendProtocol.ReplayNeverAttempts` | apps/api/src/send-text-message.ts:385-393 | A call answered with a replay, a conflict or a refusal never attempts |
| `SendOutcomes.CommitIsAnswered` | packages/db/src/send.ts:512-1182 | A commit is refused exactly when its connection is gone, creates exactly when the key is free, fails on a binding that expired but is still stored, tells the status of an equal request and conflicts with another one |
| `SendOutcomes.ReceiptsTellTheEnding` | apps/api/src/send-text-message.ts:523-628 | In every run an attempt ends at most once, and a definite status that a call is told of its own attempt is the one the attempt ended with |
| `SendOutcomes.AnswerIsRecorded` | apps/api/src/send-text-message.ts:523-628 | A provider answer recorded while the lease runs is stored and told with its status and identity |
| `SendOutcomes.LateAnswerIsUnknown` | packages/db/src/send.ts:1219-1290 | Recorded after the lease, it leaves the operation unknown |
| `SendOutcomes.FailedPreparationIsUnknown` | apps/api/src/send-text-message.ts:523-537 | An exception before the provider is reached is stored and told as unknown |
| `SendOutcomes.OthersTell` | apps/api/src/send-text-message.ts:538-649 | What the failing and the early steps tell a call without a reply, and that a reply given stays |
| `SendOutcomes.EvidenceMovesIff` | packages/db/src/webhook-event.ts:1060-1077 | Exactly when webhook evidence replaces a stored status |
| `SendOutcomes.EchoMovesIff` | packages/db/src/webhook-event.ts:2081-2108 | An echo of the message makes an identified operation sent unless more is known |
| `SendOutcomes.LeaseMovesIff` | packages/db/src/send.ts:1219-1290 | A processing operation becomes unknown exactly when its lease has run out |
| `SendOutcomes.ReleaseForgets` | packages/db/drizzle/0000_baseline.sql:7446-7462 | The operation goes with its connection, and by the purge |
| `SendStatus.StatusFollows` | packages/db/src/webhook-event.ts:1060-1077 | Over any run a stored status never returns to processing; without a recorded identity a status other than processing never changes; with one, only within the stages accepted/sent/failed, delivered, read |
| `SendStatus.IdentifiedChangesIff` | packages/db/src/webhook-event.ts:1060-1077 | An identified operation can come to have another status exactly when these stages allow it |
| `SendStatus.UnknownStays` | packages/db/src/webhook-event.ts:1061-1067 | An operation whose attempt ended unknown stays unknown: the update would supersede it, but finds operations only by an identity that it does not have |
| `SendStatus.ReceiptBounds` | apps/api/src/send-text-message.ts:627-649 | What any receipt says ever after, until the operation is purged or dropped: read and unknown stay as told, delivered may only become read, the others move within the stages |
| `SendStatus.SentCanGoBack` | packages/db/src/webhook-event.ts:1060-1077 | A run whose first receipt says sent and whose store then says accepted |
| `SendReplies.RepliesMatchRequests` | packages/db/src/send.ts:764-788 | In every run a replayed receipt goes only to another call with the same fingerprint, any other receipt is of the call's own operation, and a conflict is told only to a call whose fingerprint differs from one that was sent |
| `SendReplies.SameRequestNeverConflicts` | packages/db/src/send.ts:778-781 | When all calls under a key ask for the same, none is told of a conflict |
| `SendWorker.World.Send` | apps/api/src/send-text-message.ts:199-649 | `send` as code, others interleaved at every point: it answers; with an accepting hook the reply leaves while the started attempt is still to be completed, otherwise the attempt is over or was never made; no call attempts twice; a definite status it answers of its own attempt is what the provider answered, a failure only for a definitive one |
| `SendWorker.World.Attempt` | apps/api/src/send-text-message.ts:629-649 | The attempt is started once, before the hook is asked; an accepting hook gives the receipt still processing with the attempt running, a throwing one leads to awaiting the attempt already started |
| `SendWorker.ResultStatus` | apps/api/src/send-text-message.ts:523-531 | Unknown exactly for an ambiguous result, failed exactly for a definitive failure, accepted for an acknowledgement, and with identity evidence its own status |
| `SendWorker.World.CompleteProviderAttempt` | apps/api/src/send-text-message.ts:422-537 | From a started attempt it reaches the end through actions of the protocol, with a reply; an earlier reply stays; exactly one ending is added, unknown exactly for an ambiguous result or an exception, failed exactly for a definitive failure, and identified exactly with the provider's evidence |
| `SendWorker.World.RecordOutcome` | apps/api/src/send-text-message.ts:538-628 | Storing and recording end the attempt with a reply whatever fails, and keep a reply already given; without one, failing to store is told as unavailable and failing to record as still processing |
| `SetupProtocol.RunInv` | apps/api/src/connection-setup-provisioning.ts:404-527 | The lease invariant holds after every run: workers, redeliveries, delayed provider effects, cancellation, expiry, failed activation and activation interleaved in any way |
| `SetupProtocol.EveryRunIsSafe` | apps/api/src/connection-setup-provisioning.ts:404-527 | In every run at most one provider session exists for a setup, a provisioned row records exactly that one, quarantine never happens, and completed cleanup means no session |
| `SetupProtocol.DeletingAttemptNeverCompletes` | apps/api/src/connection-setup-cleanup.ts:176-257 | A cleanup attempt that deleted a session does not report completion |
| `SetupProtocol.NoSessionAfterCleanup` | apps/api/src/connection-setup-cleanup.ts:198-257 | Once a cleanup has completed, no later step of any worker leaves a session |
| `SetupProtocol.ClosedRun` | apps/api/src/connection-setup-cleanup.ts:198-257 | From a closed setup on, the set of sessions only shrinks |
| `SetupOutcomes.FailuresDecide` | apps/api/src/connection-setup-provisioning.ts:427-494 | In every run: an attempt that failed the setup saw a definitive failure, one that saw a retryable failure ends as a retry, and none sees both |
| `SetupOutcomes.OnlyDefinitiveFails` | apps/api/src/connection-setup-provisioning.ts:427-494 | In every run the row turns to failed only by an attempt that saw a definitive failure, or by a failed activation |
| `SetupOutcomes.RetryableChangesNothing` | apps/api/src/connection-setup-provisioning.ts:282-298 | After a retryable failure no step of the worker changes the state of the row or the sessions |
| `SetupOutcomes.ReconcileFailureEnds` | apps/api/src/connection-setup-provisioning.ts:427-444 | Undisturbed, a definitive failure to reconcile leaves the setup failed; a retryable one leaves it as it was |
| `SetupOutcomes.CreateFailureEnds` | apps/api/src/connection-setup-provisioning.ts:468-484 | The same for a failure to create |
| `SetupOutcomes.UndisturbedAttemptProvisions` | apps/api/src/connection-setup-provisioning.ts:404-494 | An undisturbed attempt leaves the setup provisioned with exactly the created session recorded |
| `SetupOutcomes.ClaimIff` | packages/db/drizzle/0017_record_connection_setup_provisioning_start.sql:19-120 | When a provisioning claim is granted, comes back, or is ignored, and what it does to the row |
| `SetupOutcomes.RenewIff` | packages/db/drizzle/0000_baseline.sql:2158-2183 | A worker may create exactly while its own lease runs on a pending setup that has not expired, and then for two more minutes |
| `SetupOutcomes.RecordIff` | packages/db/drizzle/0000_baseline.sql:2224-2375 | When an attempt is recorded, and as what: one session provisions, any other number is quarantined |
| `SetupOutcomes.ReleaseTakesOwnLease` | packages/db/drizzle/0000_baseline.sql:2186-2222 | A release takes away the worker's own lease and nothing else |
| `SetupOutcomes.CleanupClaimIff` | packages/db/drizzle/0018_reject_mismatched_qr_activation.sql:22-78 | When a cleanup claim is granted, is done already, comes back, or is ignored |
| `SetupOutcomes.CleanupGoesOnIff` | packages/db/drizzle/0018_reject_mismatched_qr_activation.sql:208-291 | A cleanup worker may delete or complete exactly while its claim runs |
| `SetupOutcomes.OthersDecide` | packages/db/drizzle/0000_baseline.sql:3982-4100 | What cancelling, expiring, activating and a failed activation make of a setup in each state |
| `SetupOutcomes.DeletionTakesLeases` | packages/db/drizzle/0011_revoke_api_keys_on_personal_account_deletion.sql:33-38 | Preparing an account deletion cancels as the owner would and takes the leases |
| `SetupOutcomes.StalledClaimIsTakenOver` | packages/db/drizzle/0017_record_connection_setup_provisioning_start.sql:19-120 | A claim whose worker stopped is free after two minutes |
| `SetupOutcomes.ProviderSteps` | apps/api/src/connection-setup-provisioning.ts:404-494 | A creation adds a session that never was, a deletion removes the one that was found, and nothing else changes the sessions |
| `SetupProtocol.DeletionOrphans` | packages/db/drizzle/0011_revoke_api_keys_on_personal_account_deletion.sql:33-38 | Account deletion takes the lease of a worker whose creation may still land: some run then leaves a session behind a completed cleanup |
| `SetupProtocol.DeletionOrphanIsReached` | apps/api/src/connection-setup-provisioning.ts:404-494 | From every fresh setup, claim, reconcile and renew lead to a moment at which an account deletion is unsafe |
| `SetupProtocol.DeletionSafeIff` | packages/db/drizzle/0011_revoke_api_keys_on_personal_account_deletion.sql:33-38 | Account deletion is followed by safe runs only, exactly when no creation is in flight on a pending setup; in particular whenever no provisioning lease lives |
| `SetupProtocol.DeletingAttemptProgress` | apps/api/src/connection-setup-cleanup.ts:176-196 | An undisturbed attempt with a session left deletes exactly the first one listed and releases its claim |
| `SetupProtocol.CompletingAttemptProgress` | apps/api/src/connection-setup-cleanup.ts:228-251 | An undisturbed attempt with no session left completes the cleanup |
| `SetupProtocol.CleanupDrains` | apps/api/src/connection-setup-cleanup.ts:198-257 | With k sessions, k deleting attempts and one more complete the cleanup |
| `SetupWorkers.World.ProvisionConnectionSetup` | apps/api/src/connection-setup-provisioning.ts:496-527 | `provisionConnectionSetup` as code: whatever others do between its calls is a run of the protocol; a provisioned outcome leaves exactly the recorded session, and quarantine is never its outcome; after a retryable failure it is a retry that left the claim, after a definitive one the setup failed unless the claim was lost, and nothing else fails a setup |
| `SetupWorkers.World.ReconcileClaimedSetup` | apps/api/src/connection-setup-provisioning.ts:404-494 | Whatever it observes, it ends in an outcome that the row records; a retryable failure ends as a retry, a definitive one as a failed setup or a lost claim |
| `SetupWorkers.World.Create` | apps/api/src/connection-setup-provisioning.ts:463-494 | The create call and its answer, landed or not, end in an outcome that the row records, by the failure as in reconciling |
| `SetupWorkers.World.AfterProviderFailure` | apps/api/src/connection-setup-provisioning.ts:427-444 | Only a definitive failure fails the setup; a retryable one gives the claim back |
| `SetupWorkers.World.Finish` | apps/api/src/connection-setup-provisioning.ts:330-369 | A commit records exactly the sessions it was given; a lost lease means retry |
| `SetupWorkers.World.FailDefinitively` | apps/api/src/connection-setup-provisioning.ts:300-328 | A definitive failure is reported only when the row became failed and lost its lease; otherwise the claim was lost |
| `SetupWorkers.World.ReleaseForRetry` | apps/api/src/connection-setup-provisioning.ts:282-298 | Afterwards a pending row is no longer held by this worker |
| `SetupWorkers.World.CleanupConnectionSetup` | apps/api/src/connection-setup-cleanup.ts:198-257 | `cleanupConnectionSetup` as code: completion is reported only over a completed row with no session left, and never by the attempt that deleted one |
| `SetupWorkers.World.InspectClaimedSetup` | apps/api/src/connection-setup-cleanup.ts:228-257 | Completion comes out only over a row whose cleanup is complete |
| `SetupWorkers.World.DeleteOne` | apps/api/src/connection-setup-cleanup.ts:176-196 | Ends as a retry of this worker, through actions of the protocol; whether the deletion took effect is told truly |
| `SetupWorkers.World.CleanupReleaseForRetry` | apps/api/src/connection-setup-cleanup.ts:158-174 | Afterwards a terminal row is no longer held by this worker |
| `ExclusionRules.ReplayEndsWithNewest` | packages/db/drizzle/0006_add_whatsapp_recipient_exclusions.sql:955-1007 | Replaying a recipient's journal over any snapshot no newer than it ends with the newest transition and the greatest purge cutoff |
| `ExclusionRules.ReplayForgetsTheSnapshot` | packages/db/drizzle/0006_add_whatsapp_recipient_exclusions.sql:955-1007 | Replaying twice is replaying once, and two snapshots end up the same |
| `ExclusionProtocol.RunInv` | apps/api/src/recipient-exclusion.ts:297-359 | The invariant of prepare, append, finalize, recovery passes and replays holds after every run, and no rule goes back in time |
| `ExclusionProtocol.JournalBeforeAcknowledgement` | apps/api/src/recipient-exclusion.ts:297-359 | Every acknowledged change is in the journal with exactly the acknowledged content and no older change rules; every rule says what the journal says of its last change |
| `ExclusionProtocol.AnswerIsJournaled` | apps/api/src/recipient-exclusion.ts:343-376 | The same for one request, and that no append is ever refused for conflicting content |
| `ExclusionProtocol.AppendSucceeds` | apps/api/src/recipient/journal.ts:194-229 | An issued transition never meets another content under its journal key |
| `ExclusionAnswers.ConflictIff` | packages/db/drizzle/0006_add_whatsapp_recipient_exclusions.sql:593-618 | A change conflicts exactly when another key's change is under way, or none is and the rule is not what the request expected |
| `ExclusionAnswers.NothingToDoIff` | packages/db/drizzle/0006_add_whatsapp_recipient_exclusions.sql:620-625 | Nothing is to be done exactly when the rule is as expected and as asked |
| `ExclusionAnswers.ResumesIff` | packages/db/drizzle/0006_add_whatsapp_recipient_exclusions.sql:593-600 | A request whose own key has a change under way carries on with that one |
| `ExclusionAnswers.IssuesIff` | packages/db/drizzle/0006_add_whatsapp_recipient_exclusions.sql:627-655 | Otherwise a transition is issued as asked, effective now, raising the cutoff to now exactly for an exclusion, and waiting under the key |
| `ExclusionAnswers.ReplayIff` | packages/db/drizzle/0006_add_whatsapp_recipient_exclusions.sql:577-591 | A key that was used answers again what it was answered, whatever is asked |
| `ExclusionAnswers.NotFoundIff` | packages/db/drizzle/0006_add_whatsapp_recipient_exclusions.sql:522-560 | The recipient is not found exactly when its account is not active or its connection is being deleted |
| `ExclusionAnswers.AcknowledgesIff` | packages/db/drizzle/0006_add_whatsapp_recipient_exclusions.sql:660-741 | Finalizing acknowledges exactly when the transition still waits or is the last one the rule took |
| `ExclusionAnswers.FinalizingAdopts` | packages/db/drizzle/0006_add_whatsapp_recipient_exclusions.sql:660-741 | What waited then rules, with the greater of both cutoffs and a binding for ninety days unless the key has one |
| `ExclusionProtocol.RestoreKeepsAcknowledged` | apps/api/src/recipient/journal.ts:280-329 | Any earlier snapshot replayed from a later journal says the newest journaled change, nothing older than what was acknowledged, keeps every cutoff, and agrees with replaying over the live rule |
| `ExclusionIdempotency.SameKeySameTransition` | packages/db/drizzle/0006_add_whatsapp_recipient_exclusions.sql:582-610 | All acknowledgements under one recipient and key are of one transition, whichever requests and passes carried it, unless a step of the run untied the key |
| `ExclusionIdempotency.RetryIsReplayIff` | packages/db/drizzle/0006_add_whatsapp_recipient_exclusions.sql:582-610 | A later request under the key is about the same transition exactly when no journal replay dropped it before it was finalized and its binding was not purged |
| `ExclusionIdempotency.HeldUnlessUntied` | packages/db/drizzle/0006_add_whatsapp_recipient_exclusions.sql:696-723 | Through any run a key stays tied to its transition exactly as long as no such step happens |
| `ExclusionIdempotency.PurgeForgetsKey` | packages/db/drizzle/0006_add_whatsapp_recipient_exclusions.sql:339-340 | Without any replay, two transitions acknowledged under one key, 90 days apart: a concrete run |
| `ExclusionIdempotency.ReplayForgetsKey` | packages/db/drizzle/0006_add_whatsapp_recipient_exclusions.sql:955-1007 | With a journal replay between append and finalize, two transitions acknowledged under one key: a concrete run |
| `ExclusionIdempotency.UndisturbedChange` | apps/api/src/recipient-exclusion.ts:297-376 | An undisturbed change is acknowledged, journaled, in force and bound to its key |
| `ExclusionWorkers.World.SetExclusion` | apps/api/src/recipient-exclusion.ts:283-377 | `setExclusion` as code, others interleaved: its acknowledgement leaves with its journal entry written and in force; by the rule it found it answers not found, the earlier result, a conflict, or nothing to do, and otherwise acknowledges the pending transition of its key or a new one as asked |
| `ExclusionWorkers.World.RecoverPrepared` | apps/api/src/production.ts:2246-2292 | The recovery loop finalizes and journals exactly the listed transitions, counts each as recovered, and leaves none pending exactly under the stated condition |
| `ExclusionWorkers.World.Recover` | apps/api/src/production.ts:2272-2292 | One turn appends, then finalizes, one transition |
| `ExclusionRecovery.QueueIsSorted` | packages/db/drizzle/0006_add_whatsapp_recipient_exclusions.sql:743-776 | The listing holds exactly the eligible transitions, by preparation time and id |
| `ExclusionRecovery.ListingIs` | packages/db/drizzle/0006_add_whatsapp_recipient_exclusions.sql:743-775 | A pass lists the first hundred of the transitions prepared by the observed time on connections not being deleted, oldest first |
| `ExclusionRecovery.PassAt` | apps/api/src/production.ts:2246-2292 | What a pass makes of each recipient's rule |
| `ExclusionRecovery.PassCompletesIff` | apps/api/src/production.ts:2246-2292 | A pass leaves nothing pending exactly when at most 100 transitions wait, all prepared by the observed time, on connections not being deleted, and of active accounts |
| `ExclusionRecovery.PassAdvancesIff` | packages/db/drizzle/0006_add_whatsapp_recipient_exclusions.sql:660-691 | A pass changes a rule exactly when it listed one of an active account |
| `ExclusionBlockade.PassesAreStuck` | packages/db/drizzle/0006_add_whatsapp_recipient_exclusions.sql:743-776 | A run to a state in which, however many passes follow, nothing changes although a transition of an active account waits behind a hundred others |
| `ExclusionRecovery.PassAfterCrash` | apps/api/src/production.ts:2246-2292 | With at most 100 waiting, a pass after one that crashed anywhere ends as one uninterrupted pass; so repeating a pass changes nothing |
| `ExclusionRecovery.CrashedPassContinues` | apps/api/src/production.ts:2246-2292 | However many wait, of active accounts: a pass after one that crashed behind k transitions carries on there, and the two finalize exactly the first k + 100 of the queue |
| `ExclusionRecovery.PassDequeues` | apps/api/src/production.ts:2246-2292 | With active accounts, a pass takes exactly the first 100 off the queue |
| `ExclusionRecovery.BacklogDrains` | apps/api/src/production.ts:2246-2292 | A backlog of n is gone after k passes exactly when n is at most 100 k |
| `JournalScan.Scan.Recover` | apps/api/src/production.ts:2309-2366 | The paged scan performs exactly the events of one pass over everything listed at its start, in order, and terminates |
| `JournalScan.Scan.RecoverPage` | apps/api/src/production.ts:2342-2361 | One page performs the events of its candidates and drops their prefixes |
| `JournalScan.Scan.RecoverCandidate` | apps/api/src/production.ts:2351-2358 | All transitions of a prefix are replayed before it is resolved |
| `JournalScan.NextPage` | packages/db/drizzle/0006_add_whatsapp_recipient_exclusions.sql:1079-1124 | The next page continues exactly behind the last key, whatever rules the page created |
| `JournalScan.TouchedExactly` | apps/api/src/production.ts:2309-2366 | A pass touches exactly the unresolved prefixes whose recipient is listed |
| `JournalScan.ReadsFirstThousand` | packages/db/drizzle/0006_add_whatsapp_recipient_exclusions.sql:1049-1066 | A pass reads exactly the first 1,000 recorded prefixes |
| `JournalScan.RecoveredInOneStretch` | apps/api/src/production.ts:2350-2360 | Each of them once: all its transitions in order, then its resolution, and no other event about it |
| `JournalScan.RuleAfter` | packages/db/drizzle/0006_add_whatsapp_recipient_exclusions.sql:955-1007 | After any events a rule is its replay of the transitions reapplied to it |
| `JournalScan.PassReapplies` | apps/api/src/production.ts:2309-2366 | After a whole pass a listed recipient whose prefix is among the first 1,000 recorded has the rule its whole journal gives, and its prefix is resolved |
| `JournalScan.InterruptedIsStuck` | packages/db/drizzle/0006_add_whatsapp_recipient_exclusions.sql:1108-1115 | A recovery cut between its first replay and its resolution is never taken up again, however many passes follow |
| `JournalScan.CrashCostsExactly` | apps/api/src/production.ts:2309-2366 | After a pass cut anywhere, a complete pass leaves the prefix of a recipient that was listed recorded exactly when its recovery was cut in the middle or a thousand recorded prefixes are still in front of it |
| `JournalScan.RecoveredEventuallyIff` | packages/db/drizzle/0006_add_whatsapp_recipient_exclusions.sql:1049-1066 | The exact condition under which any passes, cut short or not, resolve the prefix of a recipient projected since the restore: it has no rule, and fewer than 1,000 prefixes of no listed recipient are recorded before its own; then passes exist that end with the rule its whole journal gives |
| `JournalScan.FrontBlocks` | apps/api/src/production.ts:2315-2318 | While the first 1,000 recorded prefixes belong to no listed recipient, no number of passes, cut short or not, changes anything |
| `JournalScan.DeadPrefixesStarve` | apps/restore-coordinator/src/replay.ts:77-83 | A concrete table of 1,001 prefixes whose last belongs to a listed recipient: it stays admitted through any passes although its journal excludes it |
| `JournalScan.InterruptedRecoveryAdmits` | apps/api/src/production.ts:2351-2358 | A concrete journal whose interrupted recovery leaves a recipient admitted for good although its newest change excludes it |
| `WebhookSweep.Sweeper.Classify` | apps/api/src/webhook-recovery.ts:139-154 | Candidates in order, and candidates, invalid and too recent objects add up to the page |
| `WebhookSweep.FilterUnclaimed` | packages/db/src/webhook-event.ts:1230-1275 | Fails exactly when a candidate conflicts, otherwise keeps exactly the unclaimed ones |
| `WebhookSweep.CandidatesInOrder` | apps/api/src/webhook-recovery.ts:139-154 | The candidates keep the order of the listing |
| `WebhookSweep.UnclaimedInOrder` | packages/db/src/webhook-event.ts:1230-1275 | The unclaimed messages keep the order of the candidates, each as often as it occurs |
| `WebhookSweep.Sweeper.Publish` | apps/api/src/webhook-recovery.ts:159-161 | Publishes the messages in order up to the failure |
| `WebhookSweep.Sweeper.Sweep` | apps/api/src/webhook-recovery.ts:125-172 | One round: what it publishes, and that the checkpoint moves only after everything unclaimed on the page was published |
| `WebhookSweep.CyclePublishes` | apps/api/src/webhook-recovery.ts:125-172 | Over a full cursor cycle, with rounds failing anywhere and other objects changing, every object that stays valid, old enough and unclaimed is published |
| `WebhookSweep.CoveredOrAhead` | apps/api/src/webhook-recovery.ts:125-172 | The checkpoint cannot get past a key, or back to the start, without a completed round over it |
| `WebhookSweep.CompletesIff` | packages/db/src/webhook-event.ts:1255-1275 | A round completes exactly when nothing fails and no candidate on its page conflicts |
| `WebhookSweep.ConflictBlocks` | apps/api/src/webhook-recovery.ts:156-162 | A candidate that stays in conflict stops the sweep: the checkpoint never passes it and nothing at or behind it is published |
| `WebhookSweep.ConflictBlocksForGood` | packages/db/src/webhook-event.ts:1255-1275 | Two stored objects, the first in conflict: in any number of rounds the second is never published |
| `WebhookSweep.CycleEnds` | apps/api/src/webhook-recovery.ts:125-172 | Over an unchanged bucket, completed rounds that list from the saved checkpoint end the cycle after at most one more of them than keys lie ahead |
| `WebhookSweep.RoundAdvances` | apps/api/src/webhook-production.ts:398-430 | A completed round that listed from the saved checkpoint leaves exactly its page behind or ends the cycle; one that fell back to the start of the bucket is not meant |

## Left out

- Cursor signing, expiry and context binding: a cursor is an abstract codec that
  may fail to sign.
- An empty page of `read_messages` can set `has_older` without a cursor, so the
  cursor statements are about non-empty pages.
- A stored message that has no ciphertext although it was not deleted, for which
  the row loop throws.
- Text forms and precision of times: times are integers, so differences between
  the milliseconds of cursors and journal entries and the microseconds of the
  database are not modelled.
- Image and PDF signature checks behind the base64 checks, downloads and redirects.
- `WebhookSweep.Sweeper.Classify`: does not model `messageFromObject` and
  `parsePositiveInteger`, because one reading settles them; whether an object is a
  valid event is a field of the object.
- The recipient list endpoint, request parsing and HTTP answers of exclusions.
- The purge of messages that a cutoff triggers: cutoffs are values only.
- `SendStatus.ReceiptBounds`: does not promise that a receipt's status stays, because
  webhook evidence changes the status of an identified operation
  (`SendStatus.SentCanGoBack`); it promises what remains true.
- `SendProtocol.OneAttemptWithinBindingLife`: does not promise a single attempt when a
  connection is deleted, because that frees the key
  (`SendProtocol.DeletionAllowsSecondAttempt`).
- Restoring the database to an earlier snapshot in the send protocol, which would
  also drop operations committed since; the exclusion protocol has restores.
- Deletion of a grant or an account: no call under the key is possible afterwards.
- Waiting for row locks: a prepared transition carries the time at which it takes
  effect in the model; a transaction that started earlier and waited is not modelled.
- Stored media of outgoing attachments, quotas and the telemetry counters of the scans.
- `ExclusionWorkers.World.RecoverPrepared`: the pass as code runs without others in
  between; a pass with others interleaved is covered by the protocol's runs.
- New projections and further restores between the passes of the journal scan: the
  directory and the time of the restore stay fixed.
- `JournalScan.Scan.Recover`: other writers during the scan are not modelled.
- `WebhookSweep.RoundAdvances`: leaves out a round that falls back to the start of the
  bucket, because it starts the cycle over.
- `WebhookSweep.Sweeper.Sweep`: the bucket of a round does not change while the round runs.
- `preflight` of a send, the daily limits and the audit log.
- OAuth, API keys, connection health, deletion handlers, scripts and the remaining
  routes: their branching is settled by one reading or lies in parts not modelled here.
