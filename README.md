# ljdump: the archiving engine, modelled in Dafny

`ljdump.py` archives a LiveJournal journal into a local directory. This
project models the parts of it that decide what ends up on disk:

- the `.last` watermark file: `writelast` and the inline reader, including
  text-mode newline translation, `readline` and Python's `int()`/`str()` on
  the comment mark (`text.dfy`, `watermark.dfy`);
- `flatresponse`, the parser of the flat protocol's name/value lines
  (`flat.dfy`);
- `dumpelement`/`writedump`, with `saxutils.escape`, and `gettext`
  (`markup.dfy`);
- the server URL clean-up and the `authas` suffix (`session.dfy`);
- the userpic keyword map, the MIME extension table and the picture file
  names (`userpics.dfy`);
- the entry sync loop, the comment-meta pagination and the comment-body
  merge: pure definitions and their properties (`entries.dfy`,
  `comments.dfy`), and an `Archiver` class that runs the three loops over its
  fields (`archiver.dfy`).

The remote service enters as data. The entry loop gets the successive
`syncitems` replies as pages, each item paired with what fetching it returns.
The comment loops get the successive export replies: a failed request, or a
page of records. A request beyond the replies given fails. For the entry loop,
a missing reply counts as an empty page, which ends the loop.

The files the run writes are fields of `Archiver`:

- the entry files, by item name;
- every watermark written to `.last`;
- the saved `comment.meta` and `user.map`;
- the comment collections `C-<jitemid>`;
- the list of collections rewritten.

The places where the program raises an exception become outcomes:

- an item with an empty name (`item['item'][0]`);
- a body id missing from the meta cache (`metacache[id]`);
- a `subject`, `date` or `body` element without a child (`gettext`);
- a meta page without a readable `<maxid>`;
- a value line missing in a flat response (`value[-1]`).

Two behaviours of the program worth knowing:

- The body phase's mark can pass the meta phase's mark. A
  body reply may hold an id above `newmaxid` whose meta the cache already
  holds. `Comments.BodyMarkWithinMetaMark` proves the bound under the
  condition that makes it true: every id already cached is at most
  `lastmaxid`.
- On Python 3, `codecs.utf_8_decode` at ljdump.py:359 is handed a `str`.
  The fallback branch is therefore the one normally taken.
  `Userpics.PictureFile` keeps both branches, chosen by a flag.

## Model

| member | source | states |
|---|---|---|
| Text.ReadLine | ljdump.py:161-164 | a line and the rest concatenate back to the text; the line is empty only at the end; it has no newline before its last character, and ends with one unless it is the last line |
| Text.ReadLineOfLine | ljdump.py:161-166 | a line followed by its newline is read back exactly, with the rest left over |
| Text.UniversalNewlines | ljdump.py:160 | text-mode reading leaves no carriage return and never lengthens the text |
| Text.UniversalNewlinesKeepsPlainText | ljdump.py:160 | text without carriage returns is read unchanged |
| Watermark.ShowNat | ljdump.py:116 | `str` of a natural number is non-empty, all decimal digits, with no leading zero |
| Watermark.DigitsOfShowNat | ljdump.py:170 | reading back the digits of a natural number gives the number |
| Watermark.ParseShowInt | ljdump.py:170 | `int(str(n)) == n`, reading what `writelast` formats, for every integer, negative ones included |
| Watermark.ReadLast | ljdump.py:157-173 | a missing or empty `.last` leaves the defaults `("", 0)` |
| Watermark.LastRoundTrip | ljdump.py:113-173 | what `writelast` writes reads back as the same cursor and mark, for any cursor without a line break |
| Watermark.MissingMaxIdReadsZero | ljdump.py:164-168 | a missing or empty second line reads as mark 0 |
| Flat.FlatResponse | ljdump.py:52-64 | the loop returns what `Flat.Decode` says: lines read two at a time, each chomped, stopping at the first empty name line |
| Flat.DecodeFailsIffValueMissing | ljdump.py:56-61 | the parse fails (`value[-1]` on an empty read) iff the first empty line falls where a value is expected |
| Flat.DecodeEncode | ljdump.py:52-64 | name/value pairs written as lines parse back to the map that assigns them in order |
| Flat.AssignLastWins | ljdump.py:63 | a name is in the map iff some pair has it; a repeated name keeps its last value; other names keep their values |
| Markup.Escape | ljdump.py:104 | escaped text has no raw `<` or `>` and is never shorter |
| Markup.UnescapeEscape | ljdump.py:104 | unescaping `&amp;`, `&lt;`, `&gt;` inverts escaping: no text is lost |
| Markup.ReadDumpElement | ljdump.py:94-105 | each string `dumpelement` writes reads as the open tag, text line or close tag it was written for |
| Markup.ParseDumpElement | ljdump.py:86-105 | the strings written for an element parse back to its name and all its keys, texts and nested elements, in order |
| Markup.WriteDumpReadsBack | ljdump.py:107-111 | an entry file is the XML declaration followed by strings that read back as the element `event` with all the event's fields, in order |
| Session.LastOccurrence | ljdump.py:133 | the greedy `(.*)` match ends at the last occurrence of `/interface/xmlrpc`, and there is none when it finds none |
| Session.ServerBaseOfLine | ljdump.py:133-135 | a one-line server URL is unchanged without the endpoint, and otherwise cut at its last occurrence |
| Session.ServerBaseOfEndpoint | ljdump.py:133-135 | a base followed by the endpoint gives back the base |
| Session.AuthAs | ljdump.py:136-139 | the suffix is empty iff the user archives their own journal, and is otherwise `&authas=` and the journal |
| Userpics.ZipMapLastWins | ljdump.py:182 | `dict(zip(...))`: a keyword maps to the URL paired with its last occurrence |
| Userpics.UserpicMapKeys | ljdump.py:182-184 | the keys are the keywords paired with a URL, plus `*` iff there is a default picture |
| Userpics.UserpicMapValue | ljdump.py:182-184 | a keyword's URL is the one paired with its last occurrence; `*` maps to the default picture |
| Userpics.Extension | ljdump.py:41-45 | an unknown or missing content type gives ""; GIF, JPEG and PNG give `.gif`, `.jpg` and `.png`; any extension is four characters starting with a dot |
| Userpics.Sanitize | ljdump.py:357 | every one of `* ? \ / : < > " \|` becomes `_`, and every other character is kept |
| Userpics.AsciiOnly | ljdump.py:363 | every non-ASCII character becomes `_`, and every ASCII one is kept |
| Userpics.PictureFileSafe | ljdump.py:355-364 | the picture file name keeps the keyword's length, has no forbidden character before the extension, and is ASCII on the fallback path |
| Userpics.SanitizeIdempotent | ljdump.py:357 | sanitising a sanitised keyword changes nothing |
| Entries.FirstEmpty | ljdump.py:194-195 | the loop stops at the first empty page: all pages before it hold items |
| Entries.FirstBadName | ljdump.py:197 | the first item with an empty name: all items before it have names |
| Entries.ProcessedMatchesChanges | ljdump.py:186-218 | the items processed are those reported before the first empty page, up to the first with an empty name; the loop completes iff there is none |
| Entries.ReplayAppend | ljdump.py:186-218 | processing the pages one after another is processing all their items in order |
| Entries.ReplayMatches | ljdump.py:196-218 | after the items, the cursor is the last item's time; one watermark is written per item, in order; the counters grow by the written and failed entries; each entry file holds its last writer's event |
| Entries.EntryCounted | ljdump.py:197-216 | every `L` item moves exactly one of `newentries` and `errors` |
| Entries.OnlyEntriesCounted | ljdump.py:197 | items that are not `L` items move neither counter |
| Entries.PersistedReadsBack | ljdump.py:217-218 | after each item, `.last` reads back as that item's time and the unchanged comment mark |
| Entries.ArchiveLastWins | ljdump.py:207-208 | an entry file exists iff it existed or some item wrote it; it holds the first event of its last writer; files no item wrote are untouched |
| Entries.LastSyncIsLastOfLastPage | ljdump.py:186-218 | when no item has an empty name, the cursor ends at the time of the last item of the last non-empty page |
| Comments.MaxOfIsMax | ljdump.py:275-282 | the meta mark after a page is the largest of the old mark and the page's ids |
| Comments.CacheMetaLastWins | ljdump.py:276-280 | every comment overwrites the cache entry for its id; the last record wins; other ids keep their entries |
| Comments.MapUsersLastWins | ljdump.py:283-284 | every user record overwrites the map entry for its id; the last one wins |
| Comments.MetaRunMonotone | ljdump.py:259-286 | the meta loop never lowers the mark and never drops a cached comment or user |
| Comments.MetaRunCoversCache | ljdump.py:275-286 | when every cached id is at most the mark, that stays true through the meta loop |
| Comments.MetaRunIgnoresLater | ljdump.py:285-286 | once the mark reaches a page's declared maxid, or the page crashes, no later reply is read |
| Comments.MakeComment | ljdump.py:309-320 | a comment is built iff its id is cached and `gettext` reads its subject, date and body; it keeps the record's id and parent, holds exactly those three texts, takes its state from the cache, and has a user iff its poster is in the user map, namely the mapped one |
| Comments.MergeKeepsUnique | ljdump.py:321-339 | merging keeps ids unique in every collection and leaves the id in its collection; other entries' collections are untouched; the mark becomes the larger of it and the id; a duplicate leaves the collections, the count and the rewrite log alone; a new id appends exactly that comment, counts one and logs its entry once as rewritten |
| Comments.ApplyBodiesCrashSticks | ljdump.py:317 | a crash ends the page: the records after it change nothing |
| Comments.ApplyBodiesGrows | ljdump.py:308-339 | through a page, collections stay duplicate-free and only grow at their end; the mark does not drop; the count grows by the rewrites |
| Comments.ApplyBodiesMerges | ljdump.py:308-339 | after a page without a crash, every record's id is in its entry's collection, and the mark is at least every record's id, duplicates included |
| Comments.ApplyBodiesBounded | ljdump.py:317-339 | a record that does not crash has a cached id, so the mark stays within any bound on the start mark and the cached ids |
| Comments.ApplyBodiesMarkGrows | ljdump.py:338-339 | the mark never drops through a page of records |
| Comments.BodyRunMarkGrows | ljdump.py:295-341 | the body loop never lowers the mark, whatever the collections hold |
| Comments.BodyRunGrows | ljdump.py:295-341 | the body loop keeps collections duplicate-free, only appends, and counts each rewrite once |
| Comments.BodyRunBounded | ljdump.py:295-341 | the body mark stays within any bound on the start mark and the cached ids |
| Comments.BodyRunIgnoresLater | ljdump.py:340-341 | once the mark reaches `newmaxid`, or a record crashes, no later reply is read |
| Comments.BodyMarkWithinMetaMark | ljdump.py:259-343 | with every previously cached id at most `lastmaxid`, the body phase never passes the meta phase's mark |
| Archiver.FindComment | ljdump.py:325-329 | the scan finds the id iff some comment of the collection has it |
| Archiver.Archiver.constructor | ljdump.py:153-173 | a run starts from the loaded watermark with zero counters and the directory's files |
| Archiver.Archiver.SyncPage | ljdump.py:196-218 | a page's items are processed up to the first with an empty name, each as `Entries.Step` says |
| Archiver.Archiver.SyncEntries | ljdump.py:186-218 | the entry loop leaves the state `Entries.Replay` gives for the processed items, and completes iff `Entries.Completes` |
| Archiver.Archiver.SyncCommentMeta | ljdump.py:245-293 | the meta loop computes `Comments.MetaRun` from the loaded caches; both caches are saved however the loop ends, unless it crashed |
| Archiver.Archiver.MergeComment | ljdump.py:321-339 | one comment is merged as `Comments.Merge` says: appended, rewritten and counted only when its id is new |
| Archiver.Archiver.SyncCommentBodies | ljdump.py:295-345 | the body loop computes `Comments.BodyRun`; unless it crashed, the mark is stored and written to `.last` with the cursor |
| Archiver.Archiver.SyncComments | ljdump.py:245-345 | the meta loop's result as `Comments.MetaRun` gives it, then, unless it crashed, the body loop's under the meta mark as `Comments.BodyRun` gives it; the outcome says which phase crashed; the mark never drops |
| Archiver.Archiver.Run | ljdump.py:186-345 | the final state is the entry sync's `Entries.Replay`, then the meta loop's `Comments.MetaRun` if the entries completed, then the body loop's `Comments.BodyRun` if the meta loop did not crash; the outcome names the phase that crashed; after a finished run `.last` holds the final cursor and mark and the mark has not dropped; collections without duplicate ids keep none |

## Left out

- Authentication is left out: `calcchallenge` (MD5), `getljsession`, `dochallenge` and the XML-RPC proxy. The replies they lead to are inputs.
- Network I/O is left out: `urllib` requests, cookies and the userpic byte copy.
- XML DOM parsing and serialisation of pages and collections (`minidom`, `createxml`, `writexml`) are left out. Pages are lists of records and collections are lists of comments.
- Collections are held as parsed comments. A collection file whose comment id is not an integer would make `int()` raise; that is not modelled.
- Attribute text that `int()` cannot read (`c.getAttribute("id")`) is not modelled; record ids are integers.
- `pickle` is not modelled; the caches are maps.
- `wrap`'s decoding of bytes and its cp1252 fallback are library text-encoding details and are not modelled; event values are text.
- Flat responses are treated as text, not bytes, so the UTF-8 decoding step is not modelled.
- Watermark.ParseInt: Python's `int()` also accepts non-ASCII digits and whitespace; the model accepts ASCII digits, ASCII and the C0 separator whitespace, a sign and single underscores.
- Watermark.ReadLast: a second line that `int()` cannot read is only reported (`UnparsableMaxId`). The program then keeps the text as the mark, writes it back in the entry loop and raises in the comment phases. `Archiver` is built from a loaded watermark only.
- Markup.ParseDumpElement: the round trip is stated over the strings `dumpelement` writes, one per `f.write`, with names free of markup characters.
- Markup.GetText: a first child that is an element rather than text is not distinguished from text.
- The userpic export loop is left out: the index file, the downloads and the picture files (ljdump.py:347-369). Its file names are modelled by `Userpics.PictureFile`.
- `Archiver.Archiver.SyncCommentBodies` does not model one failure: a failed body request when no export reply was ever opened. The `finally: r.close()` at ljdump.py:306-307 then meets a dict and raises. The model treats it as a failed fetch.
- The summary prints, the `__main__` block and the commented-out bulk `getevents` code are left out.
- A server that keeps sending pages would keep the loops running; the finite reply lists bound every loop.
