# Feed ingestion of the ARSE feed reader, modelled in Dafny

This project models the part of the ARSE Android feed reader that brings feeds in and keeps them:

- **Feed parsers.** Two are modelled: the current `FeedParser` and the older one in the `example.inventory` tree. Each is a forward-only cursor over XML pull events. It steps into `channel` and turns every `item` (RSS 2.0) or `entry` (Atom, RFC 4287) into a post. Any other subtree it skips as a whole.
  - Inside an entry, `simplifyTag`, an ordered substring classifier, maps dialect tags to fields.
  - A defaulting pass then builds the record: a synthetic id, the content/description fallback, a description cut to at most 300 UTF-16 units and default strings.
  - `parseDate` tries an ordered list of date formats and returns a sentinel when none matches.
- **The fetch gate of `loadXmlFromNetwork`.** It hashes the first 1000 UTF-16 units of the download and compares the hash with the feed's stored `contentHash`. It then either skips the download, or stores the new hash and parses the trimmed text. Finally it inserts the posts, prunes the feed to 200 posts and reports completion.
- **OPML.** Two importers are modelled: the current `OPMLParser` and the older one. Both walk the events once with one mutable "current category".
  - The exporter `OPMLSaver` groups the feeds in a case-insensitively ordered map and writes an `opml`/`body`/`outline` tree.
  - For any document on which the import succeeds, both importers return exactly the feeds of an independent reference scan: one per feed outline they can see, in document order. Documents on which the import fails (an outline with `xmlUrl` but no `text`, a failed `skip` or `nextTag`) are not covered by this.
  - The round trip from export back through import is proved for both importers, and for both behaviours of the pull parser's attribute lookup at end tags.
- **Storage.** The Room tables behind `PostDao` and `FeedDao` are modelled, together with the `Post` record and its `Parcel` encoding.
- **`ArseViewModel`.** This covers the feed-record helpers, the entry check, the choice among the post queries and the retention pruner. The pruner deletes a feed's oldest posts in chunks of ten.
- **The feed list's category view.** The `allFeeds` observer rebuilds the case-insensitive category map and sorts each group by lower-cased name. `openMultiFeed` builds the id and url arrays of one group.

The modules follow the program's structure:

- `JavaLang`: `String.hashCode` with 32-bit wrap-around, Kotlin `trim`/`isBlank`/`toLowerCase`, `Long.toString` and string order.
- `XmlPull`: the pull-parser API over a `seq<Event>` with an explicit cursor, plus the shared `readText`, `skip` and `readLink`.
- `XmlTree`: element trees and their event serialisation, used to state what the parsers do on well-formed documents.
- `FeedCommon`: `parseDate`.
- `FeedParser`, `FeedTree`, `FeedExamples`: the current feed parser, its tree-level characterisation and worked examples.
- `LegacyParser`, `LegacyFeedLevel`: the older feed parser, and what its feed loop reads on any event stream.
- `OpmlImport`, `OpmlScan`, `CategoryMap`, `OpmlExport`: the two OPML importers, their reference scan, the category map, and the exporter with its round trip.
- `StoreData`, `Rows`, `PostDao`, `FeedDao`: the entities, filtering and stable sorting, and the two tables.
- `ViewModel`, `Fetch`, `FeedList`: the view model, the fetch gate and the feed list's category view.

### What the code does where a plain reading says otherwise (the model follows the code)

- The exporter writes each category's feeds in input order. It does not sort them by name (`OPMLParser.kt:156`).
- The fetch step does not reach the completion callback in every case. `XmlPullParserException` and `FileNotFoundException` are caught, and then the prune and the callback run. Any other exception, such as the `IllegalStateException` of `skip`, escapes the `GlobalScope.launch(Dispatchers.IO)` block (`FeedParser.kt:389`). That block has no handler, so the app crashes after the hash has been stored, with no insert, no prune and no callback. The loop of `readAuthor` throws nothing: it never ends, and the fetch never gets past it. `Fetch.LoadXmlFromNetwork` returns `done == false` in both cases.
- The parser builds its `Post` with a `description`, which the stored `Post` entity (`data/Post.kt:27-50`) lacks. The parser's record (`FeedParser.ParsedPost`) keeps the description; `Fetch.Stored` drops it on insertion.
- The older `Item` entity declares `feedName`, but the older parser passes the feed's URL. The model's `Item` has `feedUrl`.
- `readAuthor` (current parser) loops forever once its first `readText` stops on a start tag other than `name`. The model returns an explicit `Diverges` error there.
- Right after `<channel>`, the current `readFeed` performs one extra `next()`. When an `item` directly follows `<channel>` with no white space in between, that item is lost. `FeedTree.MinifiedRssLosesItem` shows it.
- The older `readFeed` makes the same extra `next()` and also ends at the first end tag it sees. In a minified RSS document it therefore reads no item at all, as `LegacyParser.MinifiedRssReadsNothing` shows.
- The older `readEntry` ends at the first end tag its loop sees. An Atom `author` with a nested `name` ends the entry early, and a `title` after it is never read. The whole parse then fails on `title!!`, as `LegacyParser.AtomAuthorFirstFails` shows.
- The current OPML importer clears the category at every end tag whose `xmlUrl` lookup is null. With a pull parser that reports no attributes at end tags, every feed after the first of a category comes back "Uncategorized". `OpmlExport.RoundTripLosesCategories` shows it.

## Model

Paths are relative to the repository root.

| member | source | states |
|---|---|---|
| JavaLang.Wrap32 | app/src/main/java/com/alex/arse/FeedParser.kt:403 | Java `int` narrowing: the result is congruent to its argument modulo 2^32 and equals it when it is already in range |
| JavaLang.WrapCongruent | app/src/main/java/com/alex/arse/FeedParser.kt:403 | two integers congruent modulo 2^32 narrow to the same `int` |
| JavaLang.Units | app/src/main/java/com/alex/arse/FeedParser.kt:403 | a character is one or two UTF-16 code units below 0x10000, itself when in the Basic Multilingual Plane |
| JavaLang.Utf16Bmp | app/src/main/java/com/alex/arse/FeedParser.kt:175 | in the Basic Multilingual Plane, a string's length in UTF-16 units is its length |
| JavaLang.Utf16Prefix | app/src/main/java/com/alex/arse/FeedParser.kt:175 | a prefix's UTF-16 units are a prefix of the string's units |
| JavaLang.UnitPrefix | app/src/main/java/com/alex/arse/FeedParser.kt:175 | the longest prefix of whole characters within n UTF-16 units: a prefix, within the bound, and either the whole string or one whose next character would pass the bound |
| JavaLang.UnitPrefixUnits | app/src/main/java/com/alex/arse/FeedParser.kt:175 | that prefix's units are a prefix of the string's units, at most one unit short of min(n, the string's length in units) |
| JavaLang.UnitPrefixBmp | app/src/main/java/com/alex/arse/FeedParser.kt:175 | in the Basic Multilingual Plane that prefix is `substring(0, min(n, length))` |
| JavaLang.HashCodeEmpty | app/src/main/java/com/alex/arse/FeedParser.kt:272 | `"".hashCode()` is 0 |
| JavaLang.HashCodeStep | app/src/main/java/com/alex/arse/FeedParser.kt:272 | the Java `String.hashCode` recurrence `h = 31*h + c` with `int` overflow: appending a BMP character takes one step from the previous hash |
| JavaLang.LeadingBlanks | app/src/main/java/com/alex/arse/FeedParser.kt:413 | where `trim` starts keeping: every character before is white space, the one there is not |
| JavaLang.TrailingBlanks | app/src/main/java/com/alex/arse/FeedParser.kt:413 | where `trim` stops keeping: every character after is white space, the one before is not |
| JavaLang.TrimSlices | app/src/main/java/com/alex/arse/FeedParser.kt:413 | `trim` returns a middle slice whose two cut-off ends are blank and which neither starts nor ends with white space |
| JavaLang.TrimIdempotent | app/src/main/java/com/alex/arse/FeedParser.kt:413 | trimming twice is trimming once |
| JavaLang.NotContainsByPair | app/src/main/java/com/alex/arse/FeedParser.kt:182-190 | a string with no neighbouring pair spelling the start of `t` does not contain `t` (why `simplifyTag` leaves a tag alone) |
| JavaLang.ContainsSelf | app/src/main/java/com/alex/arse/FeedParser.kt:182-190 | every string contains itself, so a tag equal to a rule's pattern matches it |
| JavaLang.ToLower | app/src/main/java/com/alex/arse/FeedListFragment.kt:58-60 | `toLowerCase` maps each character to its lower-case form and keeps the length |
| JavaLang.ToLowerIdempotent | app/src/main/java/com/alex/arse/FeedListFragment.kt:58-60 | lower-casing twice is lower-casing once |
| JavaLang.LexLessIrreflexive | app/src/main/java/com/alex/arse/FeedListFragment.kt:58-60 | string order is irreflexive |
| JavaLang.LexLessTransitive | app/src/main/java/com/alex/arse/FeedListFragment.kt:58-60 | string order is transitive |
| JavaLang.LexLessTotal | app/src/main/java/com/alex/arse/FeedListFragment.kt:58-60 | any two different strings are ordered one way or the other |
| JavaLang.LexLessAsymmetric | app/src/main/java/com/alex/arse/FeedListFragment.kt:58-60 | string order is asymmetric |
| JavaLang.Digits | app/src/main/java/com/alex/arse/FeedParser.kt:161 | the decimal digits of a natural number: non-empty, digits only |
| JavaLang.DigitsValueOfDigits | app/src/main/java/com/alex/arse/FeedParser.kt:161 | reading the digits back gives the number |
| JavaLang.LongToStringSign | app/src/main/java/com/alex/arse/FeedParser.kt:161 | `Long.toString` starts with '-' exactly for negative numbers |
| JavaLang.LongToStringInjective | app/src/main/java/com/alex/arse/FeedParser.kt:161 | distinct timestamps give distinct strings |
| FeedCommon.FirstParseIsFirst | app/src/main/java/com/alex/arse/FeedParser.kt:326-335 | the value is that of the first format in list order that parses the string, and the sentinel when none does |
| FeedCommon.ParseDate | app/src/main/java/com/alex/arse/FeedParser.kt:312-336 | the loop with early return yields the first successful parse; a `ParseException` only moves on; the sentinel when all fail |
| XmlPull.Attr | app/src/main/java/com/alex/arse/OPMLParser.kt:84 | `getAttributeValue(null, key)` is present exactly on a tag carrying that key, with its value |
| XmlPull.BalanceConcat | app/src/main/java/com/alex/arse/FeedParser.kt:94-95 | the depth change over two event runs is the sum of their depth changes |
| XmlPull.OpenRange | app/src/main/java/com/alex/arse/FeedParser.kt:94-95 | the depth at a later cursor is the earlier depth plus the balance of the events in between |
| XmlPull.Next | app/src/main/java/com/alex/arse/FeedParser.kt:60 | `next()` moves one event on, and fails at END_DOCUMENT |
| XmlPull.TagFrom | app/src/main/java/com/alex/arse/FeedParser.kt:49 | the tail of `nextTag()`: at most one white-space text is passed, then a tag or an error |
| XmlPull.NextTag | app/src/main/java/com/alex/arse/FeedParser.kt:49 | `nextTag()` lands on a tag one or two events on, having passed only white space, without leaving the element |
| XmlPull.ReadText | app/src/main/java/com/alex/arse/FeedParser.kt:287-294 | `readText()`: on a text event returns its text and stops on the next tag; otherwise returns "" and stays on that event |
| XmlPull.ClosesUnique | app/src/main/java/com/alex/arse/FeedParser.kt:297-309 | a start tag has at most one matching end tag |
| XmlPull.ClosesWithin | app/src/main/java/com/alex/arse/FeedParser.kt:297-309 | the span up to the matching end tag stays inside the element |
| XmlPull.WithinStep | app/src/main/java/com/alex/arse/FeedParser.kt:95 | one `next()` that does not reach an end tag stays inside the current element |
| XmlPull.SkipLoopCloses | app/src/main/java/com/alex/arse/FeedParser.kt:301-308 | the depth-counter loop, started inside a start tag, ends exactly on its matching end tag, whenever there is one |
| XmlPull.SkipEndCloses | app/src/main/java/com/alex/arse/FeedParser.kt:297-309 | `skip()` throws IllegalStateException exactly when not on a start tag; otherwise it succeeds exactly when the tag has a matching end tag, and stops there |
| XmlPull.SkipLoopNeverIllegal | app/src/main/java/com/alex/arse/FeedParser.kt:301-308 | the counting loop never throws IllegalStateException itself |
| XmlPull.Skip | app/src/main/java/com/alex/arse/FeedParser.kt:297-309 | the imperative depth-counter loop computes `SkipEnd` and ends on the matching end tag |
| XmlPull.SkipWithin | app/src/main/java/com/alex/arse/OPMLParser.kt:107-119 | a successful skip stays inside the skipped element |
| XmlPull.ReadLink | app/src/main/java/com/alex/arse/FeedParser.kt:203-223 | `readLink()` succeeds only from `<link>`, ends on `</link>` inside it, and returns `href` when that attribute is present |
| XmlPull.SkipUnlessEnd | app/src/main/java/com/example/inventory/OPMLParser.kt:119-121 | the `if (eventType != END_TAG) skip()` step never moves backwards |
| XmlPull.LinkWithin | app/src/main/java/com/example/inventory/OPMLParser.kt:104-124 | each path through the older importer's `readLink` stays within the `link` element |
| XmlTree.SerBalance | app/src/main/java/com/alex/arse/OPMLParser.kt:149-169 | a serialized element returns to the depth it started at and stays deeper in between |
| XmlTree.ElementCloses | app/src/main/java/com/alex/arse/OPMLParser.kt:149-169 | the last event of a serialized element is the matching end tag of its first |
| XmlTree.TextStays | app/src/main/java/com/alex/arse/FeedParser.kt:287-294 | a serialized text node is one text event that leaves the depth unchanged |
| XmlTree.DropOneSer | app/src/main/java/com/alex/arse/FeedParser.kt:60 | dropping the first event from laid-out pieces drops the first serialized event |
| XmlTree.AtConcat | app/src/main/java/com/alex/arse/OPMLParser.kt:149-169 | a concatenation laid out at a position is its halves laid out one after the other |
| FeedParser.SimplifyTagIdempotent | app/src/main/java/com/alex/arse/FeedParser.kt:182-190 | classifying an already classified tag changes nothing |
| FeedParser.SimplifyTagIdAuthor | app/src/main/java/com/alex/arse/FeedParser.kt:184-185 | `guid` maps to `id` and `dc:creator` to `author` |
| FeedParser.SimplifyTagDates | app/src/main/java/com/alex/arse/FeedParser.kt:186-188 | `dc:date` maps to `pubDate`; `updated` and the case-sensitive `pubDate` pass through as `pubDate` |
| FeedParser.SimplifyTagContent | app/src/main/java/com/alex/arse/FeedParser.kt:187 | `content:encoded` maps to `content`, while `media:content` is left alone (and so skipped) |
| FeedParser.ReadTitle | app/src/main/java/com/alex/arse/FeedParser.kt:194-199 | the title is the HTML-stripped element text, read without leaving the element |
| FeedParser.ReadAuthor | app/src/main/java/com/alex/arse/FeedParser.kt:227-246 | within the `author` element: an error of the first `readText` is returned as is; when that `readText` stops on a start tag (a child) other than `name`, and only then, the loop never ends (`Diverges`); on `name` the result is the name's text; otherwise it is the author element's own text |
| FeedParser.ReadDescription | app/src/main/java/com/alex/arse/FeedParser.kt:249-254 | succeeds only from `<description>` and ending on `</description>` |
| FeedParser.ReadContent | app/src/main/java/com/alex/arse/FeedParser.kt:257-265 | within its element and failing exactly when `readText` does: blank text with earlier content gives the earlier content; otherwise (non-blank text, or nothing earlier) the text itself, so a blank first content gives the blank |
| FeedParser.ContentGuard | app/src/main/java/com/alex/arse/FeedParser.kt:106 | handling a `content` child changes only the content field: blank text keeps earlier content untouched, and anything else stores the text |
| FeedParser.HandleKeepsContent | app/src/main/java/com/alex/arse/FeedParser.kt:99-108 | handling any child keeps a non-blank content that was already read |
| FeedParser.EntryLoopKeepsContent | app/src/main/java/com/alex/arse/FeedParser.kt:95-109 | once an entry has non-blank content, the rest of the entry loop never replaces it with a blank |
| FeedParser.ReadId | app/src/main/java/com/alex/arse/FeedParser.kt:268-273 | the id is `hashCode` of the element text |
| FeedParser.ReadTextDeeper | app/src/main/java/com/alex/arse/FeedParser.kt:237 | after a successful `readText` from a start tag, the cursor is deeper exactly when it stands on a start tag (the depth test of `readAuthor`) |
| FeedParser.ReadTimestamp | app/src/main/java/com/alex/arse/FeedParser.kt:276-283 | the timestamp reader stays within its element |
| FeedParser.Handle | app/src/main/java/com/alex/arse/FeedParser.kt:99-108 | dispatching one child on its classified tag stays within that child |
| FeedParser.EntryLoop | app/src/main/java/com/alex/arse/FeedParser.kt:95-109 | the entry loop only moves forward |
| FeedParser.AssembleFields | app/src/main/java/com/alex/arse/FeedParser.kt:164-179 | the record: feed id of the parser, `read` false, defaults "(no title)"/"(no author)"/"", content falling back to the description, and the description the longest prefix of whole characters of the stripped description-or-content that fits in 300 UTF-16 units |
| FeedParser.AssembleDescriptionBound | app/src/main/java/com/alex/arse/FeedParser.kt:175 | the parsed record's description is at most 300 UTF-16 units long, its units a prefix of the text's, at most one unit short of min(300, the text's length in units), and exactly `substring(0, min(300, length))` when the text lies in the Basic Multilingual Plane |
| FeedParser.SyntheticId | app/src/main/java/com/alex/arse/FeedParser.kt:159-162 | without an id element the id is `hashCode(title + timestamp)`, and two timestamps give two different hashed strings |
| FeedParser.ReadIdKept | app/src/main/java/com/alex/arse/FeedParser.kt:159-162 | an id read from the entry is kept |
| FeedParser.EntryEnd | app/src/main/java/com/alex/arse/FeedParser.kt:84-180 | reading an entry moves the cursor forward |
| FeedParser.EntryLoopCloses | app/src/main/java/com/alex/arse/FeedParser.kt:94-109 | the depth-guarded entry loop ends exactly on the entry's matching end tag, whatever end tags its children contain |
| FeedParser.ChildThenLoop | app/src/main/java/com/alex/arse/FeedParser.kt:99-108 | after a child is handled inside the entry, the loop still ends on the entry's end tag |
| FeedParser.EntryEndCloses | app/src/main/java/com/alex/arse/FeedParser.kt:84-180 | a successfully read entry ends on its own matching end tag |
| FeedParser.HandleChild | app/src/main/java/com/alex/arse/FeedParser.kt:99-108 | the `when` dispatch as a method computes `Handle` |
| FeedParser.ReadEntry | app/src/main/java/com/alex/arse/FeedParser.kt:84-180 | the imperative entry reader computes `EntryEnd` and stops on the entry's end tag |
| FeedParser.ReadFeed | app/src/main/java/com/alex/arse/FeedParser.kt:55-79 | the imperative feed loop computes `FeedLoop` |
| FeedParser.Parse | app/src/main/java/com/alex/arse/FeedParser.kt:43-52 | `parse()` computes `ParseFeed`: `nextTag()` to the root, then `readFeed()` |
| FeedTree.FeedLoopPieces | app/src/main/java/com/alex/arse/FeedParser.kt:60-77 | on laid-out pieces the feed loop reads an entry at exactly the positions `Visit` lists, in order |
| FeedTree.ParseDocument | app/src/main/java/com/alex/arse/FeedParser.kt:43-79 | a document rooted in a text node is an XML error; otherwise parsing reads an entry at each position of the walk, in document order |
| FeedTree.ParseFeedTextRoot | app/src/main/java/com/alex/arse/FeedParser.kt:49 | `nextTag()` at a non-white-space text root fails |
| FeedTree.VisitIsRef | app/src/main/java/com/alex/arse/FeedParser.kt:60-77 | without the channel glitch, the walk of `readFeed` visits exactly the `item`/`entry` positions a reader of RSS 2.0 and Atom expects |
| FeedTree.VisitDocument | app/src/main/java/com/alex/arse/FeedParser.kt:60-77 | for a whole document the walk and the reference positions agree |
| FeedTree.ParseDocumentNoGlitch | app/src/main/java/com/alex/arse/FeedParser.kt:55-79 | parsing a document reads one post per top-level `item`/`entry` (inside `channel` too), in document order |
| FeedTree.MinifiedRssVisit | app/src/main/java/com/alex/arse/FeedParser.kt:67-69 | in `<rss><channel><item>…` without white space the walk visits no item, though the reference finds one |
| FeedTree.MinifiedRssLosesItem | app/src/main/java/com/alex/arse/FeedParser.kt:67-69 | parsing that document yields no posts, while the expected reading has one entry |
| FeedExamples.AtomAuthorName | app/src/main/java/com/alex/arse/FeedParser.kt:227-246 | an Atom `author` with a nested `name` yields the name |
| FeedExamples.RssAuthorText | app/src/main/java/com/alex/arse/FeedParser.kt:227-246 | an RSS `author` with text yields the text |
| FeedExamples.AuthorWithoutName | app/src/main/java/com/alex/arse/FeedParser.kt:233-243 | an `author` whose first child is not `name` makes the loop spin: `Diverges` |
| FeedExamples.BlankContentKeepsEarlier | app/src/main/java/com/alex/arse/FeedParser.kt:257-265 | a blank content element keeps earlier content, and yields the blank itself when there was none |
| FeedExamples.LinkForms | app/src/main/java/com/alex/arse/FeedParser.kt:203-223 | both the Atom `link@href` form and the RSS text form yield the url |
| LegacyParser.SimplifyTagMediaContent | app/src/main/java/com/example/inventory/FeedParser.kt:170-178 | without a media guard, `media:content` maps to `content` in the older parser but not in the current one |
| LegacyParser.SimplifyTagAgrees | app/src/main/java/com/example/inventory/FeedParser.kt:170-178 | on tags without "content" the two classifiers agree |
| LegacyParser.ReadTitle | app/src/main/java/com/example/inventory/FeedParser.kt:182-187 | the title is the unstripped element text; it succeeds exactly from `<title>` ending on `</title>` |
| LegacyParser.ReadTimestamp | app/src/main/java/com/example/inventory/FeedParser.kt:247-254 | the timestamp is `parseDate` of the element text over the two formats |
| LegacyParser.ReadTimestampFormats | app/src/main/java/com/example/inventory/FeedParser.kt:283-305 | the first of the two formats wins, then the second, and -1 when neither parses |
| LegacyParser.Handle | app/src/main/java/com/example/inventory/FeedParser.kt:88-97 | dispatching one child moves the cursor forward |
| LegacyParser.ContentOverwrites | app/src/main/java/com/example/inventory/FeedParser.kt:231-236 | a later content element always replaces the earlier one, blank or not |
| LegacyParser.EntryLoop | app/src/main/java/com/example/inventory/FeedParser.kt:84-98 | the entry loop ends on an end tag further on |
| LegacyParser.EntryLoopFirstEnd | app/src/main/java/com/example/inventory/FeedParser.kt:84-87 | over text, the loop stops at the first end tag it meets, whatever element it closes, with the fields unchanged |
| LegacyParser.EntryLoopNextChild | app/src/main/java/com/example/inventory/FeedParser.kt:84-97 | over text, the first start tag is handed to the dispatch, whose error ends the entry, and the loop goes on from where the handler stopped |
| LegacyParser.Assemble | app/src/main/java/com/example/inventory/FeedParser.kt:166-167 | construction fails with a NullPointerException exactly when there is no title |
| LegacyParser.AssembleFields | app/src/main/java/com/example/inventory/FeedParser.kt:148-167 | with a title: author and link default to "", content falls back to description then "", `read` false, feed url kept, id from the element or `hashCode(title + timestamp)` |
| LegacyParser.SyntheticId | app/src/main/java/com/example/inventory/FeedParser.kt:149-151 | two timestamps give two different hashed strings |
| LegacyParser.EntryEnd | app/src/main/java/com/example/inventory/FeedParser.kt:75-168 | reading an entry ends on an end tag further on |
| LegacyParser.FlatChildRead | app/src/main/java/com/example/inventory/FeedParser.kt:88-97 | a child with only text inside is handled up to its own end tag |
| LegacyParser.EntryEndCloses | app/src/main/java/com/example/inventory/FeedParser.kt:75-168 | an entry whose children hold only text ends on its own end tag |
| LegacyParser.HandleChild | app/src/main/java/com/example/inventory/FeedParser.kt:88-97 | the dispatch as a method computes `Handle` |
| LegacyParser.ReadEntry | app/src/main/java/com/example/inventory/FeedParser.kt:75-168 | the imperative entry reader computes `EntryEnd` and stops on an end tag |
| LegacyParser.ReadFeed | app/src/main/java/com/example/inventory/FeedParser.kt:45-68 | the imperative feed loop computes `FeedLoop` (what that reads: `LegacyFeedLevel.FeedLoopLevel`) |
| LegacyFeedLevel.LevelItemsSound | app/src/main/java/com/example/inventory/FeedParser.kt:49-61 | the listed positions are `item`/`entry` start tags directly at the level, inside the range, in increasing order |
| LegacyFeedLevel.LevelItemsComplete | app/src/main/java/com/example/inventory/FeedParser.kt:49-61 | every `item`/`entry` start tag directly at the level in the range is listed |
| LegacyFeedLevel.CloseExists | app/src/main/java/com/example/inventory/FeedParser.kt:63-64 | a start tag inside a level that later ends has its matching end tag before or at that end |
| LegacyFeedLevel.ChildInside | app/src/main/java/com/example/inventory/FeedParser.kt:63-64 | a child of the level closes before the level ends, and the loop is back at the level there |
| LegacyFeedLevel.LevelItemsSkipChild | app/src/main/java/com/example/inventory/FeedParser.kt:63-64 | no item directly at the level starts inside a skipped child |
| LegacyFeedLevel.PlainLevelFrom | app/src/main/java/com/example/inventory/FeedParser.kt:49-66 | a later position at the same level still sees only plain children |
| LegacyFeedLevel.LoopEnds | app/src/main/java/com/example/inventory/FeedParser.kt:49 | `next()` onto an end tag ends the loop with nothing more |
| LegacyFeedLevel.LoopPasses | app/src/main/java/com/example/inventory/FeedParser.kt:50-52 | a non-tag event is passed over |
| LegacyFeedLevel.LoopSkips | app/src/main/java/com/example/inventory/FeedParser.kt:63-64 | any other start tag is skipped whole, and the loop goes on from its end tag |
| LegacyFeedLevel.LoopChannel | app/src/main/java/com/example/inventory/FeedParser.kt:56-58 | `<channel>` costs one extra `next()`, whatever event that passes over |
| LegacyFeedLevel.LoopReads | app/src/main/java/com/example/inventory/FeedParser.kt:59-61 | an `item`/`entry` is read by `readEntry`; its failure ends the feed, else its item comes before the rest |
| LegacyFeedLevel.ItemsAtCons | app/src/main/java/com/example/inventory/FeedParser.kt:59-61 | reading entries at a list of positions: the first, then the rest, the first failure winning |
| LegacyFeedLevel.FeedLoopLevel | app/src/main/java/com/example/inventory/FeedParser.kt:45-68 | on any stream whose children at the level are plain, the loop returns exactly the entries read at the `item`/`entry` start tags directly at its level, in document order, up to the first end tag at that level, and reads nothing after it |
| LegacyFeedLevel.LevelStepItem | app/src/main/java/com/example/inventory/FeedParser.kt:59-61 | the item case of `FeedLoopLevel`: the entry read, then the rest of the level |
| LegacyFeedLevel.ChannelThenLevel | app/src/main/java/com/example/inventory/FeedParser.kt:56-58 | after `<channel>` and its extra `next()` the loop reads the channel's items; when the passed-over event is not a tag, it stops at `</channel>`, whatever follows |
| LegacyFeedLevel.ParseFeedLevel | app/src/main/java/com/example/inventory/FeedParser.kt:31-68 | `parse()` of a document whose root has plain children returns one item per `item`/`entry` child of the root, in order |
| LegacyParser.Parse | app/src/main/java/com/example/inventory/FeedParser.kt:31-42 | `parse()` computes `ParseFeed` |
| LegacyParser.MinifiedRssReadsNothing | app/src/main/java/com/example/inventory/FeedParser.kt:49-58 | `<rss><channel><item>…</item><item>…</item></channel></rss>` without white space yields no items at all: the extra `next()` steps over the first `<item>`, and the loop ends at its `</item>` |
| LegacyParser.MinifiedTitleSkipped | app/src/main/java/com/example/inventory/FeedParser.kt:268-280 | in that document `skip()` on the first `<title>` ends on its `</title>` |
| LegacyParser.AtomAuthorFirstFails | app/src/main/java/com/example/inventory/FeedParser.kt:84-98 | an Atom entry with a nested `author/name` before its `title` makes the whole parse fail with NullPointerException |
| LegacyParser.AtomEntryEndsAtName | app/src/main/java/com/example/inventory/FeedParser.kt:84-98 | in that entry the loop stops at `</name>`, with author "" and no title |
| OpmlImport.ReadOutline | app/src/main/java/com/alex/arse/OPMLParser.kt:81-104 | no `xmlUrl`: no feed, category := `text`; otherwise the feed (xmlUrl, text, htmlUrl or "", category or "Uncategorized", id 0, hash 0), and a NullPointerException exactly when `text` is missing |
| OpmlImport.LoopFeedsFromOutlines | app/src/main/java/com/alex/arse/OPMLParser.kt:39-76 | every imported feed comes from a feed outline at or after the cursor, under a category that was current there |
| OpmlImport.ParseFeedsFromOutlines | app/src/main/java/com/example/inventory/OPMLParser.kt:44-71 | every feed either importer returns comes from a feed outline of the document |
| OpmlScan.VisibleNext | app/src/main/java/com/alex/arse/OPMLParser.kt:46-60 | one step from a visible event that opens nothing opaque reaches a visible event |
| OpmlScan.VisibleAfterSkip | app/src/main/java/com/alex/arse/OPMLParser.kt:70-72 | the end tag that closes a visible element is visible |
| OpmlScan.ScanSkipsOpaque | app/src/main/java/com/alex/arse/OPMLParser.kt:70-72 | nothing inside a skipped element is visible, so the scan passes over it |
| OpmlScan.NextTagVisible | app/src/main/java/com/alex/arse/OPMLParser.kt:60-62 | `nextTag()` from a transparent start tag lands on a visible event with the scan unchanged |
| OpmlScan.LoopIsScan | app/src/main/java/com/alex/arse/OPMLParser.kt:39-76 | from any visible event, a successful loop returns exactly the scan's feeds: every visible feed outline yields its feed, once, in document order, under the scan's category |
| OpmlScan.PassTag | app/src/main/java/com/alex/arse/OPMLParser.kt:60-62 | the `body`/`opml` case of `LoopIsScan` |
| OpmlScan.OutlineStep | app/src/main/java/com/alex/arse/OPMLParser.kt:63-69 | the `outline` case of `LoopIsScan`: a feed outline adds its feed, a category outline sets the category |
| OpmlScan.ParseIsScan | app/src/main/java/com/alex/arse/OPMLParser.kt:24-76 | for either importer and any document, a successful import returns exactly the scan's feeds from the first event |
| OpmlScan.ScanCount | app/src/main/java/com/alex/arse/OPMLParser.kt:39-76 | the scan has exactly one feed per visible feed outline |
| OpmlImport.OpmlParser.constructor | app/src/main/java/com/alex/arse/OPMLParser.kt:21 | a new importer has no current category |
| OpmlImport.OpmlParser.ReadOutlineAt | app/src/main/java/com/example/inventory/OPMLParser.kt:76-99 | `readOutline()` as a method on the `category` field computes `ReadOutline` and its new category |
| OpmlImport.OpmlParser.ReadOpml | app/src/main/java/com/alex/arse/OPMLParser.kt:39-76 | the imperative loop (end-tag clearing in the current dialect only; `body`/`opml` via `nextTag`; other tags skipped) computes `OpmlLoop` and the final category |
| OpmlImport.OpmlParser.Parse | app/src/main/java/com/alex/arse/OPMLParser.kt:24-36 | `parse()` computes `ParseOpml` |
| OpmlImport.ImportOpml | app/src/main/java/com/example/inventory/OPMLParser.kt:29-42 | a fresh importer's result is the feeds of `ParseOpml` |
| CategoryMap.FindKey | app/src/main/java/com/alex/arse/OPMLParser.kt:130 | `containsKey` under the case-insensitive comparator: a key equal up to case, and none exactly when no key matches |
| CategoryMap.Slot | app/src/main/java/com/alex/arse/OPMLParser.kt:133 | a new key is placed after every key not above it, before the first key above it |
| CategoryMap.PutAscending | app/src/main/java/com/alex/arse/OPMLParser.kt:133 | adding a new key keeps the keys in case-insensitive order |
| CategoryMap.AddFeedShape | app/src/main/java/com/alex/arse/OPMLParser.kt:130-134 | filing a feed appends it to the group matching its category up to case, or opens a new one-feed group at its place |
| CategoryMap.GroupedFaithful | app/src/main/java/com/alex/arse/OPMLParser.kt:127-138 | keys in case-insensitive order, each group exactly the feeds of that category up to case in input order, keyed by a category of one of them |
| CategoryMap.GroupMembers | app/src/main/java/com/alex/arse/OPMLParser.kt:127-138 | a feed is in a group exactly when it was given and its category matches the key up to case |
| CategoryMap.KeysDistinct | app/src/main/java/com/alex/arse/OPMLParser.kt:128 | no two keys are equal up to case |
| CategoryMap.OneGroupPerFeed | app/src/main/java/com/alex/arse/OPMLParser.kt:127-138 | every feed is in exactly one group |
| CategoryMap.KeyIsFirstSpelling | app/src/main/java/com/alex/arse/OPMLParser.kt:130-133 | each key is the category spelling of the first feed filed under it |
| CategoryMap.AddFeedTotal | app/src/main/java/com/alex/arse/OPMLParser.kt:130-134 | filing a feed adds one to the number of filed feeds |
| CategoryMap.GroupedTotal | app/src/main/java/com/alex/arse/OPMLParser.kt:127-138 | the groups hold as many feeds as were given |
| CategoryMap.FeedCategoryMap.constructor | app/src/main/java/com/alex/arse/OPMLParser.kt:128 | a new map is empty |
| CategoryMap.FeedCategoryMap.Clear | app/src/main/java/com/alex/arse/FeedListFragment.kt:136 | `clear()` empties the map |
| CategoryMap.FeedCategoryMap.Add | app/src/main/java/com/alex/arse/FeedListFragment.kt:138-142 | one step of the filing loop updates the groups to `AddFeed` and keeps the keys ordered |
| CategoryMap.FeedCategoryMap.AddAll | app/src/main/java/com/alex/arse/FeedListFragment.kt:137-143 | filing every feed into an empty map gives `Grouped(feeds)` |
| CategoryMap.GetMapFromFeeds | app/src/main/java/com/alex/arse/OPMLParser.kt:127-138 | a fresh map holding `Grouped(feeds)` |
| OpmlExport.FeedOutlines | app/src/main/java/com/alex/arse/OPMLParser.kt:156-164 | one feed outline per feed, in order |
| OpmlExport.CategoryOutlines | app/src/main/java/com/alex/arse/OPMLParser.kt:151-167 | one category outline per group, in order |
| OpmlExport.ExportTreeShape | app/src/main/java/com/alex/arse/OPMLParser.kt:149-169 | `opml > body`, one outline per category key in case-insensitive order with title=text=key, and inside it one outline per feed in group order with title=text=name, type="rss", xmlUrl=url, and no htmlUrl |
| OpmlExport.TreeWriter.constructor | app/src/main/java/com/alex/arse/OPMLParser.kt:143-145 | a new serializer has no open and no finished element |
| OpmlExport.TreeWriter.StartTag | app/src/main/java/com/alex/arse/OPMLParser.kt:152 | `startTag` opens a new innermost element |
| OpmlExport.TreeWriter.Attribute | app/src/main/java/com/alex/arse/OPMLParser.kt:153 | `attribute` sets a key on the innermost open element only |
| OpmlExport.TreeWriter.EndTag | app/src/main/java/com/alex/arse/OPMLParser.kt:163 | `endTag` closes the innermost element and attaches it to its parent, or finishes it at the top |
| OpmlExport.WriteFeed | app/src/main/java/com/alex/arse/OPMLParser.kt:157-163 | the feed-outline steps add that feed's outline as a child of the open category |
| OpmlExport.WriteCategory | app/src/main/java/com/alex/arse/OPMLParser.kt:152-166 | the category steps add the whole category outline as a child of `body` |
| OpmlExport.GetOpml | app/src/main/java/com/alex/arse/OPMLParser.kt:140-174 | the serializer driven step by step produces `ExportTree(feeds)` |
| OpmlExport.FeedsReadAt | app/src/main/java/com/alex/arse/OPMLParser.kt:93-103 | reading a category's feed outlines back: the first gets the category; later ones keep it only when the category survives the end tags, else "Uncategorized" |
| OpmlExport.FeedsStep | app/src/main/java/com/alex/arse/OPMLParser.kt:47-69 | the import loop over consecutive exported feed outlines returns their feeds in order |
| OpmlExport.CategoryStep | app/src/main/java/com/alex/arse/OPMLParser.kt:47-69 | the import loop over one exported category returns its feeds under its key, and leaves the category cleared (current importer) or set (older one) |
| OpmlExport.GroupsStep | app/src/main/java/com/alex/arse/OPMLParser.kt:47-69 | the import loop over all exported categories returns their feeds in order |
| OpmlExport.RoundTrip | app/src/main/java/com/alex/arse/OPMLParser.kt:140-174 | importing the exported tree, for either importer and either end-tag attribute behaviour, returns the grouped feeds read back as `GroupsRead` states |
| OpmlExport.RoundTripKeepsCategories | app/src/main/java/com/example/inventory/OPMLParser.kt:51-54 | when the category survives end tags (older importer, or end tags that report the outline's attributes), every feed comes back with its name, url and its group's key, equal to its category up to case |
| OpmlExport.RoundTripLosesCategories | app/src/main/java/com/alex/arse/OPMLParser.kt:47-52 | with the current importer and no attributes at end tags, the second feed of a group comes back "Uncategorized" |
| OpmlExport.RoundTripCount | app/src/main/java/com/alex/arse/OPMLParser.kt:140-174 | the import of an export never fails and returns as many feeds as were exported |
| OpmlExport.GroupsReadTotal | app/src/main/java/com/alex/arse/OPMLParser.kt:151-167 | the feeds read back number the feeds in the groups |
| StoreData.Parcel.constructor | app/src/main/java/com/alex/arse/data/Post.kt:63 | a new parcel is empty, read from the start |
| StoreData.Parcel.FromCells | app/src/main/java/com/alex/arse/data/Post.kt:51 | the receiving side: the same cells, read from the start |
| StoreData.Parcel.Write | app/src/main/java/com/alex/arse/data/Post.kt:64-71 | a write appends one cell |
| StoreData.Parcel.ReadInt | app/src/main/java/com/alex/arse/data/Post.kt:52-53 | `readInt` reads the cell under the cursor and moves on |
| StoreData.Parcel.ReadLong | app/src/main/java/com/alex/arse/data/Post.kt:57 | `readLong` reads the cell under the cursor and moves on |
| StoreData.Parcel.ReadString | app/src/main/java/com/alex/arse/data/Post.kt:54-56 | `readString` reads the cell under the cursor (null when it is not a string) and moves on |
| StoreData.Parcel.ReadByte | app/src/main/java/com/alex/arse/data/Post.kt:59 | `readByte` reads the cell under the cursor and moves on |
| StoreData.Encode | app/src/main/java/com/alex/arse/data/Post.kt:63-72 | the eight fields in declaration order, `read` as byte 1 or 0 |
| StoreData.DecodeEncode | app/src/main/java/com/alex/arse/data/Post.kt:51-72 | decoding what was encoded gives back an equal Post, wherever it sits in the parcel |
| StoreData.DecodeDefaults | app/src/main/java/com/alex/arse/data/Post.kt:54-58 | with nothing left to read, the strings default to "title", "author", "parcel", "content", the numbers to 0 and `read` to false |
| StoreData.WriteToParcel | app/src/main/java/com/alex/arse/data/Post.kt:63-72 | `writeToParcel` appends exactly `Encode(p)` |
| StoreData.ReadFromParcel | app/src/main/java/com/alex/arse/data/Post.kt:51-61 | `Post(parcel)` reads eight cells in order and builds `Decode` of them |
| StoreData.ReadsInOrder | app/src/main/java/com/alex/arse/data/Post.kt:52-59 | the k-th read of the constructor sees the k-th cell from the start position |
| StoreData.ParcelRoundTrip | app/src/main/java/com/alex/arse/data/Post.kt:51-72 | writing a post to a parcel and reading it on the other side gives the same post |
| Rows.Where | app/src/main/java/com/alex/arse/data/PostDao.kt:32-39 | a `WHERE`: the rows satisfying the condition, in table order |
| Rows.WhereSnoc | app/src/main/java/com/alex/arse/data/PostDao.kt:57-58 | a row appended to the table is appended to the filtered rows exactly when it satisfies the condition |
| Rows.WhereWhere | app/src/main/java/com/alex/arse/data/PostDao.kt:32 | two filters in a row are one filter by both conditions |
| Rows.Sort | app/src/main/java/com/alex/arse/data/PostDao.kt:32-39 | insertion sort on a key |
| Rows.SortSorted | app/src/main/java/com/alex/arse/data/PostDao.kt:32-39 | `ORDER BY` leaves the keys ordered |
| Rows.SortPermutes | app/src/main/java/com/alex/arse/data/PostDao.kt:32-39 | the sort neither adds nor drops rows (a permutation) |
| Rows.SortStable | app/src/main/java/com/alex/arse/FeedListFragment.kt:145-149 | rows with equal keys keep their relative order |
| Rows.SortOfSorted | app/src/main/java/com/alex/arse/FeedListFragment.kt:145-149 | sorting a sequence that is already sorted changes nothing |
| Rows.KeyFilterMember | app/src/main/java/com/alex/arse/FeedListFragment.kt:145-149 | what the per-key filter keeps is an element of the sequence with that key |
| Rows.SortedUnique | app/src/main/java/com/alex/arse/FeedListFragment.kt:145-149 | two sorted sequences holding, key by key, the same elements in the same order are equal |
| Rows.SortIsUnique | app/src/main/java/com/alex/arse/FeedListFragment.kt:145-149 | any sorted sequence that keeps, key by key, the input's elements in the input's order is the stable sort itself |
| PostDao.Inserted | app/src/main/java/com/alex/arse/data/PostDao.kt:55-58 | insert-or-ignore on (feed_id, post_id): a present key leaves the table unchanged, otherwise the post is appended; keys stay distinct |
| PostDao.InsertTwice | app/src/main/java/com/alex/arse/data/PostDao.kt:55-58 | the same post inserted twice gives one row |
| PostDao.WithRead | app/src/main/java/com/alex/arse/data/PostDao.kt:47-50 | `markRead`/`markUnread` set `read` on the row with the key and change nothing else |
| PostDao.Toggled | app/src/main/java/com/alex/arse/data/PostDao.kt:52-53 | `toggleRead` flips `read` on the row with the key and changes nothing else |
| PostDao.ToggleTwice | app/src/main/java/com/alex/arse/data/PostDao.kt:52-53 | toggling twice restores the table |
| PostDao.WithReadKeys | app/src/main/java/com/alex/arse/data/PostDao.kt:47-53 | marking and toggling keep one row per key |
| PostDao.Updated | app/src/main/java/com/alex/arse/data/PostDao.kt:60-61 | `@Update` replaces the row with the post's key |
| PostDao.Removed | app/src/main/java/com/alex/arse/data/PostDao.kt:73-74 | a row survives exactly when it is not of that feed with a listed post id |
| PostDao.RemovedIdempotent | app/src/main/java/com/alex/arse/data/PostDao.kt:73-74 | deleting the same ids twice deletes nothing more |
| PostDao.RemovedRemoved | app/src/main/java/com/alex/arse/data/PostDao.kt:73-74 | two deletions from a feed are one deletion of both id lists |
| PostDao.RemovedOtherFeeds | app/src/main/java/com/alex/arse/data/PostDao.kt:73-74 | the rows of the other feeds are left exactly as they were |
| PostDao.Select | app/src/main/java/com/alex/arse/data/PostDao.kt:32-39 | the four list queries: exactly the rows of the listed feeds (optionally unread only), ordered by timestamp ascending or descending |
| PostDao.SelectMembers | app/src/main/java/com/alex/arse/data/PostDao.kt:32-39 | a row is listed exactly when it is stored, in one of the feeds and, if asked, unread |
| PostDao.CountIsUnreadListLength | app/src/main/java/com/alex/arse/data/PostDao.kt:41-44 | the unread count is the length of the unread list |
| PostDao.PostIds | app/src/main/java/com/alex/arse/data/PostDao.kt:66 | `SELECT post_id`: the ids of the rows, in order |
| PostDao.MarkReadCount | app/src/main/java/com/alex/arse/data/PostDao.kt:41-48 | marking a stored post read lowers the unread count by one exactly when it was an unread post of those feeds |
| PostDao.PostTable.constructor | app/src/main/java/com/alex/arse/data/PostDao.kt:30 | a new table is empty |
| PostDao.PostTable.Insert | app/src/main/java/com/alex/arse/data/PostDao.kt:57-58 | `insert(post)` updates the rows to `Inserted` |
| PostDao.PostTable.MarkRead | app/src/main/java/com/alex/arse/data/PostDao.kt:47-48 | `markRead` updates the rows to `WithRead(.., true)` |
| PostDao.PostTable.MarkUnread | app/src/main/java/com/alex/arse/data/PostDao.kt:49-50 | `markUnread` updates the rows to `WithRead(.., false)` |
| PostDao.PostTable.ToggleRead | app/src/main/java/com/alex/arse/data/PostDao.kt:52-53 | `toggleRead` updates the rows to `Toggled` |
| PostDao.PostTable.Update | app/src/main/java/com/alex/arse/data/PostDao.kt:60-61 | `update(post)` updates the rows to `Updated` |
| PostDao.PostTable.Delete | app/src/main/java/com/alex/arse/data/PostDao.kt:63-64 | `delete(post)` removes the row with the post's key |
| PostDao.PostTable.DeletePostFromFeed | app/src/main/java/com/alex/arse/data/PostDao.kt:69-70 | removes the one row with that key |
| PostDao.PostTable.DeletePostsFromFeed | app/src/main/java/com/alex/arse/data/PostDao.kt:73-74 | removes the feed's rows with listed ids |
| PostDao.PostTable.GetPostIdsInFeedDescNow | app/src/main/java/com/alex/arse/data/PostDao.kt:66-67 | the ids of the feed's rows, newest first |
| FeedDao.InsertedFeed | app/src/main/java/com/alex/arse/data/FeedDao.kt:49-50 | insert-or-ignore with an `AUTOINCREMENT` id: id 0 gets the next id; a taken id is ignored; a free id (negative ones too) is stored as given and raises the counter if larger; ids stay distinct, non-zero and at most the counter; once the counter is 2^31 - 1 an id-0 feed is not added |
| FeedDao.InsertFeedTwice | app/src/main/java/com/alex/arse/data/FeedDao.kt:49-50 | inserting the same feed again changes nothing |
| FeedDao.UpdatedFeed | app/src/main/java/com/alex/arse/data/FeedDao.kt:52-53 | `update` replaces the row with the feed's id and leaves every other row and every id |
| FeedDao.DeletedFeed | app/src/main/java/com/alex/arse/data/FeedDao.kt:44-45 | `delete(feedId)` removes exactly the rows with that id |
| FeedDao.DeleteKeepsOthers | app/src/main/java/com/alex/arse/data/FeedDao.kt:55-56 | deleting keeps the other rows in their order |
| FeedDao.NameLeTotal | app/src/main/java/com/alex/arse/data/FeedDao.kt:32 | name order is a total order |
| FeedDao.ByName | app/src/main/java/com/alex/arse/data/FeedDao.kt:37-38 | `ORDER BY name ASC`: the same rows, sorted by name, ties in table order |
| FeedDao.AllFeeds | app/src/main/java/com/alex/arse/data/FeedDao.kt:32-38 | `getFeeds`/`getAllFeedsNow`: every feed, sorted by name |
| FeedDao.FeedsWithIds | app/src/main/java/com/alex/arse/data/FeedDao.kt:39-40 | `getFeedsNow(ids)`: the feeds with a listed id, sorted by name |
| FeedDao.FeedsWithIdsMembers | app/src/main/java/com/alex/arse/data/FeedDao.kt:39-40 | a feed is listed exactly when it is stored with a listed id |
| FeedDao.FeedWithId | app/src/main/java/com/alex/arse/data/FeedDao.kt:41-42 | `getFeedNow(id)`: a stored feed with that id, and none exactly when there is none |
| FeedDao.FeedWithIdUnique | app/src/main/java/com/alex/arse/data/FeedDao.kt:41-42 | with distinct ids, the feed found is the row with that id |
| FeedDao.FeedTable.constructor | app/src/main/java/com/alex/arse/data/FeedDao.kt:30 | a new table is empty, with counter 0 |
| FeedDao.FeedTable.Insert | app/src/main/java/com/alex/arse/data/FeedDao.kt:49-50 | `insert(feed)` updates rows and counter to `InsertedFeed` |
| FeedDao.FeedTable.Update | app/src/main/java/com/alex/arse/data/FeedDao.kt:52-53 | `update(feed)` updates the rows to `UpdatedFeed` |
| FeedDao.FeedTable.DeleteId | app/src/main/java/com/alex/arse/data/FeedDao.kt:44-45 | `delete(feedId)` updates the rows to `DeletedFeed` |
| FeedDao.FeedTable.Delete | app/src/main/java/com/alex/arse/data/FeedDao.kt:55-56 | `delete(feed)` deletes by the feed's id |
| FeedDao.FeedTable.GetAllFeedsNow | app/src/main/java/com/alex/arse/data/FeedDao.kt:37-38 | returns `AllFeeds` of the rows |
| FeedDao.FeedTable.GetFeedsNow | app/src/main/java/com/alex/arse/data/FeedDao.kt:39-40 | returns `FeedsWithIds` of the rows |
| FeedDao.FeedTable.GetFeedNow | app/src/main/java/com/alex/arse/data/FeedDao.kt:41-42 | returns `FeedWithId` of the rows |
| ViewModel.GetNewFeed | app/src/main/java/com/alex/arse/ViewModel.kt:199-207 | a feed with the given fields, id 0 (not stored yet) and content hash 0 |
| ViewModel.NewFeedGetsNextId | app/src/main/java/com/alex/arse/ViewModel.kt:96-102 | a new feed, once inserted, is stored under the next free id |
| ViewModel.EditedFeed | app/src/main/java/com/alex/arse/ViewModel.kt:35-38 | `updateFeed(id, ..)` builds the record with htmlUrl "" and content hash 0 |
| ViewModel.HashUpdated | app/src/main/java/com/alex/arse/ViewModel.kt:39-42 | `updateFeedHash` keeps id, url, name and category, sets the hash and resets htmlUrl to "" |
| ViewModel.HashUpdateChangesOneRow | app/src/main/java/com/alex/arse/ViewModel.kt:39-42 | storing a stored feed's new hash changes that row's hash and site link and no other row |
| ViewModel.HashUpdateTwice | app/src/main/java/com/alex/arse/ViewModel.kt:39-42 | the hash stored last is the one that stays |
| ViewModel.IsFeedEntryValid | app/src/main/java/com/alex/arse/ViewModel.kt:180-185 | true exactly when url and name both trim to something; the category is ignored |
| ViewModel.BlankTrimsToEmpty | app/src/main/java/com/alex/arse/ViewModel.kt:181 | `isBlank` holds exactly when `trim` leaves nothing |
| ViewModel.PostsInFeeds | app/src/main/java/com/alex/arse/ViewModel.kt:151-165 | one of the four queries: the posts of the feeds (unread only unless asked) ordered ascending unless asked; defaults unread-only, ascending |
| ViewModel.Chunked | app/src/main/java/com/alex/arse/ViewModel.kt:114 | `chunked(10)`: non-empty chunks of at most 10, all but the last exactly 10, whose concatenation is the list |
| ViewModel.FlattenPrefix | app/src/main/java/com/alex/arse/ViewModel.kt:114-116 | one more chunk deleted is that chunk appended to the ids deleted so far |
| ViewModel.NewestFirstIds | app/src/main/java/com/alex/arse/ViewModel.kt:111 | the newest-first id list names each of the feed's posts once |
| ViewModel.PrunedFeedRows | app/src/main/java/com/alex/arse/ViewModel.kt:113-116 | deleting a tail of ids from a feed keeps that feed's rows whose ids are outside it |
| ViewModel.PruneSmallFeed | app/src/main/java/com/alex/arse/ViewModel.kt:111-112 | a feed with at most maxPosts posts is left as it is |
| ViewModel.PruneCount | app/src/main/java/com/alex/arse/ViewModel.kt:106-117 | afterwards the feed has min(n, maxPosts) posts |
| ViewModel.PruneKeepsNewest | app/src/main/java/com/alex/arse/ViewModel.kt:112-116 | of the feed, exactly the posts whose ids are among the first maxPosts of the newest-first list remain |
| ViewModel.PruneOtherFeeds | app/src/main/java/com/alex/arse/ViewModel.kt:106-117 | other feeds' rows are left exactly as they were |
| ViewModel.PruneIdempotent | app/src/main/java/com/alex/arse/ViewModel.kt:106-117 | pruning twice to the same bound prunes no further |
| ViewModel.ArseViewModel.constructor | app/src/main/java/com/alex/arse/ViewModel.kt:31 | the view model holds the two tables |
| ViewModel.ArseViewModel.UpdateFeed | app/src/main/java/com/alex/arse/ViewModel.kt:35-38 | the feed table is updated with `EditedFeed` |
| ViewModel.ArseViewModel.UpdateFeedHash | app/src/main/java/com/alex/arse/ViewModel.kt:39-42 | the feed table is updated with `HashUpdated` |
| ViewModel.ArseViewModel.MarkPostRead | app/src/main/java/com/alex/arse/ViewModel.kt:73-77 | delegates to `markRead` |
| ViewModel.ArseViewModel.MarkPostUnread | app/src/main/java/com/alex/arse/ViewModel.kt:78-82 | delegates to `markUnread` |
| ViewModel.ArseViewModel.TogglePostRead | app/src/main/java/com/alex/arse/ViewModel.kt:83-87 | delegates to `toggleRead` |
| ViewModel.ArseViewModel.AddNewPost | app/src/main/java/com/alex/arse/ViewModel.kt:92-95 | insert-or-ignore of the post |
| ViewModel.ArseViewModel.AddNewFeed | app/src/main/java/com/alex/arse/ViewModel.kt:96-98 | insert-or-ignore of the feed |
| ViewModel.ArseViewModel.AddNewFeedEntry | app/src/main/java/com/alex/arse/ViewModel.kt:99-102 | inserts `getNewFeed(url, name, "todo", category)` |
| ViewModel.ArseViewModel.DeleteFeed | app/src/main/java/com/alex/arse/ViewModel.kt:138-142 | deletes the feed row; its posts stay |
| ViewModel.ArseViewModel.RetrievePostsInFeeds | app/src/main/java/com/alex/arse/ViewModel.kt:151-165 | returns `PostsInFeeds` of the post table |
| ViewModel.ArseViewModel.CountUnreadPosts | app/src/main/java/com/alex/arse/ViewModel.kt:170-175 | the count handed to the callback is the unread count of those feeds |
| ViewModel.ArseViewModel.DeleteInChunks | app/src/main/java/com/alex/arse/ViewModel.kt:114-116 | one delete per chunk, in order, removes the concatenation of the chunks |
| ViewModel.ArseViewModel.PrunePosts | app/src/main/java/com/alex/arse/ViewModel.kt:106-119 | the table becomes `PrunedRows`; a negative bound makes `subList` throw before any deletion |
| Fetch.ShortContentHash | app/src/main/java/com/alex/arse/FeedParser.kt:403 | for downloads of at most 1000 UTF-16 units the gate hash is the whole text's `hashCode` |
| Fetch.ContentHashPrefix | app/src/main/java/com/alex/arse/FeedParser.kt:403 | anything after the first 1000 units does not change the gate hash |
| Fetch.StoredPosts | app/src/main/java/com/alex/arse/FeedParser.kt:431-434 | each parsed post becomes the stored Post with its fields, description dropped |
| Fetch.InsertAll | app/src/main/java/com/alex/arse/FeedParser.kt:431-434 | inserting the posts in order keeps the old rows as a prefix, adds only given posts, leaves every key present and keeps keys distinct |
| Fetch.InsertAllAgain | app/src/main/java/com/alex/arse/FeedParser.kt:431-434 | inserting the same posts a second time changes nothing |
| Fetch.FeedAfterLoad | app/src/main/java/com/alex/arse/FeedParser.kt:403-410 | a download stores the new gate hash and keeps id, url, name and category; no download leaves the feed |
| Fetch.UnchangedContentSkips | app/src/main/java/com/alex/arse/FeedParser.kt:405-408 | an equal hash: no hash update, no parse, no posts; only the prune runs |
| Fetch.ReloadParsesNothing | app/src/main/java/com/alex/arse/FeedParser.kt:403-410 | fetching the same text again after the hash was stored parses nothing |
| Fetch.LateChangeMissed | app/src/main/java/com/alex/arse/FeedParser.kt:402-403 | a change after the first 1000 units is not seen: the feed is skipped |
| Fetch.ReloadIsNoop | app/src/main/java/com/alex/arse/FeedParser.kt:403-441 | fetching a second time after a first successful fetch leaves the post table as the first left it |
| Fetch.LoadBound | app/src/main/java/com/alex/arse/FeedParser.kt:431-441 | after a fetch the feed holds min(n, 200) posts, n being its count after insertion |
| Fetch.AddEntries | app/src/main/java/com/alex/arse/FeedParser.kt:431-434 | the `addNewPost` loop leaves `InsertAll` of the posts |
| Fetch.LoadXmlFromNetwork | app/src/main/java/com/alex/arse/FeedParser.kt:396-445 | skip on an equal hash; otherwise store the hash, then trim and parse; XML and missing-file errors give no posts; insert, prune to 200 and report done; other errors stop after the hash update |
| FeedList.SortGroups | app/src/main/java/com/alex/arse/FeedListFragment.kt:145-149 | every group sorted, keys and their order untouched |
| FeedList.SortGroupFacts | app/src/main/java/com/alex/arse/FeedListFragment.kt:146-148 | a sorted group holds the same feeds, ordered by lower-cased name, with equal names in their old order |
| FeedList.ViewGroupsFaithful | app/src/main/java/com/alex/arse/FeedListFragment.kt:136-149 | keys in case-insensitive order; group i holds exactly the feeds of its category up to case, sorted stably by lower-cased name |
| FeedList.ViewGroupMembers | app/src/main/java/com/alex/arse/FeedListFragment.kt:137-149 | a feed is shown in a group exactly when it is listed and its category matches the key up to case |
| FeedList.ViewOneGroupPerFeed | app/src/main/java/com/alex/arse/FeedListFragment.kt:137-143 | every listed feed is shown in exactly one group |
| FeedList.ViewGroupsTotal | app/src/main/java/com/alex/arse/FeedListFragment.kt:137-143 | the groups show as many feeds as the list has |
| FeedList.SortEach | app/src/main/java/com/alex/arse/FeedListFragment.kt:145-149 | the in-place sorting loop leaves `SortGroups` of the old groups |
| FeedList.FeedListView.constructor | app/src/main/java/com/alex/arse/FeedListFragment.kt:58-60 | the view starts with an empty category map |
| FeedList.FeedListView.OnFeeds | app/src/main/java/com/alex/arse/FeedListFragment.kt:134-151 | the observer leaves `ViewGroups(feeds)`, which depends only on the current list |
| FeedList.FeedListView.OpenMultiFeed | app/src/main/java/com/alex/arse/FeedListFragment.kt:167-176 | for a valid position, arrays of the group's size with `feedIds[i]` and `feedUrls[i]` from the same feed, the i-th of the group; a position outside the groups throws |

## Left out

- Networking is not modelled: `downloadUrl`, redirect following, connectivity checks and the `sPref` flags (`FeedParser.kt:361-385`, `449-494`), and both `NetworkActivity` classes. The download is a parameter of `Fetch.LoadXmlFromNetwork`: `None` for the null stream or a `FileNotFoundException`. Other I/O exceptions are not modelled.
- Coroutines and threading (`GlobalScope.launch`, `viewModelScope.launch`, `Handler.postDelayed`, `runOnUiThread`), Toasts and logging are left out. Calls run in program order, so the prune comes after the inserts, and the prune/insert race the code warns about is not modelled.
- Bytes to events: the pull parser's lexing of XML text is a parameter `lex` of the fetch step. The parsers take the event sequence the pull parser would report. Which attributes an end tag reports is an explicit `EndAttrs` choice.
- Jsoup HTML stripping and `SimpleDateFormat` parsing are foreign library calls. They are fields of a `Foreign` value passed in, so the model knows nothing about them beyond their use. No calendar arithmetic is modelled.
- XmlSerializer rendering is left out: the declaration, indentation, escaping and the string result. The exporter produces an element tree.
- Room, Flow and LiveData reactivity are left out. The tables are sequences of rows with functions for the queries. `getFeed`, `retrieveFeed`, `countUnreadPostsInFeedsLive` and the `retrieve…AndRunCallback` wrappers (`ViewModel.kt:54-71`) hand the same query results to an observer or callback, and are modelled by the `FeedTable` query methods.
- `StoreData.Parcel.ReadInt`, `StoreData.Parcel.ReadLong`, `StoreData.Parcel.ReadString`, `StoreData.Parcel.ReadByte`: a parcel is modelled as typed cells, and reading a cell of another kind gives the default (0, or null for a string). Android's `Parcel` is a byte buffer and would reinterpret the bytes written for the other kind. Only the matching write/read order of `Post` is covered by the round trip.
- `FeedDao.InsertedFeed`: the 2^31 wrap is not modelled. SQLite's `AUTOINCREMENT` counter is 64-bit: once it has reached 2^31 - 1, for instance after one explicit insert of that id, it hands out 2^31, which Room reads back into the `Int` id wrapped. The model refuses that insert and leaves the table unchanged instead.
- `FeedDao.FeedWithId`: `getFeedNow` returns a non-null `Feed` in Kotlin. The model returns `None` where Room would fail to build a result.
- Sorted ties: `ORDER BY` ties are modelled as kept in table order, a choice SQLite does not promise.
- `JavaLang.ToLower`: lower-cases ASCII letters only. Other characters are kept, unlike Java's full Unicode case mapping.
- `JavaLang.LexLess`: orders strings by code point. The category map's comparator and the group sort of `FeedList.SortGroup` (through `FeedDao.NameLe`, for `compareBy { it.name.toLowerCase() }`) compare UTF-16 units. The two orders differ only for characters outside the Basic Multilingual Plane.
- `FeedParser.Assemble`: the description is cut at whole characters. When a character outside the Basic Multilingual Plane straddles unit 300, Java's `substring` keeps its high surrogate alone, giving 300 units. The model's strings hold only whole characters, so it leaves that character out and keeps 299 units. `FeedParser.AssembleFields` and `FeedParser.AssembleDescriptionBound` state that bound, not the lone surrogate.
- `Feed.kt` is not part of this model. The feed record `Feed(id, url, name, htmlUrl, category, contentHash)` is inferred from `getUpdatedFeed` and `getNewFeed` (`ViewModel.kt:187-207`). The older tree's four-argument `Feed(url, name, htmlUrl, category)` is taken to be the same record with id 0 and hash 0.
- The older tree's `ViewModel`, `InventoryViewModel`, `Item`/`ItemDao` and its `loadXmlFromNetwork` are not modelled. They are thin wrappers, and `ItemDao` and `Item` disagree on their key column. The older parser's `Item` record is modelled as its parser builds it.
- UI files are not modelled: fragments, list adapters and the view pager. Of `FeedListFragment`, only the observer and `openMultiFeed` are modelled. Navigation to the post list becomes returning the two arrays.
- `FeedList.SortEach`: the group lists are values in `FeedCategoryMap.groups`, so `sortWith`'s in-place update of a list that others may alias is not modelled.
- `OpmlExport.TreeWriter.Attribute`: the serializer's rule that attributes may only follow `startTag` is modelled as the precondition that an element is open.
- `ViewModel.ArseViewModel.PrunePosts`: a negative `maxPosts` is reported as `ok == false` with the table unchanged. This stands for the exception `subList` throws.
- The older `OPMLParser`'s `readLink` and `readText` are never called by its `readOPML`. They are modelled by `XmlPull.ReadLink`/`XmlPull.ReadText`, which the feed parsers share.
